# AbstractWidget, modelled in Dafny

This project models the base class `Arrilot\Widgets\AbstractWidget` of laravel-widgets.
The class holds one widget's settings:

- a configuration array;
- an array of wrapper attributes;
- reload, cache and encryption metadata;
- a list of cache tags.

It merges a caller's overrides onto the configuration and attributes at construction. It seeds
additional defaults through `addConfigDefaults` and `addAttributesDefaults`. It derives the cache
key and the cache tags that an external cache store uses, and it supplies the placeholder and
container descriptors that an external renderer uses for asynchronous widgets.

Two modules:

- `PhpArrays` (`php_arrays.dfy`) models the PHP arrays the class works on. A PHP array is an
  ordered dictionary, so it is a sequence of key/value entries with distinct keys, and a key is
  an integer or a string. The module defines the operations the class uses:
  - `$a[$k]` (`Get`);
  - `$a[$k] = $v` (`Assign`);
  - `array_merge` (`ArrayMerge`), which overwrites string keys in place and appends
    integer-keyed values under renumbered keys;
  - `array_unique` (`Unique`), which keeps the first entry of each value together with its key;
  - list literals (`ListOf`).
- `Widgets` (`abstract_widget.dfy`) models the class itself as `Widget`:
  - `Declare` sets the declared property values of a widget class.
  - `Construct` is the constructor body. Its two loops are the methods `OverrideConfig` and
    `OverrideAttributes`. Each one updates its array in place and is proved against the
    specification function `ApplyOverrides`.
  - `AddConfigDefaults` and `AddAttributesDefaults` reassign the two arrays.
  - `CacheKey`, `CacheTags`, `Placeholder` and `Container` are pure functions.

Three facts about the code shape the model:

- Every cache key starts with the prefix `arrilot.widgets.` (src/AbstractWidget.php:139).
- The constructor tests whether the *override* is an array (src/AbstractWidget.php:91, :98). If
  it is, the constructor passes the stored value to `array_merge`. When that key is missing or
  holds a non-array, `array_merge` raises a TypeError (src/AbstractWidget.php:92, :99).
- The constructor is therefore partial. `ApplyOverrides` returns `TypeError(key)` in that case.
  `Construct` requires the merge to be defined (`Applicable`). `ApplyOverridesDefined` proves
  that this is exactly the condition under which `ApplyOverrides` succeeds.

## Model

| member | source | states |
|---|---|---|
| `PhpArrays.Get` | src/AbstractWidget.php:92 | `$a[$k]` finds a value exactly when `k` is a key of the array, and the value found is one stored with `k` |
| `PhpArrays.GetStored` | src/AbstractWidget.php:92 | in an array with distinct keys, `$a[$k]` is the value stored with `k` |
| `PhpArrays.Assign` | src/AbstractWidget.php:94 | after `$a[$k] = $v`, `k` holds `v`, the key set gains `k`, and keys stay distinct |
| `PhpArrays.AssignOther` | src/AbstractWidget.php:94 | `$a[$k] = $v` leaves the value of every other key unchanged |
| `PhpArrays.AssignKeySeq` | src/AbstractWidget.php:101 | assignment keeps every existing key at its position and appends a new key at the end |
| `PhpArrays.ArrayMergeWellFormed` | src/AbstractWidget.php:159 | `array_merge` yields distinct keys; its integer-keyed values are those of the first array, then those of the second, renumbered into [0, count) |
| `PhpArrays.ArrayMergeStringKey` | src/AbstractWidget.php:92 | for every string key, `array_merge($a, $b)` holds `$b`'s value if `$b` has the key, else `$a`'s |
| `PhpArrays.ArrayMergeLists` | src/AbstractWidget.php:149 | `array_merge` of two lists is their concatenation, keyed from 0 |
| `PhpArrays.UniqueSpec` | src/AbstractWidget.php:149 | `array_unique` keeps exactly the first occurrence of each value, with its key, in order; no value is repeated or lost |
| `Widgets.ApplyOverridesStep` | src/AbstractWidget.php:90-95 | one loop iteration: an array override meets an array, and the rest of the merge continues from the assigned array |
| `Widgets.ApplyOverridesDefined` | src/AbstractWidget.php:91-92 | the merge succeeds iff every array override meets an array already stored under its key; a failure names such a key |
| `Widgets.ApplyOverridesKeyOrder` | src/AbstractWidget.php:90-95 | old keys keep their positions, and keys new to the array follow in override order |
| `Widgets.ApplyOverridesKeys` | src/AbstractWidget.php:90-95 | the key set becomes old keys ∪ override keys, and keys stay distinct |
| `Widgets.ApplyOverridesValues` | src/AbstractWidget.php:90-95 | each overridden key holds its override resolved against its old value; every other key keeps its old value |
| `Widgets.ScalarOverride` | src/AbstractWidget.php:94 | a non-array override is the key's value afterwards |
| `Widgets.NestedOverride` | src/AbstractWidget.php:91-93 | an array override is merged one level deep: per string key the override wins, otherwise the stored value stays; integer-keyed values are appended |
| `Widgets.Widget.Declare` | src/AbstractWidget.php:13-80 | a new widget's properties hold the values its class declares |
| `Widgets.Widget.Construct` | src/AbstractWidget.php:88-103 | the two loops leave `config` and `attributes` equal to `ApplyOverrides` of their old values; no other property changes |
| `Widgets.Widget.OverrideConfig` | src/AbstractWidget.php:90-95 | the loop over the configuration overrides leaves `config` equal to `ApplyOverrides` of its old value, with distinct keys |
| `Widgets.Widget.OverrideAttributes` | src/AbstractWidget.php:97-102 | the loop over the attribute overrides leaves `attributes` equal to `ApplyOverrides` of its old value, with distinct keys |
| `Widgets.Widget.Placeholder` | src/AbstractWidget.php:111-114 | the placeholder is the empty string |
| `Widgets.Widget.Container` | src/AbstractWidget.php:122-128 | the container has exactly the keys `element` = `div` and `attributes` = the inline-style/class string |
| `Widgets.Widget.CacheKey` | src/AbstractWidget.php:137-140 | every cache key starts with `arrilot.widgets.` |
| `Widgets.CacheKeyInjective` | src/AbstractWidget.php:139 | two cache keys are equal exactly when the serializations of their parameters are equal |
| `Widgets.Widget.CacheTags` | src/AbstractWidget.php:147-150 | the tags start with `widgets` under key 0, hold no duplicates, hold exactly `widgets` and the widget's tags, follow first-occurrence order, and keep the keys of the merged list |
| `Widgets.NestedMergeExample` | src/AbstractWidget.php:90-95 | declared `count` = 5, `opts` = ['x' => 1] with override `opts` = ['y' => 2] gives `count` = 5, `opts` = ['x' => 1, 'y' => 2] |
| `Widgets.MergedTags` | src/AbstractWidget.php:149 | `array_merge(['widgets'], $tags)` on a list of tags is that list with `widgets` in front, keyed from 0 |
| `Widgets.CacheTagsExample` | src/AbstractWidget.php:149 | tags ['widgets', 'custom'] give 'widgets' under key 0 and 'custom' under key 2 |
| `Widgets.Widget.AddConfigDefaults` | src/AbstractWidget.php:157-160 | `config` becomes `array_merge(config, defaults)`: a string key of `defaults` overwrites, other string keys keep their values, integer-keyed values are appended |
| `Widgets.Widget.AddAttributesDefaults` | src/AbstractWidget.php:167-170 | the same for `attributes` |
| `Widgets.NewWidget` | src/AbstractWidget.php:88-103 | a widget constructed with no arguments keeps its declared `config`, `attributes` and cache tags, content and order |
| `Widgets.NewBaseWidget` | src/AbstractWidget.php:28-88 | with the base class's own declarations, `config` and `attributes` are empty and the cache tags are exactly `[0 => 'widgets']` |

## Left out

- Floating-point values of `reloadTimeout` and `cacheTime` are not modelled, because Dafny has no PHP floats. These properties are carried as booleans or integers.
- The meaning of `reloadTimeout`, `cacheTime` and `encryptParams` is not modelled. An external renderer, cache store and reload endpoint read them, and none of those is part of this model. The model only proves that the constructor leaves them unchanged.
- The `title`, `titleClass`, `description`, `hideTitle`, `titleElement` and `wrapper` properties are not modelled. They are plain data with no logic, and `Construct` may modify only `config` and `attributes`.
- PHP's `serialize` is a parameter of `CacheKey`, because its format belongs to the PHP runtime.
- PHP normalises numeric string keys such as `"5"` to integer keys. The model does not do this; keys are taken as already normalised.
- `array_unique` compares values by their string casts. `Unique` compares values by equality instead, which gives the same result on strings, and strings are the only values it is applied to.
- `cacheTags` is modelled as a list of strings. Tag arrays with string keys or non-string tags are not modelled.
- `Widgets.Widget.Construct` requires the merge to be defined instead of raising a TypeError partway through a loop, so the partly updated object that the exception discards is not modelled. Under PHP 7, `array_merge` on null gives a warning and returns null instead of raising; that behaviour is not modelled either.
- `PhpArrays.ArrayMergeStringKey` states the value of every string key of an `array_merge` result, but not the position of that key.
- Nested arrays are not required to have distinct keys. `Valid` constrains only the top level of `config` and `attributes`, so `Widgets.NestedOverride` takes distinct keys of the two nested arrays as hypotheses.
- Subclasses that override `placeholder`, `container`, `cacheKey` or `cacheTags` are not modelled; the model covers the base implementations.
- Rendering, the asynchronous reload endpoint, cache storage and flushing by tag are external collaborators and are not modelled.
