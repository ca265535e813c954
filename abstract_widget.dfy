/**
 The widget base class: a widget's settings (configuration, wrapper
 attributes, cache and reload metadata), the merge of caller overrides onto
 them at construction, default seeding, and the cache key, cache tags and
 markup descriptors that an external renderer and cache store read.
 */
module Widgets {
  import opened PhpArrays

  /** Result of the constructor's merge: the new array, or the key whose array_merge raised a TypeError. */
  datatype MergeOutcome = Merged(result: PArray) | TypeError(key: Key)

  predicate IsArray(v: Option<Value>)
  {
    v.Some? && v.value.Arr?
  }

  /**
   The value the constructor stores under a key for one override: an array
   override is array_merge'd onto the array already stored there (None when
   there is no array there: array_merge rejects null and scalars); any other
   override is stored as it is.
   */
  function Resolve(existing: Option<Value>, override: Value): Option<Value>
  {
    if override.Arr? then
      if IsArray(existing) then Some(Arr(ArrayMerge(existing.value.entries, override.entries))) else None
    else Some(override)
  }

  /** What one of the constructor's loops does to `current`, override by override, in order. */
  function ApplyOverrides(current: PArray, overrides: PArray): MergeOutcome
    decreases |overrides|
  {
    if overrides == [] then Merged(current)
    else
      var e := overrides[0];
      match Resolve(Get(current, e.key), e.val)
      case None => TypeError(e.key)
      case Some(v) => ApplyOverrides(Assign(current, e.key, v), overrides[1..])
  }

  /** The constructor's loop is defined: every array override meets an array already stored under its key. */
  predicate Applicable(current: PArray, overrides: PArray)
  {
    forall i | 0 <= i < |overrides| :: overrides[i].val.Arr? ==> IsArray(Get(current, overrides[i].key))
  }

  /** The keys of `overrides` that are not in `present`, in the order of `overrides`. */
  function NewKeys(overrides: PArray, present: set<Key>): seq<Key>
  {
    if overrides == [] then []
    else (if overrides[0].key in present then [] else [overrides[0].key]) + NewKeys(overrides[1..], present)
  }

  lemma {:induction false} GetFirst(a: PArray)
    requires a != [] && UniqueKeys(a)
    ensures Get(a, a[0].key) == Some(a[0].val)
    ensures forall k | k != a[0].key :: Get(a, k) == Get(a[1..], k)
    ensures Get(a[1..], a[0].key) == None
  {
  }

  lemma {:induction false} NewKeysIgnore(overrides: PArray, present: set<Key>, x: Key)
    requires x !in Keys(overrides)
    ensures NewKeys(overrides, present + {x}) == NewKeys(overrides, present)
  {
    if overrides != [] {
      NewKeysIgnore(overrides[1..], present, x);
    }
  }

  lemma Regroup(xs: seq<Key>, ys: seq<Key>, zs: seq<Key>)
    ensures (xs + ys) + zs == xs + (ys + zs)
  {
  }

  /** The first override key is new exactly when it is absent; later keys are new relative to both. */
  lemma NewKeysFirst(overrides: PArray, present: set<Key>)
    requires overrides != [] && UniqueKeys(overrides)
    ensures NewKeys(overrides, present) ==
      (if overrides[0].key in present then [] else [overrides[0].key]) +
      NewKeys(overrides[1..], present + {overrides[0].key})
  {
    NewKeysIgnore(overrides[1..], present, overrides[0].key);
  }

  /** One iteration of the constructor's loop, at position `i` of `overrides`. */
  lemma ApplyOverridesStep(current: PArray, overrides: PArray, i: int)
    requires 0 <= i < |overrides| && ApplyOverrides(current, overrides[i..]).Merged?
    ensures var e := overrides[i];
            var v := Resolve(Get(current, e.key), e.val);
            && v.Some?
            && (e.val.Arr? ==> IsArray(Get(current, e.key)))
            && ApplyOverrides(current, overrides[i..]) == ApplyOverrides(Assign(current, e.key, v.value), overrides[i + 1..])
  {
    assert overrides[i..][0] == overrides[i] && overrides[i..][1..] == overrides[i + 1..];
  }

  /**
   The constructor's loop fails exactly when some array override meets a key
   that is absent or holds a non-array, and it then names such a key.
   */
  lemma {:induction false} ApplyOverridesDefined(current: PArray, overrides: PArray)
    requires UniqueKeys(overrides)
    ensures ApplyOverrides(current, overrides).Merged? <==> Applicable(current, overrides)
    ensures ApplyOverrides(current, overrides).TypeError? ==>
              var k := ApplyOverrides(current, overrides).key;
              Get(overrides, k).Some? && Get(overrides, k).value.Arr? && !IsArray(Get(current, k))
    decreases |overrides|
  {
    if overrides != [] {
      var e, rest := overrides[0], overrides[1..];
      GetFirst(overrides);
      var v := Resolve(Get(current, e.key), e.val);
      if v.None? {
        assert !(e.val.Arr? ==> IsArray(Get(current, e.key)));
      } else {
        var next := Assign(current, e.key, v.value);
        ApplyOverridesDefined(next, rest);
        assert Applicable(next, rest) <==> Applicable(current, overrides) by {
          forall i | 0 <= i < |rest|
            ensures Get(next, rest[i].key) == Get(current, rest[i].key)
          {
            KeyAt(rest, i);
            AssignOther(current, e.key, v.value, rest[i].key);
          }
          assert forall i | 0 <= i < |rest| :: rest[i] == overrides[i + 1];
        }
        var r := ApplyOverrides(next, rest);
        if r.TypeError? {
          assert Get(rest, r.key).Some?;
          assert r.key != e.key;
          AssignOther(current, e.key, v.value, r.key);
        }
      }
    }
  }

  /**
   After a successful merge the old keys keep their positions and the keys new
   to `current` follow in the order of `overrides`.
   */
  lemma {:induction false} ApplyOverridesKeyOrder(current: PArray, overrides: PArray)
    requires UniqueKeys(overrides) && ApplyOverrides(current, overrides).Merged?
    ensures KeySeq(ApplyOverrides(current, overrides).result) == KeySeq(current) + NewKeys(overrides, Keys(current))
    decreases |overrides|
  {
    if overrides != [] {
      var e, rest := overrides[0], overrides[1..];
      var v := Resolve(Get(current, e.key), e.val);
      var next := Assign(current, e.key, v.value);
      var added := if e.key in Keys(current) then [] else [e.key];
      assert ApplyOverrides(current, overrides) == ApplyOverrides(next, rest);
      AssignKeySeq(current, e.key, v.value);
      ApplyOverridesKeyOrder(next, rest);
      NewKeysFirst(overrides, Keys(current));
      assert Keys(next) == Keys(current) + {e.key};
      Regroup(KeySeq(current), added, NewKeys(rest, Keys(next)));
    }
  }

  /**
   After a successful merge the key set has only grown, to the union of the old
   keys and the override keys, and it is still free of duplicates.
   */
  lemma {:induction false} ApplyOverridesKeys(current: PArray, overrides: PArray)
    requires UniqueKeys(overrides) && ApplyOverrides(current, overrides).Merged?
    ensures Keys(ApplyOverrides(current, overrides).result) == Keys(current) + Keys(overrides)
    ensures UniqueKeys(current) ==> UniqueKeys(ApplyOverrides(current, overrides).result)
    decreases |overrides|
  {
    if overrides != [] {
      var e, rest := overrides[0], overrides[1..];
      var v := Resolve(Get(current, e.key), e.val);
      var next := Assign(current, e.key, v.value);
      assert ApplyOverrides(current, overrides) == ApplyOverrides(next, rest);
      ApplyOverridesKeys(next, rest);
    }
  }

  /**
   After a successful merge, every key of `overrides` holds its override
   resolved against the value `current` had there, and every other key holds
   its old value.
   */
  lemma {:induction false} ApplyOverridesValues(current: PArray, overrides: PArray, k: Key)
    requires UniqueKeys(overrides) && ApplyOverrides(current, overrides).Merged?
    ensures Get(ApplyOverrides(current, overrides).result, k) ==
              if k in Keys(overrides) then Resolve(Get(current, k), Get(overrides, k).value) else Get(current, k)
    decreases |overrides|
  {
    if overrides != [] {
      var e, rest := overrides[0], overrides[1..];
      GetFirst(overrides);
      var v := Resolve(Get(current, e.key), e.val);
      var next := Assign(current, e.key, v.value);
      if k != e.key {
        AssignOther(current, e.key, v.value, k);
      }
      ApplyOverridesValues(next, rest, k);
    }
  }

  /** A non-array override is what the key holds afterwards. */
  lemma ScalarOverride(current: PArray, overrides: PArray, k: Key, v: Value)
    requires UniqueKeys(overrides) && ApplyOverrides(current, overrides).Merged?
    requires Get(overrides, k) == Some(v) && !v.Arr?
    ensures Get(ApplyOverrides(current, overrides).result, k) == Some(v)
  {
    ApplyOverridesValues(current, overrides, k);
  }

  /**
   An array override is merged one level deep onto the array stored before:
   for each string key the override's value wins, else the old value stays,
   and the integer-keyed values of both follow one another.
   */
  lemma NestedOverride(current: PArray, overrides: PArray, k: Key, stored: PArray, override: PArray)
    requires UniqueKeys(overrides) && ApplyOverrides(current, overrides).Merged?
    requires Get(current, k) == Some(Arr(stored)) && Get(overrides, k) == Some(Arr(override))
    requires UniqueKeys(stored) && UniqueKeys(override)
    ensures var r := Get(ApplyOverrides(current, overrides).result, k);
            && IsArray(r)
            && (forall s: string :: Get(r.value.entries, StrKey(s)) ==
                  if StrKey(s) in Keys(override) then Get(override, StrKey(s)) else Get(stored, StrKey(s)))
            && IntVals(r.value.entries) == IntVals(stored) + IntVals(override)
  {
    ApplyOverridesValues(current, overrides, k);
    ArrayMergeWellFormed(stored, override);
    forall s: string {
      ArrayMergeStringKey(stored, override, s);
    }
  }

  /** The values a widget class declares for its properties. */
  datatype Declaration = Declaration(
    reloadTimeout: Value,
    cacheTime: Value,
    cacheTags: seq<string>,
    encryptParams: bool,
    config: PArray,
    attributes: PArray)

  /** The declarations of the base class: no reload, no caching, no tags, encrypted params, empty arrays. */
  const BaseDeclaration := Declaration(Bool(false), Bool(false), [], true, [], [])

  const BuiltinTag := "widgets"
  const CacheKeyPrefix := "arrilot.widgets."

  /** `[s0, s1, ...]` as PHP string values. */
  function StrList(ss: seq<string>): (vs: seq<Value>)
    ensures |vs| == |ss|
    ensures forall i | 0 <= i < |ss| :: vs[i] == Str(ss[i])
  {
    seq(|ss|, i requires 0 <= i < |ss| => Str(ss[i]))
  }

  lemma {:induction false} ValsIndex(a: PArray, v: Value)
    ensures v in Vals(a) <==> exists i | 0 <= i < |a| :: a[i].val == v
  {
    if a != [] {
      ValsIndex(a[1..], v);
      if v in Vals(a[1..]) {
        var i :| 0 <= i < |a[1..]| && a[1..][i].val == v;
        assert a[i + 1].val == v;
      }
      if exists i | 0 <= i < |a| :: a[i].val == v {
        var i :| 0 <= i < |a| && a[i].val == v;
        if i > 0 {
          assert a[1..][i - 1].val == v;
        }
      }
    }
  }

  /** `array_merge(['widgets'], $tags)` for a list of tags is the list with 'widgets' in front. */
  lemma MergedTags(tags: seq<string>)
    ensures ArrayMerge([Entry(IntKey(0), Str(BuiltinTag))], ListOf(StrList(tags))) ==
            ListOf(StrList([BuiltinTag] + tags))
  {
    assert [Entry(IntKey(0), Str(BuiltinTag))] == ListOf([Str(BuiltinTag)]);
    assert [Str(BuiltinTag)] + StrList(tags) == StrList([BuiltinTag] + tags);
    ArrayMergeLists([Str(BuiltinTag)], StrList(tags));
  }

  lemma MergedTagValues(tags: seq<string>)
    ensures Vals(ListOf(StrList([BuiltinTag] + tags))) == {Str(BuiltinTag)} + set t | t in tags :: Str(t)
  {
    var merged := ListOf(StrList([BuiltinTag] + tags));
    forall v ensures v in Vals(merged) <==> v in {Str(BuiltinTag)} + set t | t in tags :: Str(t) {
      ValsIndex(merged, v);
      if v in set t | t in tags :: Str(t) {
        var t :| t in tags && v == Str(t);
        var k :| 0 <= k < |tags| && tags[k] == t;
        assert merged[k + 1].val == v;
      }
      if v in Vals(merged) {
        var i :| 0 <= i < |merged| && merged[i].val == v;
        if i > 0 {
          assert ([BuiltinTag] + tags)[i] == tags[i - 1];
        }
      }
    }
  }

  class Widget {
    var reloadTimeout: Value
    var cacheTime: Value
    var cacheTags: seq<string>
    var encryptParams: bool
    var config: PArray
    var attributes: PArray

    ghost predicate Valid()
      reads this
    {
      UniqueKeys(config) && UniqueKeys(attributes)
    }

    /** A new object of a widget class, before its constructor body runs: properties hold their declared values. */
    constructor Declare(d: Declaration)
      requires UniqueKeys(d.config) && UniqueKeys(d.attributes)
      ensures Valid()
      ensures reloadTimeout == d.reloadTimeout && cacheTime == d.cacheTime
      ensures cacheTags == d.cacheTags && encryptParams == d.encryptParams
      ensures config == d.config && attributes == d.attributes
    {
      reloadTimeout := d.reloadTimeout;
      cacheTime := d.cacheTime;
      cacheTags := d.cacheTags;
      encryptParams := d.encryptParams;
      config := d.config;
      attributes := d.attributes;
    }

    /**
     The constructor body: apply the caller's configuration overrides, then
     the attribute overrides, one key at a time. Only `config` and
     `attributes` change.
     */
    method Construct(configOverrides: PArray, attributeOverrides: PArray)
      requires Valid() && UniqueKeys(configOverrides) && UniqueKeys(attributeOverrides)
      requires Applicable(config, configOverrides) && Applicable(attributes, attributeOverrides)
      modifies this`config, this`attributes
      ensures Valid()
      ensures ApplyOverrides(old(config), configOverrides) == Merged(config)
      ensures ApplyOverrides(old(attributes), attributeOverrides) == Merged(attributes)
      ensures reloadTimeout == old(reloadTimeout) && cacheTime == old(cacheTime)
      ensures cacheTags == old(cacheTags) && encryptParams == old(encryptParams)
    {
      OverrideConfig(configOverrides);
      OverrideAttributes(attributeOverrides);
    }

    /** The constructor's first loop: `$this->config[$key] = $value` for every configuration override. */
    method OverrideConfig(overrides: PArray)
      requires Valid() && UniqueKeys(overrides) && Applicable(config, overrides)
      modifies this`config
      ensures Valid()
      ensures ApplyOverrides(old(config), overrides) == Merged(config)
    {
      ApplyOverridesDefined(config, overrides);
      var i := 0;
      while i < |overrides|
        invariant 0 <= i <= |overrides|
        invariant UniqueKeys(config)
        invariant ApplyOverrides(config, overrides[i..]) == ApplyOverrides(old(config), overrides)
        invariant ApplyOverrides(config, overrides[i..]).Merged?
      {
        var key, value := overrides[i].key, overrides[i].val;
        ApplyOverridesStep(config, overrides, i);
        if value.Arr? {
          var existing := Get(config, key);
          value := Arr(ArrayMerge(existing.value.entries, value.entries));
        }
        config := Assign(config, key, value);
        i := i + 1;
      }
      assert overrides[i..] == [];
    }

    /** The constructor's second loop: `$this->attributes[$key] = $value` for every attribute override. */
    method OverrideAttributes(overrides: PArray)
      requires Valid() && UniqueKeys(overrides) && Applicable(attributes, overrides)
      modifies this`attributes
      ensures Valid()
      ensures ApplyOverrides(old(attributes), overrides) == Merged(attributes)
    {
      ApplyOverridesDefined(attributes, overrides);
      var i := 0;
      while i < |overrides|
        invariant 0 <= i <= |overrides|
        invariant UniqueKeys(attributes)
        invariant ApplyOverrides(attributes, overrides[i..]) == ApplyOverrides(old(attributes), overrides)
        invariant ApplyOverrides(attributes, overrides[i..]).Merged?
      {
        var key, value := overrides[i].key, overrides[i].val;
        ApplyOverridesStep(attributes, overrides, i);
        if value.Arr? {
          var existing := Get(attributes, key);
          value := Arr(ArrayMerge(existing.value.entries, value.entries));
        }
        attributes := Assign(attributes, key, value);
        i := i + 1;
      }
      assert overrides[i..] == [];
    }

    /** Placeholder shown while an asynchronous widget loads: empty. */
    function Placeholder(): (html: string)
      ensures html == ""
    {
      ""
    }

    /** The element that wraps asynchronous and reloadable widgets, and its attributes. */
    function Container(): (c: PArray)
      ensures UniqueKeys(c) && Keys(c) == {StrKey("element"), StrKey("attributes")}
      ensures Get(c, StrKey("element")) == Some(Str("div"))
      ensures Get(c, StrKey("attributes")) ==
                Some(Str("style=\"display:inline\" class=\"arrilot-widget-container\""))
    {
      [Entry(StrKey("element"), Str("div")),
       Entry(StrKey("attributes"), Str("style=\"display:inline\" class=\"arrilot-widget-container\""))]
    }

    /** The cache key for `params`: the fixed prefix, then PHP's serialization of `params`. */
    function CacheKey(serialize: PArray -> string, params: PArray): (key: string)
      ensures |CacheKeyPrefix| <= |key| && key[..|CacheKeyPrefix|] == CacheKeyPrefix
    {
      CacheKeyPrefix + serialize(params)
    }

    /**
     The cache tags: the built-in tag followed by the widget's tags, each value
     once, at its first position and under the key array_merge gave it there.
     */
    function CacheTags(): (r: PArray)
      reads this
      ensures |r| > 0 && r[0] == Entry(IntKey(0), Str(BuiltinTag))
      ensures forall i, j | 0 <= i < j < |r| :: r[i].val != r[j].val
      ensures Vals(r) == {Str(BuiltinTag)} + set t | t in cacheTags :: Str(t)
      ensures IsSubsequence(r, ListOf(StrList([BuiltinTag] + cacheTags)))
      ensures var merged := ListOf(StrList([BuiltinTag] + cacheTags));
              forall e :: e in r <==> exists i | 0 <= i < |merged| :: merged[i] == e && FirstOccurrence(merged, i)
    {
      MergedTags(cacheTags);
      MergedTagValues(cacheTags);
      UniqueSpec(ListOf(StrList([BuiltinTag] + cacheTags)));
      Unique(ArrayMerge([Entry(IntKey(0), Str(BuiltinTag))], ListOf(StrList(cacheTags))))
    }

    /**
     Add defaults to the configuration: array_merge(config, defaults), so a
     string key of `defaults` overwrites the current value.
     */
    method AddConfigDefaults(defaults: PArray)
      requires Valid() && UniqueKeys(defaults)
      modifies this`config
      ensures Valid()
      ensures config == ArrayMerge(old(config), defaults)
      ensures forall s: string :: Get(config, StrKey(s)) ==
                if StrKey(s) in Keys(defaults) then Get(defaults, StrKey(s)) else old(Get(config, StrKey(s)))
      ensures IntVals(config) == old(IntVals(config)) + IntVals(defaults)
    {
      ArrayMergeWellFormed(config, defaults);
      forall s: string {
        ArrayMergeStringKey(config, defaults, s);
      }
      config := ArrayMerge(config, defaults);
    }

    /** Add defaults to the wrapper attributes, the same way. */
    method AddAttributesDefaults(defaults: PArray)
      requires Valid() && UniqueKeys(defaults)
      modifies this`attributes
      ensures Valid()
      ensures attributes == ArrayMerge(old(attributes), defaults)
      ensures forall s: string :: Get(attributes, StrKey(s)) ==
                if StrKey(s) in Keys(defaults) then Get(defaults, StrKey(s)) else old(Get(attributes, StrKey(s)))
      ensures IntVals(attributes) == old(IntVals(attributes)) + IntVals(defaults)
    {
      ArrayMergeWellFormed(attributes, defaults);
      forall s: string {
        ArrayMergeStringKey(attributes, defaults, s);
      }
      attributes := ArrayMerge(attributes, defaults);
    }
  }

  /** Two cache keys are equal exactly when the serializations of their parameters are. */
  lemma CacheKeyInjective(w: Widget, serialize: PArray -> string, p: PArray, q: PArray)
    ensures w.CacheKey(serialize, p) == w.CacheKey(serialize, q) <==> serialize(p) == serialize(q)
  {
    var n := |CacheKeyPrefix|;
    assert w.CacheKey(serialize, p)[n..] == serialize(p);
    assert w.CacheKey(serialize, q)[n..] == serialize(q);
  }

  /**
   A widget declaring `count` = 5 and `opts` = ['x' => 1], constructed with
   `opts` = ['y' => 2], ends with `count` = 5 and `opts` = ['x' => 1, 'y' => 2].
   */
  lemma NestedMergeExample()
    ensures var declared := [Entry(StrKey("count"), Int(5)), Entry(StrKey("opts"), Arr([Entry(StrKey("x"), Int(1))]))];
            var overrides := [Entry(StrKey("opts"), Arr([Entry(StrKey("y"), Int(2))]))];
            ApplyOverrides(declared, overrides) ==
              Merged([Entry(StrKey("count"), Int(5)),
                      Entry(StrKey("opts"), Arr([Entry(StrKey("x"), Int(1)), Entry(StrKey("y"), Int(2))]))])
  {
    var x, y := Entry(StrKey("x"), Int(1)), Entry(StrKey("y"), Int(2));
    assert PutAll([], [x]) == [x];
    assert Put([x], y) == [x, y] by {
      assert [x][1..] == [];
      assert Assign([x], y.key, y.val) == [x] + Assign([], y.key, y.val);
    }
    assert PutAll([x], [y]) == PutAll([x, y], []);
    assert ArrayMerge([x], [y]) == [x, y];
  }

  /** Tags ['widgets', 'custom'] give ['widgets', 'custom'] under the keys 0 and 2 that array_unique keeps. */
  lemma CacheTagsExample(w: Widget)
    requires w.cacheTags == ["widgets", "custom"]
    ensures w.CacheTags() == [Entry(IntKey(0), Str("widgets")), Entry(IntKey(2), Str("custom"))]
  {
    var merged := ListOf([Str("widgets"), Str("widgets"), Str("custom")]);
    assert StrList(["widgets", "custom"]) == [Str("widgets"), Str("custom")];
    ArrayMergeLists([Str("widgets")], [Str("widgets"), Str("custom")]);
    assert [Entry(IntKey(0), Str("widgets"))] == ListOf([Str("widgets")]);
    assert [Str("widgets")] + [Str("widgets"), Str("custom")] == [Str("widgets"), Str("widgets"), Str("custom")];
    assert merged[1..][1..] == [merged[2]];
    assert UniqueFrom(merged[1..][1..], {Str("widgets"), Str("custom")}) == [];
    assert UniqueFrom(merged, {}) == [merged[0], merged[2]];
  }

  /**
   `new SomeWidget()`: a widget constructed with no arguments keeps the
   arrays its class declares, content and order.
   */
  method NewWidget(d: Declaration) returns (w: Widget)
    requires UniqueKeys(d.config) && UniqueKeys(d.attributes)
    ensures w.Valid()
    ensures w.config == d.config && w.attributes == d.attributes
    ensures w.cacheTags == d.cacheTags
  {
    w := new Widget.Declare(d);
    w.Construct([], []);
  }

  /**
   A widget with the base class's own declarations has no configuration, no
   attributes, and the built-in tag as its only cache tag.
   */
  method NewBaseWidget() returns (w: Widget)
    ensures w.config == [] && w.attributes == []
    ensures w.CacheTags() == [Entry(IntKey(0), Str(BuiltinTag))]
  {
    w := NewWidget(BaseDeclaration);
    var r := w.CacheTags();
    assert [BuiltinTag] + w.cacheTags == [BuiltinTag];
    var merged := ListOf(StrList([BuiltinTag]));
    assert merged == [Entry(IntKey(0), Str(BuiltinTag))];
    assert IsSubsequence(r, merged) && merged[1..] == [];
    assert !IsSubsequence(r, merged[1..]);
    assert IsSubsequence(r[1..], merged[1..]);
    assert r == [r[0]] + r[1..];
  }
}
