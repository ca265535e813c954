/**
 PHP arrays as the widget base class uses them: ordered dictionaries with
 integer or string keys, read with `$a[$k]`, written with `$a[$k] = $v`,
 combined with `array_merge` and de-duplicated with `array_unique`.
 */
module PhpArrays {

  datatype Option<+T> = None | Some(value: T)

  /** An array key after PHP's key normalisation: an integer, or a string. */
  datatype Key = IntKey(i: int) | StrKey(s: string)

  /** A PHP value. Floats and objects are not modelled. */
  datatype Value =
    | Null
    | Bool(b: bool)
    | Int(n: int)
    | Str(s: string)
    | Arr(entries: seq<Entry>)

  /** One key/value pair of an array. */
  datatype Entry = Entry(key: Key, val: Value)

  /** A PHP array: its entries in iteration (insertion) order. */
  type PArray = seq<Entry>

  function Keys(a: PArray): set<Key>
  {
    if a == [] then {} else {a[0].key} + Keys(a[1..])
  }

  function Vals(a: PArray): set<Value>
  {
    if a == [] then {} else {a[0].val} + Vals(a[1..])
  }

  /** The keys of `a` in iteration order. */
  function KeySeq(a: PArray): seq<Key>
  {
    if a == [] then [] else [a[0].key] + KeySeq(a[1..])
  }

  /** Every PHP array has pairwise distinct keys. */
  predicate UniqueKeys(a: PArray)
  {
    a == [] || (a[0].key !in Keys(a[1..]) && UniqueKeys(a[1..]))
  }

  /** `$a[$k]`: the value stored under `k`, or None when `k` is absent. */
  function Get(a: PArray, k: Key): (r: Option<Value>)
    ensures r.Some? <==> k in Keys(a)
    ensures r.Some? ==> Entry(k, r.value) in a
  {
    if a == [] then None
    else if a[0].key == k then Some(a[0].val)
    else Get(a[1..], k)
  }

  /** The key of every entry is among the keys of the array. */
  lemma {:induction false} KeyAt(a: PArray, i: int)
    requires 0 <= i < |a|
    ensures a[i].key in Keys(a)
  {
    if i > 0 {
      KeyAt(a[1..], i - 1);
    }
  }

  /** In an array with distinct keys, `$a[$k]` is the value stored with `k`. */
  lemma {:induction false} GetStored(a: PArray, k: Key, v: Value)
    requires UniqueKeys(a) && Entry(k, v) in a
    ensures Get(a, k) == Some(v)
  {
    if a[0] != Entry(k, v) {
      var i :| 0 <= i < |a| && a[i] == Entry(k, v);
      assert i > 0;
      assert a[1..][i - 1] == Entry(k, v);
      KeyAt(a[1..], i - 1);
      GetStored(a[1..], k, v);
    }
  }

  lemma {:induction false} KeysConcat(a: PArray, b: PArray)
    ensures Keys(a + b) == Keys(a) + Keys(b)
  {
    if a == [] {
      assert a + b == b;
    } else {
      assert (a + b)[0] == a[0] && (a + b)[1..] == a[1..] + b;
      KeysConcat(a[1..], b);
    }
  }

  /** Appending an entry under another key does not change a lookup. */
  lemma {:induction false} GetAppend(a: PArray, x: Entry, k: Key)
    requires x.key != k
    ensures Get(a + [x], k) == Get(a, k)
  {
    if a != [] {
      assert (a + [x])[1..] == a[1..] + [x];
      GetAppend(a[1..], x, k);
    }
  }

  /** Appending an entry under a fresh key keeps the keys distinct. */
  lemma {:induction false} UniqueKeysAppend(a: PArray, x: Entry)
    requires UniqueKeys(a) && x.key !in Keys(a)
    ensures UniqueKeys(a + [x])
  {
    if a == [] {
      assert [] + [x] == [x];
    } else {
      assert (a + [x])[1..] == a[1..] + [x];
      KeysConcat(a[1..], [x]);
      UniqueKeysAppend(a[1..], x);
    }
  }

  /**
   `$a[$k] = $v`: an existing key keeps its position and takes the new value,
   a new key is appended at the end, and no other key changes.
   */
  function Assign(a: PArray, k: Key, v: Value): (r: PArray)
    ensures Get(r, k) == Some(v)
    ensures Keys(r) == Keys(a) + {k}
    ensures UniqueKeys(a) ==> UniqueKeys(r)
  {
    if a == [] then [Entry(k, v)]
    else if a[0].key == k then [Entry(k, v)] + a[1..]
    else [a[0]] + Assign(a[1..], k, v)
  }

  /** Assignment changes no other key. */
  lemma {:induction false} AssignOther(a: PArray, k: Key, v: Value, k': Key)
    requires k' != k
    ensures Get(Assign(a, k, v), k') == Get(a, k')
  {
    if a != [] && a[0].key != k {
      AssignOther(a[1..], k, v, k');
    }
  }

  /** Assignment keeps every key in its place and appends a new key at the end. */
  lemma {:induction false} AssignKeySeq(a: PArray, k: Key, v: Value)
    ensures KeySeq(Assign(a, k, v)) == KeySeq(a) + (if k in Keys(a) then [] else [k])
  {
    if a != [] && a[0].key != k {
      AssignKeySeq(a[1..], k, v);
    }
  }

  /** The values stored under integer keys, in iteration order. */
  function IntVals(a: PArray): seq<Value>
  {
    if a == [] then [] else (if a[0].key.IntKey? then [a[0].val] else []) + IntVals(a[1..])
  }

  lemma {:induction false} IntValsConcat(a: PArray, b: PArray)
    ensures IntVals(a + b) == IntVals(a) + IntVals(b)
  {
    if a == [] {
      assert a + b == b;
    } else {
      var head := if a[0].key.IntKey? then [a[0].val] else [];
      assert (a + b)[0] == a[0] && (a + b)[1..] == a[1..] + b;
      assert IntVals(a + b) == head + IntVals(a[1..] + b);
      IntValsConcat(a[1..], b);
      assert head + (IntVals(a[1..]) + IntVals(b)) == (head + IntVals(a[1..])) + IntVals(b);
    }
  }

  /** Every integer key of `a` lies in [0, n). */
  predicate IntKeysBelow(a: PArray, n: int)
  {
    a == [] || ((a[0].key.IntKey? ==> 0 <= a[0].key.i < n) && IntKeysBelow(a[1..], n))
  }

  lemma {:induction false} IntKeysBelowExcludes(a: PArray, n: int)
    requires IntKeysBelow(a, n)
    ensures IntKey(n) !in Keys(a)
  {
    if a != [] {
      IntKeysBelowExcludes(a[1..], n);
    }
  }

  lemma {:induction false} IntKeysBelowAppend(a: PArray, x: Entry, n: int)
    requires 0 <= n && IntKeysBelow(a, n) && x.key == IntKey(n)
    ensures IntKeysBelow(a + [x], n + 1)
  {
    if a == [] {
      assert a + [x] == [x] && [x][1..] == [];
    } else {
      assert (a + [x])[1..] == a[1..] + [x];
      IntKeysBelowAppend(a[1..], x, n);
    }
  }

  /** Assigning under a string key leaves the integer-keyed entries alone. */
  lemma {:induction false} AssignStringKeepsInts(a: PArray, s: string, v: Value, n: int)
    ensures IntVals(Assign(a, StrKey(s), v)) == IntVals(a)
    ensures IntKeysBelow(a, n) ==> IntKeysBelow(Assign(a, StrKey(s), v), n)
  {
    if a != [] && a[0].key != StrKey(s) {
      AssignStringKeepsInts(a[1..], s, v, n);
    }
  }

  /**
   One entry of a source array copied into the array that array_merge builds:
   a string key overwrites in place or is appended; an integer key is not kept,
   the value is appended under the next integer index.
   */
  function Put(dest: PArray, e: Entry): PArray
  {
    if e.key.StrKey? then Assign(dest, e.key, e.val)
    else dest + [Entry(IntKey(|IntVals(dest)|), e.val)]
  }

  function PutAll(dest: PArray, src: PArray): PArray
    decreases |src|
  {
    if src == [] then dest else PutAll(Put(dest, src[0]), src[1..])
  }

  /** `array_merge($a, $b)` on two arrays. */
  function ArrayMerge(a: PArray, b: PArray): PArray
  {
    PutAll(PutAll([], a), b)
  }

  /** The invariant of the array array_merge builds: distinct keys, integer keys below their count. */
  predicate MergeTarget(a: PArray)
  {
    UniqueKeys(a) && IntKeysBelow(a, |IntVals(a)|)
  }

  lemma PutKeepsMergeTarget(dest: PArray, e: Entry)
    requires MergeTarget(dest)
    ensures MergeTarget(Put(dest, e))
    ensures IntVals(Put(dest, e)) == IntVals(dest) + IntVals([e])
  {
    var n := |IntVals(dest)|;
    if e.key.StrKey? {
      AssignStringKeepsInts(dest, e.key.s, e.val, n);
    } else {
      var x := Entry(IntKey(n), e.val);
      IntValsConcat(dest, [x]);
      IntKeysBelowExcludes(dest, n);
      UniqueKeysAppend(dest, x);
      IntKeysBelowAppend(dest, x, n);
    }
  }

  lemma {:induction false} PutAllKeepsMergeTarget(dest: PArray, src: PArray)
    requires MergeTarget(dest)
    ensures MergeTarget(PutAll(dest, src))
    ensures IntVals(PutAll(dest, src)) == IntVals(dest) + IntVals(src)
    decreases |src|
  {
    if src != [] {
      PutKeepsMergeTarget(dest, src[0]);
      PutAllKeepsMergeTarget(Put(dest, src[0]), src[1..]);
    }
  }

  /**
   array_merge always yields distinct keys; its integer-keyed values are those
   of `a` followed by those of `b`, renumbered into [0, count).
   */
  lemma ArrayMergeWellFormed(a: PArray, b: PArray)
    ensures UniqueKeys(ArrayMerge(a, b))
    ensures IntVals(ArrayMerge(a, b)) == IntVals(a) + IntVals(b)
    ensures IntKeysBelow(ArrayMerge(a, b), |IntVals(a)| + |IntVals(b)|)
  {
    assert MergeTarget([]);
    PutAllKeepsMergeTarget([], a);
    assert IntVals(PutAll([], a)) == IntVals(a);
    PutAllKeepsMergeTarget(PutAll([], a), b);
  }

  lemma {:induction false} PutAllStringKey(dest: PArray, src: PArray, s: string)
    requires UniqueKeys(src)
    ensures Get(PutAll(dest, src), StrKey(s)) ==
              if StrKey(s) in Keys(src) then Get(src, StrKey(s)) else Get(dest, StrKey(s))
    decreases |src|
  {
    if src != [] {
      var e := src[0];
      PutAllStringKey(Put(dest, e), src[1..], s);
      if e.key.IntKey? {
        GetAppend(dest, Entry(IntKey(|IntVals(dest)|), e.val), StrKey(s));
      } else if e.key != StrKey(s) {
        AssignOther(dest, e.key, e.val, StrKey(s));
      }
    }
  }

  /**
   For every string key, `array_merge($a, $b)` holds `$b`'s value when `$b` has
   the key, and otherwise `$a`'s value (or nothing when neither has it).
   */
  lemma ArrayMergeStringKey(a: PArray, b: PArray, s: string)
    requires UniqueKeys(a) && UniqueKeys(b)
    ensures Get(ArrayMerge(a, b), StrKey(s)) ==
              if StrKey(s) in Keys(b) then Get(b, StrKey(s)) else Get(a, StrKey(s))
  {
    PutAllStringKey([], a, s);
    PutAllStringKey(PutAll([], a), b, s);
  }

  /** A PHP list literal `[v0, v1, ...]`: value i under key i. */
  function ListOf(vs: seq<Value>): (r: PArray)
    ensures |r| == |vs|
    ensures forall i | 0 <= i < |vs| :: r[i] == Entry(IntKey(i), vs[i])
  {
    seq(|vs|, i requires 0 <= i < |vs| => Entry(IntKey(i), vs[i]))
  }

  lemma {:induction false} IntValsListOf(vs: seq<Value>)
    ensures IntVals(ListOf(vs)) == vs
  {
    if vs != [] {
      var n := |vs| - 1;
      assert ListOf(vs) == ListOf(vs[..n]) + [Entry(IntKey(n), vs[n])];
      IntValsConcat(ListOf(vs[..n]), [Entry(IntKey(n), vs[n])]);
      IntValsListOf(vs[..n]);
      assert vs == vs[..n] + [vs[n]];
    }
  }

  lemma ListOfAppend(vs: seq<Value>, v: Value)
    ensures ListOf(vs) + [Entry(IntKey(|vs|), v)] == ListOf(vs + [v])
  {
  }

  predicate AllIntKeys(a: PArray)
  {
    forall i | 0 <= i < |a| :: a[i].key.IntKey?
  }

  lemma PutList(vs: seq<Value>, e: Entry)
    requires e.key.IntKey?
    ensures Put(ListOf(vs), e) == ListOf(vs + [e.val])
  {
    IntValsListOf(vs);
    ListOfAppend(vs, e.val);
  }

  lemma AllIntKeysTail(a: PArray)
    requires a != [] && AllIntKeys(a)
    ensures a[0].key.IntKey? && AllIntKeys(a[1..])
  {
    forall i | 0 <= i < |a[1..]| ensures a[1..][i].key.IntKey? {
      assert a[1..][i] == a[i + 1];
    }
  }

  lemma {:induction false} PutAllList(vs: seq<Value>, src: PArray)
    requires AllIntKeys(src)
    ensures PutAll(ListOf(vs), src) == ListOf(vs + IntVals(src))
    decreases |src|
  {
    if src == [] {
      assert vs + [] == vs;
    } else {
      var e, rest := src[0], src[1..];
      var vs' := vs + [e.val];
      AllIntKeysTail(src);
      assert IntVals(src) == [e.val] + IntVals(rest);
      assert vs' + IntVals(rest) == vs + IntVals(src);
      PutList(vs, e);
      assert PutAll(ListOf(vs), src) == PutAll(ListOf(vs'), rest);
      PutAllList(vs', rest);
    }
  }

  /** array_merge of two lists is their concatenation, renumbered from 0. */
  lemma ArrayMergeLists(xs: seq<Value>, ys: seq<Value>)
    ensures ArrayMerge(ListOf(xs), ListOf(ys)) == ListOf(xs + ys)
  {
    assert ListOf([]) == [];
    PutAllList([], ListOf(xs));
    IntValsListOf(xs);
    assert [] + xs == xs;
    PutAllList(xs, ListOf(ys));
    IntValsListOf(ys);
  }

  /** The entry at position `i` holds the first occurrence of its value. */
  predicate FirstOccurrence(a: PArray, i: int)
    requires 0 <= i < |a|
  {
    forall j | 0 <= j < i :: a[j].val != a[i].val
  }

  /** `r` is `a` with some entries left out and the rest in their order. */
  predicate IsSubsequence(r: PArray, a: PArray)
    decreases |a|
  {
    if r == [] then true
    else if a == [] then false
    else (r[0] == a[0] && IsSubsequence(r[1..], a[1..])) || IsSubsequence(r, a[1..])
  }

  function UniqueFrom(a: PArray, seen: set<Value>): PArray
    decreases |a|
  {
    if a == [] then []
    else if a[0].val in seen then UniqueFrom(a[1..], seen)
    else [a[0]] + UniqueFrom(a[1..], seen + {a[0].val})
  }

  /**
   `array_unique($a)`: the first entry of every value, key included, in the
   order of `a`. PHP compares the values as strings; on string values, which
   are all this model de-duplicates, that is equality.
   */
  function Unique(a: PArray): PArray
  {
    UniqueFrom(a, {})
  }

  lemma {:induction false} ValsAt(a: PArray, i: int)
    requires 0 <= i < |a|
    ensures a[i].val in Vals(a)
  {
    if i > 0 {
      ValsAt(a[1..], i - 1);
    }
  }

  lemma {:induction false} UniqueFromShape(a: PArray, seen: set<Value>)
    ensures IsSubsequence(UniqueFrom(a, seen), a)
    ensures Vals(UniqueFrom(a, seen)) == Vals(a) - seen
    ensures forall i, j | 0 <= i < j < |UniqueFrom(a, seen)| ::
              UniqueFrom(a, seen)[i].val != UniqueFrom(a, seen)[j].val
    decreases |a|
  {
    if a != [] {
      var x := a[0];
      if x.val in seen {
        UniqueFromShape(a[1..], seen);
      } else {
        var rest := UniqueFrom(a[1..], seen + {x.val});
        UniqueFromShape(a[1..], seen + {x.val});
        var r := [x] + rest;
        assert r[1..] == rest;
        forall i, j | 0 <= i < j < |r| ensures r[i].val != r[j].val {
          if i == 0 {
            ValsAt(rest, j - 1);
          } else {
            assert r[i] == rest[i - 1] && r[j] == rest[j - 1];
          }
        }
      }
    }
  }

  lemma {:induction false} UniqueFromMembers(a: PArray, seen: set<Value>, e: Entry)
    ensures e in UniqueFrom(a, seen) <==>
              exists i | 0 <= i < |a| :: a[i] == e && a[i].val !in seen && FirstOccurrence(a, i)
    decreases |a|
  {
    if a != [] {
      var x := a[0];
      var seen' := if x.val in seen then seen else seen + {x.val};
      UniqueFromMembers(a[1..], seen', e);
      if e in UniqueFrom(a, seen) {
        if x.val !in seen && e == x {
          assert a[0] == e && FirstOccurrence(a, 0);
        } else {
          assert e in UniqueFrom(a[1..], seen');
          var i :| 0 <= i < |a[1..]| && a[1..][i] == e && a[1..][i].val !in seen' && FirstOccurrence(a[1..], i);
          assert a[i + 1] == e;
          forall j | 0 <= j < i + 1 ensures a[j].val != a[i + 1].val {
            if j > 0 { assert a[j] == a[1..][j - 1]; }
          }
        }
      }
      if exists i | 0 <= i < |a| :: a[i] == e && a[i].val !in seen && FirstOccurrence(a, i) {
        var i :| 0 <= i < |a| && a[i] == e && a[i].val !in seen && FirstOccurrence(a, i);
        if i > 0 {
          assert a[1..][i - 1] == e;
          assert a[0].val != a[i].val;
          forall j | 0 <= j < i - 1 ensures a[1..][j].val != a[1..][i - 1].val {
            assert a[1..][j] == a[j + 1];
          }
          assert FirstOccurrence(a[1..], i - 1);
        }
      }
    }
  }

  /**
   `array_unique($a)` keeps exactly the first occurrence of each value, with its
   key, in the order of `a`; no value is repeated and no value is lost.
   */
  lemma UniqueSpec(a: PArray)
    ensures IsSubsequence(Unique(a), a)
    ensures Vals(Unique(a)) == Vals(a)
    ensures forall i, j | 0 <= i < j < |Unique(a)| :: Unique(a)[i].val != Unique(a)[j].val
    ensures forall e :: e in Unique(a) <==> exists i | 0 <= i < |a| :: a[i] == e && FirstOccurrence(a, i)
  {
    UniqueFromShape(a, {});
    forall e ensures e in Unique(a) <==> exists i | 0 <= i < |a| :: a[i] == e && FirstOccurrence(a, i) {
      UniqueFromMembers(a, {}, e);
    }
  }
}
