/**
 * The project-wide function dictionary (name -> function) and the module-level
 * `get_function_node` lookup over it. A Python dict is an insertion-ordered
 * mapping: it is modelled as a sequence of (key, value) pairs with distinct
 * keys, in insertion order.
 */
module FunctionMaps {
  import opened Basics
  import opened Strings

  type FunctionMap<V> = seq<(string, V)>

  predicate KeysUnique<V>(m: FunctionMap<V>) {
    forall i, j :: 0 <= i < j < |m| ==> m[i].0 != m[j].0
  }

  function Keys<V>(m: FunctionMap<V>): seq<string> {
    seq(|m|, i requires 0 <= i < |m| => m[i].0)
  }

  /** Position of key `k`, if present: the first entry with that key. */
  function IndexOfKey<V>(m: FunctionMap<V>, k: string): (r: Option<nat>)
    ensures r.Some? ==> r.value < |m|
  {
    if m == [] then None
    else if m[0].0 == k then Some(0)
    else match IndexOfKey(m[1..], k)
      case None => None
      case Some(i) => Some(i + 1)
  }

  /** The position found holds `k` and no earlier one does; no position is found only when no entry has `k`. */
  lemma {:induction false} IndexOfKeyProperties<V>(m: FunctionMap<V>, k: string)
    ensures var r := IndexOfKey(m, k);
      && (r.Some? ==> m[r.value].0 == k && forall j :: 0 <= j < r.value ==> m[j].0 != k)
      && (r.None? ==> forall j :: 0 <= j < |m| ==> m[j].0 != k)
  {
    if m != [] && m[0].0 != k {
      IndexOfKeyProperties(m[1..], k);
      assert forall j :: 1 <= j < |m| ==> m[j] == m[1..][j - 1];
    }
  }

  /** Two maps with the key `k` at the same positions find it at the same place. */
  lemma IndexOfKeySame<V, W>(m: FunctionMap<V>, r: FunctionMap<W>, k: string)
    requires |m| == |r| && forall j :: 0 <= j < |m| ==> (m[j].0 == k <==> r[j].0 == k)
    ensures IndexOfKey(m, k) == IndexOfKey(r, k)
  {
    IndexOfKeyProperties(m, k);
    IndexOfKeyProperties(r, k);
    var a, b := IndexOfKey(m, k), IndexOfKey(r, k);
    if a.Some? && b.Some? {
      assert !(a.value < b.value) && !(b.value < a.value);
    }
  }

  /** `m.get(k)`. */
  function Lookup<V>(m: FunctionMap<V>, k: string): Option<V> {
    match IndexOfKey(m, k)
    case Some(i) => Some(m[i].1)
    case None => None
  }

  /**
   * `m[k] = v`: an existing key keeps its position and takes the new value; a
   * new key goes to the end.
   */
  function Put<V>(m: FunctionMap<V>, k: string, v: V): FunctionMap<V> {
    match IndexOfKey(m, k)
    case Some(i) => m[i := (k, v)]
    case None => m + [(k, v)]
  }

  /**
   * After `m[k] = v`, `k` maps to `v` and every other key to what it mapped to
   * before; keys stay distinct, existing keys keep their positions and at most
   * one entry is added.
   */
  lemma PutProperties<V>(m: FunctionMap<V>, k: string, v: V)
    ensures Lookup(Put(m, k, v), k) == Some(v)
    ensures forall k' :: k' != k ==> Lookup(Put(m, k, v), k') == Lookup(m, k')
    ensures KeysUnique(m) ==> KeysUnique(Put(m, k, v))
    ensures |m| <= |Put(m, k, v)| <= |m| + 1
    ensures forall i :: 0 <= i < |m| ==> Put(m, k, v)[i].0 == m[i].0
    ensures forall i :: 0 <= i < |Put(m, k, v)| ==> Put(m, k, v)[i] == (k, v) || (i < |m| && Put(m, k, v)[i] == m[i])
  {
    var r := Put(m, k, v);
    IndexOfKeyProperties(m, k);
    IndexOfKeyProperties(r, k);
    match IndexOfKey(m, k)
    case Some(i) =>
      IndexOfKeySame(m, r, k);
      forall k' | k' != k
        ensures Lookup(r, k') == Lookup(m, k')
      {
        IndexOfKeySame(m, r, k');
        IndexOfKeyProperties(m, k');
      }
    case None =>
      assert r[|m|].0 == k;
      assert forall j :: 0 <= j < |m| ==> r[j] == m[j];
      forall k' | k' != k
        ensures Lookup(r, k') == Lookup(m, k')
      {
        IndexOfKeyProperties(m, k');
        IndexOfKeyProperties(r, k');
        var a, b := IndexOfKey(m, k'), IndexOfKey(r, k');
        if b.Some? && a.Some? {
          assert !(a.value < b.value) && !(b.value < a.value);
        }
      }
  }

  /** `m.update(entries)`, equally a dict comprehension when `m` is empty: the entries are put in order. */
  function PutAll<V>(m: FunctionMap<V>, entries: seq<(string, V)>): FunctionMap<V> {
    if entries == [] then m
    else
      var last := entries[|entries| - 1];
      Put(PutAll(m, entries[..|entries| - 1]), last.0, last.1)
  }

  /** The value of the LAST entry with key `k`, if any. */
  function LastValueFor<V>(entries: seq<(string, V)>, k: string): Option<V> {
    if entries == [] then None
    else if entries[|entries| - 1].0 == k then Some(entries[|entries| - 1].1)
    else LastValueFor(entries[..|entries| - 1], k)
  }

  /**
   * After `m.update(entries)` the last write to a key wins, keys that no entry
   * names are untouched, keys stay distinct and the keys already in `m` keep
   * their positions.
   */
  lemma {:induction false} PutAllLastWriteWins<V>(m: FunctionMap<V>, entries: seq<(string, V)>)
    ensures forall k :: (Lookup(PutAll(m, entries), k) ==
      match LastValueFor(entries, k) case Some(v) => Some(v) case None => Lookup(m, k))
    ensures KeysUnique(m) ==> KeysUnique(PutAll(m, entries))
    ensures |m| <= |PutAll(m, entries)|
    ensures forall i :: 0 <= i < |m| ==> PutAll(m, entries)[i].0 == m[i].0
    decreases |entries|
  {
    if entries != [] {
      PutAllLastWriteWins(m, entries[..|entries| - 1]);
      var last := entries[|entries| - 1];
      PutProperties(PutAll(m, entries[..|entries| - 1]), last.0, last.1);
    }
  }

  /** In a map with distinct keys, looking up an entry's key finds that entry. */
  lemma LookupUnique<V>(m: FunctionMap<V>, i: nat)
    requires KeysUnique(m) && i < |m|
    ensures IndexOfKey(m, m[i].0) == Some(i)
    ensures Lookup(m, m[i].0) == Some(m[i].1)
  {
    IndexOfKeyProperties(m, m[i].0);
    var r := IndexOfKey(m, m[i].0);
    assert r.Some?;
    assert r.value == i;
  }

  /** `m.update(entries)` keeps the keys distinct. */
  lemma {:induction false} PutAllKeysUnique<V>(m: FunctionMap<V>, entries: seq<(string, V)>)
    requires KeysUnique(m)
    ensures KeysUnique(PutAll(m, entries))
    decreases |entries|
  {
    if entries != [] {
      PutAllKeysUnique(m, entries[..|entries| - 1]);
      var last := entries[|entries| - 1];
      PutProperties(PutAll(m, entries[..|entries| - 1]), last.0, last.1);
    }
  }

  /** Every entry of `m.update(entries)` is an entry of `m` or one of the new entries. */
  lemma {:induction false} PutAllEntriesFrom<V>(m: FunctionMap<V>, entries: seq<(string, V)>)
    ensures forall e :: e in PutAll(m, entries) ==> e in m || e in entries
    decreases |entries|
  {
    if entries != [] {
      var init := entries[..|entries| - 1];
      PutAllEntriesFrom(m, init);
      PutProperties(PutAll(m, init), entries[|entries| - 1].0, entries[|entries| - 1].1);
      forall e | e in PutAll(m, entries)
        ensures e in m || e in entries
      {
        var r := PutAll(m, entries);
        var i :| 0 <= i < |r| && r[i] == e;
        if e != entries[|entries| - 1] {
          assert e in PutAll(m, init);
          if e !in m {
            var j :| 0 <= j < |init| && init[j] == e;
            assert entries[j] == e;
          }
        }
      }
    }
  }

  // ---------------------------------------------------------------------------
  // The module-level `get_function_node`

  /** The `::`-separated segments of the target that are tried in turn. */
  function TargetParts(target: string, oneLayerOnly: bool): seq<string> {
    if oneLayerOnly then SplitOnce(target) else Split(target)
  }

  /** First key ending with the re-joined segments from `count` on, trying `count` upwards. */
  function SuffixSearch<V>(m: FunctionMap<V>, parts: seq<string>, count: nat): (r: Option<nat>)
    requires count <= |parts|
    ensures r.Some? ==> r.value < |m|
    decreases |parts| - count
  {
    if count == |parts| then None
    else match FirstEndingWith(m, Join(parts[count..]))
      case Some(i) => Some(i)
      case None => SuffixSearch(m, parts, count + 1)
  }

  /** Position of the first key ending with `suffix`. */
  function FirstEndingWith<V>(m: FunctionMap<V>, suffix: string): (r: Option<nat>)
    ensures r.Some? ==> r.value < |m| && EndsWith(m[r.value].0, suffix)
    ensures r.Some? ==> forall j :: 0 <= j < r.value ==> !EndsWith(m[j].0, suffix)
    ensures r.None? ==> forall j :: 0 <= j < |m| ==> !EndsWith(m[j].0, suffix)
  {
    if m == [] then None
    else if EndsWith(m[0].0, suffix) then Some(0)
    else match FirstEndingWith(m[1..], suffix)
      case None => None
      case Some(i) => Some(i + 1)
  }

  /** Position of the entry `get_function_node(target, m, one_layer_only)` returns. */
  function Resolve<V>(target: string, m: FunctionMap<V>, oneLayerOnly: bool): (r: Option<nat>)
    ensures r.Some? ==> r.value < |m|
  {
    match IndexOfKey(m, target)
    case Some(i) => Some(i)
    case None => SuffixSearch(m, TargetParts(target, oneLayerOnly), 0)
  }

  lemma {:induction false} SuffixSearchSound<V>(m: FunctionMap<V>, parts: seq<string>, count: nat)
    requires count <= |parts|
    ensures SuffixSearch(m, parts, count).Some? ==>
      exists c :: count <= c < |parts| && EndsWith(m[SuffixSearch(m, parts, count).value].0, Join(parts[c..]))
    ensures SuffixSearch(m, parts, count).None? <==>
      forall c, i :: count <= c < |parts| && 0 <= i < |m| ==> !EndsWith(m[i].0, Join(parts[c..]))
    ensures SuffixSearch(m, parts, count).Some? ==>
      exists c :: FirstTailHit(m, parts, count, c, SuffixSearch(m, parts, count).value)
    decreases |parts| - count
  {
    if count < |parts| {
      SuffixSearchSound(m, parts, count + 1);
      match FirstEndingWith(m, Join(parts[count..]))
      case Some(i) =>
        assert FirstTailHit(m, parts, count, count, i);
      case None =>
        if SuffixSearch(m, parts, count + 1).Some? {
          var i := SuffixSearch(m, parts, count + 1).value;
          var c :| FirstTailHit(m, parts, count + 1, c, i);
          assert FirstTailHit(m, parts, count, c, i);
        }
    }
  }

  /**
   * Trailing group `c` (from `count` on) is the first whose re-joined text
   * some key ends with, and `i` is the first such key.
   */
  ghost predicate FirstTailHit<V>(m: FunctionMap<V>, parts: seq<string>, count: nat, c: nat, i: nat) {
    && count <= c < |parts|
    && FirstEndingWith(m, Join(parts[c..])) == Some(i)
    && forall c' :: count <= c' < c ==> FirstEndingWith(m, Join(parts[c'..])).None?
  }

  /** `Join(parts[c..])` ends with the last segment, for every `c`. */
  lemma {:induction false} JoinTailEndsWithLast(parts: seq<string>, c: nat)
    requires c < |parts|
    ensures EndsWith(Join(parts[c..]), parts[|parts| - 1])
    decreases |parts| - c
  {
    if c < |parts| - 1 {
      JoinTailEndsWithLast(parts, c + 1);
      assert parts[c..][1..] == parts[c + 1..];
      var t := Join(parts[c + 1..]);
      var w := Join(parts[c..]);
      assert w == parts[c] + "::" + t;
      assert w[|w| - |t|..] == t;
      EndsWithTrans(w, t, parts[|parts| - 1]);
    } else {
      assert parts[c..] == [parts[c]];
    }
  }

  lemma EndsWithTrans(a: string, b: string, c: string)
    requires EndsWith(a, b) && EndsWith(b, c)
    ensures EndsWith(a, c)
  {
    assert a[|a| - |c|..] == a[|a| - |b|..][|b| - |c|..];
  }

  /**
   * The global lookup: an exact key wins; any other hit is a key that ends
   * (character-wise) with a `::`-aligned trailing part of the target; the
   * lookup fails exactly when no key ends with the target's last segment
   * (`one_layer_only` off), and it never fails while some key ends with the
   * whole target.
   */
  lemma ResolveProperties<V>(target: string, m: FunctionMap<V>, oneLayerOnly: bool)
    ensures IndexOfKey(m, target).Some? ==> Resolve(target, m, oneLayerOnly) == IndexOfKey(m, target)
    ensures Resolve(target, m, oneLayerOnly).Some? ==>
      var key := m[Resolve(target, m, oneLayerOnly).value].0;
      || key == target
      || exists c ::
           && 0 <= c < |TargetParts(target, oneLayerOnly)|
           && EndsWith(key, Join(TargetParts(target, oneLayerOnly)[c..]))
           && EndsWith(target, Join(TargetParts(target, oneLayerOnly)[c..]))
    ensures IndexOfKey(m, target).None? && Resolve(target, m, oneLayerOnly).Some? ==>
      exists c :: FirstTailHit(m, TargetParts(target, oneLayerOnly), 0, c, Resolve(target, m, oneLayerOnly).value)
    ensures (exists i :: 0 <= i < |m| && EndsWith(m[i].0, target)) ==> Resolve(target, m, oneLayerOnly).Some?
    ensures !oneLayerOnly ==>
      (Resolve(target, m, oneLayerOnly).None? <==> forall i :: 0 <= i < |m| ==> !EndsWith(m[i].0, LastSegment(target)))
  {
    var parts := TargetParts(target, oneLayerOnly);
    var r := Resolve(target, m, oneLayerOnly);
    TargetTailsAreSuffixes(target, oneLayerOnly);
    if IndexOfKey(m, target).None? {
      SuffixSearchSound(m, parts, 0);
      if exists i :: 0 <= i < |m| && EndsWith(m[i].0, target) {
        TargetJoinsBack(target, oneLayerOnly);
      }
    }
    if !oneLayerOnly {
      ResolveFailsOnLastSegment(target, m);
    }
  }

  /** Every trailing group of the target's segments, re-joined, is a suffix of the target. */
  lemma TargetTailsAreSuffixes(target: string, oneLayerOnly: bool)
    ensures forall c :: 0 <= c < |TargetParts(target, oneLayerOnly)| ==>
      EndsWith(target, Join(TargetParts(target, oneLayerOnly)[c..]))
  {
    var parts := TargetParts(target, oneLayerOnly);
    forall c | 0 <= c < |parts|
      ensures EndsWith(target, Join(parts[c..]))
    {
      if oneLayerOnly {
        SplitOnceTailIsSuffix(target, c);
      } else {
        SplitTailIsSuffix(target, c);
      }
    }
  }

  /** The first group tried is the whole target. */
  lemma TargetJoinsBack(target: string, oneLayerOnly: bool)
    ensures Join(TargetParts(target, oneLayerOnly)[0..]) == target
  {
    var parts := TargetParts(target, oneLayerOnly);
    assert parts[0..] == parts;
    if oneLayerOnly {
      JoinSplitOnce(target);
    } else {
      JoinSplit(target);
    }
  }

  /** With `one_layer_only` off the lookup fails exactly when no key ends with the last segment. */
  lemma ResolveFailsOnLastSegment<V>(target: string, m: FunctionMap<V>)
    ensures Resolve(target, m, false).None? <==> forall i :: 0 <= i < |m| ==> !EndsWith(m[i].0, LastSegment(target))
  {
    var parts := TargetParts(target, false);
    var last := |parts| - 1;
    assert LastSegment(target) == parts[last];
    assert parts[last..] == [parts[last]];
    SuffixSearchSound(m, parts, 0);
    forall c, i | 0 <= c < |parts| && 0 <= i < |m| && EndsWith(m[i].0, Join(parts[c..]))
      ensures EndsWith(m[i].0, parts[last])
    {
      JoinTailEndsWithLast(parts, c);
      EndsWithTrans(m[i].0, Join(parts[c..]), parts[last]);
    }
    if IndexOfKey(m, target).Some? {
      IndexOfKeyProperties(m, target);
      TargetJoinsBack(target, false);
      JoinTailEndsWithLast(parts, 0);
      var i := IndexOfKey(m, target).value;
      EndsWithTrans(m[i].0, target, parts[last]);
    }
  }



  /** `get_function_node`: the exact-key check, then the suffix scan. */
  method GetFunctionNode<V>(target: string, functionMap: FunctionMap<V>, oneLayerOnly: bool) returns (r: Option<V>)
    ensures r == (match Resolve(target, functionMap, oneLayerOnly)
                  case Some(i) => Some(functionMap[i].1)
                  case None => None)
  {
    var exact := KeyPosition(functionMap, target);
    if exact.Some? {
      return Some(functionMap[exact.value].1);
    }
    var nameSplit := if oneLayerOnly then SplitOnce(target) else Split(target);
    for count := 0 to |nameSplit|
      invariant SuffixSearch(functionMap, nameSplit, 0) == SuffixSearch(functionMap, nameSplit, count)
    {
      var j := SuffixPosition(functionMap, Join(nameSplit[count..]));
      if j.Some? {
        return Some(functionMap[j.value].1);
      }
    }
    return None;
  }

  /** The `if target in function_map` check, as the position of the key. */
  method KeyPosition<V>(m: FunctionMap<V>, k: string) returns (r: Option<nat>)
    ensures r == IndexOfKey(m, k)
  {
    IndexOfKeyProperties(m, k);
    for i := 0 to |m|
      invariant forall j :: 0 <= j < i ==> m[j].0 != k
    {
      if m[i].0 == k {
        return Some(i);
      }
    }
    return None;
  }

  /** The scan for the first key ending with `suffix`. */
  method SuffixPosition<V>(m: FunctionMap<V>, suffix: string) returns (r: Option<nat>)
    ensures r == FirstEndingWith(m, suffix)
  {
    for j := 0 to |m|
      invariant forall l :: 0 <= l < j ==> !EndsWith(m[l].0, suffix)
    {
      if EndsWith(m[j].0, suffix) {
        return Some(j);
      }
    }
    return None;
  }

  /** Character-level suffix matching: `bar` finds `foobar` when nothing better exists. */
  lemma SuffixMatchExample()
    ensures Resolve("bar", [("foobar", 1), ("baz", 2)], false) == Some(0)
    ensures Resolve("Foo::bar", [("baz", 1), ("bar", 2)], false) == Some(1)
  {
    assert FindSepFrom("bar", 0).None?;
    assert Split("bar") == ["bar"];
    assert ["bar"][0..] == ["bar"];
    assert EndsWith("foobar", "bar");
    var t := "Foo::bar";
    assert IsSepAt(t, 3);
    assert FindSepFrom(t, 0) == Some(3);
    assert t[5..] == "bar";
    assert FindSepFrom(t[5..], 0).None?;
    assert Split(t[5..]) == ["bar"];
    assert t[..3] == "Foo";
    assert Split(t) == ["Foo", "bar"];
    assert Split(t)[1..] == ["bar"];
    assert !EndsWith("baz", t) && !EndsWith("bar", t);
    assert !EndsWith("baz", "bar");
  }

  /** Longer trailing groups are tried first: `b::a::g` finds `q::a::g` before `z::g`. */
  lemma SuffixMatchLongestFirst()
    ensures Resolve("b::a::g", [("z::g", 1), ("q::a::g", 2)], false) == Some(1)
  {
    var t := "b::a::g";
    var m := [("z::g", 1), ("q::a::g", 2)];
    var parts := SplitExample();
    assert Join(parts[1..]) == "a::g" by {
      assert parts[1..] == ["a", "g"] && parts[1..][1..] == ["g"];
    }
    assert Join(parts[0..]) == t by {
      assert parts[0..] == parts && parts[1..] == ["a", "g"];
    }
    assert IndexOfKey(m, t).None?;
    assert !EndsWith("z::g", t) && !EndsWith("q::a::g", t);
    assert FirstEndingWith(m, Join(parts[0..])).None?;
    assert !EndsWith("z::g", "a::g") && EndsWith("q::a::g", "a::g");
    assert FirstEndingWith(m, Join(parts[1..])) == Some(1);
  }

  lemma SplitExample() returns (parts: seq<string>)
    ensures parts == Split("b::a::g") == ["b", "a", "g"]
  {
    var t := "b::a::g";
    assert IsSepAt(t, 1) && FindSepFrom(t, 0) == Some(1);
    var t1 := t[3..];
    assert t1 == "a::g";
    assert IsSepAt(t1, 1) && FindSepFrom(t1, 0) == Some(1);
    var t2 := t1[3..];
    assert t2 == "g";
    assert FindSepFrom(t2, 0).None?;
    assert Split(t2) == ["g"];
    assert t1[..1] == "a" && Split(t1) == ["a"] + Split(t2);
    assert t[..1] == "b" && Split(t) == ["b"] + Split(t1);
    parts := Split(t);
  }
}
