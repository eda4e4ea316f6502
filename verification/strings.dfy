/**
 * The Python string operations the analyser relies on, written out:
 * substring test, `startswith`/`endswith`, `split('::')`, `split('::', 1)`,
 * `rsplit('::', 1)`, `'::'.join`, `*` repetition and decimal formatting.
 */
module Strings {
  import opened Basics

  predicate StartsWith(s: string, prefix: string) {
    |prefix| <= |s| && s[..|prefix|] == prefix
  }

  /** Python's `s.endswith(suffix)`: character-level, so "foobar" ends with "bar". */
  predicate EndsWith(s: string, suffix: string) {
    |suffix| <= |s| && s[|s| - |suffix|..] == suffix
  }

  ghost predicate OccursAt(p: string, s: string, i: int) {
    0 <= i && i + |p| <= |s| && s[i..i + |p|] == p
  }

  /** Reference meaning of Python's `p in s`. */
  ghost predicate IsSubstring(p: string, s: string) {
    exists i :: OccursAt(p, s, i)
  }

  /** Python's `p in s`, scanning start positions left to right. */
  function Contains(s: string, p: string): bool
    decreases |s|
  {
    if StartsWith(s, p) then true
    else if s == [] then false
    else Contains(s[1..], p)
  }

  lemma {:induction false} ContainsIsSubstring(s: string, p: string)
    ensures Contains(s, p) <==> IsSubstring(p, s)
    decreases |s|
  {
    if StartsWith(s, p) {
      assert OccursAt(p, s, 0);
    } else if s == [] {
      assert forall i :: !OccursAt(p, s, i);
    } else {
      ContainsIsSubstring(s[1..], p);
      assert !OccursAt(p, s, 0);
      if IsSubstring(p, s) {
        var i :| OccursAt(p, s, i);
        OccursShift(s, p, i - 1);
      }
      if IsSubstring(p, s[1..]) {
        var i :| OccursAt(p, s[1..], i);
        OccursShift(s, p, i);
      }
    }
  }

  /** An occurrence in the tail `s[1..]` is an occurrence in `s` one position further on. */
  lemma OccursShift(s: string, p: string, i: int)
    requires s != [] && 0 <= i
    ensures OccursAt(p, s[1..], i) <==> OccursAt(p, s, i + 1)
  {
    if i + 1 + |p| <= |s| {
      TailSlice(s, i, |p|);
    }
  }

  /** A slice of the tail `s[1..]` is the slice of `s` one position further on. */
  lemma TailSlice(s: string, i: nat, n: nat)
    requires 1 + i + n <= |s|
    ensures s[1..][i..i + n] == s[i + 1..i + 1 + n]
  {
    var a, b := s[1..][i..i + n], s[i + 1..i + 1 + n];
    assert forall k :: 0 <= k < n ==> a[k] == b[k];
  }

  /** The separator `::` starts at position `i` of `s`. */
  predicate IsSepAt(s: string, i: int) {
    0 <= i && i + 2 <= |s| && s[i] == ':' && s[i + 1] == ':'
  }

  /** First occurrence of `::` at or after `from` (what `str.split` looks for). */
  function FindSepFrom(s: string, from: nat): (r: Option<nat>)
    ensures r.Some? ==> from <= r.value && IsSepAt(s, r.value)
    ensures r.Some? ==> forall j :: from <= j < r.value ==> !IsSepAt(s, j)
    ensures r.None? ==> forall j :: from <= j ==> !IsSepAt(s, j)
    decreases |s| - from
  {
    if from + 2 > |s| then None
    else if IsSepAt(s, from) then Some(from)
    else FindSepFrom(s, from + 1)
  }

  /** Last occurrence of `::` in `s` (what `str.rsplit(..., 1)` looks for). */
  function FindLastSep(s: string): (r: Option<nat>)
    ensures r.Some? ==> IsSepAt(s, r.value) && forall j :: r.value < j ==> !IsSepAt(s, j)
    ensures r.None? ==> forall j :: !IsSepAt(s, j)
    decreases |s|
  {
    if |s| < 2 then None
    else if IsSepAt(s, |s| - 2) then Some(|s| - 2)
    else
      var r := FindLastSep(s[..|s| - 1]);
      assert forall j :: IsSepAt(s, j) && j != |s| - 2 ==> IsSepAt(s[..|s| - 1], j);
      r
  }

  /** Python's `s.split('::')`. */
  function Split(s: string): (parts: seq<string>)
    ensures |parts| >= 1
    decreases |s|
  {
    match FindSepFrom(s, 0)
    case None => [s]
    case Some(i) => [s[..i]] + Split(s[i + 2..])
  }

  /** Python's `s.split('::', 1)`: at most two parts. */
  function SplitOnce(s: string): (parts: seq<string>)
    ensures 1 <= |parts| <= 2
  {
    match FindSepFrom(s, 0)
    case None => [s]
    case Some(i) => [s[..i], s[i + 2..]]
  }

  /** Python's `'::'.join(parts)`. */
  function Join(parts: seq<string>): string {
    if |parts| == 0 then ""
    else if |parts| == 1 then parts[0]
    else parts[0] + "::" + Join(parts[1..])
  }

  /** Python's `s.split('::')[-1]`. */
  function LastSegment(s: string): string {
    var parts := Split(s);
    parts[|parts| - 1]
  }

  /** `'::'.join(s.split('::')) == s`: splitting loses nothing. */
  lemma {:induction false} JoinSplit(s: string)
    ensures Join(Split(s)) == s
    decreases |s|
  {
    match FindSepFrom(s, 0)
    case None =>
    case Some(i) =>
      JoinSplit(s[i + 2..]);
      assert Split(s) == [s[..i]] + Split(s[i + 2..]);
      assert s == s[..i] + "::" + s[i + 2..];
  }

  lemma JoinSplitOnce(s: string)
    ensures Join(SplitOnce(s)) == s
  {
    match FindSepFrom(s, 0)
    case None =>
    case Some(i) =>
      assert s == s[..i] + "::" + s[i + 2..];
  }

  /** Every trailing group of segments of `s.split('::')`, re-joined, is a suffix of `s`. */
  lemma {:induction false} SplitTailIsSuffix(s: string, k: nat)
    requires k < |Split(s)|
    ensures EndsWith(s, Join(Split(s)[k..]))
    decreases |s|
  {
    if k == 0 {
      JoinSplit(s);
    } else {
      match FindSepFrom(s, 0)
      case None =>
      case Some(i) =>
        var rest := s[i + 2..];
        assert Split(s)[k..] == Split(rest)[k - 1..];
        SplitTailIsSuffix(rest, k - 1);
        var t := Join(Split(rest)[k - 1..]);
        assert s[|s| - |t|..] == rest[|rest| - |t|..];
    }
  }

  lemma SplitOnceTailIsSuffix(s: string, k: nat)
    requires k < |SplitOnce(s)|
    ensures EndsWith(s, Join(SplitOnce(s)[k..]))
  {
    if k == 0 {
      JoinSplitOnce(s);
    } else {
      var i := FindSepFrom(s, 0).value;
      assert SplitOnce(s)[k..] == [s[i + 2..]];
    }
  }

  /** Python's `s * n` on strings. */
  function Repeat(s: string, n: nat): (r: string)
    ensures |r| == |s| * n
  {
    if n == 0 then "" else s + Repeat(s, n - 1)
  }

  function DigitChar(d: nat): char
    requires d < 10
  {
    "0123456789"[d]
  }

  /** Python's `'%d' % n` / `str(n)` for a non-negative integer. */
  function NatToString(n: nat): string
    decreases n
  {
    if n < 10 then [DigitChar(n)] else NatToString(n / 10) + [DigitChar(n % 10)]
  }

  /** Python's `str(i)` for any integer. */
  function IntToString(i: int): string {
    if i < 0 then "-" + NatToString(-i) else NatToString(i)
  }

  function DigitValue(c: char): nat {
    if '0' <= c <= '9' then (c as int - '0' as int) as nat else 0
  }

  /** Reads a string of decimal digits back as a number. */
  function ParseNat(s: string): nat
    decreases |s|
  {
    if s == [] then 0 else ParseNat(s[..|s| - 1]) * 10 + DigitValue(s[|s| - 1])
  }

  /** Decimal formatting is reversible, so a formatted number identifies its value. */
  lemma {:induction false} ParseNatToString(n: nat)
    ensures ParseNat(NatToString(n)) == n
    decreases n
  {
    if n >= 10 {
      var s := NatToString(n);
      ParseNatToString(n / 10);
      assert s[..|s| - 1] == NatToString(n / 10);
    }
  }
}
