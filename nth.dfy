/**
 * filterByNth in its three revisions (lib/JSDOMHelpers.js, lib/jsdom.js and
 * lib/ElementIndexer.js): array slices and a switch on the raw operator
 * string, generic in what the array holds.
 */
module Nth {
  import opened Values

  /** The nth object of a parsed segment: { operator, value }. */
  datatype NthFilter = NthFilter(operator: string, value: Value)

  /**
   * A start or end argument of Array.prototype.slice once converted to an
   * integer: NaN (None) is 0, a negative one counts from the end, and the result is
   * clamped to [0, len].
   */
  function RelativeIndex(x: Option<int>, len: nat): (r: nat)
    ensures r <= len
    ensures x.Some? && 0 <= x.value <= len ==> r == x.value
    ensures x.Some? && -(len as int) <= x.value < 0 ==> r == len + x.value
  {
    if x.None? then 0
    else if x.value < 0 then (if len as int + x.value < 0 then 0 else len as int + x.value)
    else if x.value > len then len
    else x.value
  }

  /** Array.prototype.slice(start, end) with both arguments already converted. */
  function Slice<T>(s: seq<T>, start: Option<int>, end: Option<int>): (r: seq<T>)
    ensures |r| <= |s|
  {
    var a := RelativeIndex(start, |s|);
    var b := RelativeIndex(end, |s|);
    if a < b then s[a..b] else []
  }

  /** The end argument: undefined is the length, anything else goes through Number(). */
  function EndArgument(v: Value, len: nat): Option<int> {
    if v.Undefined? then Some(len) else ToNumber(v)
  }

  /** Number(v + 1): a string (or an object, through its string) concatenates "1", anything else adds. */
  function PlusOne(v: Value): Option<int> {
    match v
    case Str(s) => StringToNumber(s + "1")
    case Arr(_, _) => StringToNumber(ToString(v) + "1")
    case Obj(_) => StringToNumber(ToString(v) + "1")
    case Ref(_) => StringToNumber(ToString(v) + "1")
    case _ => var n := ToNumber(v); if n.Some? then Some(n.value + 1) else None
  }

  /**
   * elems._.whereKeys(k => k != n) over the first k items: those whose
   * position the key test does not pick, in order (the key test is
   * (i: nat) => KeyIs(i, n)).
   */
  function KeepKeys<T>(s: seq<T>, picked: nat -> bool, k: nat): (r: seq<T>)
    requires k <= |s|
    ensures |r| <= k
    decreases k
  {
    if k == 0 then []
    else KeepKeys(s, picked, k - 1) + (if picked(k - 1) then [] else [s[k - 1]])
  }

  /** elems._.whereKeys(k => k != n). */
  function KeepOtherKeys<T>(elems: seq<T>, n: Value): (r: seq<T>)
    ensures |r| <= |elems|
  {
    KeepKeys(elems, (i: nat) => KeyIs(i, n), |elems|)
  }

  /** The property key of index i is loosely equal to n. */
  predicate KeyIs(i: nat, n: Value) {
    LooseEq(Str(NatToString(i)), n)
  }

  /** elems[n]: the position the property key String(n) denotes, if it is one of the array's indices. */
  function Position(n: Value, len: nat): (r: Option<nat>)
    ensures r.Some? ==> r.value < len
  {
    var i := ArrayIndex(KeyOf(n));
    if i.Some? && i.value < len then i else None
  }

  /** A string nth value in lower case, with first, last and middle resolved (last is len - lastShift). */
  function ResolveKeyword(v: Value, len: nat, lastShift: nat): Value {
    if v.Str? then
      var n := Lower(v.s);
      if n == "last" then Num(len - lastShift)
      else if n == "first" then Num(0)
      else if n == "middle" then Num((len + 1) / 2 - 1)
      else Str(n)
    else v
  }

  /** The switch shared by the revisions that resolve keywords; the default is elems[n] ? [elems[n]] : []. */
  function SelectNth<T>(elems: seq<T>, op: string, n: Value): (r: seq<T>)
  {
    var len := |elems|;
    if op == ">" then Slice(elems, PlusOne(n), Some(len))
    else if op == "<" then Slice(elems, Some(0), EndArgument(n, len))
    else if op == ">=" then Slice(elems, ToNumber(n), Some(len))
    else if op == "<=" then Slice(elems, Some(0), PlusOne(n))
    else if op == "!=" || op == "!~" then KeepOtherKeys(elems, n)
    else
      var p := Position(n, len);
      if p.Some? then [elems[p.value]] else []
  }

  /** lib/JSDOMHelpers.js filterByNth: last is the final position. */
  function FilterByNth<T>(elems: seq<T>, nth: Option<NthFilter>): (r: seq<T>)
    ensures nth.None? ==> r == elems
    ensures SubseqOf(r, elems)
  {
    if nth.None? then SubseqOfSelf(elems); elems
    else
      var r := SelectNth(elems, nth.value.operator, ResolveKeyword(nth.value.value, |elems|, 1));
      SelectNthSubseq(elems, nth.value.operator, ResolveKeyword(nth.value.value, |elems|, 1));
      r
  }

  /** lib/jsdom.js filterByNth: last is the length, one past the final position. */
  function LegacyFilterByNth<T>(elems: seq<T>, nth: Option<NthFilter>): (r: seq<T>)
    ensures nth.None? ==> r == elems
    ensures SubseqOf(r, elems)
  {
    if nth.None? then SubseqOfSelf(elems); elems
    else
      var r := SelectNth(elems, nth.value.operator, ResolveKeyword(nth.value.value, |elems|, 0));
      SelectNthSubseq(elems, nth.value.operator, ResolveKeyword(nth.value.value, |elems|, 0));
      r
  }

  function Somes<T>(s: seq<T>): (r: seq<Option<T>>)
    ensures |r| == |s| && forall i :: 0 <= i < |s| ==> r[i] == Some(s[i])
  {
    seq(|s|, i requires 0 <= i < |s| => Some(s[i]))
  }

  /**
   * lib/ElementIndexer.js filterByNth: the keyword test looks at typeof nth
   * (an object), so keywords are never resolved, and the default returns the
   * one-element array [elems[value]] even when that slot is undefined (None).
   */
  function IndexerFilterByNth<T>(elems: seq<T>, nth: Option<NthFilter>): (r: seq<Option<T>>)
    ensures nth.None? ==> r == Somes(elems)
    ensures nth.Some? && !IsSliceOperator(nth.value.operator) ==> |r| == 1
  {
    if nth.None? then Somes(elems)
    else
      var op, n, len := nth.value.operator, nth.value.value, |elems|;
      if IsSliceOperator(op) then Somes(SelectNth(elems, op, n))
      else
        var p := Position(n, len);
        [if p.Some? then Some(elems[p.value]) else None]
  }

  predicate IsSliceOperator(op: string) {
    op == ">" || op == "<" || op == ">=" || op == "<=" || op == "!=" || op == "!~"
  }

  // -------------------------------------------------------------------
  // Order-preserving subsequences.
  // -------------------------------------------------------------------

  /** r is s with some items left out, the rest in their order. */
  predicate SubseqOf<T(==)>(r: seq<T>, s: seq<T>)
    decreases |s|
  {
    if r == [] then true
    else if s == [] then false
    else (r[|r| - 1] == s[|s| - 1] && SubseqOf(r[..|r| - 1], s[..|s| - 1])) || SubseqOf(r, s[..|s| - 1])
  }

  lemma {:induction false} SubseqOfSelf<T>(s: seq<T>)
    ensures SubseqOf(s, s)
    decreases |s|
  {
    if s != [] {
      SubseqOfSelf(s[..|s| - 1]);
    }
  }

  lemma {:induction false} SubseqOfSuffix<T>(s: seq<T>, a: nat)
    requires a <= |s|
    ensures SubseqOf(s[a..], s)
    decreases |s|
  {
    if a < |s| {
      assert s[a..][..|s[a..]| - 1] == s[..|s| - 1][a..];
      SubseqOfSuffix(s[..|s| - 1], a);
    }
  }

  lemma {:induction false} SubseqOfPrefix<T>(r: seq<T>, s: seq<T>, k: nat)
    requires k <= |s| && SubseqOf(r, s[..k])
    ensures SubseqOf(r, s)
    decreases |s| - k
  {
    if k == |s| {
      assert s[..k] == s;
    } else if r != [] {
      assert s[..k + 1][..k] == s[..k];
      SubseqOfPrefix(r, s, k + 1);
    }
  }

  lemma SliceSubseq<T>(s: seq<T>, a: nat, b: nat)
    requires a <= b <= |s|
    ensures SubseqOf(s[a..b], s)
  {
    SubseqOfSuffix(s[..b], a);
    assert s[..b][a..] == s[a..b];
    SubseqOfPrefix(s[a..b], s, b);
  }

  /** Every element of a subsequence is an element of the sequence. */
  lemma {:induction false} SubseqMembers<T>(r: seq<T>, s: seq<T>)
    requires SubseqOf(r, s)
    ensures forall x :: x in r ==> x in s
    decreases |s|
  {
    if r != [] {
      var s0 := s[..|s| - 1];
      assert s == s0 + [s[|s| - 1]];
      if r[|r| - 1] == s[|s| - 1] && SubseqOf(r[..|r| - 1], s0) {
        SubseqMembers(r[..|r| - 1], s0);
        assert r == r[..|r| - 1] + [r[|r| - 1]];
      } else {
        SubseqMembers(r, s0);
      }
    }
  }

  lemma SubseqAppend<T>(r: seq<T>, s: seq<T>, x: T)
    requires SubseqOf(r, s)
    ensures SubseqOf(r + [x], s + [x]) && SubseqOf(r, s + [x])
  {
    assert (r + [x])[..|r|] == r;
    assert (s + [x])[..|s|] == s;
  }

  lemma {:induction false} KeepKeysSubseq<T>(s: seq<T>, n: nat -> bool, k: nat)
    requires k <= |s|
    ensures SubseqOf(KeepKeys(s, n, k), s[..k])
    decreases k
  {
    if k == 0 {
    } else {
      var prev, init, x := KeepKeys(s, n, k - 1), s[..k - 1], s[k - 1];
      KeepKeysSubseq(s, n, k - 1);
      assert s[..k] == init + [x];
      SubseqAppend(prev, init, x);
      if n(k - 1) {
        assert KeepKeys(s, n, k) == prev;
      } else {
        assert KeepKeys(s, n, k) == prev + [x];
      }
    }
  }

  lemma SelectNthSubseq<T>(elems: seq<T>, op: string, n: Value)
    ensures SubseqOf(SelectNth(elems, op, n), elems)
  {
    var len := |elems|;
    var r := SelectNth(elems, op, n);
    if op == ">" || op == "<" || op == ">=" || op == "<=" {
      var start := if op == ">" then PlusOne(n) else if op == ">=" then ToNumber(n) else Some(0);
      var end := if op == "<" then EndArgument(n, len) else if op == "<=" then PlusOne(n) else Some(len);
      assert r == Slice(elems, start, end);
      var a, b := RelativeIndex(start, len), RelativeIndex(end, len);
      if a < b { SliceSubseq(elems, a, b); }
    } else if op == "!=" || op == "!~" {
      KeepKeysSubseq(elems, (i: nat) => KeyIs(i, n), len);
      assert elems[..len] == elems;
    } else {
      var p := Position(n, len);
      if p.Some? {
        SliceSubseq(elems, p.value, p.value + 1);
        assert elems[p.value..p.value + 1] == [elems[p.value]];
      }
    }
  }

  // -------------------------------------------------------------------
  // What each operator selects, for a position n of the array.
  // -------------------------------------------------------------------

  /** [nth>n] keeps what follows position n, [nth>=n] position n onward. */
  lemma AfterPosition<T>(elems: seq<T>, n: nat)
    requires n < |elems|
    ensures FilterByNth(elems, Some(NthFilter(">", Num(n)))) == elems[n + 1..]
    ensures FilterByNth(elems, Some(NthFilter(">=", Num(n)))) == elems[n..]
  {
    assert elems[n + 1..|elems|] == elems[n + 1..];
    assert elems[n..|elems|] == elems[n..];
  }

  /** [nth<n] keeps the first n items, [nth<=n] the first n + 1. */
  lemma BeforePosition<T>(elems: seq<T>, n: nat)
    requires n < |elems|
    ensures FilterByNth(elems, Some(NthFilter("<", Num(n)))) == elems[..n]
    ensures FilterByNth(elems, Some(NthFilter("<=", Num(n)))) == elems[..n + 1]
  {
  }

  /** [nth!=n] and [nth!~n] drop position n and nothing else. */
  lemma DropsOnlyPosition<T>(elems: seq<T>, n: nat)
    requires n < |elems|
    ensures FilterByNth(elems, Some(NthFilter("!=", Num(n)))) == elems[..n] + elems[n + 1..]
    ensures FilterByNth(elems, Some(NthFilter("!~", Num(n)))) == elems[..n] + elems[n + 1..]
  {
    assert ResolveKeyword(Num(n), |elems|, 1) == Num(n);
    assert SelectNth(elems, "!=", Num(n)) == KeepOtherKeys(elems, Num(n));
    assert SelectNth(elems, "!~", Num(n)) == KeepOtherKeys(elems, Num(n));
    OtherKeysDropOne(elems, n);
  }

  lemma OtherKeysDropOne<T>(elems: seq<T>, n: nat)
    requires n < |elems|
    ensures KeepOtherKeys(elems, Num(n)) == elems[..n] + elems[n + 1..]
  {
    var picked := (i: nat) => KeyIs(i, Num(n));
    forall i: nat ensures picked(i) <==> i == n {
      KeyMatchesPosition(i, n);
    }
    KeepKeysDropsOne(elems, picked, n, |elems|);
    assert elems[n + 1..|elems|] == elems[n + 1..];
  }

  lemma {:induction false} KeepKeysDropsOne<T>(s: seq<T>, picked: nat -> bool, n: nat, k: nat)
    requires n < |s| && k <= |s|
    requires forall i: nat :: picked(i) <==> i == n
    ensures KeepKeys(s, picked, k) == if k <= n then s[..k] else s[..n] + s[n + 1..k]
    decreases k
  {
    if k > 0 {
      var prev, x := KeepKeys(s, picked, k - 1), s[k - 1];
      KeepKeysDropsOne(s, picked, n, k - 1);
      if k - 1 < n {
        assert KeepKeys(s, picked, k) == prev + [x];
        assert s[..k] == s[..k - 1] + [x];
      } else if k - 1 == n {
        assert KeepKeys(s, picked, k) == prev;
        assert prev == s[..n];
        assert s[n + 1..k] == [];
      } else {
        assert KeepKeys(s, picked, k) == prev + [x];
        assert prev == s[..n] + s[n + 1..k - 1];
        assert s[n + 1..k] == s[n + 1..k - 1] + [x];
      }
    }
  }

  /** The index key of position i is loosely equal to the number n exactly when i is n. */
  lemma KeyMatchesPosition(i: nat, n: int)
    ensures KeyIs(i, Num(n)) <==> i == n
  {
    IntLiteralOfNat(i);
  }

  /** The index key of a position reads back as that number. */
  lemma IntLiteralOfNat(i: nat)
    ensures StringToNumber(NatToString(i)) == Some(i)
  {
    IntToStringIsLiteral(i);
    assert IntToString(i) == NatToString(i);
    TrimOfDigits(NatToString(i));
  }

  lemma TrimOfDigits(s: string)
    requires AllDigits(s) && |s| >= 1
    ensures Trim(s) == s
  {
    assert !IsJsSpace(s[0]) && !IsJsSpace(s[|s| - 1]);
  }

  /** The default selects position n, and nothing when there is none. */
  lemma AtPosition<T>(elems: seq<T>, n: nat)
    ensures FilterByNth(elems, Some(NthFilter("=", Num(n)))) == if n < |elems| then [elems[n]] else []
  {
    NatIsIndexKey(n);
  }

  lemma NatIsIndexKey(n: nat)
    ensures ArrayIndex(KeyOf(Num(n))) == Some(n)
  {
    assert KeyOf(Num(n)) == NatToString(n);
    ParseNatToString(n);
  }

  /** first, last and middle, in any case, resolve to 0, len - 1 and ceil(len / 2) - 1. */
  lemma Keywords<T>(elems: seq<T>, s: string)
    requires |elems| >= 1
    ensures Lower(s) == "first" ==> FilterByNth(elems, Some(NthFilter("=", Str(s)))) == [elems[0]]
    ensures Lower(s) == "last" ==> FilterByNth(elems, Some(NthFilter("=", Str(s)))) == [elems[|elems| - 1]]
    ensures Lower(s) == "middle" ==> FilterByNth(elems, Some(NthFilter("=", Str(s)))) == [elems[(|elems| + 1) / 2 - 1]]
  {
    NatIsIndexKey(0);
    NatIsIndexKey(|elems| - 1);
    NatIsIndexKey((|elems| + 1) / 2 - 1);
  }

  /** Any other string that is no index key selects nothing with =. */
  lemma OtherStringSelectsNothing<T>(elems: seq<T>, s: string)
    requires Lower(s) != "first" && Lower(s) != "last" && Lower(s) != "middle"
    requires ArrayIndex(Lower(s)).None?
    ensures FilterByNth(elems, Some(NthFilter("=", Str(s)))) == []
  {
  }

  /** lib/jsdom.js: last is the length, so [nth=last] selects nothing and [nth<last] keeps everything. */
  lemma LegacyLastIsLength<T>(elems: seq<T>)
    ensures LegacyFilterByNth(elems, Some(NthFilter("=", Str("last")))) == []
    ensures LegacyFilterByNth(elems, Some(NthFilter("<", Str("last")))) == elems
  {
    assert Lower("last") == "last";
    NatIsIndexKey(|elems|);
  }

  /** lib/ElementIndexer.js: a keyword stays a string, so [nth=first] yields one undefined slot. */
  lemma IndexerKeywordsUnresolved<T>(elems: seq<T>)
    ensures IndexerFilterByNth(elems, Some(NthFilter("=", Str("first")))) == [None]
  {
    assert !IsDigit("first"[0]);
  }

  /** lib/ElementIndexer.js: the default yields one slot even past the end. */
  lemma IndexerPastTheEnd<T>(elems: seq<T>, n: nat)
    requires n >= |elems|
    ensures IndexerFilterByNth(elems, Some(NthFilter("=", Num(n)))) == [None]
  {
    NatIsIndexKey(n);
  }
}
