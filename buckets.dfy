/**
 * The shared shape of the property index: by[name][key] buckets of element
 * uids, the name -> delimiter map with its inversion, the with.<name> lookups
 * and the checks addIndex performs before it changes anything. Used by
 * lib/JSDOMIndex.js, lib/ElementIndexer.js and lib/jsdom.js alike.
 */
module Buckets {
  import opened Values
  import opened Grammar

  /** The elements filed under one key, in the order they were pushed. */
  type Bucket = seq<Uid>
  /** One index: key (the property key String(value)) -> bucket. */
  type Table = map<string, Bucket>
  /** by: index name -> table. */
  type Tables = map<string, Table>

  /** What a call site holds: an element, a node, or any other JavaScript value. */
  datatype Entity = ElementRef(uid: Uid) | NodeRef(uid: Uid) | OtherValue

  predicate NoDup<T(==)>(s: seq<T>) {
    forall i, j :: 0 <= i < j < |s| ==> s[i] != s[j]
  }

  /** Array.prototype.indexOf */
  function IndexOf<T(==)>(s: seq<T>, x: T): (r: int)
    ensures -1 <= r < |s|
    ensures r == -1 <==> x !in s
    ensures r >= 0 ==> s[r] == x
    ensures forall k :: 0 <= k < r ==> s[k] != x
  {
    if s == [] then -1
    else if s[0] == x then 0
    else
      var rest := IndexOf(s[1..], x);
      if rest == -1 then -1 else rest + 1
  }

  /** var i = s.indexOf(x); if(i > -1) s.splice(i, 1); */
  function RemoveFirst<T(==)>(s: seq<T>, x: T): (r: seq<T>)
    ensures x !in s ==> r == s
    ensures x in s ==> r == s[..IndexOf(s, x)] + s[IndexOf(s, x) + 1..]
  {
    var i := IndexOf(s, x);
    if i == -1 then s else s[..i] + s[i + 1..]
  }

  /** What removing the first occurrence does to a list without repetitions. */
  lemma RemoveFirstNoDup<T>(s: seq<T>, x: T)
    requires NoDup(s)
    ensures NoDup(RemoveFirst(s, x)) && x !in RemoveFirst(s, x)
    ensures forall y :: y != x ==> (y in RemoveFirst(s, x) <==> y in s)
    ensures multiset(RemoveFirst(s, x)) == multiset(s) - multiset{x}
  {
    if x in s {
      var i := IndexOf(s, x);
      SpliceNoDup(s, i);
      SpliceMultiset(s, i);
    }
  }

  lemma SpliceNoDup<T>(s: seq<T>, i: nat)
    requires NoDup(s) && i < |s|
    ensures NoDup(s[..i] + s[i + 1..]) && s[i] !in s[..i] + s[i + 1..]
    ensures forall y :: y != s[i] ==> (y in s[..i] + s[i + 1..] <==> y in s)
  {
    var r := s[..i] + s[i + 1..];
    assert |r| == |s| - 1;
    forall k | 0 <= k < |r| ensures r[k] == s[if k < i then k else k + 1] {
      if k < i {
        assert r[k] == s[..i][k];
      } else {
        assert r[k] == s[i + 1..][k - i];
      }
    }
    forall a, b | 0 <= a < b < |r| ensures r[a] != r[b] {
      assert r[a] == s[if a < i then a else a + 1];
      assert r[b] == s[if b < i then b else b + 1];
    }
    forall k | 0 <= k < |r| ensures r[k] != s[i] {
      assert r[k] == s[if k < i then k else k + 1];
    }
    forall y | y != s[i] && y in s ensures y in r {
      var k :| 0 <= k < |s| && s[k] == y;
      assert r[if k < i then k else k - 1] == y;
    }
  }

  lemma SpliceMultiset<T>(s: seq<T>, i: nat)
    requires i < |s|
    ensures multiset(s[..i] + s[i + 1..]) == multiset(s) - multiset{s[i]}
  {
    assert s == s[..i] + [s[i]] + s[i + 1..];
    assert multiset(s) == multiset(s[..i]) + multiset{s[i]} + multiset(s[i + 1..]);
  }

  /** if(b.indexOf(x) === -1) b.push(x); */
  function PushNew<T(==)>(s: seq<T>, x: T): (r: seq<T>)
    ensures x in r && (x in s ==> r == s) && (x !in s ==> r == s + [x])
  {
    if x in s then s else s + [x]
  }

  lemma PushNewNoDup<T>(s: seq<T>, x: T)
    requires NoDup(s)
    ensures NoDup(PushNew(s, x))
  {
  }

  /** Adding an element twice is adding it once. */
  lemma PushNewIdempotent<T>(s: seq<T>, x: T)
    ensures PushNew(PushNew(s, x), x) == PushNew(s, x)
  {
  }

  /** makeUnique: the first occurrence of each element, in order. */
  function Unique(s: seq<Uid>): (r: seq<Uid>)
    ensures NoDup(r) && |r| <= |s|
    ensures forall x :: x in r <==> x in s
    decreases |s|
  {
    if s == [] then []
    else
      PushNew(Unique(s[..|s| - 1]), s[|s| - 1])
  }

  /** A list without repeats is left as it is. */
  lemma {:induction false} UniqueOfNoDup(s: seq<Uid>)
    requires NoDup(s)
    ensures Unique(s) == s
    decreases |s|
  {
    if s != [] {
      var init := s[..|s| - 1];
      assert NoDup(init);
      UniqueOfNoDup(init);
      assert s[|s| - 1] !in init;
      assert s == init + [s[|s| - 1]];
    }
  }

  /** Each element keeps the place of its first occurrence: Unique lists them in the order they first appear. */
  lemma {:induction false} UniqueInOrder(s: seq<Uid>)
    ensures forall a, b :: 0 <= a < b < |Unique(s)| ==> IndexOf(s, Unique(s)[a]) < IndexOf(s, Unique(s)[b])
    decreases |s|
  {
    if s != [] {
      var init := s[..|s| - 1];
      var x := s[|s| - 1];
      assert s == init + [x];
      UniqueInOrder(init);
      var u := Unique(init);
      forall y | y in init ensures IndexOf(s, y) == IndexOf(init, y) {
        IndexOfExtended(init, x, y);
      }
      if x !in init {
        assert Unique(s) == u + [x];
        IndexOfExtended(init, x, x);
        forall a | 0 <= a < |u| ensures IndexOf(s, u[a]) < IndexOf(s, x) {
          assert u[a] in init;
        }
      }
    }
  }

  /** Appending to a list does not move the first occurrence of what is already in it; a new element lands at the end. */
  lemma IndexOfExtended<T>(init: seq<T>, x: T, y: T)
    ensures y in init ==> IndexOf(init + [x], y) == IndexOf(init, y)
    ensures y !in init && y == x ==> IndexOf(init + [x], y) == |init|
  {
    var s := init + [x];
    var r := IndexOf(s, y);
    if y in init {
      assert s[IndexOf(init, y)] == y;
    } else if y == x {
      assert s[|init|] == y;
    }
  }

  predicate AllBucketsNoDup(tbl: Tables) {
    forall name, key :: name in tbl && key in tbl[name] ==> NoDup(tbl[name][key])
  }

  /** tbl[name][key], or [] when the index or the key is absent. */
  function BucketAt(tbl: Tables, name: string, key: string): (b: Bucket)
    ensures name in tbl && key in tbl[name] ==> b == tbl[name][key]
    ensures name !in tbl || key !in tbl[name] ==> b == []
  {
    if name in tbl && key in tbl[name] then tbl[name][key] else []
  }

  // -------------------------------------------------------------------
  // The name -> delimiter map (map / _map), and its inversion.
  // -------------------------------------------------------------------

  /**
   * The map as an association list in insertion order. None is a null entry
   * (lib/ElementIndexer.js and lib/jsdom.js map selector, delta and level to
   * null); every other value is a one-character string.
   */
  type Delims = seq<(string, Option<char>)>

  predicate DistinctNames(d: Delims) {
    forall i, j :: 0 <= i < j < |d| ==> d[i].0 != d[j].0
  }

  /** map[name] as a delimiter character, None when absent or null. */
  function MappedChar(d: Delims, name: string): (r: Option<char>)
    ensures r.Some? ==> exists i :: 0 <= i < |d| && d[i] == (name, r)
    ensures r.None? ==> forall i :: 0 <= i < |d| && d[i].0 == name ==> d[i].1.None?
  {
    if d == [] then None
    else if d[0].0 == name then
      if d[0].1.Some? then d[0].1
      else
        var r := MappedChar(d[1..], name);
        if r.Some? then
          var i :| 0 <= i < |d[1..]| && d[1..][i] == (name, r);
          assert d[i + 1] == (name, r);
          r
        else r
    else
      var r := MappedChar(d[1..], name);
      if r.Some? then
        var i :| 0 <= i < |d[1..]| && d[1..][i] == (name, r);
        assert d[i + 1] == (name, r);
        r
      else
        assert forall i :: 1 <= i < |d| ==> d[i] == d[1..][i - 1];
        r
  }

  /** map._.invert()[c]: the name of the last entry whose delimiter is c. */
  function Invert(d: Delims, c: char): (r: Option<string>)
    ensures r.Some? ==> exists i :: 0 <= i < |d| && d[i] == (r.value, Some(c))
    ensures r.None? ==> forall i :: 0 <= i < |d| ==> d[i].1 != Some(c)
  {
    if d == [] then None
    else if d[|d| - 1].1 == Some(c) then Some(d[|d| - 1].0)
    else
      var r := Invert(d[..|d| - 1], c);
      if r.Some? then
        var i :| 0 <= i < |d[..|d| - 1]| && d[..|d| - 1][i] == (r.value, Some(c));
        assert d[i] == (r.value, Some(c));
        r
      else
        assert forall i :: 0 <= i < |d| - 1 ==> d[i] == d[..|d| - 1][i];
        r
  }

  /** The characters of the selector types class: every string delimiter. */
  function Types(d: Delims): (t: set<char>)
    ensures forall c :: c in t <==> exists i :: 0 <= i < |d| && d[i].1 == Some(c)
  {
    set i, c | 0 <= i < |d| && d[i].1 == Some(c) :: c
  }

  /** map[name] = c: an existing entry keeps its place, a new one goes last. */
  function SetDelim(d: Delims, name: string, c: char): (r: Delims)
    ensures |r| == |d| || |r| == |d| + 1
    ensures MappedCharAfterSet(d, name, c, r)
    decreases |d|
  {
    if d == [] then [(name, Some(c))]
    else if d[0].0 == name then [(name, Some(c))] + d[1..]
    else [d[0]] + SetDelim(d[1..], name, c)
  }

  ghost predicate MappedCharAfterSet(d: Delims, name: string, c: char, r: Delims) {
    MappedChar(r, name) == Some(c) &&
    forall other :: other != name ==> MappedChar(r, other) == MappedChar(d, other)
  }

  /** delete map[name] */
  function RemoveDelim(d: Delims, name: string): (r: Delims)
    ensures MappedChar(r, name).None?
    ensures forall other :: other != name ==> MappedChar(r, other) == MappedChar(d, other)
    ensures |r| <= |d|
  {
    if d == [] then []
    else if d[0].0 == name then RemoveDelim(d[1..], name)
    else [d[0]] + RemoveDelim(d[1..], name)
  }

  // -------------------------------------------------------------------
  // addIndex argument checks (the same six in every revision).
  // -------------------------------------------------------------------

  datatype AddIndexError =
    | NameNotString         // typeof name !== 'string'
    | DelimiterNotString    // a truthy delimiter that is not a string
    | DelimiterTooLong      // delimiter.length > 1
    | DelimiterForbidden    // it matches INVALID_SELECTOR_CHARACTERS
    | NameInUse             // map[name] is already a delimiter
    | DelimiterInUse        // invert()[delimiter] names a (non-empty) property

  /** The outcome of the checks: the error thrown, or the delimiter to record (None: a falsy delimiter). */
  datatype Checked = Rejected(reason: AddIndexError) | Accepted(delimiter: Option<char>)

  function CheckAddIndex(name: Value, delimiter: Value, d: Delims): (r: Checked)
    ensures r == Rejected(NameNotString) <==> !name.Str?
    ensures name.Str? ==> (r == Rejected(DelimiterNotString) <==> Truthy(delimiter) && !delimiter.Str?)
    ensures r == Rejected(DelimiterTooLong) ==> delimiter.Str? && |delimiter.s| > 1
    ensures r == Rejected(DelimiterForbidden) ==> delimiter.Str? && |delimiter.s| == 1 && IsInvalidSelectorChar(delimiter.s[0])
    ensures r == Rejected(NameInUse) ==> MappedChar(d, name.s).Some?
    ensures r == Rejected(DelimiterInUse) ==> delimiter.Str? && |delimiter.s| == 1 && Invert(d, delimiter.s[0]).Some? && Invert(d, delimiter.s[0]).value != ""
    ensures r.Accepted? ==> name.Str? && (r.delimiter.None? <==> !Truthy(delimiter))
    ensures r.Accepted? && r.delimiter.Some? ==>
      delimiter == Str([r.delimiter.value]) && !IsInvalidSelectorChar(r.delimiter.value) &&
      MappedChar(d, name.s).None? && (Invert(d, r.delimiter.value).None? || Invert(d, r.delimiter.value) == Some(""))
  {
    if !name.Str? then Rejected(NameNotString)
    else if Truthy(delimiter) && !delimiter.Str? then Rejected(DelimiterNotString)
    else if !Truthy(delimiter) then Accepted(None)
    else if |delimiter.s| > 1 then Rejected(DelimiterTooLong)
    else
      var c := delimiter.s[0];
      if IsInvalidSelectorChar(c) then Rejected(DelimiterForbidden)
      else if MappedChar(d, name.s).Some? then Rejected(NameInUse)
      else
        var holder := Invert(d, c);
        if holder.Some? && holder.value != "" then Rejected(DelimiterInUse)
        else Accepted(Some(c))
  }

  /** Every forbidden character is refused, whatever the state of the map. */
  lemma ForbiddenDelimiterRejected(name: string, c: char, d: Delims)
    requires IsInvalidSelectorChar(c)
    ensures CheckAddIndex(Str(name), Str([c]), d) == Rejected(DelimiterForbidden)
  {
  }

  /** A delimiter already mapped to a non-empty name is refused for any other name. */
  lemma DelimiterInUseRejected(name: string, c: char, d: Delims)
    requires !IsInvalidSelectorChar(c) && MappedChar(d, name).None?
    requires Invert(d, c).Some? && Invert(d, c).value != ""
    ensures CheckAddIndex(Str(name), Str([c]), d) == Rejected(DelimiterInUse)
  {
  }

  // -------------------------------------------------------------------
  // with.<name>(key)
  // -------------------------------------------------------------------

  /** What a with entry does: read a bucket of by[name], or run a selector query. */
  datatype Lookup = BucketLookup | SelectorLookup

  /**
   * with[name](key). A bucket lookup returns the bucket or [] (arrays are
   * truthy, so an empty bucket is returned as it is). with.selector calls
   * findElementsWithSelector with two arguments, which throws for want of the
   * tokens array; a name with no entry is not a function (TypeError).
   */
  function WithCall(tbl: Tables, lookups: map<string, Lookup>, name: string, key: string): (r: Result<Bucket>)
    ensures r.Ok? <==> name in lookups && lookups[name].BucketLookup? && name in tbl
    ensures r.Ok? ==> r.value == BucketAt(tbl, name, key)
  {
    if name !in lookups then Err("TypeError: index.with[" + name + "] is not a function")
    else if lookups[name].SelectorLookup? then Err("findElementsWithSelector expected argument #2 (tokens) to be an array")
    else if name !in tbl then Err("TypeError: Cannot read properties of undefined")
    else Ok(BucketAt(tbl, name, key))
  }

  // -------------------------------------------------------------------
  // The key the keyless removeElementFromIndex actually uses.
  // -------------------------------------------------------------------

  /**
   * String(b) for a bucket of n elements: each element prints as
   * "[object Object]", joined with ",".
   */
  function ObjectJoin(n: nat): (s: string)
    ensures n == 0 <==> s == ""
    ensures n > 0 ==> s[0] == '['
  {
    if n == 0 then "" else if n == 1 then "[object Object]" else ObjectJoin(n - 1) + ",[object Object]"
  }

  /** No numeral is such a key: the level and delta tables, keyed by numerals, never meet one. */
  lemma ObjectJoinIsNoNumeral(n: nat, i: int)
    ensures ObjectJoin(n) != IntToString(i)
  {
    var s := IntToString(i);
    if i >= 0 {
      assert s == NatToString(i);
      assert AllDigits(s) && |s| >= 1;
    } else {
      assert s[0] == '-';
    }
  }
}
