/**
 * Token dissection in findElementsWithSelector (lib/JSDOMHelpers.js): each
 * selector token becomes a segment holding its terms (the typed parts of
 * the token before its trailing brackets), its nth filter and its attribute
 * filters grouped by the bracket variable.
 */
module Dissect {
  import opened Values
  import opened Grammar
  import opened Buckets
  import opened Nth
  import opened Attributes

  /** One term: its value and the index name its delimiter maps to (None for undefined). */
  datatype Term = Term(value: string, kind: Option<string>)

  /** One dissected token. */
  datatype Segment = Segment(terms: seq<Term>, nth: Option<NthFilter>, filters: Filters)

  // -------------------------------------------------------------------
  // Brackets: the nth filter and the grouped attribute filters.
  // -------------------------------------------------------------------

  /** The { operator, value } record of a bracket. */
  function FilterOf(b: Bracket): Filter {
    Filter(b.operator, BracketValue(b.value))
  }

  /** if (!filters[v]) filters[v] = []; filters[v].push(f) */
  function AddFilter(fs: Filters, v: string, f: Filter): (r: Filters)
    ensures Names(r) == PushNew(Names(fs), v)
    ensures GroupOf(r, v) == GroupOf(fs, v) + [f]
    ensures forall w :: w != v ==> GroupOf(r, w) == GroupOf(fs, w)
    decreases |fs|
  {
    if fs == [] then [(v, [f])]
    else if fs[0].0 == v then
      var r := [(v, fs[0].1 + [f])] + fs[1..];
      assert Names(r) == [v] + Names(fs[1..]);
      r
    else
      var rest := AddFilter(fs[1..], v, f);
      var r := [fs[0]] + rest;
      assert r[1..] == rest;
      assert Names(r) == [fs[0].0] + Names(rest);
      assert Names(fs) == [fs[0].0] + Names(fs[1..]);
      r
  }

  /** The names of the groups, in order. */
  function Names(fs: Filters): (ns: seq<string>)
    ensures |ns| == |fs|
    decreases |fs|
  {
    if fs == [] then [] else [fs[0].0] + Names(fs[1..])
  }

  /** filters[v]: the group named v, [] (undefined) when there is none. */
  function GroupOf(fs: Filters, v: string): seq<Filter>
    decreases |fs|
  {
    if fs == [] then [] else if fs[0].0 == v then fs[0].1 else GroupOf(fs[1..], v)
  }

  /** The nth filter and the filters after the exec loop has seen the brackets bs, in order. */
  function Collected(bs: seq<Bracket>): (Option<NthFilter>, Filters)
    decreases |bs|
  {
    if bs == [] then (None, [])
    else
      var prev := Collected(bs[..|bs| - 1]);
      var b := bs[|bs| - 1];
      if b.variable == "nth" then (Some(NthFilter(b.operator, BracketValue(b.value))), prev.1)
      else (prev.0, AddFilter(prev.1, b.variable, FilterOf(b)))
  }

  /** Reference: the filters of the brackets on variable v, in source order. */
  function FiltersNamed(bs: seq<Bracket>, v: string): (r: seq<Filter>)
    ensures |r| <= |bs|
    decreases |bs|
  {
    if bs == [] then []
    else
      var b := bs[|bs| - 1];
      FiltersNamed(bs[..|bs| - 1], v) + (if b.variable == v then [FilterOf(b)] else [])
  }

  /** Reference: the variables other than nth, each once, in order of first appearance. */
  function FirstAppearances(bs: seq<Bracket>): (r: seq<string>)
    ensures NoDup(r) && "nth" !in r
    ensures forall v :: v in r <==> exists k :: 0 <= k < |bs| && bs[k].variable == v && v != "nth"
    decreases |bs|
  {
    if bs == [] then []
    else
      var prev := FirstAppearances(bs[..|bs| - 1]);
      var b := bs[|bs| - 1];
      assert forall k :: 0 <= k < |bs| - 1 ==> bs[..|bs| - 1][k] == bs[k];
      PushNewNoDup(prev, b.variable);
      if b.variable == "nth" then prev else PushNew(prev, b.variable)
  }

  /** The group of a variable other than nth holds exactly the filters of its brackets, in source order. */
  lemma {:induction false} GroupedByVariable(bs: seq<Bracket>, v: string)
    requires v != "nth"
    ensures GroupOf(Collected(bs).1, v) == FiltersNamed(bs, v)
    decreases |bs|
  {
    if bs != [] {
      GroupedByVariable(bs[..|bs| - 1], v);
    }
  }

  /** The groups are the non-nth variables, each once, in order of first appearance. */
  lemma {:induction false} GroupsInSourceOrder(bs: seq<Bracket>)
    ensures Names(Collected(bs).1) == FirstAppearances(bs)
    decreases |bs|
  {
    if bs != [] {
      GroupsInSourceOrder(bs[..|bs| - 1]);
    }
  }

  /** The nth filter is the last nth bracket. */
  lemma {:induction false} LastNthWins(bs: seq<Bracket>, k: nat)
    requires k < |bs| && bs[k].variable == "nth"
    requires forall j :: k < j < |bs| ==> bs[j].variable != "nth"
    ensures Collected(bs).0 == Some(NthFilter(bs[k].operator, BracketValue(bs[k].value)))
    decreases |bs|
  {
    if k < |bs| - 1 {
      var p := bs[..|bs| - 1];
      assert p[k] == bs[k];
      LastNthWins(p, k);
    }
  }

  /** With no nth bracket there is no nth filter. */
  lemma {:induction false} NoNthBracket(bs: seq<Bracket>)
    requires forall j :: 0 <= j < |bs| ==> bs[j].variable != "nth"
    ensures Collected(bs).0.None?
    decreases |bs|
  {
    if bs != [] {
      var p := bs[..|bs| - 1];
      assert forall j :: 0 <= j < |p| ==> p[j] == bs[j];
      NoNthBracket(p);
    }
  }

  // -------------------------------------------------------------------
  // Terms.
  // -------------------------------------------------------------------

  /**
   * A matched term with its braces unwrapped and trimmed: one character is
   * its own value, otherwise the value is the rest after the first
   * character, and the type is the name inverted from the first character.
   */
  function TermOf(d: Delims, raw: string): (t: Term)
    ensures var u := Trim(UnwrapBraces(raw));
      |t.value| == (if |u| <= 1 then |u| else |u| - 1) &&
      (t.kind.Some? ==> u != [] && exists i :: 0 <= i < |d| && d[i] == (t.kind.value, Some(u[0])))
  {
    var u := Trim(UnwrapBraces(raw));
    Term(if |u| <= 1 then u else u[1..], if u == [] then None else Invert(d, u[0]))
  }

  function TermsOf(d: Delims, ms: seq<string>): (ts: seq<Term>)
    ensures |ts| == |ms| && forall k :: 0 <= k < |ms| ==> ts[k] == TermOf(d, ms[k])
  {
    seq(|ms|, (k: int) requires 0 <= k < |ms| => TermOf(d, ms[k]))
  }

  lemma TrimmedAlready(s: string)
    requires s != [] && !IsJsSpace(s[0]) && !IsJsSpace(s[|s| - 1])
    ensures Trim(s) == s
  {
    assert TrimStart(s) == s;
  }

  /** A term with no brace and no surrounding space: the delimiter's name and the rest. */
  lemma PlainTerm(d: Delims, raw: string)
    requires |raw| >= 2 && forall i :: 0 <= i < |raw| ==> raw[i] != '{'
    requires !IsJsSpace(raw[0]) && !IsJsSpace(raw[|raw| - 1])
    ensures TermOf(d, raw) == Term(raw[1..], Invert(d, raw[0]))
  {
    UnwrapWithoutBraces(raw, 0);
    TrimmedAlready(raw);
  }

  /** A one-character term (a wildcard) is its own value. */
  lemma SingleCharTerm(d: Delims, c: char)
    requires c != '{' && !IsJsSpace(c)
    ensures TermOf(d, [c]) == Term([c], Invert(d, c))
  {
    UnwrapWithoutBraces([c], 0);
    TrimmedAlready([c]);
  }

  // -------------------------------------------------------------------
  // A whole token.
  // -------------------------------------------------------------------

  /**
   * One token: trimmed, its brackets collected, and the properties matched in
   * the token with its trailing brackets cut. No term at all is a null
   * match, whose iteration throws.
   */
  function DissectToken(d: Delims, token: string): (r: Result<Segment>)
    ensures r.Ok? ==> |r.value.terms| >= 1
    ensures r.Ok? ==> (r.value.nth, r.value.filters) == Collected(BracketsFrom(Trim(token), 0))
  {
    var t := Trim(token);
    var c := Collected(BracketsFrom(t, 0));
    var ms := MatchProperties(LeadingLetter, Types(d), StripTrailingBrackets(t));
    if ms.None? then Err("TypeError: Cannot read properties of null")
    else Ok(Segment(TermsOf(d, ms.value), c.0, c.1))
  }

  /** The outcome of each token, in order. */
  function TokenResults(d: Delims, tokens: seq<string>): (rs: seq<Result<Segment>>)
    ensures |rs| == |tokens| && forall k :: 0 <= k < |tokens| ==> rs[k] == DissectToken(d, tokens[k])
  {
    seq(|tokens|, (k: int) requires 0 <= k < |tokens| => DissectToken(d, tokens[k]))
  }

  /** Running the outcomes in order: the first error thrown, or every segment. */
  function FirstError(rs: seq<Result<Segment>>): (r: Result<seq<Segment>>)
    ensures r.Ok? ==> |r.value| == |rs|
    decreases |rs|
  {
    if rs == [] then Ok([])
    else
      var prev := FirstError(rs[..|rs| - 1]);
      var last := rs[|rs| - 1];
      if prev.Err? then prev
      else if last.Err? then Err(last.error)
      else Ok(prev.value + [last.value])
  }

  /** Every token in order; the first one that throws ends the dissection. */
  function DissectTokens(d: Delims, tokens: seq<string>): (r: Result<seq<Segment>>)
    ensures r.Ok? ==> |r.value| == |tokens|
  {
    FirstError(TokenResults(d, tokens))
  }

  /** The run succeeds exactly when every outcome does, and then holds their values in order. */
  lemma {:induction false} FirstErrorOk(rs: seq<Result<Segment>>)
    ensures FirstError(rs).Ok? <==> forall k :: 0 <= k < |rs| ==> rs[k].Ok?
    ensures FirstError(rs).Ok? ==> forall k :: 0 <= k < |rs| ==> rs[k] == Ok(FirstError(rs).value[k])
    decreases |rs|
  {
    if rs != [] {
      var p := rs[..|rs| - 1];
      FirstErrorOk(p);
      assert forall k :: 0 <= k < |p| ==> p[k] == rs[k];
    }
  }

  /** The dissection succeeds exactly when every token does, and then holds their segments in order. */
  lemma DissectTokensOk(d: Delims, tokens: seq<string>)
    ensures DissectTokens(d, tokens).Ok? <==> forall k :: 0 <= k < |tokens| ==> DissectToken(d, tokens[k]).Ok?
    ensures DissectTokens(d, tokens).Ok? ==> forall k :: 0 <= k < |tokens| ==> DissectToken(d, tokens[k]) == Ok(DissectTokens(d, tokens).value[k])
  {
    FirstErrorOk(TokenResults(d, tokens));
  }

  /** Running one more outcome: an earlier error stays, else this one's error or its value appended. */
  lemma FirstErrorStep(rs: seq<Result<Segment>>, k: nat)
    requires k < |rs|
    ensures FirstError(rs[..k + 1]) ==
      if FirstError(rs[..k]).Err? then FirstError(rs[..k])
      else if rs[k].Err? then Err(rs[k].error)
      else Ok(FirstError(rs[..k]).value + [rs[k].value])
  {
    assert rs[..k + 1][..k] == rs[..k];
  }

  /** The first error is the one reported: what follows it is never looked at. */
  lemma {:induction false} FirstErrorStays(rs: seq<Result<Segment>>, n: nat)
    requires n <= |rs| && FirstError(rs[..n]).Err?
    ensures FirstError(rs) == FirstError(rs[..n])
    decreases |rs| - n
  {
    if n < |rs| {
      var q := rs[..n + 1];
      assert q[..|q| - 1] == rs[..n];
      FirstErrorStays(rs, n + 1);
    } else {
      assert rs[..n] == rs;
    }
  }

  /** One step of the exec loop: a match at i is seen and the search resumes after it, or the search moves on. */
  lemma BracketsStep(t: string, i: nat, seen: seq<Bracket>)
    requires i < |t| && BracketsFrom(t, 0) == seen + BracketsFrom(t, i)
    ensures MatchBracketAt(t, i).Some? ==>
      BracketsFrom(t, 0) == (seen + [MatchBracketAt(t, i).value]) + BracketsFrom(t, MatchBracketAt(t, i).value.end)
    ensures MatchBracketAt(t, i).None? ==> BracketsFrom(t, 0) == seen + BracketsFrom(t, i + 1)
  {
    var m := MatchBracketAt(t, i);
    if m.Some? {
      assert BracketsFrom(t, i) == [m.value] + BracketsFrom(t, m.value.end);
      assert seen + ([m.value] + BracketsFrom(t, m.value.end)) == (seen + [m.value]) + BracketsFrom(t, m.value.end);
    }
  }

  /** Collecting one more bracket. */
  lemma CollectedSnoc(seen: seq<Bracket>, b: Bracket)
    ensures Collected(seen + [b]) ==
      if b.variable == "nth" then (Some(NthFilter(b.operator, BracketValue(b.value))), Collected(seen).1)
      else (Collected(seen).0, AddFilter(Collected(seen).1, b.variable, FilterOf(b)))
  {
    assert (seen + [b])[..|seen + [b]| - 1] == seen;
  }

  /** The brackets of a trimmed token, collected by the global exec loop. */
  method CollectBrackets(t: string) returns (nth: Option<NthFilter>, filters: Filters)
    ensures (nth, filters) == Collected(BracketsFrom(t, 0))
  {
    nth, filters := None, [];
    ghost var seen: seq<Bracket> := [];
    var i := 0;
    while i < |t|
      invariant 0 <= i <= |t|
      invariant BracketsFrom(t, 0) == seen + BracketsFrom(t, i)
      invariant (nth, filters) == Collected(seen)
      decreases |t| - i
    {
      var m := MatchBracketAt(t, i);
      BracketsStep(t, i, seen);
      if m.Some? {
        var b := m.value;
        if b.variable == "nth" {
          nth := Some(NthFilter(b.operator, BracketValue(b.value)));
        } else {
          filters := AddFilter(filters, b.variable, FilterOf(b));
        }
        CollectedSnoc(seen, b);
        seen := seen + [b];
        i := b.end;
      } else {
        i := i + 1;
      }
    }
    assert seen == BracketsFrom(t, 0);
  }

  /** terms._.each((term, key) => terms[key] = ...): every match rewritten in place. */
  method RewriteTerms(d: Delims, ms: seq<string>) returns (terms: seq<Term>)
    ensures terms == TermsOf(d, ms)
  {
    terms := [];
    var k := 0;
    while k < |ms|
      invariant 0 <= k <= |ms|
      invariant terms == TermsOf(d, ms[..k])
    {
      TermsOfSnoc(d, ms, k);
      terms := terms + [TermOf(d, ms[k])];
      k := k + 1;
    }
    assert ms[..k] == ms;
  }

  lemma TermsOfSnoc(d: Delims, ms: seq<string>, k: nat)
    requires k < |ms|
    ensures TermsOf(d, ms[..k + 1]) == TermsOf(d, ms[..k]) + [TermOf(d, ms[k])]
  {
    assert ms[..k + 1] == ms[..k] + [ms[k]];
  }

  /** One token of the token loop. */
  method DissectTokenLoop(d: Delims, token: string) returns (r: Result<Segment>)
    ensures r == DissectToken(d, token)
  {
    var t := Trim(token);
    var nth, filters := CollectBrackets(t);
    var ms := MatchProperties(LeadingLetter, Types(d), StripTrailingBrackets(t));
    if ms.None? {
      r := Err("TypeError: Cannot read properties of null");
    } else {
      var terms := RewriteTerms(d, ms.value);
      r := Ok(Segment(terms, nth, filters));
    }
  }

  /** tokens._.each: dissect each token and push its segment onto paths. */
  method DissectTokensLoop(d: Delims, tokens: seq<string>) returns (r: Result<seq<Segment>>)
    ensures r == DissectTokens(d, tokens)
  {
    ghost var rs := TokenResults(d, tokens);
    var paths: seq<Segment> := [];
    var k := 0;
    while k < |tokens|
      invariant 0 <= k <= |tokens|
      invariant FirstError(rs[..k]) == Ok(paths)
    {
      var s := DissectTokenLoop(d, tokens[k]);
      FirstErrorStep(rs, k);
      if s.Err? {
        r := Err(s.error);
        FirstErrorStays(rs, k + 1);
        return;
      }
      paths := paths + [s.value];
      k := k + 1;
    }
    assert rs[..k] == rs;
    r := Ok(paths);
  }
}
