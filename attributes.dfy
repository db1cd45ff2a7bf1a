/**
 * The bracket-filter stage of the selector evaluators: filterByAttributes
 * (lib/JSDOMHelpers.js, lib/jsdom.js) and applyFilters
 * (lib/ElementIndexer.js). An element is kept when every filter on every
 * property passes; what "passes" means differs per revision.
 */
module Attributes {
  import opened Values
  import opened Tree
  import opened Nth

  /** One bracket filter: { operator, value }. */
  datatype Filter = Filter(operator: string, value: Value)

  /** A segment's filters, grouped by property name in order of first appearance. */
  type Filters = seq<(string, seq<Filter>)>

  /**
   * The regular-expression engine, which is not part of this model:
   * valid(p) says whether new RegExp(p) succeeds, and matches(p, s) whether
   * the compiled pattern finds a match in s.
   */
  datatype Engine = Engine(valid: string -> bool, matches: (string, string) -> bool)

  /** The source of new RegExp(filter.value): undefined gives the empty pattern. */
  function Pattern(fv: Value): string {
    if fv.Undefined? then "" else ToString(fv)
  }

  // -------------------------------------------------------------------
  // The operator cases shared by all revisions.
  // -------------------------------------------------------------------

  predicate IsComparison(op: string) {
    op == "<" || op == ">" || op == "<=" || op == ">="
  }

  /**
   * The numeric cases: the element fails when the comparison written in the
   * guard holds, so a NaN on either side (None) keeps it.
   */
  predicate ComparisonPasses(op: string, value: Value, fv: Value)
    requires IsComparison(op)
  {
    Compared(op, ParseFloat(value), ParseFloat(fv))
  }

  /** The guards of the numeric cases on the two parsed sides, None for NaN. */
  predicate Compared(op: string, a: Option<int>, b: Option<int>)
    requires IsComparison(op)
  {
    if a.None? || b.None? then true
    else if op == "<" then !(a.value >= b.value)
    else if op == ">" then !(a.value <= b.value)
    else if op == "<=" then !(a.value > b.value)
    else !(a.value < b.value)
  }

  /** ?=: array membership (===), or a truthy property of an object; anything else fails. */
  predicate HasPasses(value: Value, fv: Value) {
    if value.Arr? then HasItem(value.items, fv)
    else if Truthy(value) && IsObject(value) then Truthy(GetProp(value, KeyOf(fv)))
    else false
  }

  /** ?!: array non-membership, or a falsy property of an object; anything else fails. */
  predicate LacksPasses(value: Value, fv: Value) {
    if value.Arr? then !HasItem(value.items, fv)
    else if Truthy(value) && IsObject(value) then !Truthy(GetProp(value, KeyOf(fv)))
    else false
  }

  /** The cases =, !=, the comparisons, ?= and ?!, identical in all revisions. */
  predicate CommonOperatorPasses(op: string, value: Value, fv: Value)
    requires !IsMatchOperator(op)
  {
    if op == "=" then LooseEq(value, fv)
    else if op == "!=" then !LooseEq(value, fv)
    else if IsComparison(op) then ComparisonPasses(op, value, fv)
    else if op == "?=" then HasPasses(value, fv)
    else if op == "?!" then LacksPasses(value, fv)
    else true
  }

  predicate IsMatchOperator(op: string) {
    op == "~" || op == "!~"
  }

  // -------------------------------------------------------------------
  // lib/JSDOMHelpers.js
  // -------------------------------------------------------------------

  /**
   * One operator of lib/JSDOMHelpers.js filterByAttributes: ~ and !~ fail on
   * null and undefined and on a pattern that does not compile, and otherwise
   * test the trimmed string of the value.
   */
  predicate OperatorPasses(op: string, value: Value, fv: Value, re: Engine) {
    if IsMatchOperator(op) then
      var p := Pattern(fv);
      if value.Null? || value.Undefined? || !re.valid(p) then false
      else
        var m := re.matches(p, Trim(ToString(value)));
        if op == "~" then m else !m
    else CommonOperatorPasses(op, value, fv)
  }

  /**
   * One filter on one property of element e: an undefined property that is
   * not a dotted path fails; a dotted property with a defined filter value is
   * read as a path into val().
   */
  predicate Passes(dom: Dom, e: Uid, property: string, f: Filter, re: Engine) {
    e in dom &&
    var dotted := Contains(property, '.');
    var own := Prop(dom, e, property);
    if own.Undefined? && !dotted then false
    else
      var value := if !f.value.Undefined? && dotted then FindChildAtPath(dom[e].value, property) else own;
      OperatorPasses(f.operator, value, f.value, re)
  }

  /** The filter test of lib/JSDOMHelpers.js as a function of an element, a property and a filter. */
  function HelperTest(dom: Dom, re: Engine): (t: (Uid, string, Filter) -> bool)
    ensures forall e, p, f :: t(e, p, f) == Passes(dom, e, p, f, re)
  {
    (e: Uid, p: string, f: Filter) => Passes(dom, e, p, f, re)
  }

  // -------------------------------------------------------------------
  // The filter itself, for any per-filter test.
  // -------------------------------------------------------------------

  /** Every filter on every property passes. */
  predicate PassesAll<T>(e: T, attrs: Filters, test: (T, string, Filter) -> bool) {
    forall i, j :: 0 <= i < |attrs| && 0 <= j < |attrs[i].1| ==> test(e, attrs[i].0, attrs[i].1[j])
  }

  /** The elements that pass every filter, in order. */
  function Kept<T>(elems: seq<T>, attrs: Filters, test: (T, string, Filter) -> bool): (r: seq<T>)
    ensures |r| <= |elems|
    decreases |elems|
  {
    if elems == [] then []
    else
      var last := elems[|elems| - 1];
      Kept(elems[..|elems| - 1], attrs, test) + (if PassesAll(last, attrs, test) then [last] else [])
  }

  /**
   * The loops over one element's properties and filters; they stop at the
   * first failing filter, as proto-lib every stops at a false.
   */
  method CheckElement<T>(e: T, attrs: Filters, test: (T, string, Filter) -> bool) returns (valid: bool)
    ensures valid == PassesAll(e, attrs, test)
  {
    var i := 0;
    while i < |attrs|
      invariant 0 <= i <= |attrs|
      invariant forall a, b :: 0 <= a < i && 0 <= b < |attrs[a].1| ==> test(e, attrs[a].0, attrs[a].1[b])
    {
      var (property, filters) := attrs[i];
      var j := 0;
      while j < |filters|
        invariant 0 <= j <= |filters|
        invariant forall b :: 0 <= b < j ==> test(e, property, filters[b])
      {
        if !test(e, property, filters[j]) {
          return false;
        }
        j := j + 1;
      }
      i := i + 1;
    }
    return true;
  }

  /** filterByAttributes: an empty filter map returns the input; otherwise the loop pushes each passing element. */
  method FilterByAttributes<T>(elems: seq<T>, attrs: Filters, test: (T, string, Filter) -> bool) returns (filtered: seq<T>)
    ensures filtered == Kept(elems, attrs, test)
  {
    if |attrs| < 1 {
      EmptyFiltersKeepAll(elems, attrs, test);
      return elems;
    }
    filtered := [];
    var i := 0;
    while i < |elems|
      invariant 0 <= i <= |elems|
      invariant filtered == Kept(elems[..i], attrs, test)
    {
      var valid := CheckElement(elems[i], attrs, test);
      assert elems[..i + 1][..i] == elems[..i];
      if valid {
        filtered := filtered + [elems[i]];
      }
      i := i + 1;
    }
    assert elems[..i] == elems;
  }

  // -------------------------------------------------------------------
  // What the filter keeps.
  // -------------------------------------------------------------------

  lemma {:induction false} EmptyFiltersKeepAll<T>(elems: seq<T>, attrs: Filters, test: (T, string, Filter) -> bool)
    requires |attrs| == 0
    ensures Kept(elems, attrs, test) == elems
    decreases |elems|
  {
    if elems != [] {
      EmptyFiltersKeepAll(elems[..|elems| - 1], attrs, test);
      assert elems == elems[..|elems| - 1] + [elems[|elems| - 1]];
    }
  }

  /** The kept elements are the input with the failing ones left out, in order. */
  lemma {:induction false} KeptSubseq<T>(elems: seq<T>, attrs: Filters, test: (T, string, Filter) -> bool)
    ensures SubseqOf(Kept(elems, attrs, test), elems)
    decreases |elems|
  {
    if elems == [] {
    } else {
      var init, last := elems[..|elems| - 1], elems[|elems| - 1];
      var prev := Kept(init, attrs, test);
      KeptSubseq(init, attrs, test);
      assert elems == init + [last];
      SubseqAppend(prev, init, last);
      if PassesAll(last, attrs, test) {
        assert Kept(elems, attrs, test) == prev + [last];
      } else {
        assert Kept(elems, attrs, test) == prev;
      }
    }
  }

  /** An element is kept exactly when it is in the input and passes every filter. */
  lemma {:induction false} KeptMembership<T>(elems: seq<T>, attrs: Filters, test: (T, string, Filter) -> bool, x: T)
    ensures x in Kept(elems, attrs, test) <==> x in elems && PassesAll(x, attrs, test)
    decreases |elems|
  {
    if elems != [] {
      var init, last := elems[..|elems| - 1], elems[|elems| - 1];
      KeptMembership(init, attrs, test, x);
      assert elems == init + [last];
    }
  }

  /** Each passing element is kept as often as it is given. */
  lemma {:induction false} KeptCount<T>(elems: seq<T>, attrs: Filters, test: (T, string, Filter) -> bool, x: T)
    ensures multiset(Kept(elems, attrs, test))[x] == if PassesAll(x, attrs, test) then multiset(elems)[x] else 0
    decreases |elems|
  {
    if elems != [] {
      var init, last := elems[..|elems| - 1], elems[|elems| - 1];
      KeptCount(init, attrs, test, x);
      assert elems == init + [last];
    }
  }

  /** lib/JSDOMHelpers.js: a filter on an undefined property that is no dotted path excludes the element. */
  lemma UndefinedPropertyExcludes(dom: Dom, e: Uid, attrs: Filters, re: Engine, i: nat)
    requires e in dom && i < |attrs| && |attrs[i].1| > 0
    requires !Contains(attrs[i].0, '.') && Prop(dom, e, attrs[i].0).Undefined?
    ensures !PassesAll(e, attrs, HelperTest(dom, re))
  {
    assert !HelperTest(dom, re)(e, attrs[i].0, attrs[i].1[0]);
  }

  /** lib/JSDOMHelpers.js: an operator the switch does not name never excludes an element. */
  lemma UnknownOperatorPasses(op: string, value: Value, fv: Value, re: Engine)
    requires op != "=" && op != "!=" && !IsComparison(op) && op != "?=" && op != "?!" && !IsMatchOperator(op)
    ensures OperatorPasses(op, value, fv, re)
  {
  }

  /** = and != are complementary for the same value. */
  lemma EqualityComplementary(value: Value, fv: Value, re: Engine)
    ensures OperatorPasses("=", value, fv, re) == !OperatorPasses("!=", value, fv, re)
  {
  }

  /** ?= and ?! both fail on a value that is neither an array nor a truthy object. */
  lemma ScalarFailsMembership(value: Value, fv: Value, re: Engine)
    requires !value.Arr? && !(Truthy(value) && IsObject(value))
    ensures !OperatorPasses("?=", value, fv, re) && !OperatorPasses("?!", value, fv, re)
  {
  }

  /** ?= and ?! are complementary on an array or a truthy object. */
  lemma MembershipComplementary(value: Value, fv: Value, re: Engine)
    requires value.Arr? || (Truthy(value) && IsObject(value))
    ensures OperatorPasses("?=", value, fv, re) == !OperatorPasses("?!", value, fv, re)
  {
  }

  /** ~ and !~ fail on null and undefined. */
  lemma NullFailsMatch(value: Value, fv: Value, re: Engine)
    requires value.Null? || value.Undefined?
    ensures !OperatorPasses("~", value, fv, re) && !OperatorPasses("!~", value, fv, re)
  {
  }

  /** A comparison with a side that parseFloat makes NaN keeps the element. */
  lemma NaNComparisonPasses(op: string, value: Value, fv: Value, re: Engine)
    requires IsComparison(op) && (ParseFloat(value).None? || ParseFloat(fv).None?)
    ensures OperatorPasses(op, value, fv, re)
  {
  }

  /**
   * The value one filter tests: the element's own property, which must be
   * defined unless the property is a dotted path; for a dotted path with a
   * defined filter value, the path read from val().
   */
  lemma PassesReadsProperty(dom: Dom, e: Uid, property: string, f: Filter, re: Engine)
    requires e in dom
    ensures !Contains(property, '.') ==>
      (Passes(dom, e, property, f, re) <==> !Prop(dom, e, property).Undefined? && OperatorPasses(f.operator, Prop(dom, e, property), f.value, re))
    ensures Contains(property, '.') && !f.value.Undefined? ==>
      (Passes(dom, e, property, f, re) <==> OperatorPasses(f.operator, FindChildAtPath(dom[e].value, property), f.value, re))
    ensures Contains(property, '.') && f.value.Undefined? ==>
      (Passes(dom, e, property, f, re) <==> OperatorPasses(f.operator, Prop(dom, e, property), f.value, re))
  {
  }

  /** When parseFloat reads a number on both sides, each comparison keeps exactly the elements it names. */
  lemma ComparisonMeansOrder(op: string, a: int, b: int)
    requires IsComparison(op)
    ensures Compared(op, Some(a), Some(b)) <==>
      (op == "<" && a < b) || (op == ">" && a > b) || (op == "<=" && a <= b) || (op == ">=" && a >= b)
  {
  }

  /**
   * ~ and !~ on a value that is neither null nor undefined: a pattern that
   * does not compile fails both; otherwise ~ keeps a match of the trimmed
   * string and !~ its absence.
   */
  lemma MatchTestsTrimmedString(value: Value, fv: Value, re: Engine)
    requires !value.Null? && !value.Undefined?
    ensures OperatorPasses("~", value, fv, re) <==> re.valid(Pattern(fv)) && re.matches(Pattern(fv), Trim(ToString(value)))
    ensures OperatorPasses("!~", value, fv, re) <==> re.valid(Pattern(fv)) && !re.matches(Pattern(fv), Trim(ToString(value)))
  {
  }

  // -------------------------------------------------------------------
  // lib/ElementIndexer.js and lib/jsdom.js
  // -------------------------------------------------------------------

  /**
   * The value a filter reads from element object e: e[property], or, when the
   * filter value is a string holding a '.', the path named by that value.
   */
  function LegacyValue(e: Value, property: string, f: Filter): (v: Value)
    ensures f.value.Str? && Contains(f.value.s, '.') ==> v == FindChildAtPath(e, f.value.s)
    ensures !(f.value.Str? && Contains(f.value.s, '.')) ==> v == GetProp(e, property)
  {
    if f.value.Str? && Contains(f.value.s, '.') then FindChildAtPath(e, f.value.s) else GetProp(e, property)
  }

  /**
   * applyFilters of lib/ElementIndexer.js: the pattern is compiled first; ~
   * then fails on a falsy value and !~ passes on one; value.trim() throws on a
   * truthy non-string, which the catch turns into a failure for both.
   */
  predicate IndexerOperatorPasses(op: string, value: Value, fv: Value, re: Engine) {
    if IsMatchOperator(op) then
      var p := Pattern(fv);
      if !re.valid(p) then false
      else if !Truthy(value) then op == "!~"
      else if !value.Str? then false
      else
        var m := re.matches(p, Trim(value.s));
        if op == "~" then m else !m
    else CommonOperatorPasses(op, value, fv)
  }

  /**
   * filterByAttributes of lib/jsdom.js, per operator: ~ requires a string and
   * lets the empty string through without testing it; !~ is as in
   * lib/ElementIndexer.js.
   */
  predicate LegacyOperatorPasses(op: string, value: Value, fv: Value, re: Engine) {
    if op == "~" then
      var p := Pattern(fv);
      if !re.valid(p) || !value.Str? then false
      else if value.s == "" then true
      else re.matches(p, Trim(value.s))
    else IndexerOperatorPasses(op, value, fv, re)
  }

  /** lib/ElementIndexer.js: ~ fails on every falsy value, and !~ passes on it, for a pattern that compiles. */
  lemma IndexerFalsyValues(value: Value, fv: Value, re: Engine)
    requires !Truthy(value) && re.valid(Pattern(fv))
    ensures !IndexerOperatorPasses("~", value, fv, re) && IndexerOperatorPasses("!~", value, fv, re)
  {
  }

  /** lib/ElementIndexer.js and lib/jsdom.js: a truthy value that is no string fails both ~ and !~. */
  lemma LegacyTruthyNonStringFails(value: Value, fv: Value, re: Engine)
    requires Truthy(value) && !value.Str?
    ensures !IndexerOperatorPasses("~", value, fv, re) && !IndexerOperatorPasses("!~", value, fv, re)
    ensures !LegacyOperatorPasses("~", value, fv, re) && !LegacyOperatorPasses("!~", value, fv, re)
  {
  }

  /** lib/jsdom.js: ~ keeps the empty string whatever the pattern, where lib/ElementIndexer.js drops it. */
  lemma LegacyEmptyStringMatches(fv: Value, re: Engine)
    requires re.valid(Pattern(fv))
    ensures LegacyOperatorPasses("~", Str(""), fv, re)
    ensures !IndexerOperatorPasses("~", Str(""), fv, re)
  {
  }

  /** lib/jsdom.js: ~ on null, a number or a boolean fails, even null, where lib/JSDOMHelpers.js would test a number's digits. */
  lemma LegacyMatchNeedsString(value: Value, fv: Value, re: Engine)
    requires !value.Str?
    ensures !LegacyOperatorPasses("~", value, fv, re)
  {
  }

  /** Off ~ and !~, the three revisions decide every operator alike. */
  lemma RevisionsAgreeOffMatch(op: string, value: Value, fv: Value, re: Engine)
    requires !IsMatchOperator(op)
    ensures LegacyOperatorPasses(op, value, fv, re) == OperatorPasses(op, value, fv, re)
    ensures IndexerOperatorPasses(op, value, fv, re) == OperatorPasses(op, value, fv, re)
  {
  }

  /**
   * lib/jsdom.js on a non-empty string: a pattern that does not compile
   * fails both ~ and !~; otherwise ~ keeps a match of the trimmed string and
   * !~ its absence.
   */
  lemma LegacyMatchTestsString(v: string, fv: Value, re: Engine)
    requires v != ""
    ensures LegacyOperatorPasses("~", Str(v), fv, re) <==> re.valid(Pattern(fv)) && re.matches(Pattern(fv), Trim(v))
    ensures LegacyOperatorPasses("!~", Str(v), fv, re) <==> re.valid(Pattern(fv)) && !re.matches(Pattern(fv), Trim(v))
  {
  }

  // -------------------------------------------------------------------
  // The element-level filter of lib/jsdom.js as written.
  // -------------------------------------------------------------------

  /**
   * lib/jsdom.js assigns valid only from the outer every's result, so inside
   * the callbacks valid is still undefined and "if (!valid) return false"
   * stops the inner every at its very first filter: a property passes only
   * when it has no filters at all.
   */
  predicate LegacyValidAsWritten(attrs: Filters) {
    forall i :: 0 <= i < |attrs| ==> |attrs[i].1| == 0
  }

  /** lib/jsdom.js filterByAttributes as written. */
  function LegacyFilterAsWritten<T>(elems: seq<T>, attrs: Filters): (r: seq<T>)
    ensures LegacyValidAsWritten(attrs) ==> r == elems
    ensures !LegacyValidAsWritten(attrs) ==> r == []
  {
    if |attrs| < 1 then elems
    else if LegacyValidAsWritten(attrs) then elems
    else []
  }

  /**
   * As written, one filter anywhere empties the result, even when every
   * element passes it: [x=1] on an element whose x is 1 keeps nothing.
   */
  lemma LegacyFilterDropsMatches(e: Value)
    requires GetProp(e, "x") == Num(1)
    ensures var attrs := [("x", [Filter("=", Num(1))])];
      IndexerOperatorPasses("=", LegacyValue(e, "x", Filter("=", Num(1))), Num(1), Engine(p => true, (p, s) => true)) &&
      LegacyFilterAsWritten([e], attrs) == []
  {
    var attrs := [("x", [Filter("=", Num(1))])];
    assert |attrs[0].1| == 1;
    assert !Contains("1", '.');
  }

  /** The evidently intended lib/jsdom.js filter: keep the elements that pass every filter. */
  function LegacyTest(re: Engine): (t: (Value, string, Filter) -> bool)
    ensures forall e, p, f :: t(e, p, f) == LegacyOperatorPasses(f.operator, LegacyValue(e, p, f), f.value, re)
  {
    (e: Value, p: string, f: Filter) => LegacyOperatorPasses(f.operator, LegacyValue(e, p, f), f.value, re)
  }

  /** The corrected filter keeps an element exactly when it passes every filter, in the input's order. */
  lemma LegacyFilterCorrected(elems: seq<Value>, attrs: Filters, re: Engine, x: Value)
    ensures x in Kept(elems, attrs, LegacyTest(re)) <==>
      x in elems && forall i, j :: 0 <= i < |attrs| && 0 <= j < |attrs[i].1| ==>
        LegacyOperatorPasses(attrs[i].1[j].operator, LegacyValue(x, attrs[i].0, attrs[i].1[j]), attrs[i].1[j].value, re)
    ensures SubseqOf(Kept(elems, attrs, LegacyTest(re)), elems)
  {
    KeptMembership(elems, attrs, LegacyTest(re), x);
    KeptSubseq(elems, attrs, LegacyTest(re));
  }
}
