/**
 * filterByParsedSelector and findElementsWithSelector of lib/JSDOMHelpers.js:
 * the walk over the dissected segments of a selector. Each segment selects
 * its first set of elements (the delta bucket of the current level for *,
 * the children or the context for > and <, a by bucket for a typed term),
 * narrows it by the attribute, descendant and nth filters, and hands each
 * survivor to the rest of the walk as its context.
 */
module Select {
  import opened Values
  import opened Buckets
  import opened Tree
  import opened Nth
  import opened Descendants
  import opened Attributes
  import opened Dissect

  /** What the evaluator reads of a JSDOMIndex: the by tables, the with entries and the delimiter map. */
  datatype IndexView = IndexView(tbl: Tables, lookups: map<string, Lookup>, delims: Delims)

  /** Every element in a bucket is an element of the arena. */
  predicate BucketsIn(dom: Dom, tbl: Tables) {
    forall name, key, u :: name in tbl && key in tbl[name] && u in tbl[name][key] ==> u in dom
  }

  ghost predicate Ready(v: IndexView, dom: Dom, ctx: Option<Uid>) {
    WellFormed(dom) && BucketsIn(dom, v.tbl) && (ctx.Some? ==> ctx.value in dom)
  }

  /** Every segment has a first term, as dissection makes sure. */
  predicate Dissected(segs: seq<Segment>) {
    forall k :: 0 <= k < |segs| ==> |segs[k].terms| >= 1
  }

  lemma BucketWithin(dom: Dom, tbl: Tables, name: string, key: string)
    requires BucketsIn(dom, tbl)
    ensures AllIn(dom, BucketAt(tbl, name, key))
  {
  }

  /** parent.lvl() + 1 for an object context, 0 otherwise. */
  function Level(dom: Dom, ctx: Option<Uid>): int
    requires ctx.Some? ==> ctx.value in dom
  {
    if ctx.Some? then dom[ctx.value].level + 1 else 0
  }

  /** The property name index.with is looked up by: an undefined type reads with["undefined"]. */
  function KindName(k: Option<string>): string {
    if k.Some? then k.value else "undefined"
  }

  predicate IsPathKind(k: Option<string>) {
    k == Some("wildcard") || k == Some("descendant") || k == Some("ascendant")
  }

  /** level === 0 ? index.with.level(0) : getChildrenOf(parent) */
  function ChildrenOrRoots(v: IndexView, dom: Dom, ctx: Option<Uid>): seq<Uid>
    requires ctx.Some? ==> ctx.value in dom
  {
    if Level(dom, ctx) == 0 then BucketAt(v.tbl, "level", "0") else dom[ctx.value].children
  }

  lemma ChildrenOrRootsWithin(v: IndexView, dom: Dom, ctx: Option<Uid>)
    requires Ready(v, dom, ctx)
    ensures AllIn(dom, ChildrenOrRoots(v, dom, ctx))
  {
    BucketWithin(dom, v.tbl, "level", "0");
  }

  lemma KeptWithin<T>(elems: seq<T>, attrs: Filters, test: (T, string, Filter) -> bool)
    ensures forall x :: x in Kept(elems, attrs, test) ==> x in elems
  {
    forall x | x in Kept(elems, attrs, test) ensures x in elems {
      KeptMembership(elems, attrs, test, x);
    }
  }

  lemma DescendantsWithin(dom: Dom, cands: seq<Uid>, ctx: Option<Uid>)
    requires WellFormed(dom) && AllIn(dom, cands) && (ctx.Some? ==> ctx.value in dom)
    ensures Descendants.Descendants(dom, cands, ctx).Ok? ==> forall x :: x in Descendants.Descendants(dom, cands, ctx).value ==> x in cands
  {
    if ctx.Some? {
      GatherWithin(dom, cands, Preorder(dom, ctx.value));
    }
  }

  // -------------------------------------------------------------------
  // The filters of one segment.
  // -------------------------------------------------------------------

  /** filterByNth(filterByDescendants(filterByAttributes(elems, filters), ctx), nth) */
  function Narrow(dom: Dom, re: Engine, elems: seq<Uid>, seg: Segment, ctx: Option<Uid>): (r: Result<seq<Uid>>)
    requires WellFormed(dom) && AllIn(dom, elems) && (ctx.Some? ==> ctx.value in dom)
    ensures r.Ok? ==> forall x :: x in r.value ==> x in elems
  {
    var kept := Kept(elems, seg.filters, HelperTest(dom, re));
    KeptWithin(elems, seg.filters, HelperTest(dom, re));
    var d := Descendants.Descendants(dom, kept, ctx);
    if d.Err? then Err(d.error)
    else
      DescendantsWithin(dom, kept, ctx);
      SubseqMembers(FilterByNth(d.value, seg.nth), d.value);
      Ok(FilterByNth(d.value, seg.nth))
  }

  /** filterByNth(filterByAttributes(elems, filters), nth): the > and < segments skip the descendant filter. */
  function NarrowPath(dom: Dom, re: Engine, elems: seq<Uid>, seg: Segment): (r: seq<Uid>)
    ensures forall x: Uid :: x in r ==> x in elems && PassesAll(x, seg.filters, HelperTest(dom, re))
  {
    var kept := Kept(elems, seg.filters, HelperTest(dom, re));
    var r := FilterByNth(kept, seg.nth);
    SubseqMembers(r, kept);
    forall x: Uid | x in r ensures x in elems && PassesAll(x, seg.filters, HelperTest(dom, re)) {
      KeptMembership(elems, seg.filters, HelperTest(dom, re), x);
    }
    r
  }

  method NarrowLoop(dom: Dom, re: Engine, elems: seq<Uid>, seg: Segment, ctx: Option<Uid>) returns (r: Result<seq<Uid>>)
    requires WellFormed(dom) && AllIn(dom, elems) && (ctx.Some? ==> ctx.value in dom)
    ensures r == Narrow(dom, re, elems, seg, ctx)
  {
    var kept := FilterByAttributes(elems, seg.filters, HelperTest(dom, re));
    KeptWithin(elems, seg.filters, HelperTest(dom, re));
    var d := FilterByDescendants(dom, kept, ctx);
    if d.Err? {
      r := Err(d.error);
    } else {
      r := Ok(FilterByNth(d.value, seg.nth));
    }
  }

  // -------------------------------------------------------------------
  // The first set of elements of a segment.
  // -------------------------------------------------------------------

  /** The elements of elems that are also in next, in the order of elems. */
  function Among(elems: seq<Uid>, next: seq<Uid>): (r: seq<Uid>)
    ensures forall x :: x in r <==> x in elems && x in next
    decreases |elems|
  {
    if elems == [] then []
    else
      var last := elems[|elems| - 1];
      assert elems == elems[..|elems| - 1] + [last];
      Among(elems[..|elems| - 1], next) + (if last in next then [last] else [])
  }

  /**
   * The later terms: for each one in turn, the elements of elems that its
   * with lookup holds are pushed again, so the result joins the per-term
   * matches instead of intersecting them.
   */
  function ExtraMatches(v: IndexView, later: seq<Term>, elems: seq<Uid>): (r: Result<seq<Uid>>)
    ensures r.Ok? ==> forall x :: x in r.value ==> x in elems
    decreases |later|
  {
    if later == [] then Ok([])
    else
      var prev := ExtraMatches(v, later[..|later| - 1], elems);
      var t := later[|later| - 1];
      var next := WithCall(v.tbl, v.lookups, KindName(t.kind), t.value);
      if prev.Err? then prev
      else if next.Err? then Err(next.error)
      else Ok(prev.value + Among(elems, next.value))
  }

  /** Some later term's bucket holds x. */
  ghost predicate InLaterBucket(v: IndexView, later: seq<Term>, x: Uid) {
    exists k :: 0 <= k < |later| && x in BucketAt(v.tbl, KindName(later[k].kind), later[k].value)
  }

  lemma InLaterBucketSnoc(v: IndexView, later: seq<Term>, x: Uid)
    requires later != []
    ensures InLaterBucket(v, later, x) <==>
      InLaterBucket(v, later[..|later| - 1], x) || x in BucketAt(v.tbl, KindName(later[|later| - 1].kind), later[|later| - 1].value)
  {
    var init := later[..|later| - 1];
    assert forall k :: 0 <= k < |init| ==> init[k] == later[k];
    if InLaterBucket(v, later, x) {
      var k :| 0 <= k < |later| && x in BucketAt(v.tbl, KindName(later[k].kind), later[k].value);
      if k < |init| {
        assert x in BucketAt(v.tbl, KindName(init[k].kind), init[k].value);
      }
    }
  }

  /** An element survives the later terms exactly when one of their buckets holds it. */
  lemma {:induction false} ExtraMatchesMembers(v: IndexView, later: seq<Term>, elems: seq<Uid>, x: Uid)
    requires ExtraMatches(v, later, elems).Ok?
    ensures x in ExtraMatches(v, later, elems).value <==> x in elems && InLaterBucket(v, later, x)
    decreases |later|
  {
    if later != [] {
      var init, t := later[..|later| - 1], later[|later| - 1];
      ExtraMatchesMembers(v, init, elems, x);
      InLaterBucketSnoc(v, later, x);
      var prev := ExtraMatches(v, init, elems);
      var next := WithCall(v.tbl, v.lookups, KindName(t.kind), t.value);
      assert ExtraMatches(v, later, elems) == Ok(prev.value + Among(elems, next.value));
    }
  }

  /** The nested each / every loops over the later terms and the elements. */
  method ExtraMatchesLoop(v: IndexView, later: seq<Term>, elems: seq<Uid>) returns (r: Result<seq<Uid>>)
    ensures r == ExtraMatches(v, later, elems)
  {
    var newSet: seq<Uid> := [];
    var k := 0;
    while k < |later|
      invariant 0 <= k <= |later|
      invariant ExtraMatches(v, later[..k], elems) == Ok(newSet)
    {
      var t := later[k];
      var nextSet := WithCall(v.tbl, v.lookups, KindName(t.kind), t.value);
      ExtraMatchesSnoc(v, later, elems, k);
      if nextSet.Err? {
        r := Err(nextSet.error);
        ExtraMatchesStays(v, later, elems, k + 1);
        return;
      }
      var pushed := AmongLoop(elems, nextSet.value);
      newSet := newSet + pushed;
      k := k + 1;
    }
    assert later[..k] == later;
    r := Ok(newSet);
  }

  /** The inner every loop: the elements that the later term's bucket holds, in order. */
  method AmongLoop(elems: seq<Uid>, next: seq<Uid>) returns (pushed: seq<Uid>)
    ensures pushed == Among(elems, next)
  {
    var i := 0;
    pushed := [];
    while i < |elems|
      invariant 0 <= i <= |elems|
      invariant pushed == Among(elems[..i], next)
    {
      assert elems[..i + 1][..i] == elems[..i];
      if elems[i] in next {
        pushed := pushed + [elems[i]];
      }
      i := i + 1;
    }
    assert elems[..i] == elems;
  }

  /** One more later term: its matches are appended, or its error ends the loop. */
  lemma ExtraMatchesSnoc(v: IndexView, later: seq<Term>, elems: seq<Uid>, k: nat)
    requires k < |later| && ExtraMatches(v, later[..k], elems).Ok?
    ensures var next := WithCall(v.tbl, v.lookups, KindName(later[k].kind), later[k].value);
      ExtraMatches(v, later[..k + 1], elems) ==
        if next.Err? then Err(next.error) else Ok(ExtraMatches(v, later[..k], elems).value + Among(elems, next.value))
  {
    assert later[..k + 1][..k] == later[..k];
  }

  lemma {:induction false} ExtraMatchesStays(v: IndexView, later: seq<Term>, elems: seq<Uid>, n: nat)
    requires n <= |later| && ExtraMatches(v, later[..n], elems).Err?
    ensures ExtraMatches(v, later, elems) == ExtraMatches(v, later[..n], elems)
    decreases |later| - n
  {
    if n < |later| {
      var q := later[..n + 1];
      assert q[..|q| - 1] == later[..n];
      ExtraMatchesStays(v, later, elems, n + 1);
    } else {
      assert later[..n] == later;
    }
  }

  /**
   * The elements the general path starts from: delta(level) for *, nothing
   * for > and < (their own selection at lines 221-227 is overwritten at
   * line 244), with[type](value) narrowed by the later terms otherwise.
   * None is the early return of an empty delta or first bucket.
   */
  function GeneralElems(v: IndexView, dom: Dom, seg: Segment, ctx: Option<Uid>): (r: Result<Option<seq<Uid>>>)
    requires Ready(v, dom, ctx) && |seg.terms| >= 1
    ensures r.Ok? && r.value.Some? ==> AllIn(dom, r.value.value)
  {
    var kind := seg.terms[0].kind;
    if kind == Some("wildcard") then
      var elems := BucketAt(v.tbl, "delta", IntToString(Level(dom, ctx)));
      BucketWithin(dom, v.tbl, "delta", IntToString(Level(dom, ctx)));
      if elems == [] then Ok(None) else Ok(Some(elems))
    else if kind == Some("descendant") || kind == Some("ascendant") then Ok(Some([]))
    else
      var first := WithCall(v.tbl, v.lookups, KindName(kind), seg.terms[0].value);
      if first.Err? then Err(first.error)
      else
        BucketWithin(dom, v.tbl, KindName(kind), seg.terms[0].value);
        if first.value == [] then Ok(None)
        else if |seg.terms| == 1 then Ok(Some(first.value))
        else
          var more := ExtraMatches(v, seg.terms[1..], first.value);
          if more.Err? then Err(more.error) else Ok(Some(more.value))
  }

  method GeneralElemsLoop(v: IndexView, dom: Dom, seg: Segment, ctx: Option<Uid>) returns (r: Result<Option<seq<Uid>>>)
    requires Ready(v, dom, ctx) && |seg.terms| >= 1
    ensures r == GeneralElems(v, dom, seg, ctx)
  {
    var term := seg.terms[0];
    if term.kind == Some("wildcard") {
      var elems := BucketAt(v.tbl, "delta", IntToString(Level(dom, ctx)));
      if |elems| == 0 {
        return Ok(None);
      }
      return Ok(Some(elems));
    } else if term.kind == Some("descendant") || term.kind == Some("ascendant") {
      return Ok(Some([]));
    }
    var first := WithCall(v.tbl, v.lookups, KindName(term.kind), term.value);
    if first.Err? {
      return Err(first.error);
    }
    if |first.value| == 0 {
      return Ok(None);
    }
    if |seg.terms| > 1 {
      var more := ExtraMatchesLoop(v, seg.terms[1..], first.value);
      if more.Err? {
        return Err(more.error);
      }
      return Ok(Some(more.value));
    }
    return Ok(Some(first.value));
  }

  // -------------------------------------------------------------------
  // The walk.
  // -------------------------------------------------------------------

  /** The last segment is a lone *, > or <: the fast paths at lines 261-271, with no deduplication. */
  function FinalPath(v: IndexView, dom: Dom, re: Engine, seg: Segment, ctx: Option<Uid>): (r: Result<seq<Uid>>)
    requires Ready(v, dom, ctx) && |seg.terms| >= 1
    ensures r.Ok? ==> AllIn(dom, r.value)
  {
    var kind := seg.terms[0].kind;
    if kind == Some("wildcard") then
      var delta := BucketAt(v.tbl, "delta", IntToString(Level(dom, ctx)));
      BucketWithin(dom, v.tbl, "delta", IntToString(Level(dom, ctx)));
      Narrow(dom, re, delta, seg, ctx)
    else if kind == Some("descendant") then
      ChildrenOrRootsWithin(v, dom, ctx);
      Ok(NarrowPath(dom, re, ChildrenOrRoots(v, dom, ctx), seg))
    else
      Ok(NarrowPath(dom, re, if ctx.Some? then [ctx.value] else [], seg))
  }

  /** index.with.uid(e.parent() ? e.parent().uid : null)[0]: undefined when that bucket is empty. */
  function ParentContext(v: IndexView, dom: Dom, e: Uid): (c: Option<Uid>)
    requires e in dom && BucketsIn(dom, v.tbl)
    ensures c.Some? ==> c.value in dom
  {
    var key := if dom[e].parent.Some? then NatToString(dom[e].parent.value) else "null";
    var b := BucketAt(v.tbl, "uid", key);
    if b == [] then None else Some(b[0])
  }

  /** The context the rest of the walk gets from element e: its parent when the next segment is <. */
  function NextContext(v: IndexView, dom: Dom, rest: seq<Segment>, e: Uid): (c: Option<Uid>)
    requires e in dom && BucketsIn(dom, v.tbl) && |rest| >= 1 && |rest[0].terms| >= 1
    ensures c.Some? ==> c.value in dom
  {
    if rest[0].terms[0].kind == Some("ascendant") then ParentContext(v, dom, e) else Some(e)
  }

  /** filterByParsedSelector(index, segs, ctx) */
  function Walk(v: IndexView, dom: Dom, re: Engine, segs: seq<Segment>, ctx: Option<Uid>): (r: Result<seq<Uid>>)
    requires Ready(v, dom, ctx) && Dissected(segs)
    ensures r.Ok? ==> AllIn(dom, r.value)
    decreases |segs|, 0
  {
    if segs == [] then Err("TypeError: Cannot read properties of undefined (reading 'nth')")
    else
      var cur, rest := segs[0], segs[1..];
      assert Dissected(rest) by { assert forall k :: 0 <= k < |rest| ==> rest[k] == segs[k + 1]; }
      if IsPathKind(cur.terms[0].kind) && rest == [] then FinalPath(v, dom, re, cur, ctx)
      else
        var elems := GeneralElems(v, dom, cur, ctx);
        if elems.Err? then Err(elems.error)
        else if elems.value.None? then Ok([])
        else
          var filtered := Narrow(dom, re, elems.value.value, cur, ctx);
          if filtered.Err? then filtered
          else if rest == [] then Ok(Unique(filtered.value))
          else
            var all := WalkEach(v, dom, re, rest, filtered.value);
            if all.Err? then all else Ok(Unique(all.value))
  }

  /** filtered._.every(e => result = result.concat(filterByParsedSelector(index, rest, context of e))) */
  function WalkEach(v: IndexView, dom: Dom, re: Engine, rest: seq<Segment>, fs: seq<Uid>): (r: Result<seq<Uid>>)
    requires WellFormed(dom) && BucketsIn(dom, v.tbl) && Dissected(rest) && |rest| >= 1 && AllIn(dom, fs)
    ensures r.Ok? ==> AllIn(dom, r.value)
    decreases |rest|, |fs|
  {
    if fs == [] then Ok([])
    else
      var prev := WalkEach(v, dom, re, rest, fs[..|fs| - 1]);
      if prev.Err? then prev
      else
        var sub := Walk(v, dom, re, rest, NextContext(v, dom, rest, fs[|fs| - 1]));
        if sub.Err? then sub else Ok(prev.value + sub.value)
  }

  /** One more survivor: its walk is appended, or its error ends the loop. */
  lemma WalkEachSnoc(v: IndexView, dom: Dom, re: Engine, rest: seq<Segment>, fs: seq<Uid>, i: nat)
    requires WellFormed(dom) && BucketsIn(dom, v.tbl) && Dissected(rest) && |rest| >= 1 && AllIn(dom, fs)
    requires i < |fs| && WalkEach(v, dom, re, rest, fs[..i]).Ok?
    ensures var sub := Walk(v, dom, re, rest, NextContext(v, dom, rest, fs[i]));
      WalkEach(v, dom, re, rest, fs[..i + 1]) == if sub.Err? then sub else Ok(WalkEach(v, dom, re, rest, fs[..i]).value + sub.value)
  {
    var q := fs[..i + 1];
    assert q[..|q| - 1] == fs[..i] && q[|q| - 1] == fs[i];
  }

  lemma {:induction false} WalkEachStays(v: IndexView, dom: Dom, re: Engine, rest: seq<Segment>, fs: seq<Uid>, n: nat)
    requires WellFormed(dom) && BucketsIn(dom, v.tbl) && Dissected(rest) && |rest| >= 1 && AllIn(dom, fs)
    requires n <= |fs| && WalkEach(v, dom, re, rest, fs[..n]).Err?
    ensures WalkEach(v, dom, re, rest, fs) == WalkEach(v, dom, re, rest, fs[..n])
    decreases |fs| - n
  {
    if n < |fs| {
      var q := fs[..n + 1];
      assert q[..|q| - 1] == fs[..n];
      WalkEachStays(v, dom, re, rest, fs, n + 1);
    } else {
      assert fs[..n] == fs;
    }
  }

  /** filterByParsedSelector: shift the current segment, select, filter, and recurse per survivor. */
  method FilterByParsedSelector(v: IndexView, dom: Dom, re: Engine, segs: seq<Segment>, ctx: Option<Uid>) returns (r: Result<seq<Uid>>)
    requires Ready(v, dom, ctx) && Dissected(segs)
    ensures r == Walk(v, dom, re, segs, ctx)
    decreases |segs|, 1
  {
    if |segs| == 0 {
      return Err("TypeError: Cannot read properties of undefined (reading 'nth')");
    }
    var current := segs[0];
    var parsed := segs[1..];
    assert Dissected(parsed) by { assert forall k :: 0 <= k < |parsed| ==> parsed[k] == segs[k + 1]; }
    var term := current.terms[0];
    if !IsPathKind(term.kind) || |parsed| != 0 {
      var elems := GeneralElemsLoop(v, dom, current, ctx);
      if elems.Err? {
        return Err(elems.error);
      }
      if elems.value.None? {
        return Ok([]);
      }
      var filtered := NarrowLoop(dom, re, elems.value.value, current, ctx);
      if filtered.Err? {
        return filtered;
      }
      if |parsed| == 0 {
        return Ok(Unique(filtered.value));
      }
      var result := ConcatWalks(v, dom, re, parsed, filtered.value);
      if result.Err? {
        return result;
      }
      return Ok(Unique(result.value));
    }
    if term.kind == Some("wildcard") {
      var delta := BucketAt(v.tbl, "delta", IntToString(Level(dom, ctx)));
      BucketWithin(dom, v.tbl, "delta", IntToString(Level(dom, ctx)));
      r := NarrowLoop(dom, re, delta, current, ctx);
    } else if term.kind == Some("descendant") {
      ChildrenOrRootsWithin(v, dom, ctx);
      var kept := FilterByAttributes(ChildrenOrRoots(v, dom, ctx), current.filters, HelperTest(dom, re));
      r := Ok(FilterByNth(kept, current.nth));
    } else {
      var kept := FilterByAttributes(if ctx.Some? then [ctx.value] else [], current.filters, HelperTest(dom, re));
      r := Ok(FilterByNth(kept, current.nth));
    }
  }

  /** The loop over the survivors, concatenating the walks of the rest. */
  method ConcatWalks(v: IndexView, dom: Dom, re: Engine, parsed: seq<Segment>, filtered: seq<Uid>) returns (r: Result<seq<Uid>>)
    requires WellFormed(dom) && BucketsIn(dom, v.tbl) && Dissected(parsed) && |parsed| >= 1 && AllIn(dom, filtered)
    ensures r == WalkEach(v, dom, re, parsed, filtered)
    decreases |parsed| + 1, 0
  {
    var result: seq<Uid> := [];
    var i := 0;
    while i < |filtered|
      invariant 0 <= i <= |filtered|
      invariant WalkEach(v, dom, re, parsed, filtered[..i]) == Ok(result)
    {
      var e := filtered[i];
      var next := if parsed[0].terms[0].kind == Some("ascendant") then ParentContext(v, dom, e) else Some(e);
      var sub := FilterByParsedSelector(v, dom, re, parsed, next);
      WalkEachSnoc(v, dom, re, parsed, filtered, i);
      if sub.Err? {
        WalkEachStays(v, dom, re, parsed, filtered, i + 1);
        return sub;
      }
      result := result + sub.value;
      i := i + 1;
    }
    assert filtered[..i] == filtered;
    r := Ok(result);
  }

  // -------------------------------------------------------------------
  // What the walk returns.
  // -------------------------------------------------------------------

  lemma {:induction false} GatherOfNone(dom: Dom, visit: seq<Uid>)
    ensures Gather(dom, [], visit) == []
    decreases |visit|
  {
    if visit != [] {
      assert ChildrenAmong(dom, [], visit[0]) == [];
      GatherOfNone(dom, visit[1..]);
    }
  }

  lemma NthOfNone(none: seq<Uid>, nth: Option<NthFilter>)
    requires none == []
    ensures FilterByNth(none, nth) == []
  {
    var r := FilterByNth(none, nth);
    assert SubseqOf(r, none);
  }

  /** The filters of a segment keep nothing from nothing. */
  lemma NarrowOfNone(dom: Dom, re: Engine, seg: Segment, ctx: Option<Uid>)
    requires WellFormed(dom) && (ctx.Some? ==> ctx.value in dom)
    ensures Narrow(dom, re, [], seg, ctx) == Ok([])
  {
    var none: seq<Uid> := [];
    assert Kept(none, seg.filters, HelperTest(dom, re)) == [];
    if ctx.Some? {
      GatherOfNone(dom, Preorder(dom, ctx.value));
    }
    NthOfNone([], seg.nth);
  }

  /**
   * What survives a segment's filters: an element of the candidates that
   * passes every attribute filter and, under a context, whose parent lies in
   * the context's subtree.
   */
  lemma NarrowMembers(dom: Dom, re: Engine, elems: seq<Uid>, seg: Segment, ctx: Option<Uid>, x: Uid)
    requires WellFormed(dom) && AllIn(dom, elems) && (ctx.Some? ==> ctx.value in dom)
    requires Narrow(dom, re, elems, seg, ctx).Ok? && x in Narrow(dom, re, elems, seg, ctx).value
    ensures x in elems && PassesAll(x, seg.filters, HelperTest(dom, re))
    ensures ctx.Some? ==> dom[x].parent.Some? && dom[x].parent.value in Preorder(dom, ctx.value)
  {
    var kept := Kept(elems, seg.filters, HelperTest(dom, re));
    KeptWithin(elems, seg.filters, HelperTest(dom, re));
    var d := Descendants.Descendants(dom, kept, ctx);
    SubseqMembers(FilterByNth(d.value, seg.nth), d.value);
    assert x in d.value;
    DescendantsWithin(dom, kept, ctx);
    KeptMembership(elems, seg.filters, HelperTest(dom, re), x);
    if ctx.Some? {
      DescendantsKeep(dom, kept, ctx.value, x);
      assert multiset(d.value)[x] > 0;
    }
  }

  /** A > or < segment that is not the last one contributes nothing (line 244 starts again from the empty elems). */
  lemma NonFinalPathSegmentEmpty(v: IndexView, dom: Dom, re: Engine, segs: seq<Segment>, ctx: Option<Uid>)
    requires Ready(v, dom, ctx) && Dissected(segs) && |segs| >= 2
    requires segs[0].terms[0].kind == Some("descendant") || segs[0].terms[0].kind == Some("ascendant")
    ensures Walk(v, dom, re, segs, ctx) == Ok([])
  {
    NarrowOfNone(dom, re, segs[0], ctx);
    var rest := segs[1..];
    assert Dissected(rest) by { assert forall k :: 0 <= k < |rest| ==> rest[k] == segs[k + 1]; }
    assert WalkEach(v, dom, re, rest, []) == Ok([]);
  }

  /** A typed first term whose bucket is empty ends the walk with no match. */
  lemma EmptyFirstBucket(v: IndexView, dom: Dom, re: Engine, segs: seq<Segment>, ctx: Option<Uid>)
    requires Ready(v, dom, ctx) && Dissected(segs) && |segs| >= 1 && !IsPathKind(segs[0].terms[0].kind)
    requires WithCall(v.tbl, v.lookups, KindName(segs[0].terms[0].kind), segs[0].terms[0].value) == Ok([])
    ensures Walk(v, dom, re, segs, ctx) == Ok([])
  {
  }

  /** A typed first term without a with entry throws. */
  lemma UnknownTypeThrows(v: IndexView, dom: Dom, re: Engine, segs: seq<Segment>, ctx: Option<Uid>)
    requires Ready(v, dom, ctx) && Dissected(segs) && |segs| >= 1 && !IsPathKind(segs[0].terms[0].kind)
    requires KindName(segs[0].terms[0].kind) !in v.lookups
    ensures Walk(v, dom, re, segs, ctx).Err?
  {
  }

  /** Outside the fast paths the result is deduplicated. */
  lemma GeneralPathNoDup(v: IndexView, dom: Dom, re: Engine, segs: seq<Segment>, ctx: Option<Uid>)
    requires Ready(v, dom, ctx) && Dissected(segs) && |segs| >= 1
    requires !IsPathKind(segs[0].terms[0].kind) || |segs| >= 2
    requires Walk(v, dom, re, segs, ctx).Ok?
    ensures NoDup(Walk(v, dom, re, segs, ctx).value)
  {
  }

  /**
   * A last segment with one typed term: every match is in that term's
   * bucket, passes the segment's filters and, under a context, hangs below it.
   */
  lemma FinalTypedSegment(v: IndexView, dom: Dom, re: Engine, seg: Segment, ctx: Option<Uid>, x: Uid)
    requires Ready(v, dom, ctx) && |seg.terms| == 1 && !IsPathKind(seg.terms[0].kind)
    requires Walk(v, dom, re, [seg], ctx).Ok? && x in Walk(v, dom, re, [seg], ctx).value
    ensures x in BucketAt(v.tbl, KindName(seg.terms[0].kind), seg.terms[0].value)
    ensures PassesAll(x, seg.filters, HelperTest(dom, re))
    ensures ctx.Some? ==> dom[x].parent.Some? && dom[x].parent.value in Preorder(dom, ctx.value)
  {
    var elems := GeneralElems(v, dom, seg, ctx);
    assert [seg][1..] == [];
    var b := BucketAt(v.tbl, KindName(seg.terms[0].kind), seg.terms[0].value);
    BucketWithin(dom, v.tbl, KindName(seg.terms[0].kind), seg.terms[0].value);
    assert elems == Ok(Some(b));
    NarrowMembers(dom, re, b, seg, ctx, x);
  }

  /** The * fast path: the delta bucket of the level, filtered, below the context. */
  lemma FinalWildcard(v: IndexView, dom: Dom, re: Engine, seg: Segment, ctx: Option<Uid>, x: Uid)
    requires Ready(v, dom, ctx) && |seg.terms| >= 1 && seg.terms[0].kind == Some("wildcard")
    requires Walk(v, dom, re, [seg], ctx).Ok? && x in Walk(v, dom, re, [seg], ctx).value
    ensures x in BucketAt(v.tbl, "delta", IntToString(Level(dom, ctx)))
    ensures PassesAll(x, seg.filters, HelperTest(dom, re))
    ensures ctx.Some? ==> dom[x].parent.Some? && dom[x].parent.value in Preorder(dom, ctx.value)
  {
    assert [seg][1..] == [];
    BucketWithin(dom, v.tbl, "delta", IntToString(Level(dom, ctx)));
    NarrowMembers(dom, re, BucketAt(v.tbl, "delta", IntToString(Level(dom, ctx))), seg, ctx, x);
  }

  /** The > fast path: the level-0 elements or the context's children, filtered. */
  lemma FinalDescendant(v: IndexView, dom: Dom, re: Engine, seg: Segment, ctx: Option<Uid>, x: Uid)
    requires Ready(v, dom, ctx) && |seg.terms| >= 1 && seg.terms[0].kind == Some("descendant")
    requires Walk(v, dom, re, [seg], ctx).Ok? && x in Walk(v, dom, re, [seg], ctx).value
    ensures x in ChildrenOrRoots(v, dom, ctx) && PassesAll(x, seg.filters, HelperTest(dom, re))
    ensures ctx.Some? && dom[ctx.value].level != -1 ==> x in dom[ctx.value].children && dom[x].parent == ctx
  {
    assert [seg][1..] == [];
  }

  /** The < fast path: at most the context itself, when it passes the filters. */
  lemma FinalAscendant(v: IndexView, dom: Dom, re: Engine, seg: Segment, ctx: Option<Uid>)
    requires Ready(v, dom, ctx) && |seg.terms| >= 1 && seg.terms[0].kind == Some("ascendant")
    ensures Walk(v, dom, re, [seg], ctx).Ok?
    ensures forall x: Uid :: x in Walk(v, dom, re, [seg], ctx).value ==> ctx == Some(x) && PassesAll(x, seg.filters, HelperTest(dom, re))
  {
    assert [seg][1..] == [];
  }

  /** The uid table holds each element under the numeral of its uid, and nothing under "null". */
  predicate UidTable(dom: Dom, tbl: Tables) {
    "uid" in tbl && "null" !in tbl["uid"] &&
    forall u :: u in dom ==> NatToString(u) in tbl["uid"] && tbl["uid"][NatToString(u)] == [u]
  }

  /** With such a uid table, the context for a following < segment is the element's parent. */
  lemma AscendantContextIsParent(v: IndexView, dom: Dom, e: Uid)
    requires WellFormed(dom) && BucketsIn(dom, v.tbl) && UidTable(dom, v.tbl) && e in dom
    ensures ParentContext(v, dom, e) == dom[e].parent
  {
  }

  // -------------------------------------------------------------------
  // findElementsWithSelector
  // -------------------------------------------------------------------

  lemma DissectedTokens(d: Delims, tokens: seq<string>)
    requires DissectTokens(d, tokens).Ok?
    ensures Dissected(DissectTokens(d, tokens).value)
  {
    DissectTokensOk(d, tokens);
  }

  /** A falsy or non-string selector throws; otherwise the tokens are dissected and walked with no context. */
  function FindElementsWithSelector(v: IndexView, dom: Dom, re: Engine, selector: Value, tokens: seq<string>): (r: Result<seq<Uid>>)
    requires WellFormed(dom) && BucketsIn(dom, v.tbl)
    ensures !Truthy(selector) || !selector.Str? || DissectTokens(v.delims, tokens).Err? ==> r.Err?
    ensures Truthy(selector) && selector.Str? && DissectTokens(v.delims, tokens).Ok? ==>
      Dissected(DissectTokens(v.delims, tokens).value) && r == Walk(v, dom, re, DissectTokens(v.delims, tokens).value, None)
  {
    if !Truthy(selector) || !selector.Str? then Err("findElementsBySelector expected argument #1 (selector) to be a non-empty string")
    else
      var segs := DissectTokens(v.delims, tokens);
      if segs.Err? then Err(segs.error)
      else
        DissectedTokens(v.delims, tokens);
        Walk(v, dom, re, segs.value, None)
  }

  method FindElementsWithSelectorLoop(v: IndexView, dom: Dom, re: Engine, selector: Value, tokens: seq<string>) returns (r: Result<seq<Uid>>)
    requires WellFormed(dom) && BucketsIn(dom, v.tbl)
    ensures r == FindElementsWithSelector(v, dom, re, selector, tokens)
  {
    if !Truthy(selector) || !selector.Str? {
      return Err("findElementsBySelector expected argument #1 (selector) to be a non-empty string");
    }
    var paths := DissectTokensLoop(v.delims, tokens);
    if paths.Err? {
      return Err(paths.error);
    }
    DissectedTokens(v.delims, tokens);
    r := FilterByParsedSelector(v, dom, re, paths.value, None);
  }
}
