/**
 * filterByDescendants of lib/JSDOMHelpers.js: starting at the context
 * element, keep the candidates whose parent() is the element being visited,
 * then visit its childElements() in turn, threading one accumulator through
 * the recursion.
 */
module Descendants {
  import opened Values
  import opened Buckets
  import opened Tree

  /** The candidates whose parent() is p, in candidate order. */
  function ChildrenAmong(dom: Dom, cands: seq<Uid>, p: Uid): (r: seq<Uid>)
    requires AllIn(dom, cands)
    ensures |r| <= |cands|
    decreases |cands|
  {
    if cands == [] then []
    else
      var last := cands[|cands| - 1];
      ChildrenAmong(dom, cands[..|cands| - 1], p) + (if dom[last].parent == Some(p) then [last] else [])
  }

  /** For each visited element in visiting order, the candidates that are its children. */
  function Gather(dom: Dom, cands: seq<Uid>, visit: seq<Uid>): seq<Uid>
    requires AllIn(dom, cands)
    decreases |visit|
  {
    if visit == [] then [] else ChildrenAmong(dom, cands, visit[0]) + Gather(dom, cands, visit[1..])
  }

  /** Some candidate has no parent: reading parent().uid on it throws a TypeError. */
  predicate SomeRoot(dom: Dom, cands: seq<Uid>)
    requires AllIn(dom, cands)
  {
    exists c :: c in cands && dom[c].parent.None?
  }

  /**
   * The result of filterByDescendants(cands, ctx): without a context the
   * candidates are returned as they are; with one, the walk of ctx's subtree
   * collects, per visited element, its children among the candidates.
   */
  function Descendants(dom: Dom, cands: seq<Uid>, ctx: Option<Uid>): Result<seq<Uid>>
    requires WellFormed(dom) && AllIn(dom, cands) && (ctx.Some? ==> ctx.value in dom)
  {
    if ctx.None? then Ok(cands)
    else if SomeRoot(dom, cands) then Err("TypeError: cannot read property 'uid' of null")
    else Ok(Gather(dom, cands, Preorder(dom, ctx.value)))
  }

  /** The loop over the candidates: append those whose parent() is p, throwing at one without a parent. */
  method ScanCandidates(dom: Dom, cands: seq<Uid>, p: Uid, filtered: seq<Uid>) returns (r: Result<seq<Uid>>)
    requires AllIn(dom, cands)
    ensures SomeRoot(dom, cands) ==> r.Err?
    ensures !SomeRoot(dom, cands) ==> r == Ok(filtered + ChildrenAmong(dom, cands, p))
  {
    var out := filtered;
    var i := 0;
    while i < |cands|
      invariant 0 <= i <= |cands|
      invariant forall k :: 0 <= k < i ==> dom[cands[k]].parent.Some?
      invariant out == filtered + ChildrenAmong(dom, cands[..i], p)
    {
      var e := cands[i];
      if dom[e].parent.None? {
        return Err("TypeError: cannot read property 'uid' of null");
      }
      assert cands[..i + 1][..i] == cands[..i];
      if dom[e].parent == Some(p) {
        out := out + [e];
      }
      i := i + 1;
    }
    assert cands[..i] == cands;
    r := Ok(out);
  }

  /**
   * The recursive walk from p, appending to filtered: first the candidates
   * whose parent is p, then the walks of p's children one after the other.
   */
  method Collect(dom: Dom, cands: seq<Uid>, p: Uid, filtered: seq<Uid>) returns (r: Result<seq<Uid>>)
    requires WellFormed(dom) && AllIn(dom, cands) && p in dom
    ensures SomeRoot(dom, cands) ==> r.Err?
    ensures !SomeRoot(dom, cands) ==> r == Ok(filtered + Gather(dom, cands, Preorder(dom, p)))
    decreases |AtOrAbove(dom, Rank(dom)[p])|, 0
  {
    r := ScanCandidates(dom, cands, p, filtered);
    if r.Err? {
      return;
    }
    WalkFrom(dom, cands, p);
    var out := VisitChildren(dom, cands, dom[p].children, Rank(dom)[p] + 1, r.value);
    ConcatAssoc(filtered, ChildrenAmong(dom, cands, p), Gather(dom, cands, PreorderAll(dom, dom[p].children, Rank(dom)[p] + 1)));
    r := Ok(out);
  }

  /** The loop over childElements(): each child's walk appends to the accumulator in turn. */
  method VisitChildren(dom: Dom, cands: seq<Uid>, ch: seq<Uid>, ghost l: int, filtered: seq<Uid>) returns (out: seq<Uid>)
    requires WellFormed(dom) && AllIn(dom, cands) && AllRankedFrom(dom, ch, l) && !SomeRoot(dom, cands)
    ensures out == filtered + Gather(dom, cands, PreorderAll(dom, ch, l))
    decreases |AtOrAbove(dom, l)|, 1
  {
    out := filtered;
    var j := 0;
    assert ch[..0] == [];
    while j < |ch|
      invariant 0 <= j <= |ch|
      invariant out == filtered + Gather(dom, cands, PreorderAll(dom, ch[..j], l))
    {
      AboveShrinks(dom, l, Rank(dom)[ch[j]]);
      var sub := Collect(dom, cands, ch[j], out);
      Step(dom, cands, ch, j, l, filtered, out, sub.value);
      out := sub.value;
      j := j + 1;
    }
    assert ch[..j] == ch;
  }

  /** The walk from p: p's own children among the candidates, then the walks of its children. */
  lemma WalkFrom(dom: Dom, cands: seq<Uid>, p: Uid)
    requires WellFormed(dom) && AllIn(dom, cands) && p in dom
    ensures AllRankedFrom(dom, dom[p].children, Rank(dom)[p] + 1)
    ensures |AtOrAbove(dom, Rank(dom)[p] + 1)| < |AtOrAbove(dom, Rank(dom)[p])|
    ensures Gather(dom, cands, Preorder(dom, p)) ==
      ChildrenAmong(dom, cands, p) + Gather(dom, cands, PreorderAll(dom, dom[p].children, Rank(dom)[p] + 1))
  {
    DeeperIsSmaller(dom, p);
    var rest := PreorderAll(dom, dom[p].children, Rank(dom)[p] + 1);
    assert Preorder(dom, p) == [p] + rest;
    GatherConcat(dom, cands, [p], rest);
    assert Gather(dom, cands, [p]) == ChildrenAmong(dom, cands, p) by {
      assert [p][1..] == [];
    }
  }

  /** One turn of the loop over the children: the walk so far grows by the next child's subtree. */
  lemma Step(dom: Dom, cands: seq<Uid>, ch: seq<Uid>, j: nat, l: int, filtered: seq<Uid>, out: seq<Uid>, next: seq<Uid>)
    requires WellFormed(dom) && AllIn(dom, cands) && AllRankedFrom(dom, ch, l) && j < |ch|
    requires out == filtered + Gather(dom, cands, PreorderAll(dom, ch[..j], l))
    requires next == out + Gather(dom, cands, Preorder(dom, ch[j]))
    ensures next == filtered + Gather(dom, cands, PreorderAll(dom, ch[..j + 1], l))
  {
    PreorderPrefixSnoc(dom, ch, j, l);
    var a, b := PreorderAll(dom, ch[..j], l), Preorder(dom, ch[j]);
    GatherConcat(dom, cands, a, b);
    ConcatAssoc(filtered, Gather(dom, cands, a), Gather(dom, cands, b));
  }

  lemma ConcatAssoc<T>(x: seq<T>, y: seq<T>, z: seq<T>)
    ensures x + y + z == x + (y + z)
  {
  }

  /** The walk of the first j + 1 children is that of the first j, then the subtree of child j. */
  lemma PreorderPrefixSnoc(dom: Dom, ch: seq<Uid>, j: nat, l: int)
    requires WellFormed(dom) && AllRankedFrom(dom, ch, l) && j < |ch|
    ensures PreorderAll(dom, ch[..j + 1], l) == PreorderAll(dom, ch[..j], l) + Preorder(dom, ch[j])
  {
    var xs, x := ch[..j], ch[j];
    assert ch[..j + 1] == xs + [x];
    assert AllRankedFrom(dom, xs + [x], l) by {
      forall y | y in xs + [x] ensures y in ch { }
    }
    PreorderAllSnoc(dom, xs, x, l);
  }

  /** filterByDescendants(cands, ctx), proved to compute Descendants. */
  method FilterByDescendants(dom: Dom, cands: seq<Uid>, ctx: Option<Uid>) returns (r: Result<seq<Uid>>)
    requires WellFormed(dom) && AllIn(dom, cands) && (ctx.Some? ==> ctx.value in dom)
    ensures r == Descendants(dom, cands, ctx)
  {
    if ctx.None? {
      return Ok(cands);
    }
    r := Collect(dom, cands, ctx.value, []);
    assert !SomeRoot(dom, cands) ==> [] + Gather(dom, cands, Preorder(dom, ctx.value)) == Gather(dom, cands, Preorder(dom, ctx.value));
    if r.Err? {
      r := Err("TypeError: cannot read property 'uid' of null");
    }
  }

  /** The walk keeps nothing but candidates. */
  lemma {:induction false} GatherWithin(dom: Dom, cands: seq<Uid>, visit: seq<Uid>)
    requires AllIn(dom, cands)
    ensures forall x :: x in Gather(dom, cands, visit) ==> x in cands
    decreases |visit|
  {
    if visit != [] {
      ChildrenAmongWithin(dom, cands, visit[0]);
      GatherWithin(dom, cands, visit[1..]);
    }
  }

  lemma {:induction false} ChildrenAmongWithin(dom: Dom, cands: seq<Uid>, p: Uid)
    requires AllIn(dom, cands)
    ensures forall x :: x in ChildrenAmong(dom, cands, p) ==> x in cands
    decreases |cands|
  {
    if cands != [] {
      ChildrenAmongWithin(dom, cands[..|cands| - 1], p);
      assert cands == cands[..|cands| - 1] + [cands[|cands| - 1]];
    }
  }

  lemma {:induction false} GatherConcat(dom: Dom, cands: seq<Uid>, a: seq<Uid>, b: seq<Uid>)
    requires AllIn(dom, cands)
    ensures Gather(dom, cands, a + b) == Gather(dom, cands, a) + Gather(dom, cands, b)
    decreases |a|
  {
    if a != [] {
      assert (a + b)[0] == a[0];
      assert (a + b)[1..] == a[1..] + b;
      GatherConcat(dom, cands, a[1..], b);
    } else {
      assert a + b == b;
    }
  }

  lemma {:induction false} PreorderAllSnoc(dom: Dom, xs: seq<Uid>, x: Uid, l: int)
    requires WellFormed(dom) && AllRankedFrom(dom, xs + [x], l)
    ensures AllRankedFrom(dom, xs, l)
    ensures PreorderAll(dom, xs + [x], l) == PreorderAll(dom, xs, l) + Preorder(dom, x)
    decreases |xs|
  {
    assert forall y :: y in xs ==> y in xs + [x];
    if xs == [] {
      assert [x][1..] == [];
      assert PreorderAll(dom, [x], l) == Preorder(dom, x) + PreorderAll(dom, [], l);
    } else {
      var ys := xs[1..];
      assert (xs + [x])[0] == xs[0];
      assert (xs + [x])[1..] == ys + [x];
      assert forall y :: y in ys + [x] ==> y in xs + [x];
      PreorderAllSnoc(dom, ys, x, l);
      var a, b, c := Preorder(dom, xs[0]), PreorderAll(dom, ys, l), Preorder(dom, x);
      assert PreorderAll(dom, xs + [x], l) == a + PreorderAll(dom, ys + [x], l);
      assert PreorderAll(dom, xs, l) == a + b;
      ConcatAssoc(a, b, c);
    }
  }

  // -------------------------------------------------------------------
  // What the filter keeps.
  // -------------------------------------------------------------------

  /** A candidate occurs among the children of p as often as among the candidates, if p is its parent. */
  lemma {:induction false} ChildrenAmongCount(dom: Dom, cands: seq<Uid>, p: Uid, e: Uid)
    requires AllIn(dom, cands) && e in dom
    ensures multiset(ChildrenAmong(dom, cands, p))[e] == if dom[e].parent == Some(p) then multiset(cands)[e] else 0
    decreases |cands|
  {
    if cands != [] {
      var init, last := cands[..|cands| - 1], cands[|cands| - 1];
      assert cands == init + [last];
      assert AllIn(dom, init) by {
        forall x | x in init ensures x in dom {
          assert x in cands;
        }
      }
      ChildrenAmongCount(dom, init, p, e);
    }
  }

  lemma {:induction false} GatherCount(dom: Dom, cands: seq<Uid>, visit: seq<Uid>, e: Uid)
    requires AllIn(dom, cands) && e in dom && NoDup(visit)
    ensures multiset(Gather(dom, cands, visit))[e] ==
      if dom[e].parent.Some? && dom[e].parent.value in visit then multiset(cands)[e] else 0
    decreases |visit|
  {
    if visit != [] {
      assert NoDup(visit[1..]) by {
        forall i, j | 0 <= i < j < |visit[1..]| ensures visit[1..][i] != visit[1..][j] {
          assert visit[1..][i] == visit[i + 1] && visit[1..][j] == visit[j + 1];
        }
      }
      assert visit[0] !in visit[1..] by {
        forall i | 0 <= i < |visit[1..]| ensures visit[1..][i] != visit[0] {
          assert visit[1..][i] == visit[i + 1];
        }
      }
      assert visit == [visit[0]] + visit[1..];
      ChildrenAmongCount(dom, cands, visit[0], e);
      GatherCount(dom, cands, visit[1..], e);
    }
  }

  /**
   * Under a context, each candidate is kept exactly as often as it is given
   * when its parent is the context or is reached from it through
   * childElements(), and is dropped otherwise.
   */
  lemma DescendantsKeep(dom: Dom, cands: seq<Uid>, ctx: Uid, e: Uid)
    requires WellFormed(dom) && AllIn(dom, cands) && ctx in dom && e in dom
    requires !SomeRoot(dom, cands)
    ensures Descendants(dom, cands, Some(ctx)).Ok?
    ensures multiset(Descendants(dom, cands, Some(ctx)).value)[e] ==
      if dom[e].parent.Some? && dom[e].parent.value in Preorder(dom, ctx) then multiset(cands)[e] else 0
  {
    PreorderNoDup(dom, ctx);
    GatherCount(dom, cands, Preorder(dom, ctx), e);
  }

  /** Under a context, a candidate without a parent makes the filter throw. */
  lemma RootCandidateThrows(dom: Dom, cands: seq<Uid>, ctx: Uid, i: nat)
    requires WellFormed(dom) && AllIn(dom, cands) && ctx in dom
    requires i < |cands| && dom[cands[i]].parent.None?
    ensures Descendants(dom, cands, Some(ctx)).Err?
  {
    assert cands[i] in cands;
  }

  /** The direct children of the context among the candidates all come first, in candidate order. */
  lemma DirectChildrenFirst(dom: Dom, cands: seq<Uid>, ctx: Uid)
    requires WellFormed(dom) && AllIn(dom, cands) && ctx in dom && !SomeRoot(dom, cands)
    ensures Descendants(dom, cands, Some(ctx)).Ok?
    ensures var kids := ChildrenAmong(dom, cands, ctx);
      Descendants(dom, cands, Some(ctx)).value[..|kids|] == kids
  {
    var v := Preorder(dom, ctx);
    assert v[0] == ctx;
  }
}
