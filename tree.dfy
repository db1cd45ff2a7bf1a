/**
 * The element tree as the selector evaluator of lib/JSDOMHelpers.js sees it:
 * each element answers uid, parent(), lvl(), childElements(), prop(name) and
 * val(). The evaluator is modelled over a snapshot of those answers, an arena
 * of records keyed by uid, whose links are consistent and whose children
 * never lead back to an element; levels are whatever lvl() reports.
 */
module Tree {
  import opened Values
  import opened Buckets

  /**
   * One element: parent() (None for null), lvl(), childElements(), the
   * contents that prop(name) reads, and the value that val() returns.
   */
  datatype Elem = Elem(parent: Option<Uid>, level: int, children: seq<Uid>, contents: Value, value: Value)

  type Dom = map<Uid, Elem>

  /** prop(name): contents[name]. */
  function Prop(dom: Dom, u: Uid, name: string): Value
    requires u in dom
  {
    GetProp(dom[u].contents, name)
  }

  /**
   * Parent links point into the arena; every child lists its parent as
   * parent(); no element is listed twice among one element's children.
   * (A parent need not list its child.) Levels are data, as lvl() reports
   * them: the parent setter re-levels only the element it moves, so a level
   * need not count the depth.
   */
  ghost predicate Linked(dom: Dom) {
    forall u :: u in dom ==>
      (dom[u].parent.Some? ==> dom[u].parent.value in dom) &&
      NoDup(dom[u].children) &&
      forall c :: c in dom[u].children ==> c in dom && dom[c].parent == Some(u)
  }

  /** childElements() of every element. */
  function Kids(dom: Dom): (kids: map<Uid, seq<Uid>>)
    ensures kids.Keys == dom.Keys && forall u :: u in dom ==> kids[u] == dom[u].children
  {
    map u | u in dom :: dom[u].children
  }

  /**
   * rank witnesses that following childElements() never leads back to an
   * element: every listed child ranks above the element that lists it.
   */
  ghost predicate RankedBy(kids: map<Uid, seq<Uid>>, rank: map<Uid, nat>) {
    forall u :: u in kids ==> u in rank && forall c {:trigger c in kids[u]} :: c in kids[u] ==> c in rank && rank[c] > rank[u]
  }

  /** No element is its own descendant through childElements(). */
  ghost predicate Acyclic(kids: map<Uid, seq<Uid>>) {
    exists rank :: RankedBy(kids, rank)
  }

  /** rank ranks every element of the arena below each child it lists. */
  ghost predicate RanksDom(dom: Dom, rank: map<Uid, nat>) {
    (forall u :: u in dom ==> u in rank) &&
    forall u, c {:trigger c in dom[u].children} :: u in dom && c in dom[u].children ==> c in rank && rank[c] > rank[u]
  }

  /** The arenas the walks of the evaluator terminate on: linked, and ranked (no cycle of children). */
  ghost predicate WellFormed(dom: Dom) {
    Linked(dom) && exists rank :: RanksDom(dom, rank)
  }

  /** A linked arena is well formed exactly when its children lists have no cycle. */
  lemma WellFormedAcyclic(dom: Dom)
    requires Linked(dom)
    ensures WellFormed(dom) <==> Acyclic(Kids(dom))
  {
    if WellFormed(dom) {
      var rank :| RanksDom(dom, rank);
      assert RankedBy(Kids(dom), rank);
    }
    if Acyclic(Kids(dom)) {
      var rank :| RankedBy(Kids(dom), rank);
      assert RanksDom(dom, rank);
    }
  }

  /** One ranking of a well-formed arena, the measure of every walk down it. */
  ghost function Rank(dom: Dom): (rank: map<Uid, nat>)
    requires WellFormed(dom)
    ensures RanksDom(dom, rank)
  {
    var rank :| RanksDom(dom, rank);
    rank
  }

  predicate AllIn(dom: Dom, xs: seq<Uid>) {
    forall x :: x in xs ==> x in dom
  }

  ghost predicate AllRankedFrom(dom: Dom, xs: seq<Uid>, l: int)
    requires WellFormed(dom)
  {
    forall x :: x in xs ==> x in dom && Rank(dom)[x] >= l
  }

  /** The elements ranked l or more. */
  ghost function AtOrAbove(dom: Dom, l: int): set<Uid>
    requires WellFormed(dom)
  {
    set u | u in dom && Rank(dom)[u] >= l
  }

  /** A child's subtree is measured by fewer elements than its parent's. */
  lemma DeeperIsSmaller(dom: Dom, x: Uid)
    requires WellFormed(dom) && x in dom
    ensures |AtOrAbove(dom, Rank(dom)[x] + 1)| < |AtOrAbove(dom, Rank(dom)[x])|
  {
    var small, big := AtOrAbove(dom, Rank(dom)[x] + 1), AtOrAbove(dom, Rank(dom)[x]);
    var extra := big - small;
    assert x in extra;
    assert big == small + extra && small * extra == {};
    assert |big| == |small| + |extra|;
  }

  /** Raising the bound never adds elements. */
  lemma AboveShrinks(dom: Dom, l: int, m: int)
    requires WellFormed(dom) && l <= m
    ensures |AtOrAbove(dom, m)| <= |AtOrAbove(dom, l)|
  {
    var small, big := AtOrAbove(dom, m), AtOrAbove(dom, l);
    assert big == small + (big - small) && small * (big - small) == {};
    assert |big| == |small| + |big - small|;
  }

  /** The element and its descendants through childElements(), depth first, parents first. */
  function Preorder(dom: Dom, x: Uid): (r: seq<Uid>)
    requires WellFormed(dom) && x in dom
    ensures |r| >= 1 && r[0] == x
    ensures forall y :: y in r ==> y in dom && Rank(dom)[y] >= Rank(dom)[x]
    ensures forall y :: y in r[1..] ==> Rank(dom)[y] > Rank(dom)[x]
    decreases |AtOrAbove(dom, Rank(dom)[x])|, 0
  {
    DeeperIsSmaller(dom, x);
    var rest := PreorderAll(dom, dom[x].children, Rank(dom)[x] + 1);
    assert ([x] + rest)[1..] == rest;
    [x] + rest
  }

  /** The preorders of a list of elements ranked l or more, one after the other. */
  function PreorderAll(dom: Dom, xs: seq<Uid>, ghost l: int): (r: seq<Uid>)
    requires WellFormed(dom) && AllRankedFrom(dom, xs, l)
    ensures forall y :: y in r ==> y in dom && Rank(dom)[y] >= l
    decreases |AtOrAbove(dom, l)|, |xs|
  {
    if xs == [] then []
    else
      AboveShrinks(dom, l, Rank(dom)[xs[0]]);
      Preorder(dom, xs[0]) + PreorderAll(dom, xs[1..], l)
  }

  lemma {:induction false} InPreorderAll(dom: Dom, xs: seq<Uid>, l: int, y: Uid)
    requires WellFormed(dom) && AllRankedFrom(dom, xs, l)
    ensures y in PreorderAll(dom, xs, l) <==> exists i :: 0 <= i < |xs| && y in Preorder(dom, xs[i])
    decreases |xs|
  {
    if xs != [] {
      InPreorderAll(dom, xs[1..], l, y);
      if y in PreorderAll(dom, xs, l) {
        if y in Preorder(dom, xs[0]) {
          assert 0 < |xs| && y in Preorder(dom, xs[0]);
        } else {
          var i :| 0 <= i < |xs[1..]| && y in Preorder(dom, xs[1..][i]);
          assert y in Preorder(dom, xs[i + 1]);
        }
      } else {
        forall i | 0 <= i < |xs| ensures y !in Preorder(dom, xs[i]) {
          if i > 0 {
            assert xs[i] == xs[1..][i - 1];
          }
        }
      }
    }
  }

  /** An element of a subtree other than its root has its parent in the same subtree, and that parent lists it. */
  lemma {:induction false} ParentInSubtree(dom: Dom, x: Uid, y: Uid)
    requires WellFormed(dom) && x in dom && y in Preorder(dom, x) && y != x
    ensures dom[y].parent.Some? && dom[y].parent.value in Preorder(dom, x)
    ensures y in dom[dom[y].parent.value].children
    decreases |AtOrAbove(dom, Rank(dom)[x])|
  {
    var ch := dom[x].children;
    var l := Rank(dom)[x] + 1;
    assert Preorder(dom, x) == [x] + PreorderAll(dom, ch, l);
    assert y in PreorderAll(dom, ch, l);
    InPreorderAll(dom, ch, l, y);
    var i :| 0 <= i < |ch| && y in Preorder(dom, ch[i]);
    if y == ch[i] {
      assert dom[y].parent == Some(x);
    } else {
      DeeperIsSmaller(dom, x);
      AboveShrinks(dom, l, Rank(dom)[ch[i]]);
      ParentInSubtree(dom, ch[i], y);
      var p := dom[y].parent.value;
      InPreorderAll(dom, ch, l, p);
      assert p in PreorderAll(dom, ch, l);
    }
  }

  /** Two subtrees rooted at children of the same element that share an element have the same root. */
  lemma {:induction false} SiblingRoots(dom: Dom, p: Uid, c1: Uid, c2: Uid, y: Uid)
    requires WellFormed(dom) && p in dom && c1 in dom[p].children && c2 in dom[p].children
    requires y in Preorder(dom, c1) && y in Preorder(dom, c2)
    ensures c1 == c2
    decreases Rank(dom)[y]
  {
    if y == c1 && y != c2 {
      ParentInSubtree(dom, c2, y);
    } else if y == c2 && y != c1 {
      ParentInSubtree(dom, c1, y);
    } else if y != c1 && y != c2 {
      ParentInSubtree(dom, c1, y);
      ParentInSubtree(dom, c2, y);
      SiblingRoots(dom, p, c1, c2, dom[y].parent.value);
    }
  }

  lemma NoDupConcat<T>(a: seq<T>, b: seq<T>)
    requires NoDup(a) && NoDup(b) && forall y :: y in a ==> y !in b
    ensures NoDup(a + b)
  {
    var ab := a + b;
    forall i, j | 0 <= i < j < |ab| ensures ab[i] != ab[j] {
      if j < |a| {
        assert ab[i] == a[i] && ab[j] == a[j];
      } else if i >= |a| {
        assert ab[i] == b[i - |a|] && ab[j] == b[j - |a|];
      } else {
        assert ab[i] == a[i] && ab[j] == b[j - |a|] && a[i] in a;
      }
    }
  }

  /** A walk of the subtree visits every element once. */
  lemma {:induction false} PreorderNoDup(dom: Dom, x: Uid)
    requires WellFormed(dom) && x in dom
    ensures NoDup(Preorder(dom, x))
    decreases |AtOrAbove(dom, Rank(dom)[x])|, 0
  {
    DeeperIsSmaller(dom, x);
    var rest := PreorderAll(dom, dom[x].children, Rank(dom)[x] + 1);
    PreorderAllNoDup(dom, x, dom[x].children, Rank(dom)[x] + 1);
    NoDupConcat([x], rest);
  }

  /** The walks of distinct children of p, one after the other, visit every element once. */
  lemma {:induction false} PreorderAllNoDup(dom: Dom, p: Uid, xs: seq<Uid>, l: int)
    requires WellFormed(dom) && p in dom && AllRankedFrom(dom, xs, l) && NoDup(xs)
    requires forall x :: x in xs ==> x in dom[p].children
    ensures NoDup(PreorderAll(dom, xs, l))
    decreases |AtOrAbove(dom, l)|, |xs|
  {
    if xs != [] {
      AboveShrinks(dom, l, Rank(dom)[xs[0]]);
      PreorderNoDup(dom, xs[0]);
      assert NoDup(xs[1..]) && forall x :: x in xs[1..] ==> x in xs;
      PreorderAllNoDup(dom, p, xs[1..], l);
      forall y | y in Preorder(dom, xs[0]) ensures y !in PreorderAll(dom, xs[1..], l) {
        InPreorderAll(dom, xs[1..], l, y);
        if y in PreorderAll(dom, xs[1..], l) {
          var i :| 0 <= i < |xs[1..]| && y in Preorder(dom, xs[1..][i]);
          SiblingRoots(dom, p, xs[0], xs[i + 1], y);
        }
      }
      NoDupConcat(Preorder(dom, xs[0]), PreorderAll(dom, xs[1..], l));
    }
  }
}
