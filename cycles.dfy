/**
 * lib/JSDOMElement.js, addChild and the parent setter, against the tree the
 * selector walks: which arenas their guards let through, as written and as
 * intended.
 */
module Cycles {
  import opened Values
  import opened Buckets
  import opened Element
  import Tree

  /** childElements() of every element of the arena. */
  function KidsOf(recs: Recs): (kids: map<Uid, seq<Uid>>)
    ensures kids.Keys == recs.Keys && forall u :: u in recs ==> kids[u] == recs[u].children
  {
    map u | u in recs :: recs[u].children
  }

  /** Three elements in a line: g (uid 0) lists c (uid 1), which lists s (uid 2). */
  function Chain(): Recs {
    map[0 := Rec(Obj(map[]), None, 0, [1]), 1 := Rec(Obj(map[]), Some(0), 1, [2]), 2 := Rec(Obj(map[]), Some(1), 2, [])]
  }

  /**
   * The line is a linked arena without a cycle, and s.addChild(g) passes
   * addChild's guard (g is not s's child, not s, not s's parent) and the
   * parent setter's (s is not among g's children, not g).
   */
  lemma ChainAccepted()
    ensures var recs := Chain();
      Linked(recs) && Tree.Acyclic(KidsOf(recs)) &&
      ChildAccepted(recs, 2, ElementRef(0)) && ParentAccepted(recs, 0, ElementRef(2))
  {
    var recs := Chain();
    assert recs.Keys == {0, 1, 2};
    forall u | u in recs ensures Fits(recs, recs[u]) {
      assert u == 0 || u == 1 || u == 2;
    }
    var kids := KidsOf(recs);
    var rank: map<Uid, nat> := map[0 := 0, 1 := 1, 2 := 2];
    assert kids[0] == [1] && kids[1] == [2] && kids[2] == [];
    forall u | u in kids
      ensures u in rank && forall c {:trigger c in kids[u]} :: c in kids[u] ==> c in rank && rank[c] > rank[u]
    {
      assert u == 0 || u == 1 || u == 2;
    }
    assert Tree.RankedBy(kids, rank);
  }

  /** Children lists that go round a, b, c, a admit no ranking. */
  lemma ThreeCycle(kids: map<Uid, seq<Uid>>, a: Uid, b: Uid, c: Uid)
    requires a in kids && b in kids && c in kids
    requires b in kids[a] && c in kids[b] && a in kids[c]
    ensures !Tree.Acyclic(kids)
  {
  }

  /**
   * The guards let s.addChild(g) through, and the arena it leaves has the
   * cycle g, c, s, g: every walk down the children from g goes round it.
   */
  lemma AddChildClosesCycle()
    ensures var recs := Chain();
      Linked(recs) && Tree.Acyclic(KidsOf(recs)) &&
      ChildAccepted(recs, 2, ElementRef(0)) && ParentAccepted(recs, 0, ElementRef(2)) &&
      !Tree.Acyclic(KidsOf(Adopted(Reparented(recs, 0, 2), 2, 0)))
  {
    var recs := Chain();
    ChainAccepted();
    assert Detached(recs, 0) == recs;
    var moved := Reparented(recs, 0, 2);
    assert moved[0].children == [1] && moved[1].children == [2] && moved[2].children == [];
    var closed := Adopted(moved, 2, 0);
    assert closed[0] == moved[0] && closed[1] == moved[1];
    assert closed[2].children == [] + [0] == [0];
    ThreeCycle(KidsOf(closed), 0, 1, 2);
  }

  /**
   * y lies in the subtree of x: y is x or lies in the subtree of one of x's
   * children (rank bounds the search; the answer does not depend on it).
   */
  ghost predicate Reaches(kids: map<Uid, seq<Uid>>, rank: map<Uid, nat>, x: Uid, y: Uid)
    requires Tree.RankedBy(kids, rank) && x in rank && y in rank
    decreases rank[y] as int - rank[x]
  {
    x == y || (x in kids && rank[x] < rank[y] && exists c :: c in kids[x] && Reaches(kids, rank, c, y))
  }

  /** The subtree of x takes in the children of each of its elements. */
  lemma {:induction false} ReachStep(kids: map<Uid, seq<Uid>>, rank: map<Uid, nat>, x: Uid, u: Uid, v: Uid)
    requires Tree.RankedBy(kids, rank) && x in rank && u in kids && v in kids[u]
    requires Reaches(kids, rank, x, u)
    ensures Reaches(kids, rank, x, v)
    decreases rank[u] as int - rank[x]
  {
    if x == u {
      assert Reaches(kids, rank, v, v);
    } else {
      var c :| c in kids[x] && Reaches(kids, rank, c, u);
      ReachStep(kids, rank, c, u, v);
    }
  }

  /** addChild's guard as intended: also refuse a child whose subtree holds self. */
  ghost predicate ChildAcceptedAcyclic(recs: Recs, rank: map<Uid, nat>, s: Uid, c: Entity)
    requires s in recs && Tree.RankedBy(KidsOf(recs), rank)
  {
    ChildAccepted(recs, s, c) && c.uid in recs && !Reaches(KidsOf(recs), rank, c.uid, s)
  }

  /**
   * Under the intended guard the parent setter always accepts self, and
   * addChild leaves the children lists without a cycle: the elements of c's
   * subtree move up in rank far enough to sit above s.
   */
  lemma AdoptionStaysAcyclic(recs: Recs, rank: map<Uid, nat>, s: Uid, c: Uid)
    requires Linked(recs) && s in recs && Tree.RankedBy(KidsOf(recs), rank)
    requires ChildAcceptedAcyclic(recs, rank, s, ElementRef(c))
    ensures ParentAccepted(recs, c, ElementRef(s))
    ensures Tree.Acyclic(KidsOf(Adopted(Reparented(recs, c, s), s, c)))
  {
    var kids := KidsOf(recs);
    if s in recs[c].children {
      assert Reaches(kids, rank, s, s);
    }
    var k: nat := if rank[s] + 1 > rank[c] then rank[s] + 1 - rank[c] else 0;
    var rank2: map<Uid, nat> := map x | x in rank :: rank[x] + (if Reaches(kids, rank, c, x) then k else 0);
    var after := Adopted(Reparented(recs, c, s), s, c);
    var kids2 := KidsOf(after);
    assert Reaches(kids, rank, c, c);
    forall u | u in kids2
      ensures u in rank2 && forall v {:trigger v in kids2[u]} :: v in kids2[u] ==> v in rank2 && rank2[v] > rank2[u]
    {
      forall v | v in kids2[u] ensures v in rank2 && rank2[v] > rank2[u] {
        AdoptedEdge(recs, s, c, u, v);
        if u != s || v != c {
          if Reaches(kids, rank, c, u) {
            ReachStep(kids, rank, c, u, v);
          }
        }
      }
    }
    assert Tree.RankedBy(kids2, rank2);
  }

  /** Every child list after addChild is an old one, less perhaps self, plus c at the end of s's. */
  lemma AdoptedEdge(recs: Recs, s: Uid, c: Uid, u: Uid, v: Uid)
    requires Linked(recs) && s in recs && c in recs && u in recs
    requires v in KidsOf(Adopted(Reparented(recs, c, s), s, c))[u]
    ensures v in recs[u].children || (u == s && v == c)
  {
    var d := Detached(recs, c);
    assert Fits(recs, recs[u]);
    if v !in recs[u].children && !(u == s && v == c) {
      RemoveFirstNoDup(recs[u].children, c);
    }
  }
}
