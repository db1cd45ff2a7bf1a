/**
 * lib/JSDOMElement.js: an element wraps one object of the tree and keeps the
 * property index of its jsdom in step with its contents, its level and its
 * place among its parent's children. The elements of one jsdom are modelled
 * as an arena keyed by uid, next to that jsdom's index.
 */
module Element {
  import opened Values
  import opened Buckets
  import opened PropertyIndex

  /** The closure state of one element: contents, parent, level, children. */
  datatype Rec = Rec(contents: Value, parent: Option<Uid>, level: int, children: seq<Uid>)

  type Recs = map<Uid, Rec>

  // -------------------------------------------------------------------
  // The re-indexing the level setter does, as values.
  // -------------------------------------------------------------------

  /** The loop addElementToIndex(self, 'delta', i) for i = 0 .. n-1. */
  function DeltasAdded(tbl: Tables, u: Uid, n: nat): (r: Tables)
    ensures r.Keys == tbl.Keys
    ensures forall m :: m in tbl && m != "delta" ==> r[m] == tbl[m]
  {
    if n == 0 then tbl else AddedTo(DeltasAdded(tbl, u, n - 1), ElementRef(u), "delta", Num(n - 1))
  }

  /** How many delta buckets `for(i = 0; i <= level; i++)` fills. */
  function DeltaCount(level: int): nat {
    if level >= 0 then level + 1 else 0
  }

  /** What the setter hands to addElementToIndex: the number, or NaN (neither truthy nor 0, like undefined). */
  function NumOrNaN(n: Option<int>): Value {
    if n.Some? then Num(n.value) else Undefined
  }

  /** The level table step: out of the bucket of the current level, into that of the new one. */
  function Moved(old_tbl: Tables, u: Uid, current: int, lvl: Option<int>): (r: Tables)
    requires "level" in old_tbl
    ensures r.Keys == old_tbl.Keys && forall n :: n in old_tbl && n != "level" ==> r[n] == old_tbl[n]
  {
    AddedTo(Unfiled(old_tbl, "level", IntToString(current), u), ElementRef(u), "level", NumOrNaN(lvl))
  }

  lemma MovedFacts(old_tbl: Tables, u: Uid, current: int, lvl: Option<int>)
    requires "level" in old_tbl && AllBucketsNoDup(old_tbl)
    ensures lvl.Some? ==> u in BucketAt(Moved(old_tbl, u, current, lvl), "level", IntToString(lvl.value))
    ensures lvl.None? || lvl.value != current ==> u !in BucketAt(Moved(old_tbl, u, current, lvl), "level", IntToString(current))
  {
    var unf := Unfiled(old_tbl, "level", IntToString(current), u);
    UnfiledRemoves(old_tbl, "level", IntToString(current), u);
    if lvl.Some? {
      assert KeyOf(Num(lvl.value)) == IntToString(lvl.value);
      assert Moved(old_tbl, u, current, lvl) == Filed(unf, "level", IntToString(lvl.value), u);
      if lvl.value != current && IntToString(lvl.value) == IntToString(current) {
        IntToStringInjective(lvl.value, current);
      }
    }
  }

  /**
   * The index after the level setter: e leaves the level bucket of the
   * current level and joins that of the new one (none for NaN); then the
   * keyless removal from the delta table (which spliced under the keys of
   * hit), then delta buckets 0 .. final level.
   */
  function Releveled(tbl: Tables, u: Uid, current: int, lvl: Option<int>, hit: set<string>): (r: Tables)
    requires "level" in tbl
    ensures r.Keys == tbl.Keys
  {
    var mid := RemovedFrom(Moved(tbl, u, current, lvl), ElementRef(u), "delta", Undefined, hit);
    DeltasAdded(mid, u, DeltaCount(if lvl.Some? then lvl.value else current))
  }

  /** Every delta bucket 0 .. n-1 holds the element after the loop. */
  lemma DeltasAddedHas(tbl: Tables, u: Uid, n: nat)
    requires "delta" in tbl
    ensures forall i :: 0 <= i < n ==> IntToString(i) in DeltasAdded(tbl, u, n)["delta"] && u in DeltasAdded(tbl, u, n)["delta"][IntToString(i)]
  {
    forall i | 0 <= i < n
      ensures IntToString(i) in DeltasAdded(tbl, u, n)["delta"] && u in DeltasAdded(tbl, u, n)["delta"][IntToString(i)]
    {
      DeltaKept(tbl, u, n, i);
    }
  }

  /** Delta bucket i, once filled by turn i of the loop, keeps the element through the later turns. */
  lemma {:induction false} DeltaKept(tbl: Tables, u: Uid, n: nat, i: nat)
    requires "delta" in tbl && i < n
    ensures IntToString(i) in DeltasAdded(tbl, u, n)["delta"] && u in DeltasAdded(tbl, u, n)["delta"][IntToString(i)]
  {
    var before := DeltasAdded(tbl, u, n - 1);
    assert KeyOf(Num(n - 1)) == IntToString(n - 1);
    assert DeltasAdded(tbl, u, n) == Filed(before, "delta", IntToString(n - 1), u);
    if i < n - 1 {
      DeltaKept(tbl, u, n - 1, i);
      if IntToString(i) == IntToString(n - 1) {
        IntToStringInjective(i, n - 1);
      }
    }
  }

  /**
   * The level setter's promise: with a numeric value the element sits in the
   * level bucket of the new level and in every delta bucket 0 .. level; it
   * is no longer in the bucket of the old level (with NaN it is in no level
   * bucket of its old level either, since the re-add receives NaN).
   */
  lemma ReleveledFacts(old_tbl: Tables, u: Uid, current: int, lvl: Option<int>, hit: set<string>)
    requires "level" in old_tbl && "delta" in old_tbl && AllBucketsNoDup(old_tbl)
    ensures var tbl := Releveled(old_tbl, u, current, lvl, hit);
      (lvl.Some? ==> u in BucketAt(tbl, "level", IntToString(lvl.value))) &&
      (lvl.None? || lvl.value != current ==> u !in BucketAt(tbl, "level", IntToString(current))) &&
      forall i :: 0 <= i <= (if lvl.Some? then lvl.value else current) ==> u in BucketAt(tbl, "delta", IntToString(i))
  {
    var tbl := Releveled(old_tbl, u, current, lvl, hit);
    var moved := Moved(old_tbl, u, current, lvl);
    MovedFacts(old_tbl, u, current, lvl);
    var final := if lvl.Some? then lvl.value else current;
    var mid := RemovedFrom(moved, ElementRef(u), "delta", Undefined, hit);
    assert tbl["level"] == mid["level"] == moved["level"];
    DeltasAddedHas(mid, u, DeltaCount(final));
  }

  // -------------------------------------------------------------------
  // The arena changes the parent setter and addChild make, as values.
  // -------------------------------------------------------------------

  /** if(parent) parent.removeChild(self) */
  function Detached(recs: Recs, u: Uid): (r: Recs)
    requires u in recs
    ensures r.Keys == recs.Keys
    ensures forall x :: x in recs ==> r[x].level == recs[x].level && r[x].parent == recs[x].parent
  {
    var op := recs[u].parent;
    if op.Some? && op.value in recs then recs[op.value := recs[op.value].(children := RemoveFirst(recs[op.value].children, u))]
    else recs
  }

  /** The parent setter's arena change: detached from the old parent, parent p, level p.level + 1. */
  function Reparented(recs: Recs, u: Uid, p: Uid): (r: Recs)
    requires u in recs && p in recs
    ensures r.Keys == recs.Keys && r[u].parent == Some(p) && r[u].level == recs[p].level + 1
  {
    var d := Detached(recs, u);
    d[u := d[u].(parent := Some(p), level := recs[p].level + 1)]
  }

  /** The parent setter's three steps (removeChild, parent = p, the level) make Reparented. */
  lemma ReparentedSteps(recs: Recs, u: Uid, p: Uid)
    requires u in recs && p in recs
    ensures var d := Detached(recs, u); var r2 := d[u := d[u].(parent := Some(p))];
      r2[u := r2[u].(level := recs[p].level + 1)] == Reparented(recs, u, p)
  {
  }

  /** What the parent setter leaves of p's children: self gone when p was the parent already, else unchanged. */
  lemma ReparentedChildren(recs: Recs, u: Uid, p: Uid)
    requires u in recs && p in recs && u != p && NoDup(recs[p].children)
    ensures Reparented(recs, u, p)[p].children == (if recs[u].parent == Some(p) then RemoveFirst(recs[p].children, u) else recs[p].children)
    ensures u !in recs[p].children ==> u !in Reparented(recs, u, p)[p].children
  {
    if recs[u].parent == Some(p) {
      RemoveFirstNoDup(recs[p].children, u);
    }
  }

  /** children.push(child) */
  function Adopted(recs: Recs, s: Uid, c: Uid): (r: Recs)
    requires s in recs
    ensures r.Keys == recs.Keys && r[s].children == recs[s].children + [c]
  {
    recs[s := recs[s].(children := recs[s].children + [c])]
  }

  /** The parent setter's guard: p is an element, not one of self's children and not self. */
  predicate ParentAccepted(recs: Recs, u: Uid, p: Entity)
    requires u in recs
  {
    p.ElementRef? && p.uid !in recs[u].children && p.uid != u
  }

  /** addChild's guard: an element, not yet a child, not self and not self's parent. */
  predicate ChildAccepted(recs: Recs, s: Uid, c: Entity)
    requires s in recs
  {
    c.ElementRef? && c.uid !in recs[s].children && c.uid != s && recs[s].parent != Some(c.uid)
  }

  /**
   * Setting the parent never lists self among p's children (line 66 hands
   * p itself to addChild, which refuses it), and when p was the parent
   * already, self even leaves p's children.
   */
  lemma ParentSetterDoesNotAdopt(recs: Recs, u: Uid, p: Uid)
    requires u in recs && p in recs && p != u && NoDup(recs[p].children)
    ensures u !in recs[p].children || recs[u].parent == Some(p) ==> u !in Reparented(recs, u, p)[p].children
    ensures recs[u].parent != Some(p) ==> Reparented(recs, u, p)[p].children == recs[p].children
  {
    if recs[u].parent == Some(p) {
      RemoveFirstNoDup(recs[p].children, u);
    }
  }

  // -------------------------------------------------------------------
  // Contents.
  // -------------------------------------------------------------------

  /** contents[named] = value (an object known only by identity exposes no properties to write). */
  function Written(v: Value, key: string, x: Value): (r: Value)
    ensures (v.Obj? || v.Arr?) && key != "length" ==> GetProp(r, key) == x
  {
    if v.Obj? || v.Arr? then SetProp(v, key, x) else v
  }

  /** Array.prototype.splice(n, 1): a negative start counts from the end. */
  function Spliced(items: seq<Value>, n: int): (r: seq<Value>)
    ensures -|items| <= n < |items| ==> |r| == |items| - 1
    ensures !(-|items| <= n < |items|) && n < 0 ==> |r| == |items| - 1 || items == []
    ensures n >= |items| ==> r == items
    ensures 0 <= n < |items| ==> r[..n] == items[..n] && r[n..] == items[n + 1..]
  {
    var start := if n < 0 then (if |items| + n < 0 then 0 else |items| + n) else (if n > |items| then |items| else n);
    if start < |items| then items[..start] + items[start + 1..] else items
  }

  /** The removeProp edit: a numeric name on array contents splices, anything else deletes. */
  function Dropped(v: Value, named: Value, key: string): (r: Value)
    ensures v.Obj? ==> r == Obj(v.fields - {key}) && GetProp(r, key) == Undefined
  {
    if v.Arr? && GetNumeric(named).Some? then Arr(Spliced(v.items, GetNumeric(named).value), v.named)
    else if v.Obj? then Obj(v.fields - {key})
    else if v.Arr? then Arr(v.items, v.named - {key})
    else v
  }

  /** props = contents._.copy(); props.children = vals */
  function WithChildren(c: Value, vals: Value): (r: Value)
    ensures GetProp(r, "children") == vals
    ensures forall k :: k != "children" ==> GetProp(r, k) == (if c.Obj? || c.Arr? then GetProp(c, k) else Undefined)
  {
    match c
    case Obj(fields) => Obj(fields["children" := vals])
    case Arr(items, named) => Arr(items, named["children" := vals])
    case _ => Obj(map["children" := vals])
  }

  /**
   * What removeElementFromIndex followed by addElementToIndex makes: e out
   * of the bucket of current (keyless when current is neither truthy nor
   * 0), then into the bucket of value.
   */
  function Refiled(tbl: Tables, u: Uid, key: string, current: Value, value: Value, hit: set<string>): (r: Tables)
    ensures r.Keys == tbl.Keys
  {
    AddedTo(RemovedFrom(tbl, ElementRef(u), key, current, hit), ElementRef(u), key, value)
  }

  /** prop(named, v) moves the element from the bucket of the old value to that of v. */
  lemma RefiledMoves(old_tbl: Tables, u: Uid, key: string, current: Value, value: Value, hit: set<string>)
    requires AllBucketsNoDup(old_tbl) && key in old_tbl
    ensures var tbl := Refiled(old_tbl, u, key, current, value, hit);
      (IndexableKey(value) ==> u in BucketAt(tbl, key, KeyOf(value))) &&
      (IndexableKey(current) && KeyOf(current) != KeyOf(value) ==> u !in BucketAt(tbl, key, KeyOf(current))) &&
      forall n :: n in old_tbl && n != key ==> tbl[n] == old_tbl[n]
  {
    if IndexableKey(current) {
      UnfiledRemoves(old_tbl, key, KeyOf(current), u);
    }
  }

  /** Contents are objects (or null, after val(null)); children and parents are elements of the arena; no repeated child. */
  predicate Linked(recs: Recs) {
    forall u :: u in recs ==> Fits(recs, recs[u])
  }

  predicate Fits(recs: Recs, rec: Rec) {
    (IsObject(rec.contents) || rec.contents.Null?) &&
    NoDup(rec.children) &&
    (forall c :: c in rec.children ==> c in recs) &&
    (rec.parent.Some? ==> rec.parent.value in recs)
  }

  /** Replacing or adding one record that fits keeps the arena linked. */
  lemma LinkedUpdate(recs: Recs, u: Uid, rec: Rec)
    requires Linked(recs) && Fits(recs[u := rec], rec)
    ensures Linked(recs[u := rec])
  {
    var r := recs[u := rec];
    forall x | x in r ensures Fits(r, r[x]) {
      if x != u {
        assert Fits(recs, recs[x]);
      }
    }
  }

  class Document {
    /** jsdom.index, shared by every element of this jsdom */
    const index: Index
    /** The elements, by uid. */
    var recs: Recs
    /** The next value _.uniqueId() hands out. */
    var nextUid: Uid

    ghost predicate Valid()
      reads this, index
    {
      index.Valid() && Linked(recs) && forall u :: u in recs ==> u < nextUid
    }

    /** An element reference always names an element of the arena. */
    predicate Known(e: Entity)
      reads this
    {
      e.ElementRef? ==> e.uid in recs
    }

    constructor (index: Index)
      requires index.Valid()
      ensures Valid() && this.index == index && recs == map[] && nextUid == 0
    {
      this.index := index;
      recs := map[];
      nextUid := 0;
    }

    /**
     * new JSDOMElement(jsdom, contents): a non-object throws; otherwise the
     * element gets a fresh uid, is filed under each indexed property of
     * its contents and then under its uid (null passes the typeof test and
     * throws while its properties are read).
     */
    method NewElement(contents: Value) returns (r: Result<Uid>)
      requires Valid()
      modifies this, index
      ensures Valid()
      ensures !IsObject(contents) ==> r.Err? && recs == old(recs) && index.tables == old(index.tables)
      ensures IsObject(contents) ==> r == Ok(old(nextUid)) && r.value !in old(recs)
      ensures IsObject(contents) ==> recs == old(recs)[r.value := Rec(contents, None, 0, [])]
      ensures IsObject(contents) ==> index.tables == AddedTo(IndexedBy(old(index.tables), contents, r.value), ElementRef(r.value), "uid", Num(r.value))
      ensures IsObject(contents) ==> multiset(BucketAt(index.tables, "uid", IntToString(r.value)))[r.value] == 1
      ensures index.lookups == old(index.lookups) && index.delims == old(index.delims)
    {
      if !IsObject(contents) && !contents.Null? {
        return Err("Error: Cannot create element from non-object");
      }
      var u := nextUid;
      nextUid := nextUid + 1;
      var throws := index.IndexAllProperties(contents, ElementRef(u));
      if throws {
        return Err("TypeError: Cannot read properties of null");
      }
      Enrol(u, contents);
      r := Ok(u);
    }

    /** The end of the constructor: the new record joins the arena and the uid index. */
    method Enrol(u: Uid, contents: Value)
      requires index.Valid() && Linked(recs) && IsObject(contents) && u !in recs && forall x :: x in recs ==> x < u
      modifies this, index
      ensures Linked(recs) && recs == old(recs)[u := Rec(contents, None, 0, [])]
      ensures index.Valid() && index.tables == AddedTo(old(index.tables), ElementRef(u), "uid", Num(u))
      ensures multiset(BucketAt(index.tables, "uid", IntToString(u)))[u] == 1
      ensures index.lookups == old(index.lookups) && index.delims == old(index.delims) && nextUid == old(nextUid)
    {
      LinkedUpdate(recs, u, Rec(contents, None, 0, []));
      recs := recs[u := Rec(contents, None, 0, [])];
      ghost var before := index.tables;
      FiledOnce(before, "uid", IntToString(u), u);
      assert KeyOf(Num(u)) == IntToString(u);
      index.AddElementToIndex(ElementRef(u), "uid", Num(u));
    }

    /** level = lvl: a truthy value or 0 re-indexes; a non-numeric one keeps the level but still leaves its level bucket. */
    method SetLevel(u: Uid, lvl: Value) returns (ghost hit: set<string>)
      requires Valid() && u in recs
      modifies this, index
      ensures Valid() && nextUid == old(nextUid)
      ensures !IndexableKey(lvl) ==> recs == old(recs) && index.tables == old(index.tables)
      ensures IndexableKey(lvl) ==>
        recs == old(recs)[u := old(recs)[u].(level := if GetNumeric(lvl).Some? then GetNumeric(lvl).value else old(recs)[u].level)] &&
        index.tables == Releveled(old(index.tables), u, old(recs)[u].level, GetNumeric(lvl), hit)
      ensures index.lookups == old(index.lookups) && index.delims == old(index.delims)
    {
      hit := {};
      if !IndexableKey(lvl) {
        return;
      }
      hit := Relevel(u, GetNumeric(lvl));
    }

    /** The level setter past its guard, for the value's number (None for NaN). */
    method Relevel(u: Uid, n: Option<int>) returns (ghost hit: set<string>)
      requires Valid() && u in recs
      modifies this, index
      ensures Valid() && nextUid == old(nextUid)
      ensures recs == old(recs)[u := old(recs)[u].(level := if n.Some? then n.value else old(recs)[u].level)]
      ensures index.tables == Releveled(old(index.tables), u, old(recs)[u].level, n, hit)
      ensures index.lookups == old(index.lookups) && index.delims == old(index.delims)
    {
      var current := recs[u].level;
      if n.Some? {
        LinkedUpdate(recs, u, recs[u].(level := n.value));
        recs := recs[u := recs[u].(level := n.value)];
      } else {
        assert recs == recs[u := recs[u].(level := current)];
      }
      hit := Reindex(u, current, n);
    }

    /** The index side of the level setter. */
    method Reindex(u: Uid, current: int, n: Option<int>) returns (ghost hit: set<string>)
      requires index.Valid()
      modifies index
      ensures index.Valid() && index.tables == Releveled(old(index.tables), u, current, n, hit)
      ensures index.lookups == old(index.lookups) && index.delims == old(index.delims)
    {
      assert KeyOf(Num(current)) == IntToString(current);
      ghost var keyed := index.RemoveElementFromIndex(ElementRef(u), "level", Num(current));
      index.AddElementToIndex(ElementRef(u), "level", NumOrNaN(n));
      ghost var moved := index.tables;
      assert moved == Moved(old(index.tables), u, current, n);
      hit := index.RemoveElementFromIndex(ElementRef(u), "delta", Undefined);
      AddDeltas(u, DeltaCount(if n.Some? then n.value else current));
    }

    /** for(var i = 0; i < count; i++) jsdom.index.addElementToIndex(self, 'delta', i) */
    method AddDeltas(u: Uid, count: nat)
      requires index.Valid()
      modifies index
      ensures index.Valid() && index.tables == DeltasAdded(old(index.tables), u, count)
      ensures index.lookups == old(index.lookups) && index.delims == old(index.delims)
    {
      var i := 0;
      while i < count
        invariant 0 <= i <= count && "delta" in old(index.tables)
        invariant index.Valid() && index.tables == DeltasAdded(old(index.tables), u, i)
        invariant index.lookups == old(index.lookups) && index.delims == old(index.delims)
      {
        ghost var before := index.tables;
        index.AddElementToIndex(ElementRef(u), "delta", Num(i));
        assert index.tables == AddedTo(before, ElementRef(u), "delta", Num(i));
        assert DeltasAdded(old(index.tables), u, i + 1) == AddedTo(DeltasAdded(old(index.tables), u, i), ElementRef(u), "delta", Num(i));
        i := i + 1;
      }
    }

    /** removeChild(child): spliced out of the children if present. */
    method RemoveChild(s: Uid, child: Entity)
      requires Valid() && s in recs
      modifies this
      ensures Valid() && nextUid == old(nextUid)
      ensures recs == old(recs)[s := old(recs)[s].(children := if child.ElementRef? then RemoveFirst(old(recs)[s].children, child.uid) else old(recs)[s].children)]
    {
      if child.ElementRef? {
        RemoveFirstNoDup(recs[s].children, child.uid);
        var rec := recs[s].(children := RemoveFirst(recs[s].children, child.uid));
        LinkedUpdate(recs, s, rec);
        recs := recs[s := rec];
      }
    }

    /** if(parent) parent.removeChild(self); parent = p; */
    method Relink(u: Uid, p: Uid)
      requires Valid() && u in recs && p in recs
      modifies this
      ensures Valid() && nextUid == old(nextUid)
      ensures recs == Detached(old(recs), u)[u := Detached(old(recs), u)[u].(parent := Some(p))]
    {
      var op := recs[u].parent;
      if op.Some? {
        RemoveChild(op.value, ElementRef(u));
      }
      assert recs == Detached(old(recs), u);
      var rec := recs[u].(parent := Some(p));
      LinkedUpdate(recs, u, rec);
      recs := recs[u := rec];
    }

    /**
     * parent = p: guarded; detaches self from the old parent, records p,
     * hands p (not self) to p.addChild, which refuses it, and sets the
     * level to p.level + 1.
     */
    method SetParent(u: Uid, p: Entity) returns (ghost hit: set<string>)
      requires Valid() && u in recs && Known(p)
      modifies this, index
      ensures Valid() && nextUid == old(nextUid)
      ensures !ParentAccepted(old(recs), u, p) ==> recs == old(recs) && index.tables == old(index.tables)
      ensures ParentAccepted(old(recs), u, p) ==>
        recs == Reparented(old(recs), u, p.uid) &&
        index.tables == Releveled(old(index.tables), u, old(recs)[u].level, Some(recs[u].level), hit)
      ensures index.lookups == old(index.lookups) && index.delims == old(index.delims)
    {
      if ParentAccepted(recs, u, p) {
        hit := Reparent(u, p.uid);
      } else {
        hit := {};
      }
    }

    /** The parent setter past its guard, with the element q as the new parent. */
    method Reparent(u: Uid, q: Uid) returns (ghost hit: set<string>)
      requires Valid() && u in recs && q in recs && ParentAccepted(recs, u, ElementRef(q))
      modifies this, index
      ensures Valid() && nextUid == old(nextUid)
      ensures recs == Reparented(old(recs), u, q)
      ensures index.tables == Releveled(old(index.tables), u, old(recs)[u].level, Some(recs[u].level), hit)
      ensures index.lookups == old(index.lookups) && index.delims == old(index.delims)
    {
      Relink(u, q);
      // p.addChild(p) refuses its own element and changes nothing
      assert !ChildAccepted(recs, q, ElementRef(q));
      ghost var r2 := recs;
      assert r2[q].level == old(recs)[q].level && r2[u].level == old(recs)[u].level;
      var lvl := Num(recs[q].level + 1);
      assert GetNumeric(lvl) == Some(old(recs)[q].level + 1);
      hit := SetLevel(u, lvl);
      assert recs == r2[u := r2[u].(level := old(recs)[q].level + 1)];
      ReparentedSteps(old(recs), u, q);
    }

    /**
     * addChild(child): guarded; sets the child's parent to self (which the
     * child may refuse, when self is one of its children) and appends it.
     */
    method AddChild(s: Uid, child: Entity) returns (ghost hit: set<string>)
      requires Valid() && s in recs && Known(child)
      modifies this, index
      ensures Valid() && nextUid == old(nextUid)
      ensures !ChildAccepted(old(recs), s, child) ==> recs == old(recs) && index.tables == old(index.tables)
      ensures ChildAccepted(old(recs), s, child) && ParentAccepted(old(recs), child.uid, ElementRef(s)) ==>
        recs == Adopted(Reparented(old(recs), child.uid, s), s, child.uid) &&
        index.tables == Releveled(old(index.tables), child.uid, old(recs)[child.uid].level, Some(recs[child.uid].level), hit)
      ensures ChildAccepted(old(recs), s, child) && !ParentAccepted(old(recs), child.uid, ElementRef(s)) ==>
        recs == Adopted(old(recs), s, child.uid) && index.tables == old(index.tables)
      ensures index.lookups == old(index.lookups) && index.delims == old(index.delims)
    {
      hit := {};
      if !ChildAccepted(recs, s, child) {
        return;
      }
      hit := Adopt(s, child.uid);
    }

    /**
     * The accepted half of addChild: child.parent(self), whose guard is
     * decided here, then children.push(child).
     */
    method Adopt(s: Uid, c: Uid) returns (ghost hit: set<string>)
      requires Valid() && s in recs && c in recs && ChildAccepted(recs, s, ElementRef(c))
      modifies this, index
      ensures Valid() && nextUid == old(nextUid)
      ensures ParentAccepted(old(recs), c, ElementRef(s)) ==>
        recs == Adopted(Reparented(old(recs), c, s), s, c) &&
        index.tables == Releveled(old(index.tables), c, old(recs)[c].level, Some(recs[c].level), hit)
      ensures !ParentAccepted(old(recs), c, ElementRef(s)) ==>
        recs == Adopted(old(recs), s, c) && index.tables == old(index.tables)
      ensures index.lookups == old(index.lookups) && index.delims == old(index.delims)
    {
      hit := {};
      if ParentAccepted(recs, c, ElementRef(s)) {
        hit := Reparent(c, s);
        ReparentedChildren(old(recs), c, s);
      }
      Push(s, c);
    }

    /** children.push(child), for a child not listed yet. */
    method Push(s: Uid, c: Uid)
      requires Valid() && s in recs && c in recs && c !in recs[s].children
      modifies this
      ensures Valid() && nextUid == old(nextUid) && recs == Adopted(old(recs), s, c)
    {
      var rec := recs[s].(children := recs[s].children + [c]);
      LinkedUpdate(recs, s, rec);
      recs := recs[s := rec];
    }

    /** prop(named): contents[named]; null contents throw. */
    function PropOf(u: Uid, named: Value): (r: Result<Value>)
      reads this
      requires u in recs
      ensures r.Err? <==> recs[u].contents.Null?
      ensures r.Ok? ==> r.value == GetProp(recs[u].contents, KeyOf(named))
    {
      if recs[u].contents.Null? then Err("TypeError: Cannot read properties of null")
      else Ok(GetProp(recs[u].contents, KeyOf(named)))
    }

    /**
     * prop(named, value): undefined reads; anything else is stored and the
     * element moves between the buckets of that index; returns self.
     */
    method Prop(u: Uid, named: Value, value: Value) returns (r: Result<Value>, ghost hit: set<string>)
      requires Valid() && u in recs
      modifies this, index
      ensures Valid() && nextUid == old(nextUid)
      ensures value.Undefined? || old(recs)[u].contents.Null? ==> recs == old(recs) && index.tables == old(index.tables)
      ensures value.Undefined? ==> r == PropOf(u, named)
      ensures !value.Undefined? ==> (r.Err? <==> old(recs)[u].contents.Null?)
      ensures !value.Undefined? && !old(recs)[u].contents.Null? ==>
        r == Ok(Ref(u)) &&
        recs == old(recs)[u := old(recs)[u].(contents := Written(old(recs)[u].contents, KeyOf(named), value))] &&
        index.tables == Refiled(old(index.tables), u, KeyOf(named), GetProp(old(recs)[u].contents, KeyOf(named)), value, hit)
      ensures !value.Undefined? && (old(recs)[u].contents.Obj? || old(recs)[u].contents.Arr?) && KeyOf(named) != "length" ==>
        PropOf(u, named) == Ok(value)
      ensures index.lookups == old(index.lookups) && index.delims == old(index.delims)
    {
      hit := {};
      if value.Undefined? {
        return PropOf(u, named), hit;
      }
      if recs[u].contents.Null? {
        return Err("TypeError: Cannot read properties of null"), hit;
      }
      var key := KeyOf(named);
      var current := GetProp(recs[u].contents, key);
      recs := recs[u := recs[u].(contents := Written(recs[u].contents, key, value))];
      hit := index.RemoveElementFromIndex(ElementRef(u), key, current);
      index.AddElementToIndex(ElementRef(u), key, value);
      r := Ok(Ref(u));
    }

    /**
     * removeProp(named): for a string or number name with a defined value,
     * the element leaves that bucket and the property goes; returns self.
     */
    method RemoveProp(u: Uid, named: Value) returns (r: Result<Value>, ghost hit: set<string>)
      requires Valid() && u in recs
      modifies this, index
      ensures Valid() && nextUid == old(nextUid)
      ensures (named.Str? || named.Num?) && old(recs)[u].contents.Null? ==> r.Err?
      ensures r.Err? ==> (named.Str? || named.Num?) && old(recs)[u].contents.Null?
      ensures !(named.Str? || named.Num?) || old(recs)[u].contents.Null? || GetProp(old(recs)[u].contents, KeyOf(named)) == Undefined ==>
        recs == old(recs) && index.tables == old(index.tables)
      ensures (named.Str? || named.Num?) && !old(recs)[u].contents.Null? && GetProp(old(recs)[u].contents, KeyOf(named)) != Undefined ==>
        recs == old(recs)[u := old(recs)[u].(contents := Dropped(old(recs)[u].contents, named, KeyOf(named)))] &&
        index.tables == RemovedFrom(old(index.tables), ElementRef(u), KeyOf(named), GetProp(old(recs)[u].contents, KeyOf(named)), hit)
      ensures index.lookups == old(index.lookups) && index.delims == old(index.delims)
    {
      r, hit := Ok(Ref(u)), {};
      if !(named.Str? || named.Num?) {
        return;
      }
      var got := PropOf(u, named);
      if got.Err? {
        return Err(got.error), hit;
      }
      var key := KeyOf(named);
      if got.value != Undefined {
        hit := index.RemoveElementFromIndex(ElementRef(u), key, got.value);
        recs := recs[u := recs[u].(contents := Dropped(recs[u].contents, named, key))];
      }
    }

    /**
     * val(): a copy of the contents whose children property lists the
     * children's val(), in order; a walk deeper than fuel (only a cycle of
     * parents and children can make one longer than the arena) is a
     * RangeError.
     */
    function ValueOf(u: Uid, fuel: nat): (r: Result<Value>)
      reads this
      requires u in recs && Linked(recs)
      ensures r.Ok? ==> forall k :: k != "children" && !recs[u].contents.Ref? ==> GetProp(r.value, k) == GetProp(recs[u].contents, k)
      ensures r.Ok? && recs[u].contents.Ref? ==> forall k :: k != "children" ==> GetProp(r.value, k) == Undefined
      ensures r.Ok? ==> exists vals :: GetProp(r.value, "children") == List(vals) && |vals| == |recs[u].children|
      ensures recs[u].contents.Null? ==> r.Err?
      decreases fuel, 0
    {
      if fuel == 0 then Err("RangeError: Maximum call stack size exceeded")
      else if recs[u].contents.Null? then Err("TypeError: Cannot set properties of null")
      else
        var vals := ChildValues(recs[u].children, fuel - 1);
        if vals.Err? then Err(vals.error)
        else Ok(WithChildren(recs[u].contents, List(vals.value)))
    }

    /** children._.every(c => props.children.push(c.val())) */
    function ChildValues(cs: seq<Uid>, fuel: nat): (r: Result<seq<Value>>)
      reads this
      requires Linked(recs) && forall c :: c in cs ==> c in recs
      ensures r.Ok? ==> |r.value| == |cs| && forall i :: 0 <= i < |cs| ==> ValueOf(cs[i], fuel) == Ok(r.value[i])
      ensures r.Err? ==> exists i :: 0 <= i < |cs| && ValueOf(cs[i], fuel).Err?
      decreases fuel, 1, |cs|
    {
      if cs == [] then Ok([])
      else
        var init := ChildValues(cs[..|cs| - 1], fuel);
        assert forall i :: 0 <= i < |cs| - 1 ==> cs[..|cs| - 1][i] == cs[i];
        if init.Err? then Err(init.error)
        else
          var last := ValueOf(cs[|cs| - 1], fuel);
          if last.Err? then Err(last.error) else Ok(init.value + [last.value])
    }

    /**
     * val(value): undefined reads; an object (or null) replaces the contents
     * and re-indexes the custom properties (null throws while its
     * properties are read); any other value is ignored.
     */
    method Val(u: Uid, value: Value) returns (r: Result<Value>)
      requires Valid() && u in recs
      modifies this, index
      ensures Valid() && nextUid == old(nextUid)
      ensures !(IsObject(value) || value.Null?) ==> recs == old(recs) && index.tables == old(index.tables)
      ensures value.Undefined? ==> r == ValueOf(u, |recs| + 1)
      ensures !value.Undefined? && !(IsObject(value) || value.Null?) ==> r == Ok(Undefined)
      ensures IsObject(value) || value.Null? ==>
        recs == old(recs)[u := old(recs)[u].(contents := value)] &&
        index.tables == IndexedBy(Purged(old(index.tables), u), value, u) &&
        (r.Err? <==> value.Null?)
      ensures index.lookups == old(index.lookups) && index.delims == old(index.delims)
    {
      if value.Undefined? {
        return ValueOf(u, |recs| + 1);
      }
      if !(IsObject(value) || value.Null?) {
        return Ok(Undefined);
      }
      recs := recs[u := recs[u].(contents := value)];
      index.RemoveFromAllCustomIndices(ElementRef(u));
      var throws := index.IndexAllProperties(value, ElementRef(u));
      r := if throws then Err("TypeError: Cannot read properties of null") else Ok(Undefined);
    }
  }

  /** indexAllPropertiesOfObjectForElement(contents, e) on what it can see. */
  function IndexedBy(tbl: Tables, contents: Value, u: Uid): (r: Tables)
    ensures r.Keys == tbl.Keys
  {
    if contents.Obj? || contents.Arr? then IndexedAll(tbl, Fields(contents), u) else tbl
  }
}
