/**
 * The element set of lib/ElementIndexer.js's ElementIndexer, which the JSDOM
 * of lib/jsdom.js keeps field for field in its closure (_elements, _by,
 * _map): the plain objects added so far, the by[name][key] buckets they are
 * filed in, and the name -> delimiter map. An object is identified by its
 * uid; its own properties are whatever the caller holds at the moment of
 * the call, so an object whose properties changed since it was added is
 * looked up under the new ones on removal.
 */
module Registry {
  import opened Values
  import opened Buckets

  /** locked (lib/ElementIndexer.js) and LOCKED_PROPERTIES (lib/jsdom.js): tables removeIndex leaves alone. */
  const LockedProperties: set<string> := {"id", "level", "delta", "selector"}

  /** { id: {}, selector: {}, level: {}, delta: {} } */
  const InitialBy: Tables := map["id" := map[], "selector" := map[], "level" := map[], "delta" := map[]]

  /** The initial map: id, wildcard, descendant and ascendant have characters; selector, delta and level are null. */
  const InitialMap: Delims :=
    [("id", Some('#')), ("wildcard", Some('*')), ("descendant", Some('>')), ("ascendant", Some('<')),
     ("selector", None), ("delta", None), ("level", None)]

  /** An argument of add or remove: a plain object (its identity and own properties), or any other value. */
  datatype Arg = Plain(id: Uid, props: map<string, Value>) | NotPlain

  /** What add and remove read and write: the element list and the buckets. */
  datatype State = State(elements: seq<Uid>, tables: Tables)

  // -------------------------------------------------------------------
  // add, as values
  // -------------------------------------------------------------------

  /**
   * How many delta buckets the loop for(i = 0; i <= e.level; i++) visits:
   * level + 1 when e.level is a number (or coerces to one) that is at least
   * 0, none when it is missing, negative or NaN.
   */
  function DeltaSpan(props: map<string, Value>): (m: nat)
    ensures m > 0 <==> "level" in props && ToNumber(props["level"]).Some? && ToNumber(props["level"]).value >= 0
    ensures m > 0 ==> m - 1 == ToNumber(props["level"]).value
  {
    if "level" !in props then 0
    else match ToNumber(props["level"])
      case Some(n) => if n >= 0 then n + 1 else 0
      case None => 0
  }

  /** if(!by[name][key]) by[name][key] = []; by[name][key].push(e) */
  function Pushed(t: Table, key: string, e: Uid): (r: Table)
    ensures r.Keys == t.Keys + {key}
  {
    t[key := (if key in t then t[key] else []) + [e]]
  }

  /**
   * The property loop of add: for every own property whose name is a table,
   * e goes to the end of the bucket of String(value), unchecked for
   * repetitions. A table is named by one property at most, so the order the
   * properties are visited in does not matter.
   */
  function PushedUnder(tables: Tables, e: Uid, props: map<string, Value>): (r: Tables)
    ensures r.Keys == tables.Keys
    ensures forall n, k :: n in tables ==>
      BucketAt(r, n, k) == BucketAt(tables, n, k) + (if n in props && k == KeyOf(props[n]) then [e] else [])
  {
    map n | n in tables :: if n in props then Pushed(tables[n], KeyOf(props[n]), e) else tables[n]
  }

  /** One round of the delta loop: by.delta[key] gets e unless it is there already. */
  function PushedDelta(tables: Tables, key: string, e: Uid): (r: Tables)
    requires "delta" in tables
    ensures r.Keys == tables.Keys && r["delta"].Keys == tables["delta"].Keys + {key}
    ensures forall n :: n in tables && n != "delta" ==> r[n] == tables[n]
  {
    tables["delta" := tables["delta"][key := PushNew(BucketAt(tables, "delta", key), e)]]
  }

  /** The keys the delta loop visits: "0" .. String(m - 1). */
  function DeltaKeys(m: nat): (ks: seq<string>)
    ensures |ks| == m && forall i :: 0 <= i < m ==> ks[i] == NatToString(i)
  {
    seq(m, i requires 0 <= i => NatToString(i))
  }

  lemma DeltaKeysSnoc(i: nat)
    ensures DeltaKeys(i + 1) == DeltaKeys(i) + [NatToString(i)]
  {
  }

  /** Rounds of the delta loop over the given keys, in order. */
  function DeltaFilled(tables: Tables, e: Uid, keys: seq<string>): (r: Tables)
    requires "delta" in tables
    ensures r.Keys == tables.Keys
    ensures forall n :: n in tables && n != "delta" ==> r[n] == tables[n]
  {
    if keys == [] then tables else PushedDelta(DeltaFilled(tables, e, keys[..|keys| - 1]), keys[|keys| - 1], e)
  }

  lemma PushedDeltaAt(tables: Tables, key: string, e: Uid, k: string)
    requires "delta" in tables
    ensures BucketAt(PushedDelta(tables, key, e), "delta", k) == if k == key then PushNew(BucketAt(tables, "delta", k), e) else BucketAt(tables, "delta", k)
  {
  }

  /** A round of the delta loop only adds: what a delta bucket held it still holds, and e is in the round's bucket. */
  lemma PushedDeltaKeeps(tables: Tables, key: string, e: Uid, k: string)
    requires "delta" in tables
    ensures forall x :: x in BucketAt(tables, "delta", k) ==> x in BucketAt(PushedDelta(tables, key, e), "delta", k)
    ensures k == key ==> e in BucketAt(PushedDelta(tables, key, e), "delta", k)
  {
    PushedDeltaAt(tables, key, e, k);
  }

  /** The statements of one round of the delta loop compute PushedDelta. */
  lemma DeltaRound(tables: Tables, key: string, e: Uid, bucket: Bucket)
    requires "delta" in tables
    requires bucket == (var b := if key in tables["delta"] then tables["delta"][key] else []; if IndexOf(b, e) == -1 then b + [e] else b)
    ensures tables["delta" := tables["delta"][key := bucket]] == PushedDelta(tables, key, e)
  {
  }

  /**
   * add(e) for one argument: a plain object not yet in the set is appended
   * to it, pushed under its indexed properties and filed in the delta
   * buckets 0 .. level; anything else changes nothing.
   */
  function Added(s: State, a: Arg): (r: State)
    requires "delta" in s.tables
    ensures r.tables.Keys == s.tables.Keys
  {
    if a.Plain? && a.id !in s.elements then
      State(s.elements + [a.id], DeltaFilled(PushedUnder(s.tables, a.id, a.props), a.id, DeltaKeys(DeltaSpan(a.props))))
    else s
  }

  /** add(a1, ..., an): the arguments one after the other. */
  function AddedAll(s: State, args: seq<Arg>): (r: State)
    requires "delta" in s.tables
    ensures r.tables.Keys == s.tables.Keys
  {
    if args == [] then s else Added(AddedAll(s, args[..|args| - 1]), args[|args| - 1])
  }

  // -------------------------------------------------------------------
  // remove, as values
  // -------------------------------------------------------------------

  /**
   * The property loop of remove: for every own property whose name is a
   * table holding a bucket for String(value), the first occurrence of e is
   * spliced out of that bucket.
   */
  function Unpushed(tables: Tables, e: Uid, props: map<string, Value>): (r: Tables)
    ensures r.Keys == tables.Keys
    ensures forall n, k :: n in tables ==>
      BucketAt(r, n, k) == if n in props && k == KeyOf(props[n]) then RemoveFirst(BucketAt(tables, n, k), e) else BucketAt(tables, n, k)
  {
    map n | n in tables ::
      if n in props && KeyOf(props[n]) in tables[n] then tables[n][KeyOf(props[n]) := RemoveFirst(tables[n][KeyOf(props[n])], e)]
      else tables[n]
  }

  /** The table n after remove's property loop, for a property n of the object. */
  function UnpushedTable(tables: Tables, e: Uid, props: map<string, Value>, n: string): Table
    requires n in tables && n in props
  {
    if KeyOf(props[n]) in tables[n] then tables[n][KeyOf(props[n]) := RemoveFirst(tables[n][KeyOf(props[n])], e)]
    else tables[n]
  }

  /** Tables that agree with UnpushedTable on the object's properties and are kept elsewhere are Unpushed. */
  lemma UnpushedTables(tables: Tables, e: Uid, props: map<string, Value>, t: Tables)
    requires t.Keys == tables.Keys
    requires forall n :: n in tables ==> t[n] == if n in props then UnpushedTable(tables, e, props, n) else tables[n]
    ensures t == Unpushed(tables, e, props)
  {
  }

  /** remove(e) for one argument: only a plain object in the set is taken out. */
  function Removed(s: State, a: Arg): (r: State)
    ensures r.tables.Keys == s.tables.Keys
  {
    if a.Plain? && a.id in s.elements then State(RemoveFirst(s.elements, a.id), Unpushed(s.tables, a.id, a.props))
    else s
  }

  function RemovedAll(s: State, args: seq<Arg>): (r: State)
    ensures r.tables.Keys == s.tables.Keys
  {
    if args == [] then s else Removed(RemovedAll(s, args[..|args| - 1]), args[|args| - 1])
  }

  // -------------------------------------------------------------------
  // What add and remove guarantee.
  // -------------------------------------------------------------------

  /** An object is added at most once: a second add of it changes nothing. */
  lemma AddedIdempotent(s: State, a: Arg)
    requires "delta" in s.tables
    ensures Added(Added(s, a), a) == Added(s, a)
  {
  }

  /** After add the object is in the set exactly once, and the set keeps no repetitions. */
  lemma AddedOnce(s: State, a: Arg)
    requires "delta" in s.tables && NoDup(s.elements)
    ensures NoDup(Added(s, a).elements)
    ensures a.Plain? ==> multiset(Added(s, a).elements)[a.id] == 1
    ensures a.NotPlain? ==> Added(s, a) == s
  {
    if a.Plain? && a.id !in s.elements {
      PushNewNoDup(s.elements, a.id);
    }
    if a.Plain? {
      NoDupCountsOnce(Added(s, a).elements, a.id);
    }
  }

  /** In a list without repetitions every member occurs once. */
  lemma NoDupCountsOnce<T>(s: seq<T>, x: T)
    requires NoDup(s) && x in s
    ensures multiset(s)[x] == 1
  {
    var i :| 0 <= i < |s| && s[i] == x;
    assert s == s[..i] + [x] + s[i + 1..];
    assert x !in s[..i] && x !in s[i + 1..] by {
      forall j | 0 <= j < |s| && j != i ensures s[j] != x {}
    }
    assert multiset(s) == multiset(s[..i]) + multiset{x} + multiset(s[i + 1..]);
  }

  /**
   * A new object goes to the end of the bucket of each indexed property's
   * value, and every other bucket outside the delta table is as it was.
   */
  lemma AddedFiles(s: State, a: Arg, n: string, k: string)
    requires "delta" in s.tables && a.Plain? && a.id !in s.elements
    requires n in s.tables && n != "delta"
    ensures BucketAt(Added(s, a).tables, n, k) == BucketAt(s.tables, n, k) + (if n in a.props && k == KeyOf(a.props[n]) then [a.id] else [])
  {
  }

  /** A new object with level l is in every delta bucket 0 .. l. */
  lemma AddedDelta(s: State, a: Arg, i: nat)
    requires "delta" in s.tables && a.Plain? && a.id !in s.elements
    requires i < DeltaSpan(a.props)
    ensures a.id in BucketAt(Added(s, a).tables, "delta", NatToString(i))
  {
    DeltaFilledHas(PushedUnder(s.tables, a.id, a.props), a.id, DeltaKeys(DeltaSpan(a.props)), i);
  }

  lemma {:induction false} DeltaFilledHas(tables: Tables, e: Uid, keys: seq<string>, i: nat)
    requires "delta" in tables && i < |keys|
    ensures e in BucketAt(DeltaFilled(tables, e, keys), "delta", keys[i])
  {
    var init := keys[..|keys| - 1];
    PushedDeltaKeeps(DeltaFilled(tables, e, init), keys[|keys| - 1], e, keys[i]);
    if i < |keys| - 1 {
      assert keys[i] == init[i];
      DeltaFilledHas(tables, e, init, i);
    }
  }

  /**
   * The delta loop adds e to a bucket only when it is missing there, so a
   * delta bucket without repetitions keeps none, and gains e at most.
   */
  lemma {:induction false} DeltaFilledNoDup(tables: Tables, e: Uid, keys: seq<string>, k: string)
    requires "delta" in tables && NoDup(BucketAt(tables, "delta", k))
    ensures NoDup(BucketAt(DeltaFilled(tables, e, keys), "delta", k))
    ensures var b := BucketAt(DeltaFilled(tables, e, keys), "delta", k); b == BucketAt(tables, "delta", k) || b == BucketAt(tables, "delta", k) + [e]
  {
    if keys != [] {
      var p := DeltaFilled(tables, e, keys[..|keys| - 1]);
      DeltaFilledNoDup(tables, e, keys[..|keys| - 1], k);
      PushedDeltaAt(p, keys[|keys| - 1], e, k);
      if k == keys[|keys| - 1] {
        PushNewNoDup(BucketAt(p, "delta", k), e);
      }
    }
  }

  /** remove takes the object out of the set; a set without repetitions no longer holds it. */
  lemma RemovedFromSet(s: State, a: Arg)
    requires NoDup(s.elements)
    ensures NoDup(Removed(s, a).elements)
    ensures a.Plain? ==> a.id !in Removed(s, a).elements
    ensures multiset(Removed(s, a).elements) ==
      if a.Plain? && a.id in s.elements then multiset(s.elements) - multiset{a.id} else multiset(s.elements)
  {
    if a.Plain? && a.id in s.elements {
      RemoveFirstNoDup(s.elements, a.id);
      var i := IndexOf(s.elements, a.id);
      assert s.elements == s.elements[..i] + [a.id] + s.elements[i + 1..];
      assert multiset(s.elements) == multiset(s.elements[..i]) + multiset{a.id} + multiset(s.elements[i + 1..]);
    }
  }

  /** Unless the object has a delta property of its own, remove leaves the delta table alone. */
  lemma RemovedKeepsDelta(s: State, a: Arg)
    requires "delta" in s.tables && (a.Plain? ==> "delta" !in a.props)
    ensures "delta" in Removed(s, a).tables && Removed(s, a).tables["delta"] == s.tables["delta"]
  {
  }

  /**
   * Removing an object just added, with the same properties, restores the
   * set and every bucket outside the delta table (a missing bucket reads as
   * an empty one); the delta buckets keep the object.
   */
  lemma RemoveUndoesAdd(s: State, a: Arg, n: string, k: string)
    requires "delta" in s.tables && a.Plain? && a.id !in s.elements && "delta" !in a.props
    requires forall n', k' :: n' in s.tables && k' in s.tables[n'] ==> a.id !in s.tables[n'][k']
    requires n in s.tables && n != "delta"
    ensures Removed(Added(s, a), a).elements == s.elements
    ensures BucketAt(Removed(Added(s, a), a).tables, n, k) == BucketAt(s.tables, n, k)
    ensures Removed(Added(s, a), a).tables["delta"] == Added(s, a).tables["delta"]
  {
    AppendRemoveFirst(s.elements, a.id);
    RemoveUndoesPush(s, a, n, k);
  }

  lemma RemoveUndoesPush(s: State, a: Arg, n: string, k: string)
    requires "delta" in s.tables && a.Plain? && a.id !in s.elements
    requires forall n', k' :: n' in s.tables && k' in s.tables[n'] ==> a.id !in s.tables[n'][k']
    requires n in s.tables && n != "delta"
    ensures BucketAt(Unpushed(Added(s, a).tables, a.id, a.props), n, k) == BucketAt(s.tables, n, k)
  {
    var b := BucketAt(s.tables, n, k);
    assert BucketAt(Added(s, a).tables, n, k) == BucketAt(PushedUnder(s.tables, a.id, a.props), n, k);
    if n in a.props && k == KeyOf(a.props[n]) {
      AppendRemoveFirst(b, a.id);
    }
  }

  lemma AppendRemoveFirst<T>(b: seq<T>, x: T)
    requires x !in b
    ensures RemoveFirst(b + [x], x) == b
  {
    assert (b + [x])[..|b|] == b;
  }

  // -------------------------------------------------------------------
  // The store.
  // -------------------------------------------------------------------

  class Store {
    /** elements / _elements, identified by uid */
    var elements: seq<Uid>
    /** by / _by; with[name] exists exactly when by[name] does, so it is not kept apart */
    var tables: Tables
    /** map / _map */
    var delims: Delims

    ghost predicate Valid()
      reads this
    {
      NoDup(elements) && LockedProperties <= tables.Keys
    }

    function Contents(): (s: State)
      reads this
      ensures s.elements == elements && s.tables == tables
    {
      State(elements, tables)
    }

    constructor ()
      ensures Valid() && elements == [] && tables == InitialBy && delims == InitialMap
    {
      elements := [];
      tables := InitialBy;
      delims := InitialMap;
    }

    /** empty(): the callback rebinds its parameter, so only the element list is reset. */
    method Empty()
      requires Valid()
      modifies this`elements
      ensures Valid() && elements == []
    {
      elements := [];
    }

    /** The property loop of add. */
    method PushProps(e: Uid, props: map<string, Value>)
      modifies this`tables
      ensures tables == PushedUnder(old(tables), e, props)
    {
      ghost var target := PushedUnder(tables, e, props);
      var t := tables;
      var todo := props.Keys;
      while todo != {}
        invariant todo <= props.Keys && t.Keys == tables.Keys
        invariant forall n :: n in tables ==> t[n] == if n in props && n !in todo then target[n] else tables[n]
        modifies {}
        decreases |todo|
      {
        var n :| n in todo;
        if n in t {
          t := t[n := Pushed(t[n], KeyOf(props[n]), e)];
        }
        todo := todo - {n};
      }
      assert t == target;
      tables := t;
    }

    /** for(var i = 0; i <= e.level; i++) { ... push into by.delta[i] unless there ... } */
    method FillDelta(e: Uid, m: nat)
      requires "delta" in tables
      modifies this`tables
      ensures tables == DeltaFilled(old(tables), e, DeltaKeys(m))
    {
      var t := tables;
      var i := 0;
      while i < m
        invariant i <= m && "delta" in t && t == DeltaFilled(tables, e, DeltaKeys(i))
        modifies {}
      {
        var key := NatToString(i);
        var bucket := if key in t["delta"] then t["delta"][key] else [];
        if IndexOf(bucket, e) == -1 {
          bucket := bucket + [e];
        }
        DeltaRound(t, key, e, bucket);
        t := t["delta" := t["delta"][key := bucket]];
        DeltaKeysSnoc(i);
        i := i + 1;
      }
      tables := t;
    }

    /** add(e) for one argument. */
    method AddOne(a: Arg)
      requires Valid()
      modifies this`elements, this`tables
      ensures Valid() && Contents() == Added(old(Contents()), a)
    {
      if a.Plain? && IndexOf(elements, a.id) == -1 {
        PushNewNoDup(elements, a.id);
        elements := elements + [a.id];
        PushProps(a.id, a.props);
        FillDelta(a.id, DeltaSpan(a.props));
      }
    }

    /** add(a1, ..., an): every callback returns undefined, so every argument is visited. */
    method Add(args: seq<Arg>)
      requires Valid()
      modifies this`elements, this`tables
      ensures Valid() && Contents() == AddedAll(old(Contents()), args)
    {
      var i := 0;
      while i < |args|
        invariant i <= |args| && Valid()
        invariant Contents() == AddedAll(old(Contents()), args[..i])
      {
        AddOne(args[i]);
        assert args[..i + 1][..i] == args[..i];
        i := i + 1;
      }
      assert args[..|args|] == args;
    }

    /** The property loop of remove. */
    method UnpushProps(e: Uid, props: map<string, Value>)
      modifies this`tables
      ensures tables == Unpushed(old(tables), e, props)
    {
      var t := tables;
      var todo := props.Keys;
      while todo != {}
        invariant todo <= props.Keys && t.Keys == tables.Keys
        invariant forall n :: n in tables ==> t[n] == if n in props && n !in todo then UnpushedTable(tables, e, props, n) else tables[n]
        modifies {}
        decreases |todo|
      {
        var n :| n in todo;
        if n in t && KeyOf(props[n]) in t[n] {
          var key := KeyOf(props[n]);
          t := t[n := t[n][key := RemoveFirst(t[n][key], e)]];
        }
        todo := todo - {n};
      }
      UnpushedTables(tables, e, props, t);
      tables := t;
    }

    /** remove(e) for one argument. */
    method RemoveOne(a: Arg)
      requires Valid()
      modifies this`elements, this`tables
      ensures Valid() && Contents() == Removed(old(Contents()), a)
    {
      if a.Plain? && IndexOf(elements, a.id) > -1 {
        var i := IndexOf(elements, a.id);
        RemoveFirstNoDup(elements, a.id);
        elements := elements[..i] + elements[i + 1..];
        UnpushProps(a.id, a.props);
      }
    }

    method Remove(args: seq<Arg>)
      requires Valid()
      modifies this`elements, this`tables
      ensures Valid() && Contents() == RemovedAll(old(Contents()), args)
    {
      var i := 0;
      while i < |args|
        invariant i <= |args| && Valid()
        invariant Contents() == RemovedAll(old(Contents()), args[..i])
      {
        RemoveOne(args[i]);
        assert args[..i + 1][..i] == args[..i];
        i := i + 1;
      }
      assert args[..|args|] == args;
    }

    /**
     * addIndex(name, delimiter): the six checks first, with nothing changed
     * when one fails; then the delimiter, when given, is recorded, and a
     * table (with its with entry) is created only for a new name.
     */
    method AddIndex(name: Value, delimiter: Value) returns (r: Option<AddIndexError>)
      requires Valid()
      modifies this`tables, this`delims
      ensures Valid() && elements == old(elements)
      ensures CheckAddIndex(name, delimiter, old(delims)).Rejected? ==>
        r == Some(CheckAddIndex(name, delimiter, old(delims)).reason) && tables == old(tables) && delims == old(delims)
      ensures CheckAddIndex(name, delimiter, old(delims)).Accepted? ==>
        r.None? && tables == (if name.s in old(tables) then old(tables) else old(tables)[name.s := map[]])
      ensures CheckAddIndex(name, delimiter, old(delims)).Accepted? ==>
        delims == (match CheckAddIndex(name, delimiter, old(delims)).delimiter
          case Some(c) => SetDelim(old(delims), name.s, c)
          case None => old(delims))
    {
      var checked := CheckAddIndex(name, delimiter, delims);
      if checked.Rejected? {
        return Some(checked.reason);
      }
      if checked.delimiter.Some? {
        delims := SetDelim(delims, name.s, checked.delimiter.value);
      }
      if name.s !in tables {
        tables := tables[name.s := map[]];
      }
      r := None;
    }

    /** removeIndex(name): a string that is not locked loses its table, its with entry and its delimiter. */
    method RemoveIndex(name: Value)
      requires Valid()
      modifies this`tables, this`delims
      ensures Valid() && elements == old(elements)
      ensures name.Str? && name.s !in LockedProperties ==> tables == old(tables) - {name.s} && delims == RemoveDelim(old(delims), name.s)
      ensures !(name.Str? && name.s !in LockedProperties) ==> tables == old(tables) && delims == old(delims)
    {
      if name.Str? && name.s !in LockedProperties {
        tables := tables - {name.s};
        delims := RemoveDelim(delims, name.s);
      }
    }
  }
}
