/**
 * lib/JSDOMIndex.js: the property index every element registers itself in.
 * by[name][key] holds the elements whose property name has the value whose
 * property key is key; with[name] reads a bucket; map gives each index the
 * delimiter character a selector writes it with. The uid, level and delta
 * indices are always present and cannot be removed.
 */
module PropertyIndex {
  import opened Values
  import opened Buckets

  /** LOCKED_INDICES */
  const Locked: set<string> := {"uid", "level", "delta"}

  // -------------------------------------------------------------------
  // The table operations, as values.
  // -------------------------------------------------------------------

  /** addElementToIndex once its guard holds: create the bucket if needed, then push e unless it is there. */
  function Filed(tbl: Tables, name: string, key: string, e: Uid): (r: Tables)
    requires name in tbl
    ensures r.Keys == tbl.Keys && r[name].Keys == tbl[name].Keys + {key}
    ensures e in r[name][key]
    ensures forall n :: n in tbl && n != name ==> r[n] == tbl[n]
    ensures forall k :: k in tbl[name] && k != key ==> r[name][k] == tbl[name][k]
  {
    tbl[name := tbl[name][key := PushNew(BucketAt(tbl, name, key), e)]]
  }

  /** The keyed removal: splice e out of tbl[name][key] when that bucket exists. */
  function Unfiled(tbl: Tables, name: string, key: string, e: Uid): (r: Tables)
    requires name in tbl
    ensures r.Keys == tbl.Keys && r[name].Keys == tbl[name].Keys
    ensures forall n :: n in tbl && n != name ==> r[n] == tbl[n]
    ensures forall k :: k in tbl[name] && k != key ==> r[name][k] == tbl[name][k]
  {
    if key in tbl[name] then tbl[name := tbl[name][key := RemoveFirst(tbl[name][key], e)]] else tbl
  }

  /** empty(): every index keeps its name and loses its buckets. */
  function Cleared(tbl: Tables): (r: Tables)
    ensures r.Keys == tbl.Keys && forall n :: n in r ==> r[n] == map[]
  {
    map n | n in tbl :: map[]
  }

  /** removeFromAllCustomIndices(e): e spliced out of every bucket of every index but the locked ones. */
  function Purged(tbl: Tables, e: Uid): (r: Tables)
    ensures r.Keys == tbl.Keys
    ensures forall n :: n in tbl && n in Locked ==> r[n] == tbl[n]
    ensures forall n :: n in tbl && n !in Locked ==> r[n] == PurgedTable(tbl[n], e)
  {
    map n | n in tbl :: if n in Locked then tbl[n] else PurgedTable(tbl[n], e)
  }

  function PurgedTable(t: Table, e: Uid): (r: Table)
    ensures r.Keys == t.Keys && forall k :: k in t ==> r[k] == RemoveFirst(t[k], e)
  {
    map k | k in t :: RemoveFirst(t[k], e)
  }

  /** key || key === 0 */
  predicate IndexableKey(key: Value) {
    Truthy(key) || key == Num(0)
  }

  /**
   * indexAllPropertiesOfObjectForElement: for every own property whose name
   * is an index and whose value is indexable, e goes into the bucket of that
   * value. Each index is touched by one property at most, so the order of
   * the properties does not matter.
   */
  function IndexedAll(tbl: Tables, fields: map<string, Value>, e: Uid): (r: Tables)
    ensures r.Keys == tbl.Keys
  {
    map n | n in tbl :: if n in fields && IndexableKey(fields[n]) then tbl[n][KeyOf(fields[n]) := PushNew(BucketAt(tbl, n, KeyOf(fields[n])), e)] else tbl[n]
  }

  /**
   * removeIndex's guard, typeof name === 'string' and name not in the lock
   * list, against a lock list that may be undefined (None): looking a string
   * up in an undefined list throws a TypeError, the Err case. Ok(true) means
   * the index is removed, Ok(false) that nothing happens.
   */
  function RemovalGuard(name: Value, lockList: Option<set<string>>): (r: Result<bool>)
    ensures r.Err? <==> name.Str? && lockList.None?
    ensures r == Ok(true) <==> name.Str? && lockList.Some? && name.s !in lockList.value
  {
    if !name.Str? then Ok(false)
    else if lockList.None? then Err("TypeError: Cannot read property 'indexOf' of undefined")
    else Ok(name.s !in lockList.value)
  }

  /**
   * The contrast the undefined list makes: a string name that is not locked,
   * "foo" among them, throws as written, while against LOCKED_INDICES
   * (line 8) it is removed; a locked name is kept by the corrected guard.
   */
  lemma RemovalGuardContrast(name: string)
    ensures name !in Locked ==> RemovalGuard(Str(name), None).Err? && RemovalGuard(Str(name), Some(Locked)) == Ok(true)
    ensures name in Locked ==> RemovalGuard(Str(name), None).Err? && RemovalGuard(Str(name), Some(Locked)) == Ok(false)
  {
  }

  /** The keys a bucket of elements prints as: String(bucket) is "" or starts with "[object Object]". */
  predicate IsJoinKey(k: string) {
    k == "" || k[0] == '['
  }

  /**
   * The keyless removal on one table: the walk passes each bucket itself as
   * the key, so it can only splice e out of buckets whose key a bucket of
   * elements prints as. Which of those it reaches depends on the order it
   * visits the keys in (and on the sizes the earlier visits leave), so the
   * model takes the set hit of keys it spliced under as a parameter.
   */
  function Keyless(t: Table, e: Uid, hit: set<string>): (r: Table)
    ensures r.Keys == t.Keys
  {
    map k | k in t :: if k in hit && IsJoinKey(k) then RemoveFirst(t[k], e) else t[k]
  }

  /** addElementToIndex(e, name, key): only an element, only an existing index, only a key that is truthy or 0. */
  function AddedTo(tbl: Tables, e: Entity, name: string, key: Value): (r: Tables)
    ensures r.Keys == tbl.Keys
    ensures e.ElementRef? && name in tbl && IndexableKey(key) ==> KeyOf(key) in r[name] && e.uid in r[name][KeyOf(key)]
    ensures forall n :: n in tbl && n != name ==> r[n] == tbl[n]
  {
    if e.ElementRef? && name in tbl && IndexableKey(key) then Filed(tbl, name, KeyOf(key), e.uid) else tbl
  }

  /**
   * removeElementFromIndex(e, name, key): with a key (truthy or 0) e is
   * spliced out of that one bucket; without one, the table of that index
   * goes through the keyless walk, which spliced under the keys of hit.
   */
  function RemovedFrom(tbl: Tables, e: Entity, name: string, key: Value, hit: set<string>): (r: Tables)
    ensures r.Keys == tbl.Keys
    ensures forall n :: n in tbl && n != name ==> r[n] == tbl[n]
  {
    if !e.ElementRef? || name !in tbl then tbl
    else if IndexableKey(key) then Unfiled(tbl, name, KeyOf(key), e.uid)
    else tbl[name := Keyless(tbl[name], e.uid, hit)]
  }

  // -------------------------------------------------------------------
  // What the operations guarantee.
  // -------------------------------------------------------------------

  /** Adding an element twice is adding it once. */
  lemma FiledIdempotent(tbl: Tables, name: string, key: string, e: Uid)
    requires name in tbl
    ensures Filed(Filed(tbl, name, key, e), name, key, e) == Filed(tbl, name, key, e)
  {
    var once := Filed(tbl, name, key, e);
    assert BucketAt(once, name, key) == PushNew(BucketAt(tbl, name, key), e);
    PushNewIdempotent(BucketAt(tbl, name, key), e);
    assert Filed(once, name, key, e)[name] == once[name];
  }

  /** After the add the element is in its bucket exactly once, and no bucket gains a repetition. */
  lemma FiledOnce(tbl: Tables, name: string, key: string, e: Uid)
    requires name in tbl && AllBucketsNoDup(tbl)
    ensures AllBucketsNoDup(Filed(tbl, name, key, e))
    ensures multiset(Filed(tbl, name, key, e)[name][key])[e] == 1
  {
    var b := BucketAt(tbl, name, key);
    PushNewNoDup(b, e);
    NoDupCount(PushNew(b, e), e);
  }

  lemma NoDupCount<T>(s: seq<T>, x: T)
    requires NoDup(s) && x in s
    ensures multiset(s)[x] == 1
  {
    var i :| 0 <= i < |s| && s[i] == x;
    assert s == s[..i] + [x] + s[i + 1..];
    assert x !in s[..i] && x !in s[i + 1..] by {
      forall j | 0 <= j < |s| && j != i ensures s[j] != x { }
    }
  }

  /** The keyed removal takes e out of its bucket and keeps the other elements there. */
  lemma UnfiledRemoves(tbl: Tables, name: string, key: string, e: Uid)
    requires name in tbl && AllBucketsNoDup(tbl)
    ensures AllBucketsNoDup(Unfiled(tbl, name, key, e))
    ensures e !in BucketAt(Unfiled(tbl, name, key, e), name, key)
    ensures forall y :: y != e ==> (y in BucketAt(Unfiled(tbl, name, key, e), name, key) <==> y in BucketAt(tbl, name, key))
  {
    if key in tbl[name] {
      RemoveFirstNoDup(tbl[name][key], e);
    }
  }

  /** Removing what was just added restores the bucket, when the element was not in it before. */
  lemma FiledThenUnfiled(tbl: Tables, name: string, key: string, e: Uid)
    requires name in tbl && e !in BucketAt(tbl, name, key)
    ensures BucketAt(Unfiled(Filed(tbl, name, key, e), name, key, e), name, key) == BucketAt(tbl, name, key)
  {
    var b := BucketAt(tbl, name, key);
    assert IndexOf(b + [e], e) == |b|;
    assert (b + [e])[..|b|] == b;
  }

  /** After the purge no custom bucket holds e; locked indices and the other elements stay. */
  lemma PurgedRemoves(tbl: Tables, e: Uid)
    requires AllBucketsNoDup(tbl)
    ensures AllBucketsNoDup(Purged(tbl, e))
    ensures forall n, k :: n in tbl && n !in Locked && k in tbl[n] ==> e !in Purged(tbl, e)[n][k]
    ensures forall n, k, y :: n in tbl && k in tbl[n] && y != e ==> (y in Purged(tbl, e)[n][k] <==> y in tbl[n][k])
  {
    forall n, k | n in tbl && k in tbl[n] {
      RemoveFirstNoDup(tbl[n][k], e);
    }
  }

  /**
   * Whatever the walk hits, each bucket is either what it was or has e
   * spliced out, the latter only under a key a bucket of elements prints
   * as; e is then gone from there and every other element stays.
   */
  lemma KeylessOutcome(t: Table, e: Uid, hit: set<string>)
    requires forall k :: k in t ==> NoDup(t[k])
    ensures forall k :: k in t && !IsJoinKey(k) ==> Keyless(t, e, hit)[k] == t[k]
    ensures forall k :: k in t && k in hit && IsJoinKey(k) ==> e !in Keyless(t, e, hit)[k] && NoDup(Keyless(t, e, hit)[k])
    ensures forall k, y :: k in t && y != e ==> (y in Keyless(t, e, hit)[k] <==> y in t[k])
  {
    forall k | k in t {
      RemoveFirstNoDup(t[k], e);
    }
  }

  /** The keyless removal changes nothing in a table whose keys are all numerals (level, delta). */
  lemma KeylessLeavesNumerals(t: Table, e: Uid, hit: set<string>)
    requires forall k :: k in t ==> exists i: int :: k == IntToString(i)
    ensures Keyless(t, e, hit) == t
  {
    forall k | k in t ensures !IsJoinKey(k) {
      var i: int :| k == IntToString(i);
      if i >= 0 {
        assert k == NatToString(i);
      } else {
        assert k[0] == '-';
      }
    }
  }

  /** Splicing under one more key continues the walk: Keyless absorbs a repeated removal of e. */
  lemma KeylessMore(t: Table, e: Uid, hit: set<string>, k: string)
    requires forall j :: j in t ==> NoDup(t[j])
    requires k in t && IsJoinKey(k)
    ensures Keyless(t, e, hit)[k := RemoveFirst(Keyless(t, e, hit)[k], e)] == Keyless(t, e, hit + {k})
  {
    var before, after := Keyless(t, e, hit), Keyless(t, e, hit + {k});
    var spliced := before[k := RemoveFirst(before[k], e)];
    RemoveFirstTwice(t[k], e);
    assert spliced[k] == after[k];
    forall j | j in t && j != k ensures spliced[j] == after[j] {
      assert (j in hit) == (j in hit + {k});
    }
    assert spliced.Keys == after.Keys;
  }

  lemma RemoveFirstTwice(s: seq<Uid>, e: Uid)
    requires NoDup(s)
    ensures RemoveFirst(RemoveFirst(s, e), e) == RemoveFirst(s, e)
  {
    RemoveFirstNoDup(s, e);
  }

  /** An indexed property puts e in the bucket of its value; every other bucket stays. */
  lemma IndexedAllFiles(tbl: Tables, fields: map<string, Value>, e: Uid, n: string)
    requires n in tbl && n in fields && IndexableKey(fields[n])
    ensures e in IndexedAll(tbl, fields, e)[n][KeyOf(fields[n])]
    ensures forall k :: k in tbl[n] && k != KeyOf(fields[n]) ==> IndexedAll(tbl, fields, e)[n][k] == tbl[n][k]
  {
    assert IndexedAll(tbl, fields, e)[n] == Filed(tbl, n, KeyOf(fields[n]), e)[n];
  }

  /** An index that no property names is left alone. */
  lemma IndexedAllSkips(tbl: Tables, fields: map<string, Value>, e: Uid, n: string)
    requires n in tbl && (n !in fields || !IndexableKey(fields[n]))
    ensures IndexedAll(tbl, fields, e)[n] == tbl[n]
  {
  }

  // -------------------------------------------------------------------
  // The index object.
  // -------------------------------------------------------------------

  class Index {
    /** by: index name, then property key, then the elements filed there */
    var tables: Tables
    /** with: which names have a lookup, and of which kind */
    var lookups: map<string, Lookup>
    /** map */
    var delims: Delims

    /** The locked indices exist, every index has a bucket lookup, and no bucket repeats an element. */
    ghost predicate Valid()
      reads this
    {
      (forall n :: n in Locked ==> n in tables) &&
      (forall n :: n in tables ==> n in lookups && lookups[n] == BucketLookup) &&
      AllBucketsNoDup(tables)
    }

    constructor ()
      ensures Valid()
      ensures tables == map["uid" := map[], "level" := map[], "delta" := map[]]
      ensures lookups == map["uid" := BucketLookup, "level" := BucketLookup, "delta" := BucketLookup, "selector" := SelectorLookup]
      ensures delims == [("wildcard", Some('*')), ("descendant", Some('>')), ("ascendant", Some('<'))]
    {
      tables := map["uid" := map[], "level" := map[], "delta" := map[]];
      lookups := map["uid" := BucketLookup, "level" := BucketLookup, "delta" := BucketLookup, "selector" := SelectorLookup];
      delims := [("wildcard", Some('*')), ("descendant", Some('>')), ("ascendant", Some('<'))];
    }

    /**
     * addIndex(name, delimiter): every check runs before anything changes;
     * on success the delimiter is recorded when given, and a table and a
     * lookup are created only for a new name.
     */
    method AddIndex(name: Value, delimiter: Value) returns (r: Checked)
      requires Valid()
      modifies this
      ensures Valid()
      ensures r == CheckAddIndex(name, delimiter, old(delims))
      ensures r.Rejected? ==> tables == old(tables) && lookups == old(lookups) && delims == old(delims)
      ensures r.Accepted? ==> delims == (if r.delimiter.Some? then SetDelim(old(delims), name.s, r.delimiter.value) else old(delims))
      ensures r.Accepted? ==> tables == (if name.s in old(tables) then old(tables) else old(tables)[name.s := map[]])
      ensures r.Accepted? ==> lookups == (if name.s in old(tables) then old(lookups) else old(lookups)[name.s := BucketLookup])
    {
      r := CheckAddIndex(name, delimiter, delims);
      if r.Rejected? {
        return;
      }
      if r.delimiter.Some? {
        delims := SetDelim(delims, name.s, r.delimiter.value);
      }
      if name.s !in tables {
        tables := tables[name.s := map[]];
        lookups := lookups[name.s := BucketLookup];
      }
    }

    /**
     * removeIndex as written: its guard reads JSDOMConstants.LOCKED_PROPERTIES,
     * which is undefined, so any string name throws a TypeError before
     * anything is removed; any other argument does nothing.
     */
    method RemoveIndexAsWritten(name: Value) returns (throws: bool)
      ensures throws <==> name.Str?
      ensures throws == RemovalGuard(name, None).Err?
    {
      var guard := RemovalGuard(name, None);
      throws := guard.Err?;
    }

    /** removeIndex read with LOCKED_INDICES: a string name that is not locked loses its table, lookup and delimiter. */
    method RemoveIndex(name: Value)
      requires Valid()
      modifies this
      ensures Valid()
      ensures name.Str? && name.s !in Locked ==>
        tables == old(tables) - {name.s} && lookups == old(lookups) - {name.s} && delims == RemoveDelim(old(delims), name.s)
      ensures !name.Str? || name.s in Locked ==> tables == old(tables) && lookups == old(lookups) && delims == old(delims)
    {
      var guard := RemovalGuard(name, Some(Locked));
      if guard == Ok(true) {
        tables := tables - {name.s};
        lookups := lookups - {name.s};
        delims := RemoveDelim(delims, name.s);
      }
    }

    /** empty(): the loop over tables replaces each table with a fresh one. */
    method Empty()
      requires Valid()
      modifies this
      ensures Valid()
      ensures tables == Cleared(old(tables)) && lookups == old(lookups) && delims == old(delims)
    {
      var t := tables;
      var todo := tables.Keys;
      while todo != {}
        invariant todo <= tables.Keys && t.Keys == tables.Keys
        invariant forall n :: n in t ==> t[n] == (if n in todo then tables[n] else map[])
        modifies {}
        decreases |todo|
      {
        var n :| n in todo;
        t := t[n := map[]];
        todo := todo - {n};
      }
      assert t == Cleared(tables);
      tables := t;
    }

    /** addElementToIndex: the bucket of the key gains e, once. */
    method AddElementToIndex(e: Entity, name: string, key: Value)
      requires Valid()
      modifies this
      ensures Valid()
      ensures tables == AddedTo(old(tables), e, name, key)
      ensures lookups == old(lookups) && delims == old(delims)
    {
      if e.ElementRef? && name in tables && IndexableKey(key) {
        FiledOnce(tables, name, KeyOf(key), e.uid);
        tables := Filed(tables, name, KeyOf(key), e.uid);
      }
    }

    /**
     * removeElementFromIndex(e, name, key). With a key (truthy or 0) e is
     * spliced out of that one bucket. Without one, the loop hands each
     * bucket, not its key, to the helper, which then looks up the key the
     * bucket prints as; only buckets under such keys can lose e.
     */
    method RemoveElementFromIndex(e: Entity, name: string, key: Value) returns (ghost hit: set<string>)
      requires Valid()
      modifies this
      ensures Valid()
      ensures tables == RemovedFrom(old(tables), e, name, key, hit)
      ensures lookups == old(lookups) && delims == old(delims)
    {
      hit := {};
      if !e.ElementRef? || name !in tables {
        return;
      }
      if IndexableKey(key) {
        UnfiledRemoves(tables, name, KeyOf(key), e.uid);
        tables := Unfiled(tables, name, KeyOf(key), e.uid);
        return;
      }
      hit := KeylessWalk(e.uid, name);
    }

    /** self.by[name]._.every(k => removeElementFromIndex(element, name, k)): each bucket is passed as the key. */
    method KeylessWalk(e: Uid, name: string) returns (ghost hit: set<string>)
      requires Valid() && name in tables
      modifies this
      ensures Valid()
      ensures tables == old(tables)[name := Keyless(old(tables)[name], e, hit)]
      ensures lookups == old(lookups) && delims == old(delims)
    {
      hit := {};
      assert Keyless(tables[name], e, hit) == tables[name];
      var todo := tables[name].Keys;
      while todo != {}
        invariant name in tables && todo <= tables[name].Keys
        invariant tables == old(tables)[name := Keyless(old(tables)[name], e, hit)]
        invariant AllBucketsNoDup(tables)
        modifies this`tables
        decreases |todo|
      {
        var k :| k in todo;
        var target := ObjectJoin(|tables[name][k]|);
        if target in tables[name] {
          KeylessStep(old(tables), tables, name, target, e, hit);
          tables := Unfiled(tables, name, target, e);
          hit := hit + {target};
        }
        todo := todo - {k};
      }
      assert tables.Keys == old(tables).Keys;
    }

    /** removeFromAllCustomIndices(e): every bucket of every index but uid, level and delta. */
    method RemoveFromAllCustomIndices(e: Entity)
      requires Valid()
      modifies this
      ensures Valid()
      ensures e.ElementRef? ==> tables == Purged(old(tables), e.uid)
      ensures !e.ElementRef? ==> tables == old(tables)
      ensures lookups == old(lookups) && delims == old(delims)
    {
      if !e.ElementRef? {
        return;
      }
      PurgedRemoves(tables, e.uid);
      tables := PurgeAll(tables, e.uid);
    }

    /** index._.each((data, property) => ...): every table but the locked ones. */
    static method PurgeAll(tbl: Tables, e: Uid) returns (r: Tables)
      ensures r == Purged(tbl, e)
    {
      ghost var target := Purged(tbl, e);
      r := tbl;
      var todo := tbl.Keys;
      while todo != {}
        invariant todo <= tbl.Keys && r.Keys == tbl.Keys
        invariant forall n :: n in tbl ==> r[n] == (if n in todo then tbl[n] else target[n])
        decreases |todo|
      {
        var n :| n in todo;
        if n !in Locked {
          var t := PurgeTable(tbl[n], e);
          r := r[n := t];
        }
        todo := todo - {n};
      }
      assert r == target;
    }

    /** index._.every(value => splice e out of value): one table. */
    static method PurgeTable(t: Table, e: Uid) returns (r: Table)
      ensures r == PurgedTable(t, e)
    {
      r := t;
      var todo := t.Keys;
      while todo != {}
        invariant todo <= t.Keys && r.Keys == t.Keys
        invariant forall k :: k in t ==> r[k] == (if k in todo then t[k] else RemoveFirst(t[k], e))
        decreases |todo|
      {
        var k :| k in todo;
        r := r[k := RemoveFirst(t[k], e)];
        todo := todo - {k};
      }
    }

    /**
     * indexAllPropertiesOfObjectForElement(o, e): for an object and an
     * element, addElementToIndex(e, key, value) for each own property. null
     * passes the typeof test and then throws a TypeError.
     */
    method IndexAllProperties(o: Value, e: Entity) returns (throws: bool)
      requires Valid()
      modifies this
      ensures Valid()
      ensures throws <==> o.Null? && e.ElementRef?
      ensures (o.Obj? || o.Arr?) && e.ElementRef? ==> tables == IndexedAll(old(tables), Fields(o), e.uid)
      ensures !((o.Obj? || o.Arr?) && e.ElementRef?) ==> tables == old(tables)
      ensures lookups == old(lookups) && delims == old(delims)
    {
      throws := o.Null? && e.ElementRef?;
      if !((o.Obj? || o.Arr?) && e.ElementRef?) {
        return;
      }
      var fields := Fields(o);
      var todo := fields.Keys;
      while todo != {}
        invariant todo <= fields.Keys && PartlyIndexed(old(tables), tables, fields, todo, e.uid)
        invariant Valid() && lookups == old(lookups) && delims == old(delims)
        decreases |todo|
      {
        var n :| n in todo;
        ghost var before := tables;
        AddElementToIndex(e, n, fields[n]);
        IndexStep(old(tables), before, tables, fields, todo, n, e.uid);
        todo := todo - {n};
      }
      IndexDone(old(tables), tables, fields, e.uid);
    }
  }

  /** The loop over the properties has handled every index named outside todo. */
  ghost predicate PartlyIndexed(old_tbl: Tables, tbl: Tables, fields: map<string, Value>, todo: set<string>, e: Uid) {
    tbl.Keys == old_tbl.Keys &&
    forall n :: n in tbl ==> tbl[n] == (if n in todo && n in fields then old_tbl[n] else IndexedAll(old_tbl, fields, e)[n])
  }

  lemma IndexStep(old_tbl: Tables, tbl: Tables, next: Tables, fields: map<string, Value>, todo: set<string>, n: string, e: Uid)
    requires n in todo && todo <= fields.Keys && PartlyIndexed(old_tbl, tbl, fields, todo, e)
    requires n in tbl && IndexableKey(fields[n]) ==> next == Filed(tbl, n, KeyOf(fields[n]), e)
    requires !(n in tbl && IndexableKey(fields[n])) ==> next == tbl
    ensures PartlyIndexed(old_tbl, next, fields, todo - {n}, e)
  {
    forall m | m in next
      ensures next[m] == (if m in todo - {n} && m in fields then old_tbl[m] else IndexedAll(old_tbl, fields, e)[m])
    {
      if m == n {
        assert tbl[n] == old_tbl[n];
      } else {
        assert next[m] == tbl[m];
      }
    }
  }

  lemma IndexDone(old_tbl: Tables, tbl: Tables, fields: map<string, Value>, e: Uid)
    requires PartlyIndexed(old_tbl, tbl, fields, {}, e)
    ensures tbl == IndexedAll(old_tbl, fields, e)
  {
  }

  /** One visit of the keyless walk that finds its target bucket. */
  lemma KeylessStep(old_tbl: Tables, tbl: Tables, name: string, target: string, e: Uid, hit: set<string>)
    requires name in old_tbl && AllBucketsNoDup(old_tbl) && AllBucketsNoDup(tbl)
    requires tbl == old_tbl[name := Keyless(old_tbl[name], e, hit)]
    requires target in tbl[name] && IsJoinKey(target)
    ensures Unfiled(tbl, name, target, e) == old_tbl[name := Keyless(old_tbl[name], e, hit + {target})]
    ensures AllBucketsNoDup(Unfiled(tbl, name, target, e))
  {
    KeylessUnfiled(old_tbl, name, target, e, hit);
    UnfiledRemoves(tbl, name, target, e);
  }

  lemma KeylessUnfiled(old_tbl: Tables, name: string, target: string, e: Uid, hit: set<string>)
    requires name in old_tbl && target in old_tbl[name] && IsJoinKey(target)
    requires forall j :: j in old_tbl[name] ==> NoDup(old_tbl[name][j])
    ensures Unfiled(old_tbl[name := Keyless(old_tbl[name], e, hit)], name, target, e) == old_tbl[name := Keyless(old_tbl[name], e, hit + {target})]
  {
    KeylessMore(old_tbl[name], e, hit, target);
    UnfiledReplaces(old_tbl, name, target, e, Keyless(old_tbl[name], e, hit), Keyless(old_tbl[name], e, hit + {target}));
  }

  /** Taking e out of a bucket of a freshly installed table installs the updated table. */
  lemma UnfiledReplaces(base: Tables, name: string, key: string, e: Uid, t: Table, t2: Table)
    requires key in t && t2 == t[key := RemoveFirst(t[key], e)]
    ensures Unfiled(base[name := t], name, key, e) == base[name := t2]
  {
    assert base[name := t][name] == t;
  }
}
