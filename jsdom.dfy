/**
 * lib/jsdom.js: the JSDOM object. Its closure keeps the element set of
 * Registry (_elements, _by, _map) next to the public copies of _map and of
 * the with entries, and index() walks the tree, setting each object's id,
 * parent, level and children before it adds the object.
 */
module Jsdom {
  import opened Values
  import opened Buckets
  import opened Registry

  /**
   * An object of the tree: its identity, its own properties, and the
   * objects held in its children property (none when children is missing
   * or not an object).
   */
  datatype Entry = Entry(oid: Uid, props: map<string, Value>, kids: seq<Entry>)

  /** The parent index() hands down: none at the top, else the parent's identity and level. */
  datatype Above = Top | Under(oid: Uid, level: int)

  /** What a walk over entries adds, in order, and how many fresh ids it drew. */
  datatype Walked = Walked(args: seq<Arg>, next: nat)

  /** typeof e.children === 'object' && e.children */
  predicate HasChildObject(props: map<string, Value>) {
    "children" in props && IsObject(props["children"])
  }

  /** e.id || e.id === 0: the id index() keeps. */
  predicate KeepsId(props: map<string, Value>) {
    "id" in props && (Truthy(props["id"]) || props["id"] == Num(0))
  }

  /** e.level = parent ? parent.level + 1 : 0 */
  function LevelUnder(above: Above): int {
    if above.Under? then above.level + 1 else 0
  }

  /**
   * The properties index() leaves on an object: the id kept or the k-th
   * fresh one, the parent object (null at the top), the level, and the
   * children kept when they are an object, else [].
   */
  function Annotated(props: map<string, Value>, above: Above, k: nat, ids: nat -> Value): (r: map<string, Value>)
    ensures r.Keys == props.Keys + {"id", "parent", "level", "children"}
    ensures r["id"] == (if KeepsId(props) then props["id"] else ids(k))
    ensures r["parent"] == (if above.Under? then Ref(above.oid) else Null)
    ensures r["level"] == Num(LevelUnder(above))
    ensures IsObject(r["children"]) && (HasChildObject(props) ==> r["children"] == props["children"])
    ensures forall n :: n in props && n !in {"id", "parent", "level", "children"} ==> r[n] == props[n]
  {
    props["id" := if KeepsId(props) then props["id"] else ids(k)]
         ["parent" := if above.Under? then Ref(above.oid) else Null]
         ["level" := Num(LevelUnder(above))]
         ["children" := if HasChildObject(props) then props["children"] else List([])]
  }

  /** The fresh ids an object draws: one when it has no id to keep. */
  function Draws(props: map<string, Value>): nat {
    if KeepsId(props) then 0 else 1
  }

  /**
   * The walk of index(es, above): each object in turn, and after each
   * object the walk of its children, so the objects are added in preorder.
   */
  function WalkAll(es: seq<Entry>, above: Above, k: nat, ids: nat -> Value): (w: Walked)
    ensures w.next >= k
    decreases es
  {
    if es == [] then Walked([], k)
    else
      var init := WalkAll(es[..|es| - 1], above, k, ids);
      var e := es[|es| - 1];
      var one := WalkOne(e, above, init.next, ids);
      Walked(init.args + one.args, one.next)
  }

  /** Walking one more object of the array appends that object's walk. */
  lemma WalkAllStep(es: seq<Entry>, i: nat, above: Above, k: nat, ids: nat -> Value)
    requires i < |es|
    ensures var init := WalkAll(es[..i], above, k, ids);
      var one := WalkOne(es[i], above, init.next, ids);
      WalkAll(es[..i + 1], above, k, ids) == Walked(init.args + one.args, one.next)
  {
    assert es[..i + 1][..i] == es[..i];
  }

  /** One object: it is added, then (when children is an object) its children are walked under it. */
  function WalkOne(e: Entry, above: Above, k: nat, ids: nat -> Value): (w: Walked)
    ensures w.next >= k && |w.args| >= 1
    ensures w.args[0] == Plain(e.oid, Annotated(e.props, above, k, ids))
    decreases e, 1
  {
    var below := Below(e, above, k, ids);
    Walked([Plain(e.oid, Annotated(e.props, above, k, ids))] + below.args, below.next)
  }

  /** What index(e.children, e) walks after e: nothing unless children is an object. */
  function Below(e: Entry, above: Above, k: nat, ids: nat -> Value): (w: Walked)
    ensures w.next >= k + Draws(e.props)
    decreases e, 0
  {
    if HasChildObject(e.props) then WalkAll(e.kids, Under(e.oid, LevelUnder(above)), k + Draws(e.props), ids)
    else Walked([], k + Draws(e.props))
  }

  class Jsdom {
    /** _elements, _by and _map */
    const store: Store
    /** _tree: the tree index() walks when called without one */
    const tree: seq<Entry>
    /** mapCopy and the names of withCopy, the public map and with */
    var mapCopy: Delims
    var withCopy: set<string>
    /** how many ids _.uniqueId() has handed out */
    var uniqueIds: nat

    /** with and by always have the same names, so the public with names the tables. */
    ghost predicate Valid()
      reads this, store
    {
      store.Valid() && withCopy == store.tables.Keys
    }

    /** new JSDOM(tree): the initial tables and map, then index(). */
    constructor (tree: seq<Entry>, ids: nat -> Value)
      ensures Valid() && fresh(store) && this.tree == tree
      ensures mapCopy == InitialMap && withCopy == InitialBy.Keys
      ensures store.delims == InitialMap
      ensures store.Contents() == AddedAll(State([], InitialBy), WalkAll(tree, Top, 0, ids).args)
      ensures uniqueIds == WalkAll(tree, Top, 0, ids).next
    {
      store := new Store();
      this.tree := tree;
      mapCopy := InitialMap;
      withCopy := InitialBy.Keys;
      uniqueIds := 0;
      new;
      Index(None, ids);
    }

    /**
     * index(tree): empty() first (the buckets survive it), then the walk.
     * Without an argument the JSDOM's own tree is walked.
     */
    method Index(arg: Option<seq<Entry>>, ids: nat -> Value)
      requires Valid()
      modifies store`elements, store`tables, this`uniqueIds
      ensures Valid()
      ensures var es := if arg.Some? then arg.value else tree;
        store.Contents() == AddedAll(State([], old(store.tables)), WalkAll(es, Top, old(uniqueIds), ids).args) &&
        uniqueIds == WalkAll(es, Top, old(uniqueIds), ids).next
    {
      store.Empty();
      var es := if arg.Some? then arg.value else tree;
      IndexAll(es, Top, ids);
    }

    /** The every loop of index over one array of objects. */
    method IndexAll(es: seq<Entry>, above: Above, ids: nat -> Value)
      requires Valid()
      modifies store`elements, store`tables, this`uniqueIds
      ensures Valid()
      ensures store.Contents() == AddedAll(old(store.Contents()), WalkAll(es, above, old(uniqueIds), ids).args)
      ensures uniqueIds == WalkAll(es, above, old(uniqueIds), ids).next
      decreases es, 1
    {
      var i := 0;
      while i < |es|
        invariant i <= |es| && Valid()
        invariant store.Contents() == AddedAll(old(store.Contents()), WalkAll(es[..i], above, old(uniqueIds), ids).args)
        invariant uniqueIds == WalkAll(es[..i], above, old(uniqueIds), ids).next
      {
        ghost var init := WalkAll(es[..i], above, old(uniqueIds), ids);
        ghost var one := WalkOne(es[i], above, uniqueIds, ids);
        IndexOne(es[i], above, ids);
        WalkAllStep(es, i, above, old(uniqueIds), ids);
        AddedAllConcat(old(store.Contents()), init.args, one.args);
        i := i + 1;
      }
      assert es[..|es|] == es;
    }

    /** One object of index: its properties set, added, then its children indexed under it. */
    method IndexOne(e: Entry, above: Above, ids: nat -> Value)
      requires Valid()
      modifies store`elements, store`tables, this`uniqueIds
      ensures Valid()
      ensures store.Contents() == AddedAll(old(store.Contents()), WalkOne(e, above, old(uniqueIds), ids).args)
      ensures uniqueIds == WalkOne(e, above, old(uniqueIds), ids).next
      decreases e, 0
    {
      ghost var k := uniqueIds;
      ghost var start := store.Contents();
      AddAnnotated(e, above, ids);
      ghost var added := store.Contents();
      ghost var below := Below(e, above, k, ids);
      WalkOneAdded(start, added, e, above, k, ids);
      if HasChildObject(e.props) {
        ghost var after := uniqueIds;
        IndexAll(e.kids, Under(e.oid, LevelUnder(above)), ids);
        BelowChildren(e, above, k, after, ids);
      }
    }

    /** The first half of one object of index: its id, parent, level and children set, then add(). */
    method AddAnnotated(e: Entry, above: Above, ids: nat -> Value)
      requires Valid()
      modifies store`elements, store`tables, this`uniqueIds
      ensures Valid()
      ensures store.Contents() == Added(old(store.Contents()), Plain(e.oid, Annotated(e.props, above, old(uniqueIds), ids)))
      ensures uniqueIds == old(uniqueIds) + Draws(e.props)
    {
      var props := Annotated(e.props, above, uniqueIds, ids);
      if !KeepsId(e.props) {
        uniqueIds := uniqueIds + 1;
      }
      store.AddOne(Plain(e.oid, props));
    }

    method Add(args: seq<Arg>)
      requires Valid()
      modifies store`elements, store`tables
      ensures Valid() && store.Contents() == AddedAll(old(store.Contents()), args)
    {
      store.Add(args);
    }

    method Remove(args: seq<Arg>)
      requires Valid()
      modifies store`elements, store`tables
      ensures Valid() && store.Contents() == RemovedAll(old(store.Contents()), args)
    {
      store.Remove(args);
    }

    method Empty()
      requires Valid()
      modifies store`elements
      ensures Valid() && store.elements == []
    {
      store.Empty();
    }

    /**
     * addIndex(name, delimiter): as the element set's, and the public copies
     * of map and with are refreshed only when a new table was created, so a
     * delimiter given to an existing index does not show in the public map.
     */
    method AddIndex(name: Value, delimiter: Value) returns (r: Option<AddIndexError>)
      requires Valid()
      modifies store`tables, store`delims, this`mapCopy, this`withCopy
      ensures Valid() && store.elements == old(store.elements)
      ensures CheckAddIndex(name, delimiter, old(store.delims)).Rejected? ==>
        r == Some(CheckAddIndex(name, delimiter, old(store.delims)).reason) &&
        store.tables == old(store.tables) && store.delims == old(store.delims)
      ensures CheckAddIndex(name, delimiter, old(store.delims)).Accepted? ==>
        r.None? && store.tables == (if name.s in old(store.tables) then old(store.tables) else old(store.tables)[name.s := map[]])
      ensures CheckAddIndex(name, delimiter, old(store.delims)).Accepted? ==>
        store.delims == (match CheckAddIndex(name, delimiter, old(store.delims)).delimiter
          case Some(c) => SetDelim(old(store.delims), name.s, c)
          case None => old(store.delims))
      ensures r.None? && name.s !in old(store.tables) ==> mapCopy == store.delims && withCopy == store.tables.Keys
      ensures !(r.None? && name.s !in old(store.tables)) ==> mapCopy == old(mapCopy) && withCopy == old(withCopy)
    {
      var created := name.Str? && name.s !in store.tables;
      r := store.AddIndex(name, delimiter);
      if r.None? && created {
        mapCopy := store.delims;
        withCopy := store.tables.Keys;
      }
    }

    /** removeIndex(name): as the element set's; a name that is removed also refreshes both copies. */
    method RemoveIndex(name: Value)
      requires Valid()
      modifies store`tables, store`delims, this`mapCopy, this`withCopy
      ensures Valid() && store.elements == old(store.elements)
      ensures name.Str? && name.s !in LockedProperties ==>
        store.tables == old(store.tables) - {name.s} && store.delims == RemoveDelim(old(store.delims), name.s) &&
        mapCopy == store.delims && withCopy == store.tables.Keys
      ensures !(name.Str? && name.s !in LockedProperties) ==>
        store.tables == old(store.tables) && store.delims == old(store.delims) &&
        mapCopy == old(mapCopy) && withCopy == old(withCopy)
    {
      store.RemoveIndex(name);
      if name.Str? && name.s !in LockedProperties {
        mapCopy := store.delims;
        withCopy := store.tables.Keys;
      }
    }
  }

  /** Adding the walk of one object is adding the object, then the walk below it. */
  lemma WalkOneAdded(s: State, added: State, e: Entry, above: Above, k: nat, ids: nat -> Value)
    requires "delta" in s.tables
    requires added == Added(s, Plain(e.oid, Annotated(e.props, above, k, ids)))
    ensures "delta" in added.tables
    ensures AddedAll(s, WalkOne(e, above, k, ids).args) == AddedAll(added, Below(e, above, k, ids).args)
    ensures WalkOne(e, above, k, ids).next == Below(e, above, k, ids).next
    ensures !HasChildObject(e.props) ==> AddedAll(added, Below(e, above, k, ids).args) == added && Below(e, above, k, ids).next == k + Draws(e.props)
  {
    var first := [Plain(e.oid, Annotated(e.props, above, k, ids))];
    var below := Below(e, above, k, ids);
    WalkOneUnfolds(e, above, k, ids);
    if !HasChildObject(e.props) {
      BelowNoChildren(e, above, k, ids);
    }
    AddedSingle(s, first[0]);
    AddedAllConcat(s, first, below.args);
  }

  /** The walk of one object is the object followed by the walk below it. */
  lemma WalkOneUnfolds(e: Entry, above: Above, k: nat, ids: nat -> Value)
    ensures WalkOne(e, above, k, ids).args == [Plain(e.oid, Annotated(e.props, above, k, ids))] + Below(e, above, k, ids).args
    ensures WalkOne(e, above, k, ids).next == Below(e, above, k, ids).next
  {
  }

  /** When children is not an object, nothing is walked below an object, and only its own id is drawn. */
  lemma BelowNoChildren(e: Entry, above: Above, k: nat, ids: nat -> Value)
    requires !HasChildObject(e.props)
    ensures Below(e, above, k, ids).args == [] && Below(e, above, k, ids).next == k + Draws(e.props)
  {
  }

  /** add(a) with one argument is Added. */
  lemma AddedSingle(s: State, a: Arg)
    requires "delta" in s.tables
    ensures AddedAll(s, [a]) == Added(s, a)
  {
    assert [a][..0] == [];
  }

  /** With children to walk, what is below an object is the walk of its children from the id counter after it. */
  lemma BelowChildren(e: Entry, above: Above, k: nat, after: nat, ids: nat -> Value)
    requires HasChildObject(e.props) && after == k + Draws(e.props)
    ensures Below(e, above, k, ids) == WalkAll(e.kids, Under(e.oid, LevelUnder(above)), after, ids)
  {
  }

  /** Adding two lists of arguments is adding their concatenation. */
  lemma {:induction false} AddedAllConcat(s: State, a: seq<Arg>, b: seq<Arg>)
    requires "delta" in s.tables
    ensures "delta" in AddedAll(s, a).tables
    ensures AddedAll(s, a + b) == AddedAll(AddedAll(s, a), b)
    decreases |b|
  {
    if b != [] {
      assert (a + b)[..|a + b| - 1] == a + b[..|b| - 1];
      AddedAllConcat(s, a, b[..|b| - 1]);
    } else {
      assert a + b == a;
    }
  }
  // -------------------------------------------------------------------
  // The checks findElementsWithSelector makes before it walks.
  // -------------------------------------------------------------------

  /** Where the run of spaces starting at p ends. */
  function RunEnd(s: string, p: nat): (q: nat)
    requires p <= |s|
    ensures p <= q <= |s| && (q == |s| || s[q] != ' ')
    ensures forall j :: p <= j < q ==> s[j] == ' '
    decreases |s| - p
  {
    if p < |s| && s[p] == ' ' then RunEnd(s, p + 1) else p
  }

  /**
   * The alternative ` +([^types])` of validateTerm tried at p: the spaces
   * are taken greedily, so the capture is the character after the run when
   * that is not a type, else (backtracking one space) a space, when a space
   * is not a type and the run has two.
   */
  function SpacesThen(s: string, p: nat, types: set<char>): Option<char>
    requires p <= |s|
  {
    if p == |s| || s[p] != ' ' then None
    else
      var q := RunEnd(s, p);
      if q < |s| && s[q] !in types then Some(s[q])
      else if q - p >= 2 && ' ' !in types then Some(' ')
      else None
  }

  /** The leftmost match of ` +([^types])` at p or later. */
  function FirstSpacesThen(s: string, p: nat, types: set<char>): Option<char>
    requires p <= |s|
    decreases |s| - p
  {
    if p == |s| then None
    else match SpacesThen(s, p, types)
      case Some(c) => Some(c)
      case None => FirstSpacesThen(s, p + 1, types)
  }

  /**
   * selector.match(/(?:^| +)([^types])/)[1]: the first character of the
   * selector when it is not a type character, else the first capture of a
   * run of spaces.
   */
  function ValidateTerm(s: string, types: set<char>): (r: Option<char>)
    ensures r.Some? ==> r.value !in types
  {
    if |s| > 0 && s[0] !in types then Some(s[0])
    else
      FirstSpacesThenCapture(s, 0, types);
      FirstSpacesThen(s, 0, types)
  }

  /** A segment of s starts at i when i is 0 or follows a space. */
  predicate SegmentStart(s: string, i: int) {
    0 <= i < |s| && (i == 0 || s[i - 1] == ' ')
  }

  lemma {:induction false} FirstSpacesThenCapture(s: string, p: nat, types: set<char>)
    requires p <= |s|
    ensures FirstSpacesThen(s, p, types).Some? ==> FirstSpacesThen(s, p, types).value !in types
    decreases |s| - p
  {
    if p < |s| && SpacesThen(s, p, types).None? {
      FirstSpacesThenCapture(s, p + 1, types);
    }
  }

  /** A run of spaces starting at p yields a capture exactly when some segment after p starts with a non-type. */
  lemma SpacesThenBad(s: string, p: nat, types: set<char>)
    requires p < |s|
    ensures SpacesThen(s, p, types).Some? ==> exists i :: p < i < |s| && SegmentStart(s, i) && s[i] !in types
    ensures p + 1 < |s| && s[p] == ' ' && s[p + 1] !in types ==> SpacesThen(s, p, types).Some?
  {
    if SpacesThen(s, p, types).Some? {
      var q := RunEnd(s, p);
      if q < |s| && s[q] !in types {
        assert SegmentStart(s, q);
      } else {
        assert SegmentStart(s, p + 1);
      }
    }
  }

  lemma {:induction false} FirstSpacesThenNone(s: string, p: nat, types: set<char>)
    requires p <= |s|
    ensures FirstSpacesThen(s, p, types).None? <==> forall i :: p < i < |s| && SegmentStart(s, i) ==> s[i] in types
    decreases |s| - p
  {
    if p < |s| {
      SpacesThenBad(s, p, types);
      FirstSpacesThenNone(s, p + 1, types);
      if FirstSpacesThen(s, p, types).None? {
        assert SpacesThen(s, p, types).None?;
        forall i | p < i < |s| && SegmentStart(s, i) ensures s[i] in types {
          if i == p + 1 {
            assert s[p] == ' ';
          } else {
            assert p + 1 < i;
          }
        }
      }
    }
  }

  /**
   * validateTerm finds nothing exactly when every segment of the selector
   * (its start and every character after a space) starts with a type
   * character.
   */
  lemma ValidateTermNone(s: string, types: set<char>)
    ensures ValidateTerm(s, types).None? <==> forall i :: SegmentStart(s, i) ==> s[i] in types
  {
    FirstSpacesThenNone(s, 0, types);
    if |s| > 0 && s[0] !in types {
      assert SegmentStart(s, 0);
    }
    if forall i :: 0 < i < |s| && SegmentStart(s, i) ==> s[i] in types {
      if |s| > 0 && s[0] in types {
        assert forall i :: SegmentStart(s, i) ==> s[i] in types by {
          forall i | SegmentStart(s, i) ensures s[i] in types {
            if i > 0 {
              assert 0 < i < |s| && SegmentStart(s, i);
            }
          }
        }
      }
    }
  }

  /**
   * The checks of findElementsWithSelector, in order: a string selector
   * with a segment that does not start with a type character; an empty
   * selector, or one validate does not match (validates is that regular
   * expression); a truthy non-string, which has no match method. What is
   * left is the selector to tokenize.
   */
  function FindCheck(selector: Value, types: set<char>, validates: string -> bool): (r: Result<string>)
    ensures r.Ok? <==> (selector.Str? && selector.s != "" && validates(selector.s) &&
      forall i :: SegmentStart(selector.s, i) ==> selector.s[i] in types)
    ensures r.Ok? ==> r.value == selector.s
    ensures selector.Str? && ValidateTerm(selector.s, types).Some? ==>
      r == Err("Invalid selector type '" + [ValidateTerm(selector.s, types).value] + "'.")
  {
    if !selector.Str? then
      if !Truthy(selector) then Err("Invalid selector '(empty)'.")
      else Err("TypeError: selector.match is not a function")
    else
      ValidateTermNone(selector.s, types);
      if ValidateTerm(selector.s, types).Some? then
        Err("Invalid selector type '" + [ValidateTerm(selector.s, types).value] + "'.")
      else if selector.s == "" then Err("Invalid selector '(empty)'.")
      else if !validates(selector.s) then Err("Invalid selector '" + selector.s + "'.")
      else Ok(selector.s)
  }

  /** A selector with a segment that starts with something other than a type character is refused by its type. */
  lemma FindCheckRefusesType(s: string, types: set<char>, validates: string -> bool, i: nat)
    requires SegmentStart(s, i) && s[i] !in types
    ensures FindCheck(Str(s), types, validates).Err?
    ensures exists c :: c !in types && FindCheck(Str(s), types, validates) == Err("Invalid selector type '" + [c] + "'.")
  {
    ValidateTermNone(s, types);
  }

  // -------------------------------------------------------------------
  // getChildrenOf
  // -------------------------------------------------------------------

  /**
   * getChildrenOf(e): the values of e.children when e is an object and
   * typeof e.children is 'object'. A null children passes that test and
   * then has no toArray (a TypeError); the values of a non-array object
   * come in the order values gives.
   */
  function ChildrenOf(e: Value, values: Value -> seq<Value>): (r: Result<seq<Value>>)
    ensures r.Err? <==> Truthy(e) && IsObject(e) && GetProp(e, "children") == Null
    ensures Truthy(e) && IsObject(e) && GetProp(e, "children").Arr? ==> r == Ok(GetProp(e, "children").items)
    ensures !(Truthy(e) && IsObject(e) && TypeOf(GetProp(e, "children")) == "object") ==> r == Ok([])
  {
    if Truthy(e) && IsObject(e) && TypeOf(GetProp(e, "children")) == "object" then
      match GetProp(e, "children")
      case Null => Err("TypeError: Cannot read properties of null (reading '_')")
      case Arr(items, _) => Ok(items)
      case other => Ok(values(other))
    else Ok([])
  }
}
