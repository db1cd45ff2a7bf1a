/**
 * lib/ElementIndexer.js: the helpers that differ from lib/jsdom.js's. The
 * class itself (elements, by, with, map) is the Store of Registry.
 */
module ElementIndexer {
  import opened Values
  import Jsdom

  /**
   * getChildrenOf(e) as written: the test compares typeof typeof e.children,
   * which is always 'string', with 'object', so no element has children.
   */
  function IndexerChildrenOf(e: Value): (r: seq<Value>)
    ensures r == []
  {
    if Truthy(e) && IsObject(e) && TypeOf(Str(TypeOf(GetProp(e, "children")))) == "object" then
      match GetProp(e, "children")
      case Arr(items, _) => items
      case _ => []
    else []
  }

  /** An element holding one child: the earlier revision's getChildrenOf finds it, this one does not. */
  lemma IndexerChildrenMissed(x: Value, values: Value -> seq<Value>)
    ensures var e := Obj(map["children" := List([x])]);
      IndexerChildrenOf(e) == [] && Jsdom.ChildrenOf(e, values) == Ok([x])
  {
    var e := Obj(map["children" := List([x])]);
    assert GetProp(e, "children") == List([x]);
  }

  /**
   * The checks of findElementsWithSelector(set, s): an empty selector, or
   * one validate does not match (validates is that regular expression),
   * is refused with its text; a truthy non-string has no match method.
   * There is no check of the segment types.
   */
  function IndexerFindCheck(s: Value, validates: string -> bool): (r: Result<string>)
    ensures r.Ok? <==> s.Str? && s.s != "" && validates(s.s)
    ensures r.Ok? ==> r.value == s.s
    ensures !Truthy(s) ==> r == Err("ElementIndexer.findElementsBySelector: Invalid selector '(empty)'.")
    ensures s.Str? && s.s != "" && !validates(s.s) ==> r == Err("ElementIndexer.findElementsBySelector: Invalid selector '" + s.s + "'.")
  {
    if !Truthy(s) then Err("ElementIndexer.findElementsBySelector: Invalid selector '(empty)'.")
    else if !s.Str? then Err("TypeError: s.match is not a function")
    else if !validates(s.s) then Err("ElementIndexer.findElementsBySelector: Invalid selector '" + s.s + "'.")
    else Ok(s.s)
  }

  /**
   * lib/jsdom.js accepts a selector exactly when this revision does and
   * every segment of it starts with a type character.
   */
  lemma {:induction false} FindChecksCompared(s: Value, types: set<char>, validates: string -> bool)
    ensures Jsdom.FindCheck(s, types, validates).Ok? <==>
      (IndexerFindCheck(s, validates).Ok? && forall i :: Jsdom.SegmentStart(s.s, i) ==> s.s[i] in types)
  {
  }
}
