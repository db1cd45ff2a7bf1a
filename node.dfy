/**
 * lib/JSDOMNode.js: a node holds a scalar child of an element. Its level,
 * value and parent live in the closure and change through lvl(), val() and
 * parent(); its uid is fixed at construction. It consults jsdom.index, which
 * accepts only elements, so none of a node's index calls changes the index.
 */
module Node {
  import opened Values
  import opened Buckets
  import opened PropertyIndex

  /** What a node method hands back: the node itself, a value, or undefined. */
  datatype Returned = Itself | Gave(v: Value) | Nothing | Promoted

  /** The argument of parent(p): left out, a node, or any other value. */
  datatype ParentArg = NoArg | NodeArg(node: Node) | OtherArg

  /** A string holding an integer literal is the level getNumeric reads from it. */
  lemma NumericString(i: int)
    ensures GetNumeric(Str(IntToString(i))) == Some(i)
  {
    var s := IntToString(i);
    IntToStringIsLiteral(i);
    assert !IsJsSpace(s[0]) && !IsJsSpace(s[|s| - 1]) by {
      assert IsIntLiteral(s);
      assert s[|s| - 1] in "0123456789" by {
        if |s| >= 2 && (s[0] == '-' || s[0] == '+') {
          assert s[|s| - 1] == s[1..][|s| - 2];
        }
      }
    }
    assert TrimStart(s) == s;
    assert TrimEnd(s) == s;
  }

  class Node {
    /** jsdom.index */
    const index: Index
    /** uid: set once, not writable */
    const uid: Uid
    /** key || _.uniqueId() */
    const key: Value
    /** the closure variables value, level and parent */
    var value: Value
    var level: int
    var parent: Node?

    /**
     * new JSDOMNode(jsdom, value, key): parent null, level 0; a falsy key
     * (0 and "" included) is replaced by a fresh id, given here as freshKey.
     */
    constructor (index: Index, value: Value, key: Value, uid: Uid, freshKey: Value)
      ensures this.index == index && this.uid == uid && this.value == value
      ensures this.key == (if Truthy(key) then key else freshKey)
      ensures level == 0 && parent == null
    {
      this.index := index;
      this.uid := uid;
      this.key := if Truthy(key) then key else freshKey;
      this.value := value;
      level := 0;
      parent := null;
    }

    /**
     * lvl(): the level. lvl(n) with a number or a string getNumeric reads as
     * one: the new level and the node itself, after the level and delta
     * re-indexing, which the index refuses for a node. Anything else
     * (a non-numeric string, an array, an object): undefined, level kept.
     */
    method Lvl(arg: Value) returns (r: Returned)
      requires index.Valid()
      modifies this`level, index
      ensures arg.Undefined? ==> r == Gave(Num(level)) && level == old(level)
      ensures (arg.Num? || arg.Str?) && GetNumeric(arg).Some? ==> r == Itself && level == GetNumeric(arg).value
      ensures !arg.Undefined? && !((arg.Num? || arg.Str?) && GetNumeric(arg).Some?) ==> r == Nothing && level == old(level)
      ensures index.Valid() && index.tables == old(index.tables)
      ensures index.lookups == old(index.lookups) && index.delims == old(index.delims)
    {
      if arg.Undefined? {
        return Gave(Num(level));
      }
      if arg.Num? || arg.Str? {
        var current := level;
        var n := GetNumeric(arg);
        if n.Some? {
          level := n.value;
          ghost var hit := index.RemoveElementFromIndex(NodeRef(uid), "level", Num(current));
          index.AddElementToIndex(NodeRef(uid), "level", Num(level));
          hit := index.RemoveElementFromIndex(NodeRef(uid), "delta", Undefined);
          var i := 0;
          while i <= level
            invariant level == n.value
            invariant index.Valid() && index.tables == old(index.tables)
            invariant index.lookups == old(index.lookups) && index.delims == old(index.delims)
            decreases level - i
          {
            index.AddElementToIndex(NodeRef(uid), "delta", Num(i));
            i := i + 1;
          }
          return Itself;
        }
      }
      return Nothing;
    }

    /**
     * val(): the value. val(v) with a falsy or non-object v stores it and
     * returns undefined; a truthy object would promote the node to an
     * element, which is not part of this model (Promoted, nothing changes).
     */
    method Val(arg: Value) returns (r: Returned)
      modifies this`value
      ensures arg.Undefined? ==> r == Gave(value) && value == old(value)
      ensures !arg.Undefined? && (!Truthy(arg) || !IsObject(arg)) ==> r == Nothing && value == arg
      ensures Truthy(arg) && IsObject(arg) ==> r == Promoted && value == old(value)
    {
      if arg.Undefined? {
        return Gave(value);
      }
      if !Truthy(arg) || !IsObject(arg) {
        value := arg;
        return Nothing;
      }
      return Promoted;
    }

    /**
     * parent(p): with a node other than this one, the old parent's remove
     * is called first, and no node or element has one, so a second parent
     * throws before anything changes; the first becomes the parent and the
     * level its level + 1. Any other argument only reads the parent.
     */
    method Parent(p: ParentArg) returns (r: Result<Node?>)
      requires index.Valid()
      modifies this`parent, this`level, index
      ensures p.NodeArg? && p.node != this && old(parent) != null ==>
        r.Err? && parent == old(parent) && level == old(level)
      ensures p.NodeArg? && p.node != this && old(parent) == null ==>
        parent == p.node && r == Ok(parent) && level == p.node.level + 1
      ensures !(p.NodeArg? && p.node != this) ==> r == Ok(parent) && parent == old(parent) && level == old(level)
      ensures index.Valid() && index.tables == old(index.tables)
      ensures index.lookups == old(index.lookups) && index.delims == old(index.delims)
    {
      if p.NodeArg? && p.node != this {
        if parent != null {
          return Err("TypeError: parent.remove is not a function");
        }
        parent := p.node;
        var _ := Lvl(Num(parent.level + 1));
      }
      r := Ok(parent);
    }

    /** children(): a node has none. */
    function Children(): (r: seq<Node>)
      ensures |r| == 0
    {
      []
    }

    /**
     * key: with no parent, reading parent().type throws; a parent (node or
     * element) has no type property, so the key is this node's position
     * among the parent's children, and the parent has none.
     */
    function Key(): (r: Result<Value>)
      reads this
      ensures parent == null <==> r.Err?
      ensures parent != null ==> r == Ok(Num(-1))
    {
      if parent == null then Err("TypeError: Cannot read properties of null (reading 'type')")
      else Ok(Num(IndexOf(parent.Children(), this)))
    }
  }
}
