/** Configuration objects as mutable trees of attributes and list items. */
module ConfigNode {
  import opened Common
  import opened Config

  /** The members of an object in registration order, or of a list. */
  datatype Content =
    | Text(text: string)
    | Fields(children: seq<ConfigNode>)
    | Members(children: seq<ConfigNode>)

  function Parts(v: Value): seq<Value> {
    match v
    case Leaf(_) => []
    case Object(fields) => fields
    case List(items) => items
  }

  /** The value with other parts. */
  function Rebuilt(v: Value, parts: seq<Value>): Value {
    match v
    case Leaf(_) => v
    case Object(_) => Object(parts)
    case List(_) => List(parts)
  }

  /** A list with one more item at its end. */
  function ListWith(list: Value, item: Value): Value {
    List(Parts(list) + [item])
  }

  class ConfigNode {
    var content: Content
    /** The configuration value this tree represents. */
    ghost var value: Value
    /** The nodes of the tree. */
    ghost var Repr: set<ConfigNode>

    function Children(): seq<ConfigNode>
      reads this
    {
      if content.Text? then [] else content.children
    }

    ghost predicate SameKind()
      reads this
    {
      match content
      case Text(text) => value == Leaf(text)
      case Fields(_) => value.Object?
      case Members(_) => value.List?
    }

    ghost predicate Valid()
      reads this, Repr
      ensures Valid() ==> this in Repr
      decreases Repr
    {
      var children, parts := Children(), Parts(value);
      && this in Repr
      && SameKind()
      && |children| == |parts|
      && (forall i | 0 <= i < |children| ::
            && children[i] in Repr && children[i].Repr <= Repr - {this}
            && children[i].Valid() && children[i].value == parts[i])
      && (forall i, j | 0 <= i < j < |children| :: children[i].Repr !! children[j].Repr)
    }

    /** A leaf. */
    constructor (text: string)
      ensures Valid() && fresh(Repr) && Repr == {this}
      ensures value == Leaf(text)
    {
      content := Text(text);
      value := Leaf(text);
      Repr := {this};
    }

    method SetText(text: string)
      requires Valid()
      modifies this
      ensures Valid() && Repr == old(Repr)
      ensures value == Leaf(text)
    {
      content := Text(text);
      value := Leaf(text);
    }

    /** Become an object or a list without members. */
    method Clear(list: bool)
      requires Valid()
      modifies this
      ensures Valid() && Repr == old(Repr)
      ensures value == if list then List([]) else Object([])
    {
      content := if list then Members([]) else Fields([]);
      value := if list then List([]) else Object([]);
    }

    /** Append a member. */
    method PushBack(child: ConfigNode)
      requires Valid() && !content.Text?
      requires child.Valid() && child.Repr !! Repr
      modifies this
      ensures Valid() && !content.Text?
      ensures Repr == old(Repr) + child.Repr
      ensures value == Rebuilt(old(value), Parts(old(value)) + [child.value])
    {
      var children := content.children;
      ghost var parts := Parts(value);
      content := if content.Fields? then Fields(children + [child]) else Members(children + [child]);
      value := Rebuilt(value, parts + [child.value]);
      Repr := Repr + child.Repr;
    }

    /** Take over the members of another list. */
    method TakeMembers(list: ConfigNode)
      requires list.Valid() && list.value.List? && this !in list.Repr
      modifies this
      ensures Valid() && value == list.value
      ensures Repr == {this} + (list.Repr - {list})
    {
      content := list.content;
      value := list.value;
      Repr := {this} + (list.Repr - {list});
    }

    /** The other members are valid and share no node with this one or each other. */
    ghost predicate OthersValid(i: nat)
      reads this, Repr
      requires |Children()| == |Parts(value)|
    {
      var children := Children();
      && (forall j | 0 <= j < |children| && j != i ::
            && children[j] in Repr && children[j].Repr <= Repr - {this}
            && children[j].Valid() && children[j].value == Parts(value)[j])
      && (forall j, k | 0 <= j < k < |children| && j != i && k != i :: children[j].Repr !! children[k].Repr)
    }

    /** Nothing outside one member has changed. */
    twostate lemma OthersKept(i: nat)
      requires old(Valid()) && content == old(content) && value == old(value) && Repr == old(Repr)
      requires i < |Children()|
      requires forall o: ConfigNode | o in old(Repr) && o !in old(Children()[i].Repr) :: unchanged(o)
      ensures OthersValid(i)
      ensures forall j | 0 <= j < |Children()| && j != i ::
                && Children()[j].Repr == old(Children()[j].Repr)
                && Children()[j].Repr !! old(Children()[i].Repr)
    {
      var child := Children()[i];
      forall j | 0 <= j < |Children()| && j != i
        ensures Children()[j].Repr == old(Children()[j].Repr) && Children()[j].Valid()
      {
        var other := Children()[j];
        assert old(other.Valid());
        assert old(other.Repr) !! old(child.Repr);
        assert other in old(other.Repr);
        assert unchanged(other);
      }
    }

    /** Bring the node up to date with a changed member. */
    ghost method Absorb(i: nat)
      requires this in Repr && SameKind() && |Children()| == |Parts(value)|
      requires i < |Children()| && OthersValid(i)
      requires var child := Children()[i];
               && child.Valid() && this !in child.Repr
               && forall j | 0 <= j < |Children()| && j != i :: Children()[j].Repr !! child.Repr
      modifies this`Repr, this`value
      ensures Valid() && Repr == old(Repr) + Children()[i].Repr
      ensures value == Rebuilt(old(value), Parts(old(value))[i := Children()[i].value])
    {
      var child := Children()[i];
      Repr := Repr + child.Repr;
      value := Rebuilt(value, Parts(value)[i := child.value]);
    }
  }

  method NewList() returns (c: ConfigNode)
    ensures c.Valid() && fresh(c) && c.Repr == {c}
    ensures c.value == List([])
  {
    c := new ConfigNode("");
    c.Clear(true);
  }

  /** A new tree of a value. */
  method FromValue(v: Value) returns (c: ConfigNode)
    ensures c.Valid() && fresh(c.Repr)
    ensures c.value == v
    decreases v
  {
    c := new ConfigNode(if v.Leaf? then v.text else "");
    if v.Leaf? {
      return;
    }
    c.Clear(v.List?);
    var parts := Parts(v);
    for i := 0 to |parts|
      invariant c.Valid() && fresh(c.Repr)
      invariant c.value == Rebuilt(v, parts[..i])
    {
      PartSmaller(v, i);
      var child := FromValue(parts[i]);
      OneMorePart(parts, i);
      c.PushBack(child);
    }
    assert parts[..|parts|] == parts;
  }

  lemma PartSmaller(v: Value, i: nat)
    requires i < |Parts(v)|
    ensures Parts(v)[i] < v
  {
  }

  lemma OneMorePart(parts: seq<Value>, i: nat)
    requires i < |parts|
    ensures parts[..i + 1] == parts[..i] + [parts[i]]
  {
  }
}
