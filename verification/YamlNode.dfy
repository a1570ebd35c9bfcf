/** YAML documents as mutable trees of shared nodes, merged in place. */
module YamlNode {
  import opened Common
  import opened Yaml

  datatype Content =
    | Missing
    | Nothing
    | Leaf(text: string)
    | Entries(entries: map<string, YamlNode>)
    | Elements(elements: seq<YamlNode>)

  class YamlNode {
    var content: Content
    /** The document this tree represents. */
    ghost var model: Node
    /** The nodes of the tree. */
    ghost var Repr: set<YamlNode>

    ghost predicate Valid()
      reads this, Repr
      ensures Valid() ==> this in Repr
      decreases Repr
    {
      && this in Repr
      && match content
         case Missing => model == Undefined
         case Nothing => model == Null
         case Leaf(text) => model == Scalar(text)
         case Entries(entries) =>
           && model.Map? && model.entries.Keys == entries.Keys
           && (forall k | k in entries ::
                 && entries[k] in Repr && entries[k].Repr <= Repr - {this}
                 && entries[k].Valid() && entries[k].model == model.entries[k] && model.entries[k] != Undefined)
           && (forall k, l | k in entries && l in entries && k != l :: entries[k].Repr !! entries[l].Repr)
         case Elements(elements) =>
           && model.Sequence? && |model.items| == |elements|
           && (forall i | 0 <= i < |elements| ::
                 && elements[i] in Repr && elements[i].Repr <= Repr - {this}
                 && elements[i].Valid() && elements[i].model == model.items[i] && model.items[i] != Undefined)
           && (forall i, j | 0 <= i < j < |elements| :: elements[i].Repr !! elements[j].Repr)
    }

    /** A null node, or one that is not part of a document yet. */
    constructor (defined: bool := true)
      ensures Valid() && fresh(Repr)
      ensures model == (if defined then Null else Undefined) && content == (if defined then Nothing else Missing)
    {
      content := if defined then Nothing else Missing;
      model := if defined then Null else Undefined;
      Repr := {this};
    }

    /** Whether the node can become a map, or a sequence, or is one. */
    predicate CanBeMap()
      reads this
    {
      content.Entries? || content.Nothing? || content.Missing?
    }

    predicate CanBeSequence()
      reads this
    {
      content.Elements? || content.Nothing? || content.Missing?
    }

    /** Make the node a leaf, whatever it was. */
    method SetScalar(text: string)
      requires Valid()
      modifies this
      ensures Valid() && Repr == old(Repr)
      ensures model == Scalar(text)
    {
      content := Leaf(text);
      model := Scalar(text);
    }

    /** Set the entry of a key in a map, or in a node without content, which becomes a map. */
    method SetEntry(key: string, child: YamlNode)
      requires Valid() && CanBeMap()
      requires child.Valid() && child.model != Undefined && child.Repr !! Repr
      modifies this
      ensures Valid() && content.Entries?
      ensures Repr == old(Repr) + child.Repr
      ensures content.entries == (if old(content).Entries? then old(content).entries else map[])[key := child]
      ensures model == SetKey(old(model), key, child.model)
    {
      var entries := if content.Entries? then content.entries else map[];
      content := Entries(entries[key := child]);
      model := SetKey(model, key, child.model);
      Repr := Repr + child.Repr;
    }

    /** Append an item to a sequence, or to a node without content, which becomes a sequence. */
    method PushBack(child: YamlNode)
      requires Valid() && CanBeSequence()
      requires child.Valid() && child.model != Undefined && child.Repr !! Repr
      modifies this
      ensures Valid() && content.Elements?
      ensures Repr == old(Repr) + child.Repr
      ensures content.elements == (if old(content).Elements? then old(content).elements else []) + [child]
      ensures model == Sequence(Items(old(model)) + [child.model])
    {
      var elements := if content.Elements? then content.elements else [];
      ghost var before := Items(model);
      content := Elements(elements + [child]);
      model := Sequence(before + [child.model]);
      Repr := Repr + child.Repr;
    }

    /** The other entries of a map are valid and share no node with this one or each other. */
    ghost predicate OtherEntriesValid(key: string)
      reads this, Repr
      requires content.Entries? && model.Map? && content.entries.Keys == model.entries.Keys
    {
      var entries := content.entries;
      && (forall k | k in entries && k != key ::
            && entries[k] in Repr && entries[k].Repr <= Repr - {this}
            && entries[k].Valid() && entries[k].model == model.entries[k] && model.entries[k] != Undefined)
      && (forall k, l | k in entries && l in entries && k != key && l != key && k != l ::
            entries[k].Repr !! entries[l].Repr)
    }

    /** Nothing outside one entry has changed. */
    twostate lemma OtherEntriesKept(key: string)
      requires old(Valid()) && content == old(content) && model == old(model) && Repr == old(Repr)
      requires content.Entries? && key in content.entries
      requires forall o: YamlNode | o in old(Repr) && o !in old(content.entries[key].Repr) :: unchanged(o)
      ensures OtherEntriesValid(key)
      ensures forall k | k in content.entries && k != key ::
                && content.entries[k].Repr == old(content.entries[k].Repr)
                && content.entries[k].Repr !! old(content.entries[key].Repr)
    {
      var child := content.entries[key];
      forall k | k in content.entries && k != key
        ensures content.entries[k].Repr == old(content.entries[k].Repr) && content.entries[k].Valid()
      {
        var other := content.entries[k];
        assert old(other.Valid());
        assert old(other.Repr) !! old(child.Repr);
        assert other in old(other.Repr);
        assert unchanged(other);
      }
    }

    /** Bring the node up to date with a changed entry. */
    ghost method Absorb(key: string)
      requires this in Repr && content.Entries? && model.Map? && content.entries.Keys == model.entries.Keys
      requires key in content.entries && OtherEntriesValid(key)
      requires var child := content.entries[key];
               && child.Valid() && child.model != Undefined && this !in child.Repr
               && forall k | k in content.entries && k != key :: content.entries[k].Repr !! child.Repr
      modifies this`Repr, this`model
      ensures Valid() && Repr == old(Repr) + content.entries[key].Repr
      ensures model == SetKey(old(model), key, content.entries[key].model)
    {
      var child := content.entries[key];
      Repr := Repr + child.Repr;
      model := Map(model.entries[key := child.model]);
    }

    predicate HasEntry(key: string)
      reads this
    {
      content.Entries? && key in content.entries
    }

    /**
     * Merge a document into the entry of a key. A new entry is only seen in the
     * map when the merge defines it.
     */
    method MergeEntry(key: string, source: YamlNode) returns (ok: bool)
      requires Valid() && CanBeMap()
      requires source.Valid() && Repr !! source.Repr
      modifies Repr
      ensures ok <==> Merged(Slot(old(model), key), source.model).Some?
      ensures ok ==>
                && Valid() && CanBeMap()
                && model == SetSlot(old(model), key, Merged(Slot(old(model), key), source.model).value)
      ensures fresh(Repr - old(Repr))
      decreases source.Repr, 5
    {
      if HasEntry(key) {
        ok := MergeExisting(key, source);
      } else {
        ok := MergeNew(key, source);
      }
    }

    /** Merge a document into a new entry. */
    method MergeNew(key: string, source: YamlNode) returns (ok: bool)
      requires Valid() && CanBeMap() && !HasEntry(key)
      requires source.Valid() && Repr !! source.Repr
      modifies this
      ensures ok <==> Merged(Undefined, source.model).Some?
      ensures ok ==>
                && Valid() && CanBeMap()
                && model == SetSlot(old(model), key, Merged(Undefined, source.model).value)
      ensures fresh(Repr - old(Repr))
      decreases source.Repr, 4
    {
      var child := new YamlNode(false);
      ok := child.MergeNode(source);
      if ok {
        if !child.content.Missing? {
          SetEntry(key, child);
        } else if content.Nothing? {
          content, model := Entries(map[]), Map(map[]);
        }
      }
    }

    /** Merge a document into an existing entry; no other entry is touched. */
    method MergeExisting(key: string, source: YamlNode) returns (ok: bool)
      requires Valid() && HasEntry(key)
      requires source.Valid() && content.entries[key].Repr !! source.Repr
      modifies this`Repr, this`model, content.entries[key].Repr
      ensures ok <==> Merged(Slot(old(model), key), old(source.model)).Some?
      ensures ok ==>
                && Valid() && content == old(content)
                && model == SetKey(old(model), key, Merged(Slot(old(model), key), old(source.model)).value)
      ensures ok ==> forall k | k in content.entries && k != key ::
                content.entries[k].Repr == old(content.entries[k].Repr)
      ensures fresh(Repr - old(Repr))
      decreases source.Repr, 4
    {
      var child := content.entries[key];
      DefinedResult(child.model, source.model);
      ok := child.MergeNode(source);
      if ok {
        OtherEntriesKept(key);
        Absorb(key);
      }
    }

    /**
     * Merge another document into this one, in place. The source is not
     * modified. When the merge throws, the target is left half merged.
     */
    method MergeNode(source: YamlNode) returns (ok: bool)
      requires Valid() && source.Valid() && Repr !! source.Repr
      modifies Repr
      ensures ok <==> Merged(old(model), source.model).Some?
      ensures ok ==> Valid() && model == Merged(old(model), source.model).value
      ensures fresh(Repr - old(Repr))
      decreases source.Repr, 3
    {
      match source.content
      case Leaf(text) =>
        SetScalar(text);
        return true;
      case Entries(_) =>
        ok := MergeMap(source);
      case Elements(_) =>
        ok := MergeSequences(source);
      case Nothing =>
        return false;
      case Missing =>
        return false;
    }

    /** Two valid documents without a common node. */
    ghost predicate Apart(source: YamlNode)
      reads this, Repr, source, source.Repr
    {
      Valid() && source.Valid() && Repr !! source.Repr
    }

    method MergeMap(source: YamlNode) returns (ok: bool)
      requires Apart(source) && source.content.Entries?
      modifies Repr
      ensures ok <==> Merged(old(model), source.model).Some?
      ensures ok ==> Valid() && model == Merged(old(model), source.model).value
      ensures fresh(Repr - old(Repr))
      decreases source.Repr, 2
    {
      if source.content.entries.Keys == {} {
        assert source.model.entries == map[];
        return true;
      }
      if !CanBeMap() {
        return false;
      }
      ghost var target := model;
      ok := MergeEntries(source);
      if ok {
        RestrictedAll(source.model);
      }
    }

    /** The loop over the entries of the source. */
    method MergeEntries(source: YamlNode) returns (ok: bool)
      requires Apart(source) && source.content.Entries?
      requires CanBeMap()
      modifies Repr
      ensures ok ==> Valid() && MergedSoFar(old(model), source.model, source.model.entries.Keys, model)
      ensures !ok ==> Merged(old(model), source.model).None?
      ensures fresh(Repr - old(Repr))
      decreases source.Repr, 1
    {
      ghost var target, tree, done := model, source.model, {};
      var keys := source.content.entries.Keys;
      while keys != {}
        invariant keys !! done && keys + done == source.content.entries.Keys
        invariant Valid() && Repr !! source.Repr && unchanged(source.Repr)
        invariant fresh(Repr - old(Repr))
        invariant MergedSoFar(target, tree, done, model)
        decreases keys
      {
        var k :| k in keys;
        MoveKey(keys, done, k);
        ok := MergeNextEntry(source, k, target, done);
        if !ok {
          return false;
        }
        keys := keys - {k};
        done := done + {k};
      }
      assert done == tree.entries.Keys;
      ok := true;
    }

    /** One round of the loop over the entries of the source. */
    method MergeNextEntry(source: YamlNode, key: string, ghost target: Node, ghost done: set<string>)
      returns (ok: bool)
      requires Apart(source) && source.content.Entries?
      requires key in source.content.entries && key !in done
      requires TakesEntries(target) && MergedSoFar(target, source.model, done, model)
      modifies Repr
      ensures ok ==> Apart(source) && MergedSoFar(target, source.model, done + {key}, model)
      ensures !ok ==> Merged(target, source.model).None?
      ensures fresh(Repr - old(Repr))
      decreases source.Repr, 0
    {
      MergeOneKey(target, source.model, done, model, key);
      ok := MergeEntry(key, source.content.entries[key]);
    }

    method MergeSequences(source: YamlNode) returns (ok: bool)
      requires Apart(source) && source.content.Elements?
      modifies Repr
      ensures ok <==> Merged(old(model), source.model).Some?
      ensures ok ==> Valid() && model == Merged(old(model), source.model).value
      ensures fresh(Repr - old(Repr))
      decreases source.Repr, 1
    {
      ghost var target, items := model, source.model.items;
      if source.content.elements == [] {
        return true;
      }
      if !CanBeSequence() {
        return false;
      }
      for i := 0 to |source.content.elements|
        invariant Apart(source) && fresh(Repr - old(Repr))
        invariant source.content == old(source.content) && source.model == old(source.model)
        invariant MergedItemsSoFar(target, items, i, model)
      {
        ok := MergeNextItem(source, i, target);
        if !ok {
          return false;
        }
      }
      MergedAllItems(target, items, model);
      ok := true;
    }

    /** One round of the loop over the items of the source; items beyond the target's are copied. */
    method MergeNextItem(source: YamlNode, i: nat, ghost target: Node) returns (ok: bool)
      requires Apart(source) && source.content.Elements? && i < |source.content.elements|
      requires MergedItemsSoFar(target, source.model.items, i, model)
      modifies Repr
      ensures ok ==> Apart(source) && MergedItemsSoFar(target, source.model.items, i + 1, model)
      ensures !ok ==> Merged(target, source.model).None?
      ensures fresh(Repr - old(Repr))
      decreases source.Repr, 0
    {
      MergeOneItem(target, source.model.items, i, model);
      if content.Elements? && i < |content.elements| {
        ok := MergeElement(i, source.content.elements[i]);
      } else {
        var copy := source.content.elements[i].Clone();
        PushBack(copy);
        ok := true;
      }
    }

    /** Merge a document into an item of a sequence. */
    method MergeElement(i: nat, source: YamlNode) returns (ok: bool)
      requires Valid() && content.Elements? && i < |content.elements|
      requires source.Valid() && Repr !! source.Repr
      modifies Repr
      ensures ok <==> Merged(old(model).items[i], source.model).Some?
      ensures ok ==>
                && Valid()
                && model == Sequence(old(model).items[i := Merged(old(model).items[i], source.model).value])
      ensures fresh(Repr - old(Repr))
      decreases source.Repr, 4
    {
      var child := content.elements[i];
      DefinedResult(child.model, source.model);
      ok := child.MergeNode(source);
      if ok {
        OtherElementsKept(i);
        AbsorbElement(i);
      }
    }

    /** The other items of a sequence are valid and share no node with each other. */
    ghost predicate OtherElementsValid(i: nat)
      reads this, Repr
      requires content.Elements? && model.Sequence? && |content.elements| == |model.items|
    {
      var elements := content.elements;
      && (forall j | 0 <= j < |elements| && j != i ::
            && elements[j] in Repr && elements[j].Repr <= Repr - {this}
            && elements[j].Valid() && elements[j].model == model.items[j] && model.items[j] != Undefined)
      && (forall j, k | 0 <= j < k < |elements| && j != i && k != i :: elements[j].Repr !! elements[k].Repr)
    }

    /** Nothing outside one item has changed. */
    twostate lemma OtherElementsKept(i: nat)
      requires old(Valid()) && content == old(content) && model == old(model) && Repr == old(Repr)
      requires content.Elements? && i < |content.elements|
      requires forall o: YamlNode | o in old(Repr) && o !in old(content.elements[i].Repr) :: unchanged(o)
      ensures OtherElementsValid(i)
      ensures forall j | 0 <= j < |content.elements| && j != i ::
                && content.elements[j].Repr == old(content.elements[j].Repr)
                && content.elements[j].Repr !! old(content.elements[i].Repr)
    {
      var child := content.elements[i];
      forall j | 0 <= j < |content.elements| && j != i
        ensures content.elements[j].Repr == old(content.elements[j].Repr) && content.elements[j].Valid()
      {
        var other := content.elements[j];
        assert old(other.Valid());
        assert old(other.Repr) !! old(child.Repr);
        assert other in old(other.Repr);
        assert unchanged(other);
      }
    }

    /** Bring the node up to date with a changed item. */
    ghost method AbsorbElement(i: nat)
      requires this in Repr && content.Elements? && model.Sequence? && |content.elements| == |model.items|
      requires i < |content.elements| && OtherElementsValid(i)
      requires var child := content.elements[i];
               && child.Valid() && child.model != Undefined && this !in child.Repr
               && forall j | 0 <= j < |content.elements| && j != i :: content.elements[j].Repr !! child.Repr
      modifies this`Repr, this`model
      ensures Valid() && Repr == old(Repr) + content.elements[i].Repr
      ensures model == Sequence(old(model).items[i := content.elements[i].model])
    {
      var child := content.elements[i];
      Repr := Repr + child.Repr;
      model := Sequence(model.items[i := child.model]);
    }

    /** A copy that shares no node with the original. */
    method Clone() returns (copy: YamlNode)
      requires Valid()
      ensures copy.Valid() && fresh(copy.Repr)
      ensures copy.model == model
      decreases Repr, 3
    {
      copy := new YamlNode();
      match content
      case Missing =>
        copy := new YamlNode(false);
      case Nothing =>
      case Leaf(text) =>
        copy.SetScalar(text);
      case Entries(entries) =>
        copy := CloneMap();
      case Elements(elements) =>
        copy := CloneSequence();
    }

    method CloneMap() returns (copy: YamlNode)
      requires Valid() && content.Entries?
      ensures copy.Valid() && fresh(copy.Repr)
      ensures copy.model == model
      decreases Repr, 2
    {
      copy := new YamlNode();
      copy.content, copy.model := Entries(map[]), Restricted(model, {});
      CloneEntries(copy);
      RestrictedAll(model);
    }

    /** The loop over the entries of a map. */
    method CloneEntries(copy: YamlNode)
      requires Valid() && content.Entries?
      requires copy.Valid() && copy.content.Entries? && copy.Repr !! Repr && copy.model == Restricted(model, {})
      modifies copy
      ensures copy.Valid() && fresh(copy.Repr - old(copy.Repr))
      ensures copy.model == Restricted(model, Keys(model))
      decreases Repr, 1
    {
      var keys := content.entries.Keys;
      ghost var done := {};
      while keys != {}
        invariant keys !! done && keys + done == content.entries.Keys
        invariant unchanged(Repr)
        invariant copy.Valid() && fresh(copy.Repr - old(copy.Repr)) && copy.content.Entries?
        invariant copy.model == Restricted(model, done)
        decreases keys
      {
        var k :| k in keys;
        MoveKey(keys, done, k);
        RestrictedStep(model, done, k);
        CloneEntry(copy, k);
        keys := keys - {k};
        done := done + {k};
      }
      assert done == Keys(model);
    }

    method CloneEntry(copy: YamlNode, key: string)
      requires Valid() && content.Entries? && key in content.entries
      requires copy.Valid() && copy.content.Entries? && copy.Repr !! Repr
      modifies copy
      ensures copy.Valid() && copy.content.Entries? && fresh(copy.Repr - old(copy.Repr))
      ensures copy.model == SetKey(old(copy.model), key, model.entries[key])
      decreases Repr, 0
    {
      var child := content.entries[key].Clone();
      copy.SetEntry(key, child);
    }

    method CloneSequence() returns (copy: YamlNode)
      requires Valid() && content.Elements?
      ensures copy.Valid() && fresh(copy.Repr)
      ensures copy.model == model
      decreases Repr, 0
    {
      copy := new YamlNode();
      copy.content, copy.model := Elements([]), Sequence([]);
      for i := 0 to |content.elements|
        invariant copy.Valid() && fresh(copy.Repr) && copy.content.Elements?
        invariant copy.model == Sequence(model.items[..i])
      {
        var child := content.elements[i].Clone();
        copy.PushBack(child);
        assert model.items[..i + 1] == model.items[..i] + [model.items[i]];
      }
      assert model.items[..|content.elements|] == model.items;
    }
  }
}
