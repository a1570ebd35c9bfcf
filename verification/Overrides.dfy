/**
 * The loading pass as it runs: class overrides that share nodes with the
 * document, copies of them that are merged in place, and the loops over
 * attributes and list items. A set of class overrides is held as a map node.
 */
module Overrides {
  import opened Common
  import opened Yaml
  import opened Y = YamlNode
  import opened Config
  import opened C = ConfigNode

  ghost predicate IsScope(scope: YamlNode)
    reads scope, scope.Repr
  {
    scope.Valid() && scope.content.Entries?
  }

  /** The overrides of a scope. */
  ghost function ScopeOf(scope: YamlNode): Scope
    requires scope.model.Map?
    reads scope
  {
    scope.model.entries
  }

  // ---------------------------------------------------------------------
  // Class overrides
  // ---------------------------------------------------------------------

  /** The class overrides of the document still to be merged share no node with the scope. */
  ghost predicate Pending(scope: YamlNode, entries: map<string, YamlNode>, keys: set<string>, mine: set<YamlNode>)
    requires scope.content.Entries? && keys <= entries.Keys
    reads scope, scope.content.entries.Values, entries.Values
  {
    && (forall k | k in keys :: scope.Repr !! entries[k].Repr)
    && (forall k | k in keys && k in scope.content.entries :: scope.content.entries[k].Repr <= mine)
  }

  /**
   * Merge the class overrides of a document into a scope. Overrides of new
   * classes are not copied: the scope then shares their nodes with the
   * document. Overrides of known classes are merged in place.
   */
  method MergeScope(scope: YamlNode, node: YamlNode) returns (ok: bool)
    requires IsScope(scope) && node.Valid() && scope.Repr !! node.Repr
    modifies scope.Repr
    ensures ok <==> MergedScope(old(ScopeOf(scope)), old(node.model)).Some?
    ensures ok ==> IsScope(scope) && Some(ScopeOf(scope)) == MergedScope(old(ScopeOf(scope)), old(node.model))
  {
    ghost var before, doc := ScopeOf(scope), node.model;
    if !node.content.Entries? {
      NoClassKeys(before, doc);
      return true;
    }
    var entries := node.content.entries;
    var keys := set k | k in entries.Keys && IsClassKey(k);
    ghost var all, done, mine := keys, {}, scope.Repr;
    assert all == ClassKeys(doc);
    while keys != {}
      invariant keys !! done && keys + done == all
      invariant node.Valid() && node.content == Entries(entries) && node.model == doc && mine !! node.Repr
      invariant IsScope(scope) && scope in mine
      invariant Pending(scope, entries, keys, mine)
      invariant ScopeSoFar(before, doc, done, ScopeOf(scope))
      decreases keys
    {
      var k :| k in keys;
      MoveKey(keys, done, k);
      MergeOneClass(before, doc, done, ScopeOf(scope), k);
      label round:
      ok := MergeNextClass(scope, node, k, keys, mine);
      assert unchanged@round(node.Repr);
      if !ok {
        return false;
      }
      keys := keys - {k};
      done := done + {k};
    }
    assert done == all;
    MergedAllClasses(before, doc, ScopeOf(scope));
    ok := true;
  }

  /** One round of the loop over the class overrides of a document. */
  method MergeNextClass(
      scope: YamlNode, node: YamlNode, key: string, ghost keys: set<string>, ghost mine: set<YamlNode>)
    returns (ok: bool)
    requires IsScope(scope) && scope in mine
    requires node.Valid() && node.content.Entries? && mine !! node.Repr
    requires keys <= node.content.entries.Keys && key in keys && Pending(scope, node.content.entries, keys, mine)
    modifies mine
    ensures ok <==> Mergeable(old(ScopeOf(scope)), old(node.model), key)
    ensures ok ==>
              && IsScope(scope)
              && Pending(scope, old(node.content.entries), keys - {key}, mine)
              && ScopeOf(scope) == WithClass(old(ScopeOf(scope)), old(node.model), key)
  {
    if scope.HasEntry(key) {
      ok := scope.MergeExisting(key, node.content.entries[key]);
    } else {
      InsertClass(scope, node, key, keys, mine);
      ok := true;
    }
  }

  /** The overrides of a new class are inserted as they are. */
  method InsertClass(
      scope: YamlNode, node: YamlNode, key: string, ghost keys: set<string>, ghost mine: set<YamlNode>)
    requires IsScope(scope) && scope in mine && !scope.HasEntry(key)
    requires node.Valid() && node.content.Entries? && mine !! node.Repr
    requires keys <= node.content.entries.Keys && key in keys && Pending(scope, node.content.entries, keys, mine)
    modifies scope
    ensures IsScope(scope)
    ensures Pending(scope, old(node.content.entries), keys - {key}, mine)
    ensures ScopeOf(scope) == WithClass(old(ScopeOf(scope)), old(node.model), key)
  {
    scope.SetEntry(key, node.content.entries[key]);
  }

  // ---------------------------------------------------------------------
  // Applying overrides
  // ---------------------------------------------------------------------

  /**
   * Apply a document of overrides to a configuration, in place. Only nodes of
   * the configuration are modified: neither the document nor the caller's
   * class overrides change, even though the scopes made on the way share nodes
   * with them.
   */
  method ApplyOverrides(schema: Schema, c: ConfigNode, doc: YamlNode, scope: YamlNode) returns (ok: bool)
    requires c.Valid() && Conforms(schema, c.value) && WellFormed(schema)
    requires doc.Valid() && IsScope(scope)
    modifies c.Repr
    ensures ok <==> Applied(schema, old(c.value), doc.model, ScopeOf(scope)).Some?
    ensures ok ==> c.Valid() && Some(c.value) == Applied(schema, old(c.value), doc.model, ScopeOf(scope))
    ensures fresh(c.Repr - old(c.Repr))
    decreases schema, 0
  {
    match schema
    case LeafSchema(_) =>
      match doc.content {
        case Nothing => return true;
        case Missing => return true;
        case Leaf(text) =>
          c.SetText(text);
          return true;
        case _ => return false;
      }
    case ObjectSchema(attrs) =>
      ok := ApplyToAttributes(attrs, c, doc, scope);
    case ListSchema(element, _) =>
      ok := ApplyToItems(element, c, doc, scope);
  }

  /** The values of an object's attributes are of the attributes' classes. */
  ghost predicate FieldsConform(attrs: seq<Attribute>, v: Value) {
    && v.Object? && |v.fields| == |attrs|
    && forall i | 0 <= i < |attrs| :: Conforms(attrs[i].schema, v.fields[i]) && WellFormed(attrs[i].schema)
  }

  /** The loop over the attributes of an object, each changed in its place. */
  method ApplyToAttributes(attrs: seq<Attribute>, c: ConfigNode, doc: YamlNode, scope: YamlNode) returns (ok: bool)
    requires c.Valid() && FieldsConform(attrs, c.value)
    requires doc.Valid() && IsScope(scope)
    modifies c.Repr
    ensures ok <==> AppliedFields(attrs, old(c.value).fields, doc.model, ScopeOf(scope)).Some?
    ensures ok ==>
              && c.Valid()
              && c.value == Object(AppliedFields(attrs, old(c.value).fields, doc.model, ScopeOf(scope)).value)
    ensures fresh(c.Repr - old(c.Repr))
    decreases attrs, 3
  {
    ghost var values, docs, classes := c.value.fields, doc.model, ScopeOf(scope);
    for i := 0 to |attrs|
      invariant c.Valid() && fresh(c.Repr - old(c.Repr))
      invariant c.value.Object? && |c.value.fields| == |attrs| && c.value.fields[i..] == values[i..]
      invariant unchanged(doc.Repr) && unchanged(scope.Repr)
      invariant forall j | 0 <= j < i :: AppliedField(attrs[j], values[j], docs, classes) == Some(c.value.fields[j])
    {
      assert c.value.fields[i] == c.value.fields[i..][0] == values[i];
      ok := ApplyToAttribute(attrs[i], c, i, doc, scope);
      if !ok {
        if AppliedFields(attrs, values, docs, classes).Some? {
          FieldsApplied(attrs, values, docs, classes, i);
        }
        return false;
      }
    }
    FieldsAre(attrs, values, docs, classes, c.value.fields);
    ok := true;
  }

  /** One attribute of an object; no other attribute is touched. */
  method ApplyToAttribute(a: Attribute, c: ConfigNode, i: nat, doc: YamlNode, scope: YamlNode) returns (ok: bool)
    requires c.Valid() && c.value.Object? && i < |c.value.fields|
    requires Conforms(a.schema, c.value.fields[i]) && WellFormed(a.schema)
    requires doc.Valid() && IsScope(scope)
    modifies c.Repr
    ensures ok <==> AppliedField(a, old(c.value).fields[i], doc.model, ScopeOf(scope)).Some?
    ensures ok ==>
              && c.Valid()
              && c.value
                 == Object(old(c.value).fields[
                           i := AppliedField(a, old(c.value).fields[i], doc.model, ScopeOf(scope)).value])
    ensures fresh(c.Repr - old(c.Repr))
    decreases a.schema, 3
  {
    var child := c.Children()[i];
    ok := ApplyToMember(a, child, doc, scope);
    if ok {
      c.OthersKept(i);
      c.Absorb(i);
    }
  }

  /** First the class override of the attribute, then the overrides under its name, in a scope of its own. */
  method ApplyToMember(a: Attribute, c: ConfigNode, doc: YamlNode, scope: YamlNode) returns (ok: bool)
    requires c.Valid() && Conforms(a.schema, c.value) && WellFormed(a.schema)
    requires doc.Valid() && IsScope(scope)
    modifies c.Repr
    ensures ok <==> AppliedField(a, old(c.value), doc.model, ScopeOf(scope)).Some?
    ensures ok ==> c.Valid() && Some(c.value) == AppliedField(a, old(c.value), doc.model, ScopeOf(scope))
    ensures fresh(c.Repr - old(c.Repr))
    decreases a.schema, 2
  {
    ok := ApplyByClass(a, c, scope);
    if ok {
      ok := ApplyByName(a, c, doc, scope);
    }
  }

  method ApplyByClass(a: Attribute, c: ConfigNode, scope: YamlNode) returns (ok: bool)
    requires c.Valid() && Conforms(a.schema, c.value) && WellFormed(a.schema)
    requires IsScope(scope)
    modifies c.Repr
    ensures var r := ByClass(a, old(c.value), ScopeOf(scope));
            (ok <==> r.Some?) && (ok ==> c.Valid() && Some(c.value) == r)
    ensures fresh(c.Repr - old(c.Repr))
    decreases a.schema, 1
  {
    if a.className != "" && scope.HasEntry(ClassKey(a)) {
      ok := ApplyOverrides(a.schema, c, scope.content.entries[ClassKey(a)], scope);
    } else {
      ok := true;
    }
  }

  method ApplyByName(a: Attribute, c: ConfigNode, doc: YamlNode, scope: YamlNode) returns (ok: bool)
    requires c.Valid() && Conforms(a.schema, c.value) && WellFormed(a.schema)
    requires doc.Valid() && IsScope(scope)
    modifies c.Repr
    ensures var r := ByName(a, old(c.value), doc.model, ScopeOf(scope));
            (ok <==> r.Some?) && (ok ==> c.Valid() && Some(c.value) == r)
    ensures fresh(c.Repr - old(c.Repr))
    decreases a.schema, 1
  {
    var nested := NestedNode(doc, a.name);
    var newScope;
    ok, newScope := OpenScope(scope, nested);
    if ok {
      ok := ApplyOverrides(a.schema, c, nested, newScope);
    }
  }

  /** The node under a name; a null one when there is none. */
  method NestedNode(doc: YamlNode, name: string) returns (nested: YamlNode)
    requires doc.Valid()
    ensures nested.Valid() && nested.model == Entry(doc.model, name)
  {
    if doc.HasEntry(name) {
      nested := doc.content.entries[name];
    } else {
      nested := new YamlNode();
    }
  }

  /** A copy of the scope with the class overrides of a nested document merged into it. */
  method OpenScope(scope: YamlNode, nested: YamlNode) returns (ok: bool, newScope: YamlNode)
    requires IsScope(scope) && nested.Valid()
    ensures ok <==> MergedScope(ScopeOf(scope), nested.model).Some?
    ensures ok ==> IsScope(newScope) && Some(ScopeOf(newScope)) == MergedScope(ScopeOf(scope), nested.model)
  {
    newScope := scope.Clone();
    label before:
    ok := MergeScope(newScope, nested);
    assert unchanged@before(nested.Repr);
  }

  /** How many nodes a loop over a document visits. */
  method IterationCount(doc: YamlNode) returns (n: nat)
    requires doc.Valid()
    ensures n == |Iterated(doc.model)|
  {
    match doc.content
    case Elements(elements) => n := |elements|;
    case Entries(entries) =>
      KeysCount(entries, doc.model.entries);
      n := |entries|;
    case _ => n := 0;
  }

  /** A node that a loop over a document visits. */
  method IterationNode(doc: YamlNode, i: nat) returns (node: YamlNode)
    requires doc.Valid() && i < |Iterated(doc.model)|
    ensures node.Valid() && node.model == Iterated(doc.model)[i]
  {
    if doc.content.Elements? {
      node := doc.content.elements[i];
    } else {
      node := new YamlNode(false);
    }
  }

  lemma KeysCount<X, Y, Z>(m: map<X, Y>, n: map<X, Z>)
    requires m.Keys == n.Keys
    ensures |m| == |n|
  {
    assert |m| == |m.Keys| && |n| == |n.Keys|;
  }

  /**
   * The members of a list from `idx` on are as they were, and share no node
   * with each other or with those already taken.
   */
  ghost predicate Waiting(
      lhs: seq<ConfigNode>, items: seq<Value>, idx: nat, mine: set<ConfigNode>, taken: set<ConfigNode>)
    reads mine
    decreases |lhs| - idx
  {
    && |lhs| == |items|
    && (idx < |lhs| ==>
          && lhs[idx] in mine && lhs[idx].Repr <= mine && lhs[idx].Repr !! taken
          && lhs[idx].Valid() && lhs[idx].value == items[idx]
          && Waiting(lhs, items, idx + 1, mine, taken + lhs[idx].Repr))
  }

  /** The same, said of all the members at once. */
  ghost predicate AllWait(
      lhs: seq<ConfigNode>, items: seq<Value>, idx: nat, mine: set<ConfigNode>, taken: set<ConfigNode>)
    reads mine
  {
    && |lhs| == |items|
    && (forall j | idx <= j < |lhs| ::
          && lhs[j] in mine && lhs[j].Repr <= mine && lhs[j].Repr !! taken
          && lhs[j].Valid() && lhs[j].value == items[j])
    && (forall j, k | idx <= j < k < |lhs| :: lhs[j].Repr !! lhs[k].Repr)
  }

  lemma {:induction false} WaitingMeans(
      lhs: seq<ConfigNode>, items: seq<Value>, idx: nat, mine: set<ConfigNode>, taken: set<ConfigNode>)
    requires Waiting(lhs, items, idx, mine, taken)
    ensures AllWait(lhs, items, idx, mine, taken)
    decreases |lhs| - idx
  {
    if idx < |lhs| {
      WaitingMeans(lhs, items, idx + 1, mine, taken + lhs[idx].Repr);
    }
  }

  lemma {:induction false} WaitingFrom(
      lhs: seq<ConfigNode>, items: seq<Value>, idx: nat, mine: set<ConfigNode>, taken: set<ConfigNode>)
    requires AllWait(lhs, items, idx, mine, taken)
    ensures Waiting(lhs, items, idx, mine, taken)
    decreases |lhs| - idx
  {
    if idx < |lhs| {
      WaitingFrom(lhs, items, idx + 1, mine, taken + lhs[idx].Repr);
    }
  }

  /**
   * The loops over the items of a list: those in the document are moved into a
   * new list and changed, the rest is moved as it is, and the lists are swapped.
   */
  method ApplyToItems(element: Schema, c: ConfigNode, doc: YamlNode, scope: YamlNode) returns (ok: bool)
    requires c.Valid() && c.value.List? && WellFormed(element)
    requires forall i | 0 <= i < |c.value.items| :: Conforms(element, c.value.items[i])
    requires doc.Valid() && IsScope(scope)
    modifies c.Repr
    ensures var r := AppliedItems(element, old(c.value).items, Iterated(doc.model), ScopeOf(scope));
            (ok <==> r.Some?) && (ok ==> c.Valid() && c.value == List(r.value))
    ensures fresh(c.Repr - old(c.Repr))
    decreases element, 6
  {
    WaitingFrom(c.Children(), c.value.items, 0, c.Repr - {c}, {});
    var tmp;
    ok, tmp := MoveItems(element, c.Children(), doc, scope, c.value.items, c.Repr - {c});
    if ok {
      c.TakeMembers(tmp);
    }
  }

  method MoveItems(
      element: Schema, lhs: seq<ConfigNode>, doc: YamlNode, scope: YamlNode,
      ghost items: seq<Value>, ghost mine: set<ConfigNode>) returns (ok: bool, tmp: ConfigNode)
    requires WellFormed(element) && forall i | 0 <= i < |items| :: Conforms(element, items[i])
    requires Waiting(lhs, items, 0, mine, {})
    requires doc.Valid() && IsScope(scope)
    modifies mine
    ensures var r := AppliedItems(element, items, Iterated(doc.model), ScopeOf(scope));
            (ok <==> r.Some?) && (ok ==> tmp.Valid() && tmp.value == List(r.value))
    ensures fresh(tmp) && (ok ==> fresh(tmp.Repr - mine))
    decreases element, 5
  {
    WaitingMeans(lhs, items, 0, mine, {});
    tmp := NewList();
    WaitingFrom(lhs, items, 0, mine, tmp.Repr);
    var idx;
    ghost var docs, classes := Iterated(doc.model), ScopeOf(scope);
    ok, idx := ApplyToMentioned(element, lhs, tmp, doc, scope, docs, classes, items, mine);
    if ok {
      FinishItems(element, lhs, idx, tmp, docs, classes, items, mine);
    }
  }

  /** Move the items that the document does not mention, after those that it does. */
  method FinishItems(
      element: Schema, lhs: seq<ConfigNode>, idx: nat, tmp: ConfigNode,
      ghost docs: seq<Node>, ghost classes: Scope, ghost items: seq<Value>, ghost mine: set<ConfigNode>)
    requires WellFormed(element) && forall i | 0 <= i < |items| :: Conforms(element, items[i])
    requires tmp.Valid() && tmp.value.List? && tmp !in mine
    requires Waiting(lhs, items, idx, mine, tmp.Repr)
    requires idx == |docs| && ItemsDone(element, items, docs, classes, idx, tmp.value.items)
    modifies tmp
    ensures tmp.Valid() && tmp.value.List? && AppliedItems(element, items, docs, classes) == Some(tmp.value.items)
    ensures tmp.Repr <= old(tmp.Repr) + mine
  {
    ItemsEnd(element, items, docs, classes, tmp.value.items);
    KeepTail(lhs, idx, tmp, items, mine);
  }

  /** The loop over the items in the document. */
  method ApplyToMentioned(
      element: Schema, lhs: seq<ConfigNode>, tmp: ConfigNode, doc: YamlNode, scope: YamlNode,
      ghost docs: seq<Node>, ghost classes: Scope, ghost items: seq<Value>, ghost mine: set<ConfigNode>)
    returns (ok: bool, idx: nat)
    requires WellFormed(element) && forall i | 0 <= i < |items| :: Conforms(element, items[i])
    requires tmp.Valid() && tmp.value == List([]) && tmp.Repr == {tmp} && tmp !in mine
    requires Waiting(lhs, items, 0, mine, tmp.Repr)
    requires doc.Valid() && IsScope(scope) && docs == Iterated(doc.model) && classes == ScopeOf(scope)
    modifies tmp, mine
    ensures ok ==>
              && tmp.Valid() && tmp.value.List? && Waiting(lhs, items, idx, mine, tmp.Repr)
              && fresh(tmp.Repr - {tmp} - mine)
              && idx == |docs| && ItemsDone(element, items, docs, classes, idx, tmp.value.items)
    ensures !ok ==> AppliedItems(element, items, docs, classes).None?
    decreases element, 4
  {
    var count := IterationCount(doc);
    idx := 0;
    while idx < count
      invariant idx <= count
      invariant tmp.Valid() && tmp.value.List? && fresh(tmp.Repr - {tmp} - mine)
      invariant Waiting(lhs, items, idx, mine, tmp.Repr)
      invariant ItemsDone(element, items, docs, classes, idx, tmp.value.items)
      invariant unchanged(doc.Repr) && unchanged(scope.Repr)
    {
      ok := ApplyToNext(element, lhs, idx, tmp, doc, scope, docs, classes, items, mine);
      if !ok {
        return;
      }
      idx := idx + 1;
    }
    ok := true;
  }

  /** One round of the loop over the items in the document. */
  method ApplyToNext(
      element: Schema, lhs: seq<ConfigNode>, idx: nat, tmp: ConfigNode, doc: YamlNode, scope: YamlNode,
      ghost docs: seq<Node>, ghost classes: Scope, ghost items: seq<Value>, ghost mine: set<ConfigNode>)
    returns (ok: bool)
    requires WellFormed(element) && forall i | 0 <= i < |items| :: Conforms(element, items[i])
    requires tmp.Valid() && tmp.value.List? && tmp !in mine
    requires Waiting(lhs, items, idx, mine, tmp.Repr)
    requires doc.Valid() && IsScope(scope) && docs == Iterated(doc.model) && classes == ScopeOf(scope)
    requires idx < |docs| && ItemsDone(element, items, docs, classes, idx, tmp.value.items)
    modifies tmp, mine
    ensures ok ==>
              && tmp.Valid() && tmp.value.List? && Waiting(lhs, items, idx + 1, mine, tmp.Repr)
              && ItemsDone(element, items, docs, classes, idx + 1, tmp.value.items)
    ensures !ok ==> AppliedItems(element, items, docs, classes).None?
    ensures fresh(tmp.Repr - old(tmp.Repr) - mine)
    decreases element, 3
  {
    ghost var done := tmp.value.items;
    ItemsStep(element, items, docs, classes, idx, done);
    ghost var goal := Applied(element, ItemOr(element, items, idx), docs[idx], classes);
    var node := IterationNode(doc, idx);
    ok := ApplyToItem(element, lhs, idx, tmp, node, scope, goal, items, mine);
    assert ok ==> tmp.value.items == done + [goal.value];
  }

  /** An item of the list, or a new one, is changed and moved. */
  method ApplyToItem(
      element: Schema, lhs: seq<ConfigNode>, idx: nat, tmp: ConfigNode, node: YamlNode, scope: YamlNode,
      ghost goal: Option<Value>, ghost items: seq<Value>, ghost mine: set<ConfigNode>) returns (ok: bool)
    requires WellFormed(element) && Conforms(element, ItemOr(element, items, idx))
    requires tmp.Valid() && tmp.value.List? && tmp !in mine
    requires Waiting(lhs, items, idx, mine, tmp.Repr)
    requires node.Valid() && IsScope(scope)
    requires goal == Applied(element, ItemOr(element, items, idx), node.model, ScopeOf(scope))
    modifies tmp, mine
    ensures ok <==> goal.Some?
    ensures ok ==>
              && tmp.Valid() && tmp.value == ListWith(old(tmp.value), goal.value)
              && Waiting(lhs, items, idx + 1, mine, tmp.Repr)
    ensures fresh(tmp.Repr - old(tmp.Repr) - mine)
    decreases element, 2
  {
    var v := ItemToChange(element, lhs, idx, items, mine, tmp.Repr);
    label round:
    ok := ChangeItem(element, v, node, scope, lhs, idx + 1, goal, items, mine, tmp.Repr);
    assert unchanged@round(tmp.Repr);
    if ok {
      assert fresh(v.Repr - mine);
      Move(v, tmp, lhs, idx + 1, items, mine);
    }
  }

  /** Move a changed item into the new list; the items from `next` on still wait. */
  method Move(
      v: ConfigNode, tmp: ConfigNode, ghost lhs: seq<ConfigNode>, ghost next: nat,
      ghost items: seq<Value>, ghost mine: set<ConfigNode>)
    requires tmp.Valid() && tmp.value.List? && v.Valid() && v.Repr !! tmp.Repr && tmp !in mine
    requires Waiting(lhs, items, next, mine, tmp.Repr + v.Repr)
    modifies tmp
    ensures tmp.Valid() && tmp.value == ListWith(old(tmp.value), v.value)
    ensures tmp.Repr == old(tmp.Repr) + v.Repr
    ensures Waiting(lhs, items, next, mine, tmp.Repr)
  {
    tmp.PushBack(v);
  }

  /** An item of the list, or a new one beyond its end; the items after it still wait. */
  method ItemToChange(
      element: Schema, lhs: seq<ConfigNode>, idx: nat,
      ghost items: seq<Value>, ghost mine: set<ConfigNode>, ghost taken: set<ConfigNode>) returns (v: ConfigNode)
    requires Waiting(lhs, items, idx, mine, taken)
    ensures v.Valid() && v.value == ItemOr(element, items, idx) && v.Repr !! taken
    ensures fresh(v.Repr - mine)
    ensures Waiting(lhs, items, idx + 1, mine, taken + v.Repr)
  {
    if idx < |lhs| {
      v := lhs[idx];
    } else {
      v := FromValue(Default(element));
    }
  }

  /** Change one item; its new nodes are its own, so the items from `next` on still wait. */
  method ChangeItem(
      element: Schema, v: ConfigNode, node: YamlNode, scope: YamlNode, ghost lhs: seq<ConfigNode>, ghost next: nat,
      ghost goal: Option<Value>, ghost items: seq<Value>, ghost mine: set<ConfigNode>, ghost taken: set<ConfigNode>)
    returns (ok: bool)
    requires WellFormed(element) && v.Valid() && Conforms(element, v.value)
    requires Waiting(lhs, items, next, mine, taken + v.Repr)
    requires node.Valid() && IsScope(scope)
    requires goal == Applied(element, v.value, node.model, ScopeOf(scope))
    modifies v.Repr
    ensures ok <==> goal.Some?
    ensures ok ==> v.Valid() && v.value == goal.value
    ensures ok ==> Waiting(lhs, items, next, mine, taken + v.Repr)
    ensures fresh(v.Repr - old(v.Repr))
    decreases element, 1
  {
    WaitingMeans(lhs, items, next, mine, taken + v.Repr);
    label round:
    ok := ApplyOverrides(element, v, node, scope);
    assert forall j | next <= j < |lhs| :: unchanged@round(lhs[j].Repr);
    if ok {
      WaitingFrom(lhs, items, next, mine, taken + v.Repr);
    }
  }

  /** The loop over the items that the document does not mention. */
  method KeepTail(
      lhs: seq<ConfigNode>, start: nat, tmp: ConfigNode, ghost items: seq<Value>, ghost mine: set<ConfigNode>)
    requires tmp.Valid() && tmp.value.List? && tmp !in mine
    requires Waiting(lhs, items, start, mine, tmp.Repr)
    modifies tmp
    ensures tmp.Valid() && tmp.value == List(old(tmp.value).items + From(items, start))
    ensures tmp.Repr <= old(tmp.Repr) + mine
  {
    ghost var goal, nodes := tmp.value.items + From(items, start), tmp.Repr + mine;
    BecomesTotal(goal, tmp.value.items, items, start);
    KeepItems(lhs, start, tmp, goal, items, mine, nodes);
  }

  method KeepItems(
      lhs: seq<ConfigNode>, start: nat, tmp: ConfigNode,
      ghost goal: seq<Value>, ghost items: seq<Value>, ghost mine: set<ConfigNode>, ghost nodes: set<ConfigNode>)
    requires tmp.Valid() && tmp.value.List? && tmp !in mine && tmp.Repr <= nodes && mine <= nodes
    requires Waiting(lhs, items, start, mine, tmp.Repr) && Becomes(goal, tmp.value.items, items, start)
    modifies tmp
    ensures tmp.Valid() && tmp.value == List(goal) && tmp.Repr <= nodes
  {
    var idx := start;
    while idx < |lhs|
      invariant tmp.Valid() && tmp.value.List? && tmp.Repr <= nodes
      invariant Waiting(lhs, items, idx, mine, tmp.Repr)
      invariant Becomes(goal, tmp.value.items, items, idx)
      decreases |lhs| - idx
    {
      KeepItem(lhs, idx, tmp, goal, items, mine, nodes);
      idx := idx + 1;
    }
  }

  method KeepItem(
      lhs: seq<ConfigNode>, idx: nat, tmp: ConfigNode,
      ghost goal: seq<Value>, ghost items: seq<Value>, ghost mine: set<ConfigNode>, ghost nodes: set<ConfigNode>)
    requires tmp.Valid() && tmp.value.List? && tmp !in mine && tmp.Repr <= nodes && mine <= nodes
    requires Waiting(lhs, items, idx, mine, tmp.Repr) && idx < |lhs| && Becomes(goal, tmp.value.items, items, idx)
    modifies tmp
    ensures tmp.Valid() && tmp.value.List? && Becomes(goal, tmp.value.items, items, idx + 1)
    ensures Waiting(lhs, items, idx + 1, mine, tmp.Repr) && tmp.Repr <= nodes
  {
    tmp.PushBack(lhs[idx]);
  }

  method EmptyScope() returns (scope: YamlNode)
    ensures IsScope(scope) && fresh(scope.Repr) && ScopeOf(scope) == map[]
  {
    scope := new YamlNode();
    scope.content, scope.model := Entries(map[]), Map(map[]);
  }

  /** Load a document: its own class overrides make the first scope. */
  method Load(schema: Schema, c: ConfigNode, doc: YamlNode) returns (ok: bool)
    requires c.Valid() && Conforms(schema, c.value) && WellFormed(schema) && doc.Valid()
    modifies c.Repr
    ensures ok <==> Loaded(schema, old(c.value), doc.model).Some?
    ensures ok ==> c.Valid() && Some(c.value) == Loaded(schema, old(c.value), doc.model)
    ensures fresh(c.Repr - old(c.Repr))
  {
    var byClass := EmptyScope();
    label before:
    ok := MergeScope(byClass, doc);
    assert unchanged@before(doc.Repr);
    if ok {
      ok := ApplyOverrides(schema, c, doc, byClass);
    }
  }
}
