/** When loading overrides throws, said about one path through the configuration class and the document. */
module Faults {
  import opened Common
  import opened Yaml
  import opened Config

  /** One step of the pass: into the class override or the named overrides of an attribute, or into an item. */
  datatype Hop = ByClassOf(i: nat) | ByNameOf(i: nat) | ItemOf(i: nat)

  /**
   * Following the path, the pass meets a map or a sequence where a leaf takes
   * its value, or class overrides that can not be merged into the scope.
   */
  ghost predicate Faulty(schema: Schema, doc: Node, scope: Scope, path: seq<Hop>)
    decreases |path|, 0
  {
    if path == [] then schema.LeafSchema? && (doc.Map? || doc.Sequence?)
    else
      match path[0]
      case ByClassOf(i) =>
        && schema.ObjectSchema? && i < |schema.attrs|
        && FaultyByClass(schema.attrs[i], scope, path[1..])
      case ByNameOf(i) =>
        && schema.ObjectSchema? && i < |schema.attrs|
        && FaultyByName(schema.attrs[i], doc, scope, path[1..])
      case ItemOf(i) =>
        && schema.ListSchema? && i < |Iterated(doc)|
        && Faulty(schema.element, Iterated(doc)[i], scope, path[1..])
  }

  ghost predicate FaultyByClass(a: Attribute, scope: Scope, rest: seq<Hop>)
    decreases |rest|, 1
  {
    var key := ":" + a.className;
    a.className != "" && key in scope && Faulty(a.schema, scope[key], scope, rest)
  }

  ghost predicate FaultyByName(a: Attribute, doc: Node, scope: Scope, rest: seq<Hop>)
    decreases |rest|, 1
  {
    var nested := Entry(doc, a.name);
    var newScope := MergedScope(scope, nested);
    if newScope.None? then rest == [] else Faulty(a.schema, nested, newScope.value, rest)
  }

  ghost predicate HasFault(schema: Schema, doc: Node, scope: Scope) {
    exists path: seq<Hop> :: Faulty(schema, doc, scope, path)
  }

  lemma {:induction false} FaultThrows(schema: Schema, v: Value, doc: Node, scope: Scope, path: seq<Hop>)
    requires Conforms(schema, v) && WellFormed(schema) && Faulty(schema, doc, scope, path)
    ensures Applied(schema, v, doc, scope).None?
    decreases |path|, 1
  {
    if path != [] {
      match path[0]
      case ByClassOf(i) =>
        var a := schema.attrs[i];
        FaultThrows(a.schema, v.fields[i], scope[ClassKey(a)], scope, path[1..]);
        FieldThrows(schema, v, doc, scope, i);
      case ByNameOf(i) =>
        NameThrows(schema.attrs[i], v.fields[i], doc, scope, path[1..]);
        FieldThrows(schema, v, doc, scope, i);
      case ItemOf(i) =>
        ItemThrows(schema, v, doc, scope, path);
    }
  }

  lemma {:induction false} NameThrows(a: Attribute, v: Value, doc: Node, scope: Scope, rest: seq<Hop>)
    requires Conforms(a.schema, v) && WellFormed(a.schema) && FaultyByName(a, doc, scope, rest)
    ensures AppliedField(a, v, doc, scope).None?
    decreases |rest|, 2
  {
    var byClass, nested := ByClass(a, v, scope), Entry(doc, a.name);
    if byClass.Some? && MergedScope(scope, nested).Some? {
      FaultThrows(a.schema, byClass.value, nested, MergedScope(scope, nested).value, rest);
    }
  }

  lemma FieldThrows(schema: Schema, v: Value, doc: Node, scope: Scope, i: nat)
    requires Conforms(schema, v) && WellFormed(schema) && schema.ObjectSchema? && i < |schema.attrs|
    requires AppliedField(schema.attrs[i], v.fields[i], doc, scope).None?
    ensures Applied(schema, v, doc, scope).None?
  {
    if AppliedFields(schema.attrs, v.fields, doc, scope).Some? {
      FieldsApplied(schema.attrs, v.fields, doc, scope, i);
    }
  }

  lemma {:induction false} ItemThrows(schema: Schema, v: Value, doc: Node, scope: Scope, path: seq<Hop>)
    requires Conforms(schema, v) && WellFormed(schema) && schema.ListSchema?
    requires path != [] && path[0].ItemOf? && Faulty(schema, doc, scope, path)
    ensures Applied(schema, v, doc, scope).None?
    decreases |path|, 0
  {
    var element, i := schema.element, path[0].i;
    DefaultConforms(element);
    FaultThrows(element, ItemOr(element, v.items, i), Iterated(doc)[i], scope, path[1..]);
    ItemFails(element, v.items, Iterated(doc), scope, i);
  }

  /** A pass that throws has met a fault. */
  lemma {:induction false} ThrowsAtFault(schema: Schema, v: Value, doc: Node, scope: Scope) returns (path: seq<Hop>)
    requires Conforms(schema, v) && WellFormed(schema) && Applied(schema, v, doc, scope).None?
    ensures Faulty(schema, doc, scope, path)
    decreases schema, 1
  {
    match schema
    case LeafSchema(_) =>
      path := [];
    case ObjectSchema(attrs) =>
      var i := FailingField(attrs, v.fields, doc, scope);
      var hop, rest := ThrowsAtField(attrs[i], v.fields[i], doc, scope, i);
      path := [hop] + rest;
    case ListSchema(element, _) =>
      var i := FailingListItem(element, v.items, Iterated(doc), scope);
      var rest := ThrowsAtFault(element, ItemOr(element, v.items, i), Iterated(doc)[i], scope);
      path := [ItemOf(i)] + rest;
  }

  lemma {:induction false} ThrowsAtField(a: Attribute, v: Value, doc: Node, scope: Scope, i: nat)
    returns (hop: Hop, rest: seq<Hop>)
    requires Conforms(a.schema, v) && WellFormed(a.schema) && AppliedField(a, v, doc, scope).None?
    ensures if hop == ByClassOf(i) then
              FaultyByClass(a, scope, rest)
            else hop == ByNameOf(i) && FaultyByName(a, doc, scope, rest)
    decreases a.schema, 2
  {
    var byClass, nested := ByClass(a, v, scope), Entry(doc, a.name);
    if byClass.None? {
      hop := ByClassOf(i);
      rest := ThrowsAtFault(a.schema, v, scope[ClassKey(a)], scope);
    } else {
      hop := ByNameOf(i);
      if MergedScope(scope, nested).None? {
        rest := [];
      } else {
        rest := ThrowsAtFault(a.schema, byClass.value, nested, MergedScope(scope, nested).value);
      }
    }
  }

  lemma FailingField(attrs: seq<Attribute>, fields: seq<Value>, doc: Node, scope: Scope) returns (i: nat)
    requires |fields| == |attrs|
    requires forall j | 0 <= j < |attrs| :: Conforms(attrs[j].schema, fields[j]) && WellFormed(attrs[j].schema)
    requires AppliedFields(attrs, fields, doc, scope).None?
    ensures i < |attrs| && AppliedField(attrs[i], fields[i], doc, scope).None?
  {
    if forall j | 0 <= j < |attrs| :: AppliedField(attrs[j], fields[j], doc, scope).Some? {
      FieldsSucceed(attrs, fields, doc, scope);
    }
    i :| i < |attrs| && AppliedField(attrs[i], fields[i], doc, scope).None?;
  }

  lemma {:induction false} FailingListItem(element: Schema, items: seq<Value>, docs: seq<Node>, scope: Scope)
    returns (i: nat)
    requires WellFormed(element) && forall j | 0 <= j < |items| :: Conforms(element, items[j])
    requires AppliedItems(element, items, docs, scope).None?
    ensures i < |docs| && Conforms(element, ItemOr(element, items, i))
    ensures Applied(element, ItemOr(element, items, i), docs[i], scope).None?
    decreases |docs|
  {
    DefaultConforms(element);
    if Applied(element, ItemOr(element, items, 0), docs[0], scope).None? {
      i := 0;
    } else {
      i := FailingListItem(element, Tail(items), docs[1..], scope);
      assert ItemOr(element, Tail(items), i) == ItemOr(element, items, i + 1);
      i := i + 1;
    }
  }

  /**
   * Applying overrides throws if and only if some path of the pass meets a
   * fault; what the configuration held before does not matter.
   */
  lemma ApplyThrows(schema: Schema, v: Value, doc: Node, scope: Scope)
    requires Conforms(schema, v) && WellFormed(schema)
    ensures Applied(schema, v, doc, scope).None? <==> HasFault(schema, doc, scope)
  {
    if Applied(schema, v, doc, scope).None? {
      var path := ThrowsAtFault(schema, v, doc, scope);
      assert Faulty(schema, doc, scope, path);
    }
    if HasFault(schema, doc, scope) {
      var path: seq<Hop> :| Faulty(schema, doc, scope, path);
      FaultThrows(schema, v, doc, scope, path);
    }
  }

  /** The class overrides of a whole document always make a first scope, so only the pass itself throws. */
  lemma LoadThrows(schema: Schema, v: Value, doc: Node)
    requires Conforms(schema, v) && WellFormed(schema)
    ensures MergedScope(map[], doc).Some?
    ensures Loaded(schema, v, doc).None? <==> HasFault(schema, doc, MergedScope(map[], doc).value)
  {
    assert MergedScope(map[], doc).Some?;
    ApplyThrows(schema, v, doc, MergedScope(map[], doc).value);
  }
}
