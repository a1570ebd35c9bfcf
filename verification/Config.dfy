/**
 * Configuration objects: how a document of overrides changes them, by name and
 * by class, and what every leaf ends up with.
 */
module Config {
  import opened Common
  import opened Yaml

  // ---------------------------------------------------------------------
  // Configuration classes and their values
  // ---------------------------------------------------------------------

  /** A configuration class; lists carry their initial items. */
  datatype Schema =
    | LeafSchema(text: string)
    | ObjectSchema(attrs: seq<Attribute>)
    | ListSchema(element: Schema, initial: seq<Value>)

  /** An attribute; the class name is empty when there is none. */
  datatype Attribute = Attribute(name: string, className: string, schema: Schema)

  datatype Value =
    | Leaf(text: string)
    | Object(fields: seq<Value>)
    | List(items: seq<Value>)

  ghost predicate Conforms(schema: Schema, v: Value) {
    match schema
    case LeafSchema(_) => v.Leaf?
    case ObjectSchema(attrs) =>
      v.Object? && |v.fields| == |attrs| && forall i | 0 <= i < |attrs| :: Conforms(attrs[i].schema, v.fields[i])
    case ListSchema(element, _) =>
      v.List? && forall i | 0 <= i < |v.items| :: Conforms(element, v.items[i])
  }

  /** Lists are lists of objects, and their initial items are of the list's class. */
  ghost predicate WellFormed(schema: Schema) {
    match schema
    case LeafSchema(_) => true
    case ObjectSchema(attrs) => forall i | 0 <= i < |attrs| :: WellFormed(attrs[i].schema)
    case ListSchema(element, initial) =>
      element.ObjectSchema? && WellFormed(element) && forall i | 0 <= i < |initial| :: Conforms(element, initial[i])
  }

  /** A default-constructed value. */
  function Default(schema: Schema): Value {
    match schema
    case LeafSchema(text) => Leaf(text)
    case ObjectSchema(attrs) => Object(Defaults(attrs))
    case ListSchema(_, initial) => List(initial)
  }

  function Defaults(attrs: seq<Attribute>): (vs: seq<Value>)
    ensures |vs| == |attrs|
    ensures forall i | 0 <= i < |attrs| :: vs[i] == Default(attrs[i].schema)
  {
    if attrs == [] then [] else [Default(attrs[0].schema)] + Defaults(attrs[1..])
  }

  lemma {:induction false} DefaultConforms(schema: Schema)
    requires WellFormed(schema)
    ensures Conforms(schema, Default(schema))
  {
    if schema.ObjectSchema? {
      forall i | 0 <= i < |schema.attrs|
        ensures Conforms(schema.attrs[i].schema, Default(schema).fields[i])
      {
        DefaultConforms(schema.attrs[i].schema);
      }
    }
  }

  // ---------------------------------------------------------------------
  // Applying overrides
  // ---------------------------------------------------------------------

  /** The nodes a list iterates over; a map yields one undefined node per entry. */
  function Iterated(doc: Node): seq<Node> {
    match doc
    case Sequence(items) => items
    case Map(entries) => UndefinedNodes(|entries|)
    case _ => []
  }

  function UndefinedNodes(n: nat): (nodes: seq<Node>)
    ensures |nodes| == n && forall i | 0 <= i < n :: nodes[i] == Undefined
  {
    if n == 0 then [] else [Undefined] + UndefinedNodes(n - 1)
  }

  function ClassKey(a: Attribute): string {
    ":" + a.className
  }

  predicate ClassHit(a: Attribute, scope: Scope) {
    a.className != "" && ClassKey(a) in scope
  }

  /** `apply_overrides`: the value after the overrides, or nothing when it throws. */
  function Applied(schema: Schema, v: Value, doc: Node, scope: Scope): (r: Option<Value>)
    requires Conforms(schema, v) && WellFormed(schema)
    ensures r.Some? ==> Conforms(schema, r.value)
    decreases schema, 0
  {
    match schema
    case LeafSchema(_) =>
      if doc.Null? || doc.Undefined? then Some(v) else if doc.Scalar? then Some(Leaf(doc.text)) else None
    case ObjectSchema(attrs) =>
      var fields := AppliedFields(attrs, v.fields, doc, scope);
      if fields.Some? then Some(Object(fields.value)) else None
    case ListSchema(element, _) =>
      var items := AppliedItems(element, v.items, Iterated(doc), scope);
      if items.Some? then Some(List(items.value)) else None
  }

  function AppliedFields(attrs: seq<Attribute>, fields: seq<Value>, doc: Node, scope: Scope): (r: Option<seq<Value>>)
    requires |fields| == |attrs|
    requires forall i | 0 <= i < |attrs| :: Conforms(attrs[i].schema, fields[i]) && WellFormed(attrs[i].schema)
    ensures r.Some? ==>
              && |r.value| == |attrs|
              && forall i | 0 <= i < |attrs| :: Conforms(attrs[i].schema, r.value[i])
    decreases attrs, 3
  {
    if attrs == [] then Some([])
    else
      var first := AppliedField(attrs[0], fields[0], doc, scope);
      var rest := AppliedFields(attrs[1..], fields[1..], doc, scope);
      if first.Some? && rest.Some? then Some([first.value] + rest.value) else None
  }

  /** The class override of an attribute, if its class has one. */
  function ByClass(a: Attribute, v: Value, scope: Scope): (r: Option<Value>)
    requires Conforms(a.schema, v) && WellFormed(a.schema)
    ensures r.Some? ==> Conforms(a.schema, r.value)
    decreases a.schema, 1
  {
    if ClassHit(a, scope) then Applied(a.schema, v, scope[ClassKey(a)], scope) else Some(v)
  }

  /** The overrides under the name of an attribute, with the class overrides among them in scope. */
  function ByName(a: Attribute, v: Value, doc: Node, scope: Scope): (r: Option<Value>)
    requires Conforms(a.schema, v) && WellFormed(a.schema)
    ensures r.Some? ==> Conforms(a.schema, r.value)
    decreases a.schema, 1
  {
    var nested := Entry(doc, a.name);
    var newScope := MergedScope(scope, nested);
    if newScope.Some? then Applied(a.schema, v, nested, newScope.value) else None
  }

  /** One attribute: first its class override, then the overrides under its name. */
  function AppliedField(a: Attribute, v: Value, doc: Node, scope: Scope): (r: Option<Value>)
    requires Conforms(a.schema, v) && WellFormed(a.schema)
    ensures r.Some? ==> Conforms(a.schema, r.value)
    decreases a.schema, 2
  {
    var byClass := ByClass(a, v, scope);
    if byClass.Some? then ByName(a, byClass.value, doc, scope) else None
  }

  /** An item of the list, or a new one beyond its end. */
  function ItemOr(element: Schema, items: seq<Value>, i: nat): Value {
    if i < |items| then items[i] else Default(element)
  }

  function Tail(items: seq<Value>): seq<Value> {
    if items == [] then [] else items[1..]
  }

  /** The items named in the document, then the untouched tail. */
  function AppliedItems(element: Schema, items: seq<Value>, docs: seq<Node>, scope: Scope): (r: Option<seq<Value>>)
    requires forall i | 0 <= i < |items| :: Conforms(element, items[i])
    requires WellFormed(element)
    ensures r.Some? ==> forall i | 0 <= i < |r.value| :: Conforms(element, r.value[i])
    decreases element, 1, |docs|
  {
    if docs == [] then Some(items)
    else
      DefaultConforms(element);
      var first := Applied(element, ItemOr(element, items, 0), docs[0], scope);
      var rest := AppliedItems(element, Tail(items), docs[1..], scope);
      if first.Some? && rest.Some? then Some([first.value] + rest.value) else None
  }

  /** Loading a document: its class overrides are the first scope. */
  function Loaded(schema: Schema, v: Value, doc: Node): (r: Option<Value>)
    requires Conforms(schema, v) && WellFormed(schema)
    ensures r.Some? ==> Conforms(schema, r.value)
  {
    var scope := MergedScope(map[], doc);
    if scope.Some? then Applied(schema, v, doc, scope.value) else None
  }

  // ---------------------------------------------------------------------
  // One attribute, or one item, at a time
  // ---------------------------------------------------------------------

  /** Every attribute is changed on its own. */
  lemma {:induction false} FieldsApplied(
      attrs: seq<Attribute>, fields: seq<Value>, doc: Node, scope: Scope, i: nat)
    requires |fields| == |attrs| && i < |attrs|
    requires forall j | 0 <= j < |attrs| :: Conforms(attrs[j].schema, fields[j]) && WellFormed(attrs[j].schema)
    requires AppliedFields(attrs, fields, doc, scope).Some?
    ensures AppliedField(attrs[i], fields[i], doc, scope).Some?
    ensures AppliedFields(attrs, fields, doc, scope).value[i] == AppliedField(attrs[i], fields[i], doc, scope).value
  {
    if i > 0 {
      FieldsApplied(attrs[1..], fields[1..], doc, scope, i - 1);
    }
  }

  lemma {:induction false} FieldsSucceed(attrs: seq<Attribute>, fields: seq<Value>, doc: Node, scope: Scope)
    requires |fields| == |attrs|
    requires forall j | 0 <= j < |attrs| :: Conforms(attrs[j].schema, fields[j]) && WellFormed(attrs[j].schema)
    requires forall j | 0 <= j < |attrs| :: AppliedField(attrs[j], fields[j], doc, scope).Some?
    ensures AppliedFields(attrs, fields, doc, scope).Some?
  {
    if attrs != [] {
      assert AppliedField(attrs[0], fields[0], doc, scope).Some?;
      forall j | 0 <= j < |attrs[1..]|
        ensures AppliedField(attrs[1..][j], fields[1..][j], doc, scope).Some?
      {
        assert AppliedField(attrs[j + 1], fields[j + 1], doc, scope).Some?;
      }
      FieldsSucceed(attrs[1..], fields[1..], doc, scope);
    }
  }

  lemma {:induction false} FieldsAre(
      attrs: seq<Attribute>, fields: seq<Value>, doc: Node, scope: Scope, done: seq<Value>)
    requires |fields| == |attrs| == |done|
    requires forall j | 0 <= j < |attrs| :: Conforms(attrs[j].schema, fields[j]) && WellFormed(attrs[j].schema)
    requires forall j | 0 <= j < |attrs| :: AppliedField(attrs[j], fields[j], doc, scope) == Some(done[j])
    ensures AppliedFields(attrs, fields, doc, scope) == Some(done)
  {
    FieldsSucceed(attrs, fields, doc, scope);
    forall j | 0 <= j < |attrs|
      ensures AppliedFields(attrs, fields, doc, scope).value[j] == done[j]
    {
      FieldsApplied(attrs, fields, doc, scope, j);
    }
    assert AppliedFields(attrs, fields, doc, scope).value == done;
  }

  /** The items from a position on. */
  function From(items: seq<Value>, i: nat): seq<Value> {
    if i <= |items| then items[i..] else []
  }

  /** Appending the items from a position on, one by one, gives `goal`. */
  ghost predicate Becomes(goal: seq<Value>, done: seq<Value>, items: seq<Value>, i: nat)
    decreases |items| - i
  {
    if i >= |items| then done == goal else Becomes(goal, done + [items[i]], items, i + 1)
  }

  lemma {:induction false} BecomesTotal(goal: seq<Value>, done: seq<Value>, items: seq<Value>, i: nat)
    requires goal == done + From(items, i)
    ensures Becomes(goal, done, items, i)
    decreases |items| - i
  {
    if i < |items| {
      FirstOfRest(done, items, i);
      BecomesTotal(goal, done + [items[i]], items, i + 1);
    }
  }

  lemma FirstOfRest(done: seq<Value>, items: seq<Value>, i: nat)
    requires i < |items|
    ensures done + [items[i]] + From(items, i + 1) == done + From(items, i)
  {
    assert From(items, i) == [items[i]] + From(items, i + 1);
  }

  /** The first `i` items are done. */
  ghost predicate ItemsDone(
      element: Schema, items: seq<Value>, docs: seq<Node>, scope: Scope, i: nat, tmp: seq<Value>)
    requires WellFormed(element) && forall j | 0 <= j < |items| :: Conforms(element, items[j])
  {
    && i == |tmp| <= |docs|
    && (i > 0 ==>
          && ItemIs(element, items, docs, scope, i - 1, tmp[i - 1])
          && ItemsDone(element, items, docs, scope, i - 1, tmp[..i - 1]))
  }

  lemma {:induction false} ItemDone(
      element: Schema, items: seq<Value>, docs: seq<Node>, scope: Scope, i: nat, tmp: seq<Value>, j: nat)
    requires WellFormed(element) && forall k | 0 <= k < |items| :: Conforms(element, items[k])
    requires ItemsDone(element, items, docs, scope, i, tmp) && j < i
    ensures ItemIs(element, items, docs, scope, j, tmp[j])
  {
    if j < i - 1 {
      ItemDone(element, items, docs, scope, i - 1, tmp[..i - 1], j);
    }
  }

  lemma {:induction false} ItemsAreDone(
      element: Schema, items: seq<Value>, docs: seq<Node>, scope: Scope, i: nat, tmp: seq<Value>)
    requires WellFormed(element) && forall k | 0 <= k < |items| :: Conforms(element, items[k])
    requires i == |tmp| <= |docs| && forall j | 0 <= j < i :: ItemIs(element, items, docs, scope, j, tmp[j])
    ensures ItemsDone(element, items, docs, scope, i, tmp)
  {
    if i > 0 {
      ItemsAreDone(element, items, docs, scope, i - 1, tmp[..i - 1]);
    }
  }

  ghost predicate ItemIs(element: Schema, items: seq<Value>, docs: seq<Node>, scope: Scope, i: nat, v: Value)
    requires WellFormed(element) && i < |docs| && forall j | 0 <= j < |items| :: Conforms(element, items[j])
  {
    DefaultConforms(element);
    Applied(element, ItemOr(element, items, i), docs[i], scope) == Some(v)
  }

  lemma {:induction false} ItemFails(element: Schema, items: seq<Value>, docs: seq<Node>, scope: Scope, i: nat)
    requires WellFormed(element) && forall j | 0 <= j < |items| :: Conforms(element, items[j])
    requires i < |docs| && Conforms(element, ItemOr(element, items, i))
    requires Applied(element, ItemOr(element, items, i), docs[i], scope).None?
    ensures AppliedItems(element, items, docs, scope).None?
    decreases |docs|
  {
    if i > 0 {
      assert ItemOr(element, Tail(items), i - 1) == ItemOr(element, items, i);
      ItemFails(element, Tail(items), docs[1..], scope, i - 1);
    }
  }

  lemma ItemsStep(element: Schema, items: seq<Value>, docs: seq<Node>, scope: Scope, i: nat, tmp: seq<Value>)
    requires WellFormed(element) && forall j | 0 <= j < |items| :: Conforms(element, items[j])
    requires ItemsDone(element, items, docs, scope, i, tmp) && i < |docs|
    ensures Conforms(element, ItemOr(element, items, i))
    ensures var r := Applied(element, ItemOr(element, items, i), docs[i], scope);
            if r.Some? then ItemsDone(element, items, docs, scope, i + 1, tmp + [r.value])
            else AppliedItems(element, items, docs, scope).None?
  {
    DefaultConforms(element);
    var r := Applied(element, ItemOr(element, items, i), docs[i], scope);
    if r.None? {
      ItemFails(element, items, docs, scope, i);
    } else {
      assert ItemIs(element, items, docs, scope, i, r.value);
      assert (tmp + [r.value])[..i] == tmp;
    }
  }

  /** When all the mentioned items are done, the list is these and the tail. */
  lemma {:induction false} ItemsEnd(
      element: Schema, items: seq<Value>, docs: seq<Node>, scope: Scope, tmp: seq<Value>)
    requires WellFormed(element) && forall j | 0 <= j < |items| :: Conforms(element, items[j])
    requires ItemsDone(element, items, docs, scope, |docs|, tmp)
    ensures AppliedItems(element, items, docs, scope) == Some(tmp + From(items, |docs|))
    decreases |docs|
  {
    if docs != [] {
      ItemsRest(element, items, docs, scope, tmp);
      ItemsEnd(element, Tail(items), docs[1..], scope, tmp[1..]);
      ItemDone(element, items, docs, scope, |docs|, tmp, 0);
      FromTail(items, |docs|, tmp);
    } else {
      assert tmp + From(items, 0) == items;
    }
  }

  lemma FromTail(items: seq<Value>, n: nat, tmp: seq<Value>)
    requires n > 0 && tmp != []
    ensures [tmp[0]] + (tmp[1..] + From(Tail(items), n - 1)) == tmp + From(items, n)
  {
    assert From(Tail(items), n - 1) == From(items, n);
    assert [tmp[0]] + tmp[1..] == tmp;
  }

  lemma ItemsRest(element: Schema, items: seq<Value>, docs: seq<Node>, scope: Scope, tmp: seq<Value>)
    requires WellFormed(element) && forall j | 0 <= j < |items| :: Conforms(element, items[j])
    requires docs != [] && ItemsDone(element, items, docs, scope, |docs|, tmp)
    ensures ItemsDone(element, Tail(items), docs[1..], scope, |docs| - 1, tmp[1..])
  {
    forall j | 0 <= j < |tmp| - 1
      ensures ItemIs(element, Tail(items), docs[1..], scope, j, tmp[1..][j])
    {
      ItemDone(element, items, docs, scope, |docs|, tmp, j + 1);
    }
    ItemsAreDone(element, Tail(items), docs[1..], scope, |docs| - 1, tmp[1..]);
  }
}
