/** The order in which attributes are registered, at every depth of a configuration. */
module Registration {
  import opened Common
  import opened Yaml
  import opened Config
  import opened Resolver
  import opened Precedence

  /**
   * The same configuration with the attributes of every object in another
   * order, new list items included.
   */
  ghost predicate Reordered(s1: Schema, v1: Value, s2: Schema, v2: Value)
    requires Conforms(s1, v1) && Conforms(s2, v2) && WellFormed(s1) && WellFormed(s2)
    decreases s1, 2
  {
    match s1
    case LeafSchema(_) => s2.LeafSchema? && v1 == v2
    case ObjectSchema(attrs) =>
      && s2.ObjectSchema? && |s2.attrs| == |attrs|
      && exists order: seq<nat> :: FieldsReordered(attrs, v1.fields, s2.attrs, v2.fields, order)
    case ListSchema(element, _) =>
      && s2.ListSchema? && |v1.items| == |v2.items|
      && DefaultsReordered(element, s2.element)
      && forall i | 0 <= i < |v1.items| :: Reordered(element, v1.items[i], s2.element, v2.items[i])
  }

  /** Each field of the second object is one of the first, with the same name and class. */
  ghost predicate FieldsReordered(
      attrs1: seq<Attribute>, fields1: seq<Value>, attrs2: seq<Attribute>, fields2: seq<Value>, order: seq<nat>)
    requires |fields1| == |attrs1| == |attrs2| == |fields2|
    requires forall j | 0 <= j < |attrs1| :: Conforms(attrs1[j].schema, fields1[j]) && WellFormed(attrs1[j].schema)
    requires forall j | 0 <= j < |attrs2| :: Conforms(attrs2[j].schema, fields2[j]) && WellFormed(attrs2[j].schema)
    decreases attrs1
  {
    && IsOrder(order, |attrs1|)
    && forall i: nat | i < |attrs2| ::
         && SameNames(attrs1[order[i]], attrs2[i])
         && Reordered(attrs1[order[i]].schema, fields1[order[i]], attrs2[i].schema, fields2[i])
  }

  ghost predicate DefaultsReordered(element1: Schema, element2: Schema)
    requires WellFormed(element1) && WellFormed(element2)
    decreases element1, 3
  {
    DefaultConforms(element1);
    DefaultConforms(element2);
    Reordered(element1, Default(element1), element2, Default(element2))
  }

  predicate SameNames(a: Attribute, b: Attribute) {
    a.name == b.name && a.className == b.className
  }

  /** Both fail, or both succeed with reordered results. */
  ghost predicate SameOutcome(s1: Schema, r1: Option<Value>, s2: Schema, r2: Option<Value>)
    requires WellFormed(s1) && WellFormed(s2)
  {
    && (r1.Some? <==> r2.Some?)
    && (r1.Some? ==>
          && Conforms(s1, r1.value) && Conforms(s2, r2.value)
          && Reordered(s1, r1.value, s2, r2.value))
  }

  /**
   * The order of registration does not matter at any depth: the same overrides
   * succeed on both configurations or on none, and leave them reordered.
   */
  lemma {:induction false} RegistrationDoesNotMatter(
      s1: Schema, v1: Value, s2: Schema, v2: Value, doc: Node, scope: Scope)
    requires Conforms(s1, v1) && Conforms(s2, v2) && WellFormed(s1) && WellFormed(s2)
    requires Reordered(s1, v1, s2, v2)
    ensures SameOutcome(s1, Applied(s1, v1, doc, scope), s2, Applied(s2, v2, doc, scope))
    decreases s1, 2
  {
    if s1.ObjectSchema? {
      var order: seq<nat> :| FieldsReordered(s1.attrs, v1.fields, s2.attrs, v2.fields, order);
      ObjectsReordered(s1, v1, s2, v2, order, doc, scope);
    } else if s1.ListSchema? {
      ListsReordered(s1, v1, s2, v2, Iterated(doc), scope);
    }
  }

  lemma {:induction false} FieldReordered(
      a1: Attribute, f1: Value, a2: Attribute, f2: Value, doc: Node, scope: Scope)
    requires Conforms(a1.schema, f1) && Conforms(a2.schema, f2) && WellFormed(a1.schema) && WellFormed(a2.schema)
    requires SameNames(a1, a2) && Reordered(a1.schema, f1, a2.schema, f2)
    ensures SameOutcome(
              a1.schema, AppliedField(a1, f1, doc, scope), a2.schema, AppliedField(a2, f2, doc, scope))
    decreases a1.schema, 3
  {
    if ClassHit(a1, scope) {
      RegistrationDoesNotMatter(a1.schema, f1, a2.schema, f2, scope[ClassKey(a1)], scope);
    }
    var c1, c2, nested := ByClass(a1, f1, scope), ByClass(a2, f2, scope), Entry(doc, a1.name);
    if c1.Some? && MergedScope(scope, nested).Some? {
      RegistrationDoesNotMatter(
        a1.schema, c1.value, a2.schema, c2.value, nested, MergedScope(scope, nested).value);
    }
  }

  lemma {:induction false} ObjectsReordered(
      s1: Schema, v1: Value, s2: Schema, v2: Value, order: seq<nat>, doc: Node, scope: Scope)
    requires Conforms(s1, v1) && Conforms(s2, v2) && WellFormed(s1) && WellFormed(s2)
    requires s1.ObjectSchema? && s2.ObjectSchema? && |s1.attrs| == |s2.attrs|
    requires FieldsReordered(s1.attrs, v1.fields, s2.attrs, v2.fields, order)
    ensures SameOutcome(s1, Applied(s1, v1, doc, scope), s2, Applied(s2, v2, doc, scope))
    decreases s1, 1
  {
    var r1, r2 := AppliedFields(s1.attrs, v1.fields, doc, scope), AppliedFields(s2.attrs, v2.fields, doc, scope);
    forall i: nat | i < |s2.attrs|
      ensures FieldOutcome(s1, v1, s2, v2, order, doc, scope, i)
    {
      FieldReordered(s1.attrs[order[i]], v1.fields[order[i]], s2.attrs[i], v2.fields[i], doc, scope);
    }
    if r1.Some? {
      SecondSucceeds(s1, v1, s2, v2, order, doc, scope);
      ResultsReordered(s1, v1, s2, v2, order, doc, scope);
    } else if r2.Some? {
      FirstSucceeds(s1, v1, s2, v2, order, doc, scope);
    }
  }

  ghost predicate FieldOutcome(
      s1: Schema, v1: Value, s2: Schema, v2: Value, order: seq<nat>, doc: Node, scope: Scope, i: nat)
    requires Conforms(s1, v1) && Conforms(s2, v2) && WellFormed(s1) && WellFormed(s2)
    requires s1.ObjectSchema? && s2.ObjectSchema? && |s1.attrs| == |s2.attrs|
    requires IsOrder(order, |s1.attrs|) && i < |s2.attrs|
  {
    SameOutcome(
      s1.attrs[order[i]].schema, AppliedField(s1.attrs[order[i]], v1.fields[order[i]], doc, scope),
      s2.attrs[i].schema, AppliedField(s2.attrs[i], v2.fields[i], doc, scope))
  }

  lemma SecondSucceeds(
      s1: Schema, v1: Value, s2: Schema, v2: Value, order: seq<nat>, doc: Node, scope: Scope)
    requires Conforms(s1, v1) && Conforms(s2, v2) && WellFormed(s1) && WellFormed(s2)
    requires s1.ObjectSchema? && s2.ObjectSchema? && |s1.attrs| == |s2.attrs| && IsOrder(order, |s1.attrs|)
    requires forall i: nat | i < |s2.attrs| :: FieldOutcome(s1, v1, s2, v2, order, doc, scope, i)
    requires AppliedFields(s1.attrs, v1.fields, doc, scope).Some?
    ensures AppliedFields(s2.attrs, v2.fields, doc, scope).Some?
  {
    forall i: nat | i < |s2.attrs|
      ensures AppliedField(s2.attrs[i], v2.fields[i], doc, scope).Some?
    {
      FieldsApplied(s1.attrs, v1.fields, doc, scope, order[i]);
      assert FieldOutcome(s1, v1, s2, v2, order, doc, scope, i);
    }
    FieldsSucceed(s2.attrs, v2.fields, doc, scope);
  }

  lemma FirstSucceeds(
      s1: Schema, v1: Value, s2: Schema, v2: Value, order: seq<nat>, doc: Node, scope: Scope)
    requires Conforms(s1, v1) && Conforms(s2, v2) && WellFormed(s1) && WellFormed(s2)
    requires s1.ObjectSchema? && s2.ObjectSchema? && |s1.attrs| == |s2.attrs| && IsOrder(order, |s1.attrs|)
    requires forall i: nat | i < |s2.attrs| :: FieldOutcome(s1, v1, s2, v2, order, doc, scope, i)
    requires AppliedFields(s2.attrs, v2.fields, doc, scope).Some?
    ensures AppliedFields(s1.attrs, v1.fields, doc, scope).Some?
  {
    forall j: nat | j < |s1.attrs|
      ensures AppliedField(s1.attrs[j], v1.fields[j], doc, scope).Some?
    {
      assert j in order;
      var i: nat :| i < |order| && order[i] == j;
      FieldsApplied(s2.attrs, v2.fields, doc, scope, i);
      assert FieldOutcome(s1, v1, s2, v2, order, doc, scope, i);
    }
    FieldsSucceed(s1.attrs, v1.fields, doc, scope);
  }

  lemma ResultsReordered(
      s1: Schema, v1: Value, s2: Schema, v2: Value, order: seq<nat>, doc: Node, scope: Scope)
    requires Conforms(s1, v1) && Conforms(s2, v2) && WellFormed(s1) && WellFormed(s2)
    requires s1.ObjectSchema? && s2.ObjectSchema? && |s1.attrs| == |s2.attrs|
    requires FieldsReordered(s1.attrs, v1.fields, s2.attrs, v2.fields, order)
    requires forall i: nat | i < |s2.attrs| :: FieldOutcome(s1, v1, s2, v2, order, doc, scope, i)
    requires Applied(s1, v1, doc, scope).Some? && Applied(s2, v2, doc, scope).Some?
    ensures Reordered(s1, Applied(s1, v1, doc, scope).value, s2, Applied(s2, v2, doc, scope).value)
  {
    var r1, r2 := Applied(s1, v1, doc, scope).value, Applied(s2, v2, doc, scope).value;
    forall i: nat | i < |s2.attrs|
      ensures SameNames(s1.attrs[order[i]], s2.attrs[i])
      ensures Reordered(s1.attrs[order[i]].schema, r1.fields[order[i]], s2.attrs[i].schema, r2.fields[i])
    {
      FieldsApplied(s1.attrs, v1.fields, doc, scope, order[i]);
      FieldsApplied(s2.attrs, v2.fields, doc, scope, i);
      assert FieldOutcome(s1, v1, s2, v2, order, doc, scope, i);
    }
    assert FieldsReordered(s1.attrs, r1.fields, s2.attrs, r2.fields, order);
  }

  lemma {:induction false} ListsReordered(
      s1: Schema, v1: Value, s2: Schema, v2: Value, docs: seq<Node>, scope: Scope)
    requires Conforms(s1, v1) && Conforms(s2, v2) && WellFormed(s1) && WellFormed(s2)
    requires s1.ListSchema? && Reordered(s1, v1, s2, v2)
    ensures var r1 := AppliedItems(s1.element, v1.items, docs, scope);
            var r2 := AppliedItems(s2.element, v2.items, docs, scope);
            && (r1.Some? <==> r2.Some?)
            && (r1.Some? ==>
                  && |r1.value| == |r2.value|
                  && forall i | 0 <= i < |r1.value| :: Reordered(s1.element, r1.value[i], s2.element, r2.value[i]))
    decreases s1, 1, |docs|
  {
    if docs != [] {
      DefaultConforms(s1.element);
      DefaultConforms(s2.element);
      var i1, i2 := ItemOr(s1.element, v1.items, 0), ItemOr(s2.element, v2.items, 0);
      RegistrationDoesNotMatter(s1.element, i1, s2.element, i2, docs[0], scope);
      ListsReordered(s1, List(Tail(v1.items)), s2, List(Tail(v2.items)), docs[1..], scope);
    }
  }

  /** Attribute names are unique in every object. */
  ghost predicate DistinctNames(schema: Schema) {
    match schema
    case LeafSchema(_) => true
    case ObjectSchema(attrs) => UniqueNames(attrs) && forall i | 0 <= i < |attrs| :: DistinctNames(attrs[i].schema)
    case ListSchema(element, _) => DistinctNames(element)
  }

  /** Reordered configurations have the same leaves, found under the same names. */
  lemma {:induction false} ReorderedLeaves(s1: Schema, v1: Value, s2: Schema, v2: Value, path: seq<Step>)
    requires Conforms(s1, v1) && Conforms(s2, v2) && WellFormed(s1) && WellFormed(s2)
    requires Reordered(s1, v1, s2, v2) && DistinctNames(s1) && LeafPath(s1, path)
    ensures LeafPath(s2, path) && StatusAt(s1, v1, path) == StatusAt(s2, v2, path)
    decreases |path|
  {
    if s1.ObjectSchema? {
      var j := FindAttribute(s1.attrs, path[0].name);
      var order: seq<nat> :| FieldsReordered(s1.attrs, v1.fields, s2.attrs, v2.fields, order);
      assert j in order;
      var i: nat :| i < |order| && order[i] == j;
      assert SameNames(s1.attrs[order[i]], s2.attrs[i]);
      assert s2.attrs[i] in s2.attrs;
      var k := FindAttribute(s2.attrs, path[0].name);
      assert SameNames(s1.attrs[order[k]], s2.attrs[k]);
      AttributeFound(s1.attrs, order[k]);
      ReorderedLeaves(s1.attrs[j].schema, v1.fields[j], s2.attrs[k].schema, v2.fields[k], path[1..]);
    } else if s1.ListSchema? {
      DefaultConforms(s1.element);
      DefaultConforms(s2.element);
      var i := path[0].i;
      ReorderedLeaves(
        s1.element, ItemOr(s1.element, v1.items, i), s2.element, ItemOr(s2.element, v2.items, i), path[1..]);
    }
  }
}
