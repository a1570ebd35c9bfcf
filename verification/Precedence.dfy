/** Which override wins, and what an override cannot reach. */
module Precedence {
  import opened Common
  import opened Yaml
  import opened Config
  import opened Resolver
  import opened Isolation

  /**
   * A leaf named by its full path in the document gets that value, whatever
   * class overrides there are.
   */
  lemma {:induction false} ByNameWins(schema: Schema, path: seq<Step>, doc: Node, scope: Scope, before: Status)
    requires LeafPath(schema, path) && WellFormed(schema)
    requires Probe(doc, path).Text?
    ensures Resolved(schema, path, doc, scope, before) == Present(Probe(doc, path).text)
    decreases |path|
  {
    match schema
    case LeafSchema(_) =>
    case ObjectSchema(attrs) =>
      var a, rest := attrs[FindAttribute(attrs, path[0].name)], path[1..];
      var key := ":" + a.className;
      var byClass :=
        if a.className != "" && key in scope then Resolved(a.schema, rest, scope[key], scope, Inner(before))
        else Inner(before);
      var nested := Entry(doc, a.name);
      ByNameWins(a.schema, rest, nested, Inside(scope, nested), byClass);
    case ListSchema(element, _) =>
      ProbeNull(path[1..]);
      var i := path[0].i;
      DefaultConforms(element);
      var start := if before == Absent(0) then StatusAt(element, Default(element), path[1..]) else Inner(before);
      ByNameWins(element, path[1..], doc.items[i], scope, start);
  }

  /** After loading, every leaf that the document names by its full path has the named value. */
  lemma NamedLeafLoaded(schema: Schema, v: Value, doc: Node, path: seq<Step>)
    requires Conforms(schema, v) && WellFormed(schema) && LeafPath(schema, path)
    requires Loaded(schema, v, doc).Some? && Probe(doc, path).Text?
    ensures StatusAt(schema, Loaded(schema, v, doc).value, path) == Present(Probe(doc, path).text)
  {
    var scope := MergedScope(map[], doc).value;
    AppliedIsResolved(schema, v, doc, scope, path);
    ByNameWins(schema, path, doc, scope, StatusAt(schema, v, path));
  }

  /** No attribute on the path has a class, and no step is the index of a list. */
  ghost predicate PlainPath(schema: Schema, path: seq<Step>)
    requires LeafPath(schema, path)
    decreases |path|
  {
    match schema
    case LeafSchema(_) => true
    case ObjectSchema(attrs) =>
      var a := attrs[FindAttribute(attrs, path[0].name)];
      a.className == "" && PlainPath(a.schema, path[1..])
    case ListSchema(_, _) => false
  }

  function OrElse(found: Found, before: Status): Status {
    if found.Text? then Present(found.text) else before
  }

  /** Along a plain path only the document counts. */
  lemma {:induction false} PlainResolved(schema: Schema, path: seq<Step>, doc: Node, scope: Scope, before: Status)
    requires LeafPath(schema, path) && WellFormed(schema) && PlainPath(schema, path)
    requires before.Present?
    ensures Resolved(schema, path, doc, scope, before) == OrElse(Probe(doc, path), before)
    decreases |path|
  {
    if schema.ObjectSchema? {
      var a, rest := schema.attrs[FindAttribute(schema.attrs, path[0].name)], path[1..];
      var nested := Entry(doc, a.name);
      if doc.Scalar? {
        ProbeNull(rest);
      }
      PlainResolved(a.schema, rest, nested, Inside(scope, nested), before);
    }
  }

  /** One attribute of an object, seen from the object. */
  lemma AttributeResolved(
      schema: Schema, i: nat, rest: seq<Step>, doc: Node, scope: Scope, before: Status)
    requires schema.ObjectSchema? && UniqueNames(schema.attrs) && WellFormed(schema) && i < |schema.attrs|
    requires LeafPath(schema.attrs[i].schema, rest) && before.Present?
    ensures var a := schema.attrs[i];
            var path, nested, key := [Key(a.name)] + rest, Entry(doc, a.name), ":" + a.className;
            && LeafPath(schema, path)
            && Resolved(schema, path, doc, scope, before)
               == Outer(Resolved(
                          a.schema, rest, nested, Inside(scope, nested),
                          if a.className != "" && key in scope then
                            Resolved(a.schema, rest, scope[key], scope, before)
                          else before))
  {
    AttributeFound(schema.attrs, i);
    var path := [Key(schema.attrs[i].name)] + rest;
    assert path[1..] == rest;
  }

  /** The leaf of a class override, if there is an override of the class. */
  function InScope(scope: Scope, key: string, path: seq<Step>): Found {
    if key in scope then Probe(scope[key], path) else Miss
  }

  /** A leaf of an attribute with a class comes from its name, then its class, then from before. */
  lemma OwnClass(schema: Schema, i: nat, rest: seq<Step>, doc: Node, scope: Scope, before: Status)
    requires schema.ObjectSchema? && UniqueNames(schema.attrs) && WellFormed(schema) && i < |schema.attrs|
    requires LeafPath(schema.attrs[i].schema, rest) && PlainPath(schema.attrs[i].schema, rest)
    requires schema.attrs[i].className != "" && before.Present?
    ensures var a := schema.attrs[i];
            var path := [Key(a.name)] + rest;
            && LeafPath(schema, path)
            && Resolved(schema, path, doc, scope, before)
               == OrElse(Probe(Entry(doc, a.name), rest), OrElse(InScope(scope, ":" + a.className, rest), before))
  {
    var a := schema.attrs[i];
    var nested, key := Entry(doc, a.name), ":" + a.className;
    AttributeResolved(schema, i, rest, doc, scope, before);
    if key in scope {
      PlainResolved(a.schema, rest, scope[key], scope, before);
    }
    PlainResolved(a.schema, rest, nested, Inside(scope, nested), OrElse(InScope(scope, key, rest), before));
  }

  lemma {:induction false} PlainStatus(schema: Schema, v: Value, path: seq<Step>)
    requires Conforms(schema, v) && LeafPath(schema, path) && PlainPath(schema, path)
    ensures StatusAt(schema, v, path).Present?
    decreases |path|
  {
    if schema.ObjectSchema? {
      var i := FindAttribute(schema.attrs, path[0].name);
      PlainStatus(schema.attrs[i].schema, v.fields[i], path[1..]);
    }
  }

  /** What is found one step inside a document. */
  lemma ProbeKey(doc: Node, key: string, rest: seq<Step>)
    ensures doc.Scalar? ==> Probe(doc, [Key(key)] + rest) == Blocked && Probe(Entry(doc, key), rest) == Miss
    ensures !doc.Scalar? ==> Probe(doc, [Key(key)] + rest) == Probe(Entry(doc, key), rest)
  {
    ProbeNull(rest);
    assert ([Key(key)] + rest)[1..] == rest;
  }

  /**
   * After loading, a leaf of an attribute of class C has the value that the
   * document gives it by name, otherwise the one that the document gives it
   * under the key `:C`, otherwise the one it had.
   */
  lemma ClassOverrideLoaded(schema: Schema, v: Value, doc: Node, i: nat, rest: seq<Step>)
    requires schema.ObjectSchema? && UniqueNames(schema.attrs) && WellFormed(schema) && Conforms(schema, v)
    requires i < |schema.attrs| && schema.attrs[i].className != ""
    requires LeafPath(schema.attrs[i].schema, rest) && PlainPath(schema.attrs[i].schema, rest)
    requires Loaded(schema, v, doc).Some?
    ensures var a := schema.attrs[i];
            var path := [Key(a.name)] + rest;
            var byName, byClass := Probe(doc, path), Probe(doc, [Key(":" + a.className)] + rest);
            && LeafPath(schema, path)
            && StatusAt(schema, Loaded(schema, v, doc).value, path)
               == if byName.Text? then Present(byName.text)
                  else if byClass.Text? then Present(byClass.text)
                  else StatusAt(schema, v, path)
  {
    var a, scope := schema.attrs[i], MergedScope(map[], doc).value;
    var path, key := [Key(a.name)] + rest, ":" + a.className;
    AttributeFound(schema.attrs, i);
    assert path[1..] == rest;
    PlainStatus(a.schema, v.fields[i], rest);
    var before := StatusAt(schema, v, path);
    AppliedIsResolved(schema, v, doc, scope, path);
    OwnClass(schema, i, rest, doc, scope, before);
    ProbeKey(doc, a.name, rest);
    ProbeKey(doc, key, rest);
    ProbeNull(rest);
    assert key in scope ==> scope[key] == MergedClass(map[], doc, key);
  }

  /** A class override inside a nested document hides the one outside. */
  lemma InsideScope(scope: Scope, nested: Node, key: string, path: seq<Step>)
    requires MergedScope(scope, nested).Some? && IsClassKey(key)
    ensures InScope(Inside(scope, nested), key, path)
            == Override(InScope(scope, key, path), Probe(Entry(nested, key), path))
  {
    ProbeNull(path);
    if key in scope || key in ClassKeys(nested) {
      ScopeRightBiased(scope, nested, key, path);
    }
  }

  /**
   * Class precedence: for an object of class C inside an attribute without a
   * class, a leaf comes from the first that has it of: the document, by name;
   * the override of C inside the attribute's map; the override of C outside;
   * the value before.
   */
  lemma ClassPrecedence(schema: Schema, i: nat, j: nat, rest: seq<Step>, doc: Node, scope: Scope, before: Status)
    requires schema.ObjectSchema? && UniqueNames(schema.attrs) && WellFormed(schema) && i < |schema.attrs|
    requires var inner := schema.attrs[i].schema;
             && schema.attrs[i].className == "" && inner.ObjectSchema? && UniqueNames(inner.attrs)
             && j < |inner.attrs| && inner.attrs[j].className != ""
             && LeafPath(inner.attrs[j].schema, rest) && PlainPath(inner.attrs[j].schema, rest)
    requires before.Present? && MergedScope(scope, Entry(doc, schema.attrs[i].name)).Some?
    ensures var a, b := schema.attrs[i], schema.attrs[i].schema.attrs[j];
            var path, nested := [Key(a.name)] + ([Key(b.name)] + rest), Entry(doc, a.name);
            var key := ":" + b.className;
            && LeafPath(schema, path)
            && Resolved(schema, path, doc, scope, before)
               == OrElse(
                    Probe(Entry(nested, b.name), rest),
                    OrElse(Override(InScope(scope, key, rest), Probe(Entry(nested, key), rest)), before))
  {
    var a, inner := schema.attrs[i], schema.attrs[i].schema;
    var b, nested := inner.attrs[j], Entry(doc, schema.attrs[i].name);
    OwnClass(inner, j, rest, nested, Inside(scope, nested), before);
    AttributeResolved(schema, i, [Key(b.name)] + rest, doc, scope, before);
    assert IsClassKey(":" + b.className);
    InsideScope(scope, nested, ":" + b.className, rest);
  }

  // ---------------------------------------------------------------------
  // Isolation and order
  // ---------------------------------------------------------------------

  /**
   * Scope isolation: whatever is written inside one attribute's map, class
   * overrides included, cannot change any other attribute of the object.
   */
  lemma ScopeIsolation(schema: Schema, v: Value, doc1: Node, doc2: Node, i: nat)
    requires schema.ObjectSchema? && Conforms(schema, v) && WellFormed(schema)
    requires i < |schema.attrs|
    requires SameElsewhere(doc1, doc2, schema.attrs[i].name)
    requires !IsClassKey(schema.attrs[i].name)
    requires Loaded(schema, v, doc1).Some? && Loaded(schema, v, doc2).Some?
    ensures var r1, r2 := Loaded(schema, v, doc1).value, Loaded(schema, v, doc2).value;
            forall j | 0 <= j < |schema.attrs| && schema.attrs[j].name != schema.attrs[i].name ::
              r1.fields[j] == r2.fields[j]
  {
    SameScope(map[], doc1, doc2, schema.attrs[i].name);
    var scope := MergedScope(map[], doc1).value;
    forall j | 0 <= j < |schema.attrs| && schema.attrs[j].name != schema.attrs[i].name
      ensures Loaded(schema, v, doc1).value.fields[j] == Loaded(schema, v, doc2).value.fields[j]
    {
      FieldsApplied(schema.attrs, v.fields, doc1, scope, j);
      FieldsApplied(schema.attrs, v.fields, doc2, scope, j);
    }
  }

  /** `order` lists every position below `n` once. */
  ghost predicate IsOrder(order: seq<nat>, n: nat) {
    && |order| == n
    && (forall i | 0 <= i < n :: order[i] < n)
    && (forall j: nat | j < n :: j in order)
  }

  /**
   * The order in which the attributes were registered does not matter: with
   * the attributes in another order, the same overrides succeed and give every
   * attribute the same value.
   */
  lemma RegistrationOrder(
      attrs1: seq<Attribute>, fields1: seq<Value>, attrs2: seq<Attribute>, fields2: seq<Value>,
      order: seq<nat>, doc: Node, scope: Scope)
    requires |fields1| == |attrs1| == |attrs2| == |fields2| && IsOrder(order, |attrs1|)
    requires forall j | 0 <= j < |attrs1| :: Conforms(attrs1[j].schema, fields1[j]) && WellFormed(attrs1[j].schema)
    requires forall i | 0 <= i < |attrs2| :: attrs2[i] == attrs1[order[i]] && fields2[i] == fields1[order[i]]
    ensures var r1, r2 := AppliedFields(attrs1, fields1, doc, scope), AppliedFields(attrs2, fields2, doc, scope);
            && (r1.Some? <==> r2.Some?)
            && (r1.Some? ==> forall i | 0 <= i < |attrs2| :: r2.value[i] == r1.value[order[i]])
  {
    if AppliedFields(attrs1, fields1, doc, scope).Some? {
      forall i | 0 <= i < |attrs2|
        ensures AppliedField(attrs2[i], fields2[i], doc, scope)
                == Some(AppliedFields(attrs1, fields1, doc, scope).value[order[i]])
      {
        FieldsApplied(attrs1, fields1, doc, scope, order[i]);
      }
      FieldsSucceed(attrs2, fields2, doc, scope);
      forall i | 0 <= i < |attrs2|
        ensures AppliedFields(attrs2, fields2, doc, scope).value[i]
                == AppliedFields(attrs1, fields1, doc, scope).value[order[i]]
      {
        FieldsApplied(attrs2, fields2, doc, scope, i);
      }
    } else if AppliedFields(attrs2, fields2, doc, scope).Some? {
      forall j: nat | j < |attrs1|
        ensures AppliedField(attrs1[j], fields1[j], doc, scope).Some?
      {
        assert j in order;
        var i: nat :| i < |order| && order[i] == j;
        FieldsApplied(attrs2, fields2, doc, scope, i);
      }
      FieldsSucceed(attrs1, fields1, doc, scope);
    }
  }

  lemma SameField(a: Attribute, v: Value, doc1: Node, doc2: Node, scope: Scope)
    requires Conforms(a.schema, v) && WellFormed(a.schema)
    requires Entry(doc1, a.name) == Entry(doc2, a.name)
    ensures AppliedField(a, v, doc1, scope) == AppliedField(a, v, doc2, scope)
  {
  }

  /**
   * Class overrides written directly in an item of a list, or in the map of a
   * class override, are ignored: only the maps of attributes open a scope.
   */
  lemma {:induction false} OwnClassKeysIgnored(
      attrs: seq<Attribute>, fields: seq<Value>, doc1: Node, doc2: Node, scope: Scope)
    requires |fields| == |attrs|
    requires forall j | 0 <= j < |attrs| :: Conforms(attrs[j].schema, fields[j]) && WellFormed(attrs[j].schema)
    requires forall j | 0 <= j < |attrs| :: !IsClassKey(attrs[j].name)
    requires forall k | !IsClassKey(k) :: Entry(doc1, k) == Entry(doc2, k)
    ensures AppliedFields(attrs, fields, doc1, scope) == AppliedFields(attrs, fields, doc2, scope)
  {
    if attrs != [] {
      assert !IsClassKey(attrs[0].name);
      SameField(attrs[0], fields[0], doc1, doc2, scope);
      OwnClassKeysIgnored(attrs[1..], fields[1..], doc1, doc2, scope);
    }
  }
}
