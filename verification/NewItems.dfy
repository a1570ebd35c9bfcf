/** What an override that says nothing leaves alone, and what the new items of a list start from. */
module NewItems {
  import opened Common
  import opened Yaml
  import opened Config
  import opened Resolver
  import opened Precedence

  // ---------------------------------------------------------------------
  // Documents that say nothing
  // ---------------------------------------------------------------------

  /** Without class overrides, a document with no value in it changes nothing. */
  lemma {:induction false} NothingChanges(schema: Schema, v: Value, doc: Node)
    requires Conforms(schema, v) && WellFormed(schema)
    requires doc == Null || doc == Undefined
    ensures Applied(schema, v, doc, map[]) == Some(v)
  {
    if schema.ObjectSchema? {
      forall i | 0 <= i < |schema.attrs|
        ensures AppliedField(schema.attrs[i], v.fields[i], doc, map[]) == Some(v.fields[i])
      {
        NoClassKeys(map[], Null);
        NothingChanges(schema.attrs[i].schema, v.fields[i], Null);
      }
      FieldsAre(schema.attrs, v.fields, doc, map[], v.fields);
    }
  }

  /** An empty document loads as what was there. */
  lemma LoadNothing(schema: Schema, v: Value, doc: Node)
    requires Conforms(schema, v) && WellFormed(schema)
    requires doc == Null || doc == Undefined
    ensures Loaded(schema, v, doc) == Some(v)
  {
    NoClassKeys(map[], doc);
    NothingChanges(schema, v, doc);
  }

  // ---------------------------------------------------------------------
  // New items
  // ---------------------------------------------------------------------

  /** What the class declares for a leaf of a new object: the leaf's own text, in the items a list starts with. */
  ghost function DeclaredAt(schema: Schema, path: seq<Step>): Status
    requires WellFormed(schema) && LeafPath(schema, path)
    decreases |path|
  {
    match schema
    case LeafSchema(text) => Present(text)
    case ObjectSchema(attrs) =>
      Outer(DeclaredAt(attrs[FindAttribute(attrs, path[0].name)].schema, path[1..]))
    case ListSchema(element, initial) =>
      var i, rest := path[0].i, path[1..];
      if i < |initial| then Outer(StatusAt(element, initial[i], rest)) else Absent(0)
  }

  /** A default-constructed object has what its class declares at every leaf. */
  lemma {:induction false} DefaultIsDeclared(schema: Schema, path: seq<Step>)
    requires WellFormed(schema) && LeafPath(schema, path)
    ensures Conforms(schema, Default(schema))
    ensures StatusAt(schema, Default(schema), path) == DeclaredAt(schema, path)
    decreases |path|
  {
    DefaultConforms(schema);
    if schema.ObjectSchema? {
      DefaultIsDeclared(schema.attrs[FindAttribute(schema.attrs, path[0].name)].schema, path[1..]);
    }
  }

  /**
   * An item that the document adds at the end of a list has what the document
   * gives it by name, and otherwise what the class of the items declares.
   */
  lemma NewItemLeaf(
      schema: Schema, v: Value, docs: seq<Node>, scope: Scope, i: nat, rest: seq<Step>)
    requires schema.ListSchema? && Conforms(schema, v) && WellFormed(schema)
    requires Applied(schema, v, Sequence(docs), scope).Some? && |v.items| <= i < |docs|
    requires LeafPath(schema.element, rest) && PlainPath(schema.element, rest)
    ensures StatusAt(schema, Applied(schema, v, Sequence(docs), scope).value, [Index(i)] + rest)
            == if Probe(docs[i], rest).Text? then Present(Probe(docs[i], rest).text)
               else DeclaredAt(schema.element, rest)
  {
    var path, element := [Index(i)] + rest, schema.element;
    assert path[1..] == rest;
    AppliedIsResolved(schema, v, Sequence(docs), scope, path);
    DefaultIsDeclared(element, rest);
    PlainStatus(element, Default(element), rest);
    PlainResolved(element, rest, docs[i], scope, DeclaredAt(element, rest));
  }

  /** The items followed by new ones, to a number of them. */
  function Extended(element: Schema, items: seq<Value>, n: nat): (r: seq<Value>)
    ensures |r| == if n < |items| then |items| else n
    ensures forall i | 0 <= i < |r| :: r[i] == if i < |items| then items[i] else Default(element)
  {
    items + (if n < |items| then [] else seq(n - |items|, _ => Default(element)))
  }

  /** A map in place of a list of overrides adds new items up to the number of its entries, and changes none. */
  lemma MapForList(schema: Schema, v: Value, entries: map<string, Node>)
    requires schema.ListSchema? && Conforms(schema, v) && WellFormed(schema)
    ensures Applied(schema, v, Map(entries), map[])
            == Some(List(Extended(schema.element, v.items, |entries|)))
  {
    var docs := Iterated(Map(entries));
    UndefinedItems(schema.element, v.items, docs);
  }

  lemma {:induction false} UndefinedItems(element: Schema, items: seq<Value>, docs: seq<Node>)
    requires WellFormed(element) && forall j | 0 <= j < |items| :: Conforms(element, items[j])
    requires forall j | 0 <= j < |docs| :: docs[j] == Undefined
    ensures AppliedItems(element, items, docs, map[]) == Some(Extended(element, items, |docs|))
    decreases |docs|
  {
    if docs == [] {
      assert Extended(element, items, 0) == items;
    } else {
      DefaultConforms(element);
      NothingChanges(element, ItemOr(element, items, 0), docs[0]);
      UndefinedItems(element, Tail(items), docs[1..]);
      ExtendedFirst(element, items, |docs|);
    }
  }

  lemma ExtendedFirst(element: Schema, items: seq<Value>, n: nat)
    requires n > 0
    ensures Extended(element, items, n) == [ItemOr(element, items, 0)] + Extended(element, Tail(items), n - 1)
  {
  }
}
