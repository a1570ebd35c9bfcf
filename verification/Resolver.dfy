/**
 * What every leaf of a configuration ends up with, decided for that leaf
 * alone, and the precedence rules that follow.
 */
module Resolver {
  import opened Common
  import opened Yaml
  import opened Config

  // ---------------------------------------------------------------------
  // Leaves of a configuration
  // ---------------------------------------------------------------------

  /** A leaf's text, or how far the path can be followed before a list is too short. */
  datatype Status = Present(text: string) | Absent(depth: nat)

  /** The same status as seen from one step further in, or further out. */
  function Inner(s: Status): Status {
    if s.Absent? && s.depth > 0 then Absent(s.depth - 1) else s
  }

  function Outer(s: Status): Status {
    if s.Absent? then Absent(s.depth + 1) else s
  }

  /** The position of the first attribute with a name. */
  function FindAttribute(attrs: seq<Attribute>, name: string): (i: nat)
    requires exists a | a in attrs :: a.name == name
    ensures i < |attrs| && attrs[i].name == name
  {
    if attrs[0].name == name then 0 else 1 + FindAttribute(attrs[1..], name)
  }

  ghost predicate UniqueNames(attrs: seq<Attribute>) {
    forall i, j | 0 <= i < j < |attrs| :: attrs[i].name != attrs[j].name
  }

  lemma AttributeFound(attrs: seq<Attribute>, i: nat)
    requires UniqueNames(attrs) && i < |attrs|
    ensures attrs[i] in attrs && FindAttribute(attrs, attrs[i].name) == i
  {
  }

  /** The path leads to a leaf of the class. */
  ghost predicate LeafPath(schema: Schema, path: seq<Step>)
    decreases |path|
  {
    match schema
    case LeafSchema(_) => path == []
    case ObjectSchema(attrs) =>
      && path != [] && path[0].Key?
      && (exists a | a in attrs :: a.name == path[0].name)
      && LeafPath(attrs[FindAttribute(attrs, path[0].name)].schema, path[1..])
    case ListSchema(element, _) =>
      path != [] && path[0].Index? && LeafPath(element, path[1..])
  }

  ghost function StatusAt(schema: Schema, v: Value, path: seq<Step>): Status
    requires Conforms(schema, v) && LeafPath(schema, path)
    decreases |path|
  {
    match schema
    case LeafSchema(_) => Present(v.text)
    case ObjectSchema(attrs) =>
      var i := FindAttribute(attrs, path[0].name);
      Outer(StatusAt(attrs[i].schema, v.fields[i], path[1..]))
    case ListSchema(element, _) =>
      if path[0].i < |v.items| then Outer(StatusAt(element, v.items[path[0].i], path[1..])) else Absent(0)
  }

  // ---------------------------------------------------------------------
  // The resolver
  // ---------------------------------------------------------------------

  /** The scope inside a nested document. */
  function Inside(scope: Scope, nested: Node): Scope {
    var r := MergedScope(scope, nested);
    if r.Some? then r.value else scope
  }

  /**
   * What one leaf ends up with, from the document, the class scope, and what
   * it had before; no other leaf is looked at.
   */
  ghost function Resolved(schema: Schema, path: seq<Step>, doc: Node, scope: Scope, before: Status): Status
    requires LeafPath(schema, path) && WellFormed(schema)
    decreases |path|
  {
    match schema
    case LeafSchema(_) =>
      if doc.Scalar? then Present(doc.text) else before
    case ObjectSchema(attrs) =>
      var a, rest := attrs[FindAttribute(attrs, path[0].name)], path[1..];
      var key := ":" + a.className;
      var byClass :=
        if a.className != "" && key in scope then Resolved(a.schema, rest, scope[key], scope, Inner(before))
        else Inner(before);
      var nested := Entry(doc, a.name);
      Outer(Resolved(a.schema, rest, nested, Inside(scope, nested), byClass))
    case ListSchema(element, _) =>
      var i, rest := path[0].i, path[1..];
      if i >= |Iterated(doc)| then before
      else
        DefaultConforms(element);
        var start := if before == Absent(0) then StatusAt(element, Default(element), rest) else Inner(before);
        Outer(Resolved(element, rest, Iterated(doc)[i], scope, start))
  }

  /** The first item and the others. */
  lemma FirstAndRest(element: Schema, items: seq<Value>, docs: seq<Node>, scope: Scope)
    requires WellFormed(element) && forall j | 0 <= j < |items| :: Conforms(element, items[j])
    requires docs != [] && AppliedItems(element, items, docs, scope).Some?
    ensures Conforms(element, ItemOr(element, items, 0))
    ensures Applied(element, ItemOr(element, items, 0), docs[0], scope).Some?
    ensures AppliedItems(element, Tail(items), docs[1..], scope).Some?
    ensures AppliedItems(element, items, docs, scope).value
            == [Applied(element, ItemOr(element, items, 0), docs[0], scope).value]
               + AppliedItems(element, Tail(items), docs[1..], scope).value
  {
    DefaultConforms(element);
  }

  /** The list `r` has the longer length, and ends like `items` from position `n` on. */
  ghost predicate KeepsTail(r: seq<Value>, items: seq<Value>, n: nat) {
    && |r| == (if n < |items| then |items| else n)
    && forall i | n <= i < |items| :: r[i] == items[i]
  }

  lemma KeepsTailFirst(first: Value, rest: seq<Value>, items: seq<Value>, n: nat)
    requires n > 0 && KeepsTail(rest, Tail(items), n - 1)
    ensures KeepsTail([first] + rest, items, n)
  {
    forall i | n <= i < |items|
      ensures ([first] + rest)[i] == items[i]
    {
      assert rest[i - 1] == Tail(items)[i - 1];
    }
  }

  /** The lists end with the longer of the two lengths, and keep the tail the document does not mention. */
  lemma {:induction false} ListsKeepTail(element: Schema, items: seq<Value>, docs: seq<Node>, scope: Scope)
    requires WellFormed(element) && forall j | 0 <= j < |items| :: Conforms(element, items[j])
    requires AppliedItems(element, items, docs, scope).Some?
    ensures KeepsTail(AppliedItems(element, items, docs, scope).value, items, |docs|)
    decreases |docs|
  {
    if docs != [] {
      FirstAndRest(element, items, docs, scope);
      ListsKeepTail(element, Tail(items), docs[1..], scope);
      KeepsTailFirst(
        Applied(element, ItemOr(element, items, 0), docs[0], scope).value,
        AppliedItems(element, Tail(items), docs[1..], scope).value, items, |docs|);
    }
  }

  /** An item the document mentions starts as the existing item, or as a new one. */
  lemma {:induction false} ItemsApplied(
      element: Schema, items: seq<Value>, docs: seq<Node>, scope: Scope, i: nat)
    requires WellFormed(element) && forall j | 0 <= j < |items| :: Conforms(element, items[j])
    requires AppliedItems(element, items, docs, scope).Some? && i < |docs|
    ensures i < |AppliedItems(element, items, docs, scope).value|
    ensures Conforms(element, ItemOr(element, items, i))
    ensures Applied(element, ItemOr(element, items, i), docs[i], scope)
            == Some(AppliedItems(element, items, docs, scope).value[i])
    decreases |docs|
  {
    FirstAndRest(element, items, docs, scope);
    DefaultConforms(element);
    if i > 0 {
      ItemsApplied(element, Tail(items), docs[1..], scope, i - 1);
      assert ItemOr(element, Tail(items), i - 1) == ItemOr(element, items, i);
    }
  }

  /**
   * Loading is a per-leaf resolver: whenever the overrides are applied without
   * an exception, every leaf has the value the resolver gives it.
   */
  lemma {:induction false} AppliedIsResolved(schema: Schema, v: Value, doc: Node, scope: Scope, path: seq<Step>)
    requires Conforms(schema, v) && WellFormed(schema) && LeafPath(schema, path)
    requires Applied(schema, v, doc, scope).Some?
    ensures StatusAt(schema, Applied(schema, v, doc, scope).value, path)
            == Resolved(schema, path, doc, scope, StatusAt(schema, v, path))
    decreases |path|
  {
    if schema.ObjectSchema? {
      AttributeIsResolved(schema, v, doc, scope, path);
    } else if schema.ListSchema? {
      ItemIsResolved(schema, v, doc, scope, path);
    }
  }

  lemma {:induction false} AttributeIsResolved(schema: Schema, v: Value, doc: Node, scope: Scope, path: seq<Step>)
    requires Conforms(schema, v) && WellFormed(schema) && LeafPath(schema, path)
    requires Applied(schema, v, doc, scope).Some? && schema.ObjectSchema?
    ensures StatusAt(schema, Applied(schema, v, doc, scope).value, path)
            == Resolved(schema, path, doc, scope, StatusAt(schema, v, path))
    decreases |path|, 0
  {
    var attrs := schema.attrs;
    var i, rest := FindAttribute(attrs, path[0].name), path[1..];
    FieldsApplied(attrs, v.fields, doc, scope, i);
    var a, f, nested := attrs[i], v.fields[i], Entry(doc, attrs[i].name);
    assert Inner(Outer(StatusAt(a.schema, f, rest))) == StatusAt(a.schema, f, rest);
    var byClass := f;
    if ClassHit(a, scope) {
      AppliedIsResolved(a.schema, f, scope[ClassKey(a)], scope, rest);
      byClass := Applied(a.schema, f, scope[ClassKey(a)], scope).value;
    }
    AppliedIsResolved(a.schema, byClass, nested, Inside(scope, nested), rest);
  }

  lemma {:induction false} ItemIsResolved(schema: Schema, v: Value, doc: Node, scope: Scope, path: seq<Step>)
    requires Conforms(schema, v) && WellFormed(schema) && LeafPath(schema, path)
    requires Applied(schema, v, doc, scope).Some? && schema.ListSchema?
    ensures StatusAt(schema, Applied(schema, v, doc, scope).value, path)
            == Resolved(schema, path, doc, scope, StatusAt(schema, v, path))
    decreases |path|, 0
  {
    var element, i, rest, docs := schema.element, path[0].i, path[1..], Iterated(doc);
    var r := Applied(schema, v, doc, scope).value;
    ListsKeepTail(element, v.items, docs, scope);
    if i < |docs| {
      ItemsApplied(element, v.items, docs, scope, i);
      DefaultConforms(element);
      var start := ItemOr(element, v.items, i);
      assert Applied(element, start, docs[i], scope) == Some(r.items[i]);
      AppliedIsResolved(element, start, docs[i], scope, rest);
      ItemStatus(schema, v, path);
      ItemStatus(schema, r, path);
    }
  }

  lemma ItemStatus(schema: Schema, v: Value, path: seq<Step>)
    requires schema.ListSchema? && Conforms(schema, v) && LeafPath(schema, path)
    ensures var i, s := path[0].i, StatusAt(schema, v, path);
            if i < |v.items| then
              s != Absent(0) && Inner(s) == StatusAt(schema.element, v.items[i], path[1..]) && s == Outer(Inner(s))
            else s == Absent(0)
  {
  }
}
