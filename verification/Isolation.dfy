/** What is written at one place of a document reaches no leaf outside that place, at any depth. */
module Isolation {
  import opened Common
  import opened Yaml
  import opened Config
  import opened Resolver

  /** The documents have the same entries, except perhaps under one name. */
  ghost predicate SameElsewhere(doc1: Node, doc2: Node, name: string) {
    forall k | k != name :: (k in Keys(doc1) <==> k in Keys(doc2)) && Entry(doc1, k) == Entry(doc2, k)
  }

  /** The documents have the same items, except perhaps at one position. */
  ghost predicate SameOtherItems(doc1: Node, doc2: Node, i: nat) {
    && doc1.Sequence? && doc2.Sequence? && i < |doc1.items| == |doc2.items|
    && forall j | 0 <= j < |doc1.items| && j != i :: doc1.items[j] == doc2.items[j]
  }

  /**
   * The documents differ only at the place that the attribute names and list
   * positions lead to. What they hold at that place may differ in any way,
   * class overrides included.
   */
  ghost predicate SameOutside(schema: Schema, doc1: Node, doc2: Node, place: seq<Step>)
    decreases |place|
  {
    place == []
    || match place[0]
       case Key(name) =>
         && schema.ObjectSchema? && (exists a | a in schema.attrs :: a.name == name)
         && !IsClassKey(name) && SameElsewhere(doc1, doc2, name)
         && SameOutside(
              schema.attrs[FindAttribute(schema.attrs, name)].schema,
              Entry(doc1, name), Entry(doc2, name), place[1..])
       case Index(i) =>
         && schema.ListSchema? && SameOtherItems(doc1, doc2, i)
         && SameOutside(schema.element, doc1.items[i], doc2.items[i], place[1..])
  }

  /** The place and the path go different ways, or the path ends before the place. */
  predicate IsOutside(path: seq<Step>, place: seq<Step>) {
    !(place <= path)
  }

  lemma SameClassKeys(doc1: Node, doc2: Node, name: string)
    requires SameElsewhere(doc1, doc2, name) && !IsClassKey(name)
    ensures ClassKeys(doc1) == ClassKeys(doc2)
    ensures forall k | k in ClassKeys(doc1) :: Entry(doc1, k) == Entry(doc2, k)
  {
    assert forall k :: k in ClassKeys(doc1) <==> k in ClassKeys(doc2);
  }

  /** Documents that differ under an attribute's name have the same class overrides. */
  lemma SameScope(scope: Scope, doc1: Node, doc2: Node, name: string)
    requires SameElsewhere(doc1, doc2, name) && !IsClassKey(name)
    ensures MergedScope(scope, doc1) == MergedScope(scope, doc2)
  {
    SameClassKeys(doc1, doc2, name);
    SameOverrides(scope, doc1, doc2);
  }

  lemma SameOverrides(scope: Scope, doc1: Node, doc2: Node)
    requires ClassKeys(doc1) == ClassKeys(doc2)
    requires forall k | k in ClassKeys(doc1) :: Entry(doc1, k) == Entry(doc2, k)
    ensures MergedScope(scope, doc1) == MergedScope(scope, doc2)
  {
    var r1, r2 := MergedScope(scope, doc1), MergedScope(scope, doc2);
    if r1.Some? {
      forall k | k in r1.value
        ensures r1.value[k] == r2.value[k]
      {
        assert MergedClass(scope, doc1, k) == MergedClass(scope, doc2, k);
      }
      assert r1.value == r2.value;
    }
  }

  /** Documents that differ only at a place below their root open the same scope. */
  lemma SameScopeOutside(schema: Schema, scope: Scope, doc1: Node, doc2: Node, place: seq<Step>)
    requires SameOutside(schema, doc1, doc2, place) && place != []
    ensures MergedScope(scope, doc1) == MergedScope(scope, doc2)
    ensures Inside(scope, doc1) == Inside(scope, doc2)
  {
    if place[0].Key? {
      SameScope(scope, doc1, doc2, place[0].name);
    } else {
      NoClassKeys(scope, doc1);
      NoClassKeys(scope, doc2);
    }
  }

  /**
   * A leaf outside the place is resolved to the same value in both documents,
   * whatever the class scope and the value before.
   */
  lemma {:induction false} LeafIsolation(
      schema: Schema, path: seq<Step>, doc1: Node, doc2: Node, place: seq<Step>, scope: Scope, before: Status)
    requires LeafPath(schema, path) && WellFormed(schema)
    requires SameOutside(schema, doc1, doc2, place) && IsOutside(path, place)
    ensures Resolved(schema, path, doc1, scope, before) == Resolved(schema, path, doc2, scope, before)
    decreases |path|, 2
  {
    match schema
    case LeafSchema(_) =>
    case ObjectSchema(attrs) =>
      AttributeIsolation(schema, path, doc1, doc2, place, scope, before);
    case ListSchema(element, _) =>
      var i, rest := path[0].i, path[1..];
      DefaultConforms(element);
      if path[0] == place[0] {
        var start := if before == Absent(0) then StatusAt(element, Default(element), rest) else Inner(before);
        assert path == [place[0]] + rest && place == [place[0]] + place[1..];
        LeafIsolation(element, rest, doc1.items[i], doc2.items[i], place[1..], scope, start);
      }
  }

  lemma {:induction false} AttributeIsolation(
      schema: Schema, path: seq<Step>, doc1: Node, doc2: Node, place: seq<Step>, scope: Scope, before: Status)
    requires LeafPath(schema, path) && WellFormed(schema) && schema.ObjectSchema?
    requires SameOutside(schema, doc1, doc2, place) && IsOutside(path, place)
    ensures Resolved(schema, path, doc1, scope, before) == Resolved(schema, path, doc2, scope, before)
    decreases |path|, 1
  {
    if path[0] == place[0] {
      PlaceIsolation(schema, path, doc1, doc2, place, scope, before);
    } else {
      assert Entry(doc1, path[0].name) == Entry(doc2, path[0].name);
    }
  }

  /** The attribute that the place is in: its class overrides are the same, and the difference is further inside. */
  lemma {:induction false} PlaceIsolation(
      schema: Schema, path: seq<Step>, doc1: Node, doc2: Node, place: seq<Step>, scope: Scope, before: Status)
    requires LeafPath(schema, path) && WellFormed(schema) && schema.ObjectSchema?
    requires SameOutside(schema, doc1, doc2, place) && IsOutside(path, place) && path[0] == place[0]
    ensures Resolved(schema, path, doc1, scope, before) == Resolved(schema, path, doc2, scope, before)
    decreases |path|, 0
  {
    var a, rest := schema.attrs[FindAttribute(schema.attrs, path[0].name)], path[1..];
    var key := ":" + a.className;
    var byClass :=
      if a.className != "" && key in scope then Resolved(a.schema, rest, scope[key], scope, Inner(before))
      else Inner(before);
    var nested1, nested2 := Entry(doc1, a.name), Entry(doc2, a.name);
    assert path == [place[0]] + rest && place == [place[0]] + place[1..];
    SameScopeOutside(a.schema, scope, nested1, nested2, place[1..]);
    LeafIsolation(a.schema, rest, nested1, nested2, place[1..], Inside(scope, nested1), byClass);
  }

  /**
   * Scope isolation for a pass with any class scope: whatever is written at a
   * place, class overrides included, every leaf outside it ends the same.
   */
  lemma AppliedIsolation(
      schema: Schema, v: Value, doc1: Node, doc2: Node, place: seq<Step>, scope: Scope, path: seq<Step>)
    requires Conforms(schema, v) && WellFormed(schema) && LeafPath(schema, path)
    requires SameOutside(schema, doc1, doc2, place) && IsOutside(path, place)
    requires Applied(schema, v, doc1, scope).Some? && Applied(schema, v, doc2, scope).Some?
    ensures StatusAt(schema, Applied(schema, v, doc1, scope).value, path)
            == StatusAt(schema, Applied(schema, v, doc2, scope).value, path)
  {
    AppliedIsResolved(schema, v, doc1, scope, path);
    AppliedIsResolved(schema, v, doc2, scope, path);
    LeafIsolation(schema, path, doc1, doc2, place, scope, StatusAt(schema, v, path));
  }

  /** Scope isolation for a loaded document. */
  lemma LoadedIsolation(schema: Schema, v: Value, doc1: Node, doc2: Node, place: seq<Step>, path: seq<Step>)
    requires Conforms(schema, v) && WellFormed(schema) && LeafPath(schema, path)
    requires SameOutside(schema, doc1, doc2, place) && IsOutside(path, place)
    requires Loaded(schema, v, doc1).Some? && Loaded(schema, v, doc2).Some?
    ensures StatusAt(schema, Loaded(schema, v, doc1).value, path)
            == StatusAt(schema, Loaded(schema, v, doc2).value, path)
  {
    SameScopeOutside(schema, map[], doc1, doc2, place);
    AppliedIsolation(schema, v, doc1, doc2, place, MergedScope(map[], doc1).value, path);
  }
}
