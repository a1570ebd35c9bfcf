/** Dumping a configuration to a document, and loading it back. */
module Dump {
  import opened Common
  import opened Yaml
  import opened Config
  import opened Resolver

  /** `to_yaml`. A list or an object with nothing in it is dumped as a null node. */
  function Dumped(schema: Schema, v: Value): Node
    requires Conforms(schema, v)
    decreases schema, 0
  {
    match schema
    case LeafSchema(_) => Scalar(v.text)
    case ObjectSchema(attrs) =>
      if attrs == [] then Null else Map(DumpedFields(attrs, v.fields))
    case ListSchema(element, _) =>
      if v.items == [] then Null else Sequence(DumpedItems(element, v.items))
  }

  /** One entry per attribute; a later attribute of the same name overwrites an earlier one. */
  function DumpedFields(attrs: seq<Attribute>, fields: seq<Value>): (m: map<string, Node>)
    requires |fields| == |attrs|
    requires forall i | 0 <= i < |attrs| :: Conforms(attrs[i].schema, fields[i])
    ensures m.Keys == set i | 0 <= i < |attrs| :: attrs[i].name
    decreases attrs
  {
    if attrs == [] then map[]
    else
      var last := |attrs| - 1;
      DumpedFields(attrs[..last], fields[..last])[attrs[last].name := Dumped(attrs[last].schema, fields[last])]
  }

  function DumpedItems(element: Schema, items: seq<Value>): (docs: seq<Node>)
    requires forall i | 0 <= i < |items| :: Conforms(element, items[i])
    ensures |docs| == |items|
    ensures forall i | 0 <= i < |items| :: docs[i] == Dumped(element, items[i])
    decreases element, 1, |items|
  {
    if items == [] then []
    else DumpedItems(element, items[..|items| - 1]) + [Dumped(element, items[|items| - 1])]
  }

  lemma {:induction false} DumpedField(attrs: seq<Attribute>, fields: seq<Value>, i: nat)
    requires |fields| == |attrs| && i < |attrs| && UniqueNames(attrs)
    requires forall j | 0 <= j < |attrs| :: Conforms(attrs[j].schema, fields[j])
    ensures attrs[i].name in DumpedFields(attrs, fields)
    ensures DumpedFields(attrs, fields)[attrs[i].name] == Dumped(attrs[i].schema, fields[i])
    decreases attrs
  {
    var last := |attrs| - 1;
    if i < last {
      DumpedField(attrs[..last], fields[..last], i);
    }
  }

  /** Attribute names are unique in their object and are not class keys. */
  ghost predicate Nameable(schema: Schema) {
    match schema
    case LeafSchema(_) => true
    case ObjectSchema(attrs) =>
      && UniqueNames(attrs)
      && forall i | 0 <= i < |attrs| :: !IsClassKey(attrs[i].name) && Nameable(attrs[i].schema)
    case ListSchema(element, _) => Nameable(element)
  }

  /**
   * The lists of `v` are no longer than those of `c`; an item that only `c`
   * has counts as a default-constructed one.
   */
  ghost predicate NoLonger(schema: Schema, v: Value, c: Value)
    requires Conforms(schema, v) && Conforms(schema, c) && WellFormed(schema)
    decreases schema
  {
    match schema
    case LeafSchema(_) => true
    case ObjectSchema(attrs) =>
      forall i | 0 <= i < |attrs| :: NoLonger(attrs[i].schema, v.fields[i], c.fields[i])
    case ListSchema(element, _) =>
      DefaultConforms(element);
      && |v.items| <= |c.items|
      && forall i: nat | i < |c.items| :: NoLonger(element, ItemOr(element, v.items, i), c.items[i])
  }

  lemma NoClassKeysInDump(schema: Schema, c: Value)
    requires Conforms(schema, c) && Nameable(schema)
    ensures ClassKeys(Dumped(schema, c)) == {}
  {
  }

  /** Which node a dump is; nothing to dump is a null node, and not an empty map or sequence. */
  lemma DumpKinds(schema: Schema, v: Value)
    requires Conforms(schema, v)
    ensures Dumped(schema, v).Scalar? <==> schema.LeafSchema?
    ensures Dumped(schema, v).Map? <==> schema.ObjectSchema? && |v.fields| > 0
    ensures Dumped(schema, v).Sequence? <==> schema.ListSchema? && |v.items| > 0
    ensures Dumped(schema, v).Null? <==> (v.Object? && |v.fields| == 0) || (v.List? && |v.items| == 0)
  {
  }

  /** The dump has every leaf of the configuration at its path, and nothing at any other leaf's path. */
  lemma {:induction false} DumpedLeaf(schema: Schema, v: Value, path: seq<Step>)
    requires Conforms(schema, v) && Nameable(schema) && LeafPath(schema, path)
    ensures Probe(Dumped(schema, v), path)
            == if StatusAt(schema, v, path).Present? then Text(StatusAt(schema, v, path).text) else Miss
    decreases |path|
  {
    match schema
    case LeafSchema(_) =>
    case ObjectSchema(attrs) =>
      var i := FindAttribute(attrs, path[0].name);
      DumpedField(attrs, v.fields, i);
      DumpedLeaf(attrs[i].schema, v.fields[i], path[1..]);
    case ListSchema(element, _) =>
      if path[0].i < |v.items| {
        DumpedLeaf(element, v.items[path[0].i], path[1..]);
      } else {
        ProbeNull(path[1..]);
      }
  }

  /**
   * Dump then load: applying the dump of a configuration to any configuration
   * of the same class with no longer lists reproduces it.
   */
  lemma {:induction false} DumpThenLoad(schema: Schema, v: Value, c: Value)
    requires Conforms(schema, v) && Conforms(schema, c) && WellFormed(schema) && Nameable(schema)
    requires NoLonger(schema, v, c)
    ensures Applied(schema, v, Dumped(schema, c), map[]) == Some(c)
    decreases schema, 0
  {
    match schema
    case LeafSchema(_) =>
    case ObjectSchema(attrs) =>
      var doc := Dumped(schema, c);
      forall i | 0 <= i < |attrs|
        ensures AppliedField(attrs[i], v.fields[i], doc, map[]) == Some(c.fields[i])
      {
        DumpedField(attrs, c.fields, i);
        NoClassKeysInDump(attrs[i].schema, c.fields[i]);
        NoClassKeys(map[], Entry(doc, attrs[i].name));
        DumpThenLoad(attrs[i].schema, v.fields[i], c.fields[i]);
      }
      FieldsReproduced(attrs, v.fields, c.fields, doc);
    case ListSchema(element, _) =>
      DefaultConforms(element);
      ItemsReproduced(element, v.items, c.items);
  }

  lemma {:induction false} FieldsReproduced(attrs: seq<Attribute>, fields: seq<Value>, goal: seq<Value>, doc: Node)
    requires |fields| == |attrs| == |goal|
    requires forall j | 0 <= j < |attrs| :: Conforms(attrs[j].schema, fields[j]) && WellFormed(attrs[j].schema)
    requires forall j | 0 <= j < |attrs| :: AppliedField(attrs[j], fields[j], doc, map[]) == Some(goal[j])
    ensures AppliedFields(attrs, fields, doc, map[]) == Some(goal)
    decreases attrs
  {
    if attrs != [] {
      assert AppliedField(attrs[0], fields[0], doc, map[]) == Some(goal[0]);
      forall j | 0 <= j < |attrs[1..]|
        ensures AppliedField(attrs[1..][j], fields[1..][j], doc, map[]) == Some(goal[1..][j])
      {
        assert AppliedField(attrs[j + 1], fields[j + 1], doc, map[]) == Some(goal[j + 1]);
      }
      FieldsReproduced(attrs[1..], fields[1..], goal[1..], doc);
      assert [goal[0]] + goal[1..] == goal;
    }
  }

  lemma {:induction false} ItemsReproduced(element: Schema, items: seq<Value>, goal: seq<Value>)
    requires WellFormed(element) && Nameable(element) && Conforms(element, Default(element))
    requires forall i | 0 <= i < |items| :: Conforms(element, items[i])
    requires forall i | 0 <= i < |goal| :: Conforms(element, goal[i])
    requires |items| <= |goal|
    requires forall i: nat | i < |goal| :: NoLonger(element, ItemOr(element, items, i), goal[i])
    ensures AppliedItems(element, items, DumpedItems(element, goal), map[]) == Some(goal)
    decreases element, 1, |goal|
  {
    if goal != [] {
      var docs := DumpedItems(element, goal);
      DumpThenLoad(element, ItemOr(element, items, 0), goal[0]);
      assert DumpedItems(element, goal[1..]) == docs[1..];
      forall i: nat | i < |goal[1..]|
        ensures NoLonger(element, ItemOr(element, Tail(items), i), goal[1..][i])
      {
        assert NoLonger(element, ItemOr(element, items, i + 1), goal[i + 1]);
      }
      ItemsReproduced(element, Tail(items), goal[1..]);
      FirstItem(element, items, docs, goal);
    }
  }

  lemma FirstItem(element: Schema, items: seq<Value>, docs: seq<Node>, goal: seq<Value>)
    requires WellFormed(element) && Conforms(element, Default(element)) && docs != [] && goal != []
    requires forall i | 0 <= i < |items| :: Conforms(element, items[i])
    requires Applied(element, ItemOr(element, items, 0), docs[0], map[]) == Some(goal[0])
    requires AppliedItems(element, Tail(items), docs[1..], map[]) == Some(goal[1..])
    ensures AppliedItems(element, items, docs, map[]) == Some(goal)
  {
    assert [goal[0]] + goal[1..] == goal;
  }

  /** An attribute of the dump is loaded on its own, and opens no scope. */
  lemma DumpedFieldLoaded(attrs: seq<Attribute>, fields: seq<Value>, goal: seq<Value>, i: nat)
    requires |fields| == |attrs| == |goal| && i < |attrs| && Nameable(ObjectSchema(attrs))
    requires forall j | 0 <= j < |attrs| ::
               && Conforms(attrs[j].schema, fields[j]) && Conforms(attrs[j].schema, goal[j])
               && WellFormed(attrs[j].schema)
    requires AppliedFields(attrs, fields, Map(DumpedFields(attrs, goal)), map[]) == Some(goal)
    ensures Applied(attrs[i].schema, fields[i], Dumped(attrs[i].schema, goal[i]), map[]) == Some(goal[i])
  {
    var doc := Map(DumpedFields(attrs, goal));
    FieldsApplied(attrs, fields, doc, map[], i);
    DumpedField(attrs, goal, i);
    NoClassKeysInDump(attrs[i].schema, goal[i]);
    NoClassKeys(map[], Entry(doc, attrs[i].name));
  }

  /** Only then: wherever the dump reproduces the configuration, no list was longer. */
  lemma {:induction false} ReproducedOnlyIfNoLonger(schema: Schema, v: Value, c: Value)
    requires Conforms(schema, v) && Conforms(schema, c) && WellFormed(schema) && Nameable(schema)
    requires Applied(schema, v, Dumped(schema, c), map[]) == Some(c)
    ensures NoLonger(schema, v, c)
    decreases schema
  {
    match schema
    case LeafSchema(_) =>
    case ObjectSchema(attrs) =>
      forall i | 0 <= i < |attrs|
        ensures NoLonger(attrs[i].schema, v.fields[i], c.fields[i])
      {
        DumpedFieldLoaded(attrs, v.fields, c.fields, i);
        ReproducedOnlyIfNoLonger(attrs[i].schema, v.fields[i], c.fields[i]);
      }
    case ListSchema(element, _) =>
      DefaultConforms(element);
      var docs := Iterated(Dumped(schema, c));
      assert docs == DumpedItems(element, c.items);
      ListsKeepTail(element, v.items, docs, map[]);
      forall i: nat | i < |c.items|
        ensures NoLonger(element, ItemOr(element, v.items, i), c.items[i])
      {
        ItemsApplied(element, v.items, docs, map[], i);
        ReproducedOnlyIfNoLonger(element, ItemOr(element, v.items, i), c.items[i]);
      }
  }

  /**
   * Loading the dump of a configuration as a document reproduces the
   * configuration if and only if no list was longer than the dumped one.
   */
  lemma DumpLoaded(schema: Schema, v: Value, c: Value)
    requires Conforms(schema, v) && Conforms(schema, c) && WellFormed(schema) && Nameable(schema)
    ensures Loaded(schema, v, Dumped(schema, c)) == Some(c) <==> NoLonger(schema, v, c)
  {
    NoClassKeysInDump(schema, c);
    NoClassKeys(map[], Dumped(schema, c));
    if NoLonger(schema, v, c) {
      DumpThenLoad(schema, v, c);
    } else if Applied(schema, v, Dumped(schema, c), map[]) == Some(c) {
      ReproducedOnlyIfNoLonger(schema, v, c);
    }
  }

  /** A configuration class with one leaf named x. */
  const POINT := ObjectSchema([Attribute("x", "", LeafSchema(""))])

  function Point(x: string): (v: Value)
    ensures Conforms(POINT, v)
  {
    Object([Leaf(x)])
  }

  lemma PointLoaded(x: string, y: string)
    ensures Conforms(POINT, Point(x)) && Conforms(POINT, Point(y)) && WellFormed(POINT)
    ensures Applied(POINT, Point(x), Dumped(POINT, Point(y)), map[]) == Some(Point(y))
  {
    DumpThenLoad(POINT, Point(x), Point(y));
  }

  /** The condition on the lengths is needed: a longer list keeps its tail. */
  lemma LongerListKeepsTail()
    ensures var schema := ListSchema(POINT, []);
            var v, c := List([Point("a"), Point("b")]), List([Point("c")]);
            && Conforms(schema, v) && Conforms(schema, c) && WellFormed(schema)
            && Loaded(schema, v, Dumped(schema, c)) == Some(List([Point("c"), Point("b")]))
  {
    var schema := ListSchema(POINT, []);
    var v, c := List([Point("a"), Point("b")]), List([Point("c")]);
    PointLoaded("a", "c");
    NoClassKeys(map[], Dumped(schema, c));
    var docs := DumpedItems(POINT, c.items);
    assert docs == [Dumped(POINT, Point("c"))];
    assert AppliedItems(POINT, v.items[1..], docs[1..], map[]) == Some(v.items[1..]);
    assert AppliedItems(POINT, v.items, docs, map[]) == Some([Point("c")] + v.items[1..]);
    assert [Point("c")] + v.items[1..] == [Point("c"), Point("b")];
  }
}
