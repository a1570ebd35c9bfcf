/** Dumping a configuration object into a new document, attribute by attribute. */
module DumpNode {
  import opened Common
  import opened Yaml
  import opened Y = YamlNode
  import opened Config
  import opened C = ConfigNode
  import opened Dump

  method ToYaml(schema: Schema, c: ConfigNode) returns (doc: YamlNode)
    requires c.Valid() && Conforms(schema, c.value)
    ensures doc.Valid() && fresh(doc.Repr)
    ensures doc.model == Dumped(schema, c.value)
    decreases schema, 0
  {
    match schema
    case LeafSchema(_) =>
      doc := new YamlNode();
      doc.SetScalar(c.content.text);
    case ObjectSchema(attrs) =>
      doc := AttributesToYaml(attrs, c);
    case ListSchema(element, _) =>
      doc := ItemsToYaml(element, c);
  }

  /** The loop over the attributes of an object; with none, the document stays null. */
  method AttributesToYaml(attrs: seq<Attribute>, c: ConfigNode) returns (doc: YamlNode)
    requires c.Valid() && c.value.Object? && |c.value.fields| == |attrs|
    requires forall i | 0 <= i < |attrs| :: Conforms(attrs[i].schema, c.value.fields[i])
    ensures doc.Valid() && fresh(doc.Repr)
    ensures doc.model == FieldsDocument(attrs, c.value.fields)
    decreases attrs, 1
  {
    doc := new YamlNode();
    ghost var fields := c.value.fields;
    assert attrs[..0] == [];
    for i := 0 to |attrs|
      invariant doc.Valid() && fresh(doc.Repr) && unchanged(c.Repr)
      invariant doc.model == FieldsDocument(attrs[..i], fields[..i])
    {
      DumpedOneMore(attrs, fields, i);
      AddAttribute(attrs[i], c, i, doc);
    }
    assert attrs[..|attrs|] == attrs && fields[..|attrs|] == fields;
  }

  /** An object as a document; with no attribute it is null. */
  ghost function FieldsDocument(attrs: seq<Attribute>, fields: seq<Value>): Node
    requires |fields| == |attrs|
    requires forall i | 0 <= i < |attrs| :: Conforms(attrs[i].schema, fields[i])
  {
    if attrs == [] then Null else Map(DumpedFields(attrs, fields))
  }

  method AddAttribute(a: Attribute, c: ConfigNode, i: nat, doc: YamlNode)
    requires c.Valid() && c.value.Object? && i < |c.value.fields| && Conforms(a.schema, c.value.fields[i])
    requires doc.Valid() && (doc.model.Map? || doc.model.Null?)
    modifies doc
    ensures doc.Valid() && fresh(doc.Repr - old(doc.Repr))
    ensures doc.model == SetKey(old(doc.model), a.name, Dumped(a.schema, c.value.fields[i]))
    decreases a.schema, 1
  {
    var child := ToYaml(a.schema, c.Children()[i]);
    doc.SetEntry(a.name, child);
  }

  lemma DumpedOneMore(attrs: seq<Attribute>, fields: seq<Value>, i: nat)
    requires |fields| == |attrs| && i < |attrs|
    requires forall j | 0 <= j < |attrs| :: Conforms(attrs[j].schema, fields[j])
    ensures FieldsDocument(attrs[..i + 1], fields[..i + 1])
            == SetKey(FieldsDocument(attrs[..i], fields[..i]), attrs[i].name, Dumped(attrs[i].schema, fields[i]))
  {
    assert attrs[..i + 1][..i] == attrs[..i] && fields[..i + 1][..i] == fields[..i];
  }

  /** The loop over the items of a list; with none, the document stays null. */
  method ItemsToYaml(element: Schema, c: ConfigNode) returns (doc: YamlNode)
    requires c.Valid() && c.value.List?
    requires forall i | 0 <= i < |c.value.items| :: Conforms(element, c.value.items[i])
    ensures doc.Valid() && fresh(doc.Repr)
    ensures doc.model == ItemsDocument(element, c.value.items)
    decreases element, 2
  {
    doc := new YamlNode();
    ghost var items := c.value.items;
    assert items[..0] == [];
    for i := 0 to |c.Children()|
      invariant doc.Valid() && fresh(doc.Repr) && unchanged(c.Repr)
      invariant doc.model == ItemsDocument(element, items[..i])
    {
      OneMoreItem(element, items, i);
      AddItem(element, c, i, doc);
    }
    assert items[..|items|] == items;
  }

  /** A list as a document; with no item it is null. */
  ghost function ItemsDocument(element: Schema, items: seq<Value>): Node
    requires forall i | 0 <= i < |items| :: Conforms(element, items[i])
  {
    if items == [] then Null else Sequence(DumpedItems(element, items))
  }

  function Appended(doc: Node, child: Node): Node {
    Sequence(Items(doc) + [child])
  }

  method AddItem(element: Schema, c: ConfigNode, i: nat, doc: YamlNode)
    requires c.Valid() && c.value.List? && i < |c.value.items| && Conforms(element, c.value.items[i])
    requires doc.Valid() && (doc.model.Sequence? || doc.model.Null?)
    modifies doc
    ensures doc.Valid() && fresh(doc.Repr - old(doc.Repr))
    ensures doc.model == Appended(old(doc.model), Dumped(element, c.value.items[i]))
    decreases element, 1
  {
    var child := ToYaml(element, c.Children()[i]);
    doc.PushBack(child);
  }

  lemma OneMoreItem(element: Schema, items: seq<Value>, i: nat)
    requires i < |items| && forall j | 0 <= j < |items| :: Conforms(element, items[j])
    ensures ItemsDocument(element, items[..i + 1])
            == Appended(ItemsDocument(element, items[..i]), Dumped(element, items[i]))
  {
    assert items[..i + 1][..i] == items[..i];
  }
}
