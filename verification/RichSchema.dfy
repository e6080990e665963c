/**
 The node shapes of rich content (rich-content.validation.ts): for every kind of node, the keys in
 the order the normal form writes them, which of them are required, and what each one holds.
 */
module RichSchema {
  import opened JsonText
  import opened JsonInspection
  import opened Wrappers

  const MAX_MATH_COMPLEXITY: nat := 512
  const MAX_CHEMISTRY_COMPLEXITY: nat := 256
  const MAX_ASSET_REFERENCES: nat := 8
  const MAX_ACCESSIBLE_TEXT_LENGTH: nat := 1000

  datatype Class = Envelope | Document | Block | Inline | Expression | Species | Part

  /** What a field holds. `Node` is one node, `Nodes` a list of nodes that is not empty. */
  datatype Kind =
    | Display(longest: nat)
    | Formula
    | OneOf(allowed: seq<Text>)
    | Whole(least: int, most: int)
    | Element
    | AssetId
    | Node(node: Class)
    | Nodes(item: Class)

  datatype Field = Field(key: Text, kind: Kind, required: bool)

  function Required(name: string, kind: Kind): Field
    requires forall i :: 0 <= i < |name| ==> name[i] < 128 as char
  {
    Field(Literal(name), kind, true)
  }

  function Optional(name: string, kind: Kind): Field
    requires forall i :: 0 <= i < |name| ==> name[i] < 128 as char
  {
    Field(Literal(name), kind, false)
  }

  function Tagged(tag: Text): Field {
    Required("type", OneOf([tag]))
  }

  function Languages(): Kind {
    OneOf([Literal("ar"), Literal("en"), Literal("und")])
  }

  function Directions(): Kind {
    OneOf([Literal("rtl"), Literal("ltr"), Literal("auto")])
  }

  function TextFields(tag: Text, content: Kind): seq<Field> {
    [Tagged(tag), Required("text", content), Optional("language", Languages()), Optional("direction", Directions())]
  }

  function MathFields(tag: Text, display: string): seq<Field>
    requires forall i :: 0 <= i < |display| ==> display[i] < 128 as char
  {
    [Tagged(tag), Required("display", OneOf([Literal(display)])), Required("children", Nodes(Expression)),
     Required("altText", Display(MAX_ACCESSIBLE_TEXT_LENGTH))]
  }

  /** Products and arrow come together or not at all. */
  function ChemistryFields(tag: Text, products: bool): seq<Field> {
    [Tagged(tag), Required("reactants", Nodes(Species)), Required("altText", Display(MAX_ACCESSIBLE_TEXT_LENGTH))]
    + if products then
        [Required("products", Nodes(Species)),
         Required("arrow", OneOf([Literal("yields"), Literal("equilibrium")]))]
      else []
  }

  function AssetFields(tag: Text): seq<Field> {
    [Tagged(tag), Required("assetId", AssetId),
     Required("kind", OneOf([Literal("image"), Literal("audio"), Literal("video"), Literal("document"), Literal("other")])),
     Required("altText", Display(MAX_ACCESSIBLE_TEXT_LENGTH)), Optional("caption", Display(MAX_ACCESSIBLE_TEXT_LENGTH))]
  }

  predicate IsExpression(tag: Text) {
    || tag == Literal("subscript") || tag == Literal("superscript")
    || tag == Literal("fraction") || tag == Literal("radical")
  }

  function ExpressionFields(tag: Text): Option<seq<Field>> {
    if tag == Literal("text") then Some(TextFields(tag, Formula))
    else if tag == Literal("subscript") || tag == Literal("superscript") then
      Some([Tagged(tag), Required("children", Nodes(Expression))])
    else if tag == Literal("fraction") then
      Some([Tagged(tag), Required("numerator", Nodes(Expression)), Required("denominator", Nodes(Expression))])
    else if tag == Literal("radical") then
      Some([Tagged(tag), Required("radicand", Nodes(Expression)), Optional("degree", Whole(2, 16))])
    else None
  }

  function InlineFields(tag: Text, products: bool): Option<seq<Field>> {
    if tag == Literal("text") then Some(TextFields(tag, Display(MAX_TEXT_LENGTH)))
    else if tag == Literal("lineBreak") then Some([Tagged(tag)])
    else if tag == Literal("strong") || tag == Literal("emphasis") then
      Some([Tagged(tag), Required("children", Nodes(Inline))])
    else if IsExpression(tag) then ExpressionFields(tag)
    else if tag == Literal("math") then Some(MathFields(tag, "inline"))
    else if tag == Literal("chemistry") then Some(ChemistryFields(tag, products))
    else if tag == Literal("assetReference") then Some(AssetFields(tag))
    else None
  }

  function BlockFields(tag: Text): Option<seq<Field>> {
    if tag == Literal("math") then Some(MathFields(tag, "block"))
    else if tag == Literal("paragraph") then Some([Tagged(tag), Required("children", Nodes(Inline))])
    else None
  }

  function EnvelopeFields(tag: Text): Option<seq<Field>> {
    var head := [Required("contentVersion", Whole(1, 1)), Required("kind", OneOf([tag]))];
    if tag == Literal("question") then
      Some(head + [Required("stem", Node(Document)), Optional("instructions", Node(Document)),
                   Optional("stemAr", Node(Document))])
    else if tag == Literal("option") then
      Some(head + [Required("label", Node(Document)), Optional("labelAr", Node(Document))])
    else None
  }

  function DocumentFields(): seq<Field> {
    [Required("language", Languages()), Required("direction", Directions()), Required("blocks", Nodes(Block))]
  }

  function SpeciesFields(): seq<Field> {
    [Required("coefficient", Whole(1, 999)), Required("elements", Nodes(Part)), Optional("charge", Whole(-8, 8)),
     Optional("state", OneOf([Literal("s"), Literal("l"), Literal("g"), Literal("aq")]))]
  }

  function PartFields(): seq<Field> {
    [Required("element", Element), Required("count", Whole(1, 999))]
  }

  /** Whether the class is told apart by a tag, and under which key. */
  function TagKey(cls: Class): Option<Text> {
    match cls
    case Envelope => Some(Literal("kind"))
    case Block => Some(Literal("type"))
    case Inline => Some(Literal("type"))
    case Expression => Some(Literal("type"))
    case _ => None
  }

  /** The fields of a node, from its tag and from whether it has products. */
  function FieldsFor(cls: Class, tag: Option<Text>, products: bool): Option<seq<Field>> {
    if cls == Document then Some(DocumentFields())
    else if cls == Species then Some(SpeciesFields())
    else if cls == Part then Some(PartFields())
    else if tag == None then None
    else if cls == Envelope then EnvelopeFields(tag.value)
    else if cls == Block then BlockFields(tag.value)
    else if cls == Inline then InlineFields(tag.value, products)
    else ExpressionFields(tag.value)
  }

  // ----- Complexity ------------------------------------------------------------------------

  datatype Counters = Counters(math: nat, chemistry: nat, assets: nat)

  /** Count one node: expressions, species and their parts, and asset references. */
  function Count(c: Counters, cls: Class, tag: Option<Text>): Counters {
    match cls
    case Expression => c.(math := c.math + 1)
    case Species => c.(chemistry := c.chemistry + 1)
    case Part => c.(chemistry := c.chemistry + 1)
    case Inline =>
      if tag.Some? && IsExpression(tag.value) then c.(math := c.math + 1)
      else if tag == Some(Literal("assetReference")) then c.(assets := c.assets + 1)
      else c
    case _ => c
  }

  predicate Bounded(c: Counters) {
    c.math <= MAX_MATH_COMPLEXITY && c.chemistry <= MAX_CHEMISTRY_COMPLEXITY && c.assets <= MAX_ASSET_REFERENCES
  }

  // ----- Keys ------------------------------------------------------------------------------

  predicate DistinctFields(fields: seq<Field>) {
    forall i, j :: 0 <= i < j < |fields| ==> fields[i].key != fields[j].key
  }

  predicate HasField(fields: seq<Field>, key: Text) {
    exists i :: 0 <= i < |fields| && fields[i].key == key
  }

  /** The tag field fixes the tag. */
  predicate FixesTag(fields: seq<Field>, key: Text, tag: Text) {
    Field(key, OneOf([tag]), true) in fields
  }

  lemma {:induction false} TextDistinct(tag: Text, content: Kind)
    ensures DistinctFields(TextFields(tag, content))
  {
    assert Literal("type")[1] != Literal("text")[1];
  }

  lemma {:induction false} MathDistinct(tag: Text, display: string)
    requires forall i :: 0 <= i < |display| ==> display[i] < 128 as char
    ensures DistinctFields(MathFields(tag, display))
  {
    assert Literal("display")[0] != Literal("altText")[0];
  }

  lemma {:induction false} ChemistryDistinct(tag: Text, products: bool)
    ensures DistinctFields(ChemistryFields(tag, products))
  {
  }

  lemma {:induction false} AssetDistinct(tag: Text)
    ensures DistinctFields(AssetFields(tag))
  {
    assert Literal("type")[0] != Literal("kind")[0];
    assert Literal("assetId")[1] != Literal("altText")[1];
    assert Literal("caption")[0] != Literal("altText")[0];
    assert Literal("caption")[0] != Literal("assetId")[0];
  }

  lemma {:induction false} ExpressionDistinct(tag: Text)
    ensures ExpressionFields(tag).Some? ==> DistinctFields(ExpressionFields(tag).value)
  {
    TextDistinct(tag, Formula);
    hide TextFields;
  }

  lemma {:induction false} InlineDistinct(tag: Text, products: bool)
    ensures InlineFields(tag, products).Some? ==> DistinctFields(InlineFields(tag, products).value)
  {
    TextDistinct(tag, Display(MAX_TEXT_LENGTH));
    ExpressionDistinct(tag);
    MathDistinct(tag, "inline");
    ChemistryDistinct(tag, products);
    AssetDistinct(tag);
    hide TextFields, ExpressionFields, MathFields, ChemistryFields, AssetFields;
  }

  lemma {:induction false} BlockDistinct(tag: Text)
    ensures BlockFields(tag).Some? ==> DistinctFields(BlockFields(tag).value)
  {
    MathDistinct(tag, "block");
    hide MathFields;
  }

  lemma {:induction false} EnvelopeDistinct(tag: Text)
    ensures EnvelopeFields(tag).Some? ==> DistinctFields(EnvelopeFields(tag).value)
  {
    assert Literal("kind")[0] != Literal("stem")[0];
  }

  /** No node shape names a key twice, so its normal form cannot either. */
  lemma {:induction false} SchemaDistinct(cls: Class, tag: Option<Text>, products: bool)
    ensures FieldsFor(cls, tag, products).Some? ==> DistinctFields(FieldsFor(cls, tag, products).value)
  {
    hide InlineFields, BlockFields, EnvelopeFields, ExpressionFields;
    if tag.Some? {
      InlineDistinct(tag.value, products);
      BlockDistinct(tag.value);
      EnvelopeDistinct(tag.value);
      ExpressionDistinct(tag.value);
    }
  }

  lemma {:induction false} ExpressionFixesTag(tag: Text)
    ensures ExpressionFields(tag).Some? ==> FixesTag(ExpressionFields(tag).value, Literal("type"), tag)
  {
    hide Literal;
    if ExpressionFields(tag).Some? {
      assert ExpressionFields(tag).value[0] == Tagged(tag);
    }
  }

  lemma {:induction false} InlineFixesTag(tag: Text, products: bool)
    ensures InlineFields(tag, products).Some? ==> FixesTag(InlineFields(tag, products).value, Literal("type"), tag)
  {
    hide Literal;
    ExpressionFixesTag(tag);
    if InlineFields(tag, products).Some? && !IsExpression(tag) {
      assert InlineFields(tag, products).value[0] == Tagged(tag);
    }
  }

  /** The shape chosen by a tag writes that tag again. */
  lemma {:induction false} SchemaFixesTag(cls: Class, tag: Text, products: bool)
    requires TagKey(cls).Some? && FieldsFor(cls, Some(tag), products).Some?
    ensures FixesTag(FieldsFor(cls, Some(tag), products).value, TagKey(cls).value, tag)
  {
    hide Literal;
    var fields := FieldsFor(cls, Some(tag), products).value;
    if cls == Inline {
      InlineFixesTag(tag, products);
    } else if cls == Expression {
      ExpressionFixesTag(tag);
    } else if cls == Block {
      assert fields[0] == Tagged(tag);
    } else {
      assert fields[1] == Field(Literal("kind"), OneOf([tag]), true);
    }
  }
}
