/**
 * Informational ("non-selection") attributes of a product variant: picking the
 * variant, keeping the attributes that can be displayed, and the text of the
 * badges that show them.
 */
module OptionalAttributes {
  import opened Wrappers
  import opened JsArray
  import opened JsString

  // ---- Input shapes, as delivered by the commerce backend -----------------

  /** `{ name?: string | null }`: absent and null are both None. */
  datatype AttributeValue = AttributeValue(name: Option<string>)

  /** `{ name?: string | null; slug?: string | null }` */
  datatype AttributeRef = AttributeRef(name: Option<string>, slug: Option<string>)

  datatype NonSelectionAttribute = NonSelectionAttribute(attribute: AttributeRef, values: seq<AttributeValue>)

  /** `VariantWithAttributes`: the attribute list itself may be absent. */
  datatype Variant = Variant(id: string, nonSelectionAttributes: Option<seq<NonSelectionAttribute>>)

  // ---- Output shape ---------------------------------------------------------

  /** `VariantAttribute`: what a badge displays. */
  datatype VariantAttribute = VariantAttribute(name: string, slug: string, values: seq<string>)

  /** A non-empty name and slug, and no empty value. */
  predicate Labelled(a: VariantAttribute) {
    && a.name != ""
    && a.slug != ""
    && forall i :: 0 <= i < |a.values| ==> a.values[i] != ""
  }

  /** What every extracted attribute satisfies: labelled, with at least one value. */
  predicate Displayable(a: VariantAttribute) {
    Labelled(a) && |a.values| > 0
  }

  /** JavaScript truthiness of a `string | null | undefined`: present and not empty. */
  predicate Truthy(s: Option<string>) {
    s.Some? && s.value != ""
  }

  // ---- Selecting the variant -----------------------------------------------

  function HasId(id: string): Variant -> bool {
    (v: Variant) => v.id == id
  }

  /**
   * The variant whose attributes are shown: with a truthy id the first variant
   * carrying it (none if no variant does); otherwise the first variant, if any.
   */
  function SelectVariant(variants: seq<Variant>, selectedVariantId: Option<string>): (r: Option<Variant>)
    ensures r.Some? ==> r.value in variants
    ensures r.None? <==>
              || |variants| == 0
              || (Truthy(selectedVariantId) && forall i :: 0 <= i < |variants| ==> variants[i].id != selectedVariantId.value)
  {
    if Truthy(selectedVariantId) then Find(variants, HasId(selectedVariantId.value))
    else if |variants| > 0 then Some(variants[0])
    else None
  }

  // ---- Normalising the attributes (the filter/map/filter chain) -----------

  predicate HasNameAndSlug(a: NonSelectionAttribute) {
    Truthy(a.attribute.name) && Truthy(a.attribute.slug)
  }

  function ValueName(v: AttributeValue): Option<string> {
    v.name
  }

  /** The type guard `n is string`: a truthy name is a string. */
  function Narrow(n: Option<string>): string
    requires n.Some?
  {
    n.value
  }

  /** `values.map(v => v.name).filter(n => !!n)`: the truthy value names. */
  function ValueNames(values: seq<AttributeValue>): (r: seq<string>)
    ensures |r| <= |values|
    ensures forall i :: 0 <= i < |r| ==> r[i] != ""
  {
    var names := Filter(Map(values, ValueName), Truthy);
    Map(names, Narrow)
  }

  /** The record built for an attribute with a truthy name and slug. */
  function ToVariantAttribute(a: NonSelectionAttribute): (r: VariantAttribute)
    requires HasNameAndSlug(a)
    ensures Labelled(r)
    ensures r.name == a.attribute.name.value && r.slug == a.attribute.slug.value
    ensures |r.values| <= |a.values|
  {
    VariantAttribute(a.attribute.name.value, a.attribute.slug.value, ValueNames(a.values))
  }

  predicate HasValues(a: VariantAttribute) {
    |a.values| > 0
  }

  /** The chain on a present attribute list: keep named ones, convert, drop those left without values. */
  function DisplayableAttributes(attrs: seq<NonSelectionAttribute>): (r: seq<VariantAttribute>)
    ensures |r| <= |attrs|
    ensures forall i :: 0 <= i < |r| ==> Displayable(r[i])
  {
    var named := Filter(attrs, HasNameAndSlug);
    var converted := Map(named, ToVariantAttribute);
    FilterKeeps(converted, HasValues, Labelled);
    Filter(converted, HasValues)
  }

  /** The attributes a variant shows; none when its list is absent. */
  function AttributesOf(v: Variant): (r: seq<VariantAttribute>)
    ensures v.nonSelectionAttributes.None? ==> r == []
    ensures v.nonSelectionAttributes.Some? ==> |r| <= |v.nonSelectionAttributes.value|
    ensures forall i :: 0 <= i < |r| ==> Displayable(r[i])
  {
    match v.nonSelectionAttributes
    case None => []
    case Some(attrs) => DisplayableAttributes(attrs)
  }

  /** `extractOptionalAttributes(variants, selectedVariantId)` */
  function ExtractOptionalAttributes(variants: seq<Variant>, selectedVariantId: Option<string>): (r: seq<VariantAttribute>)
    ensures forall i :: 0 <= i < |r| ==> Displayable(r[i])
    ensures |variants| == 0 ==> r == []
  {
    match SelectVariant(variants, selectedVariantId)
    case None => []
    case Some(v) => AttributesOf(v)
  }

  // ---- Selection rules -------------------------------------------------------

  /** With no id, or the empty string, the first variant's attributes are shown. */
  lemma NoIdSelectsFirstVariant(variants: seq<Variant>, selectedVariantId: Option<string>)
    requires !Truthy(selectedVariantId) && |variants| > 0
    ensures ExtractOptionalAttributes(variants, selectedVariantId) == AttributesOf(variants[0])
  {
  }

  /** An empty id is falsy: it behaves exactly as an absent one. */
  lemma EmptyIdActsAsNoId(variants: seq<Variant>)
    ensures ExtractOptionalAttributes(variants, Some("")) == ExtractOptionalAttributes(variants, None)
  {
  }

  /** A non-empty id shows the attributes of the first variant that carries it. */
  lemma IdSelectsFirstMatch(variants: seq<Variant>, id: string, i: nat)
    requires id != "" && i < |variants| && variants[i].id == id
    requires forall j :: 0 <= j < i ==> variants[j].id != id
    ensures ExtractOptionalAttributes(variants, Some(id)) == AttributesOf(variants[i])
  {
    assert HasId(id)(variants[i]);
  }

  /** A non-empty id that no variant carries shows nothing; there is no fallback to the first variant. */
  lemma UnmatchedIdGivesNothing(variants: seq<Variant>, id: string)
    requires id != ""
    requires forall i :: 0 <= i < |variants| ==> variants[i].id != id
    ensures ExtractOptionalAttributes(variants, Some(id)) == []
  {
  }

  /** A selected variant without a non-selection attribute list shows nothing. */
  lemma AbsentListGivesNothing(variants: seq<Variant>, selectedVariantId: Option<string>)
    requires SelectVariant(variants, selectedVariantId).Some?
    requires SelectVariant(variants, selectedVariantId).value.nonSelectionAttributes.None?
    ensures ExtractOptionalAttributes(variants, selectedVariantId) == []
  {
  }

  // ---- What the filter/map chain keeps ------------------------------------

  predicate HasName(v: AttributeValue) {
    Truthy(v.name)
  }

  /** The value names are exactly the truthy names of the values, in input order. */
  lemma ValueNamesInOrder(values: seq<AttributeValue>)
    ensures var r, ix := ValueNames(values), Positions(values, HasName);
            && |r| == |ix|
            && forall k :: 0 <= k < |ix| ==> r[k] == values[ix[k]].name.value
  {
    var names := Map(values, ValueName);
    PositionsAgree(names, Truthy, values, HasName, 0);
    FilterAtPositions(names, Truthy);
  }

  /**
   * An attribute is shown when it has a truthy name and slug and at least one
   * value with a truthy name; stated without reference to the chain.
   */
  predicate Shown(a: NonSelectionAttribute) {
    HasNameAndSlug(a) && exists i :: 0 <= i < |a.values| && HasName(a.values[i])
  }

  lemma ShownIffHasValues(a: NonSelectionAttribute)
    requires HasNameAndSlug(a)
    ensures HasValues(ToVariantAttribute(a)) <==> Shown(a)
  {
    ValueNamesInOrder(a.values);
    var ix := Positions(a.values, HasName);
    if |ix| > 0 {
      assert HasName(a.values[ix[0]]);
    }
    if Shown(a) {
      var i :| 0 <= i < |a.values| && HasName(a.values[i]);
      assert i in ix;
    }
  }

  /** Reference definition: keep the shown attributes, then convert each. */
  function ShownAttributes(attrs: seq<NonSelectionAttribute>): seq<VariantAttribute> {
    var shown := Filter(attrs, Shown);
    Map(shown, ToVariantAttribute)
  }

  /** One step of the chain: the head attribute contributes its record or nothing. */
  lemma ChainCons(a: NonSelectionAttribute, rest: seq<NonSelectionAttribute>)
    ensures DisplayableAttributes([a] + rest)
            == (if HasNameAndSlug(a) && HasValues(ToVariantAttribute(a)) then [ToVariantAttribute(a)] else [])
               + DisplayableAttributes(rest)
  {
    FilterMapFilterCons(a, rest, HasNameAndSlug, ToVariantAttribute, HasValues);
  }

  lemma ShownCons(a: NonSelectionAttribute, rest: seq<NonSelectionAttribute>)
    ensures ShownAttributes([a] + rest)
            == (if Shown(a) then [ToVariantAttribute(a)] else []) + ShownAttributes(rest)
  {
    var shown := Filter(rest, Shown);
    FilterCons(a, rest, Shown);
    if Shown(a) {
      MapCons(a, shown, ToVariantAttribute);
    }
  }

  /** The three-step chain of the source equals the reference definition. */
  lemma {:induction false} ChainKeepsShown(attrs: seq<NonSelectionAttribute>)
    ensures DisplayableAttributes(attrs) == ShownAttributes(attrs)
  {
    if attrs != [] {
      var a, rest := attrs[0], attrs[1..];
      assert attrs == [a] + rest;
      ChainKeepsShown(rest);
      ChainCons(a, rest);
      ShownCons(a, rest);
      if HasNameAndSlug(a) {
        ShownIffHasValues(a);
      }
    }
  }

  /**
   * The attributes of a present list, in order: the k-th output is the k-th
   * shown input attribute, converted. So the output is an order-preserving
   * subsequence of the input, and no shown attribute is missing.
   */
  lemma DisplayableAttributesInOrder(attrs: seq<NonSelectionAttribute>)
    ensures var r, ix := DisplayableAttributes(attrs), Positions(attrs, Shown);
            && |r| == |ix|
            && forall k :: 0 <= k < |ix| ==>
                 && r[k].name == attrs[ix[k]].attribute.name.value
                 && r[k].slug == attrs[ix[k]].attribute.slug.value
                 && r[k].values == ValueNames(attrs[ix[k]].values)
  {
    ChainKeepsShown(attrs);
    FilterAtPositions(attrs, Shown);
    var shown := Filter(attrs, Shown);
  }

  // ---- Worked examples ------------------------------------------------------

  const Material: NonSelectionAttribute :=
    NonSelectionAttribute(AttributeRef(Some("Material"), Some("material")),
                          [AttributeValue(Some("Cotton")), AttributeValue(Some("Linen"))])

  lemma MaterialValueNames()
    ensures ValueNames(Material.values) == ["Cotton", "Linen"]
  {
    var names := Map(Material.values, ValueName);
    assert |names| == 2 && names[0] == Some("Cotton") && names[1] == Some("Linen");
    assert names == [Some("Cotton")] + [Some("Linen")];
    FilterCons(Some("Cotton"), [Some("Linen")], Truthy);
    FilterCons(Some("Linen"), [], Truthy);
    assert Filter(names, Truthy) == names;
    var vn := Map(names, Narrow);
    assert |vn| == 2 && vn[0] == "Cotton" && vn[1] == "Linen";
  }

  lemma MaterialDisplayed()
    ensures DisplayableAttributes([Material]) == [VariantAttribute("Material", "material", ["Cotton", "Linen"])]
  {
    MaterialValueNames();
    ChainCons(Material, []);
    assert [Material] + [] == [Material];
  }

  /** One variant, selected by its id: its attribute comes out with both values. */
  lemma ScenarioSelectedById()
    ensures ExtractOptionalAttributes([Variant("v1", Some([Material]))], Some("v1"))
            == [VariantAttribute("Material", "material", ["Cotton", "Linen"])]
  {
    IdSelectsFirstMatch([Variant("v1", Some([Material]))], "v1", 0);
    MaterialDisplayed();
  }

  /** The same attribute whose only value has a null name is dropped. */
  lemma ScenarioNoValueNames()
    ensures ExtractOptionalAttributes(
              [Variant("v1", Some([NonSelectionAttribute(Material.attribute, [AttributeValue(None)])]))],
              Some("v1")) == []
  {
    var a := NonSelectionAttribute(Material.attribute, [AttributeValue(None)]);
    var v := Variant("v1", Some([a]));
    assert HasId("v1")(v);
    assert !Shown(a);
    ChainKeepsShown([a]);
    ShownCons(a, []);
  }

  /** Two variants, the second selected: only its attributes are shown. */
  lemma ScenarioSecondVariant(first: Variant, second: Variant)
    requires first.id == "v1" && second.id == "v2"
    ensures ExtractOptionalAttributes([first, second], Some("v2")) == AttributesOf(second)
  {
    IdSelectsFirstMatch([first, second], "v2", 1);
  }

  // ---- Badges ----------------------------------------------------------------

  /** The text content of one badge: its key, the name text "name:" and the joined values. */
  datatype Badge = Badge(key: string, nameText: string, valueText: string)

  /**
   * The badge for one attribute, keyed by its slug: the name and a colon, and
   * the values joined with ", ", which start with the first value, so a
   * displayable attribute never shows an empty value text.
   */
  function BadgeFor(a: VariantAttribute): (r: Badge)
    ensures r.key == a.slug
    ensures |r.nameText| == |a.name| + 1 && r.nameText[..|a.name|] == a.name && r.nameText[|a.name|] == ':'
    ensures |a.values| > 0 ==> |r.valueText| >= |a.values[0]| && r.valueText[..|a.values[0]|] == a.values[0]
    ensures Displayable(a) ==> r.valueText != ""
  {
    Badge(a.slug, a.name + ":", Join(a.values, ", "))
  }

  /** `VariantAttributeBadges({ attributes })`: None (React's null) for an empty list, else one badge per attribute. */
  function VariantAttributeBadges(attributes: seq<VariantAttribute>): (r: Option<seq<Badge>>)
    ensures r.None? <==> |attributes| == 0
    ensures r.Some? ==> |r.value| == |attributes|
    ensures r.Some? ==> forall i :: 0 <= i < |attributes| ==> r.value[i].key == attributes[i].slug
    ensures r.Some? ==> forall i :: 0 <= i < |attributes| ==> r.value[i].nameText == attributes[i].name + ":"
    ensures r.Some? ==> forall i :: 0 <= i < |attributes| ==> r.value[i].valueText == Join(attributes[i].values, ", ")
  {
    if |attributes| == 0 then None else Some(Map(attributes, BadgeFor))
  }

  /**
   * A badge shows its attribute faithfully: the name text is the name and a colon,
   * and when no value holds a comma, splitting the value text on ", " gives the
   * values back in order.
   */
  lemma BadgeShowsAttribute(attributes: seq<VariantAttribute>, i: nat)
    requires i < |attributes| && |attributes[i].values| > 0
    requires forall j :: 0 <= j < |attributes[i].values| ==> ',' !in attributes[i].values[j]
    ensures var b := VariantAttributeBadges(attributes).value[i];
            && b.nameText[..|b.nameText| - 1] == attributes[i].name
            && b.nameText[|b.nameText| - 1] == ':'
            && SplitCommaSpace(b.valueText) == attributes[i].values
  {
    SplitJoinRoundTrip(attributes[i].values);
  }
}
