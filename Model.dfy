/**
 The entity-relationship object model: attribute, entity and relationship
 values, the primary-key underline of an attribute's display name, and the
 title sanitisation done when a diagram is built.
 */
module ErModel {
  import opened Wrappers

  // Attribute kinds. Kinds are plain strings; any other string is drawn as PRIMITIVE.
  const PRIMITIVE: string := "primitive"
  const COMPOSITE: string := "composite"
  const MULTIVALUED: string := "multivalued"
  const DERIVED: string := "derived"

  // Arrowheads for the edge from a relationship to each of its entities.
  const MANY_TO_MANY: string := "none"
  const ONE_TO_MANY: string := "normal"
  const ONE_TO_ONE: string := "vee"

  // Relationship kinds: "ISA" draws a triangle, anything else a diamond.
  const ISA: string := "ISA"
  const DEFAULT_KIND: string := "default"

  /** U+0332 COMBINING LOW LINE, placed after every character of a primary key's name. */
  const LOW_LINE: char := '\U{0332}'

  /** `"".join([c + '̲' for c in s])`: each character followed by a combining low line. */
  function Underline(s: string): (r: string)
    ensures |r| == 2 * |s|
  {
    if s == [] then [] else [s[0], LOW_LINE] + Underline(s[1..])
  }

  /** Every character of `s` stands at an even position of `Underline(s)`, and every odd position holds U+0332. */
  lemma {:induction false} UnderlineAt(s: string)
    ensures forall j :: 0 <= j < |Underline(s)| ==>
      Underline(s)[j] == if j % 2 == 0 then s[j / 2] else LOW_LINE
  {
    if s != [] {
      UnderlineAt(s[1..]);
      var u, t := Underline(s), Underline(s[1..]);
      assert u == [s[0], LOW_LINE] + t;
      forall j | 2 <= j < |u|
        ensures u[j] == if j % 2 == 0 then s[j / 2] else LOW_LINE
      {
        assert u[j] == t[j - 2];
        assert (j - 2) % 2 == j % 2 && (j - 2) / 2 == j / 2 - 1;
      }
    }
  }

  /** The characters at even positions: `t[0], t[2], t[4], …`. */
  function EveryOther(t: string): (r: string)
    ensures |r| == (|t| + 1) / 2
  {
    if |t| <= 1 then t else [t[0]] + EveryOther(t[2..])
  }

  /** Taking every second character of an underlined name gives the name back. */
  lemma {:induction false} UnderlineRoundTrip(s: string)
    ensures EveryOther(Underline(s)) == s
  {
    if s != [] {
      var t := Underline(s);
      assert t[2..] == Underline(s[1..]);
      UnderlineRoundTrip(s[1..]);
      assert EveryOther(t) == [s[0]] + s[1..];
    }
  }

  /** Underlining is injective: two names with the same display name are the same name. */
  lemma UnderlineInjective(s: string, s': string)
    requires Underline(s) == Underline(s')
    ensures s == s'
  {
    UnderlineRoundTrip(s);
    UnderlineRoundTrip(s');
  }

  /** `title.replace(" ", "_")`: every space becomes an underscore, everything else is kept. */
  function Sanitize(title: string): (r: string)
    ensures |r| == |title|
    ensures ' ' !in r
    ensures forall i :: 0 <= i < |title| && title[i] != ' ' ==> r[i] == title[i]
    ensures forall i :: 0 <= i < |title| && title[i] == ' ' ==> r[i] == '_'
  {
    if title == [] then []
    else [if title[0] == ' ' then '_' else title[0]] + Sanitize(title[1..])
  }

  /** A title without spaces is left as it is, so sanitising twice is sanitising once. */
  lemma SanitizeIdempotent(title: string)
    ensures ' ' !in title ==> Sanitize(title) == title
    ensures Sanitize(Sanitize(title)) == Sanitize(title)
  {
    forall t: string | ' ' !in t
      ensures Sanitize(t) == t
    {
      assert forall i :: 0 <= i < |t| ==> Sanitize(t)[i] == t[i];
    }
  }

  /**
   An attribute, with the source's defaults: kind PRIMITIVE, no sub-attributes,
   not a primary key. `compositeAttrs` is only read when the kind is COMPOSITE.
   */
  datatype Attribute = Attribute(
    name: string,
    kind: string := PRIMITIVE,
    compositeAttrs: Option<seq<Attribute>> := None,
    pk: bool := false)
  {
    /** The label drawn for the attribute: the name, underlined when it is a primary key. */
    function DisplayName(): (r: string)
      ensures pk ==> |r| == 2 * |name| && EveryOther(r) == name
      ensures !pk ==> r == name
    {
      if pk then (UnderlineRoundTrip(name); Underline(name)) else name
    }
  }

  /** An entity; the graph node's id is its name. */
  datatype Entity = Entity(name: string, attributes: seq<Attribute>, weak: bool := false)

  /**
   A relationship between entities. `arrows[i]` is the arrowhead towards
   `entities[i]`; the entities are references, drawn by name only.
   */
  datatype Relationship = Relationship(
    name: string,
    entities: seq<Entity>,
    arrows: seq<string>,
    attributes: Option<seq<Attribute>> := None,
    kind: string := DEFAULT_KIND,
    weak: bool := false)

  /**
   The three cardinalities named by the arrowhead constants. Relationships
   keep their arrows as strings, as the source does; `CardinalityOf` reads a
   drawn arrowhead back (see `Description.EntityEdgesCardinalities`).
   */
  datatype Cardinality = ManyToMany | OneToMany | OneToOne

  /** The arrowhead that draws a cardinality. */
  function Arrowhead(c: Cardinality): string
  {
    match c
    case ManyToMany => MANY_TO_MANY
    case OneToMany => ONE_TO_MANY
    case OneToOne => ONE_TO_ONE
  }

  /** The cardinality an arrowhead stands for, if it is one of the three constants. */
  function CardinalityOf(arrow: string): (r: Option<Cardinality>)
    ensures r.Some? <==> arrow in {MANY_TO_MANY, ONE_TO_MANY, ONE_TO_ONE}
    ensures r.Some? ==> Arrowhead(r.value) == arrow
  {
    if arrow == MANY_TO_MANY then Some(ManyToMany)
    else if arrow == ONE_TO_MANY then Some(OneToMany)
    else if arrow == ONE_TO_ONE then Some(OneToOne)
    else None
  }

  /** Reading back the arrowhead of a cardinality gives that cardinality. */
  lemma CardinalityRoundTrip(c: Cardinality)
    ensures CardinalityOf(Arrowhead(c)) == Some(c)
  {
  }
}
