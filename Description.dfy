/**
 The declarations the diagram builder appends, as functions of the object
 model: what one attribute, one relationship, one entity and a whole diagram
 contribute to the graph, and the properties of that translation.
 */
module Description {
  import opened Wrappers
  import opened Graph
  import opened ErModel

  /** An attribute the builder can draw: a COMPOSITE one must carry its list of sub-attributes. */
  predicate Drawable(a: Attribute)
  {
    a.kind == COMPOSITE ==> a.compositeAttrs.Some?
  }

  predicate AllDrawable(attrs: seq<Attribute>)
  {
    forall a :: a in attrs ==> Drawable(a)
  }

  /** A relationship the builder can draw: an arrow for every entity, drawable attributes. */
  predicate RelationshipDrawable(r: Relationship)
  {
    && |r.entities| <= |r.arrows|
    && (r.attributes.Some? ==> AllDrawable(r.attributes.value))
  }

  predicate EntityDrawable(e: Entity)
  {
    AllDrawable(e.attributes)
  }

  /** Node id of an attribute, or of a composite's sub-attribute, drawn under `parent`. */
  function AttrId(parent: string, a: Attribute): string
  {
    parent + a.name
  }

  /**
   The declarations for the sub-attributes of a composite, in order: for each,
   a plain ellipse labelled with its display name, then the edge from the
   composite's node to it. A sub-attribute's own kind plays no part.
   */
  function ChildDecls(children: seq<Attribute>, parent: string, compositeId: string): (r: seq<Decl>)
    ensures |r| == 2 * |children|
  {
    if children == [] then []
    else
      var c := children[|children| - 1];
      ChildDecls(children[..|children| - 1], parent, compositeId)
        + [NodeDecl(AttrId(parent, c), c.DisplayName(), "ellipse", None, None),
           EdgeDecl(compositeId, AttrId(parent, c), "none")]
  }

  lemma {:induction false} ChildDeclsAt(children: seq<Attribute>, parent: string, compositeId: string)
    ensures forall j :: 0 <= j < |children| ==>
      && ChildDecls(children, parent, compositeId)[2 * j]
         == NodeDecl(AttrId(parent, children[j]), children[j].DisplayName(), "ellipse", None, None)
      && ChildDecls(children, parent, compositeId)[2 * j + 1]
         == EdgeDecl(compositeId, AttrId(parent, children[j]), "none")
    decreases |children|
  {
    if children != [] {
      var n := |children| - 1;
      var init, c := children[..n], children[n];
      ChildDeclsAt(init, parent, compositeId);
      var prior := ChildDecls(init, parent, compositeId);
      var pair := [NodeDecl(AttrId(parent, c), c.DisplayName(), "ellipse", None, None),
                   EdgeDecl(compositeId, AttrId(parent, c), "none")];
      var all := ChildDecls(children, parent, compositeId);
      assert all == prior + pair;
      forall j | 0 <= j < |children|
        ensures all[2 * j] == NodeDecl(AttrId(parent, children[j]), children[j].DisplayName(), "ellipse", None, None)
        ensures all[2 * j + 1] == EdgeDecl(compositeId, AttrId(parent, children[j]), "none")
      {
        if j < n {
          assert children[j] == init[j];
          assert all[2 * j] == prior[2 * j] && all[2 * j + 1] == prior[2 * j + 1];
        } else {
          assert all[2 * j] == pair[0] && all[2 * j + 1] == pair[1];
        }
      }
    }
  }

  lemma {:induction false} ChildDeclsCounts(children: seq<Attribute>, parent: string, compositeId: string)
    ensures NodeCount(ChildDecls(children, parent, compositeId)) == |children|
    ensures EdgeCount(ChildDecls(children, parent, compositeId)) == |children|
    decreases |children|
  {
    if children != [] {
      var init := children[..|children| - 1];
      var c := children[|children| - 1];
      ChildDeclsCounts(init, parent, compositeId);
      var pair := [NodeDecl(AttrId(parent, c), c.DisplayName(), "ellipse", None, None),
                   EdgeDecl(compositeId, AttrId(parent, c), "none")];
      CountsAppend(ChildDecls(init, parent, compositeId), pair);
      assert pair[..1] == [pair[0]] && pair[..0] == [];
    }
  }

  /** Drawing one more sub-attribute extends the declarations of the ones before it. */
  lemma ChildDeclsStep(before: seq<Decl>, children: seq<Attribute>, k: nat, parent: string, compositeId: string, after: seq<Decl>)
    requires k < |children|
    requires after == (before + ChildDecls(children[..k], parent, compositeId))
      + [NodeDecl(parent + children[k].name, children[k].DisplayName(), "ellipse", None, None)]
      + [EdgeDecl(compositeId, parent + children[k].name, "none")]
    ensures after == before + ChildDecls(children[..k + 1], parent, compositeId)
  {
    var c := children[k];
    var node := NodeDecl(parent + c.name, c.DisplayName(), "ellipse", None, None);
    var edge := EdgeDecl(compositeId, parent + c.name, "none");
    assert children[..k + 1][..k] == children[..k];
    var prior := ChildDecls(children[..k], parent, compositeId);
    AppendAssoc(before + prior, [node], [edge]);
    AppendAssoc(before, prior, [node, edge]);
  }

  /** What `draw_attr` appends for one attribute drawn under the node `parent`. */
  function AttrDecls(a: Attribute, parent: string): (r: seq<Decl>)
    requires Drawable(a)
  {
    var id := AttrId(parent, a);
    if a.kind == COMPOSITE then
      [NodeDecl(id, a.DisplayName(), "ellipse", None, None)]
        + ChildDecls(a.compositeAttrs.value, parent, id)
        + [EdgeDecl(parent, id, "none")]
    else if a.kind == MULTIVALUED then
      [NodeDecl(id, a.DisplayName(), "ellipse", Some("2"), None), EdgeDecl(parent, id, "none")]
    else if a.kind == DERIVED then
      [NodeDecl(id, a.DisplayName(), "ellipse", None, Some("dashed")), EdgeDecl(parent, id, "none")]
    else
      [NodeDecl(id, a.DisplayName(), "ellipse", None, None), EdgeDecl(parent, id, "none")]
  }

  /**
   Every non-COMPOSITE kind, an unrecognised one too, gives one ellipse labelled
   with the display name and one undirected edge from the parent to it;
   MULTIVALUED adds a second periphery and DERIVED a dashed outline.
   */
  lemma SimpleAttrDecls(a: Attribute, parent: string)
    requires a.kind != COMPOSITE
    ensures var r := AttrDecls(a, parent);
      && |r| == 2
      && r[0] == NodeDecl(parent + a.name, a.DisplayName(), "ellipse",
                          if a.kind == MULTIVALUED then Some("2") else None,
                          if a.kind == DERIVED then Some("dashed") else None)
      && r[1] == EdgeDecl(parent, parent + a.name, "none")
  {
  }

  /**
   A COMPOSITE attribute with N sub-attributes gives N + 1 nodes and N + 1
   edges: its own node, a node and an edge per sub-attribute, and the edge
   from the parent.
   */
  lemma CompositeAttrDeclsCounts(a: Attribute, parent: string)
    requires a.kind == COMPOSITE && a.compositeAttrs.Some?
    ensures NodeCount(AttrDecls(a, parent)) == |a.compositeAttrs.value| + 1
    ensures EdgeCount(AttrDecls(a, parent)) == |a.compositeAttrs.value| + 1
  {
    var cs, id := a.compositeAttrs.value, AttrId(parent, a);
    var node := NodeDecl(id, a.DisplayName(), "ellipse", None, None);
    var children := ChildDecls(cs, parent, id);
    var edge := EdgeDecl(parent, id, "none");
    assert AttrDecls(a, parent) == [node] + children + [edge];
    ChildDeclsCounts(cs, parent, id);
    CountsSingle(node);
    CountsSingle(edge);
    CountsAppend([node], children);
    CountsAppend([node] + children, [edge]);
  }

  /**
   The order of a COMPOSITE attribute's declarations: its own ellipse first,
   then for each sub-attribute its ellipse (with an id formed under the
   parent, not under the composite, and its own kind ignored) and the edge
   from the composite to it, and last the edge from the parent to the composite.
   */
  lemma CompositeAttrDeclsOrder(a: Attribute, parent: string)
    requires a.kind == COMPOSITE && a.compositeAttrs.Some?
    ensures var r, cs, id := AttrDecls(a, parent), a.compositeAttrs.value, AttrId(parent, a);
      && |r| == 2 * |cs| + 2
      && r[0] == NodeDecl(id, a.DisplayName(), "ellipse", None, None)
      && (forall j :: 0 <= j < |cs| ==>
            && r[2 * j + 1] == NodeDecl(parent + cs[j].name, cs[j].DisplayName(), "ellipse", None, None)
            && r[2 * j + 2] == EdgeDecl(id, parent + cs[j].name, "none"))
      && r[|r| - 1] == EdgeDecl(parent, id, "none")
  {
    var cs, id := a.compositeAttrs.value, AttrId(parent, a);
    var node := NodeDecl(id, a.DisplayName(), "ellipse", None, None);
    var children := ChildDecls(cs, parent, id);
    var edge := EdgeDecl(parent, id, "none");
    var r := AttrDecls(a, parent);
    assert r == [node] + children + [edge];
    ChildDeclsAt(cs, parent, id);
    assert r[0] == node && r[|r| - 1] == edge;
    forall j | 0 <= j < |cs|
      ensures r[2 * j + 1] == NodeDecl(parent + cs[j].name, cs[j].DisplayName(), "ellipse", None, None)
      ensures r[2 * j + 2] == EdgeDecl(id, parent + cs[j].name, "none")
    {
      assert r[2 * j + 1] == children[2 * j];
      assert r[2 * j + 2] == children[2 * j + 1];
    }
  }

  /** Every node an attribute produces is an ellipse and every edge has no arrowhead. */
  lemma AttrDeclsUndirectedEllipses(a: Attribute, parent: string)
    requires Drawable(a)
    ensures forall d :: d in AttrDecls(a, parent) ==>
      (d.NodeDecl? ==> d.shape == "ellipse") && (d.EdgeDecl? ==> d.arrowhead == "none")
  {
    if a.kind == COMPOSITE {
      var cs, id := a.compositeAttrs.value, AttrId(parent, a);
      ChildDeclsAt(cs, parent, id);
      var children := ChildDecls(cs, parent, id);
      forall d | d in children
        ensures (d.NodeDecl? ==> d.shape == "ellipse") && (d.EdgeDecl? ==> d.arrowhead == "none")
      {
        var k :| 0 <= k < |children| && children[k] == d;
        var j := k / 2;
        assert 0 <= j < |cs|;
        if k == 2 * j {
          assert d == NodeDecl(AttrId(parent, cs[j]), cs[j].DisplayName(), "ellipse", None, None);
        } else {
          assert k == 2 * j + 1;
          assert d == EdgeDecl(id, AttrId(parent, cs[j]), "none");
        }
      }
    }
  }

  /** What the attribute loops append: each attribute's declarations in list order. */
  function AttrsDecls(attrs: seq<Attribute>, parent: string): (r: seq<Decl>)
    requires AllDrawable(attrs)
  {
    if attrs == [] then []
    else AttrsDecls(attrs[..|attrs| - 1], parent) + AttrDecls(attrs[|attrs| - 1], parent)
  }

  /** Drawing one more attribute extends the declarations of the ones before it. */
  lemma AttrsDeclsStep(before: seq<Decl>, attrs: seq<Attribute>, k: nat, parent: string, after: seq<Decl>)
    requires AllDrawable(attrs) && k < |attrs|
    requires after == (before + AttrsDecls(attrs[..k], parent)) + AttrDecls(attrs[k], parent)
    ensures Drawable(attrs[k])
    ensures after == before + AttrsDecls(attrs[..k + 1], parent)
  {
    assert attrs[k] in attrs;
    assert attrs[..k + 1][..k] == attrs[..k];
    AppendAssoc(before, AttrsDecls(attrs[..k], parent), AttrDecls(attrs[k], parent));
  }

  /** A list of attributes gives at least one node and one edge per attribute. */
  lemma {:induction false} AttrsDeclsCounts(attrs: seq<Attribute>, parent: string)
    requires AllDrawable(attrs)
    ensures NodeCount(AttrsDecls(attrs, parent)) >= |attrs|
    ensures EdgeCount(AttrsDecls(attrs, parent)) >= |attrs|
    decreases |attrs|
  {
    if attrs != [] {
      var a := attrs[|attrs| - 1];
      AttrsDeclsCounts(attrs[..|attrs| - 1], parent);
      AttrDeclsCounts(a, parent);
      CountsAppend(AttrsDecls(attrs[..|attrs| - 1], parent), AttrDecls(a, parent));
    }
  }

  /** Every attribute gives at least one node and one edge. */
  lemma AttrDeclsCounts(a: Attribute, parent: string)
    requires Drawable(a)
    ensures NodeCount(AttrDecls(a, parent)) >= 1 && EdgeCount(AttrDecls(a, parent)) >= 1
  {
    if a.kind == COMPOSITE {
      CompositeAttrDeclsCounts(a, parent);
    } else {
      SimpleAttrDecls(a, parent);
      var r := AttrDecls(a, parent);
      assert r[..1] == [r[0]] && r[..0] == [];
    }
  }

  /** The node of a relationship: a triangle for "ISA", a diamond otherwise; two peripheries when weak. */
  function RelationshipNode(r: Relationship): (d: Decl)
    ensures d.NodeDecl? && d.id == r.name && d.text == r.name && d.style == None
    ensures d.shape == "triangle" <==> r.kind == ISA
    ensures d.shape == "diamond" <==> r.kind != ISA
    ensures d.peripheries == Some("2") <==> r.weak
    ensures d.peripheries == None <==> !r.weak
  {
    if r.kind == ISA then
      if r.weak then NodeDecl(r.name, r.name, "triangle", Some("2"), None)
      else NodeDecl(r.name, r.name, "triangle", None, None)
    else
      if r.weak then NodeDecl(r.name, r.name, "diamond", Some("2"), None)
      else NodeDecl(r.name, r.name, "diamond", None, None)
  }

  /** The node of an entity: a box; two peripheries when weak. */
  function EntityNode(e: Entity): (d: Decl)
    ensures d.NodeDecl? && d.id == e.name && d.text == e.name && d.shape == "box" && d.style == None
    ensures d.peripheries == Some("2") <==> e.weak
    ensures d.peripheries == None <==> !e.weak
  {
    if e.weak then NodeDecl(e.name, e.name, "box", Some("2"), None)
    else NodeDecl(e.name, e.name, "box", None, None)
  }

  /** Edge i goes from the relationship to its i-th entity with the i-th arrowhead; extra arrows are unused. */
  function EntityEdges(r: Relationship): (es: seq<Decl>)
    requires |r.entities| <= |r.arrows|
  {
    seq(|r.entities|, i requires 0 <= i < |r.entities| => EdgeDecl(r.name, r.entities[i].name, r.arrows[i]))
  }

  /** A relationship with k entities contributes exactly k edges, one per entity in index order. */
  lemma EntityEdgesShape(r: Relationship)
    requires |r.entities| <= |r.arrows|
    ensures |EntityEdges(r)| == |r.entities|
    ensures EdgeCount(EntityEdges(r)) == |r.entities| && NodeCount(EntityEdges(r)) == 0
    ensures forall i :: 0 <= i < |r.entities| ==>
      EntityEdges(r)[i] == EdgeDecl(r.name, r.entities[i].name, r.arrows[i])
    ensures EntityEdges(r) == EntityEdges(r.(arrows := r.arrows[..|r.entities|]))
  {
    OnlyEdgesCount(EntityEdges(r));
  }

  /**
   Edge i carries the caller's `arrows[i]` as it is: its arrowhead names a
   cardinality exactly when it is one of the three constants. When the arrows
   were written from cardinalities, each edge's arrowhead reads back as the
   cardinality given for that entity.
   */
  lemma EntityEdgesCardinalities(r: Relationship, cs: seq<Cardinality>)
    requires |r.entities| <= |r.arrows|
    ensures forall i :: 0 <= i < |r.entities| ==>
      (CardinalityOf(EntityEdges(r)[i].arrowhead).Some? <==> r.arrows[i] in {MANY_TO_MANY, ONE_TO_MANY, ONE_TO_ONE})
    ensures |cs| == |r.arrows| && (forall i :: 0 <= i < |cs| ==> r.arrows[i] == Arrowhead(cs[i])) ==>
      forall i :: 0 <= i < |r.entities| ==> CardinalityOf(EntityEdges(r)[i].arrowhead) == Some(cs[i])
  {
    if |cs| == |r.arrows| && (forall i :: 0 <= i < |cs| ==> r.arrows[i] == Arrowhead(cs[i])) {
      forall i | 0 <= i < |r.entities|
        ensures CardinalityOf(EntityEdges(r)[i].arrowhead) == Some(cs[i])
      {
        CardinalityRoundTrip(cs[i]);
      }
    }
  }

  /** Drawing the edge to one more entity extends the edges before it. */
  lemma EntityEdgesStep(before: seq<Decl>, r: Relationship, i: nat, after: seq<Decl>)
    requires i < |r.entities| <= |r.arrows|
    requires after == (before + EntityEdges(r)[..i]) + [EdgeDecl(r.name, r.entities[i].name, r.arrows[i])]
    ensures after == before + EntityEdges(r)[..i + 1]
  {
    var es := EntityEdges(r);
    assert es[..i + 1] == es[..i] + [es[i]];
    AppendAssoc(before, es[..i], [es[i]]);
  }

  /** One relationship: its node, then its attributes (none when the list is absent), then its entity edges. */
  function RelationshipDecls(r: Relationship): (ds: seq<Decl>)
    requires RelationshipDrawable(r)
  {
    [RelationshipNode(r)]
      + (if r.attributes.Some? then AttrsDecls(r.attributes.value, r.name) else [])
      + EntityEdges(r)
  }

  /** One entity: its box, then its attributes. */
  function EntityDecls(e: Entity): (ds: seq<Decl>)
    requires EntityDrawable(e)
  {
    [EntityNode(e)] + AttrsDecls(e.attributes, e.name)
  }

  function RelationshipsDecls(rs: seq<Relationship>): (ds: seq<Decl>)
    requires forall r :: r in rs ==> RelationshipDrawable(r)
  {
    if rs == [] then []
    else RelationshipsDecls(rs[..|rs| - 1]) + RelationshipDecls(rs[|rs| - 1])
  }

  function EntitiesDecls(es: seq<Entity>): (ds: seq<Decl>)
    requires forall e :: e in es ==> EntityDrawable(e)
  {
    if es == [] then []
    else EntitiesDecls(es[..|es| - 1]) + EntityDecls(es[|es| - 1])
  }

  /** Drawing one more relationship extends the declarations of the ones before it. */
  lemma RelationshipsDeclsStep(rs: seq<Relationship>, i: nat, after: seq<Decl>)
    requires forall r :: r in rs ==> RelationshipDrawable(r)
    requires i < |rs|
    requires RelationshipDrawable(rs[i])
    requires after == RelationshipsDecls(rs[..i]) + RelationshipDecls(rs[i])
    ensures after == RelationshipsDecls(rs[..i + 1])
  {
    assert rs[..i + 1][..i] == rs[..i];
  }

  /** Drawing one more entity extends the declarations of the ones before it. */
  lemma EntitiesDeclsStep(before: seq<Decl>, es: seq<Entity>, i: nat, after: seq<Decl>)
    requires forall e :: e in es ==> EntityDrawable(e)
    requires i < |es|
    requires EntityDrawable(es[i])
    requires after == (before + EntitiesDecls(es[..i])) + EntityDecls(es[i])
    ensures after == before + EntitiesDecls(es[..i + 1])
  {
    assert es[..i + 1][..i] == es[..i];
    AppendAssoc(before, EntitiesDecls(es[..i]), EntityDecls(es[i]));
  }

  /**
   One relationship's block: its node first, then its attributes' declarations
   (none when the list is absent), then exactly one edge per entity. The node
   is the block's only declaration outside the attribute part that is a node.
   */
  lemma RelationshipDeclsLayout(r: Relationship)
    requires RelationshipDrawable(r)
    ensures var ds, k := RelationshipDecls(r), |r.entities|;
      && |ds| >= 1 + k
      && ds[0] == RelationshipNode(r)
      && ds[1..|ds| - k] == (if r.attributes.Some? then AttrsDecls(r.attributes.value, r.name) else [])
      && ds[|ds| - k..] == EntityEdges(r)
      && NodeCount(ds) == 1 + NodeCount(ds[1..|ds| - k])
      && EdgeCount(ds) == EdgeCount(ds[1..|ds| - k]) + k
  {
    var node := [RelationshipNode(r)];
    var attrs := if r.attributes.Some? then AttrsDecls(r.attributes.value, r.name) else [];
    var edges := EntityEdges(r);
    var ds := RelationshipDecls(r);
    assert ds == node + attrs + edges;
    assert ds[1..|ds| - |r.entities|] == attrs;
    EntityEdgesShape(r);
    CountsAppend(node, attrs);
    CountsAppend(node + attrs, edges);
    CountsAppend([], node);
    assert node[..0] == [];
  }

  /**
   One entity's block: its box first, then its attributes' declarations; so
   it holds at least one more node than the entity has attributes.
   */
  lemma EntityDeclsLayout(e: Entity)
    requires EntityDrawable(e)
    ensures var ds := EntityDecls(e);
      && ds[0] == EntityNode(e)
      && ds[1..] == AttrsDecls(e.attributes, e.name)
      && NodeCount(ds) == 1 + NodeCount(ds[1..]) >= 1 + |e.attributes|
      && EdgeCount(ds) == EdgeCount(ds[1..]) >= |e.attributes|
  {
    var node := [EntityNode(e)];
    var attrs := AttrsDecls(e.attributes, e.name);
    assert EntityDecls(e)[1..] == attrs;
    AttrsDeclsCounts(e.attributes, e.name);
    CountsAppend(node, attrs);
    CountsAppend([], node);
    assert node[..0] == [];
  }

  /** The declarations of the first i + 1 relationships begin the declarations of all of them. */
  lemma {:induction false} RelationshipsDeclsPrefix(rs: seq<Relationship>, i: nat)
    requires forall r :: r in rs ==> RelationshipDrawable(r)
    requires i < |rs|
    ensures rs[i] in rs && RelationshipsDecls(rs[..i]) + RelationshipDecls(rs[i]) <= RelationshipsDecls(rs)
    decreases |rs|
  {
    var n := |rs| - 1;
    var init, last := rs[..n], rs[n];
    assert last in rs && rs[i] in rs;
    var whole := RelationshipsDecls(rs);
    assert whole == RelationshipsDecls(init) + RelationshipDecls(last);
    if i < n {
      assert init[i] == rs[i] && init[..i] == rs[..i];
      RelationshipsDeclsPrefix(init, i);
      PrefixExtend(RelationshipsDecls(rs[..i]) + RelationshipDecls(rs[i]), RelationshipsDecls(init), RelationshipDecls(last));
    } else {
      assert rs[..i] == init;
    }
  }

  /** The declarations of the first j + 1 entities begin the declarations of all of them. */
  lemma {:induction false} EntitiesDeclsPrefix(es: seq<Entity>, j: nat)
    requires forall e :: e in es ==> EntityDrawable(e)
    requires j < |es|
    ensures es[j] in es && EntitiesDecls(es[..j]) + EntityDecls(es[j]) <= EntitiesDecls(es)
    decreases |es|
  {
    var n := |es| - 1;
    var init, last := es[..n], es[n];
    assert last in es && es[j] in es;
    var whole := EntitiesDecls(es);
    assert whole == EntitiesDecls(init) + EntityDecls(last);
    if j < n {
      assert init[j] == es[j] && init[..j] == es[..j];
      EntitiesDeclsPrefix(init, j);
      PrefixExtend(EntitiesDecls(es[..j]) + EntityDecls(es[j]), EntitiesDecls(init), EntityDecls(last));
    } else {
      assert es[..j] == init;
    }
  }

  /**
   The description begins with the first i relationships' blocks and then
   relationship i's block, all before the first entity's declarations.
   */
  lemma RelationshipBlock(rs: seq<Relationship>, es: seq<Entity>, i: nat)
    requires forall r :: r in rs ==> RelationshipDrawable(r)
    requires forall e :: e in es ==> EntityDrawable(e)
    requires i < |rs|
    ensures rs[i] in rs
    ensures |RelationshipsDecls(rs[..i]) + RelationshipDecls(rs[i])| <= |RelationshipsDecls(rs)|
    ensures RelationshipsDecls(rs[..i]) + RelationshipDecls(rs[i]) <= DiagramDecls(rs, es)
  {
    RelationshipsDeclsPrefix(rs, i);
    PrefixExtend(RelationshipsDecls(rs[..i]) + RelationshipDecls(rs[i]), RelationshipsDecls(rs), EntitiesDecls(es));
  }

  /**
   The description begins with every relationship's block, then the first j
   entities' blocks, then entity j's block.
   */
  lemma EntityBlock(rs: seq<Relationship>, es: seq<Entity>, j: nat)
    requires forall r :: r in rs ==> RelationshipDrawable(r)
    requires forall e :: e in es ==> EntityDrawable(e)
    requires j < |es|
    ensures es[j] in es
    ensures RelationshipsDecls(rs) + (EntitiesDecls(es[..j]) + EntityDecls(es[j])) <= DiagramDecls(rs, es)
  {
    EntitiesDeclsPrefix(es, j);
    PrefixOfBack(RelationshipsDecls(rs), EntitiesDecls(es[..j]) + EntityDecls(es[j]), EntitiesDecls(es));
  }

  /** The whole description: every relationship's declarations, then every entity's. */
  function DiagramDecls(rs: seq<Relationship>, es: seq<Entity>): (ds: seq<Decl>)
    requires forall r :: r in rs ==> RelationshipDrawable(r)
    requires forall e :: e in es ==> EntityDrawable(e)
  {
    RelationshipsDecls(rs) + EntitiesDecls(es)
  }
}
