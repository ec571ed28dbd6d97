/**
 The diagram builder: an `ERDiagram` holds a sanitised title, its entities
 and its relationships, and drawing it fills a fresh graph with the
 declarations that `Description.DiagramDecls` specifies.
 */
module Diagram {
  import opened Wrappers
  import opened Graph
  import opened ErModel
  import opened Description

  /** Every relationship and entity of a diagram can be drawn without a fault. */
  predicate DiagramDrawable(relationships: seq<Relationship>, entities: seq<Entity>)
  {
    && (forall r :: r in relationships ==> RelationshipDrawable(r))
    && (forall e :: e in entities ==> EntityDrawable(e))
  }

  class ERDiagram {
    const title: string
    const entities: seq<Entity>
    const relationships: seq<Relationship>

    /** Keeps the lists and replaces every space of the title by an underscore. */
    constructor (title: string, entities: seq<Entity>, relationships: seq<Relationship>)
      ensures this.title == Sanitize(title)
      ensures this.entities == entities && this.relationships == relationships
    {
      this.title := Sanitize(title);
      this.entities := entities;
      this.relationships := relationships;
    }

    /**
     Appends the declarations of one attribute drawn under the node named
     `parentName`; what was declared before is left as it was.
     */
    method DrawAttr(dot: Digraph, attribute: Attribute, parentName: string)
      requires Drawable(attribute)
      modifies dot
      ensures dot.decls == old(dot.decls) + AttrDecls(attribute, parentName)
    {
      var id := parentName + attribute.name;
      if attribute.kind == COMPOSITE {
        dot.Node(id, attribute.DisplayName(), "ellipse", None, None);
        ghost var head := dot.decls;
        var children := attribute.compositeAttrs.value;
        for k := 0 to |children|
          invariant dot.decls == head + ChildDecls(children[..k], parentName, id)
        {
          var child := children[k];
          dot.Node(parentName + child.name, child.DisplayName(), "ellipse", None, None);
          dot.Edge(id, parentName + child.name, "none");
          ChildDeclsStep(head, children, k, parentName, id, dot.decls);
        }
        assert children[..|children|] == children;
        dot.Edge(parentName, id, "none");
        AppendAssoc(old(dot.decls), [NodeDecl(id, attribute.DisplayName(), "ellipse", None, None)],
                    ChildDecls(children, parentName, id));
        AppendAssoc(old(dot.decls), [NodeDecl(id, attribute.DisplayName(), "ellipse", None, None)]
                    + ChildDecls(children, parentName, id), [EdgeDecl(parentName, id, "none")]);
      } else if attribute.kind == MULTIVALUED {
        dot.Node(id, attribute.DisplayName(), "ellipse", Some("2"), None);
        dot.Edge(parentName, id, "none");
      } else if attribute.kind == DERIVED {
        dot.Node(id, attribute.DisplayName(), "ellipse", None, Some("dashed"));
        dot.Edge(parentName, id, "none");
      } else {
        dot.Node(id, attribute.DisplayName(), "ellipse", None, None);
        dot.Edge(parentName, id, "none");
      }
    }

    /**
     One pass of the relationship loop: the relationship's node (triangle for
     "ISA", diamond otherwise, doubled when weak), its attributes when it has
     a list of them, then one edge per entity with that entity's arrowhead.
     */
    method DrawRelationship(dot: Digraph, relationship: Relationship)
      requires RelationshipDrawable(relationship)
      modifies dot
      ensures dot.decls == old(dot.decls) + RelationshipDecls(relationship)
    {
      if relationship.kind == ISA {
        if relationship.weak {
          dot.Node(relationship.name, relationship.name, "triangle", Some("2"), None);
        } else {
          dot.Node(relationship.name, relationship.name, "triangle", None, None);
        }
      } else {
        if relationship.weak {
          dot.Node(relationship.name, relationship.name, "diamond", Some("2"), None);
        } else {
          dot.Node(relationship.name, relationship.name, "diamond", None, None);
        }
      }
      ghost var node := [RelationshipNode(relationship)];
      assert dot.decls == old(dot.decls) + node;

      ghost var attrs: seq<Decl> := [];
      if relationship.attributes.Some? {
        var attributes := relationship.attributes.value;
        ghost var withNode := dot.decls;
        for k := 0 to |attributes|
          invariant dot.decls == withNode + AttrsDecls(attributes[..k], relationship.name)
        {
          assert attributes[k] in attributes;
          DrawAttr(dot, attributes[k], relationship.name);
          AttrsDeclsStep(withNode, attributes, k, relationship.name, dot.decls);
        }
        assert attributes[..|attributes|] == attributes;
        attrs := AttrsDecls(attributes, relationship.name);
      }
      ghost var withAttrs := dot.decls;
      assert withAttrs == (old(dot.decls) + node) + attrs;

      ghost var edges := EntityEdges(relationship);
      for i := 0 to |relationship.entities|
        invariant dot.decls == withAttrs + edges[..i]
      {
        dot.Edge(relationship.name, relationship.entities[i].name, relationship.arrows[i]);
        EntityEdgesStep(withAttrs, relationship, i, dot.decls);
      }
      assert edges[..|relationship.entities|] == edges;
      AppendAssoc(old(dot.decls), node, attrs);
      AppendAssoc(old(dot.decls), node + attrs, edges);
    }

    /** One pass of the entity loop: the entity's box (doubled when weak), then its attributes. */
    method DrawEntity(dot: Digraph, entity: Entity)
      requires EntityDrawable(entity)
      modifies dot
      ensures dot.decls == old(dot.decls) + EntityDecls(entity)
    {
      if entity.weak {
        dot.Node(entity.name, entity.name, "box", Some("2"), None);
      } else {
        dot.Node(entity.name, entity.name, "box", None, None);
      }
      ghost var withNode := dot.decls;
      assert withNode == old(dot.decls) + [EntityNode(entity)];
      for k := 0 to |entity.attributes|
        invariant dot.decls == withNode + AttrsDecls(entity.attributes[..k], entity.name)
      {
        assert entity.attributes[k] in entity.attributes;
        DrawAttr(dot, entity.attributes[k], entity.name);
        AttrsDeclsStep(withNode, entity.attributes, k, entity.name, dot.decls);
      }
      assert entity.attributes[..|entity.attributes|] == entity.attributes;
      AppendAssoc(old(dot.decls), [EntityNode(entity)], AttrsDecls(entity.attributes, entity.name));
    }

    /**
     Builds the graph description: every relationship, then every entity.
     The graph is then handed to Graphviz for rendering, which is not modelled.
     */
    method Draw() returns (dot: Digraph)
      requires DiagramDrawable(relationships, entities)
      ensures fresh(dot)
      ensures dot.comment == title
      ensures dot.decls == DiagramDecls(relationships, entities)
    {
      dot := new Digraph(title);

      for i := 0 to |relationships|
        invariant fresh(dot) && dot.comment == title
        invariant dot.decls == RelationshipsDecls(relationships[..i])
      {
        assert relationships[i] in relationships;
        DrawRelationship(dot, relationships[i]);
        RelationshipsDeclsStep(relationships, i, dot.decls);
      }
      assert relationships[..|relationships|] == relationships;

      ghost var before := dot.decls;
      for i := 0 to |entities|
        invariant fresh(dot) && dot.comment == title
        invariant dot.decls == before + EntitiesDecls(entities[..i])
      {
        assert entities[i] in entities;
        DrawEntity(dot, entities[i]);
        EntitiesDeclsStep(before, entities, i, dot.decls);
      }
      assert entities[..|entities|] == entities;
    }

    /**
     Drawing depends on nothing but the diagram: two draws of the same
     diagram declare the same things in the same order.
     */
    method DrawTwice() returns (first: seq<Decl>, second: seq<Decl>)
      requires DiagramDrawable(relationships, entities)
      ensures first == second
    {
      var dot := Draw();
      first := dot.decls;
      dot := Draw();
      second := dot.decls;
    }
  }
}
