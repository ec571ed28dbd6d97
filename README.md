# ERDiagramGen in Dafny

A model of the translation at the heart of ERDiagramGen (`PyErGraphing`): an
entity-relationship object model (attributes, entities, relationships, a
diagram) is turned into a Graphviz graph description, which Graphviz then lays
out and renders to a PNG.

The Graphviz `Digraph` object is modelled as what the builder sees of it: an
append-only log of declarations (`Graph.Digraph`, field `decls`).

- `Node` appends a node declaration: id, label (`text`), shape, and optional
  peripheries and style.
- `Edge` appends an edge declaration: source, target and arrowhead.

The files:

- `Graph.dfy`:
  - the declaration log and its node and edge counts;
  - the `Digraph` class;
  - small facts about appending to a log.
- `Model.dfy`:
  - the attribute, entity and relationship values, with the source's defaults;
  - the primary-key underline of an attribute's label (U+0332 COMBINING LOW
    LINE after every character);
  - title sanitisation;
  - the kind and arrowhead constants.
- `Description.dfy`: what each builder step appends, written as functions of
  the object model (`AttrDecls`, `RelationshipDecls`, `EntityDecls`,
  `DiagramDecls`), together with lemmas about them:
  - the shapes and peripheries;
  - the node and edge counts;
  - how ids are formed;
  - the order of the blocks.
- `Diagram.dfy`:
  - the `ERDiagram` class;
  - its `draw_attr` (`DrawAttr`) and the loops of `draw` (`DrawRelationship`,
    `DrawEntity`, `Draw`), written as methods that append to the log. Each is
    proved to append exactly what the corresponding function describes.
- `Scenario.dfy`: a worked diagram (Student, Course, Enrolls) and its complete
  description, declaration by declaration.

Details of the code that the model keeps exactly:

- The title's `replace(" ", "_")` (PyErGraphing.py:112) replaces only the
  space character; tabs and other whitespace are kept.
- A composite's sub-attributes get ids built from the owning entity's or
  relationship's name, `parent.name + child.name`, not from the composite's
  id (PyErGraphing.py:122-125).
- The edge that joins a composite to its owner runs from the owner to the
  composite (PyErGraphing.py:126-127).
- `arrows[i]` is read only for `i < len(entities)` (PyErGraphing.py:173-175).
  Extra arrows are never used, and fewer arrows than entities raises an
  `IndexError`.
- The `Relationship` docstring lists the three arrow constants as the options
  for `arrows` (PyErGraphing.py:81). The code, however, passes any string
  through as the arrowhead. The model keeps the strings too, and
  `Description.EntityEdgesCardinalities` says when an arrowhead reads back as
  a cardinality.

## Model

| member | source | states |
|---|---|---|
| `ErModel.Underline` | src/PyErGraphing/PyErGraphing.py:50-51 | the underlined label is exactly twice as long as the name |
| `ErModel.UnderlineAt` | src/PyErGraphing/PyErGraphing.py:51 | every even position of the underlined label holds the name's character at half that index, and every odd position holds U+0332 |
| `ErModel.UnderlineRoundTrip` | src/PyErGraphing/PyErGraphing.py:51 | taking every second character of the underlined label gives back the name |
| `ErModel.UnderlineInjective` | src/PyErGraphing/PyErGraphing.py:51 | two names with the same underlined label are the same name |
| `ErModel.Attribute.DisplayName` | src/PyErGraphing/PyErGraphing.py:44-51 | for a primary key, the label is twice the name's length and taking every second character gives the name back; otherwise the label is the name itself |
| `ErModel.Sanitize` | src/PyErGraphing/PyErGraphing.py:112 | the sanitised title has the same length and no space; every space becomes `_` and every other character, other whitespace included, is kept in place |
| `ErModel.SanitizeIdempotent` | src/PyErGraphing/PyErGraphing.py:112 | a title without spaces is unchanged, so sanitising twice equals sanitising once |
| `ErModel.CardinalityOf` | src/PyErGraphing/PyErGraphing.py:13-18 | an arrowhead names a cardinality exactly when it is `none`, `normal` or `vee`, and the cardinality maps back to that arrowhead |
| `ErModel.CardinalityRoundTrip` | src/PyErGraphing/PyErGraphing.py:13-18 | reading a cardinality's arrowhead back gives the same cardinality |
| `Graph.Digraph.constructor` | src/PyErGraphing/PyErGraphing.py:151 | a new graph carries the given comment and has no declarations |
| `Graph.Digraph.Node` | src/PyErGraphing/PyErGraphing.py:119-120 | a node declaration is appended after everything declared before, which is unchanged |
| `Graph.Digraph.Edge` | src/PyErGraphing/PyErGraphing.py:124-125 | an edge declaration is appended after everything declared before, which is unchanged |
| `Description.ChildDeclsAt` | src/PyErGraphing/PyErGraphing.py:121-125 | sub-attribute j contributes, at positions 2j and 2j+1, a plain ellipse with id `parent + child.name` and the child's label, then an undirected edge from the composite to it |
| `Description.ChildDeclsCounts` | src/PyErGraphing/PyErGraphing.py:121-125 | N sub-attributes give exactly N nodes and N edges, whatever their own kinds |
| `Description.SimpleAttrDecls` | src/PyErGraphing/PyErGraphing.py:128-145 | a non-composite attribute of any kind, unknown kinds included, gives exactly one ellipse (id `parent + name`, its label, two peripheries iff MULTIVALUED, dashed iff DERIVED) and then one undirected edge from the parent |
| `Description.CompositeAttrDeclsCounts` | src/PyErGraphing/PyErGraphing.py:118-127 | a composite with N sub-attributes gives exactly N + 1 nodes and N + 1 edges |
| `Description.CompositeAttrDeclsOrder` | src/PyErGraphing/PyErGraphing.py:118-127 | a composite's own ellipse comes first, then each sub-attribute's ellipse (id formed under the parent, own kind ignored) and the edge to it, and last the edge from the parent to the composite |
| `Description.AttrDeclsUndirectedEllipses` | src/PyErGraphing/PyErGraphing.py:116-145 | every node an attribute produces is an ellipse and every edge has arrowhead `none` |
| `Description.AttrDeclsCounts` | src/PyErGraphing/PyErGraphing.py:116-145 | every drawable attribute gives at least one node and one edge |
| `Description.AttrsDeclsCounts` | src/PyErGraphing/PyErGraphing.py:183-184 | a list of attributes gives at least as many nodes, and as many edges, as it has attributes |
| `Description.RelationshipNode` | src/PyErGraphing/PyErGraphing.py:154-167 | a relationship's node is labelled with its name, is a triangle iff its type is `ISA` and a diamond otherwise, and has two peripheries iff weak |
| `Description.EntityNode` | src/PyErGraphing/PyErGraphing.py:178-182 | an entity's node is a box labelled with its name, with two peripheries iff weak |
| `Description.EntityEdgesShape` | src/PyErGraphing/PyErGraphing.py:173-175 | k entities give exactly k edges and no node; edge i runs from the relationship to entity i with arrowhead `arrows[i]`; arrows beyond the k-th change nothing |
| `Description.EntityEdgesCardinalities` | src/PyErGraphing/PyErGraphing.py:173-175 | edge i's arrowhead decodes to a cardinality exactly when `arrows[i]` is one of the three constants; when the arrows were written from cardinalities, each edge decodes to the cardinality given for its entity |
| `Description.RelationshipDeclsLayout` | src/PyErGraphing/PyErGraphing.py:153-175 | a relationship's block is its node, then its attributes' declarations (none when the list is absent), then one edge per entity; it holds one node more than its attribute part and k edges more |
| `Description.EntityDeclsLayout` | src/PyErGraphing/PyErGraphing.py:177-184 | an entity's block is its box followed by its attributes' declarations, with at least one more node than it has attributes |
| `Description.RelationshipsDeclsPrefix` | src/PyErGraphing/PyErGraphing.py:153-175 | the declarations of the first i relationships, followed by relationship i's block, begin the declarations of all relationships |
| `Description.EntitiesDeclsPrefix` | src/PyErGraphing/PyErGraphing.py:177-184 | the declarations of the first j entities, followed by entity j's block, begin the declarations of all entities |
| `Description.RelationshipBlock` | src/PyErGraphing/PyErGraphing.py:151-175 | the whole description begins with relationships 0..i in list order, and that part is no longer than the relationship part, which precedes every entity declaration |
| `Description.EntityBlock` | src/PyErGraphing/PyErGraphing.py:151-184 | the whole description begins with every relationship's declarations, then entities 0..j in list order |
| `Diagram.ERDiagram.constructor` | src/PyErGraphing/PyErGraphing.py:111-114 | the diagram keeps its entities and relationships and stores the sanitised title |
| `Diagram.ERDiagram.DrawAttr` | src/PyErGraphing/PyErGraphing.py:116-145 | only appends: the earlier declarations are unchanged and followed by exactly the attribute's declarations |
| `Diagram.ERDiagram.DrawRelationship` | src/PyErGraphing/PyErGraphing.py:153-175 | one pass of the relationship loop appends exactly the relationship's block |
| `Diagram.ERDiagram.DrawEntity` | src/PyErGraphing/PyErGraphing.py:177-184 | one pass of the entity loop appends exactly the entity's block |
| `Diagram.ERDiagram.Draw` | src/PyErGraphing/PyErGraphing.py:151-184 | the graph is new, carries the title as its comment, and holds exactly the relationships' blocks in order followed by the entities' blocks in order |
| `Diagram.ERDiagram.DrawTwice` | src/PyErGraphing/PyErGraphing.py:151-184 | drawing the same diagram twice gives identical declaration sequences |
| `Scenario.StudentDecls` | src/PyErGraphing/PyErGraphing.py:177-184 | an entity with an underlined key and a plain attribute gives its box, then each attribute's ellipse and edge, in order |
| `Scenario.CourseDecls` | src/PyErGraphing/PyErGraphing.py:177-184 | an entity with one attribute gives its box, that attribute's ellipse and its edge |
| `Scenario.EnrollsDecls` | src/PyErGraphing/PyErGraphing.py:153-175 | a plain relationship without attributes gives its diamond, then one edge per entity with that entity's arrowhead |
| `Scenario.EnrollsDescription` | src/PyErGraphing/PyErGraphing.py:151-184 | the complete eleven-declaration description of the Student/Course/Enrolls diagram |

## Left out

- `dot.render(...)` and `display(Image(...))` (PyErGraphing.py:186-187) are left out. They call Graphviz's layout and rasterisation, write a PNG file and show it in a notebook. `Draw` instead returns the graph it built, where the source returns nothing after rendering.
- The DOT text Graphviz writes, its quoting, and what Graphviz does with duplicate node ids (merging) are left out. Such ids arise, for example, when two composites under one parent share a sub-attribute name. The model records every declaration as it is made.
- `Element` and the `__str__` methods are left out: the base class is empty, and the `__str__` methods only return the name.
- A composite attribute whose `composite_attrs` is `None` makes the source raise a `TypeError` while iterating. A relationship with fewer arrows than entities makes it raise an `IndexError`. Both are modelled as preconditions (`Description.Drawable`, `Description.RelationshipDrawable`), since the source has no handling for them.
- `draw_attr` receives the parent object but reads only its name, so `DrawAttr` takes the name.
- The source's lists are typed loosely (`composite_attrs: list[Element]`). The model types sub-attributes as attributes, the only kind `draw_attr` can draw. An entity's `attributes` is a list in the model and cannot be `None`.
- `display_name` is stored at construction in the source and derived from `name` and `pk` in the model. The two agree because nothing in the core changes an attribute after construction.
