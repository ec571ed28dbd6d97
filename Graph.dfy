/** Optional values: the source's `None` defaults and Graphviz's optional node attributes. */
module Wrappers {
  datatype Option<+T> = None | Some(value: T)
}

/**
 The part of a Graphviz directed graph that the diagram builder uses: an
 append-only log of node and edge declarations. Layout, DOT syntax and
 rendering belong to Graphviz and are not modelled.
 */
module Graph {
  import opened Wrappers

  /** One declaration: `dot.node(id, text, shape=…, peripheries=…, style=…)`, where
      `text` is the label, or `dot.edge(src, dst, arrowhead=…)`. Absent keyword
      arguments are `None`. */
  datatype Decl =
    | NodeDecl(id: string, text: string, shape: string, peripheries: Option<string>, style: Option<string>)
    | EdgeDecl(src: string, dst: string, arrowhead: string)

  /** Number of node declarations in a log. */
  function NodeCount(ds: seq<Decl>): (n: nat)
    ensures n <= |ds|
  {
    if ds == [] then 0
    else NodeCount(ds[..|ds| - 1]) + (if ds[|ds| - 1].NodeDecl? then 1 else 0)
  }

  /** Number of edge declarations in a log. */
  function EdgeCount(ds: seq<Decl>): (n: nat)
    ensures n <= |ds|
  {
    if ds == [] then 0
    else EdgeCount(ds[..|ds| - 1]) + (if ds[|ds| - 1].EdgeDecl? then 1 else 0)
  }

  /** Counting nodes and counting edges both distribute over concatenation. */
  lemma {:induction false} CountsAppend(a: seq<Decl>, b: seq<Decl>)
    ensures NodeCount(a + b) == NodeCount(a) + NodeCount(b)
    ensures EdgeCount(a + b) == EdgeCount(a) + EdgeCount(b)
    decreases |b|
  {
    if b == [] {
      assert a + b == a;
    } else {
      var b' := b[..|b| - 1];
      assert (a + b)[..|a + b| - 1] == a + b';
      CountsAppend(a, b');
    }
  }

  /** A single declaration counts once, as a node or as an edge. */
  lemma CountsSingle(d: Decl)
    ensures NodeCount([d]) == (if d.NodeDecl? then 1 else 0)
    ensures EdgeCount([d]) == (if d.EdgeDecl? then 1 else 0)
  {
    assert [d][..0] == [];
  }

  /** Every declaration is a node or an edge. */
  lemma {:induction false} CountsSplit(a: seq<Decl>)
    ensures NodeCount(a) + EdgeCount(a) == |a|
    decreases |a|
  {
    if a != [] {
      CountsSplit(a[..|a| - 1]);
    }
  }

  /** A log made only of edges holds as many edges as declarations, and no node. */
  lemma {:induction false} OnlyEdgesCount(es: seq<Decl>)
    requires forall d :: d in es ==> d.EdgeDecl?
    ensures EdgeCount(es) == |es| && NodeCount(es) == 0
    decreases |es|
  {
    if es != [] {
      OnlyEdgesCount(es[..|es| - 1]);
    }
  }

  /** Regrouping appended declarations; stated once so that the drawing proofs need not redo it. */
  lemma AppendAssoc(a: seq<Decl>, b: seq<Decl>, c: seq<Decl>)
    ensures (a + b) + c == a + (b + c)
  {
  }

  /** A prefix of a log stays a prefix when more is appended. */
  lemma PrefixExtend(a: seq<Decl>, b: seq<Decl>, c: seq<Decl>)
    requires a <= b
    ensures a <= b + c
  {
    assert (b + c)[..|a|] == b[..|a|];
  }

  /** A prefix of the second part, after the whole first part, is a prefix of the whole. */
  lemma PrefixOfBack(front: seq<Decl>, x: seq<Decl>, back: seq<Decl>)
    requires x <= back
    ensures front + x <= front + back
  {
    assert (front + back)[..|front| + |x|] == front + back[..|x|];
  }

  /** The graph object: a comment and the declarations added so far. */
  class Digraph {
    const comment: string
    var decls: seq<Decl>

    /** `gv.Digraph(comment=…)`: a graph with no declarations. */
    constructor (comment: string)
      ensures this.comment == comment
      ensures decls == []
    {
      this.comment := comment;
      decls := [];
    }

    /** `dot.node(…)`: appends one node declaration and keeps everything declared before. */
    method Node(id: string, text: string, shape: string, peripheries: Option<string>, style: Option<string>)
      modifies this
      ensures decls == old(decls) + [NodeDecl(id, text, shape, peripheries, style)]
    {
      decls := decls + [NodeDecl(id, text, shape, peripheries, style)];
    }

    /** `dot.edge(…)`: appends one edge declaration and keeps everything declared before. */
    method Edge(src: string, dst: string, arrowhead: string)
      modifies this
      ensures decls == old(decls) + [EdgeDecl(src, dst, arrowhead)]
    {
      decls := decls + [EdgeDecl(src, dst, arrowhead)];
    }
  }
}
