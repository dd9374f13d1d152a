/** The depth-first search itself, proved against the reference of `Fragments`. */
module FragmentExpand {
  import opened Bytes
  import opened Seqs
  import opened Fragments

  datatype FragmentNode = FragmentNode(gq: GraphQuery, entered: bool, exited: bool)
  datatype Expansion = Ok(children: seq<GraphQuery>) | Failed(flaw: Flaw)

  /** What the innermost open fragment (or the query itself) may refer to. */
  ghost function Scope(frags: Bodies, from: set<string>, stack: seq<string>): set<string> {
    if stack == [] then from
    else if stack[|stack| - 1] in frags then Refs(frags[stack[|stack| - 1]])
    else {}
  }

  ghost predicate StackOk(frags: Bodies, from: set<string>, stack: seq<string>) {
    stack == [] || (Path(frags, from, stack) && stack[|stack| - 1] in frags)
  }

  lemma StackExtends(frags: Bodies, from: set<string>, stack: seq<string>, f: string)
    requires StackOk(frags, from, stack) && f in Scope(frags, from, stack)
    ensures Path(frags, from, stack + [f])
    ensures f in frags ==> StackOk(frags, from, stack + [f])
    ensures f !in frags ==> Shown(frags, from, Missing(f))
    ensures f in stack ==> Shown(frags, from, Cycle(f))
  {
    var p := stack + [f];
    assert Path(frags, from, p) && p[|p| - 1] == f;
    if f in stack {
      var i :| 0 <= i < |stack| && stack[i] == f;
      assert p[i] == f;
    }
  }

  type Nodes = map<string, FragmentNode>

  ghost function BodyOf(nodes: Nodes, f: string): seq<GraphQuery> {
    if f in nodes && nodes[f].gq.Node? then nodes[f].gq.children else []
  }

  /** The fragments being expanded right now. */
  ghost function Open(nodes: Nodes): set<string> {
    set f | f in nodes && nodes[f].entered && !nodes[f].exited
  }

  ghost function Unentered(nodes: Nodes): set<string> {
    set f | f in nodes && !nodes[f].entered
  }

  ghost predicate NodeOk(frags: Bodies, nodes: Nodes, order: seq<string>, f: string)
    requires f in nodes
  {
    && (nodes[f].exited <==> f in order) && (nodes[f].exited ==> nodes[f].entered) && nodes[f].gq.Node?
    && (!nodes[f].exited ==> f in frags && nodes[f].gq == frags[f])
  }

  /** Exited fragments hold inlined bodies, in an order that respects the references; the others are untouched. */
  ghost predicate Consistent(frags: Bodies, nodes: Nodes, order: seq<string>) {
    && nodes.Keys == frags.Keys
    && (forall f :: f in frags ==> frags[f].Node?)
    && Topological(frags, order)
    && (forall f :: f in nodes ==> NodeOk(frags, nodes, order, f))
    && (forall i :: 0 <= i < |order| ==> InlinesTo(frags, i, frags[order[i]].children, BodyOf(nodes, order[i])))
  }

  lemma EnterKeeps(frags: Bodies, nodes: Nodes, order: seq<string>, name: string)
    requires Consistent(frags, nodes, order) && name in nodes && !nodes[name].entered
    ensures var nodes' := nodes[name := nodes[name].(entered := true)];
      && Consistent(frags, nodes', order)
      && Open(nodes') == Open(nodes) + {name}
      && Unentered(nodes') == Unentered(nodes) - {name} && name in Unentered(nodes)
  {
    hide InlinesTo;
    var nodes' := nodes[name := nodes[name].(entered := true)];
    assert NodeOk(frags, nodes, order, name);
    forall f | f in nodes' ensures NodeOk(frags, nodes', order, f) {
      assert NodeOk(frags, nodes, order, f);
    }
    forall i | 0 <= i < |order| ensures InlinesTo(frags, i, frags[order[i]].children, BodyOf(nodes', order[i])) {
      assert BodyOf(nodes', order[i]) == BodyOf(nodes, order[i]);
    }
  }

  lemma TopologicalSnoc(frags: Bodies, order: seq<string>, name: string)
    requires Topological(frags, order) && name in frags && name !in order
    requires forall f :: f in Refs(frags[name]) ==> f in order
    ensures Topological(frags, order + [name])
  {
    var order' := order + [name];
    forall i, f | 0 <= i < |order'| && f in Refs(frags[order'[i]]) ensures f in order'[..i] {
      if i < |order| {
        assert f in order[..i] && order'[..i] == order[..i];
      } else {
        assert order'[..i] == order;
      }
    }
  }

  lemma ExitKeeps(frags: Bodies, nodes: Nodes, order: seq<string>, name: string, cs: seq<GraphQuery>)
    requires Consistent(frags, nodes, order) && name in Open(nodes)
    requires forall f :: f in RefsAll(frags[name].children) ==> f in order
    requires InlinesTo(frags, |order|, frags[name].children, cs)
    ensures var nodes' := nodes[name := FragmentNode(Node(frags[name].attr, cs), true, true)];
      && Consistent(frags, nodes', order + [name])
      && Open(nodes') == Open(nodes) - {name}
      && Unentered(nodes') == Unentered(nodes)
      && BodyOf(nodes', name) == cs
  {
    hide InlinesTo;
    var nodes', order' := nodes[name := FragmentNode(Node(frags[name].attr, cs), true, true)], order + [name];
    assert NodeOk(frags, nodes, order, name);
    assert Refs(frags[name]) == RefsAll(frags[name].children);
    TopologicalSnoc(frags, order, name);
    hide Topological;
    forall f | f in nodes' ensures NodeOk(frags, nodes', order', f) {
      assert NodeOk(frags, nodes, order, f);
    }
    forall i | 0 <= i < |order'| ensures InlinesTo(frags, i, frags[order'[i]].children, BodyOf(nodes', order'[i])) {
      if i < |order| {
        assert order'[i] == order[i] && order[i] in order && order[i] != name;
        assert BodyOf(nodes', order[i]) == BodyOf(nodes, order[i]);
      }
    }
  }

  lemma ScopeOf(frags: Bodies, from: set<string>, stack: seq<string>, name: string)
    requires name in frags && frags[name].Node?
    ensures Scope(frags, from, stack + [name]) == RefsAll(frags[name].children)
  {
  }

  lemma StackNames(stack: seq<string>, name: string)
    ensures SetOf(stack + [name]) == SetOf(stack) + {name}
    ensures name in SetOf(stack) <==> name in stack
  {
  }

  class FragmentMap {
    ghost const frags: Bodies
    var nodes: Nodes
    ghost var order: seq<string>

    constructor (bodies: Bodies)
      requires forall f :: f in bodies ==> bodies[f].Node?
      ensures frags == bodies && order == [] && Consistent(frags, nodes, order) && Open(nodes) == {}
    {
      frags := bodies;
      nodes := map f | f in bodies :: FragmentNode(bodies[f], false, false);
      order := [];
    }

    /** `fragmentNode.expand` */
    method Expand(name: string, ghost from: set<string>, ghost stack: seq<string>) returns (r: Expansion)
      requires Consistent(frags, nodes, order) && name in nodes
      requires StackOk(frags, from, stack) && Open(nodes) == SetOf(stack) && name in Scope(frags, from, stack)
      modifies this
      ensures Consistent(frags, nodes, order) && old(order) <= order
      ensures Unentered(nodes) <= old(Unentered(nodes))
      ensures r.Ok? ==> Open(nodes) == old(Open(nodes)) && name in order && r.children == BodyOf(nodes, name)
      ensures FlawIn(frags, SetOf(stack), Spread(name)) == if r.Ok? then None else Some(r.flaw)
      ensures !r.Ok? ==> Shown(frags, from, r.flaw)
      decreases |Unentered(nodes)|, 0
    {
      hide Topological, InlinesTo, Path, Shown, Scope, StackOk, Refs, RefsAll, FirstFlaw;
      StackExtends(frags, from, stack, name);
      StackNames(stack, name);
      var fn := nodes[name];
      assert NodeOk(frags, nodes, order, name);
      if fn.exited {
        ExitedFlawless(frags, nodes, order, stack, name);
        return Ok(fn.gq.children);
      }
      if fn.entered {
        return Failed(Cycle(name));
      }
      assert FlawIn(frags, SetOf(stack), Spread(name)) == FirstFlaw(frags, SetOf(stack + [name]), fn.gq.children);
      ghost var before := Unentered(nodes);
      EnterKeeps(frags, nodes, order, name);
      nodes := nodes[name := fn.(entered := true)];
      SubsetSize(Unentered(nodes), before);
      ScopeOf(frags, from, stack, name);
      r := ExpandFragments(fn.gq.children, from, stack + [name]);
      if !r.Ok? {
        return;
      }
      ExitKeeps(frags, nodes, order, name, r.children);
      nodes := nodes[name := FragmentNode(Node(fn.gq.attr, r.children), true, true)];
      order := order + [name];
    }

    /** `expandFragments` on the children of a node */
    method ExpandFragments(children: seq<GraphQuery>, ghost from: set<string>, ghost stack: seq<string>)
      returns (r: Expansion)
      requires Consistent(frags, nodes, order)
      requires StackOk(frags, from, stack) && Open(nodes) == SetOf(stack)
      requires RefsAll(children) <= Scope(frags, from, stack)
      modifies this
      ensures Consistent(frags, nodes, order) && old(order) <= order
      ensures Unentered(nodes) <= old(Unentered(nodes))
      ensures r.Ok? ==> Open(nodes) == old(Open(nodes)) && InlinesTo(frags, |order|, children, r.children)
      ensures r.Ok? ==> forall f :: f in RefsAll(children) ==> f in order
      ensures FirstFlaw(frags, SetOf(stack), children) == if r.Ok? then None else Some(r.flaw)
      ensures !r.Ok? ==> Shown(frags, from, r.flaw)
      decreases |Unentered(nodes)|, 1, children
    {
      hide Topological, InlinesTo, Path, Shown, Scope, StackOk, Refs, RefsAll, Open, Unentered, NodeOk, FirstFlaw, FlawIn;
      var newChildren: seq<GraphQuery> := [];
      InlinesNothing(frags, order);
      for i := 0 to |children|
        invariant Consistent(frags, nodes, order) && old(order) <= order
        invariant Unentered(nodes) <= old(Unentered(nodes)) && Open(nodes) == old(Open(nodes))
        invariant InlinesTo(frags, |order|, children[..i], newChildren)
        invariant forall f :: f in RefsAll(children[..i]) ==> f in order
        invariant FirstFlaw(frags, SetOf(stack), children) == FirstFlaw(frags, SetOf(stack), children[i..])
      {
        var child := children[i];
        assert children[..i + 1] == children[..i] + [child];
        FlawStep(frags, SetOf(stack), children, i);
        RefsAllMember(children, i);
        RefsAllSnoc(children[..i], child);
        RefsOf(child);
        ghost var before := order;
        SubsetSize(Unentered(nodes), old(Unentered(nodes)));
        match child {
          case Spread(fname) =>
            if fname !in nodes {
              StackExtends(frags, from, stack, fname);
              return Failed(Missing(fname));
            }
            var body := Expand(fname, from, stack);
            if !body.Ok? {
              return body;
            }
            InlinesLater(frags, |before|, |order|, children[..i], newChildren);
            ghost var at :| 0 <= at < |order| && order[at] == fname;
            InlinesSpread(frags, |order|, at, children[..i], newChildren, fname, body.children);
            newChildren := newChildren + body.children;
          case Node(attr, grandchildren) =>
            var sub := ExpandFragments(grandchildren, from, stack);
            if !sub.Ok? {
              return sub;
            }
            InlinesLater(frags, |before|, |order|, children[..i], newChildren);
            InlinesNode(frags, |order|, children[..i], newChildren, child, sub.children);
            newChildren := newChildren + [Node(attr, sub.children)];
        }
      }
      assert children[..|children|] == children && children[|children|..] == [];
      FlawNothing(frags, SetOf(stack));
      return Ok(newChildren);
    }
  }

  lemma FlawNothing(frags: Bodies, open: set<string>)
    ensures FirstFlaw(frags, open, []) == None
  {
  }

  lemma FlawStep(frags: Bodies, open: set<string>, children: seq<GraphQuery>, i: nat)
    requires i < |children|
    ensures FirstFlaw(frags, open, children[i..]) ==
      if FlawIn(frags, open, children[i]).Some? then FlawIn(frags, open, children[i]) else FirstFlaw(frags, open, children[i + 1..])
    ensures children[i].Node? ==> FlawIn(frags, open, children[i]) == FirstFlaw(frags, open, children[i].children)
    ensures children[i].Spread? && children[i].name !in frags ==> FlawIn(frags, open, children[i]) == Some(Missing(children[i].name))
  {
    assert children[i..][0] == children[i] && children[i..][1..] == children[i + 1..];
  }

  /** A fragment that has been expanded has no flaw, wherever it is met again. */
  lemma ExitedFlawless(frags: Bodies, nodes: Nodes, order: seq<string>, stack: seq<string>, name: string)
    requires Consistent(frags, nodes, order) && name in nodes && nodes[name].exited && Open(nodes) == SetOf(stack)
    ensures FlawIn(frags, SetOf(stack), Spread(name)) == None
  {
    hide Topological, InlinesTo;
    assert order[..|order|] == order;
    assert NodeOk(frags, nodes, order, name);
    forall f | f in SetOf(stack) ensures f !in order {
      assert f in Open(nodes);
      assert NodeOk(frags, nodes, order, f);
    }
    FlawlessIn(frags, order, |order|, SetOf(stack), Spread(name));
  }

  lemma RefsOf(c: GraphQuery)
    ensures c.Node? ==> Refs(c) == RefsAll(c.children)
    ensures c.Spread? ==> Refs(c) == {c.name}
  {
  }

  lemma InlinesNothing(frags: Bodies, order: seq<string>)
    ensures InlinesTo(frags, |order|, [], [])
    ensures RefsAll([]) == {}
  {
  }

  lemma OrderSize(frags: Bodies, order: seq<string>)
    requires Topological(frags, order)
    ensures |order| <= |frags|
  {
    DistinctSize(order);
    SubsetSize(SetOf(order), frags.Keys);
  }

  /**
   The expansion at the end of `Parse`: it terminates on every fragment map and
   succeeds exactly when no reachable reference is missing or cyclic; the
   result is then the inlining of the query, with no spread left.
   */
  method ExpandQuery(bodies: Bodies, gq: GraphQuery) returns (r: Expansion)
    requires gq.Node? && forall f :: f in bodies ==> bodies[f].Node?
    ensures r.Ok? <==> !Broken(bodies, Refs(gq))
    ensures !r.Ok? ==> Shown(bodies, Refs(gq), r.flaw)
    ensures FirstFlaw(bodies, {}, gq.children) == if r.Ok? then None else Some(r.flaw)
    ensures r.Ok? ==> InlinesTo(bodies, |bodies|, gq.children, r.children)
  {
    hide Topological, InlinesTo, Path, Broken, Consistent, Shown, FirstFlaw;
    var fmap := new FragmentMap(bodies);
    r := fmap.ExpandFragments(gq.children, Refs(gq), []);
    if !r.Ok? {
      ShownBroken(bodies, Refs(gq), r.flaw);
    } else {
      ConsistentOrder(bodies, fmap.nodes, fmap.order);
      TopologicalSound(bodies, fmap.order, Refs(gq));
      OrderSize(bodies, fmap.order);
      InlinesLater(bodies, |fmap.order|, |bodies|, gq.children, r.children);
    }
  }

  lemma ConsistentOrder(frags: Bodies, nodes: Nodes, order: seq<string>)
    requires Consistent(frags, nodes, order)
    ensures Topological(frags, order)
  {
  }
}
