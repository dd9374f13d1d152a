/**
 Fragment expansion (`expand` and `expandFragments` of `gql/parser.go`): a
 depth-first search that replaces every fragment spread by the children of the
 fragment, with `Entered`/`Exited` marks to share work and detect cycles.

 The reference is `Inline`, which just substitutes bodies for spreads to a
 given depth, and the paths of the reference graph between fragments;
 `FirstFlaw` is the search without marks.
 */
module Fragments {
  import opened Bytes

  /** A query node with its own data, or a spread of the fragment `name`. */
  datatype GraphQuery = Node(attr: string, children: seq<GraphQuery>) | Spread(name: string)

  type Bodies = map<string, GraphQuery>

  // ---------- Reference ----------

  function Inline(frags: Bodies, depth: nat, gq: GraphQuery): (r: GraphQuery)
    ensures gq.Node? ==> r.Node?
    decreases depth, gq, 1
  {
    match gq
    case Node(attr, children) => Node(attr, InlineAll(frags, depth, children))
    case Spread(_) => gq
  }

  function InlineAll(frags: Bodies, depth: nat, cs: seq<GraphQuery>): seq<GraphQuery>
    decreases depth, cs, 0
  {
    if cs == [] then [] else InlineChild(frags, depth, cs[0]) + InlineAll(frags, depth, cs[1..])
  }

  /** A spread stands for the children of its fragment, in place. */
  function InlineChild(frags: Bodies, depth: nat, c: GraphQuery): seq<GraphQuery>
    decreases depth, c, 2
  {
    match c
    case Node(_, _) => [Inline(frags, depth, c)]
    case Spread(f) =>
      if depth > 0 && f in frags && frags[f].Node? then InlineAll(frags, depth - 1, frags[f].children) else [c]
  }

  predicate NoSpread(gq: GraphQuery) {
    gq.Node? && forall i :: 0 <= i < |gq.children| ==> NoSpread(gq.children[i])
  }

  predicate NoSpreads(cs: seq<GraphQuery>) {
    forall i :: 0 <= i < |cs| ==> NoSpread(cs[i])
  }

  /** The fragments that `gq` refers to. */
  function Refs(gq: GraphQuery): set<string>
    decreases gq, 1
  {
    match gq
    case Node(_, children) => RefsAll(children)
    case Spread(f) => {f}
  }

  function RefsAll(cs: seq<GraphQuery>): set<string>
    decreases cs, 0
  {
    if cs == [] then {} else Refs(cs[0]) + RefsAll(cs[1..])
  }

  /** A walk along references that starts in `from`. */
  ghost predicate Path(frags: Bodies, from: set<string>, p: seq<string>) {
    && |p| > 0 && p[0] in from
    && forall k :: 0 <= k < |p| - 1 ==> p[k] in frags && p[k + 1] in Refs(frags[p[k]])
  }

  /** The walk ends at a missing fragment, or comes back to a fragment it has visited. */
  ghost predicate Dead(frags: Bodies, p: seq<string>) {
    |p| > 0 && (p[|p| - 1] !in frags || exists i, j :: 0 <= i < j < |p| && p[i] == p[j])
  }

  /** Some reference reachable from `gq` is missing or cyclic. */
  ghost predicate Broken(frags: Bodies, from: set<string>) {
    exists p :: Path(frags, from, p) && Dead(frags, p)
  }

  /** What can be wrong with a reference: its fragment is missing, or is being expanded already. */
  datatype Flaw = Missing(name: string) | Cycle(name: string)

  /** A walk that shows the flaw. */
  ghost predicate Shown(frags: Bodies, from: set<string>, flaw: Flaw) {
    exists p :: Path(frags, from, p) && p[|p| - 1] == flaw.name &&
      if flaw.Missing? then flaw.name !in frags else exists i :: 0 <= i < |p| - 1 && p[i] == flaw.name
  }

  lemma ShownBroken(frags: Bodies, from: set<string>, flaw: Flaw)
    requires Shown(frags, from, flaw)
    ensures Broken(frags, from)
  {
    var p :| Path(frags, from, p) && p[|p| - 1] == flaw.name &&
      if flaw.Missing? then flaw.name !in frags else exists i :: 0 <= i < |p| - 1 && p[i] == flaw.name;
    assert Dead(frags, p);
  }

  /** The first flaw that reading `cs` in order meets, when every spread is expanded anew; `open` are the fragments being expanded. */
  ghost function FirstFlaw(frags: Bodies, open: set<string>, cs: seq<GraphQuery>): Option<Flaw>
    decreases frags.Keys - open, cs, 0
  {
    if cs == [] then None
    else if FlawIn(frags, open, cs[0]).Some? then FlawIn(frags, open, cs[0])
    else FirstFlaw(frags, open, cs[1..])
  }

  ghost function FlawIn(frags: Bodies, open: set<string>, c: GraphQuery): Option<Flaw>
    decreases frags.Keys - open, c, 1
  {
    match c
    case Node(_, children) => FirstFlaw(frags, open, children)
    case Spread(f) =>
      if f !in frags then Some(Missing(f))
      else if f in open then Some(Cycle(f))
      else if frags[f].Node? then FirstFlaw(frags, open + {f}, frags[f].children)
      else None
  }

  // ---------- Exit orders ----------

  /** Every fragment in `order` refers only to fragments before it. */
  ghost predicate Topological(frags: Bodies, order: seq<string>) {
    && (forall i :: 0 <= i < |order| ==> order[i] in frags)
    && (forall i, j :: 0 <= i < j < |order| ==> order[i] != order[j])
    && (forall i, f :: 0 <= i < |order| && f in Refs(frags[order[i]]) ==> f in order[..i])
  }

  /** Walks that start inside a topological order stay inside and only go down. */
  lemma {:induction false} PathDescends(frags: Bodies, order: seq<string>, from: set<string>, p: seq<string>, k: nat)
    requires Topological(frags, order) && Path(frags, from, p) && k < |p|
    requires forall f :: f in from ==> f in order
    ensures p[k] in order
    ensures forall i, a, b :: 0 <= i < k && 0 <= a < |order| && 0 <= b < |order| && order[a] == p[i] && order[b] == p[k] ==> b < a
  {
    if k > 0 {
      PathDescends(frags, order, from, p, k - 1);
      var a :| 0 <= a < |order| && order[a] == p[k - 1];
      assert p[k] in Refs(frags[p[k - 1]]);
      assert p[k] in order[..a];
      var b :| 0 <= b < a && order[..a][b] == p[k];
      assert order[b] == p[k];
      forall i, x, y | 0 <= i < k && 0 <= x < |order| && 0 <= y < |order| && order[x] == p[i] && order[y] == p[k]
        ensures y < x
      {
        assert y == b by { assert !(y < b) && !(b < y); }
        if i == k - 1 {
          assert x == a by { assert !(x < a) && !(a < x); }
        }
      }
    }
  }

  lemma TopologicalSound(frags: Bodies, order: seq<string>, from: set<string>)
    requires Topological(frags, order) && forall f :: f in from ==> f in order
    ensures !Broken(frags, from)
  {
    forall p | Path(frags, from, p) ensures !Dead(frags, p) {
      PathDescends(frags, order, from, p, |p| - 1);
      forall i, j | 0 <= i < j < |p| ensures p[i] != p[j] {
        PathDescends(frags, order, from, p, j);
        PathDescends(frags, order, from, p, i);
        var a :| 0 <= a < |order| && order[a] == p[i];
      }
    }
  }

  /** Expanding again what is already in the order meets no flaw. */
  lemma {:induction false} OrderFlawless(frags: Bodies, order: seq<string>, n: nat, open: set<string>, cs: seq<GraphQuery>)
    requires Topological(frags, order) && n <= |order|
    requires (forall f :: f in RefsAll(cs) ==> f in order[..n]) && forall f :: f in open ==> f !in order[..n]
    ensures FirstFlaw(frags, open, cs) == None
    decreases n, cs, 0
  {
    hide Topological;
    if cs != [] {
      FlawlessIn(frags, order, n, open, cs[0]);
      OrderFlawless(frags, order, n, open, cs[1..]);
    }
  }

  lemma {:induction false} FlawlessIn(frags: Bodies, order: seq<string>, n: nat, open: set<string>, c: GraphQuery)
    requires Topological(frags, order) && n <= |order|
    requires (forall f :: f in Refs(c) ==> f in order[..n]) && forall f :: f in open ==> f !in order[..n]
    ensures FlawIn(frags, open, c) == None
    decreases n, c, 1
  {
    hide Topological;
    match c {
      case Node(_, children) => OrderFlawless(frags, order, n, open, children);
      case Spread(f) =>
        var m := OrderPlace(frags, order, n, f);
        forall x | x in open + {f} ensures x !in order[..m] {
          assert x in open ==> x !in order[..n];
          assert forall i :: 0 <= i < m ==> order[..m][i] == order[..n][i];
        }
        if frags[f].Node? { OrderFlawless(frags, order, m, open + {f}, frags[f].children); }
    }
  }

  /** Where `f` stands in the order, and that what it refers to stands before it. */
  lemma OrderPlace(frags: Bodies, order: seq<string>, n: nat, f: string) returns (m: nat)
    requires Topological(frags, order) && n <= |order| && f in order[..n]
    ensures m < n && order[m] == f && f in frags && f !in order[..m]
    ensures forall x :: x in Refs(frags[f]) ==> x in order[..m]
  {
    m :| 0 <= m < n && order[..n][m] == f;
  }

  /** `out` is what `gq` becomes at every depth from `i` on, and no spread is left in it. */
  ghost predicate InlinesTo(frags: Bodies, i: nat, cs: seq<GraphQuery>, out: seq<GraphQuery>) {
    NoSpreads(out) && forall n: nat :: n >= i ==> InlineAll(frags, n, cs) == out
  }

  lemma InlinesLater(frags: Bodies, i: nat, j: nat, cs: seq<GraphQuery>, out: seq<GraphQuery>)
    requires InlinesTo(frags, i, cs, out) && i <= j
    ensures InlinesTo(frags, j, cs, out)
  {
  }

  lemma {:induction false} InlineAllSnoc(frags: Bodies, n: nat, cs: seq<GraphQuery>, c: GraphQuery)
    ensures InlineAll(frags, n, cs + [c]) == InlineAll(frags, n, cs) + InlineChild(frags, n, c)
    decreases |cs|
  {
    hide InlineChild;
    if cs == [] {
      assert cs + [c] == [c];
      assert InlineAll(frags, n, [c][1..]) == [];
      assert InlineAll(frags, n, [c]) == InlineChild(frags, n, c) + [];
    } else {
      assert (cs + [c])[1..] == cs[1..] + [c];
      InlineAllSnoc(frags, n, cs[1..], c);
    }
  }

  lemma {:induction false} RefsAllSnoc(cs: seq<GraphQuery>, c: GraphQuery)
    ensures RefsAll(cs + [c]) == RefsAll(cs) + Refs(c)
    decreases |cs|
  {
    hide Refs;
    if cs == [] {
      assert cs + [c] == [c];
      assert RefsAll([c][1..]) == {};
      assert RefsAll([c]) == Refs(c) + {};
    } else {
      assert (cs + [c])[1..] == cs[1..] + [c];
      RefsAllSnoc(cs[1..], c);
    }
  }

  lemma {:induction false} RefsAllMember(cs: seq<GraphQuery>, i: nat)
    requires i < |cs|
    ensures Refs(cs[i]) <= RefsAll(cs)
    decreases |cs|
  {
    hide Refs;
    if i > 0 { RefsAllMember(cs[1..], i - 1); }
  }

  /** Adding an expanded node. */
  lemma InlinesNode(frags: Bodies, i: nat, cs: seq<GraphQuery>, out: seq<GraphQuery>, c: GraphQuery, c': seq<GraphQuery>)
    requires InlinesTo(frags, i, cs, out) && c.Node? && InlinesTo(frags, i, c.children, c')
    ensures InlinesTo(frags, i, cs + [c], out + [Node(c.attr, c')])
  {
    forall n: nat | n >= i ensures InlineAll(frags, n, cs + [c]) == out + [Node(c.attr, c')] {
      InlineAllSnoc(frags, n, cs, c);
      assert InlineAll(frags, n, cs) == out && InlineAll(frags, n, c.children) == c';
    }
  }

  /** Adding the expanded children of a fragment. */
  lemma InlinesSpread(frags: Bodies, i: nat, j: nat, cs: seq<GraphQuery>, out: seq<GraphQuery>, f: string, body: seq<GraphQuery>)
    requires InlinesTo(frags, i, cs, out) && f in frags && frags[f].Node?
    requires j < i && InlinesTo(frags, j, frags[f].children, body)
    ensures InlinesTo(frags, i, cs + [Spread(f)], out + body)
  {
    forall n: nat | n >= i ensures InlineAll(frags, n, cs + [Spread(f)]) == out + body {
      InlineAllSnoc(frags, n, cs, Spread(f));
      assert InlineAll(frags, n, cs) == out && InlineAll(frags, n - 1, frags[f].children) == body;
    }
  }
}
