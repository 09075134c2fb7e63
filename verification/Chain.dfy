/** Choosing a route through the node groups of a proxy chain, and connecting along it. */
module Chain {
  import opened Wrappers

  /** A proxy node. The chain it is dialled through, if any, is the last chain among its dial options. */
  datatype Node = Node(id: int, multiplex: bool, dial: Option<Chain>)

  datatype NodeGroup = NodeGroup(nodes: seq<Node>)

  /** A chain of node groups; a route has one node a group, and remembers all the nodes that were selected. */
  datatype Chain = Chain(isRoute: bool, groups: seq<NodeGroup>, route: seq<Node>)
  {
    predicate IsEmpty() { groups == [] }

    function AddNode(node: Node): Chain { this.(groups := groups + [NodeGroup([node])]) }
  }

  /** Chain.Nodes: the first node of each group that has one. */
  function FirstNodes(groups: seq<NodeGroup>): (ns: seq<Node>)
    ensures |ns| <= |groups|
  {
    if groups == [] then []
    else (if groups[0].nodes == [] then [] else [groups[0].nodes[0]]) + FirstNodes(groups[1..])
  }

  function NewRoute(): Chain { Chain(true, [], []) }

  /** The nodes the groups gave before the first bypassed one, unless a group gave none first. */
  function Selected(picks: seq<Option<Node>>, bypass: Node -> bool): (s: Option<seq<Node>>)
    ensures s.Some? ==> |s.value| <= |picks|
  {
    if picks == [] then Some([])
    else if picks[0].None? then None
    else if bypass(picks[0].value) then Some([])
    else
      match Selected(picks[1..], bypass)
      case None => None
      case Some(more) => Some([picks[0].value] + more)
  }

  /** One more selected node: a multiplex node starts a new route, and is dialled through the one before. */
  function Extend(route: Chain, node: Node): (r: (Chain, Node))
  {
    if node.multiplex then
      var n := node.(dial := Some(route));
      (NewRoute().AddNode(n), n)
    else (route.AddNode(node), node)
  }

  /** The route that the nodes extend an earlier one to, and the nodes as they are placed in it. */
  function Routed(route: Chain, nl: seq<Node>, nodes: seq<Node>): (Chain, seq<Node>)
    decreases |nodes|
  {
    if nodes == [] then (route, nl)
    else
      var (r, n) := Extend(route, nodes[0]);
      Routed(r, nl + [n], nodes[1..])
  }

  /** The same, node by node as the groups are asked. */
  function RouteFrom(r: Chain, nl: seq<Node>, picks: seq<Option<Node>>, bypass: Node -> bool): Option<Chain>
    decreases |picks|
  {
    if picks == [] then Some(r.(route := nl))
    else if picks[0].None? then None
    else if bypass(picks[0].value) then Some(r.(route := nl))
    else
      var (r', n) := Extend(r, picks[0].value);
      RouteFrom(r', nl + [n], picks[1..], bypass)
  }

  lemma {:induction false} RoutesSelected(r: Chain, nl: seq<Node>, picks: seq<Option<Node>>, bypass: Node -> bool)
    ensures RouteFrom(r, nl, picks, bypass)
            == match Selected(picks, bypass)
               case None => None
               case Some(nodes) => Some(Routed(r, nl, nodes).0.(route := Routed(r, nl, nodes).1))
    decreases |picks|
  {
    if picks != [] && picks[0].Some? && !bypass(picks[0].value) {
      var (r', n) := Extend(r, picks[0].value);
      RoutesSelected(r', nl + [n], picks[1..], bypass);
      if Selected(picks[1..], bypass).Some? {
        var more := Selected(picks[1..], bypass).value;
        assert ([picks[0].value] + more)[1..] == more;
      }
    }
  }

  /** Chain.selectRouteFor. The picks are what the groups give one after the other. */
  method SelectRouteFor(c: Chain, picks: seq<Option<Node>>, bypass: Node -> bool) returns (route: Option<Chain>)
    requires |picks| == |c.groups|
    ensures route == if c.IsEmpty() then Some(NewRoute())
                     else if c.isRoute then Some(c)
                     else
                       match Selected(picks, bypass)
                       case None => None
                       case Some(nodes) =>
                         var routed := Routed(NewRoute(), [], nodes);
                         Some(routed.0.(route := routed.1))
  {
    if c.IsEmpty() {
      return Some(NewRoute());
    }
    if c.isRoute {
      return Some(c);
    }
    RoutesSelected(NewRoute(), [], picks, bypass);
    var r, nl := NewRoute(), [];
    for i := 0 to |picks|
      invariant RouteFrom(NewRoute(), [], picks, bypass) == RouteFrom(r, nl, picks[i..], bypass)
    {
      assert picks[i..][1..] == picks[i + 1..];
      if picks[i].None? {
        return None;
      }
      var node := picks[i].value;
      if bypass(node) {
        break;
      }
      if node.multiplex {
        node := node.(dial := Some(r));
        r := NewRoute();
      }
      r := r.AddNode(node);
      nl := nl + [node];
    }
    return Some(r.(route := nl));
  }

  /** The first group that has a node, or |groups|. */
  function Head(groups: seq<NodeGroup>): (k: nat)
    ensures k <= |groups| && (k < |groups| ==> groups[k].nodes != [])
    ensures forall j :: 0 <= j < k ==> groups[j].nodes == []
  {
    if groups == [] || groups[0].nodes != [] then 0 else 1 + Head(groups[1..])
  }

  /** The nodes a connection along the chain passes: those its first node is dialled through, then its own. */
  function Passes(c: Chain): seq<Node>
  {
    var k := Head(c.groups);
    if k == |c.groups| then []
    else Through(c.groups[k].nodes[0]) + FirstNodes(c.groups)
  }

  function Through(first: Node): seq<Node>
  {
    if first.dial.Some? then Passes(first.dial.value) else []
  }

  /** Multiplex nodes come first in their segment, here and in the segments before. */
  predicate OnlyHeadsMultiplex(c: Chain)
  {
    && (forall i :: 0 < i < |FirstNodes(c.groups)| ==> !FirstNodes(c.groups)[i].multiplex)
    && var k := Head(c.groups);
       (k < |c.groups| && c.groups[k].nodes[0].multiplex ==> HeadsBefore(c.groups[k].nodes[0]))
  }

  predicate HeadsBefore(first: Node) { first.dial.Some? && OnlyHeadsMultiplex(first.dial.value) }

  /** The route built so far: one node a group. */
  ghost predicate IsRoute(r: Chain) { forall g :: g in r.groups ==> |g.nodes| == 1 }

  lemma {:induction false} FirstNodesAdd(groups: seq<NodeGroup>, node: Node)
    ensures FirstNodes(groups + [NodeGroup([node])]) == FirstNodes(groups) + [node]
  {
    if groups == [] {
      assert groups + [NodeGroup([node])] == [NodeGroup([node])];
    } else {
      assert (groups + [NodeGroup([node])])[1..] == groups[1..] + [NodeGroup([node])];
      FirstNodesAdd(groups[1..], node);
    }
  }

  lemma {:induction false} RouteNodes(groups: seq<NodeGroup>)
    requires forall g :: g in groups ==> |g.nodes| == 1
    ensures |FirstNodes(groups)| == |groups|
    ensures forall i :: 0 <= i < |groups| ==> FirstNodes(groups)[i] == groups[i].nodes[0]
  {
    if groups != [] {
      RouteNodes(groups[1..]);
    }
  }

  /** What was passed before the first selected node is dialled. */
  function Before(nodes: seq<Node>): seq<Node>
  {
    if nodes == [] || nodes[0].multiplex then [] else Through(nodes[0])
  }

  lemma PassesAdd(r: Chain, node: Node)
    requires IsRoute(r)
    ensures Passes(r.AddNode(node)) == if r.groups == [] then Through(node) + [node] else Passes(r) + [node]
  {
    FirstNodesAdd(r.groups, node);
    if r.groups == [] {
      assert r.AddNode(node).groups == [NodeGroup([node])];
    } else {
      assert r.groups[0] in r.groups && Head(r.groups) == 0 && Head(r.AddNode(node).groups) == 0;
    }
  }

  /** The same node but for the chain it is dialled through, which only a multiplex node has replaced. */
  predicate SameNode(n: Node, m: Node) { n.(dial := None) == m.(dial := None) && (!n.multiplex ==> n == m) }

  lemma {:induction false} RoutedPasses(r: Chain, nl: seq<Node>, nodes: seq<Node>, before: seq<Node>)
    requires IsRoute(r) && (if r.groups == [] then nl == [] && before == Before(nodes) else Passes(r) == before + nl)
    ensures var (r', nl') := Routed(r, nl, nodes);
            IsRoute(r') && Passes(r') == (if r'.groups == [] then [] else before + nl')
    decreases |nodes|
  {
    if nodes != [] {
      var (next, n) := Extend(r, nodes[0]);
      PassesAdd(if n.multiplex then NewRoute() else r, n);
      assert before + nl + [n] == before + (nl + [n]);
      RoutedPasses(next, nl + [n], nodes[1..], before);
    }
  }

  lemma {:induction false} RoutedHeads(r: Chain, nl: seq<Node>, nodes: seq<Node>)
    requires IsRoute(r) && OnlyHeadsMultiplex(r)
    ensures OnlyHeadsMultiplex(Routed(r, nl, nodes).0)
    decreases |nodes|
  {
    if nodes != [] {
      HeadsAdd(r, nodes[0]);
      var (next, n) := Extend(r, nodes[0]);
      RoutedHeads(next, nl + [n], nodes[1..]);
    }
  }

  lemma {:induction false} RoutedSame(r: Chain, nl: seq<Node>, nodes: seq<Node>, kept: seq<Node>)
    requires |nl| == |kept| && forall i :: 0 <= i < |nl| ==> SameNode(nl[i], kept[i])
    ensures var (r', nl') := Routed(r, nl, nodes);
            |nl'| == |kept + nodes| && forall i :: 0 <= i < |nl'| ==> SameNode(nl'[i], (kept + nodes)[i])
    decreases |nodes|
  {
    if nodes == [] {
      assert kept + nodes == kept;
    } else {
      var (next, n) := Extend(r, nodes[0]);
      assert kept + nodes == kept + [nodes[0]] + nodes[1..];
      RoutedSame(next, nl + [n], nodes[1..], kept + [nodes[0]]);
    }
  }

  lemma HeadsAdd(r: Chain, node: Node)
    requires IsRoute(r) && OnlyHeadsMultiplex(r)
    ensures OnlyHeadsMultiplex(Extend(r, node).0)
  {
    var (next, n) := Extend(r, node);
    if node.multiplex {
      assert next.groups == [NodeGroup([n])] && Head(next.groups) == 0;
      FirstNodesAdd([], n);
    } else {
      FirstNodesAdd(r.groups, node);
      assert r.groups != [] ==> r.groups[0] in r.groups && Head(r.groups) == 0 && Head(next.groups) == 0;
    }
  }

  lemma {:induction false} RoutedEmpty(r: Chain, nl: seq<Node>, nodes: seq<Node>)
    ensures Routed(r, nl, nodes).0.groups == [] <==> r.groups == [] && nodes == []
    decreases |nodes|
  {
    if nodes != [] {
      var (next, n) := Extend(r, nodes[0]);
      RoutedEmpty(next, nl + [n], nodes[1..]);
    }
  }

  /**
   A selected route loses and reorders nothing: a connection along it passes exactly the selected
   nodes in their order, and only starts elsewhere if the first node was configured to.
   */
  lemma {:induction false} RoutePassesSelected(nodes: seq<Node>)
    ensures var (r, nl) := Routed(NewRoute(), [], nodes);
            && Passes(r) == Before(nodes) + nl && OnlyHeadsMultiplex(r)
            && |nl| == |nodes| && forall i :: 0 <= i < |nodes| ==> SameNode(nl[i], nodes[i])
  {
    var r := NewRoute();
    assert r.groups == [] && FirstNodes([]) == [] && Head([]) == 0;
    RoutedPasses(r, [], nodes, Before(nodes));
    RoutedHeads(r, [], nodes);
    RoutedSame(r, [], nodes, []);
    assert [] + nodes == nodes;
    RoutedEmpty(r, [], nodes);
  }

  ghost predicate UpToBypass(picks: seq<Option<Node>>, bypass: Node -> bool, nodes: seq<Node>)
  {
    && |nodes| <= |picks|
    && (forall i :: 0 <= i < |nodes| ==> picks[i] == Some(nodes[i]) && !bypass(nodes[i]))
    && (|nodes| < |picks| ==> picks[|nodes|].Some? && bypass(picks[|nodes|].value))
  }

  /** The selected nodes are those before the first bypassed one; a group that gives none before that is an error. */
  lemma {:induction false} SelectedExactly(picks: seq<Option<Node>>, bypass: Node -> bool, nodes: seq<Node>)
    ensures Selected(picks, bypass) == Some(nodes) <==> UpToBypass(picks, bypass, nodes)
    decreases |picks|
  {
    if picks != [] && picks[0].Some? && !bypass(picks[0].value) {
      if nodes != [] {
        SelectedExactly(picks[1..], bypass, nodes[1..]);
        assert nodes == [nodes[0]] + nodes[1..];
        if UpToBypass(picks, bypass, nodes) {
          assert UpToBypass(picks[1..], bypass, nodes[1..]);
        }
        if Selected(picks, bypass) == Some(nodes) {
          assert ([picks[0].value] + Selected(picks[1..], bypass).value)[1..] == Selected(picks[1..], bypass).value;
          assert forall i :: 0 < i < |nodes| ==> nodes[i] == nodes[1..][i - 1] && picks[i] == picks[1..][i - 1];
        }
      }
    }
  }

  /** How often each node has failed since it last worked. */
  class Markers {
    var fails: map<int, nat>

    constructor ()
      ensures fails == map[]
    {
      fails := map[];
    }

    method MarkDead(id: int)
      modifies this
      ensures fails == Marked(old(fails), id)
    {
      fails := fails[id := Fails(fails, id) + 1];
    }

    method ResetDead(id: int)
      modifies this
      ensures fails == Reset(old(fails), id)
    {
      fails := fails[id := 0];
    }
  }

  function Fails(fails: map<int, nat>, id: int): nat { if id in fails then fails[id] else 0 }

  function Marked(fails: map<int, nat>, id: int): map<int, nat> { fails[id := Fails(fails, id) + 1] }

  function Reset(fails: map<int, nat>, id: int): map<int, nat> { fails[id := 0] }

  /** The marks after the first nodes of a route worked. */
  function ResetAll(fails: map<int, nat>, nodes: seq<Node>): map<int, nat>
  {
    if nodes == [] then fails else Reset(ResetAll(fails, nodes[..|nodes| - 1]), nodes[|nodes| - 1].id)
  }

  /**
   Chain.getConn: dials the first node and connects on from each to the next, with a handshake
   after each; works(i) tells whether the dial or connection to node i and its handshake succeed.
   A chain of empty groups only would make it panic.
   */
  method GetConn(c: Chain, markers: Markers, works: int -> bool) returns (ok: bool)
    requires c.IsEmpty() || FirstNodes(c.groups) != []
    modifies markers
    ensures ok <==> !c.IsEmpty() && forall i :: 0 <= i < |FirstNodes(c.groups)| ==> works(i)
    ensures c.IsEmpty() ==> markers.fails == old(markers.fails)
    ensures ok ==> markers.fails == ResetAll(old(markers.fails), FirstNodes(c.groups))
    ensures !ok && !c.IsEmpty() ==>
              exists k :: FailsFirst(|FirstNodes(c.groups)|, works, k)
                && markers.fails == Marked(ResetAll(old(markers.fails), FirstNodes(c.groups)[..k]),
                                           FirstNodes(c.groups)[k].id)
  {
    if c.IsEmpty() {
      return false;
    }
    var nodes := FirstNodes(c.groups);
    for i := 0 to |nodes|
      invariant forall j :: 0 <= j < i ==> works(j)
      invariant markers.fails == ResetAll(old(markers.fails), nodes[..i])
    {
      if !works(i) {
        markers.MarkDead(nodes[i].id);
        assert FailsFirst(|nodes|, works, i);
        return false;
      }
      markers.ResetDead(nodes[i].id);
      assert nodes[..i + 1][..i] == nodes[..i];
    }
    assert nodes[..|nodes|] == nodes;
    return true;
  }

  ghost predicate FailsFirst(n: nat, works: int -> bool, k: int)
  {
    0 <= k < n && !works(k) && forall j :: 0 <= j < k ==> works(j)
  }

  lemma {:induction false} ResetAllExactly(fails: map<int, nat>, nodes: seq<Node>, id: int)
    ensures Fails(ResetAll(fails, nodes), id) == if exists n :: n in nodes && n.id == id then 0 else Fails(fails, id)
  {
    if nodes != [] {
      var k := |nodes| - 1;
      ResetAllExactly(fails, nodes[..k], id);
      assert nodes[..k] + [nodes[k]] == nodes;
    }
  }

  /** When a connection fails at node k, that node alone is marked once more, and no node after it is touched. */
  lemma OneIsMarked(fails: map<int, nat>, nodes: seq<Node>, k: nat, id: int)
    requires k < |nodes| && forall i, j :: 0 <= i < j < |nodes| ==> nodes[i].id != nodes[j].id
    ensures Fails(Marked(ResetAll(fails, nodes[..k]), nodes[k].id), id)
            == if id == nodes[k].id then Fails(fails, id) + 1
               else if exists i :: 0 <= i < k && nodes[i].id == id then 0
               else Fails(fails, id)
  {
    ResetAllExactly(fails, nodes[..k], id);
    ResetAllExactly(fails, nodes[..k], nodes[k].id);
    forall i | 0 <= i < k
      ensures nodes[i] in nodes[..k]
    {
      assert nodes[..k][i] == nodes[i];
    }
  }
}
