/**
 * Solving a template's requirement graph: for every mandatory group, one node
 * drawn at random is activated; then the active nodes are collected into a map
 * from group name to node.
 *
 * The graph keeps its groups in declaration order; a node carries the name of
 * its own group. Activation state lives in the graph object, as the ordered
 * list of active nodes that `GetActiveNodes` returns.
 */
module GraphAnalyzer {
  import opened Random

  datatype Node = Node(group: string, name: string)

  datatype Group = Group(name: string, mandatory: bool, nodes: seq<Node>)

  /** The names of the mandatory groups, in declaration order. */
  function MandatoryGroups(groups: seq<Group>): (r: seq<string>)
    ensures forall g | g in r :: exists i :: 0 <= i < |groups| && groups[i].name == g && groups[i].mandatory
    ensures forall i | 0 <= i < |groups| && groups[i].mandatory :: groups[i].name in r
    decreases |groups|
  {
    if groups == [] then []
    else
      var last := groups[|groups| - 1];
      var prefix := groups[..|groups| - 1];
      assert forall i | 0 <= i < |prefix| :: prefix[i] == groups[i];
      var r := MandatoryGroups(prefix);
      if last.mandatory then r + [last.name] else r
  }

  /** The nodes of the first group named `name`; none when there is no such group. */
  function NodesOf(groups: seq<Group>, name: string): seq<Node>
  {
    if groups == [] then []
    else if groups[0].name == name then groups[0].nodes
    else NodesOf(groups[1..], name)
  }

  /** Every node is listed under the group it names. */
  ghost predicate WellFormed(groups: seq<Group>)
  {
    forall i, n | 0 <= i < |groups| && n in groups[i].nodes :: n.group == groups[i].name
  }

  lemma {:induction false} NodesOfBelongToGroup(groups: seq<Group>, name: string)
    requires WellFormed(groups)
    ensures forall n | n in NodesOf(groups, name) :: n.group == name
  {
    if groups != [] && groups[0].name != name {
      assert WellFormed(groups[1..]) by {
        forall i, n | 0 <= i < |groups[1..]| && n in groups[1..][i].nodes
          ensures n.group == groups[1..][i].name
        {
          assert groups[1..][i] == groups[i + 1];
        }
      }
      NodesOfBelongToGroup(groups[1..], name);
    }
  }

  /** Activation never deactivates: an already active node stays where it is. */
  function Activate(active: seq<Node>, n: Node): seq<Node>
  {
    if n in active then active else active + [n]
  }

  /** Activating the nodes of `ns` one after another. */
  function ActivateAll(active: seq<Node>, ns: seq<Node>): seq<Node>
    decreases |ns|
  {
    if ns == [] then active
    else Activate(ActivateAll(active, ns[..|ns| - 1]), ns[|ns| - 1])
  }

  /**
   * The active list after activating `ns` starts with the old one unchanged,
   * holds every node of `ns`, and nothing else.
   */
  lemma {:induction false} ActivateAllSpec(active: seq<Node>, ns: seq<Node>)
    ensures var r := ActivateAll(active, ns);
      && |active| <= |r| && r[..|active|] == active
      && (forall n | n in ns :: n in r)
      && (forall n | n in r :: n in active || n in ns)
    decreases |ns|
  {
    if ns != [] {
      var prefix := ns[..|ns| - 1];
      ActivateAllSpec(active, prefix);
      assert forall n | n in prefix :: n in ns;
      assert ns == prefix + [ns[|ns| - 1]];
    }
  }

  /** One draw per mandatory group, each a valid index into that group's nodes. */
  predicate DrawsFit(groups: seq<Group>, mandatory: seq<string>, draws: seq<nat>)
  {
    |draws| == |mandatory| && forall i | 0 <= i < |mandatory| :: draws[i] < |NodesOf(groups, mandatory[i])|
  }

  /** The node each draw selects in its group. */
  function Chosen(groups: seq<Group>, mandatory: seq<string>, draws: seq<nat>): (r: seq<Node>)
    requires DrawsFit(groups, mandatory, draws)
    ensures |r| == |mandatory|
    ensures forall i | 0 <= i < |r| :: r[i] == NodesOf(groups, mandatory[i])[draws[i]]
  {
    seq(|mandatory|, i requires 0 <= i < |mandatory| => NodesOf(groups, mandatory[i])[draws[i]])
  }

  /** One more draw chooses one more node, the one at the drawn index. */
  lemma ChosenSnoc(groups: seq<Group>, mandatory: seq<string>, i: nat, drawn: seq<nat>, index: nat)
    requires i < |mandatory| && DrawsFit(groups, mandatory[..i], drawn)
    requires index < |NodesOf(groups, mandatory[i])|
    ensures DrawsFit(groups, mandatory[..i + 1], drawn + [index])
    ensures Chosen(groups, mandatory[..i + 1], drawn + [index]) ==
      Chosen(groups, mandatory[..i], drawn) + [NodesOf(groups, mandatory[i])[index]]
  {
    assert mandatory[..i + 1] == mandatory[..i] + [mandatory[i]];
  }

  /** The result map: each active node under its own group name; a later node of the same group replaces an earlier one. */
  function Collect(active: seq<Node>): map<string, Node>
    decreases |active|
  {
    if active == [] then map[]
    else
      var last := active[|active| - 1];
      Collect(active[..|active| - 1])[last.group := last]
  }

  /** Every entry maps a group name to an active node of that group, and every active node's group has an entry. */
  lemma {:induction false} CollectSpec(active: seq<Node>)
    ensures var r := Collect(active);
      && (forall g | g in r :: r[g] in active && r[g].group == g)
      && (forall n | n in active :: n.group in r)
    decreases |active|
  {
    if active != [] {
      var prefix := active[..|active| - 1];
      CollectSpec(prefix);
      assert active == prefix + [active[|active| - 1]];
    }
  }

  /** The entry of a group is the last active node of that group. */
  lemma {:induction false} CollectLastWins(active: seq<Node>, j: nat)
    requires j < |active|
    requires forall k | j < k < |active| :: active[k].group != active[j].group
    ensures active[j].group in Collect(active) && Collect(active)[active[j].group] == active[j]
    decreases |active|
  {
    if j < |active| - 1 {
      var prefix := active[..|active| - 1];
      assert prefix[j] == active[j];
      forall k | j < k < |prefix| ensures prefix[k].group != prefix[j].group {
        assert prefix[k] == active[k];
      }
      CollectLastWins(prefix, j);
    }
  }

  /**
   * In a well-formed graph whose draws fit, solving leaves every mandatory
   * group with an entry in the result.
   */
  lemma MandatoryGroupsCovered(groups: seq<Group>, active: seq<Node>, draws: seq<nat>)
    requires WellFormed(groups) && DrawsFit(groups, MandatoryGroups(groups), draws)
    ensures var mandatory := MandatoryGroups(groups);
      forall g | g in mandatory :: g in Collect(ActivateAll(active, Chosen(groups, mandatory, draws)))
  {
    var mandatory := MandatoryGroups(groups);
    var chosen := Chosen(groups, mandatory, draws);
    var after := ActivateAll(active, chosen);
    ActivateAllSpec(active, chosen);
    CollectSpec(after);
    forall g | g in mandatory
      ensures g in Collect(after)
    {
      var i :| 0 <= i < |mandatory| && mandatory[i] == g;
      NodesOfBelongToGroup(groups, g);
      assert chosen[i] in NodesOf(groups, g);
      assert chosen[i] in after;
    }
  }

  class WeaverGraph {
    const groups: seq<Group>
    var active: seq<Node>

    constructor (groups: seq<Group>)
      ensures this.groups == groups && active == []
    {
      this.groups := groups;
      active := [];
    }

    function GetMandatoryGroups(): seq<string>
    {
      MandatoryGroups(groups)
    }

    function GetNodes(group: string): seq<Node>
    {
      NodesOf(groups, group)
    }

    function GetActiveNodes(): seq<Node>
      reads this
    {
      active
    }

    method ActivateNode(node: Node)
      modifies this`active
      ensures active == Activate(old(active), node)
    {
      if node !in active {
        active := active + [node];
      }
    }
  }

  /**
   * Draws one index per mandatory group, in declaration order, activates the
   * node at that index, and maps each active node's group to it. Every
   * mandatory group must have at least one node: the draw is used as an index
   * unchecked.
   */
  method SolveGraph(graph: WeaverGraph, rs: RandomStream) returns (results: map<string, Node>)
    requires forall g | g in MandatoryGroups(graph.groups) :: |NodesOf(graph.groups, g)| > 0
    modifies graph, rs
    ensures |rs.draws| == |old(rs.draws)| + |MandatoryGroups(graph.groups)|
    ensures rs.draws[..|old(rs.draws)|] == old(rs.draws)
    ensures var mandatory := MandatoryGroups(graph.groups); var drawn := rs.draws[|old(rs.draws)|..];
      && DrawsFit(graph.groups, mandatory, drawn)
      && graph.active == ActivateAll(old(graph.active), Chosen(graph.groups, mandatory, drawn))
    ensures results == Collect(graph.active)
  {
    var mandatory := graph.GetMandatoryGroups();
    ghost var d0 := rs.draws;
    ghost var a0 := graph.active;
    for i := 0 to |mandatory|
      invariant |rs.draws| == |d0| + i && rs.draws[..|d0|] == d0
      invariant DrawsFit(graph.groups, mandatory[..i], rs.draws[|d0|..])
      invariant graph.active == ActivateAll(a0, Chosen(graph.groups, mandatory[..i], rs.draws[|d0|..]))
    {
      ghost var drawn := rs.draws[|d0|..];
      var nodes := graph.GetNodes(mandatory[i]);
      assert mandatory[i] in mandatory;
      var index := rs.GetRandomIndex(|nodes|);
      graph.ActivateNode(nodes[index]);
      assert rs.draws[|d0|..] == drawn + [index];
      ChosenSnoc(graph.groups, mandatory, i, drawn, index);
    }
    assert mandatory[..|mandatory|] == mandatory;
    var activeNodes := graph.GetActiveNodes();
    results := CollectNodes(activeNodes);
  }

  /** The result map, filled one active node after another. */
  method CollectNodes(activeNodes: seq<Node>) returns (results: map<string, Node>)
    ensures results == Collect(activeNodes)
  {
    results := map[];
    for j := 0 to |activeNodes|
      invariant results == Collect(activeNodes[..j])
    {
      assert activeNodes[..j + 1][..j] == activeNodes[..j];
      results := results[activeNodes[j].group := activeNodes[j]];
    }
    assert activeNodes[..|activeNodes|] == activeNodes;
  }
}
