/** The ids of a generated fleet: each level numbers its elements with a stride that is meant to leave
  room for everything below. */
module IdRanges {
  import opened Common

  datatype Genre = Argosy | DataFlowGroup | DataFlow | DataFlowStatistic

  datatype Node = Node(id: int, genre: Genre, parents: seq<int>, children: seq<int>, kids: seq<Node>)

  /** Numbers of groups in an argosy, flows in a group and statistics in a flow. */
  datatype Sizes = Sizes(groups: nat, flows: nat, stats: nat)

  function FlowStride(z: Sizes): (r: nat)
    ensures r > 0
  {
    1 + z.stats
  }

  function GroupStride(z: Sizes): (r: nat)
    ensures r > 0
  {
    1 + z.flows + z.stats * z.stats
  }

  function ArgosyStride(z: Sizes): (r: nat)
    ensures r > 0
  {
    1 + z.groups + z.flows * z.flows + z.stats * z.stats * z.stats
  }

  function At(start: int, i: int, stride: int): int { start + i * stride }

  lemma AtNext(start: int, i: int, stride: int)
    ensures At(start, 0, stride) == start && At(start, i + 1, stride) == At(start, i, stride) + stride
  {
    assert (i + 1) * stride == i * stride + stride;
  }

  function IdsOf(nodes: seq<Node>): seq<int> {
    seq(|nodes|, i requires 0 <= i < |nodes| => nodes[i].id)
  }

  function Stat(id: int, parent: int): Node {
    Node(id, DataFlowStatistic, [parent], [-1], [])
  }

  function Stats(start: int, n: nat, parent: int): seq<Node> {
    if n == 0 then [] else Stats(start, n - 1, parent) + [Stat(start + n - 1, parent)]
  }

  function Flow(id: int, parent: int, z: Sizes): Node {
    var stats := Stats(id + 1, z.stats, id);
    Node(id, DataFlow, [parent], [-4] + IdsOf(stats), stats)
  }

  function Flows(start: int, n: nat, parent: int, z: Sizes): seq<Node> {
    if n == 0 then [] else Flows(start, n - 1, parent, z) + [Flow(At(start, n - 1, FlowStride(z)), parent, z)]
  }

  function Group(id: int, parent: int, z: Sizes): Node {
    var flows := Flows(id + 1, z.flows, id, z);
    Node(id, DataFlowGroup, [parent], [-4] + IdsOf(flows), flows)
  }

  function Groups(start: int, n: nat, parent: int, z: Sizes): seq<Node> {
    if n == 0 then [] else Groups(start, n - 1, parent, z) + [Group(At(start, n - 1, GroupStride(z)), parent, z)]
  }

  function ArgosyNode(id: int, z: Sizes): Node {
    var groups := Groups(id + 1, z.groups, id, z);
    Node(id, Argosy, [], [-2] + IdsOf(groups), groups)
  }

  function Argosies(start: int, n: nat, z: Sizes): seq<Node> {
    if n == 0 then [] else Argosies(start, n - 1, z) + [ArgosyNode(At(start, n - 1, ArgosyStride(z)), z)]
  }

  /** The ids of everything but the statistics, parents before their children. */
  function Collection(nodes: seq<Node>): seq<int> {
    if nodes == [] then []
    else
      var last := nodes[|nodes| - 1];
      Collection(nodes[..|nodes| - 1]) + if last.genre == DataFlowStatistic then [] else [last.id] + Collection(last.kids)
  }

  /** The statistics of the very last flow: each call replaces the curves of the one before. */
  function Curves(nodes: seq<Node>): seq<int> {
    if nodes == [] then []
    else if nodes[|nodes| - 1].genre == DataFlow then IdsOf(nodes[|nodes| - 1].kids)
    else Curves(nodes[|nodes| - 1].kids)
  }

  // ----- The loops -----

  method BuildDataFlowStatistics(startID: int, size: nat, parentID: int)
    returns (stats: seq<Node>, collectionIDs: seq<int>, childIDs: seq<int>, curves: seq<int>)
    ensures stats == Stats(startID, size, parentID)
    ensures childIDs == curves == IdsOf(stats) && collectionIDs == Collection(stats)
  {
    hide IdsOf, Collection, Curves;
    NoNodes();
    var id := startID - 1;
    stats, collectionIDs, childIDs, curves := [], [], [], [];
    for i := 0 to size
      invariant id == startID - 1 + i
      invariant stats == Stats(startID, i, parentID)
      invariant childIDs == curves == IdsOf(stats) && collectionIDs == Collection(stats) == []
    {
      id := id + 1;
      childIDs := childIDs + [id];
      curves := curves + [id];
      Appended(stats, Stat(id, parentID));
      stats := stats + [Stat(id, parentID)];
    }
  }

  lemma NoNodes()
    ensures IdsOf([]) == [] && Collection([]) == [] && Curves([]) == [] && AllIds([]) == []
  {
  }

  lemma Appended(nodes: seq<Node>, node: Node)
    ensures IdsOf(nodes + [node]) == IdsOf(nodes) + [node.id]
    ensures Collection(nodes + [node]) ==
      Collection(nodes) + if node.genre == DataFlowStatistic then [] else [node.id] + Collection(node.kids)
    ensures Curves(nodes + [node]) == if node.genre == DataFlow then IdsOf(node.kids) else Curves(node.kids)
  {
    assert (nodes + [node])[..|nodes|] == nodes;
  }

  method BuildDataFlows(startID: int, size: nat, parentID: int, z: Sizes)
    returns (flows: seq<Node>, collectionIDs: seq<int>, childIDs: seq<int>, curves: seq<int>)
    ensures flows == Flows(startID, size, parentID, z)
    ensures childIDs == IdsOf(flows) && collectionIDs == Collection(flows) && curves == Curves(flows)
  {
    hide At, FlowStride, GroupStride, ArgosyStride, Collection, Curves;
    NoNodes();
    flows, collectionIDs, childIDs, curves := [], [], [], [];
    for i := 0 to size
      invariant flows == Flows(startID, i, parentID, z)
      invariant childIDs == IdsOf(flows) && collectionIDs == Collection(flows) && curves == Curves(flows)
    {
      var id := At(startID, i, FlowStride(z));
      var kids, others, children;
      kids, others, children, curves := BuildDataFlowStatistics(id + 1, z.stats, id);
      collectionIDs := collectionIDs + [id] + others;
      childIDs := childIDs + [id];
      var flow := Node(id, DataFlow, [parentID], [-4] + children, kids);
      Appended(flows, flow);
      flows := flows + [flow];
    }
  }

  method BuildDataFlowGroups(startID: int, size: nat, parentID: int, z: Sizes)
    returns (groups: seq<Node>, collectionIDs: seq<int>, childIDs: seq<int>, curves: seq<int>)
    ensures groups == Groups(startID, size, parentID, z)
    ensures childIDs == IdsOf(groups) && collectionIDs == Collection(groups) && curves == Curves(groups)
  {
    hide At, FlowStride, GroupStride, ArgosyStride, Collection, Curves;
    NoNodes();
    groups, collectionIDs, childIDs, curves := [], [], [], [];
    for i := 0 to size
      invariant groups == Groups(startID, i, parentID, z)
      invariant childIDs == IdsOf(groups) && collectionIDs == Collection(groups) && curves == Curves(groups)
    {
      var id := At(startID, i, GroupStride(z));
      var kids, others, children;
      kids, others, children, curves := BuildDataFlows(id + 1, z.flows, id, z);
      collectionIDs := collectionIDs + [id] + others;
      childIDs := childIDs + [id];
      var group := Node(id, DataFlowGroup, [parentID], [-4] + children, kids);
      Appended(groups, group);
      groups := groups + [group];
    }
  }

  method BuildArgosies(startID: int, size: nat, z: Sizes)
    returns (argosies: seq<Node>, collectionIDs: seq<int>, curves: seq<int>)
    ensures argosies == Argosies(startID, size, z)
    ensures collectionIDs == Collection(argosies) && curves == Curves(argosies)
  {
    hide At, FlowStride, GroupStride, ArgosyStride, Collection, Curves;
    NoNodes();
    argosies, collectionIDs, curves := [], [], [];
    for i := 0 to size
      invariant argosies == Argosies(startID, i, z)
      invariant collectionIDs == Collection(argosies) && curves == Curves(argosies)
    {
      var id := At(startID, i, ArgosyStride(z));
      var kids, others, children;
      kids, others, children, curves := BuildDataFlowGroups(id + 1, z.groups, id, z);
      collectionIDs := collectionIDs + [id] + others;
      var argosy := Node(id, Argosy, [], [-2] + children, kids);
      Appended(argosies, argosy);
      argosies := argosies + [argosy];
    }
  }

  // ----- All ids are distinct -----

  /** The ids of a forest, statistics included. */
  function AllIds(nodes: seq<Node>): seq<int> {
    if nodes == [] then []
    else
      var last := nodes[|nodes| - 1];
      AllIds(nodes[..|nodes| - 1]) + ([last.id] + AllIds(last.kids))
  }

  ghost predicate Within(ids: seq<int>, low: int, high: int) {
    forall i :: 0 <= i < |ids| ==> low <= ids[i] < high
  }

  ghost predicate Ranged(ids: seq<int>, low: int, high: int) { Distinct(ids) && Within(ids, low, high) }

  /** Disjoint ranges put one after the other. */
  lemma Joined(a: seq<int>, b: seq<int>, low: int, end: int, mid: int, high: int)
    requires Ranged(a, low, end) && Ranged(b, mid, high) && end <= mid && low <= mid && end <= high
    ensures Ranged(a + b, low, high)
  {
  }

  /** One more node, whose block starts after the others. */
  lemma OneMore(nodes: seq<Node>, node: Node, low: int, end: int, high: int)
    requires Ranged(AllIds(nodes), low, end) && Ranged(AllIds(node.kids), node.id + 1, high)
    requires low <= end <= node.id < high
    ensures Ranged(AllIds(nodes + [node]), low, high)
  {
    assert (nodes + [node])[..|nodes|] == nodes;
    Joined([node.id], AllIds(node.kids), node.id, node.id + 1, node.id + 1, high);
    Joined(AllIds(nodes), [node.id] + AllIds(node.kids), low, end, node.id, high);
  }

  lemma {:induction false} StatsRanged(start: int, n: nat, parent: int)
    ensures Ranged(AllIds(Stats(start, n, parent)), start, start + n)
  {
    hide AllIds;
    NoNodes();
    if n > 0 {
      StatsRanged(start, n - 1, parent);
      OneMore(Stats(start, n - 1, parent), Stat(start + n - 1, parent), start, start + n - 1, start + n);
    }
  }

  lemma {:induction false} FlowsRanged(start: int, n: nat, parent: int, z: Sizes)
    ensures Ranged(AllIds(Flows(start, n, parent, z)), start, At(start, n, FlowStride(z))) && start <= At(start, n, FlowStride(z))
  {
    hide AllIds, At, Ranged, Stats;
    NoNodes();
    Empty(start);
    AtNext(start, n - 1, FlowStride(z));
    if n > 0 {
      FlowsRanged(start, n - 1, parent, z);
      var id := At(start, n - 1, FlowStride(z));
      StatsRanged(id + 1, z.stats, id);
      OneMore(Flows(start, n - 1, parent, z), Flow(id, parent, z), start, id, id + FlowStride(z));
    }
  }

  lemma Empty(start: int)
    ensures Ranged([], start, start)
  {
  }

  /** What the flows of a group take up, the group's own id included. */
  function GroupSize(z: Sizes): (r: nat)
    ensures r > 0
  {
    1 + z.flows * FlowStride(z)
  }

  lemma GroupFits(z: Sizes)
    ensures z.flows <= z.stats || z.stats == 0 ==> GroupSize(z) <= GroupStride(z)
  {
    var f, s := z.flows, z.stats;
    if f <= s {
      Larger(f, s, s);
    }
    assert f * (1 + s) == f + f * s;
    assert s == 0 ==> f * (1 + s) == f;
  }

  lemma Larger(a: nat, b: nat, c: nat)
    requires a <= b
    ensures a * c <= b * c
  {
  }

  lemma TwiceProduct(s: int, f: int)
    ensures 2 * (s * f) <= s * s + f * f
  {
    var d := s - f;
    assert 0 <= d * d;
    assert d * d == (s - f) * s - (s - f) * f == s * s - f * s - s * f + f * f;
  }

  lemma GroupRanged(id: int, parent: int, z: Sizes)
    ensures Ranged(AllIds(Group(id, parent, z).kids), id + 1, id + GroupSize(z))
  {
    hide Ranged, AllIds, Flows;
    FlowsRanged(id + 1, z.flows, id, z);
  }

  /** The last group's block ends where its last flow's does. */
  lemma {:induction false} GroupsRanged(start: int, n: nat, parent: int, z: Sizes)
    requires z.flows <= z.stats || z.stats == 0 || n <= 1
    ensures var end := if n == 0 then start else At(start, n - 1, GroupStride(z)) + GroupSize(z);
      start <= end && Ranged(AllIds(Groups(start, n, parent, z)), start, end)
  {
    hide Ranged, AllIds, At, GroupSize, GroupStride, Group;
    NoNodes();
    Empty(start);
    GroupFits(z);
    if n > 0 {
      GroupsRanged(start, n - 1, parent, z);
      AtNext(start, n - 2, GroupStride(z));
      var id := At(start, n - 1, GroupStride(z));
      GroupRanged(id, parent, z);
      var end := if n == 1 then start else At(start, n - 2, GroupStride(z)) + GroupSize(z);
      GroupIs(id, parent, z);
      OneMore(Groups(start, n - 1, parent, z), Group(id, parent, z), start, end, id + GroupSize(z));
    }
  }

  lemma GroupIs(id: int, parent: int, z: Sizes)
    ensures Group(id, parent, z).id == id
    ensures ArgosyNode(id, z).id == id && ArgosyNode(id, z).kids == Groups(id + 1, z.groups, id, z)
  {
    hide Flows, Groups, GroupStride, ArgosyStride;
  }

  /** The groups of an argosy do not overlap, and with them it fits its stride. */
  predicate Roomy(z: Sizes) {
    && (z.flows <= z.stats || z.stats == 0 || z.groups <= 1)
    && (z.groups > 0 ==> At(1, z.groups - 1, GroupStride(z)) + GroupSize(z) <= ArgosyStride(z))
  }

  /** The last group's slack makes up for the rest, because (stats - flows)^2 is not negative. */
  lemma ArgosyFits(z: Sizes)
    requires z.flows <= z.stats && z.groups <= z.stats
    ensures Roomy(z)
  {
    if z.groups > 0 { LastGroupFits(z); }
  }

  lemma LastGroupFits(z: Sizes)
    requires z.flows <= z.stats && 0 < z.groups <= z.stats
    ensures At(1, z.groups - 1, GroupStride(z)) + GroupSize(z) <= ArgosyStride(z)
  {
    var g: int, f: int, s: int := z.groups, z.flows, z.stats;
    var square, cube := s * s, s * s * s;
    MostGroups(g, s, f + square);
    Distributed(s, f, square);
    Distributed(f, 1, s);
    TwiceProduct(s, f);
    assert s * square == cube && f * s == s * f;
  }

  lemma Distributed(a: int, b: int, c: int)
    ensures a * (b + c) == a * b + a * c
  {
  }

  lemma MostGroups(g: nat, s: nat, q: nat)
    requires 0 < g <= s
    ensures (g - 1) * (1 + q) <= g - 1 + s * q - q
  {
    Distributed(g - 1, 1, q);
    Larger(g - 1, s - 1, q);
    assert (s - 1) * q == s * q - q;
  }

  lemma AtShift(start: int, i: int, stride: int, more: int)
    ensures At(start + more, i, stride) == At(start, i, stride) + more
  {
  }

  lemma {:induction false} ArgosiesRanged(start: int, n: nat, z: Sizes)
    requires Roomy(z)
    ensures start <= At(start, n, ArgosyStride(z)) && Ranged(AllIds(Argosies(start, n, z)), start, At(start, n, ArgosyStride(z)))
  {
    hide Roomy, Ranged, AllIds, At, GroupSize, GroupStride, ArgosyStride, ArgosyNode, Groups;
    NoNodes();
    Empty(start);
    AtNext(start, n - 1, ArgosyStride(z));
    if n > 0 {
      ArgosiesRanged(start, n - 1, z);
      var id := At(start, n - 1, ArgosyStride(z));
      ArgosyRanged(id, z);
      GroupIs(id, 0, z);
      OneMore(Argosies(start, n - 1, z), ArgosyNode(id, z), start, id, id + ArgosyStride(z));
    }
  }

  lemma ArgosyRanged(id: int, z: Sizes)
    requires Roomy(z)
    ensures Ranged(AllIds(ArgosyNode(id, z).kids), id + 1, id + ArgosyStride(z))
  {
    hide AllIds, At, GroupSize, GroupStride, ArgosyStride, Groups;
    GroupIs(id, 0, z);
    GroupsRanged(id + 1, z.groups, id, z);
    if z.groups > 0 {
      AtShift(1, z.groups - 1, GroupStride(z), id);
    }
  }

  /** However many argosies there are, no two elements share an id if there are at most as many flows
    in a group, and groups in an argosy, as statistics in a flow. */
  lemma IdsDistinct(start: int, n: nat, z: Sizes)
    requires z.flows <= z.stats && z.groups <= z.stats
    ensures Distinct(AllIds(Argosies(start, n, z)))
  {
    ArgosyFits(z);
    ArgosiesRanged(start, n, z);
  }

  // ----- Parents and children name each other -----

  /** Each node names its parent, and as its children, behind one marker, exactly those below it. */
  ghost predicate Linked(nodes: seq<Node>, parents: seq<int>) {
    forall i :: 0 <= i < |nodes| ==> LinkedNode(nodes[i], parents)
  }

  ghost predicate LinkedNode(node: Node, parents: seq<int>) {
    node.parents == parents && node.children != [] && node.children[1..] == IdsOf(node.kids) && Linked(node.kids, [node.id])
  }

  lemma {:induction false} StatsLinked(start: int, n: nat, parent: int)
    ensures Linked(Stats(start, n, parent), [parent])
  {
    if n > 0 {
      StatsLinked(start, n - 1, parent);
      assert LinkedNode(Stat(start + n - 1, parent), [parent]);
    }
  }

  lemma {:induction false} FlowsLinked(start: int, n: nat, parent: int, z: Sizes)
    ensures Linked(Flows(start, n, parent, z), [parent])
  {
    hide At, FlowStride, IdsOf;
    if n > 0 {
      var id := At(start, n - 1, FlowStride(z));
      FlowsLinked(start, n - 1, parent, z);
      StatsLinked(id + 1, z.stats, id);
      assert LinkedNode(Flow(id, parent, z), [parent]);
    }
  }

  lemma {:induction false} GroupsLinked(start: int, n: nat, parent: int, z: Sizes)
    ensures Linked(Groups(start, n, parent, z), [parent])
  {
    hide At, GroupStride, IdsOf, Flows;
    if n > 0 {
      var id := At(start, n - 1, GroupStride(z));
      GroupsLinked(start, n - 1, parent, z);
      FlowsLinked(id + 1, z.flows, id, z);
      assert LinkedNode(Group(id, parent, z), [parent]);
    }
  }

  lemma {:induction false} ArgosiesLinked(start: int, n: nat, z: Sizes)
    ensures Linked(Argosies(start, n, z), [])
  {
    hide At, ArgosyStride, IdsOf, Groups;
    if n > 0 {
      var id := At(start, n - 1, ArgosyStride(z));
      ArgosiesLinked(start, n - 1, z);
      GroupsLinked(id + 1, z.groups, id, z);
      assert LinkedNode(ArgosyNode(id, z), []);
    }
  }

  // ----- When the ranges overlap -----

  lemma {:induction false} StatsFill(start: int, n: nat, parent: int, v: int)
    requires start <= v < start + n
    ensures v in AllIds(Stats(start, n, parent))
  {
    OneMoreHas(Stats(start, n - 1, parent), Stat(start + n - 1, parent));
    if v < start + n - 1 {
      StatsFill(start, n - 1, parent, v);
    }
  }

  lemma OneMoreHas(nodes: seq<Node>, node: Node)
    ensures AllIds(nodes + [node]) == AllIds(nodes) + ([node.id] + AllIds(node.kids))
  {
    assert (nodes + [node])[..|nodes|] == nodes;
  }

  /** Flows leave no gap. */
  lemma {:induction false} FlowsFill(start: int, n: nat, parent: int, z: Sizes, v: int)
    requires start <= v < At(start, n, FlowStride(z))
    ensures v in AllIds(Flows(start, n, parent, z))
  {
    hide At, AllIds, Stats;
    AtNext(start, n - 1, FlowStride(z));
    var id := At(start, n - 1, FlowStride(z));
    OneMoreHas(Flows(start, n - 1, parent, z), Flow(id, parent, z));
    if v < id {
      FlowsFill(start, n - 1, parent, z, v);
    } else if v > id {
      StatsFill(id + 1, z.stats, id, v);
    }
  }

  lemma GroupFill(id: int, parent: int, z: Sizes, v: int)
    requires id <= v < id + GroupSize(z)
    ensures v in [id] + AllIds(Group(id, parent, z).kids)
  {
    if v > id {
      FlowsFill(id + 1, z.flows, id, z, v);
    }
  }

  /** Dropping the last nodes keeps distinctness. */
  lemma {:induction false} FewerGroups(start: int, m: nat, n: nat, parent: int, z: Sizes)
    requires m <= n && Distinct(AllIds(Groups(start, n, parent, z)))
    ensures Distinct(AllIds(Groups(start, m, parent, z)))
  {
    hide AllIds, Group;
    if m < n {
      var fewer := Groups(start, n - 1, parent, z);
      OneMoreHas(fewer, Group(At(start, n - 1, GroupStride(z)), parent, z));
      assert AllIds(fewer) == AllIds(Groups(start, n, parent, z))[..|AllIds(fewer)|];
      FewerGroups(start, m, n - 1, parent, z);
    }
  }

  /** The groups of an argosy have distinct ids exactly when there are at most as many flows as
    statistics, or there is nothing to run into. */
  lemma GroupsDistinct(start: int, n: nat, parent: int, z: Sizes)
    ensures Distinct(AllIds(Groups(start, n, parent, z))) <==> n <= 1 || z.stats == 0 || z.flows <= z.stats
  {
    hide AllIds, Groups, GroupStride, At;
    if n <= 1 || z.stats == 0 || z.flows <= z.stats {
      GroupsRanged(start, n, parent, z);
    } else if Distinct(AllIds(Groups(start, n, parent, z))) {
      FewerGroups(start, 2, n, parent, z);
      GroupsCollide(start, parent, z);
    }
  }

  lemma GroupsCollide(start: int, parent: int, z: Sizes)
    requires 0 < z.stats < z.flows
    ensures !Distinct(AllIds(Groups(start, 2, parent, z)))
  {
    hide AllIds, GroupStride, At, Group;
    var first, second := Group(start, parent, z), Group(start + GroupStride(z), parent, z);
    AtNext(start, 0, GroupStride(z));
    assert Groups(start, 0, parent, z) == [];
    assert Groups(start, 1, parent, z) == [first];
    assert Groups(start, 2, parent, z) == [first] + [second];
    OneMoreHas([], first);
    assert [] + [first] == [first];
    OneMoreHas([first], second);
    NoNodes();
    GroupIs(start, parent, z);
    GroupIs(start + GroupStride(z), parent, z);
    GroupOverfull(z);
    GroupFill(start, parent, z, second.id);
    var block := [first.id] + AllIds(first.kids);
    var i :| 0 <= i < |block| && block[i] == second.id;
    assert AllIds([first] + [second])[i] == AllIds([first] + [second])[|block|] == second.id;
  }

  lemma GroupOverfull(z: Sizes)
    requires 0 < z.stats < z.flows
    ensures GroupStride(z) < GroupSize(z)
  {
    var f, s := z.flows, z.stats;
    Larger(s + 1, f, s);
    Distributed(f, 1, s);
    assert (s + 1) * s == s * s + s;
  }

  /** The groups fill their stride: as many flows as statistics, or no statistics. */
  predicate Even(z: Sizes) { z.flows == z.stats || z.stats == 0 }

  /** Then the groups leave no gap either. */
  lemma {:induction false} GroupsFill(start: int, n: nat, parent: int, z: Sizes, v: int)
    requires Even(z) && start <= v < At(start, n, GroupStride(z))
    ensures v in AllIds(Groups(start, n, parent, z))
  {
    hide At, AllIds, Group, GroupStride;
    AtNext(start, n - 1, GroupStride(z));
    AtNext(start, 0, GroupStride(z));
    var id := At(start, n - 1, GroupStride(z));
    OneMoreHas(Groups(start, n - 1, parent, z), Group(id, parent, z));
    if v < id {
      GroupsFill(start, n - 1, parent, z, v);
    } else {
      GroupIs(id, parent, z);
      assert GroupStride(z) == GroupSize(z) by { GroupEven(z); }
      GroupFill(id, parent, z, v);
    }
  }

  lemma GroupEven(z: Sizes)
    requires Even(z)
    ensures GroupStride(z) == GroupSize(z)
  {
    Distributed(z.stats, 1, z.stats);
  }

  /** A single argosy whose groups do not overlap. */
  lemma FewArgosies(start: int, n: nat, z: Sizes)
    requires n <= 1 && (n == 1 ==> z.flows <= z.stats || z.stats == 0 || z.groups <= 1)
    ensures Distinct(AllIds(Argosies(start, n, z)))
  {
    hide AllIds, ArgosyStride, GroupStride, GroupSize, At, Groups;
    NoNodes();
    if n == 1 {
      AtNext(start, 0, ArgosyStride(z));
      GroupIs(start, 0, z);
      GroupsRanged(start + 1, z.groups, start, z);
      Empty(start);
      assert Argosies(start, 0, z) == [];
      assert Argosies(start, 1, z) == [] + [ArgosyNode(start, z)];
      var end := if z.groups == 0 then start + 1 else At(start + 1, z.groups - 1, GroupStride(z)) + GroupSize(z);
      OneMore([], ArgosyNode(start, z), start, start, end);
    }
  }

  lemma {:induction false} FewerArgosies(start: int, m: nat, n: nat, z: Sizes)
    requires m <= n && Distinct(AllIds(Argosies(start, n, z)))
    ensures Distinct(AllIds(Argosies(start, m, z)))
  {
    hide AllIds, ArgosyNode;
    if m < n {
      var fewer := Argosies(start, n - 1, z);
      OneMoreHas(fewer, ArgosyNode(At(start, n - 1, ArgosyStride(z)), z));
      assert AllIds(fewer) == AllIds(Argosies(start, n, z))[..|AllIds(fewer)|];
      FewerArgosies(start, m, n - 1, z);
    }
  }

  lemma ArgosiesCollide(start: int, z: Sizes)
    requires Even(z) && start + ArgosyStride(z) < At(start + 1, z.groups, GroupStride(z))
    ensures !Distinct(AllIds(Argosies(start, 2, z)))
  {
    hide AllIds, ArgosyStride, GroupStride, At, ArgosyNode;
    var first, second := ArgosyNode(start, z), ArgosyNode(start + ArgosyStride(z), z);
    FirstTwo(start, z);
    OneMoreHas([], first);
    assert [] + [first] == [first];
    OneMoreHas([first], second);
    NoNodes();
    GroupIs(start, 0, z);
    GroupIs(start + ArgosyStride(z), 0, z);
    GroupsFill(start + 1, z.groups, start, z, second.id);
    var block := [first.id] + AllIds(first.kids);
    var i :| 0 <= i < |AllIds(first.kids)| && AllIds(first.kids)[i] == second.id;
    assert AllIds([first] + [second])[i + 1] == AllIds([first] + [second])[|block|] == second.id;
  }

  lemma FirstTwo(start: int, z: Sizes)
    ensures Argosies(start, 1, z) == [ArgosyNode(start, z)]
    ensures Argosies(start, 2, z) == [ArgosyNode(start, z)] + [ArgosyNode(start + ArgosyStride(z), z)]
  {
    hide ArgosyStride, At, ArgosyNode;
    AtNext(start, 0, ArgosyStride(z));
    assert Argosies(start, 0, z) == [];
  }

  lemma ArgosyOverfull(start: int, z: Sizes)
    requires z.flows == z.stats > 0 && z.groups > z.stats
    ensures start + ArgosyStride(z) < At(start + 1, z.groups, GroupStride(z))
  {
    var g: int, s: int := z.groups, z.stats;
    var square, cube := s * s, s * s * s;
    assert GroupStride(z) == 1 + (s + square);
    Distributed(g, 1, s + square);
    Larger(z.stats + 1, z.groups, z.stats + z.stats * z.stats);
    Distributed(s + square, s, 1);
    Distributed(s, s, square);
    assert s * square == cube && (s + square) * s == s * (s + square) && (s + 1) * (s + square) == (s + square) * (s + 1);
  }

  lemma ArgosyOverfullWithoutStats(start: int, z: Sizes)
    requires z.stats == 0 && 0 < z.flows < z.groups
    ensures start + ArgosyStride(z) < At(start + 1, z.groups, GroupStride(z))
  {
    Distributed(z.groups, 1, z.flows);
    Larger(z.flows + 1, z.groups, z.flows);
    assert (z.flows + 1) * z.flows == z.flows * z.flows + z.flows;
  }

  lemma ArgosyFitsWithoutStats(z: Sizes)
    requires z.stats == 0 && (z.flows == 0 || z.groups <= z.flows)
    ensures Roomy(z)
  {
    if z.groups > 0 {
      Distributed(z.groups - 1, 1, z.flows);
      if z.flows > 0 { Larger(z.groups, z.flows, z.flows); }
      assert (z.groups - 1) * z.flows == z.groups * z.flows - z.flows;
    }
  }

  lemma OneGroupFits(z: Sizes)
    requires z.flows > z.stats && z.groups <= 1
    ensures Roomy(z)
  {
    hide At, GroupSize, ArgosyStride, GroupStride;
    OneGroupSize(z);
    ArgosyAtLeast(z);
    AtNext(1, 0, GroupStride(z));
  }

  lemma OneGroupSize(z: Sizes)
    requires z.flows > z.stats
    ensures GroupSize(z) <= 1 + z.flows * z.flows
  {
    Larger(z.stats + 1, z.flows, z.flows);
  }

  lemma ArgosyAtLeast(z: Sizes)
    ensures ArgosyStride(z) >= 1 + z.groups + z.flows * z.flows
  {
    Larger(0, z.stats * z.stats, z.stats);
  }

  /** The first argosy's groups are among what the fleet numbers. */
  lemma FirstArgosysGroups(start: int, n: nat, z: Sizes)
    requires n > 0 && Distinct(AllIds(Argosies(start, n, z)))
    ensures Distinct(AllIds(Groups(start + 1, z.groups, start, z)))
  {
    hide AllIds, ArgosyStride, GroupStride, At, Groups, Argosies, ArgosyNode, Distinct;
    FewerArgosies(start, 1, n, z);
    FirstTwo(start, z);
    GroupIs(start, 0, z);
    NoNodes();
    OneMoreHas([], ArgosyNode(start, z));
    assert [] + [ArgosyNode(start, z)] == [ArgosyNode(start, z)];
    DistinctBehind(start, AllIds(Groups(start + 1, z.groups, start, z)));
    assert AllIds(Argosies(start, 1, z)) == [start] + AllIds(Groups(start + 1, z.groups, start, z));
  }

  lemma DistinctBehind(id: int, ids: seq<int>)
    ensures Distinct([id] + ids) ==> Distinct(ids)
  {
    assert forall i :: 0 <= i < |ids| ==> ids[i] == ([id] + ids)[i + 1];
  }

  /** Exactly when a fleet has distinct ids, unless a level with more groups than statistics has fewer
    flows than statistics and there is more than one argosy. */
  predicate DistinctSizes(n: nat, z: Sizes) {
    || n == 0
    || (if z.stats == 0 then n == 1 || z.flows == 0 || z.groups <= z.flows
        else if z.flows > z.stats then z.groups <= 1
        else n == 1 || z.groups <= z.stats)
  }

  lemma FleetDistinct(start: int, n: nat, z: Sizes)
    requires z.flows < z.stats < z.groups ==> n <= 1
    ensures Distinct(AllIds(Argosies(start, n, z))) <==> DistinctSizes(n, z)
  {
    hide AllIds, Argosies, ArgosyStride, GroupStride, At, Groups;
    if DistinctSizes(n, z) {
      SizesGiveDistinct(start, n, z);
    } else if z.stats == 0 {
      ArgosyOverfullWithoutStats(start, z);
      ArgosiesCollide(start, z);
      NotWithoutFirst(start, 2, n, z);
    } else if z.flows > z.stats {
      GroupsDistinct(start + 1, z.groups, start, z);
      if Distinct(AllIds(Argosies(start, n, z))) { FirstArgosysGroups(start, n, z); }
    } else {
      ArgosyOverfull(start, z);
      ArgosiesCollide(start, z);
      NotWithoutFirst(start, 2, n, z);
    }
  }

  lemma NotWithoutFirst(start: int, m: nat, n: nat, z: Sizes)
    requires m <= n && !Distinct(AllIds(Argosies(start, m, z)))
    ensures !Distinct(AllIds(Argosies(start, n, z)))
  {
    if Distinct(AllIds(Argosies(start, n, z))) { FewerArgosies(start, m, n, z); }
  }

  lemma SizesGiveDistinct(start: int, n: nat, z: Sizes)
    requires DistinctSizes(n, z)
    ensures Distinct(AllIds(Argosies(start, n, z)))
  {
    hide AllIds, Argosies, ArgosyStride, GroupStride, At, Roomy;
    if n <= 1 {
      FewArgosies(start, n, z);
    } else {
      if z.stats == 0 {
        ArgosyFitsWithoutStats(z);
      } else if z.flows > z.stats {
        OneGroupFits(z);
      } else {
        ArgosyFits(z);
      }
      ArgosiesRanged(start, n, z);
    }
  }

  /** In the remaining case ids can collide too: here the third group meets the second argosy. */
  lemma MoreGroupsThanStatistics(start: int)
    ensures !Distinct(AllIds(Argosies(start, 2, Sizes(3, 1, 2))))
  {
    var z := Sizes(3, 1, 2);
    hide AllIds, ArgosyNode, Group;
    var first, second := ArgosyNode(start, z), ArgosyNode(start + 13, z);
    FirstTwo(start, z);
    OneMoreHas([], first);
    OneMoreHas([first], second);
    assert [] + [first] == [first];
    NoNodes();
    GroupIs(start, 0, z);
    GroupIs(start + 13, 0, z);
    var groups := Groups(start + 1, 2, start, z);
    GroupIs(start + 13, start, z);
    OneMoreHas(groups, Group(start + 13, start, z));
    assert first.kids == groups + [Group(start + 13, start, z)];
    var all := AllIds([first] + [second]);
    assert all[1 + |AllIds(groups)|] == start + 13;
    assert all[1 + |AllIds(first.kids)|] == start + 13;
  }
}
