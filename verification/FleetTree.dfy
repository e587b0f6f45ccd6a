/** The tree of argosies, flow groups, flow types and flows that is built from statistics rows. */
module FleetTree {
  import opened Common

  datatype Row = Row(flowName: string, argosId: string, flowGroup: string, mode: string,
                     stateCode: string, stateName: string, timeSplit: string, lastTestedDate: string)

  /** A node without `statistic` is interior; one with it is the leaf of a row. */
  datatype Node = Node(name: string, statistic: Option<Row>, kids: seq<Node>)

  type Argosies = map<string, seq<Node>>

  function Inner(name: string, kids: seq<Node>): Node { Node(name, None, kids) }
  function Leaf(row: Row): Node { Node(row.flowName, Some(row), []) }

  /** The part of a flow's name in front of the first dash. */
  function Prefix(name: string): string {
    if name == "" || name[0] == '-' then "" else [name[0]] + Prefix(name[1..])
  }

  /** Where a row belongs below its argosy. */
  function Place(row: Row): seq<string> {
    [row.flowGroup] + if '-' in row.flowName then [Prefix(row.flowName), row.flowName] else [row.flowName]
  }

  /** Anything with the name, or an interior node only. */
  predicate Named(n: Node, name: string, inner: bool) {
    n.name == name && (inner ==> n.statistic.None?)
  }

  /** The first child of that kind, or the number of children. */
  function Find(nodes: seq<Node>, name: string, inner: bool): (i: nat)
    ensures i <= |nodes| && (i < |nodes| ==> Named(nodes[i], name, inner))
    ensures forall j :: 0 <= j < i ==> !Named(nodes[j], name, inner)
  {
    if nodes == [] then 0 else if Named(nodes[0], name, inner) then 0 else 1 + Find(nodes[1..], name, inner)
  }

  function Insert(nodes: seq<Node>, path: seq<string>, row: Row): seq<Node>
    decreases |path|
  {
    if path == [] then nodes + [Leaf(row)]
    else
      var i := Find(nodes, path[0], false);
      if i < |nodes| then nodes[i := nodes[i].(kids := Insert(nodes[i].kids, path[1..], row))]
      else nodes + [Inner(path[0], Insert([], path[1..], row))]
  }

  function KidsOf(fleet: Argosies, argosId: string): seq<Node> {
    if argosId in fleet then fleet[argosId] else []
  }

  function Added(fleet: Argosies, row: Row): Argosies {
    fleet[row.argosId := Insert(KidsOf(fleet, row.argosId), Place(row), row)]
  }

  function AllAdded(fleet: Argosies, rows: seq<Row>): Argosies {
    if rows == [] then fleet else Added(AllAdded(fleet, rows[..|rows| - 1]), rows[|rows| - 1])
  }

  function Listed(ids: seq<string>): Argosies {
    map id | id in ids :: Trim(id) := []
  }

  // ----- The loops over rows and over children -----

  class Fleet {
    var argosyMap: Argosies

    /** Every listed id gets an argosy, even one without rows. */
    constructor (ids: seq<string>)
      ensures argosyMap == Listed(ids)
    {
      hide Trim;
      var m: Argosies := map[];
      for i := 0 to |ids|
        invariant m == map id | id in ids[..i] :: Trim(id) := []
      {
        m := m[Trim(ids[i]) := []];
        assert ids[..i + 1] == ids[..i] + [ids[i]];
      }
      assert ids[..|ids|] == ids;
      argosyMap := m;
    }

    method AddRows(rows: seq<Row>)
      modifies this
      ensures argosyMap == AllAdded(old(argosyMap), rows)
    {
      for i := 0 to |rows|
        invariant argosyMap == AllAdded(old(argosyMap), rows[..i])
      {
        assert rows[..i + 1][..i] == rows[..i];
        AddRow(rows[i]);
      }
      assert rows[..|rows|] == rows;
    }

    method AddRow(row: Row)
      modifies this
      ensures argosyMap == Added(old(argosyMap), row)
    {
      var kids: seq<Node> := [];
      if row.argosId in argosyMap {
        kids := argosyMap[row.argosId];
      }
      hide Insert, Find;
      ghost var had, place := kids, Place(row);
      var g;
      kids, g := FindOrMake(kids, row.flowGroup);
      Made(had, place, row, kids, g);
      var types := AddToGroup(kids[g].kids, row);
      kids := kids[g := kids[g].(kids := types)];
      argosyMap := argosyMap[row.argosId := kids];
    }

    /** The argosies as a list, in the map's order. */
    method Nodes() returns (nodes: seq<Node>)
      ensures forall i :: 0 <= i < |nodes| ==> nodes[i].name in argosyMap && nodes[i] == Inner(nodes[i].name, argosyMap[nodes[i].name])
      ensures forall i, j :: 0 <= i < j < |nodes| ==> nodes[i].name != nodes[j].name
      ensures |nodes| == |argosyMap|
    {
      nodes := [];
      var todo := argosyMap.Keys;
      while todo != {}
        invariant todo <= argosyMap.Keys
        invariant forall i :: 0 <= i < |nodes| ==> nodes[i].name in argosyMap.Keys - todo && nodes[i] == Inner(nodes[i].name, argosyMap[nodes[i].name])
        invariant forall i, j :: 0 <= i < j < |nodes| ==> nodes[i].name != nodes[j].name
        invariant |nodes| + |todo| == |argosyMap|
      {
        var id :| id in todo;
        nodes := nodes + [Inner(id, argosyMap[id])];
        todo := todo - {id};
      }
    }
  }

  /** The part of a row's insertion below its flow group. */
  method AddToGroup(group: seq<Node>, row: Row) returns (types: seq<Node>)
    ensures types == Insert(group, Place(row)[1..], row)
  {
    hide Insert, Find;
    ghost var rest := Place(row)[1..];
    var t;
    if '-' in row.flowName {
      types, t := FindOrMake(group, Prefix(row.flowName));
      Made(group, rest, row, types, t);
      var flows, n := FindOrMake(types[t].kids, row.flowName);
      Made(types[t].kids, rest[1..], row, flows, n);
      InsertHere(flows[n].kids, row);
      assert rest[1..][1..] == [];
      flows := flows[n := flows[n].(kids := flows[n].kids + [Leaf(row)])];
      types := types[t := types[t].(kids := flows)];
    } else {
      types, t := FindOrMake(group, row.flowName);
      Made(group, rest, row, types, t);
      InsertHere(types[t].kids, row);
      assert rest[1..] == [];
      types := types[t := types[t].(kids := types[t].kids + [Leaf(row)])];
    }
  }

  /** The child with the name, appended if there is none. */
  method FindOrMake(nodes: seq<Node>, name: string) returns (all: seq<Node>, i: nat)
    ensures i < |all| && i == Find(nodes, name, false)
    ensures all == if i < |nodes| then nodes else nodes + [Inner(name, [])]
  {
    i := 0;
    while i < |nodes| && nodes[i].name != name
      invariant i <= |nodes| && forall j :: 0 <= j < i ==> nodes[j].name != name
    {
      i := i + 1;
    }
    all := if i < |nodes| then nodes else nodes + [Inner(name, [])];
  }

  lemma Made(nodes: seq<Node>, path: seq<string>, row: Row, all: seq<Node>, i: nat)
    requires path != [] && i == Find(nodes, path[0], false) && i < |all|
    requires all == if i < |nodes| then nodes else nodes + [Inner(path[0], [])]
    ensures Insert(nodes, path, row) == all[i := all[i].(kids := Insert(all[i].kids, path[1..], row))]
  {
  }

  lemma InsertHere(nodes: seq<Node>, row: Row)
    ensures Insert(nodes, [], row) == nodes + [Leaf(row)]
  {
  }

  // ----- What the tree holds -----

  /** The place of a node is the way from its argosy. Interior siblings have distinct names, a leaf has no
    children and lies where its row belongs. */
  ghost predicate Sound(nodes: seq<Node>, at: seq<string>)
  {
    && (forall i :: 0 <= i < |nodes| ==> SoundNode(nodes[i], at))
    && (forall i, j :: 0 <= i < j < |nodes| && nodes[i].statistic.None? && nodes[j].statistic.None? ==> nodes[i].name != nodes[j].name)
  }

  ghost predicate SoundNode(n: Node, at: seq<string>) {
    if n.statistic.None? then Sound(n.kids, at + [n.name])
    else n == Leaf(n.statistic.value) && Place(n.statistic.value) == at
  }

  lemma {:induction false} NoDash(name: string)
    ensures '-' !in Prefix(name)
  {
    if name != "" && name[0] != '-' { NoDash(name[1..]); }
  }

  /** A leaf is never taken for the node that a row looks for. */
  lemma NotCaptured(nodes: seq<Node>, at: seq<string>, rest: seq<string>, row: Row)
    requires Sound(nodes, at) && rest != [] && Place(row) == at + rest
    ensures Find(nodes, rest[0], false) < |nodes| ==> nodes[Find(nodes, rest[0], false)].statistic.None?
  {
    var i := Find(nodes, rest[0], false);
    if i < |nodes| && nodes[i].statistic.Some? {
      assert SoundNode(nodes[i], at);
      OtherName(row, nodes[i].statistic.value, at, rest);
      assert false;
    }
  }

  /** A row whose place lies below another row's place looks for a dashed name; the other has no dash. */
  lemma OtherName(row: Row, other: Row, at: seq<string>, rest: seq<string>)
    requires rest != [] && Place(row) == at + rest && Place(other) == at
    ensures other.flowName != rest[0]
  {
    NoDash(row.flowName);
    assert Place(row)[|at|] == rest[0] && Place(row)[|at| - 1] == at[|at| - 1] == other.flowName;
  }

  lemma {:induction false} InsertSound(nodes: seq<Node>, at: seq<string>, rest: seq<string>, row: Row)
    requires Sound(nodes, at) && Place(row) == at + rest
    ensures Sound(Insert(nodes, rest, row), at)
    decreases |rest|
  {
    hide Place;
    if rest != [] {
      NotCaptured(nodes, at, rest, row);
      var i := Find(nodes, rest[0], false);
      assert at + [rest[0]] + rest[1..] == at + rest;
      if i < |nodes| {
        assert SoundNode(nodes[i], at);
        InsertSound(nodes[i].kids, at + [rest[0]], rest[1..], row);
      } else {
        InsertSound([], at + [rest[0]], rest[1..], row);
      }
    } else {
      assert at + rest == at;
    }
  }

  function RowsOf(nodes: seq<Node>): seq<Row> {
    if nodes == [] then []
    else
      var last := nodes[|nodes| - 1];
      RowsOf(nodes[..|nodes| - 1]) + if last.statistic.Some? then [last.statistic.value] else []
  }

  /** The rows of the leaves at a place, in the order of the children. */
  function RowsAt(nodes: seq<Node>, path: seq<string>): seq<Row>
    decreases |path|
  {
    if path == [] then RowsOf(nodes)
    else
      var i := Find(nodes, path[0], true);
      if i < |nodes| then RowsAt(nodes[i].kids, path[1..]) else []
  }

  lemma {:induction false} RowsOfUpdate(nodes: seq<Node>, i: nat, n: Node)
    requires i < |nodes| && nodes[i].statistic.None? && n.statistic.None?
    ensures RowsOf(nodes[i := n]) == RowsOf(nodes)
  {
    var most := nodes[..|nodes| - 1];
    if i < |most| {
      assert nodes[i := n][..|most|] == most[i := n];
      RowsOfUpdate(most, i, n);
    } else {
      assert nodes[i := n][..|most|] == most;
    }
  }

  lemma RowsOfAppend(nodes: seq<Node>, n: Node)
    ensures RowsOf(nodes + [n]) == RowsOf(nodes) + if n.statistic.Some? then [n.statistic.value] else []
  {
    assert (nodes + [n])[..|nodes|] == nodes;
  }

  lemma {:induction false} FindInnerAfter(nodes: seq<Node>, after: seq<Node>, name: string)
    requires |nodes| <= |after| && forall i :: |nodes| <= i < |after| ==> after[i].statistic.Some? || after[i].name != name
    requires forall i :: 0 <= i < |nodes| ==> after[i].name == nodes[i].name && after[i].statistic == nodes[i].statistic
    ensures Find(nodes, name, true) < |nodes| ==> Find(after, name, true) == Find(nodes, name, true)
    ensures Find(nodes, name, true) == |nodes| ==> Find(after, name, true) == |after|
  {
    hide Find;
    var i, j := Find(nodes, name, true), Find(after, name, true);
    assert i < |nodes| ==> after[i].name == name && after[i].statistic.None?;
    assert j < |nodes| ==> nodes[j].name == name && nodes[j].statistic.None?;
  }

  lemma FindInnerIs(nodes: seq<Node>, name: string, i: nat)
    requires i < |nodes| && nodes[i].name == name && nodes[i].statistic.None?
    requires forall j :: 0 <= j < i ==> nodes[j].name != name
    ensures Find(nodes, name, true) == i
  {
    hide Find;
  }

  /** Other children of a node are not touched. */
  lemma InsertElsewhere(nodes: seq<Node>, rest: seq<string>, row: Row, path: seq<string>)
    requires path != [] && (rest == [] || path[0] != rest[0])
    ensures RowsAt(Insert(nodes, rest, row), path) == RowsAt(nodes, path)
  {
    hide Find;
    var after := Insert(nodes, rest, row);
    FindInnerAfter(nodes, after, path[0]);
  }

  /** A row adds one leaf, at its place, behind the leaves that are there, and none elsewhere. */
  lemma {:induction false} InsertRows(nodes: seq<Node>, at: seq<string>, rest: seq<string>, row: Row, path: seq<string>)
    requires Sound(nodes, at) && Place(row) == at + rest
    ensures RowsAt(Insert(nodes, rest, row), path) == RowsAt(nodes, path) + if path == rest then [row] else []
    decreases |rest|, 1
  {
    hide Place, Find, RowsOf, Sound;
    if path != [] && (rest == [] || path[0] != rest[0]) {
      InsertElsewhere(nodes, rest, row, path);
    } else if rest == [] {
      RowsOfAppend(nodes, Leaf(row));
    } else {
      NotCaptured(nodes, at, rest, row);
      var i := Find(nodes, rest[0], false);
      var after := Insert(nodes, rest, row);
      if path == [] {
        if i < |nodes| { RowsOfUpdate(nodes, i, after[i]); } else { RowsOfAppend(nodes, after[i]); }
      } else {
        InsertUnder(nodes, at, rest, row, path, i);
      }
    }
  }

  lemma {:induction false} InsertUnder(nodes: seq<Node>, at: seq<string>, rest: seq<string>, row: Row, path: seq<string>, i: nat)
    requires Sound(nodes, at) && Place(row) == at + rest && rest != [] && path != [] && path[0] == rest[0]
    requires i == Find(nodes, rest[0], false) && (i < |nodes| ==> nodes[i].statistic.None?)
    ensures RowsAt(Insert(nodes, rest, row), path) == RowsAt(nodes, path) + if path == rest then [row] else []
    decreases |rest|, 0
  {
    hide Place, Find, RowsOf, Sound;
    var after := Insert(nodes, rest, row);
    var below := if i < |nodes| then nodes[i].kids else [];
    SoundBelow(nodes, at, i);
    assert at + [rest[0]] + rest[1..] == at + rest;
    InsertRows(below, at + [rest[0]], rest[1..], row, path[1..]);
    assert path == [path[0]] + path[1..] && rest == [rest[0]] + rest[1..];
    NothingAt(path[1..]);
    FindInnerIs(after, path[0], i);
    if i < |nodes| { FindInnerIs(nodes, path[0], i); } else { assert Find(nodes, path[0], true) == |nodes|; }
    assert after[i].kids == Insert(below, rest[1..], row);
  }

  lemma SoundBelow(nodes: seq<Node>, at: seq<string>, i: nat)
    requires Sound(nodes, at)
    ensures i < |nodes| && nodes[i].statistic.None? ==> Sound(nodes[i].kids, at + [nodes[i].name])
    ensures Sound([], at + [if i < |nodes| then nodes[i].name else ""])
    ensures forall more: seq<string> :: Sound([], more)
  {
    assert i < |nodes| ==> SoundNode(nodes[i], at);
  }

  lemma {:induction false} NothingAt(path: seq<string>)
    ensures RowsAt([], path) == []
  {
  }

  // ----- The whole fleet -----

  function Select(rows: seq<Row>, argosId: string, path: seq<string>): seq<Row> {
    if rows == [] then []
    else
      var last := rows[|rows| - 1];
      Select(rows[..|rows| - 1], argosId, path) + if last.argosId == argosId && Place(last) == path then [last] else []
  }

  ghost predicate SoundFleet(fleet: Argosies) {
    forall id :: id in fleet ==> Sound(fleet[id], [])
  }

  /** For any rows, the leaves at a place are the rows that belong there, in row order; each interior
    node has children of distinct names and every leaf lies at its row's place. */
  lemma {:induction false} FleetHolds(ids: seq<string>, rows: seq<Row>, argosId: string, path: seq<string>)
    ensures var fleet := AllAdded(Listed(ids), rows);
      SoundFleet(fleet) && RowsAt(KidsOf(fleet, argosId), path) == Select(rows, argosId, path)
  {
    NothingAt(path);
    if rows != [] {
      var most, last := rows[..|rows| - 1], rows[|rows| - 1];
      FleetHolds(ids, most, argosId, path);
      var fleet := AllAdded(Listed(ids), most);
      var kids := KidsOf(fleet, last.argosId);
      assert Sound(kids, []) && [] + Place(last) == Place(last);
      InsertSound(kids, [], Place(last), last);
      InsertRows(kids, [], Place(last), last, path);
    }
  }

  /** The rows of an argosy with a flow group and a flow name, in row order. */
  function RowsNamed(rows: seq<Row>, argosId: string, group: string, flow: string): seq<Row> {
    if rows == [] then []
    else
      var last := rows[|rows| - 1];
      RowsNamed(rows[..|rows| - 1], argosId, group, flow) +
      if last.argosId == argosId && last.flowGroup == group && last.flowName == flow then [last] else []
  }

  lemma {:induction false} PrefixOf(a: string, b: string)
    requires '-' !in a
    ensures Prefix(a + "-" + b) == a
  {
    var name := a + "-" + b;
    if a != "" {
      assert name[1..] == a[1..] + "-" + b;
      PrefixOf(a[1..], b);
      assert a == [a[0]] + a[1..];
    }
  }

  lemma {:induction false} DashedSelected(rows: seq<Row>, argosId: string, group: string, a: string, b: string)
    requires '-' !in a
    ensures Select(rows, argosId, [group, a, a + "-" + b]) == RowsNamed(rows, argosId, group, a + "-" + b)
  {
    if rows != [] {
      DashedSelected(rows[..|rows| - 1], argosId, group, a, b);
      DashedPlace(rows[|rows| - 1], group, a, b);
    }
  }

  lemma DashedPlace(row: Row, group: string, a: string, b: string)
    requires '-' !in a
    ensures Place(row) == [group, a, a + "-" + b] <==> row.flowGroup == group && row.flowName == a + "-" + b
  {
    PrefixOf(a, b);
    assert (a + "-" + b)[|a|] == '-';
    if Place(row) == [group, a, a + "-" + b] {
      assert Place(row)[0] == row.flowGroup && Place(row)[2] == row.flowName;
    }
  }

  lemma {:induction false} PlainSelected(rows: seq<Row>, argosId: string, group: string, flow: string)
    requires '-' !in flow
    ensures Select(rows, argosId, [group, flow]) == RowsNamed(rows, argosId, group, flow)
  {
    if rows != [] {
      PlainSelected(rows[..|rows| - 1], argosId, group, flow);
      PlainPlace(rows[|rows| - 1], group, flow);
    }
  }

  lemma PlainPlace(row: Row, group: string, flow: string)
    requires '-' !in flow
    ensures Place(row) == [group, flow] <==> row.flowGroup == group && row.flowName == flow
  {
    if Place(row) == [group, flow] {
      assert Place(row)[0] == row.flowGroup && Place(row)[1] == row.flowName;
    }
  }

  /** For any rows: the leaves under a group, the part of a flow's name in front of its first dash, and the
    whole name, are exactly the rows with that group and name, in row order. */
  lemma DashedRows(ids: seq<string>, rows: seq<Row>, argosId: string, group: string, a: string, b: string)
    requires '-' !in a
    ensures RowsAt(KidsOf(AllAdded(Listed(ids), rows), argosId), [group, a, a + "-" + b])
         == RowsNamed(rows, argosId, group, a + "-" + b)
  {
    FleetHolds(ids, rows, argosId, [group, a, a + "-" + b]);
    DashedSelected(rows, argosId, group, a, b);
  }

  /** And for a name without a dash those directly under the group and the name. */
  lemma UndashedRows(ids: seq<string>, rows: seq<Row>, argosId: string, group: string, flow: string)
    requires '-' !in flow
    ensures RowsAt(KidsOf(AllAdded(Listed(ids), rows), argosId), [group, flow]) == RowsNamed(rows, argosId, group, flow)
  {
    FleetHolds(ids, rows, argosId, [group, flow]);
    PlainSelected(rows, argosId, group, flow);
  }

  /** The argosies are those listed and those that a row names. */
  lemma {:induction false} FleetIds(ids: seq<string>, rows: seq<Row>, id: string)
    ensures id in AllAdded(Listed(ids), rows) <==>
      (exists i :: i in ids && Trim(i) == id) || exists r :: r in rows && r.argosId == id
  {
    if rows != [] {
      FleetIds(ids, rows[..|rows| - 1], id);
      assert forall r :: r in rows <==> r in rows[..|rows| - 1] || r == rows[|rows| - 1];
    }
  }
}
