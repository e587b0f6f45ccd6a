/** The tree behind the GraphQL schema: environments, their projects, services, files and values.

  The four levels are merged by the same loop, so one type stands for all of them: a node at depth 1
  is an environment, at depth 2 a project, at depth 3 a service and at depth 4 a file. A node's
  `path` holds the ids of its ancestors (EnvID, ProjID, ServID), a value's also that of its file. */
module GraphTree {
  /** What a value says; its ids are added by the merge. */
  datatype Payload = Payload(key: string, value: string, source: string)

  /** The trees that the two sources deliver. Only files have values. */
  datatype Input = Input(name: string, kids: seq<Input>, values: seq<Payload>)

  datatype Value = Value(id: nat, path: seq<nat>, payload: Payload)
  datatype Node = Node(name: string, id: nat, path: seq<nat>, kids: seq<Node>, values: seq<Value>)

  /** `visitedNode`: the position of a name in its list, and the same for the names below it. */
  datatype Visited = Visited(index: nat, children: map<string, Visited>)

  // ----- The merge, with linear search instead of the index -----

  /** Position of the first node with the name, or the length of the list. */
  function Find(list: seq<Node>, name: string): (i: nat)
    ensures i <= |list| && (i < |list| ==> list[i].name == name) && forall j :: 0 <= j < i ==> list[j].name != name
  {
    if list == [] then 0 else if list[0].name == name then 0 else 1 + Find(list[1..], name)
  }

  function AddValues(values: seq<Value>, path: seq<nat>, more: seq<Payload>): seq<Value> {
    values + seq(|more|, i requires 0 <= i < |more| => Value(|values| + i, path, more[i]))
  }

  /** The node with the input's children and values added to its own. */
  function Absorb(node: Node, input: Input): Node
    decreases input, 0
  {
    var path := node.path + [node.id];
    node.(kids := MergeAll(node.kids, path, input.kids), values := AddValues(node.values, path, input.values))
  }

  function NewNode(list: seq<Node>, path: seq<nat>, name: string): Node {
    Node(name, |list|, path, [], [])
  }

  function MergeOne(list: seq<Node>, path: seq<nat>, input: Input): seq<Node>
    decreases input, 1
  {
    var i := Find(list, input.name);
    if i < |list| then list[i := Absorb(list[i], input)]
    else list + [Absorb(NewNode(list, path, input.name), input)]
  }

  function MergeAll(list: seq<Node>, path: seq<nat>, inputs: seq<Input>): seq<Node>
    decreases inputs, 0
  {
    if inputs == [] then list
    else MergeOne(MergeAll(list, path, inputs[..|inputs| - 1]), path, inputs[|inputs| - 1])
  }

  /** The list that `InitGQL` hands to the resolvers. */
  function Merged(vault: seq<Input>, templates: seq<Input>): seq<Node> {
    MergeAll([], [], vault + templates)
  }

  // ----- Unique names and ids that are positions -----

  /** Sibling names are unique at every level. */
  ghost predicate Unique(list: seq<Node>) {
    && (forall i, j :: 0 <= i < j < |list| ==> list[i].name != list[j].name)
    && (forall n :: n in list ==> Unique(n.kids))
  }

  /** Every id is the position in the parent's list, every path the positions of the ancestors. */
  ghost predicate Placed(list: seq<Node>, path: seq<nat>) {
    forall i :: 0 <= i < |list| ==> PlacedAt(list[i], path, i)
  }

  ghost predicate PlacedAt(node: Node, path: seq<nat>, i: nat) {
    && node.id == i && node.path == path
    && Placed(node.kids, path + [i])
    && forall j :: 0 <= j < |node.values| ==> node.values[j].id == j && node.values[j].path == path + [i]
  }

  lemma {:induction false} MergeAllUnique(list: seq<Node>, path: seq<nat>, inputs: seq<Input>)
    requires Unique(list)
    ensures Unique(MergeAll(list, path, inputs))
    decreases inputs, 0
  {
    if inputs != [] {
      MergeAllUnique(list, path, inputs[..|inputs| - 1]);
      MergeOneUnique(MergeAll(list, path, inputs[..|inputs| - 1]), path, inputs[|inputs| - 1]);
    }
  }

  lemma {:induction false} MergeOneUnique(list: seq<Node>, path: seq<nat>, input: Input)
    requires Unique(list)
    ensures Unique(MergeOne(list, path, input))
    decreases input, 1
  {
    var i := Find(list, input.name);
    if i < |list| {
      MergeAllUnique(list[i].kids, list[i].path + [list[i].id], input.kids);
    } else {
      MergeAllUnique([], path + [|list|], input.kids);
    }
  }

  lemma {:induction false} MergeAllPlaced(list: seq<Node>, path: seq<nat>, inputs: seq<Input>)
    requires Placed(list, path)
    ensures Placed(MergeAll(list, path, inputs), path)
    decreases inputs, 0
  {
    if inputs != [] {
      MergeAllPlaced(list, path, inputs[..|inputs| - 1]);
      MergeOnePlaced(MergeAll(list, path, inputs[..|inputs| - 1]), path, inputs[|inputs| - 1]);
    }
  }

  lemma {:induction false} MergeOnePlaced(list: seq<Node>, path: seq<nat>, input: Input)
    requires Placed(list, path)
    ensures Placed(MergeOne(list, path, input), path)
    decreases input, 1
  {
    var i := Find(list, input.name);
    var node := if i < |list| then list[i] else NewNode(list, path, input.name);
    assert PlacedAt(node, path, i);
    MergeAllPlaced(node.kids, path + [i], input.kids);
    assert PlacedAt(Absorb(node, input), path, i);
  }

  // ----- Nothing is lost and nothing is added -----

  /** All values that the inputs give for a path of names, in input order. */
  function Given(inputs: seq<Input>, names: seq<string>): seq<Payload>
    decreases |names|, |inputs|
  {
    if inputs == [] || names == [] then []
    else
      var last := inputs[|inputs| - 1];
      Given(inputs[..|inputs| - 1], names) +
      (if last.name != names[0] then [] else if |names| == 1 then last.values else Given(last.kids, names[1..]))
  }

  function Payloads(values: seq<Value>): seq<Payload> {
    seq(|values|, i requires 0 <= i < |values| => values[i].payload)
  }

  /** The values that the merged tree holds under a path of names. */
  function Held(list: seq<Node>, names: seq<string>): seq<Payload>
    decreases |names|
  {
    if names == [] then []
    else
      var i := Find(list, names[0]);
      if i == |list| then [] else if |names| == 1 then Payloads(list[i].values) else Held(list[i].kids, names[1..])
  }

  ghost predicate InputHas(inputs: seq<Input>, names: seq<string>)
    decreases |names|
  {
    names == [] || exists k :: 0 <= k < |inputs| && inputs[k].name == names[0] && InputHas(inputs[k].kids, names[1..])
  }

  ghost predicate TreeHas(list: seq<Node>, names: seq<string>)
    decreases |names|
  {
    names == [] || (var i := Find(list, names[0]); i < |list| && TreeHas(list[i].kids, names[1..]))
  }

  lemma {:induction false} FindUpdated(list: seq<Node>, i: nat, node: Node, name: string)
    requires i < |list| && node.name == list[i].name
    ensures Find(list[i := node], name) == Find(list, name)
  {
    var a, b := Find(list[i := node], name), Find(list, name);
    assert forall j :: 0 <= j < |list| ==> list[i := node][j].name == list[j].name;
  }

  lemma {:induction false} FindAppended(list: seq<Node>, node: Node, name: string)
    requires Find(list, node.name) == |list|
    ensures Find(list + [node], name) == if name == node.name then |list| else if Find(list, name) < |list| then Find(list, name) else |list| + 1
  {
    var a, b := Find(list + [node], name), Find(list, name);
    assert forall j :: 0 <= j < |list| ==> (list + [node])[j] == list[j];
    assert (list + [node])[|list|] == node;
    assert b < |list| ==> (list + [node])[b].name == name;
  }

  /** What a list holds after one input: the values it held, then those of the input. */
  lemma {:induction false} MergeOneHolds(list: seq<Node>, path: seq<nat>, input: Input, names: seq<string>)
    ensures Held(MergeOne(list, path, input), names) == Held(list, names) + Given([input], names)
    decreases |names|, 1, 0
  {
    if names == [] { return; }
    var i := Find(list, input.name);
    assert [input][..0] == [];
    assert Given([input][..0], names) == [];
    if i < |list| {
      FindUpdated(list, i, Absorb(list[i], input), names[0]);
    } else {
      FindAppended(list, Absorb(NewNode(list, path, input.name), input), names[0]);
    }
    if input.name == names[0] {
      var node := if i < |list| then list[i] else NewNode(list, path, input.name);
      AbsorbHolds(node, input, names);
    }
  }

  lemma {:induction false} AbsorbHolds(node: Node, input: Input, names: seq<string>)
    requires names != []
    ensures |names| == 1 ==> Payloads(Absorb(node, input).values) == Payloads(node.values) + input.values
    ensures |names| > 1 ==> Held(Absorb(node, input).kids, names[1..]) == Held(node.kids, names[1..]) + Given(input.kids, names[1..])
    decreases |names|, 0, 0
  {
    if |names| > 1 {
      MergeAllHolds(node.kids, node.path + [node.id], input.kids, names[1..]);
    }
  }

  lemma {:induction false} MergeAllHolds(list: seq<Node>, path: seq<nat>, inputs: seq<Input>, names: seq<string>)
    ensures Held(MergeAll(list, path, inputs), names) == Held(list, names) + Given(inputs, names)
    decreases |names|, 2, |inputs|
  {
    if inputs != [] && names != [] {
      var most, last := inputs[..|inputs| - 1], inputs[|inputs| - 1];
      MergeAllHolds(list, path, most, names);
      MergeOneHolds(MergeAll(list, path, most), path, last, names);
      assert [last][..0] == [];
      assert Given([last][..0], names) == [];
      assert Given(inputs, names) == Given(most, names) + Given([last], names);
    }
  }

  lemma {:induction false} MergeOneHas(list: seq<Node>, path: seq<nat>, input: Input, names: seq<string>)
    requires names != []
    ensures TreeHas(MergeOne(list, path, input), names) <==> TreeHas(list, names) || InputHas([input], names)
    decreases |names|, 0, 0
  {
    var i := Find(list, input.name);
    assert InputHas([input], names) <==> input.name == names[0] && InputHas(input.kids, names[1..]) by {
      assert [input][0] == input;
    }
    if i < |list| {
      FindUpdated(list, i, Absorb(list[i], input), names[0]);
    } else {
      FindAppended(list, Absorb(NewNode(list, path, input.name), input), names[0]);
    }
    if input.name == names[0] {
      var node := if i < |list| then list[i] else NewNode(list, path, input.name);
      MergeAllHas(node.kids, node.path + [node.id], input.kids, names[1..]);
    }
  }

  lemma {:induction false} MergeAllHas(list: seq<Node>, path: seq<nat>, inputs: seq<Input>, names: seq<string>)
    ensures TreeHas(MergeAll(list, path, inputs), names) <==> TreeHas(list, names) || InputHas(inputs, names)
    decreases |names|, 1, |inputs|
  {
    if inputs != [] && names != [] {
      var most, last := inputs[..|inputs| - 1], inputs[|inputs| - 1];
      MergeAllHas(list, path, most, names);
      MergeOneHas(MergeAll(list, path, most), path, last, names);
      InputHasSplit(most, last, names);
      assert most + [last] == inputs;
    }
  }

  lemma InputHasSplit(most: seq<Input>, last: Input, names: seq<string>)
    requires names != []
    ensures InputHas(most + [last], names) <==> InputHas(most, names) || InputHas([last], names)
  {
    var all := most + [last];
    if InputHas(most, names) {
      var k :| 0 <= k < |most| && most[k].name == names[0] && InputHas(most[k].kids, names[1..]);
      assert all[k] == most[k];
    }
    if InputHas([last], names) {
      assert [last][0] == last && all[|most|] == last;
    }
    if InputHas(all, names) {
      var k :| 0 <= k < |all| && all[k].name == names[0] && InputHas(all[k].kids, names[1..]);
      if k < |most| { assert most[k] == all[k]; } else { assert [last][0] == all[k]; }
    }
  }

  /** The merge conserves data: names are unique, ids are positions, the tree has exactly the paths
    that were given, and each file's values are all values given for its path, in input order. */
  lemma {:induction false} MergeConserves(vault: seq<Input>, templates: seq<Input>, names: seq<string>)
    ensures Unique(Merged(vault, templates)) && Placed(Merged(vault, templates), [])
    ensures TreeHas(Merged(vault, templates), names) <==> names == [] || InputHas(vault + templates, names)
    ensures Held(Merged(vault, templates), names) == Given(vault + templates, names)
  {
    MergeAllUnique([], [], vault + templates);
    MergeAllPlaced([], [], vault + templates);
    MergeAllHas([], [], vault + templates, names);
    MergeAllHolds([], [], vault + templates, names);
    assert Held([], names) + Given(vault + templates, names) == Given(vault + templates, names);
  }

  // ----- Resolvers -----

  predicate InBounds(list: seq<Node>, position: seq<nat>)
    decreases |position|
  {
    && position != [] && position[0] < |list|
    && (|position| > 1 ==> InBounds(list[position[0]].kids, position[1..]))
  }

  /** `vaultQL.Envs[env].Projects[proj]...`: the chained lookup by positions. */
  function Lookup(list: seq<Node>, position: seq<nat>): Node
    requires InBounds(list, position)
    decreases |position|
  {
    if |position| == 1 then list[position[0]] else Lookup(list[position[0]].kids, position[1..])
  }

  /** A resolver is handed a node somewhere in the tree and takes the ids in it as positions: they are
    the node's own position, so the lookup is in bounds and finds it. The same holds for its values. */
  lemma {:induction false} IdsArePositions(list: seq<Node>, path: seq<nat>, position: seq<nat>)
    requires Placed(list, path) && InBounds(list, position)
    ensures
      var node := Lookup(list, position);
      && node.path + [node.id] == path + position
      && forall j :: 0 <= j < |node.values| ==> node.values[j].path == path + position && node.values[j].id == j
    decreases |position|
  {
    assert PlacedAt(list[position[0]], path, position[0]);
    if |position| == 1 {
      assert position == [position[0]];
    } else {
      IdsArePositions(list[position[0]].kids, path + [position[0]], position[1..]);
      assert path + [position[0]] + position[1..] == path + position;
    }
  }

  lemma ResolversFindTheirNode(vault: seq<Input>, templates: seq<Input>, position: seq<nat>)
    requires InBounds(Merged(vault, templates), position)
    ensures
      var tree := Merged(vault, templates);
      var node := Lookup(tree, position);
      && InBounds(tree, node.path + [node.id]) && Lookup(tree, node.path + [node.id]) == node
      && forall j :: 0 <= j < |node.values| ==>
           var v := node.values[j];
           InBounds(tree, v.path) && v.id < |Lookup(tree, v.path).values| && Lookup(tree, v.path).values[v.id] == v
  {
    MergeAllPlaced([], [], vault + templates);
    IdsArePositions(Merged(vault, templates), [], position);
    assert [] + position == position;
  }

  /** The resolvers' filter by name: the first match, or the whole list and an error. */
  datatype Found = Found(nodes: seq<Node>, missing: bool)

  function FilterByName(list: seq<Node>, name: string): Found {
    var i := Find(list, name);
    if i < |list| then Found([list[i]], false) else Found(list, true)
  }

  /** In the merged tree a filter by name is complete: what it leaves out has another name, and what
    it returns holds all values given for that name. */
  lemma FilterIsComplete(list: seq<Node>, name: string)
    requires Unique(list)
    ensures
      var f := FilterByName(list, name);
      if f.missing then forall n :: n in list ==> n.name != name
      else |f.nodes| == 1 && forall n :: n in list && n.name == name ==> n == f.nodes[0]
  {
  }
}
