/** The nested loops of `InitGQL`: lists are extended and rewritten while an index of visited names
  says where each name is. */
module GraphMerge {
  import opened GraphTree

  /** The index knows exactly the names in the list, at the positions that a search finds. */
  ghost predicate Agrees(index: map<string, Visited>, list: seq<Node>)
    decreases list
  {
    && (forall name :: name in index <==> Find(list, name) < |list|)
    && (forall name :: name in index ==>
         index[name].index == Find(list, name) && Agrees(index[name].children, list[Find(list, name)].kids))
  }

  lemma NothingVisited()
    ensures Agrees(map[], [])
  {
  }

  /** Rewriting the visited node and its children's index keeps the agreement. */
  lemma AgreesUpdated(index: map<string, Visited>, list: seq<Node>, node: Node, children: map<string, Visited>)
    requires Agrees(index, list) && node.name in index && Agrees(children, node.kids)
    ensures
      var i := index[node.name].index;
      i < |list| && Agrees(index[node.name := Visited(i, children)], list[i := node])
  {
    var i := index[node.name].index;
    forall name ensures Find(list[i := node], name) == Find(list, name) { FindUpdated(list, i, node, name); }
    var list' := list[i := node];
    forall name | name in index ensures name != node.name ==> list'[Find(list', name)] == list[Find(list, name)] {}
  }

  /** So does appending a node with a new name. */
  lemma AgreesAppended(index: map<string, Visited>, list: seq<Node>, node: Node, children: map<string, Visited>)
    requires Agrees(index, list) && node.name !in index && Agrees(children, node.kids)
    ensures Agrees(index[node.name := Visited(|list|, children)], list + [node])
  {
    forall name
      ensures Find(list + [node], name) == if name == node.name then |list| else if Find(list, name) < |list| then Find(list, name) else |list| + 1
    {
      FindAppended(list, node, name);
    }
  }

  /** The loop over the values of a file: each gets the next position as its id. */
  method AppendValues(values: seq<Value>, path: seq<nat>, more: seq<Payload>) returns (r: seq<Value>)
    ensures r == AddValues(values, path, more)
  {
    r := values;
    for k := 0 to |more|
      invariant r == AddValues(values, path, more[..k])
    {
      r := r + [Value(|r|, path, more[k])];
    }
    assert more[..|more|] == more;
  }

  /** One of the nested loops: merges a list of inputs into the children of one parent. */
  method MergeLevel(list0: seq<Node>, index0: map<string, Visited>, path: seq<nat>, inputs: seq<Input>)
    returns (list: seq<Node>, index: map<string, Visited>)
    requires Agrees(index0, list0)
    ensures list == MergeAll(list0, path, inputs) && Agrees(index, list)
    decreases inputs
  {
    list, index := list0, index0;
    for k := 0 to |inputs|
      invariant list == MergeAll(list0, path, inputs[..k]) && Agrees(index, list)
    {
      var input := inputs[k];
      ghost var before := list;
      var isNew := input.name !in index;
      var i := if isNew then |list| else index[input.name].index;
      var node := if isNew then NewNode(list, path, input.name) else list[i];
      var visited := if isNew then map[] else index[input.name].children;
      var kids, children := MergeLevel(node.kids, visited, node.path + [node.id], input.kids);
      var values := AppendValues(node.values, node.path + [node.id], input.values);
      var merged := node.(kids := kids, values := values);
      if isNew {
        AgreesAppended(index, list, merged, children);
        list := list + [merged];
      } else {
        AgreesUpdated(index, list, merged, children);
        list := list[i := merged];
      }
      index := index[input.name := Visited(i, children)];
      assert list == MergeOne(before, path, input);
      assert inputs[..k + 1][..k] == inputs[..k];
    }
    assert inputs[..|inputs|] == inputs;
  }

  /** The merge of both sources, and the index that was built on the way. */
  method InitGQL(vault: seq<Input>, templates: seq<Input>) returns (envList: seq<Node>, envIndices: map<string, Visited>)
    ensures envList == Merged(vault, templates) && Agrees(envIndices, envList)
  {
    NothingVisited();
    envList, envIndices := MergeLevel([], map[], [], vault + templates);
  }
}
