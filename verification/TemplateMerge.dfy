/** `MergeMaps` as the program runs it: the first tree's maps are updated in place, and whole
  branches of the second are shared rather than copied. */
module TemplateMerge {
  import opened TemplateTree

  datatype Ref = Text(text: string) | Nil | Mapping(node: MapNode)

  /** For each key the nodes reachable through its entry. */
  type Parts = map<string, set<MapNode>>

  ghost function Part(parts: Parts, k: string): set<MapNode> {
    if k in parts then parts[k] else {}
  }

  /** The parts lie below a node and apart from each other. */
  ghost predicate Split(parts: Parts, repr: set<MapNode>, self: MapNode) {
    && self in repr
    && (forall k :: k in parts ==> parts[k] < repr && self !in parts[k])
    && (forall j, k :: j in parts && k in parts && j != k ==> parts[j] !! parts[k])
  }

  ghost predicate Clear(parts: Parts, nodes: set<MapNode>) {
    forall k :: k in parts ==> parts[k] !! nodes
  }

  /** Every part has only nodes that it had in one of the other two. */
  ghost predicate Bounded(parts: Parts, before: Parts, more: Parts) {
    forall k :: k in parts ==> parts[k] <= Part(before, k) + Part(more, k)
  }

  lemma SplitPut(parts: Parts, repr: set<MapNode>, self: MapNode, k: string, part: set<MapNode>)
    requires Split(parts, repr, self) && Clear(parts, part - Part(parts, k)) && part < repr && self !in part
    ensures Split(parts[k := part], repr, self)
  {
    forall j | j in parts && j != k ensures parts[j] !! part {
      assert parts[j] !! part - Part(parts, k) && parts[j] !! Part(parts, k);
    }
  }

  lemma SplitAll(parts: Parts, repr: set<MapNode>, self: MapNode)
    requires Split(parts, repr, self)
    ensures self !in AllBelow(parts) && AllBelow(parts) < repr
  {
  }

  lemma SplitLess(parts: Parts, repr: set<MapNode>, self: MapNode, k: string)
    requires Split(parts, repr, self) && k in parts
    ensures AllBelow(parts - {k}) <= repr - parts[k] && self !in AllBelow(parts) && parts[k] <= AllBelow(parts)
  {
  }

  lemma SplitGrow(parts: Parts, repr: set<MapNode>, self: MapNode, more: set<MapNode>)
    requires Split(parts, repr, self)
    ensures Split(parts, repr + more, self)
  {
  }

  lemma BoundedClear(parts: Parts, before: Parts, more: Parts, todo: set<string>, k: string, repr: set<MapNode>, self: MapNode, repr2: set<MapNode>, self2: MapNode)
    requires Bounded(parts, before, more - todo) && k in todo && k in more
    requires Split(before, repr, self) && Split(more, repr2, self2) && repr !! repr2
    ensures Clear(parts, more[k]) && Part(parts, k) <= repr && more[k] < repr + repr2 && self !in more[k]
  {
    forall j | j in parts ensures parts[j] !! more[k] {
      assert Part(before, j) <= repr;
      assert Part(more - todo, j) !! more[k];
    }
    assert k in parts ==> parts[k] <= Part(before, k) + Part(more - todo, k);
  }

  lemma BoundedStep(parts: Parts, before: Parts, more: Parts, todo: set<string>, k: string, part: set<MapNode>)
    requires Bounded(parts, before, more - todo) && k in todo && k in more && part <= Part(parts, k) + more[k]
    ensures Bounded(parts[k := part], before, more - (todo - {k}))
  {
    forall j | j in parts[k := part] ensures parts[k := part][j] <= Part(before, j) + Part(more - (todo - {k}), j) {
      assert j in parts ==> parts[j] <= Part(before, j) + Part(more - todo, j);
    }
  }

  /** The nodes reachable through the reference are `part` and their value is `tree`. */
  ghost predicate Stands(r: Ref, tree: Tree, part: set<MapNode>)
    reads part
    decreases part, 1
  {
    match r
    case Text(s) => tree == Leaf(s) && part == {}
    case Nil => tree == Null && part == {}
    case Mapping(n) => n in part && n.Repr == part && n.Abs == tree && n.Valid()
  }

  ghost function AllBelow(parts: Parts): set<MapNode> {
    set k, n | k in parts && n in parts[k] :: n
  }

  ghost predicate StandAll(entries: map<string, Ref>, trees: map<string, Tree>, parts: Parts)
    requires entries.Keys == trees.Keys == parts.Keys
    reads AllBelow(parts)
    decreases AllBelow(parts), 2
  {
    forall k :: k in entries ==> parts[k] <= AllBelow(parts) && Stands(entries[k], trees[k], parts[k])
  }

  lemma StandAllPut(entries: map<string, Ref>, trees: map<string, Tree>, parts: Parts, k: string, r: Ref, t: Tree, part: set<MapNode>)
    requires entries.Keys == trees.Keys == parts.Keys
    requires StandAll(entries - {k}, trees - {k}, parts - {k}) && Stands(r, t, part)
    ensures StandAll(entries[k := r], trees[k := t], parts[k := part])
  {
    hide Stands;
    var es, ts, ps := entries[k := r], trees[k := t], parts[k := part];
    forall j | j in es ensures ps[j] <= AllBelow(ps) && Stands(es[j], ts[j], ps[j]) {
      assert j != k ==> j in entries - {k};
    }
  }

  lemma StandAllLess(entries: map<string, Ref>, trees: map<string, Tree>, parts: Parts, k: string)
    requires entries.Keys == trees.Keys == parts.Keys && StandAll(entries, trees, parts)
    ensures StandAll(entries - {k}, trees - {k}, parts - {k})
    ensures k in entries ==> Stands(entries[k], trees[k], parts[k])
  {
    hide Stands;
    forall j | j in entries - {k} ensures (parts - {k})[j] <= AllBelow(parts - {k}) {
      assert (parts - {k})[j] == parts[j];
    }
  }

  lemma StandsMapping(n: MapNode, tree: Tree, part: set<MapNode>)
    ensures Stands(Mapping(n), tree, part) <==> n in part && n.Repr == part && n.Abs == tree && n.Valid()
  {
  }

  lemma StandsKind(r: Ref, tree: Tree, part: set<MapNode>)
    requires Stands(r, tree, part)
    ensures r.Text? == tree.Leaf? && r.Nil? == tree.Null? && r.Mapping? == tree.Node?
    ensures !r.Mapping? ==> part == {}
  {
  }

  class MapNode {
    var entries: map<string, Ref>
    ghost var Repr: set<MapNode>
    ghost var Below: Parts
    ghost var Abs: Tree

    ghost predicate Valid()
      reads this, Repr
      decreases Repr, 0
    {
      && Abs.Node? && Abs.entries.Keys == entries.Keys == Below.Keys
      && Split(Below, Repr, this)
      && AllBelow(Below) < Repr
      && StandAll(entries, Abs.entries, Below)
    }

    method Absorb(that: MapNode)
      requires Valid() && that.Valid() && Repr !! that.Repr
      modifies Repr
      ensures Valid() && Abs == Union(old(Abs), that.Abs)
      ensures Repr == old(Repr) + that.Repr
      ensures forall k :: k in that.entries && k !in old(entries) ==> k in entries && entries[k] == that.entries[k]
      decreases that.Abs, 0
    {
      hide Union, Stands, StandAll, AllBelow, Split, Bounded, Clear, Shares;
      var todo := that.entries.Keys;
      ghost var before := Abs;
      SplitHas(Below, Repr, this);
      SplitHas(that.Below, that.Repr, that);
      SplitAll(Below, Repr, this);
      SplitGrow(Below, Repr, this, that.Repr);
      Repr := Repr + that.Repr;
      UnionStart(before, that.Abs);
      BoundedStart(Below, that.Below);
      SharesStart(entries, that.entries);
      while todo != {}
        invariant todo <= that.entries.Keys
        invariant Repr == old(Repr) + that.Repr
        invariant Valid() && that.Valid()
        invariant Bounded(Below, old(Below), that.Below - todo)
        invariant Abs == Union(before, Node(that.Abs.entries - todo))
        invariant Shares(entries, old(entries), that.entries - todo)
      {
        var k :| k in todo;
        UnionStep(before, that.Abs, todo, k);
        BoundedClear(Below, old(Below), that.Below, todo, k, old(Repr), this, that.Repr, that);
        ghost var below, had := Below, entries;
        StandAllLess(that.entries, that.Abs.entries, that.Below, k);
        AbsorbEntry(k, that.entries[k], that.Abs.entries[k], that.Below[k]);
        BoundedStep(below, old(Below), that.Below, todo, k, Below[k]);
        SharesStep(had, old(entries), that.entries, todo, k, entries[k]);
        todo := todo - {k};
      }
      assert that.entries - todo == that.entries;
      SharesAll(entries, old(entries), that.entries);
      assert that.Abs.entries - todo == that.Abs.entries;
    }

    /** One entry of the second map, none of whose nodes is in use here yet. */
    method AbsorbEntry(k: string, v2: Ref, ghost t2: Tree, ghost p2: set<MapNode>)
      requires Valid() && Stands(v2, t2, p2) && p2 < Repr && this !in p2 && Clear(Below, p2)
      modifies this, Part(Below, k)
      ensures Valid() && Repr == old(Repr)
      ensures k in entries && entries == old(entries)[k := entries[k]]
      ensures k in Below && Below == old(Below)[k := Below[k]] && Below[k] <= Part(old(Below), k) + p2
      ensures k !in old(entries) ==> entries[k] == v2
      ensures Abs == Node(old(Abs).entries[k := if k in old(entries) then Union(old(Abs).entries[k], t2) else t2])
      decreases t2, 2
    {
      hide Union, Stands, StandAll, AllBelow, Split, Clear;
      if k !in entries {
        PutEntry(k, v2, t2, p2);
      } else {
        StandAllLess(entries, Abs.entries, Below, k);
        UnionCases(Abs.entries[k], t2);
        StandsKind(entries[k], Abs.entries[k], Below[k]);
        StandsKind(v2, t2, p2);
        if entries[k].Mapping? && v2.Mapping? {
          AbsorbBelow(k, v2.node, t2, p2);
        } else if entries[k].Nil? && v2.Mapping? {
          PutEntry(k, v2, t2, p2);
        } else {
          assert Abs.entries == Abs.entries[k := Abs.entries[k]];
          assert entries == entries[k := entries[k]] && Below == Below[k := Below[k]];
        }
      }
    }

    method PutEntry(k: string, v2: Ref, ghost t2: Tree, ghost p2: set<MapNode>)
      requires Valid() && Stands(v2, t2, p2) && p2 < Repr && this !in p2 && Clear(Below, p2)
      modifies this
      ensures Valid() && Repr == old(Repr)
      ensures entries == old(entries)[k := v2] && Below == old(Below)[k := p2] && Abs == Node(old(Abs).entries[k := t2])
    {
      hide Stands, StandAll, AllBelow, Split, Clear;
      ClearLess(Below, p2, k);
      SplitPut(Below, Repr, this, k, p2);
      SplitAll(Below, Repr, this);
      SplitAll(Below[k := p2], Repr, this);
      entries := entries[k := v2];
      Abs := Node(Abs.entries[k := t2]);
      Below := Below[k := p2];
      StandAllLess(old(entries), old(Abs.entries), old(Below), k);
      StandAllPut(old(entries), old(Abs.entries), old(Below), k, v2, t2, p2);
    }

    method AbsorbBelow(k: string, v2: MapNode, ghost t2: Tree, ghost p2: set<MapNode>)
      requires Valid() && Stands(Mapping(v2), t2, p2) && p2 < Repr && this !in p2 && Clear(Below, p2)
      requires k in entries && entries[k].Mapping? && Stands(entries[k], Abs.entries[k], Below[k])
      modifies this, Part(Below, k)
      ensures Valid() && Repr == old(Repr) && entries == old(entries)
      ensures Below == old(Below)[k := old(Below)[k] + p2]
      ensures Abs == Node(old(Abs).entries[k := Union(old(Abs).entries[k], t2)])
      decreases t2, 1
    {
      hide Union, Stands, StandAll, AllBelow, Split, Clear;
      var v1 := entries[k].node;
      ghost var part := Below[k];
      ghost var es, ts, ps := entries - {k}, Abs.entries - {k}, Below - {k};
      StandsMapping(v1, Abs.entries[k], part);
      StandsMapping(v2, t2, p2);
      MayJoin(k, p2);
      v1.Absorb(v2);
      assert StandAll(es, ts, ps);
      StandsMapping(v1, v1.Abs, part + p2);
      StandAllPut(entries, Abs.entries, Below, k, entries[k], v1.Abs, part + p2);
      assert entries == entries[k := entries[k]];
      Abs := Node(Abs.entries[k := v1.Abs]);
      Below := Below[k := part + p2];
    }

    lemma MayJoin(k: string, nodes: set<MapNode>)
      requires Valid() && k in entries && nodes < Repr && this !in nodes && Clear(Below, nodes)
      ensures var below := Below[k := Below[k] + nodes]; Split(below, Repr, this) && AllBelow(below) < Repr
      ensures AllBelow(Below - {k}) <= Repr - Below[k] && this !in AllBelow(Below) && Below[k] <= AllBelow(Below)
      ensures this !in AllBelow(Below[k := Below[k] + nodes])
      ensures Below[k] !! nodes && StandAll(entries - {k}, Abs.entries - {k}, Below - {k})
    {
      hide Stands, StandAll, AllBelow, Split, Clear;
      StandAllLess(entries, Abs.entries, Below, k);
      ClearAt(Below, nodes, k);
      SplitJoin(Below, Repr, this, k, nodes);
      SplitLess(Below, Repr, this, k);
      SplitAll(Below[k := Below[k] + nodes], Repr, this);
    }

    lemma Rooted()
      requires Valid()
      ensures this in Repr
    {
    }

    /** Merges the templates of all results into this one, in the order of their arrival. */
    method CombineSection(sections: seq<Ref>, ghost trees: seq<Tree>, ghost parts: seq<set<MapNode>>)
      requires Valid() && |trees| == |parts| == |sections|
      requires forall i :: 0 <= i < |sections| ==> Stands(sections[i], trees[i], parts[i])
      requires forall i :: 0 <= i < |parts| ==> Repr !! parts[i]
      requires forall i, j :: 0 <= i < j < |parts| ==> parts[i] !! parts[j]
      modifies Repr, Joined(parts)
      ensures Valid() && Abs == CombineTemplates(old(Abs), trees)
    {
      hide Union, Stands, Valid;
      for i := 0 to |sections|
        invariant Valid() && Abs == CombineTemplates(old(Abs), trees[..i])
        invariant Repr <= old(Repr) + Joined(parts)
        invariant forall j :: i <= j < |parts| ==> Repr !! parts[j]
        invariant forall j :: i <= j < |parts| ==> Stands(sections[j], trees[j], parts[j])
      {
        assert trees[..i + 1][..i] == trees[..i];
        Rooted();
        StandsMapping(this, Abs, Repr);
        ghost var tree := Union(Abs, trees[i]);
        var _, part := MergeMaps(Mapping(this), sections[i], Abs, trees[i], Repr, parts[i]);
        StandsMapping(this, tree, part);
      }
      assert trees[..|sections|] == trees;
    }
  }

  ghost function Joined(parts: seq<set<MapNode>>): set<MapNode> {
    set i, n | 0 <= i < |parts| && n in parts[i] :: n
  }

  /** Updates the first tree in place and gives the result, which is the second when the first is nil. */
  method MergeMaps(x1: Ref, x2: Ref, ghost t1: Tree, ghost t2: Tree, ghost p1: set<MapNode>, ghost p2: set<MapNode>)
    returns (r: Ref, ghost p: set<MapNode>)
    requires Stands(x1, t1, p1) && Stands(x2, t2, p2) && p1 !! p2
    modifies p1
    ensures Stands(r, Union(t1, t2), p) && p <= p1 + p2
    ensures r == if x1.Nil? && x2.Mapping? then x2 else x1
  {
    hide Union, Stands;
    UnionCases(t1, t2);
    StandsKind(x1, t1, p1);
    StandsKind(x2, t2, p2);
    r, p := x1, p1;
    if x1.Mapping? && x2.Mapping? {
      StandsMapping(x1.node, t1, p1);
      StandsMapping(x2.node, t2, p2);
      x1.node.Absorb(x2.node);
      p := p1 + p2;
      StandsMapping(x1.node, Union(t1, t2), p);
    } else if x1.Nil? && x2.Mapping? {
      r, p := x2, p2;
    }
  }

  lemma UnionCases(a: Tree, b: Tree)
    ensures !(a.Node? && b.Node?) ==> Union(a, b) == if a.Null? && b.Node? then b else a
  {
  }

  lemma UnionStart(a: Tree, b: Tree)
    requires a.Node? && b.Node?
    ensures b.entries - b.entries.Keys == map[]
    ensures Union(a, Node(map[])) == a
  {
    assert UnionEntries(a, Node(map[])) == a.entries;
  }

  lemma UnionStep(a: Tree, b: Tree, todo: set<string>, k: string)
    requires a.Node? && b.Node? && k in todo && todo <= b.entries.Keys
    ensures var u := Union(a, Node(b.entries - todo));
      u.Node? && (k in u.entries <==> k in a.entries) && (k in a.entries ==> u.entries[k] == a.entries[k]) &&
      Union(a, Node(b.entries - (todo - {k}))) ==
        Node(u.entries[k := if k in a.entries then Union(a.entries[k], b.entries[k]) else b.entries[k]])
  {
    var u, v := UnionEntries(a, Node(b.entries - todo)), UnionEntries(a, Node(b.entries - (todo - {k})));
    assert v.Keys == u.Keys + {k};
    assert v == u[k := v[k]];
  }

  /** Of the new keys that are done each has the very reference of the other map. */
  predicate Shares(entries: map<string, Ref>, before: map<string, Ref>, more: map<string, Ref>) {
    && entries.Keys == before.Keys + more.Keys
    && forall k :: k in more && k !in before ==> entries[k] == more[k]
  }

  lemma SharesStart(entries: map<string, Ref>, more: map<string, Ref>)
    ensures Shares(entries, entries, more - more.Keys)
  {
  }

  lemma SharesStep(entries: map<string, Ref>, before: map<string, Ref>, more: map<string, Ref>, todo: set<string>, k: string, r: Ref)
    requires Shares(entries, before, more - todo) && k in todo && k in more && (k in entries || r == more[k])
    ensures Shares(entries[k := r], before, more - (todo - {k}))
  {
  }

  lemma SharesAll(entries: map<string, Ref>, before: map<string, Ref>, more: map<string, Ref>)
    requires Shares(entries, before, more)
    ensures forall k :: k in more && k !in before ==> k in entries && entries[k] == more[k]
  {
  }

  lemma BoundedStart(parts: Parts, more: Parts)
    ensures Bounded(parts, parts, more - more.Keys)
  {
  }

  lemma ClearLess(parts: Parts, nodes: set<MapNode>, k: string)
    requires Clear(parts, nodes)
    ensures Clear(parts, nodes - Part(parts, k))
  {
  }

  lemma ClearAt(parts: Parts, nodes: set<MapNode>, k: string)
    requires Clear(parts, nodes) && k in parts
    ensures parts[k] !! nodes
  {
  }

  lemma SplitHas(parts: Parts, repr: set<MapNode>, self: MapNode)
    requires Split(parts, repr, self)
    ensures self in repr
  {
  }

  lemma SplitJoin(parts: Parts, repr: set<MapNode>, self: MapNode, k: string, nodes: set<MapNode>)
    requires Split(parts, repr, self) && Clear(parts, nodes) && k in parts && nodes < repr && self !in nodes
    ensures Split(parts[k := parts[k] + nodes], repr, self)
    ensures forall j :: j in parts ==> self !in parts[j] && (j != k ==> parts[j] !! parts[k])
  {
    assert self !in parts[k] + nodes;
  }
}
