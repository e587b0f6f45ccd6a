/** The template section of a seed: `MergeMaps` as a left-biased deep union. */
module TemplateTree {
  import opened Common
  import opened ArrivalOrder

  /** A YAML value: text, nil, or a mapping. */
  datatype Tree = Leaf(text: string) | Null | Node(entries: map<string, Tree>)

  function Union(a: Tree, b: Tree): Tree
    decreases a
  {
    match a
    case Leaf(_) => a
    case Null => if b.Node? then b else a
    case Node(m) => if b.Node? then Node(UnionEntries(a, b)) else a
  }

  function UnionEntries(a: Tree, b: Tree): map<string, Tree>
    requires a.Node? && b.Node?
    decreases a, 0
  {
    map k | k in a.entries.Keys + b.entries.Keys ::
      if k !in a.entries then b.entries[k]
      else if k !in b.entries then a.entries[k]
      else Union(a.entries[k], b.entries[k])
  }

  // ----- The first tree to define a path wins, and no leaf is invented -----

  function LeafAt(t: Tree, path: seq<string>): Option<string>
    decreases |path|
  {
    if path == [] then (if t.Leaf? then Some(t.text) else None)
    else if t.Node? && path[0] in t.entries then LeafAt(t.entries[path[0]], path[1..])
    else None
  }

  /** The tree has something at the path, or a leaf above it, that the other tree cannot replace. */
  predicate Defines(t: Tree, path: seq<string>)
    decreases |path|
  {
    match t
    case Leaf(_) => true
    case Null => path == []
    case Node(m) => path == [] || (path[0] in m && Defines(m[path[0]], path[1..]))
  }

  lemma {:induction false} FirstWins(a: Tree, b: Tree, path: seq<string>)
    ensures LeafAt(Union(a, b), path) == if Defines(a, path) then LeafAt(a, path) else LeafAt(b, path)
    ensures LeafAt(a, path).Some? ==> Defines(a, path)
    decreases |path|
  {
    if path != [] && a.Node? && path[0] in a.entries {
      FirstWins(a.entries[path[0]], if b.Node? && path[0] in b.entries then b.entries[path[0]] else Null, path[1..]);
    }
  }

  // ----- When the union is associative -----

  /** Adding `b` to `a` changes nothing. */
  predicate Absorbs(a: Tree, b: Tree)
    decreases a
  {
    match a
    case Leaf(_) => true
    case Null => !b.Node?
    case Node(m) =>
      b.Node? ==> forall k :: k in b.entries ==> k in m && Absorbs(m[k], b.entries[k])
  }

  lemma {:induction false} AbsorbsExactly(a: Tree, b: Tree)
    ensures Union(a, b) == a <==> Absorbs(a, b)
    decreases a
  {
    if a.Node? && b.Node? {
      var u := UnionEntries(a, b);
      forall k | k in a.entries && k in b.entries ensures u[k] == a.entries[k] <==> Absorbs(a.entries[k], b.entries[k]) {
        AbsorbsExactly(a.entries[k], b.entries[k]);
      }
      if Absorbs(a, b) {
        assert u.Keys == a.entries.Keys;
        assert u == a.entries;
      }
      if Union(a, b) == a {
        assert u == a.entries;
        forall k | k in b.entries ensures k in a.entries && Absorbs(a.entries[k], b.entries[k]) {
          assert k in u;
        }
      }
    }
  }

  /** The shapes of three trees fit: where the second hides the third, the third adds nothing to the first. */
  predicate Aligned(a: Tree, b: Tree, c: Tree)
    decreases a
  {
    match a
    case Leaf(_) => true
    case Null => b.Leaf? ==> !c.Node?
    case Node(m) =>
      match b
      case Leaf(_) => Absorbs(a, c)
      case Null => true
      case Node(n) =>
        c.Node? ==> forall k :: k in m && k in n && k in c.entries ==> Aligned(m[k], n[k], c.entries[k])
  }

  /** Folding is associative exactly on trees whose shapes fit. */
  lemma {:induction false} UnionAssociates(a: Tree, b: Tree, c: Tree)
    ensures Union(Union(a, b), c) == Union(a, Union(b, c)) <==> Aligned(a, b, c)
    decreases a
  {
    if a.Node? && b.Leaf? {
      AbsorbsExactly(a, c);
    } else if a.Node? && b.Node? && c.Node? {
      var ab, bc := UnionEntries(a, b), UnionEntries(b, c);
      var l, r := UnionEntries(Node(ab), c), UnionEntries(a, Node(bc));
      assert l.Keys == a.entries.Keys + b.entries.Keys + c.entries.Keys == r.Keys;
      forall k | k in a.entries && k in b.entries && k in c.entries
        ensures l[k] == r[k] <==> Aligned(a.entries[k], b.entries[k], c.entries[k])
      {
        UnionAssociates(a.entries[k], b.entries[k], c.entries[k]);
      }
      if Aligned(a, b, c) {
        assert l == r;
      }
    }
  }

  // ----- When the order of two trees does not matter -----

  predicate Agree(a: Tree, b: Tree)
    decreases a
  {
    match a
    case Leaf(_) => a == b
    case Null => !b.Leaf?
    case Node(m) => !b.Leaf? && (b.Node? ==> forall k :: k in m && k in b.entries ==> Agree(m[k], b.entries[k]))
  }

  lemma {:induction false} UnionCommutes(a: Tree, b: Tree)
    ensures Union(a, b) == Union(b, a) <==> Agree(a, b)
    decreases a
  {
    if a.Node? && b.Node? {
      var l, r := UnionEntries(a, b), UnionEntries(b, a);
      forall k | k in a.entries && k in b.entries ensures l[k] == r[k] <==> Agree(a.entries[k], b.entries[k]) {
        UnionCommutes(a.entries[k], b.entries[k]);
      }
      assert l.Keys == r.Keys;
      if Agree(a, b) { assert l == r; }
    }
  }

  /** Two trees that agree can be merged into any third in either order. */
  lemma {:induction false} UnionsSwap(x: Tree, t: Tree, u: Tree)
    requires Agree(t, u)
    ensures Union(Union(x, t), u) == Union(Union(x, u), t)
    decreases x
  {
    UnionCommutes(t, u);
    if x.Node? && t.Node? && u.Node? {
      var xt, xu := UnionEntries(x, t), UnionEntries(x, u);
      var l, r := UnionEntries(Node(xt), u), UnionEntries(Node(xu), t);
      assert l.Keys == r.Keys;
      forall k | k in l ensures l[k] == r[k] {
        if k in t.entries && k in u.entries {
          UnionCommutes(t.entries[k], u.entries[k]);
          if k in x.entries { UnionsSwap(x.entries[k], t.entries[k], u.entries[k]); }
        }
      }
      assert l == r;
    }
  }

  // ----- The loop of CombineSection over template sections -----

  function CombineTemplates(base: Tree, sections: seq<Tree>): Tree {
    Fold(Union, base, sections)
  }

  ghost predicate AllAgree(sections: seq<Tree>) {
    forall t, u :: t in sections && u in sections ==> Agree(t, u)
  }

  /** The combined template does not depend on the order in which agreeing results arrive. */
  lemma AgreeingInAnyOrder(base: Tree, sections: seq<Tree>, arrived: seq<Tree>)
    requires AllAgree(sections) && multiset(arrived) == multiset(sections)
    ensures CombineTemplates(base, arrived) == CombineTemplates(base, sections)
  {
    forall x, t, u | t in sections && u in sections ensures Union(Union(x, t), u) == Union(Union(x, u), t) {
      UnionsSwap(x, t, u);
    }
    FoldPermuted(Union, base, sections, arrived);
  }

  /** Two trees differ at a leaf that no later tree can change. */
  predicate Clash(a: Tree, b: Tree)
    decreases a
  {
    || (a != b && (a.Leaf? || b.Leaf?))
    || (a.Node? && b.Node? && exists k :: k in a.entries && k in b.entries && Clash(a.entries[k], b.entries[k]))
  }

  lemma {:induction false} ClashStays(a: Tree, b: Tree, c: Tree)
    requires Clash(a, b)
    ensures Clash(Union(a, c), Union(b, c)) && a != b
    decreases a
  {
    if a.Node? && b.Node? {
      var k :| k in a.entries && k in b.entries && Clash(a.entries[k], b.entries[k]);
      if c.Node? {
        if k in c.entries {
          ClashStays(a.entries[k], b.entries[k], c.entries[k]);
        } else {
          ClashStays(a.entries[k], b.entries[k], Null);
          UnionNull(a.entries[k]);
          UnionNull(b.entries[k]);
        }
        var l, r := UnionEntries(a, c), UnionEntries(b, c);
        assert k in l && k in r && Clash(l[k], r[k]);
      } else {
        ClashStays(a.entries[k], b.entries[k], Null);
      }
    }
  }

  lemma UnionNull(a: Tree)
    ensures Union(a, Null) == a
  {
  }

  lemma {:induction false} DisagreementClashes(a: Tree, b: Tree)
    requires !Agree(a, b)
    ensures Clash(Union(a, b), Union(b, a))
    decreases a
  {
    if a.Node? && b.Node? {
      var k :| k in a.entries && k in b.entries && !Agree(a.entries[k], b.entries[k]);
      DisagreementClashes(a.entries[k], b.entries[k]);
      var l, r := UnionEntries(a, b), UnionEntries(b, a);
      assert k in l && k in r && Clash(l[k], r[k]);
    }
  }

  lemma {:induction false} ClashStaysInFold(a: Tree, b: Tree, rest: seq<Tree>)
    requires Clash(a, b)
    ensures Clash(CombineTemplates(a, rest), CombineTemplates(b, rest))
  {
    if rest != [] {
      ClashStaysInFold(a, b, rest[..|rest| - 1]);
      ClashStays(CombineTemplates(a, rest[..|rest| - 1]), CombineTemplates(b, rest[..|rest| - 1]), rest[|rest| - 1]);
    }
  }

  ghost predicate OrderIrrelevant(sections: seq<Tree>) {
    forall arrived :: multiset(arrived) == multiset(sections) ==>
      CombineTemplates(Node(map[]), arrived) == CombineTemplates(Node(map[]), sections)
  }

  /** The combined template is the same for every order of arrival exactly when all results agree. A
    result is a mapping, or nil if its template has no command. */
  lemma TemplateOrderIrrelevant(sections: seq<Tree>)
    requires forall t :: t in sections ==> !t.Leaf?
    ensures OrderIrrelevant(sections) <==> AllAgree(sections)
  {
    if AllAgree(sections) {
      forall arrived | multiset(arrived) == multiset(sections)
        ensures CombineTemplates(Node(map[]), arrived) == CombineTemplates(Node(map[]), sections)
      {
        AgreeingInAnyOrder(Node(map[]), sections, arrived);
      }
    } else {
      var t, u :| t in sections && u in sections && !Agree(t, u);
      OrderMatters(sections, t, u);
    }
  }

  lemma {:induction false} AgreeWithSelf(t: Tree)
    ensures Agree(t, t)
    decreases t
  {
    if t.Node? {
      forall k | k in t.entries ensures Agree(t.entries[k], t.entries[k]) {
        AgreeWithSelf(t.entries[k]);
      }
    }
  }

  lemma OrderMatters(sections: seq<Tree>, t: Tree, u: Tree)
    requires t in sections && u in sections && !t.Leaf? && !u.Leaf? && !Agree(t, u)
    ensures !OrderIrrelevant(sections)
  {
    hide Union, Fold;
    AgreeWithSelf(t);
    var rest := WithoutTwo(sections, t, u);
    FirstTwo(t, u, rest);
    FirstTwo(u, t, rest);
    DisagreementClashes(t, u);
    ClashStaysInFold(Union(t, u), Union(u, t), rest);
    ClashStays(CombineTemplates(Union(t, u), rest), CombineTemplates(Union(u, t), rest), Null);
    assert CombineTemplates(Node(map[]), [t, u] + rest) != CombineTemplates(Node(map[]), [u, t] + rest);
  }

  lemma FirstTwo(t: Tree, u: Tree, rest: seq<Tree>)
    requires t.Node? && u.Node?
    ensures CombineTemplates(Node(map[]), [t, u] + rest) == CombineTemplates(Union(t, u), rest)
  {
    FoldOfSplit(Union, Node(map[]), [t, u], rest);
    FoldOfSplit(Union, Node(map[]), [t], [u]);
    assert [t] + [u] == [t, u];
    FoldOfOne(Union, Node(map[]), t);
    FoldOfOne(Union, t, u);
    assert UnionEntries(Node(map[]), t) == t.entries;
  }

  /** Every leaf of the combined template is a leaf of the base or of one of the sections. */
  lemma {:induction false} CombinedLeaves(base: Tree, sections: seq<Tree>, path: seq<string>)
    requires LeafAt(CombineTemplates(base, sections), path).Some?
    ensures
      || LeafAt(base, path) == LeafAt(CombineTemplates(base, sections), path)
      || exists i :: 0 <= i < |sections| && LeafAt(sections[i], path) == LeafAt(CombineTemplates(base, sections), path)
    decreases |sections|
  {
    if sections != [] {
      var most, last := sections[..|sections| - 1], sections[|sections| - 1];
      FirstWins(CombineTemplates(base, most), last, path);
      if Defines(CombineTemplates(base, most), path) {
        CombinedLeaves(base, most, path);
        if i :| 0 <= i < |most| && LeafAt(most[i], path) == LeafAt(CombineTemplates(base, most), path) {
          assert sections[i] == most[i];
        }
      }
    }
  }
}
