/** Results of goroutines arrive in any order: a left fold gives the same for every order of its list
  when any two of its elements can be swapped. */
module ArrivalOrder {
  function Fold<S, T>(f: (S, T) -> S, s: S, ts: seq<T>): S {
    if ts == [] then s else f(Fold(f, s, ts[..|ts| - 1]), ts[|ts| - 1])
  }

  lemma FoldOfOne<S, T>(f: (S, T) -> S, s: S, t: T)
    ensures Fold(f, s, [t]) == f(s, t)
  {
    assert [t][..0] == [];
  }

  ghost predicate Swappable<S(!new), T(!new)>(f: (S, T) -> S, ts: seq<T>) {
    forall x, t, u :: t in ts && u in ts ==> f(f(x, t), u) == f(f(x, u), t)
  }

  lemma {:induction false} FoldOfSplit<S(!new), T(!new)>(f: (S, T) -> S, s: S, ts: seq<T>, us: seq<T>)
    ensures Fold(f, s, ts + us) == Fold(f, Fold(f, s, ts), us)
  {
    if us == [] {
      assert ts + us == ts;
    } else {
      assert (ts + us)[..|ts + us| - 1] == ts + us[..|us| - 1];
      FoldOfSplit(f, s, ts, us[..|us| - 1]);
    }
  }

  /** An element can be moved behind everything that follows it. */
  lemma {:induction false} MovedToTheEnd<S(!new), T(!new)>(f: (S, T) -> S, s: S, t: T, us: seq<T>)
    requires Swappable(f, [t] + us)
    ensures Fold(f, f(s, t), us) == f(Fold(f, s, us), t)
  {
    if us != [] {
      var most, last := us[..|us| - 1], us[|us| - 1];
      assert forall x :: x in [t] + most ==> x in [t] + us;
      MovedToTheEnd(f, s, t, most);
      assert t in [t] + us && last in [t] + us;
    }
  }

  lemma RemovedOnce<T>(ts: seq<T>, i: nat, us: seq<T>)
    requires us != [] && multiset(ts) == multiset(us) && i < |ts| && ts[i] == us[|us| - 1]
    ensures multiset(ts[..i] + ts[i + 1..]) == multiset(us[..|us| - 1])
    ensures ts == ts[..i] + ([ts[i]] + ts[i + 1..])
  {
    assert us == us[..|us| - 1] + [us[|us| - 1]];
    assert ts == ts[..i] + ([ts[i]] + ts[i + 1..]);
    assert multiset(us) == multiset(us[..|us| - 1]) + multiset{ts[i]};
    assert multiset(us) == multiset(ts[..i] + ts[i + 1..]) + multiset{ts[i]};
    assert multiset(ts[..i] + ts[i + 1..]) == multiset(us) - multiset{ts[i]};
  }

  lemma {:induction false} FoldPermuted<S(!new), T(!new)>(f: (S, T) -> S, s: S, ts: seq<T>, us: seq<T>)
    requires multiset(ts) == multiset(us) && Swappable(f, ts)
    ensures Fold(f, s, ts) == Fold(f, s, us)
    decreases |us|
  {
    if us == [] {
      assert |multiset(ts)| == 0;
    } else {
      var most, last := us[..|us| - 1], us[|us| - 1];
      assert last in multiset(us);
      var i :| 0 <= i < |ts| && ts[i] == last;
      var before, after := ts[..i], ts[i + 1..];
      RemovedOnce(ts, i, us);
      assert forall x :: x in [last] + after || x in before + after ==> x in ts;
      FoldOfSplit(f, s, before, [last] + after);
      FoldOfSplit(f, Fold(f, s, before), [last], after);
      FoldOfOne(f, Fold(f, s, before), last);
      MovedToTheEnd(f, Fold(f, s, before), last, after);
      FoldOfSplit(f, s, before, after);
      FoldPermuted(f, s, before + after, most);
    }
  }

  /** Two different elements taken out, so that they can be put back in either order. */
  lemma WithoutTwo<T>(ts: seq<T>, t: T, u: T) returns (rest: seq<T>)
    requires t in ts && u in ts && t != u
    ensures multiset(rest + [t, u]) == multiset(rest + [u, t]) == multiset(ts)
    ensures multiset([t, u] + rest) == multiset([u, t] + rest) == multiset(ts)
  {
    var i :| 0 <= i < |ts| && ts[i] == t;
    TakenOut(ts, i);
    var one := ts[..i] + ts[i + 1..];
    assert u in multiset(ts);
    var j :| 0 <= j < |one| && one[j] == u;
    TakenOut(one, j);
    rest := one[..j] + one[j + 1..];
    assert multiset(rest + [t, u]) == multiset(rest) + multiset{t, u};
    assert multiset(rest + [u, t]) == multiset(rest) + multiset{t, u};
    assert multiset([t, u] + rest) == multiset(rest) + multiset{t, u};
    assert multiset([u, t] + rest) == multiset(rest) + multiset{t, u};
  }

  lemma TakenOut<T>(ts: seq<T>, i: nat)
    requires i < |ts|
    ensures multiset(ts) == multiset(ts[..i] + ts[i + 1..]) + multiset{ts[i]}
  {
    assert ts == ts[..i] + ([ts[i]] + ts[i + 1..]);
  }
}
