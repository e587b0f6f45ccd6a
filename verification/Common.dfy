/** What several of the components use. */
module Common {
  datatype Option<+T> = None | Some(value: T)

  predicate Distinct<T(==)>(s: seq<T>) {
    forall i, j :: 0 <= i < j < |s| ==> s[i] != s[j]
  }

  // ----- Go's `strings.Trim(s, "/")` -----

  function Trim(s: string): string { TrimRight(TrimLeft(s)) }

  function TrimLeft(s: string): string { if s != "" && s[0] == '/' then TrimLeft(s[1..]) else s }

  function TrimRight(s: string): string { if s != "" && s[|s| - 1] == '/' then TrimRight(s[..|s| - 1]) else s }

  predicate OnlySlashes(s: string) { forall c :: c in s ==> c == '/' }

  lemma {:induction false} TrimLeftTakes(s: string) returns (taken: string)
    ensures s == taken + TrimLeft(s) && OnlySlashes(taken)
    ensures TrimLeft(s) != "" ==> TrimLeft(s)[0] != '/'
  {
    taken := "";
    if s != "" && s[0] == '/' {
      taken := TrimLeftTakes(s[1..]);
      taken := "/" + taken;
      assert s == [s[0]] + s[1..];
    }
  }

  lemma {:induction false} TrimRightTakes(s: string) returns (taken: string)
    ensures s == TrimRight(s) + taken && OnlySlashes(taken)
    ensures TrimRight(s) != "" ==> TrimRight(s)[|TrimRight(s)| - 1] != '/'
    ensures TrimRight(s) <= s
  {
    taken := "";
    if s != "" && s[|s| - 1] == '/' {
      taken := TrimRightTakes(s[..|s| - 1]);
      taken := taken + "/";
      assert s == s[..|s| - 1] + [s[|s| - 1]];
    }
  }

  /** Only slashes are taken, from both ends, and none is left there. */
  lemma TrimTakesSlashes(s: string) returns (left: string, right: string)
    ensures s == left + Trim(s) + right && OnlySlashes(left) && OnlySlashes(right)
    ensures Trim(s) != "" ==> Trim(s)[0] != '/' && Trim(s)[|Trim(s)| - 1] != '/'
  {
    left := TrimLeftTakes(s);
    right := TrimRightTakes(TrimLeft(s));
    assert Trim(s) != "" ==> Trim(s)[0] == TrimLeft(s)[0];
  }

  // ----- Go's `strings.Split` at a single character -----

  function Split(s: string, at: char): (parts: seq<string>)
    ensures |parts| > 0
  {
    if s == "" then [""]
    else
      var rest := Split(s[1..], at);
      if s[0] == at then [""] + rest else [[s[0]] + rest[0]] + rest[1..]
  }

  lemma {:induction false} SplitUndivided(s: string, at: char)
    requires at !in s
    ensures Split(s, at) == [s]
  {
    if s != "" {
      SplitUndivided(s[1..], at);
      assert s == [s[0]] + s[1..];
    }
  }

  /** What stands in front of the first separator is the first part. */
  lemma {:induction false} SplitFirst(a: string, b: string, at: char)
    requires at !in a
    ensures Split(a + [at] + b, at) == [a] + Split(b, at)
  {
    var s := a + [at] + b;
    if a == "" {
      assert s[1..] == b;
    } else {
      assert s[1..] == a[1..] + [at] + b;
      SplitFirst(a[1..], b, at);
      assert [a[0]] + a[1..] == a;
      assert Split(s, at) == [[s[0]] + Split(s[1..], at)[0]] + Split(s[1..], at)[1..];
    }
  }

  /** What stands behind the last one is the last part. */
  lemma {:induction false} SplitLast(a: string, b: string, at: char)
    requires at !in b
    ensures Split(a + [at] + b, at) == Split(a, at) + [b]
  {
    var s := a + [at] + b;
    if a == "" {
      assert s[1..] == b;
      SplitUndivided(b, at);
    } else {
      assert s[1..] == a[1..] + [at] + b;
      SplitLast(a[1..], b, at);
    }
  }

  /** A string is determined by its parts. */
  lemma {:induction false} SplitInjective(s: string, t: string, at: char)
    requires Split(s, at) == Split(t, at)
    ensures s == t
  {
    SplitLength(s, at);
    SplitLength(t, at);
    if s != "" && t != "" {
      var p, q := Split(s[1..], at), Split(t[1..], at);
      SplitFirstChar(s, at);
      SplitFirstChar(t, at);
      if s[0] == at {
        assert p == ([""] + p)[1..] && q == ([""] + q)[1..];
      } else {
        assert p == [Split(s, at)[0][1..]] + Split(s, at)[1..];
        assert q == [Split(t, at)[0][1..]] + Split(t, at)[1..];
      }
      SplitInjective(s[1..], t[1..], at);
    }
  }

  lemma SplitLength(s: string, at: char)
    ensures s == "" <==> Split(s, at) == [""]
  {
    if s != "" && s[0] == at { assert |Split(s, at)| >= 2; }
  }

  lemma SplitFirstChar(s: string, at: char)
    requires s != ""
    ensures Split(s, at)[0] == "" <==> s[0] == at
    ensures s[0] != at ==> Split(s, at)[0][0] == s[0]
  {
  }
}
