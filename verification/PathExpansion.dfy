/** Expansion of a dynamic path: each `%s` stands for every child that Vault lists under the path built so far. */
module PathExpansion {
  import opened Common

  /** What Vault lists under a path, if it has anything there. */
  type Listing = string -> Option<seq<string>>

  const WILDCARD := "%s"

  /** The names listed under a path, without slashes at their ends, each once. */
  function Levels(names: seq<string>): set<string> {
    set name | name in names :: Trim(name)
  }

  function Append(path: string, part: string): string {
    if path == "" then part else path + "/" + part
  }

  // ----- The paths that a recursion over the parts gives -----

  ghost function Expand(list: Listing, path: string, parts: seq<string>): multiset<string>
    decreases |parts|, 1, 0
  {
    if parts == [] then multiset{path}
    else if parts[0] != WILDCARD then Expand(list, Append(path, parts[0]), parts[1..])
    else if list(path).None? then multiset{}
    else ExpandAll(list, path, parts[1..], Levels(list(path).value))
  }

  ghost function ExpandAll(list: Listing, path: string, parts: seq<string>, levels: set<string>): multiset<string>
    decreases |parts|, 2, |levels|
  {
    if levels == {} then multiset{}
    else
      var level :| level in levels;
      Expand(list, path + "/" + level, parts) + ExpandAll(list, path, parts, levels - {level})
  }

  lemma {:induction false} AnyLevel(list: Listing, path: string, parts: seq<string>, levels: set<string>, level: string)
    requires level in levels
    ensures ExpandAll(list, path, parts, levels) ==
      Expand(list, path + "/" + level, parts) + ExpandAll(list, path, parts, levels - {level})
    decreases |levels|
  {
    hide Expand;
    var first :| first in levels &&
      ExpandAll(list, path, parts, levels) == Expand(list, path + "/" + first, parts) + ExpandAll(list, path, parts, levels - {first});
    if first != level {
      AnyLevel(list, path, parts, levels - {first}, level);
      AnyLevel(list, path, parts, levels - {level}, first);
      assert levels - {first} - {level} == levels - {level} - {first};
    }
  }

  // ----- The closure -----

  class Configurations {
    var paths: seq<string>

    constructor ()
      ensures paths == []
    {
      paths := [];
    }

    /** Starts a configuration for every path; the children come in any order. */
    method RecursivePathBuilder(list: Listing, start: string, dynamicPathParts: seq<string>)
      modifies this
      ensures multiset(paths) == multiset(old(paths)) + Expand(list, start, dynamicPathParts)
      decreases |dynamicPathParts|
    {
      if |dynamicPathParts| == 0 {
        paths := paths + [start];
        return;
      }
      hide ExpandAll;
      var pGen := start;
      for i := 0 to |dynamicPathParts|
        invariant Expand(list, start, dynamicPathParts) == Expand(list, pGen, dynamicPathParts[i..])
        invariant paths == old(paths)
      {
        var rest := dynamicPathParts[i + 1..];
        assert dynamicPathParts[i..][0] == dynamicPathParts[i] && dynamicPathParts[i..][1..] == rest;
        if dynamicPathParts[i] == WILDCARD {
          var listed := list(pGen);
          if listed.None? {
            return;
          }
          var todo := Levels(listed.value);
          while todo != {}
            invariant multiset(paths) + ExpandAll(list, pGen, rest, todo) == multiset(old(paths)) + Expand(list, start, dynamicPathParts)
            decreases |todo|
          {
            var level :| level in todo;
            AnyLevel(list, pGen, rest, todo, level);
            RecursivePathBuilder(list, pGen + "/" + level, rest);
            todo := todo - {level};
          }
          NoLevels(list, pGen, rest);
          return;
        }
        assert "" + dynamicPathParts[i] == dynamicPathParts[i];
        if |pGen| > 0 {
          pGen := pGen + "/" + dynamicPathParts[i];
        } else {
          pGen := pGen + dynamicPathParts[i];
        }
      }
      RecursivePathBuilder(list, pGen, []);
    }
  }

  lemma NoLevels(list: Listing, path: string, parts: seq<string>)
    ensures ExpandAll(list, path, parts, {}) == multiset{}
  {
  }

  // ----- Which paths these are, component by component -----

  /** Vault lists the name under the path with the components. */
  ghost predicate ListedUnder(list: Listing, components: seq<string>, name: string) {
    exists q :: Split(q, '/') == components && list(q).Some? && name in Levels(list(q).value)
  }

  /** The component is the pattern's, or a child listed under the components before it. */
  ghost predicate MatchesAt(list: Listing, parts: seq<string>, components: seq<string>, i: nat)
    requires i < |parts| && i < |components|
  {
    if parts[i] == "%s" then ListedUnder(list, components[..i], components[i]) else components[i] == parts[i]
  }

  ghost predicate Matches(list: Listing, parts: seq<string>, components: seq<string>) {
    |components| == |parts| && forall i :: 0 <= i < |parts| ==> MatchesAt(list, parts, components, i)
  }

  /** The same from a component on, behind those of a path that is built already. */
  ghost predicate MatchesFrom(list: Listing, parts: seq<string>, path: string, k: nat, components: seq<string>) {
    && |components| == |parts| && k <= |parts| && components[..k] == Split(path, '/')
    && forall i :: k <= i < |parts| ==> MatchesAt(list, parts, components, i)
  }

  predicate SlashFreeParts(parts: seq<string>) { forall i :: 0 <= i < |parts| ==> '/' !in parts[i] }

  lemma ListedHere(list: Listing, path: string, name: string)
    ensures ListedUnder(list, Split(path, '/'), name) <==> list(path).Some? && name in Levels(list(path).value)
  {
    if q :| Split(q, '/') == Split(path, '/') && list(q).Some? && name in Levels(list(q).value) {
      SplitInjective(q, path, '/');
    }
  }

  /** One component more. */
  lemma MatchesNext(list: Listing, parts: seq<string>, path: string, k: nat, name: string, components: seq<string>)
    requires k < |parts| && '/' !in name && |Split(path, '/')| == k
    ensures MatchesFrom(list, parts, path + "/" + name, k + 1, components) && MatchesAt(list, parts, components, k) <==>
      MatchesFrom(list, parts, path, k, components) && components[k] == name
  {
    hide MatchesAt, Split;
    SplitLast(path, name, '/');
    assert path + "/" + name == path + ['/'] + name;
    if |components| == |parts| {
      assert components[..k + 1] == components[..k] + [components[k]];
      assert components[..k + 1][..k] == components[..k] && components[..k + 1][k] == components[k];
      assert (Split(path, '/') + [name])[..k] == Split(path, '/');
    }
  }

  lemma {:induction false} BuiltFrom(list: Listing, parts: seq<string>, path: string, k: nat, p: string)
    requires SlashFree(list) && SlashFreeParts(parts) && k <= |parts| && |Split(path, '/')| == k
    requires path != "" || (k < |parts| && parts[k] == "%s")
    ensures p in Expand(list, path, parts[k..]) <==> MatchesFrom(list, parts, path, k, Split(p, '/'))
    decreases |parts| - k, 1
  {
    hide MatchesFrom, MatchesAt;
    var c := Split(p, '/');
    if k == |parts| {
      BuiltEnd(list, parts, path, p);
    } else {
      assert parts[k..][0] == parts[k] && parts[k..][1..] == parts[k + 1..];
      if parts[k] != "%s" {
        SplitLast(path, parts[k], '/');
        assert path + "/" + parts[k] == path + ['/'] + parts[k];
        BuiltFrom(list, parts, path + "/" + parts[k], k + 1, p);
        MatchesNext(list, parts, path, k, parts[k], c);
        FixedAt(list, parts, path, k, c);
      } else {
        BuiltByWildcard(list, parts, path, k, p);
      }
    }
  }

  lemma BuiltEnd(list: Listing, parts: seq<string>, path: string, p: string)
    requires |Split(path, '/')| == |parts|
    ensures p in Expand(list, path, parts[|parts|..]) <==> MatchesFrom(list, parts, path, |parts|, Split(p, '/'))
  {
    assert Split(p, '/')[..|Split(p, '/')|] == Split(p, '/');
    if Split(p, '/') == Split(path, '/') { SplitInjective(p, path, '/'); }
  }

  lemma FixedAt(list: Listing, parts: seq<string>, path: string, k: nat, components: seq<string>)
    requires k < |parts| && parts[k] != "%s"
    ensures MatchesFrom(list, parts, path, k, components) ==> components[k] == parts[k]
    ensures MatchesFrom(list, parts, path + "/" + parts[k], k + 1, components) && |Split(path, '/')| == k && '/' !in parts[k] ==>
      MatchesAt(list, parts, components, k)
  {
    if |Split(path, '/')| == k && '/' !in parts[k] {
      SplitLast(path, parts[k], '/');
      assert path + "/" + parts[k] == path + ['/'] + parts[k];
      if MatchesFrom(list, parts, path + "/" + parts[k], k + 1, components) {
        assert components[..k + 1][k] == parts[k];
      }
    }
    if MatchesFrom(list, parts, path, k, components) { assert MatchesAt(list, parts, components, k); }
  }

  lemma {:induction false} BuiltByWildcard(list: Listing, parts: seq<string>, path: string, k: nat, p: string)
    requires SlashFree(list) && SlashFreeParts(parts) && k < |parts| && |Split(path, '/')| == k && parts[k] == "%s"
    ensures p in Expand(list, path, parts[k..]) <==> MatchesFrom(list, parts, path, k, Split(p, '/'))
    decreases |parts| - k, 0
  {
    hide MatchesFrom, MatchesAt, ExpandAll;
    var c, rest := Split(p, '/'), parts[k + 1..];
    assert parts[k..][0] == parts[k] && parts[k..][1..] == rest;
    if p in Expand(list, path, parts[k..]) {
      var level := LevelOf(list, path, rest, Levels(list(path).value), p);
      BuiltUnder(list, parts, path, k, level, p);
    }
    if MatchesFrom(list, parts, path, k, c) {
      var level := ChildOf(list, parts, path, k, c);
      BuiltUnder(list, parts, path, k, level, p);
      AnyLevel(list, path, rest, Levels(list(path).value), level);
    }
  }

  lemma ChildOf(list: Listing, parts: seq<string>, path: string, k: nat, components: seq<string>) returns (level: string)
    requires k < |parts| && parts[k] == "%s" && MatchesFrom(list, parts, path, k, components)
    ensures level == components[k] && list(path).Some? && level in Levels(list(path).value)
  {
    level := components[k];
    assert MatchesAt(list, parts, components, k);
    ListedHere(list, path, level);
  }

  lemma {:induction false} BuiltUnder(list: Listing, parts: seq<string>, path: string, k: nat, level: string, p: string)
    requires SlashFree(list) && SlashFreeParts(parts) && k < |parts| && |Split(path, '/')| == k && parts[k] == "%s"
    requires list(path).Some? && level in Levels(list(path).value)
    ensures p in Expand(list, path + "/" + level, parts[k + 1..]) <==>
      MatchesFrom(list, parts, path, k, Split(p, '/')) && Split(p, '/')[k] == level
    decreases |parts| - k - 1, 2
  {
    hide MatchesFrom, MatchesAt, Expand;
    SplitLast(path, level, '/');
    assert path + "/" + level == path + ['/'] + level;
    BuiltFrom(list, parts, path + "/" + level, k + 1, p);
    MatchesNext(list, parts, path, k, level, Split(p, '/'));
    ListedAt(list, parts, path, k, level, Split(p, '/'));
  }

  lemma ListedAt(list: Listing, parts: seq<string>, path: string, k: nat, level: string, components: seq<string>)
    requires k < |parts| && parts[k] == "%s" && |Split(path, '/')| == k && '/' !in level
    requires list(path).Some? && level in Levels(list(path).value)
    ensures MatchesFrom(list, parts, path + "/" + level, k + 1, components) ==> MatchesAt(list, parts, components, k)
  {
    if MatchesFrom(list, parts, path + "/" + level, k + 1, components) {
      SplitLast(path, level, '/');
      assert path + "/" + level == path + ['/'] + level;
      assert components[..k] == components[..k + 1][..k] && components[k] == components[..k + 1][k];
      ListedHere(list, path, level);
    }
  }

  /** A path is built exactly when, split at its slashes, it has a component for each part of the pattern:
    the part itself, or a child that Vault lists under the components before it. Behind a wildcard at the
    very start the path begins with a slash, so that an empty component comes first. */
  lemma BuiltExactly(list: Listing, parts: seq<string>, p: string)
    requires SlashFree(list) && SlashFreeParts(parts) && parts != [] && parts[0] != ""
    ensures p in Expand(list, "", parts) <==>
      Matches(list, if parts[0] == "%s" then [""] + parts else parts, Split(p, '/'))
  {
    hide MatchesAt;
    var c := Split(p, '/');
    if parts[0] == "%s" {
      var shifted := [""] + parts;
      assert shifted[1..] == parts;
      SplitUndivided("", '/');
      BuiltFrom(list, shifted, "", 1, p);
      FromStart(list, shifted, "", c);
    } else {
      SplitUndivided(parts[0], '/');
      BuiltFrom(list, parts, parts[0], 1, p);
      FromStart(list, parts, parts[0], c);
    }
  }

  lemma FromStart(list: Listing, parts: seq<string>, first: string, components: seq<string>)
    requires parts != [] && parts[0] == first != "%s" && Split(first, '/') == [first]
    ensures MatchesFrom(list, parts, first, 1, components) <==> Matches(list, parts, components)
  {
    if |components| == |parts| {
      assert components[..1] == [components[0]];
      assert MatchesAt(list, parts, components, 0) <==> components[0] == first;
    }
  }

  // ----- Which paths these are, choice by choice -----

  /** The pattern with the choices filled in for its wildcards. */
  function Fill(path: string, parts: seq<string>, choices: seq<string>): string
    decreases |parts|
  {
    if parts == [] then path
    else if parts[0] != WILDCARD then Fill(Append(path, parts[0]), parts[1..], choices)
    else if choices == [] then path
    else Fill(path + "/" + choices[0], parts[1..], choices[1..])
  }

  /** One choice for each wildcard, and each is listed under what comes before it. */
  predicate Chosen(list: Listing, path: string, parts: seq<string>, choices: seq<string>)
    decreases |parts|
  {
    if parts == [] then choices == []
    else if parts[0] != WILDCARD then Chosen(list, Append(path, parts[0]), parts[1..], choices)
    else
      && choices != [] && list(path).Some? && choices[0] in Levels(list(path).value)
      && Chosen(list, path + "/" + choices[0], parts[1..], choices[1..])
  }

  lemma {:induction false} ChosenExpands(list: Listing, path: string, parts: seq<string>, choices: seq<string>)
    requires Chosen(list, path, parts, choices)
    ensures Fill(path, parts, choices) in Expand(list, path, parts)
    decreases |parts|
  {
    if parts != [] {
      if parts[0] != WILDCARD {
        ChosenExpands(list, Append(path, parts[0]), parts[1..], choices);
      } else {
        ChosenExpands(list, path + "/" + choices[0], parts[1..], choices[1..]);
        AnyLevel(list, path, parts[1..], Levels(list(path).value), choices[0]);
      }
    }
  }

  lemma {:induction false} LevelOf(list: Listing, path: string, parts: seq<string>, levels: set<string>, p: string) returns (level: string)
    requires p in ExpandAll(list, path, parts, levels)
    ensures level in levels && p in Expand(list, path + "/" + level, parts)
    decreases |levels|
  {
    hide Expand;
    level :| level in levels &&
      ExpandAll(list, path, parts, levels) == Expand(list, path + "/" + level, parts) + ExpandAll(list, path, parts, levels - {level});
    if p !in Expand(list, path + "/" + level, parts) {
      level := LevelOf(list, path, parts, levels - {level}, p);
    }
  }

  lemma {:induction false} Choices(list: Listing, path: string, parts: seq<string>, p: string) returns (choices: seq<string>)
    requires p in Expand(list, path, parts)
    ensures Chosen(list, path, parts, choices) && Fill(path, parts, choices) == p
    decreases |parts|
  {
    if parts == [] {
      choices := [];
    } else if parts[0] != WILDCARD {
      choices := Choices(list, Append(path, parts[0]), parts[1..], p);
    } else {
      var level := LevelOf(list, path, parts[1..], Levels(list(path).value), p);
      var more := Choices(list, path + "/" + level, parts[1..], p);
      choices := [level] + more;
    }
  }

  /** A path is built exactly when it is the pattern with listed children filled in. */
  lemma ExactlyTheMatches(list: Listing, parts: seq<string>, p: string)
    ensures p in Expand(list, "", parts) <==> exists choices :: Chosen(list, "", parts, choices) && Fill("", parts, choices) == p
  {
    if p in Expand(list, "", parts) {
      var choices := Choices(list, "", parts, p);
    }
    if choices :| Chosen(list, "", parts, choices) && Fill("", parts, choices) == p {
      ChosenExpands(list, "", parts, choices);
    }
  }

  /** No name has a slash inside. */
  ghost predicate SlashFree(list: Listing) {
    forall path, name :: list(path).Some? && name in Levels(list(path).value) ==> '/' !in name
  }

  predicate Under(q: string, p: string) { q <= p && (|p| > |q| ==> p[|q|] == '/') }

  lemma {:induction false} ExpandsUnder(list: Listing, path: string, parts: seq<string>, p: string)
    requires path != "" && p in Expand(list, path, parts)
    ensures Under(path, p)
    decreases |parts|
  {
    if parts != [] {
      if parts[0] != WILDCARD {
        ExpandsUnder(list, Append(path, parts[0]), parts[1..], p);
      } else {
        var level := LevelOf(list, path, parts[1..], Levels(list(path).value), p);
        ExpandsUnder(list, path + "/" + level, parts[1..], p);
      }
    }
  }

  lemma OneLevel(path: string, c: string, d: string, p: string)
    requires '/' !in c && '/' !in d && Under(path + "/" + c, p) && Under(path + "/" + d, p)
    ensures c == d
  {
    var rest := p[|path| + 1..];
    assert c == rest[..|c|] && d == rest[..|d|];
    assert |c| < |rest| ==> rest[|c|] == '/';
    assert |d| < |rest| ==> rest[|d|] == '/';
    assert forall i :: 0 <= i < |c| ==> rest[i] in c;
    assert forall i :: 0 <= i < |d| ==> rest[i] in d;
  }

  /** Each path is built once. */
  lemma {:induction false} BuiltOnce(list: Listing, path: string, parts: seq<string>, p: string)
    requires SlashFree(list)
    ensures Expand(list, path, parts)[p] <= 1
    decreases |parts|, 1, 0
  {
    if parts != [] {
      if parts[0] != WILDCARD {
        BuiltOnce(list, Append(path, parts[0]), parts[1..], p);
      } else if list(path).Some? {
        AllOnce(list, path, parts[1..], Levels(list(path).value), p);
      }
    }
  }

  lemma {:induction false} AllOnce(list: Listing, path: string, parts: seq<string>, levels: set<string>, p: string)
    requires SlashFree(list) && forall level :: level in levels ==> '/' !in level
    ensures ExpandAll(list, path, parts, levels)[p] <= 1
    decreases |parts|, 2, |levels|
  {
    hide Expand;
    if levels != {} {
      var level :| level in levels &&
        ExpandAll(list, path, parts, levels) == Expand(list, path + "/" + level, parts) + ExpandAll(list, path, parts, levels - {level});
      BuiltOnce(list, path + "/" + level, parts, p);
      AllOnce(list, path, parts, levels - {level}, p);
      if p in Expand(list, path + "/" + level, parts) && p in ExpandAll(list, path, parts, levels - {level}) {
        var other := LevelOf(list, path, parts, levels - {level}, p);
        ExpandsUnder(list, path + "/" + level, parts, p);
        ExpandsUnder(list, path + "/" + other, parts, p);
        OneLevel(path, level, other, p);
      }
    }
  }

  /** Filling in different choices gives different paths, so that no configuration is started twice. */
  lemma {:induction false} FillInjective(list: Listing, path: string, parts: seq<string>, c: seq<string>, d: seq<string>)
    requires SlashFree(list) && Chosen(list, path, parts, c) && Chosen(list, path, parts, d)
    requires Fill(path, parts, c) == Fill(path, parts, d)
    ensures c == d
    decreases |parts|
  {
    if parts != [] {
      if parts[0] != WILDCARD {
        FillInjective(list, Append(path, parts[0]), parts[1..], c, d);
      } else {
        var p := Fill(path, parts, c);
        ChosenExpands(list, path + "/" + c[0], parts[1..], c[1..]);
        ChosenExpands(list, path + "/" + d[0], parts[1..], d[1..]);
        ExpandsUnder(list, path + "/" + c[0], parts[1..], p);
        ExpandsUnder(list, path + "/" + d[0], parts[1..], p);
        OneLevel(path, c[0], d[0], p);
        FillInjective(list, path + "/" + c[0], parts[1..], c[1..], d[1..]);
      }
    }
  }
}
