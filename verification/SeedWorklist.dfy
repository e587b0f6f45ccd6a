/** From a seed, a nested mapping, to the writes into Vault: an explicit worklist of mappings that are
  still to be visited, and what a plain recursion over the seed would write. */
module SeedWorklist {
  import opened Common
  import opened TemplateTree

  datatype Collection = Collection(path: string, data: map<string, Tree>)

  /** All values that are written under one path. */
  datatype Write = Write(path: string, data: map<string, string>)

  function Join(path: string, key: string): string {
    if path == "" then key else path + "/" + key
  }

  /** The `verification` mapping at the root is stored for later. */
  predicate HeldOut(path: string, key: string) { path == "" && key == "verification" }

  predicate Descends(path: string, key: string, t: Tree) { t.Node? && !HeldOut(path, key) }

  predicate Written(path: string, key: string, t: Tree) { t.Leaf? && !HeldOut(path, key) }

  // ----- What a recursion over the seed writes -----

  function Own(path: string, data: map<string, Tree>): map<string, string> {
    map k | k in data && Written(path, k, data[k]) :: data[k].text
  }

  function OwnWrites(path: string, data: map<string, string>): multiset<Write> {
    if data == map[] then multiset{} else multiset{Write(path, data)}
  }

  ghost function Writes(path: string, t: Tree): multiset<Write>
    requires t.Node?
    decreases t, 1, 0
  {
    OwnWrites(path, Own(path, t.entries)) + WritesBelow(path, t, t.entries.Keys)
  }

  ghost function WritesAt(path: string, t: Tree, k: string): multiset<Write>
    requires t.Node? && k in t.entries
    decreases t, 0, 0
  {
    if Descends(path, k, t.entries[k]) then Writes(Join(path, k), t.entries[k]) else multiset{}
  }

  ghost function WritesBelow(path: string, t: Tree, keys: set<string>): multiset<Write>
    requires t.Node? && keys <= t.entries.Keys
    decreases t, 0, |keys|
  {
    if keys == {} then multiset{}
    else
      var k :| k in keys;
      WritesAt(path, t, k) + WritesBelow(path, t, keys - {k})
  }

  /** Number of mappings in a tree. */
  ghost function Size(t: Tree): nat
    decreases t, 1, 0
  {
    if t.Node? then 1 + SizeBelow(t, t.entries.Keys) else 0
  }

  ghost function SizeBelow(t: Tree, keys: set<string>): nat
    requires t.Node? && keys <= t.entries.Keys
    decreases t, 0, |keys|
  {
    if keys == {} then 0
    else
      var k :| k in keys;
      Size(t.entries[k]) + SizeBelow(t, keys - {k})
  }

  /** The order in which the keys are summed does not matter. */
  lemma {:induction false} WritesAnyKey(path: string, t: Tree, keys: set<string>, k: string)
    requires t.Node? && keys <= t.entries.Keys && k in keys
    ensures WritesBelow(path, t, keys) == WritesAt(path, t, k) + WritesBelow(path, t, keys - {k})
    decreases |keys|
  {
    hide WritesAt;
    var first :| first in keys && WritesBelow(path, t, keys) == WritesAt(path, t, first) + WritesBelow(path, t, keys - {first});
    if first != k {
      WritesAnyKey(path, t, keys - {first}, k);
      WritesAnyKey(path, t, keys - {k}, first);
      assert keys - {first} - {k} == keys - {k} - {first};
    }
  }

  lemma {:induction false} SizeAnyKey(t: Tree, keys: set<string>, k: string)
    requires t.Node? && keys <= t.entries.Keys && k in keys
    ensures SizeBelow(t, keys) == Size(t.entries[k]) + SizeBelow(t, keys - {k})
    decreases |keys|
  {
    hide Size;
    var first :| first in keys && SizeBelow(t, keys) == Size(t.entries[first]) + SizeBelow(t, keys - {first});
    if first != k {
      SizeAnyKey(t, keys - {first}, k);
      SizeAnyKey(t, keys - {k}, first);
      assert keys - {first} - {k} == keys - {k} - {first};
    }
  }

  /** Nothing but a mapping is found where `verification` is expected; the program fails otherwise. */
  predicate Sane(path: string, t: Tree)
    requires t.Node?
    decreases t, 0
  {
    forall k :: k in t.entries ==> SaneAt(path, k, t.entries[k])
  }

  predicate SaneAt(path: string, k: string, t: Tree)
    decreases t, 1
  {
    (HeldOut(path, k) ==> !t.Leaf?) && (Descends(path, k, t) ==> Sane(Join(path, k), t))
  }

  // ----- The worklist -----

  ghost function StackWrites(stack: seq<Collection>): multiset<Write> {
    if stack == [] then multiset{} else Writes(stack[0].path, Node(stack[0].data)) + StackWrites(stack[1..])
  }

  ghost function StackSize(stack: seq<Collection>): nat {
    if stack == [] then 0 else Size(Node(stack[0].data)) + StackSize(stack[1..])
  }

  predicate StackSane(stack: seq<Collection>) {
    forall c :: c in stack ==> Sane(c.path, Node(c.data))
  }

  /** Fails exactly on a `verification` that is no mapping, and otherwise makes the writes of the
    recursion, in some order. */
  method SeedVaultFromData(seed: map<string, Tree>)
    returns (ok: bool, writeStack: seq<Write>, verification: Option<map<string, Tree>>)
    ensures ok == Sane("", Node(seed))
    ensures ok ==> multiset(writeStack) == Writes("", Node(seed))
    ensures ok && "" !in seed ==> verification == Verification("", seed, None)
  {
    hide Writes, WritesBelow, Size, SizeBelow, Sane, StackWrites, StackSize, StackSane, Own, Verification;
    NothingStacked(Collection("", seed));
    var mapStack := [Collection("", seed)];
    writeStack, verification := [], None;
    ghost var root := true;
    while mapStack != []
      invariant multiset(writeStack) + StackWrites(mapStack) == Writes("", Node(seed))
      invariant Sane("", Node(seed)) == StackSane(mapStack)
      invariant root ==> mapStack == [Collection("", seed)] && verification == None
      invariant !root && "" !in seed ==> verification == Verification("", seed, None) && Named(mapStack)
      decreases StackSize(mapStack)
    {
      var current := mapStack[0];
      assert Named(mapStack) ==> current.path != "" && Named(mapStack[1..]);
      Popped(mapStack);
      OtherVerification(current, verification);
      var sound, data;
      sound, mapStack, data, verification := Visit(current, mapStack[1..], verification);
      if !sound {
        return false, [], None;
      }
      if data != map[] {
        writeStack := writeStack + [Write(current.path, data)];
      }
      root := false;
    }
    return true, writeStack, verification;
  }

  /** No collection on the stack can be taken for the root. */
  predicate Named(stack: seq<Collection>) {
    forall i :: 0 <= i < |stack| ==> stack[i].path != ""
  }

  function Verification(path: string, data: map<string, Tree>, before: Option<map<string, Tree>>): Option<map<string, Tree>> {
    if path == "" && "verification" in data && data["verification"].Node? then Some(data["verification"].entries) else before
  }

  lemma NothingStacked(c: Collection)
    ensures StackWrites([c]) == Writes(c.path, Node(c.data)) && StackSane([c]) == Sane(c.path, Node(c.data))
    ensures StackWrites([]) == multiset{} && StackSane([])
  {
    Pushed([], c);
    assert [c] + [] == [c];
  }

  lemma Popped(stack: seq<Collection>)
    requires stack != []
    ensures var t := Node(stack[0].data);
      && StackWrites(stack) == OwnWrites(stack[0].path, Own(stack[0].path, stack[0].data)) + WritesBelow(stack[0].path, t, t.entries.Keys) + StackWrites(stack[1..])
      && StackSize(stack) == 1 + SizeBelow(t, t.entries.Keys) + StackSize(stack[1..])
      && StackSane(stack) == (Sane(stack[0].path, t) && StackSane(stack[1..]))
  {
    assert stack == [stack[0]] + stack[1..];
    Pushed(stack[1..], stack[0]);
  }

  lemma OtherVerification(c: Collection, before: Option<map<string, Tree>>)
    ensures c.path != "" ==> Verification(c.path, c.data, before) == before
  {
  }

  /** The inner loop, over the keys of one mapping in any order. */
  method Visit(current: Collection, stack: seq<Collection>, before: Option<map<string, Tree>>)
    returns (ok: bool, mapStack: seq<Collection>, data: map<string, string>, verification: Option<map<string, Tree>>)
    ensures !ok ==> !Sane(current.path, Node(current.data))
    ensures ok ==> StackSane(mapStack) == (Sane(current.path, Node(current.data)) && StackSane(stack))
    ensures ok ==> StackWrites(mapStack) == StackWrites(stack) + WritesBelow(current.path, Node(current.data), current.data.Keys)
    ensures ok ==> StackSize(mapStack) <= StackSize(stack) + SizeBelow(Node(current.data), current.data.Keys)
    ensures ok ==> data == Own(current.path, current.data)
    ensures ok ==> verification == Verification(current.path, current.data, before)
    ensures Named(stack) && (current.path == "" ==> "" !in current.data) ==> Named(mapStack)
  {
    hide Writes, WritesBelow, Size, SizeBelow, Sane, SaneAt, StackSane, StackWrites, StackSize, SaneKeys, Own, Verification;
    var path, t := current.path, Node(current.data);
    mapStack, data, verification := stack, map[], before;
    var todo := current.data.Keys;
    OwnStart(path, current.data, before);
    SaneStart(path, t);
    while todo != {}
      invariant todo <= current.data.Keys
      invariant StackWrites(mapStack) + WritesBelow(path, t, todo) == StackWrites(stack) + WritesBelow(path, t, t.entries.Keys)
      invariant StackSize(mapStack) + SizeBelow(t, todo) <= StackSize(stack) + SizeBelow(t, t.entries.Keys)
      invariant (StackSane(mapStack) && SaneKeys(path, t, todo)) == (StackSane(stack) && Sane(path, t))
      invariant data == Own(path, current.data - todo)
      invariant verification == Verification(path, current.data - todo, before)
      invariant Named(stack) && (path == "" ==> "" !in current.data) ==> Named(mapStack)
    {
      var k :| k in todo;
      var v := current.data[k];
      WritesAnyKey(path, t, todo, k);
      SizeAnyKey(t, todo, k);
      SaneKey(path, t, todo, k);
      OwnStep(path, current.data, todo, k, before);
      if v.Null? {
      } else if path == "" && k == "verification" {
        if !v.Node? {
          return false, [], map[], None;
        }
        verification := Some(v.entries);
      } else if v.Node? {
        Pushed(mapStack, Collection(Join(path, k), v.entries));
        mapStack := [Collection(Join(path, k), v.entries)] + mapStack;
      } else {
        data := data[k := v.text];
      }
      todo := todo - {k};
    }
    assert current.data - todo == current.data;
    NothingLeft(path, t);
    ok := true;
  }

  lemma OwnStart(path: string, data: map<string, Tree>, before: Option<map<string, Tree>>)
    ensures Own(path, data - data.Keys) == map[] && Verification(path, data - data.Keys, before) == before
  {
  }

  lemma OwnStep(path: string, data: map<string, Tree>, todo: set<string>, k: string, before: Option<map<string, Tree>>)
    requires k in todo && todo <= data.Keys
    ensures Own(path, data - (todo - {k})) ==
      if Written(path, k, data[k]) then Own(path, data - todo)[k := data[k].text] else Own(path, data - todo)
    ensures Verification(path, data - (todo - {k}), before) ==
      if HeldOut(path, k) && data[k].Node? then Some(data[k].entries) else Verification(path, data - todo, before)
  {
    var more := data - (todo - {k});
    assert more.Keys == (data - todo).Keys + {k};
  }

  ghost predicate SaneKeys(path: string, t: Tree, keys: set<string>)
    requires t.Node? && keys <= t.entries.Keys
  {
    forall k :: k in keys ==> SaneAt(path, k, t.entries[k])
  }

  lemma SaneStart(path: string, t: Tree)
    requires t.Node?
    ensures SaneKeys(path, t, t.entries.Keys) == Sane(path, t)
  {
  }

  lemma SaneKey(path: string, t: Tree, keys: set<string>, k: string)
    requires t.Node? && keys <= t.entries.Keys && k in keys
    ensures SaneKeys(path, t, keys) == (SaneAt(path, k, t.entries[k]) && SaneKeys(path, t, keys - {k}))
    ensures HeldOut(path, k) && t.entries[k].Leaf? ==> !Sane(path, t)
    ensures SaneAt(path, k, t.entries[k])
      == ((HeldOut(path, k) ==> !t.entries[k].Leaf?) && (Descends(path, k, t.entries[k]) ==> Sane(Join(path, k), t.entries[k])))
  {
  }

  lemma Pushed(stack: seq<Collection>, c: Collection)
    ensures StackSane([c] + stack) == (Sane(c.path, Node(c.data)) && StackSane(stack))
    ensures StackWrites([c] + stack) == Writes(c.path, Node(c.data)) + StackWrites(stack)
    ensures StackSize([c] + stack) == Size(Node(c.data)) + StackSize(stack)
  {
    assert ([c] + stack)[1..] == stack;
    assert c in [c] + stack;
    assert forall d :: d in [c] + stack <==> d == c || d in stack;
  }

  lemma NothingLeft(path: string, t: Tree)
    requires t.Node?
    ensures WritesBelow(path, t, {}) == multiset{} && SizeBelow(t, {}) == 0 && SaneKeys(path, t, {})
  {
  }

  // ----- What the writes say about the seed -----

  predicate Plain(key: string) { key != "" && '/' !in key }

  predicate AllPlain(path: seq<string>) { forall i :: 0 <= i < |path| ==> Plain(path[i]) }

  /** All keys of a tree are non-empty and free of slashes. */
  predicate PlainKeys(t: Tree)
    decreases t
  {
    t.Node? ==> forall k :: k in t.entries ==> Plain(k) && PlainKeys(t.entries[k])
  }

  function JoinAll(path: seq<string>): string {
    if path == [] then "" else Join(JoinAll(path[..|path| - 1]), path[|path| - 1])
  }

  lemma JoinAllAppend(path: seq<string>, k: string)
    ensures JoinAll(path + [k]) == Join(JoinAll(path), k)
  {
    assert (path + [k])[..|path|] == path;
  }

  lemma JoinEmpty(path: seq<string>)
    requires AllPlain(path)
    ensures JoinAll(path) == "" <==> path == []
  {
  }

  lemma NotLonger(p: string, a: string, q: string, b: string)
    requires Plain(a) && Plain(b) && Join(p, a) == Join(q, b)
    ensures |b| <= |a|
  {
    var j := Join(p, a);
    assert p != "" ==> j[|p|] == '/';
    assert forall i :: |j| - |b| <= i < |j| ==> j[i] in b;
  }

  /** The last separator tells where the last key starts. */
  lemma JoinApart(p: string, a: string, q: string, b: string)
    requires Plain(a) && Plain(b) && Join(p, a) == Join(q, b)
    ensures p == q && a == b
  {
    var j := Join(p, a);
    NotLonger(p, a, q, b);
    NotLonger(q, b, p, a);
    assert a == j[|j| - |a|..] == b;
    assert p != "" && q != "" ==> p == j[..|j| - |a| - 1] == q;
  }

  lemma {:induction false} JoinAllInjective(p: seq<string>, q: seq<string>)
    requires AllPlain(p) && AllPlain(q) && JoinAll(p) == JoinAll(q)
    ensures p == q
  {
    JoinEmpty(p);
    JoinEmpty(q);
    if p != [] {
      JoinApart(JoinAll(p[..|p| - 1]), p[|p| - 1], JoinAll(q[..|q| - 1]), q[|q| - 1]);
      JoinAllInjective(p[..|p| - 1], q[..|q| - 1]);
    }
  }

  function Sub(t: Tree, path: seq<string>): Tree
    decreases |path|
  {
    if path == [] then t
    else if t.Node? && path[0] in t.entries then Sub(t.entries[path[0]], path[1..])
    else Null
  }

  lemma {:induction false} LeafOfSub(t: Tree, path: seq<string>, k: string)
    ensures LeafAt(t, path + [k]) ==
      var s := Sub(t, path);
      if s.Node? && k in s.entries && s.entries[k].Leaf? then Some(s.entries[k].text) else None
    decreases |path|
  {
    if path != [] && t.Node? && path[0] in t.entries {
      assert (path + [k])[1..] == path[1..] + [k];
      LeafOfSub(t.entries[path[0]], path[1..], k);
    }
  }

  lemma {:induction false} BelowHas(path: string, t: Tree, keys: set<string>, w: Write) returns (k: string)
    requires t.Node? && keys <= t.entries.Keys && w in WritesBelow(path, t, keys)
    ensures k in keys && w in WritesAt(path, t, k)
    decreases |keys|
  {
    hide WritesAt;
    k :| k in keys && WritesBelow(path, t, keys) == WritesAt(path, t, k) + WritesBelow(path, t, keys - {k});
    if w !in WritesAt(path, t, k) {
      k := BelowHas(path, t, keys - {k}, w);
    }
  }

  lemma NoKeys(t: Tree)
    ensures AllPlain([]) && Sub(t, []) == t
  {
  }

  lemma Deeper(pre: seq<string>, t: Tree, k: string, more: seq<string>)
    requires t.Node? && k in t.entries && Plain(k) && AllPlain(pre)
    ensures AllPlain(pre + [k]) && JoinAll(pre + [k]) == Join(JoinAll(pre), k)
    ensures pre + [k] + more == pre + ([k] + more)
    ensures Sub(t, [k] + more) == Sub(t.entries[k], more) && (AllPlain(more) ==> AllPlain([k] + more))
  {
    JoinAllAppend(pre, k);
  }

  /** Every write is what one mapping of the seed holds, under that mapping's path. */
  lemma {:induction false} Origin(pre: seq<string>, t: Tree, w: Write) returns (rest: seq<string>)
    requires t.Node? && PlainKeys(t) && AllPlain(pre) && w in Writes(JoinAll(pre), t)
    ensures AllPlain(rest) && w.path == JoinAll(pre + rest)
    ensures Sub(t, rest).Node? && w.data == Own(w.path, Sub(t, rest).entries) != map[]
    ensures rest != [] ==> w in WritesAt(JoinAll(pre), t, rest[0])
    decreases t
  {
    hide Own, WritesBelow, Join, JoinAll, AllPlain, Sub;
    NoKeys(t);
    if w in OwnWrites(JoinAll(pre), Own(JoinAll(pre), t.entries)) {
      rest := [];
      assert pre + rest == pre;
    } else {
      var k := BelowHas(JoinAll(pre), t, t.entries.Keys, w);
      Deeper(pre, t, k, []);
      var more := Origin(pre + [k], t.entries[k], w);
      Deeper(pre, t, k, more);
      rest := [k] + more;
    }
  }

  /** And every mapping with values of its own, outside `verification`, is written. */
  lemma {:induction false} WrittenOut(pre: seq<string>, t: Tree, rest: seq<string>)
    requires t.Node? && PlainKeys(t) && AllPlain(pre) && Sub(t, rest).Node?
    requires pre == [] && rest != [] ==> rest[0] != "verification"
    ensures var path, data := JoinAll(pre + rest), Own(JoinAll(pre + rest), Sub(t, rest).entries);
      data != map[] ==> Write(path, data) in Writes(JoinAll(pre), t)
    decreases |rest|
  {
    hide Own;
    JoinEmpty(pre);
    if rest == [] {
      assert pre + rest == pre;
    } else {
      var k := rest[0];
      JoinAllAppend(pre, k);
      assert pre + rest == pre + [k] + rest[1..];
      WrittenOut(pre + [k], t.entries[k], rest[1..]);
      WritesAnyKey(JoinAll(pre), t, t.entries.Keys, k);
    }
  }

  /** The paths of the writes are distinct, and each is made once. */
  lemma {:induction false} WrittenOnce(pre: seq<string>, t: Tree, w: Write)
    requires t.Node? && PlainKeys(t) && AllPlain(pre)
    ensures Writes(JoinAll(pre), t)[w] <= 1
    decreases t, 2, 0
  {
    if w in Writes(JoinAll(pre), t) {
      var rest := Origin(pre, t, w);
      BelowOnce(pre, t, t.entries.Keys, w, rest);
      if w in OwnWrites(JoinAll(pre), Own(JoinAll(pre), t.entries)) {
        assert pre == pre + [];
        JoinAllInjective(pre, pre + rest);
      }
    }
  }

  lemma {:induction false} BelowOnce(pre: seq<string>, t: Tree, keys: set<string>, w: Write, rest: seq<string>)
    requires t.Node? && PlainKeys(t) && AllPlain(pre) && AllPlain(rest) && w.path == JoinAll(pre + rest)
    requires keys <= t.entries.Keys
    ensures WritesBelow(JoinAll(pre), t, keys)[w] <= if rest != [] && rest[0] in keys then 1 else 0
    decreases t, 1, |keys|
  {
    hide WritesAt, JoinAll, AllPlain, PlainKeys;
    if keys != {} {
      var k :| k in keys && WritesBelow(JoinAll(pre), t, keys) == WritesAt(JoinAll(pre), t, k) + WritesBelow(JoinAll(pre), t, keys - {k});
      BelowOnce(pre, t, keys - {k}, w, rest);
      AtOnce(pre, t, k, w, rest);
    }
  }

  lemma {:induction false} AtOnce(pre: seq<string>, t: Tree, k: string, w: Write, rest: seq<string>)
    requires t.Node? && PlainKeys(t) && AllPlain(pre) && AllPlain(rest) && w.path == JoinAll(pre + rest)
    requires k in t.entries
    ensures WritesAt(JoinAll(pre), t, k)[w] <= if rest != [] && rest[0] == k then 1 else 0
    decreases t, 0, 0
  {
    hide Writes, Own, Join, JoinAll;
    if w in WritesAt(JoinAll(pre), t, k) {
      Deeper(pre, t, k, []);
      WrittenOnce(pre + [k], t.entries[k], w);
      var more := Origin(pre + [k], t.entries[k], w);
      JoinAllInjective(pre + rest, pre + [k] + more);
      assert (pre + rest)[|pre|..] == rest && (pre + [k] + more)[|pre|..] == [k] + more;
    }
  }

  /** With non-empty keys free of slashes, the writes are made to distinct paths. */
  lemma PathsDistinct(seed: Tree, v: Write, w: Write)
    requires seed.Node? && PlainKeys(seed) && v in Writes("", seed) && w in Writes("", seed)
    ensures Writes("", seed)[w] == 1 && (v.path == w.path ==> v == w)
  {
    WrittenOnce([], seed, w);
    var p := Origin([], seed, v);
    var q := Origin([], seed, w);
    assert [] + p == p && [] + q == q;
    if v.path == w.path {
      JoinAllInjective(p, q);
    }
  }

  /** A joined path, split at its slashes, gives the keys from the root down. */
  lemma {:induction false} SplitOfJoin(path: seq<string>)
    requires AllPlain(path) && path != []
    ensures Split(JoinAll(path), '/') == path
  {
    var most, last := path[..|path| - 1], path[|path| - 1];
    JoinEmpty(most);
    if most == [] {
      assert JoinAll(path) == last;
      SplitUndivided(last, '/');
      assert path == [last];
    } else {
      SplitOfJoin(most);
      assert JoinAll(path) == JoinAll(most) + ['/'] + last;
      SplitLast(JoinAll(most), last, '/');
      assert path == most + [last];
    }
  }

  /** The path leads through the keys, in order; the root's own path is empty. */
  predicate LeadsThrough(path: string, keys: seq<string>) {
    if keys == [] then path == "" else Split(path, '/') == keys
  }

  lemma LeadsExactly(path: string, keys: seq<string>)
    requires AllPlain(keys)
    ensures LeadsThrough(path, keys) <==> path == JoinAll(keys)
  {
    if keys != [] {
      SplitOfJoin(keys);
      if LeadsThrough(path, keys) { SplitInjective(path, JoinAll(keys), '/'); }
    }
  }

  /** Each leaf, and nothing else, is written: under the path whose parts between slashes are the keys
    above it, from the root down, and under its own key. */
  lemma LeavesWritten(seed: Tree, path: seq<string>, key: string, text: string)
    requires seed.Node? && PlainKeys(seed) && AllPlain(path) && (path + [key])[0] != "verification"
    ensures LeafAt(seed, path + [key]) == Some(text) <==>
      exists w :: w in Writes("", seed) && LeadsThrough(w.path, path) && key in w.data && w.data[key] == text
  {
    hide LeadsThrough;
    LeafOfSub(seed, path, key);
    JoinEmpty(path);
    assert [] + path == path;
    if LeafAt(seed, path + [key]) == Some(text) {
      WrittenOut([], seed, path);
      LeadsExactly(JoinAll(path), path);
      assert key in Own(JoinAll(path), Sub(seed, path).entries);
    }
    if w :| w in Writes("", seed) && LeadsThrough(w.path, path) && key in w.data && w.data[key] == text {
      LeadsExactly(w.path, path);
      var rest := Origin([], seed, w);
      assert [] + rest == rest;
      JoinAllInjective(path, rest);
    }
  }

  // ----- The seed can be recovered -----

  predicate HasLeaf(t: Tree)
    decreases t
  {
    t.Leaf? || (t.Node? && exists k :: k in t.entries && HasLeaf(t.entries[k]))
  }

  /** The tree without nils and without mappings that hold nothing else. */
  function Prune(t: Tree): Tree
    decreases t
  {
    if t.Node? then Node(map k | k in t.entries && HasLeaf(t.entries[k]) :: Prune(t.entries[k])) else t
  }

  lemma {:induction false} SomeLeaf(t: Tree) returns (path: seq<string>)
    requires HasLeaf(t)
    ensures LeafAt(t, path).Some?
    decreases t
  {
    path := [];
    if t.Node? {
      var k :| k in t.entries && HasLeaf(t.entries[k]);
      var rest := SomeLeaf(t.entries[k]);
      path := [k] + rest;
    }
  }

  lemma {:induction false} LeafThere(t: Tree, path: seq<string>)
    requires LeafAt(t, path).Some?
    ensures HasLeaf(t)
    decreases |path|
  {
    if path != [] {
      LeafThere(t.entries[path[0]], path[1..]);
    }
  }

  lemma {:induction false} SameLeavesSamePrune(a: Tree, b: Tree)
    requires forall path :: LeafAt(a, path) == LeafAt(b, path)
    requires HasLeaf(a) || (a.Node? && b.Node?)
    ensures HasLeaf(a) ==> HasLeaf(b)
    ensures Prune(a) == Prune(b)
    decreases a
  {
    if HasLeaf(a) {
      var path := SomeLeaf(a);
      LeafThere(b, path);
    }
    assert LeafAt(a, []) == LeafAt(b, []);
    if a.Node? {
      forall k ensures k in Prune(a).entries <==> k in Prune(b).entries
        ensures k in Prune(a).entries ==> Prune(a).entries[k] == Prune(b).entries[k]
      {
        SameBelow(a, b, k);
        if k in a.entries && HasLeaf(a.entries[k]) {
          SameLeavesSamePrune(a.entries[k], b.entries[k]);
        }
      }
      assert Prune(a).entries == Prune(b).entries;
    }
  }

  lemma SameBelow(a: Tree, b: Tree, k: string)
    requires a.Node? && b.Node? && forall path :: LeafAt(a, path) == LeafAt(b, path)
    ensures (k in a.entries && HasLeaf(a.entries[k])) <==> (k in b.entries && HasLeaf(b.entries[k]))
    ensures k in a.entries && k in b.entries ==> forall path :: LeafAt(a.entries[k], path) == LeafAt(b.entries[k], path)
  {
    hide LeafAt, HasLeaf;
    if k in a.entries && HasLeaf(a.entries[k]) { LeafThereToo(a, b, k); }
    if k in b.entries && HasLeaf(b.entries[k]) { LeafThereToo(b, a, k); }
    if k in a.entries && k in b.entries {
      forall path ensures LeafAt(a.entries[k], path) == LeafAt(b.entries[k], path) {
        LeafBelow(a, k, path);
        LeafBelow(b, k, path);
      }
    }
  }

  lemma LeafBelow(t: Tree, k: string, path: seq<string>)
    requires t.Node?
    ensures LeafAt(t, [k] + path) == if k in t.entries then LeafAt(t.entries[k], path) else None
  {
  }

  lemma LeafThereToo(a: Tree, b: Tree, k: string)
    requires a.Node? && b.Node? && forall path :: LeafAt(a, path) == LeafAt(b, path)
    requires k in a.entries && HasLeaf(a.entries[k])
    ensures k in b.entries && HasLeaf(b.entries[k])
  {
    hide LeafAt, HasLeaf;
    var path := SomeLeaf(a.entries[k]);
    LeafBelow(a, k, path);
    LeafBelow(b, k, path);
    assert LeafAt(a, [k] + path) == LeafAt(b, [k] + path);
    LeafThere(b.entries[k], path);
  }

  /** Mappings that write the same below, up to keys that write nothing. */
  lemma {:induction false} BelowSame(path: string, t: Tree, u: Tree, keys: set<string>, fewer: set<string>)
    requires t.Node? && u.Node? && keys <= t.entries.Keys && fewer <= u.entries.Keys && fewer <= keys
    requires forall k :: k in keys ==> WritesAt(path, t, k) == if k in fewer then WritesAt(path, u, k) else multiset{}
    ensures WritesBelow(path, t, keys) == WritesBelow(path, u, fewer)
    decreases |keys|
  {
    hide WritesAt, WritesBelow;
    NothingLeft(path, t);
    NothingLeft(path, u);
    if keys == {} {
      assert fewer == {};
    } else {
      var k :| k in keys;
      WritesAnyKey(path, t, keys, k);
      if k in fewer {
        WritesAnyKey(path, u, fewer, k);
      } else {
        assert fewer - {k} == fewer;
      }
      BelowSame(path, t, u, keys - {k}, fewer - {k});
    }
  }

  lemma PruneAt(t: Tree, k: string)
    requires t.Node? && k in t.entries
    ensures k in Prune(t).entries <==> HasLeaf(t.entries[k])
    ensures k in Prune(t).entries ==> Prune(t).entries[k] == Prune(t.entries[k])
    ensures t.entries[k].Leaf? ==> Prune(t.entries[k]) == t.entries[k]
    ensures Prune(t.entries[k]).Leaf? == t.entries[k].Leaf? && Prune(t.entries[k]).Node? == t.entries[k].Node?
    ensures HasLeaf(t.entries[k]) ==> HasLeaf(t)
  {
  }

  lemma {:induction false} PruneWrites(path: string, t: Tree)
    requires t.Node?
    ensures Writes(path, Prune(t)) == Writes(path, t)
    ensures !HasLeaf(t) ==> Writes(path, t) == multiset{}
    decreases t
  {
    var u := Prune(t);
    forall k | k in t.entries
      ensures k in u.entries ==> (u.entries[k].Leaf? <==> t.entries[k].Leaf?)
      ensures t.entries[k].Leaf? ==> k in u.entries && u.entries[k] == t.entries[k]
    {
      PruneAt(t, k);
    }
    assert Own(path, t.entries) == Own(path, u.entries) && (!HasLeaf(t) ==> Own(path, t.entries) == map[]);
    forall k | k in t.entries
      ensures WritesAt(path, t, k) == if k in u.entries then WritesAt(path, u, k) else multiset{}
    {
      PruneAt(t, k);
      if t.entries[k].Node? {
        PruneWrites(Join(path, k), t.entries[k]);
      }
    }
    BelowSame(path, t, u, t.entries.Keys, u.entries.Keys);
    assert !HasLeaf(t) ==> u.entries.Keys == {};
  }

  /** The seed without the mapping that is held out. */
  function Rest(seed: Tree): Tree
    requires seed.Node?
  {
    Node(seed.entries - {"verification"})
  }

  lemma RestWrites(seed: Tree)
    requires seed.Node?
    ensures Writes("", Rest(seed)) == Writes("", seed)
  {
    var u := Rest(seed);
    assert Own("", seed.entries) == Own("", u.entries);
    BelowSame("", seed, u, seed.entries.Keys, u.entries.Keys);
  }

  lemma {:induction false} OddKeyNoLeaf(t: Tree, path: seq<string>)
    requires PlainKeys(t) && !AllPlain(path)
    ensures LeafAt(t, path) == None
    decreases |path|
  {
    if t.Node? && path[0] in t.entries {
      OddKeyNoLeaf(t.entries[path[0]], path[1..]);
    }
  }

  lemma SameWritesSameLeaf(a: Tree, b: Tree, path: seq<string>)
    requires a.Node? && b.Node? && PlainKeys(a) && PlainKeys(b) && Writes("", a) == Writes("", b)
    requires LeafAt(Rest(a), path).Some?
    ensures LeafAt(Rest(b), path) == LeafAt(Rest(a), path)
  {
    if !AllPlain(path) {
      OddKeyNoLeaf(Rest(a), path);
    }
    var most, last := path[..|path| - 1], path[|path| - 1];
    assert path == most + [last];
    var text := LeafAt(Rest(a), path).value;
    assert path[0] != "verification" && LeafAt(a, path) == Some(text);
    LeavesWritten(a, most, last, text);
    LeavesWritten(b, most, last, text);
  }

  /** Seeds make the same writes exactly when they are equal up to nils, mappings without a value and
    what is held out. */
  lemma SeedRecovered(a: Tree, b: Tree)
    requires a.Node? && b.Node? && PlainKeys(a) && PlainKeys(b)
    ensures Writes("", a) == Writes("", b) <==> Prune(Rest(a)) == Prune(Rest(b))
  {
    RestWrites(a);
    RestWrites(b);
    PruneWrites("", Rest(a));
    PruneWrites("", Rest(b));
    if Writes("", a) == Writes("", b) {
      forall path ensures LeafAt(Rest(a), path) == LeafAt(Rest(b), path) {
        if LeafAt(Rest(a), path).Some? {
          SameWritesSameLeaf(a, b, path);
        } else if LeafAt(Rest(b), path).Some? {
          SameWritesSameLeaf(b, a, path);
        }
      }
      SameLeavesSamePrune(Rest(a), Rest(b));
    }
  }
}
