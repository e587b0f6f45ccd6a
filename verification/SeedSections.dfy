/** The three sections of a seed file: the template tree, whose leaves refer to entries of the value
  and of the secret section, how one template's commands fill them and how the results of many
  templates are combined. */
module SeedSections {
  import opened Common
  import opened ArrivalOrder
  import opened TemplateTree

  /** Entries by service and name; the fixed outer key `values` or `super-secrets` is left implicit. */
  type Section = map<string, map<string, string>>

  /** What the goroutine of one template works on. */
  datatype Parsed = Parsed(template: Tree, values: Section, secrets: Section)

  /** Where a template file lies: `path[dir]` is the templates folder. */
  datatype Template = Template(path: seq<string>, dir: nat, service: string)

  /** The data already in Vault: service, path of the template and name to value. */
  datatype Store = Store(regions: seq<string>, lookup: (string, seq<string>, string) -> Option<string>)

  /** A template element: a name with a value that the template supplies, or a secret's name. */
  datatype Command = Command(secret: bool, key: string, value: string)

  const DEFAULT_SECRET := "<Enter Secret Here>"

  predicate Weak(value: string) { value == DEFAULT_SECRET || value == "" }

  predicate Placed(t: Template) { t.dir < |t.path| }

  /** Long enough for an element with a value; the program fails on shorter ones. */
  predicate Fits(t: Template) {
    t.dir + 1 < |t.path| && t.dir + (if t.path[t.dir + 1] == "Common" then 2 else 3) <= |t.path|
  }

  function Get(section: Section, service: string, key: string): Option<string> {
    if service in section && key in section[service] then Some(section[service][key]) else None
  }

  function Set(section: Section, service: string, key: string, value: string): Section {
    section[service := (if service in section then section[service] else map[])[key := value]]
  }

  function SectionOf(p: Parsed, secret: bool): Section {
    if secret then p.secrets else p.values
  }

  // ----- One command -----

  /** No element of a parsed template is empty. */
  predicate Spelled(args: seq<string>) {
    forall i :: 0 <= i < |args| ==> |args[i]| > 0
  }

  function Decode(args: seq<string>): Option<Command>
    requires Spelled(args)
  {
    if |args| == 3 then
      Some(Command(false, args[1][1..], if |args[2]| > 1 then args[2][1..|args[2]| - 1] else args[2]))
    else if |args| == 1 then
      Some(Command(true, args[0][1..], if args[0][1..] == "certData" then "data" else DEFAULT_SECRET))
    else None
  }

  /** The program fails on an element of neither form, and on one with a value if the path is too short. */
  predicate Works(t: Template, args: seq<string>)
    requires Placed(t) && Spelled(args)
  {
    Decode(args).Some? && (Decode(args).value.secret || Fits(t))
  }

  function KeyPath(t: Template, secret: bool): seq<string>
    requires Placed(t)
  {
    if secret then t.path[if |t.path| - 1 < t.dir + 3 then |t.path| - 1 else t.dir + 3..]
    else if !Fits(t) then []
    else if t.path[t.dir + 1] == "Common" then t.path[t.dir + 2..]
    else t.path[t.dir + 3..]
  }

  function Found(store: Option<Store>, t: Template, secret: bool, key: string): Option<string>
    requires Placed(t)
  {
    if store.Some? && key != "certData" then store.value.lookup(t.service, KeyPath(t, secret), key) else None
  }

  /** The value that a command offers for an entry: Vault's before the template's. */
  function Offered(key: string, value: string, found: Option<string>): string {
    if key == "certData" then "data" else if found.Some? then found.value else value
  }

  /** A regional name counts only where somebody has given it a value. */
  predicate Counts(key: string, existing: Option<string>, found: Option<string>) {
    '~' in key ==> existing.Some? || found.Some?
  }

  function SetEntry(section: Section, service: string, key: string, value: string, found: Option<string>): Section {
    var existing := Get(section, service, key);
    if !Counts(key, existing, found) || (existing.Some? && !Weak(existing.value)) then section
    else Set(section, service, key, Offered(key, value, found))
  }

  /** The command's own name and its regional names. */
  function Names(store: Option<Store>, key: string): seq<string> {
    [key] + if store.None? then [] else seq(|store.value.regions|, i requires 0 <= i < |store.value.regions| => key + "~" + store.value.regions[i])
  }

  function SetEntries(section: Section, store: Option<Store>, t: Template, c: Command, names: seq<string>): Section
    requires Placed(t)
  {
    if names == [] then section
    else
      var most, last := names[..|names| - 1], names[|names| - 1];
      SetEntry(SetEntries(section, store, t, c, most), t.service, last, c.value, Found(store, t, c.secret, last))
  }

  function Reference(secret: bool, service: string, key: string): string {
    (if secret then "[super-secrets/" else "[values/") + service + ", " + key + "]"
  }

  /** Puts a text at the end of a path, turning whatever is in the way into a mapping. */
  function Put(tree: Tree, path: seq<string>, text: string): Tree
    decreases |path|
  {
    if path == [] then Leaf(text)
    else
      var m := if tree.Node? then tree.entries else map[];
      Node(m[path[0] := Put(if path[0] in m then m[path[0]] else Null, path[1..], text)])
  }

  function ParseOne(p: Parsed, store: Option<Store>, t: Template, c: Command): Parsed
    requires Placed(t)
  {
    var section := SetEntries(SectionOf(p, c.secret), store, t, c, Names(store, c.key));
    Parsed(
      Put(p.template, t.path[t.dir..] + [c.key], Reference(c.secret, t.service, c.key)),
      if c.secret then p.values else section,
      if c.secret then section else p.secrets)
  }

  function ParseAll(p: Parsed, store: Option<Store>, t: Template, cs: seq<Command>): Parsed
    requires Placed(t)
  {
    if cs == [] then p
    else ParseOne(ParseAll(p, store, t, cs[..|cs| - 1]), store, t, cs[|cs| - 1])
  }

  const BLANK := Parsed(Null, map[], map[])

  // ----- The program, which updates the sections it was given -----

  class Sections {
    var template: Tree
    var values: Section
    var secrets: Section

    constructor ()
      ensures State() == BLANK
    {
      template := Null;
      values := map[];
      secrets := map[];
    }

    function State(): Parsed
      reads this
    {
      Parsed(template, values, secrets)
    }

    method SetField(secret: bool, section: Section)
      modifies this
      ensures State() == if secret then old(State()).(secrets := section) else old(State()).(values := section)
    {
      if secret { secrets := section; } else { values := section; }
    }

    method ParseAndSetSection(store: Option<Store>, t: Template, secret: bool, key: string, given: string)
      requires Placed(t)
      modifies this
      ensures State() ==
        var section := SetEntry(old(SectionOf(State(), secret)), t.service, key, given, Found(store, t, secret, key));
        if secret then old(State()).(secrets := section) else old(State()).(values := section)
    {
      var section := SectionOf(State(), secret);
      var value, okValue, existing := given, false, "";
      if t.service in section && key in section[t.service] {
        existing, okValue := section[t.service][key], true;
      }
      if key == "certData" {
        value := "data";
      } else if store.Some? {
        var found := store.value.lookup(t.service, KeyPath(t, secret), key);
        if found.Some? {
          value, okValue := found.value, true;
        }
      }
      if !okValue && '~' in key {
        return;
      }
      if t.service in section {
        if !okValue || existing == DEFAULT_SECRET || existing == "" {
          SetField(secret, section[t.service := section[t.service][key := value]]);
        }
      } else {
        SetField(secret, section[t.service := map[key := value]]);
      }
    }

    /** Fails on an element that does not work and then changes nothing. */
    method Parse(store: Option<Store>, t: Template, args: seq<string>) returns (ok: bool)
      requires Placed(t) && Spelled(args)
      modifies this
      ensures ok == Works(t, args) == (|args| == 1 || (|args| == 3 && Fits(t)))
      ensures State() == if ok then ParseOne(old(State()), store, t, Decode(args).value) else old(State())
      ensures forall key, value :: ok && GivesValue(args, key, value) ==> Takes(old(State()), State(), store, t, false, key, value)
      ensures forall key :: ok && NamesSecret(args, key) ==>
        Takes(old(State()), State(), store, t, true, key, if key == "certData" then "data" else "<Enter Secret Here>")
    {
      WorksExactly(t, args);
      hide Works, Decode, ParseOne, Takes, GivesValue, NamesSecret;
      if (|args| != 1 && |args| != 3) || (|args| == 3 && !Fits(t)) {
        return false;
      }
      ElementTakes(State(), store, t, args);
      Record(store, t, Decode(args).value);
      return true;
    }

    /** The reference first, then the entry and the entries of all regions. */
    method Record(store: Option<Store>, t: Template, c: Command)
      requires Placed(t)
      modifies this
      ensures State() == ParseOne(old(State()), store, t, c)
    {
      hide SetEntry, Found, Put, Reference, KeyPath;
      var names := Names(store, c.key);
      template := Put(template, t.path[t.dir..] + [c.key], Reference(c.secret, t.service, c.key));
      ghost var before := State();
      for i := 0 to |names|
        invariant template == before.template
        invariant SectionOf(State(), !c.secret) == SectionOf(before, !c.secret)
        invariant SectionOf(State(), c.secret) == SetEntries(SectionOf(before, c.secret), store, t, c, names[..i])
      {
        assert names[..i + 1][..i] == names[..i];
        ParseAndSetSection(store, t, c.secret, names[i], c.value);
      }
      assert names[..|names|] == names;
    }

    /** An element of a template is refused if a parameter holds the region mark. */
    method Element(store: Option<Store>, t: Template, args: seq<string>) returns (ok: bool)
      requires Placed(t) && Spelled(args)
      modifies this
      ensures ok == Accepted(t, args)
      ensures State() == if ok then ParseOne(old(State()), store, t, Decode(args).value) else old(State())
    {
      hide ParseOne;
      if exists i :: 0 <= i < |args| && '~' in args[i] {
        return false;
      }
      ok := Parse(store, t, args);
    }

    /** All commands of a template, up to the first that is refused. */
    method ToSeed(store: Option<Store>, t: Template, elements: seq<seq<string>>) returns (ok: bool)
      requires Placed(t) && forall i :: 0 <= i < |elements| ==> Spelled(elements[i])
      modifies this
      ensures ok == AllAccepted(t, elements)
      ensures ok ==> State() == ParseAll(old(State()), store, t, Commands(t, elements))
    {
      hide ParseOne, ParseAll, Commands, Accepted, Works, Decode;
      NoElements(old(State()), store, t);
      for i := 0 to |elements|
        invariant AllAccepted(t, elements[..i])
        invariant State() == ParseAll(old(State()), store, t, Commands(t, elements[..i]))
      {
        var accepted := Element(store, t, elements[i]);
        if !accepted {
          return false;
        }
        ParseAllAppend(old(State()), store, t, elements[..i], elements[i]);
        assert elements[..i + 1] == elements[..i] + [elements[i]];
      }
      assert elements[..|elements|] == elements;
      return true;
    }
  }

  predicate Accepted(t: Template, e: seq<string>) {
    Placed(t) && Spelled(e) && Works(t, e) && forall i :: 0 <= i < |e| ==> '~' !in e[i]
  }

  predicate AllAccepted(t: Template, elements: seq<seq<string>>) {
    forall i :: 0 <= i < |elements| ==> Accepted(t, elements[i])
  }

  function Commands(t: Template, elements: seq<seq<string>>): (cs: seq<Command>)
    requires AllAccepted(t, elements)
    ensures |cs| == |elements|
  {
    if elements == [] then []
    else
      var last := elements[|elements| - 1];
      assert Accepted(t, last);
      Commands(t, elements[..|elements| - 1]) + [Decode(last).value]
  }

  lemma AllAcceptedAppend(t: Template, elements: seq<seq<string>>, e: seq<string>)
    requires AllAccepted(t, elements) && Accepted(t, e)
    ensures AllAccepted(t, elements + [e]) && Decode(e).Some?
  {
    AcceptedDecodes(t, e);
    hide Accepted, Decode;
    assert true;
  }

  lemma CommandsAppend(t: Template, elements: seq<seq<string>>, e: seq<string>)
    requires AllAccepted(t, elements) && Accepted(t, e)
    ensures AllAccepted(t, elements + [e]) && Decode(e).Some?
    ensures Commands(t, elements + [e]) == Commands(t, elements) + [Decode(e).value]
  {
    AllAcceptedAppend(t, elements, e);
    hide Accepted, Works, Decode, AllAccepted;
    var more := elements + [e];
    assert more[..|more| - 1] == elements && more[|more| - 1] == e;
  }

  lemma NoElements(p: Parsed, store: Option<Store>, t: Template)
    requires Placed(t)
    ensures ParseAll(p, store, t, Commands(t, [])) == p
  {
  }

  lemma ParseAllAppend(p: Parsed, store: Option<Store>, t: Template, elements: seq<seq<string>>, e: seq<string>)
    requires Placed(t) && AllAccepted(t, elements) && Accepted(t, e)
    ensures AllAccepted(t, elements + [e]) && Decode(e).Some?
    ensures ParseAll(p, store, t, Commands(t, elements + [e])) == ParseOne(ParseAll(p, store, t, Commands(t, elements)), store, t, Decode(e).value)
  {
    CommandsAppend(t, elements, e);
    hide ParseOne, Commands, AllAccepted, Accepted, Works, Decode;
    var cs := Commands(t, elements + [e]);
    assert cs[..|cs| - 1] == Commands(t, elements);
  }

  lemma AcceptedDecodes(t: Template, e: seq<string>)
    requires Accepted(t, e)
    ensures Decode(e).Some?
  {
  }

  // ----- What one command does to the template -----

  predicate IsPrefix(p: seq<string>, q: seq<string>) {
    |p| <= |q| && p == q[..|p|]
  }

  /** The text lands at its path; of the other leaves only those above and below the path go. */
  lemma {:induction false} PutLeaves(tree: Tree, path: seq<string>, text: string, at: seq<string>)
    ensures LeafAt(Put(tree, path, text), at) ==
      if at == path then Some(text)
      else if IsPrefix(path, at) || IsPrefix(at, path) then None
      else LeafAt(tree, at)
    decreases |path|
  {
    if path != [] && at != [] && at[0] == path[0] {
      var m := if tree.Node? then tree.entries else map[];
      var below := if path[0] in m then m[path[0]] else Null;
      PutLeaves(below, path[1..], text, at[1..]);
      assert at == [at[0]] + at[1..] && path == [path[0]] + path[1..];
      assert IsPrefix(path, at) <==> IsPrefix(path[1..], at[1..]);
      assert IsPrefix(at, path) <==> IsPrefix(at[1..], path[1..]);
      assert path[0] !in m ==> LeafAt(tree, at) == None && LeafAt(Null, at[1..]) == None;
    }
  }

  lemma WorksExactly(t: Template, args: seq<string>)
    requires Placed(t) && Spelled(args)
    ensures Works(t, args) <==> |args| == 1 || (|args| == 3 && Fits(t))
    ensures Works(t, args) ==> Decode(args).Some?
  {
  }

  // ----- What one element does, in the template's own terms -----

  /** An element with a name and a value: a single character, or one in quotes or whatever else surrounds it. */
  predicate GivesValue(args: seq<string>, key: string, value: string) {
    && |args| == 3 && args[1] == "." + key
    && if |args[2]| == 1 then value == args[2]
       else |args[2]| == |value| + 2 && args[2] == [args[2][0]] + value + [args[2][|value| + 1]]
  }

  predicate NamesSecret(args: seq<string>, key: string) {
    |args| == 1 && args[0] == "." + key
  }

  /** What an entry holds after the template has offered `given` for it. */
  function AfterOffer(before: Option<string>, key: string, inVault: Option<string>, given: string): Option<string> {
    if before.Some? && before.value != "" && before.value != "<Enter Secret Here>" then before
    else if key == "certData" then Some("data")
    else if inVault.Some? then inVault
    else if '~' in key && before.None? then None
    else Some(given)
  }

  function InVault(store: Option<Store>, t: Template, secret: bool, key: string): Option<string>
    requires Placed(t)
  {
    if store.None? then None else store.value.lookup(t.service, KeyPath(t, secret), key)
  }

  ghost predicate EntryTakes(p: Parsed, q: Parsed, store: Option<Store>, t: Template, secret: bool, key: string, given: string)
    requires Placed(t)
  {
    Get(SectionOf(q, secret), t.service, key)
      == AfterOffer(Get(SectionOf(p, secret), t.service, key), key, InVault(store, t, secret, key), given)
  }

  /** The template refers to the entry; the entry and those of all regions take what is offered; the other
    section stays. */
  ghost predicate Takes(p: Parsed, q: Parsed, store: Option<Store>, t: Template, secret: bool, key: string, given: string)
    requires Placed(t)
  {
    && LeafAt(q.template, t.path[t.dir..] + [key]) ==
         Some((if secret then "[super-secrets/" else "[values/") + t.service + ", " + key + "]")
    && EntryTakes(p, q, store, t, secret, key, given)
    && (store.Some? ==> forall region :: region in store.value.regions ==>
         EntryTakes(p, q, store, t, secret, key + "~" + region, given))
    && SectionOf(q, !secret) == SectionOf(p, !secret)
  }

  /** Where Vault is asked: under what follows the project and the service folder, or the project alone for
    common templates' values, or the file's name for a secret of a template right in the service folder. */
  lemma AskedUnder(before: seq<string>, folder: string, project: string, service: string, rest: seq<string>, t: Template)
    requires t.path == before + [folder, project, service] + rest && t.dir == |before|
    ensures KeyPath(t, true) == if rest == [] then [service] else rest
    ensures KeyPath(t, false) == if project == "Common" then [service] + rest else rest
  {
    assert t.path[t.dir + 3..] == rest && t.path[t.dir + 2..] == [service] + rest;
  }

  /** An element with a value needs a service folder, or a common template's folder, below the templates. */
  lemma FitsExactly(before: seq<string>, folder: string, more: seq<string>, t: Template)
    requires t.path == before + [folder] + more && t.dir == |before|
    ensures Fits(t) <==> |more| >= 2 || (|more| == 1 && more[0] == "Common")
  {
    assert more != [] ==> t.path[t.dir + 1] == more[0];
  }

  /** A name's entry depends on the offers for that name only; a second one changes nothing. */
  lemma {:induction false} SetEntriesGets(section: Section, store: Option<Store>, t: Template, c: Command, names: seq<string>, key: string)
    requires Placed(t)
    ensures Get(SetEntries(section, store, t, c, names), t.service, key) ==
      if key in names then Get(SetEntry(section, t.service, key, c.value, Found(store, t, c.secret, key)), t.service, key)
      else Get(section, t.service, key)
  {
    hide SetEntry, Get, Found, KeyPath;
    if names != [] {
      var most, last := names[..|names| - 1], names[|names| - 1];
      var found := Found(store, t, c.secret, last);
      SetEntriesGets(section, store, t, c, most, key);
      SetEntryGets(SetEntries(section, store, t, c, most), t.service, last, c.value, found, key);
      SetEntryGets(section, t.service, key, c.value, Found(store, t, c.secret, key), key);
      assert key in names <==> key in most || key == last;
    }
  }

  lemma EntryOffered(p: Parsed, store: Option<Store>, t: Template, c: Command, key: string)
    requires Placed(t) && key in Names(store, c.key)
    ensures EntryTakes(p, ParseOne(p, store, t, c), store, t, c.secret, key, c.value)
  {
    hide SetEntries, SetEntry, Get, KeyPath, Put;
    var section, found := SectionOf(p, c.secret), Found(store, t, c.secret, key);
    SetEntriesGets(section, store, t, c, Names(store, c.key), key);
    SetEntryGets(section, t.service, key, c.value, found, key);
  }

  lemma ParseTakes(p: Parsed, store: Option<Store>, t: Template, c: Command)
    requires Placed(t)
    ensures Takes(p, ParseOne(p, store, t, c), store, t, c.secret, c.key, c.value)
  {
    hide EntryTakes, SetEntries, Put;
    var names, at := Names(store, c.key), t.path[t.dir..] + [c.key];
    PutLeaves(p.template, at, Reference(c.secret, t.service, c.key), at);
    assert names[0] == c.key;
    EntryOffered(p, store, t, c, c.key);
    if store.Some? {
      forall region | region in store.value.regions
        ensures EntryTakes(p, ParseOne(p, store, t, c), store, t, c.secret, c.key + "~" + region, c.value)
      {
        var i :| 0 <= i < |store.value.regions| && store.value.regions[i] == region;
        assert names[i + 1] == c.key + "~" + region;
        EntryOffered(p, store, t, c, c.key + "~" + region);
      }
    }
  }

  lemma DecodedValue(args: seq<string>, key: string, value: string)
    requires Spelled(args) && GivesValue(args, key, value)
    ensures Decode(args) == Some(Command(false, key, value))
  {
  }

  lemma DecodedSecret(args: seq<string>, key: string)
    requires Spelled(args) && NamesSecret(args, key)
    ensures Decode(args) == Some(Command(true, key, if key == "certData" then "data" else "<Enter Secret Here>"))
  {
  }

  /** Everything that an element gives or names, the sections take. */
  lemma ElementTakes(p: Parsed, store: Option<Store>, t: Template, args: seq<string>)
    requires Placed(t) && Spelled(args) && Works(t, args)
    ensures var q := ParseOne(p, store, t, Decode(args).value);
      && (forall key, value :: GivesValue(args, key, value) ==> Takes(p, q, store, t, false, key, value))
      && (forall key :: NamesSecret(args, key) ==> Takes(p, q, store, t, true, key, if key == "certData" then "data" else "<Enter Secret Here>"))
  {
    hide Takes, ParseOne, GivesValue, NamesSecret, Decode;
    var c := Decode(args).value;
    ParseTakes(p, store, t, c);
    forall key, value | GivesValue(args, key, value) ensures Takes(p, ParseOne(p, store, t, c), store, t, false, key, value) {
      DecodedValue(args, key, value);
    }
    forall key | NamesSecret(args, key)
      ensures Takes(p, ParseOne(p, store, t, c), store, t, true, key, if key == "certData" then "data" else "<Enter Secret Here>")
    {
      DecodedSecret(args, key);
    }
  }

  /** A template of one element, without anything in Vault. */
  function Alone(t: Template, args: seq<string>): Parsed
    requires Placed(t) && Spelled(args) && Works(t, args)
  {
    ParseOne(BLANK, None, t, Decode(args).value)
  }

  /** A value in quotes is stored without them. */
  lemma QuotedValueStored(t: Template, first: string, key: string, value: string)
    requires Placed(t) && Fits(t) && first != "" && '~' !in key && key != "certData"
    ensures var args := [first, "." + key, "\"" + value + "\""];
      Spelled(args) && Works(t, args) && Get(Alone(t, args).values, t.service, key) == Some(value)
  {
    var args := [first, "." + key, "\"" + value + "\""];
    assert args[2] == [args[2][0]] + value + [args[2][|value| + 1]];
    assert GivesValue(args, key, value);
    ElementTakes(BLANK, None, t, args);
  }

  /** A number with two digits or more loses the first and the last of them. */
  lemma BareNumberLosesDigits(t: Template, first: string, key: string, high: char, digits: string, low: char)
    requires Placed(t) && Fits(t) && first != "" && '~' !in key && key != "certData"
    ensures var args := [first, "." + key, [high] + digits + [low]];
      Spelled(args) && Works(t, args) && Get(Alone(t, args).values, t.service, key) == Some(digits)
  {
    var args := [first, "." + key, [high] + digits + [low]];
    assert GivesValue(args, key, digits);
    ElementTakes(BLANK, None, t, args);
  }

  /** A secret that nobody has given yet holds the placeholder, a certificate the word data. */
  lemma SecretAwaited(t: Template, key: string)
    requires Placed(t) && '~' !in key
    ensures var args := ["." + key];
      && Spelled(args) && Works(t, args)
      && Get(Alone(t, args).secrets, t.service, key) == Some(if key == "certData" then "data" else "<Enter Secret Here>")
  {
    var args := ["." + key];
    assert NamesSecret(args, key);
    ElementTakes(BLANK, None, t, args);
  }

  // ----- Which value an entry ends up with -----

  function FirstStrong(values: seq<string>): Option<string> {
    if values == [] then None else if !Weak(values[0]) then Some(values[0]) else FirstStrong(values[1..])
  }

  /** The first offer that is neither empty nor the placeholder, or else the last one. */
  function Chosen(offers: seq<string>): Option<string> {
    if offers == [] then None
    else if FirstStrong(offers).Some? then FirstStrong(offers)
    else Some(offers[|offers| - 1])
  }

  lemma {:induction false} ChosenAppend(offers: seq<string>, v: string)
    ensures var c := Chosen(offers); Chosen(offers + [v]) == if c.Some? && !Weak(c.value) then c else Some(v)
  {
    FirstStrongAppend(offers, v);
  }

  lemma {:induction false} FirstStrongAppend(offers: seq<string>, v: string)
    ensures FirstStrong(offers + [v]) == if FirstStrong(offers).Some? then FirstStrong(offers) else FirstStrong([v])
    ensures FirstStrong(offers).None? ==> forall o :: o in offers ==> Weak(o)
    ensures FirstStrong(offers).Some? ==> !Weak(FirstStrong(offers).value)
  {
    if offers == [] {
      assert offers + [v] == [v];
    } else {
      assert (offers + [v])[1..] == offers[1..] + [v];
      FirstStrongAppend(offers[1..], v);
    }
  }

  function OffersOf(store: Option<Store>, t: Template, c: Command, names: seq<string>, key: string): seq<string>
    requires Placed(t)
  {
    if names == [] then []
    else
      var last := names[|names| - 1];
      var found := Found(store, t, c.secret, last);
      OffersOf(store, t, c, names[..|names| - 1], key) +
      if last == key && Counts(key, None, found) then [Offered(key, c.value, found)] else []
  }

  /** Everything that a template's commands and Vault offer for an entry, in order. */
  function Offers(store: Option<Store>, t: Template, cs: seq<Command>, secret: bool, key: string): seq<string>
    requires Placed(t)
  {
    if cs == [] then []
    else
      var last := cs[|cs| - 1];
      Offers(store, t, cs[..|cs| - 1], secret, key) +
      if last.secret == secret then OffersOf(store, t, last, Names(store, last.key), key) else []
  }

  /** For any commands, each entry of a template's sections has the chosen one of the values offered. */
  lemma {:induction false} EntryIsChosen(store: Option<Store>, t: Template, cs: seq<Command>, secret: bool, key: string)
    requires Placed(t)
    ensures Get(SectionOf(ParseAll(BLANK, store, t, cs), secret), t.service, key)
         == Chosen(Offers(store, t, cs, secret, key))
    ensures '~' in key && Found(store, t, secret, key).None? ==> Offers(store, t, cs, secret, key) == []
  {
    if cs != [] {
      var most, last := cs[..|cs| - 1], cs[|cs| - 1];
      EntryIsChosen(store, t, most, secret, key);
      if last.secret == secret {
        var before := SectionOf(ParseAll(BLANK, store, t, most), secret);
        CommandIsChosen(before, store, t, last, Names(store, last.key), key, Offers(store, t, most, secret, key));
      } else {
        assert Offers(store, t, cs, secret, key) == Offers(store, t, most, secret, key);
      }
    }
  }

  lemma SetEntryGets(section: Section, service: string, name: string, value: string, found: Option<string>, key: string)
    ensures var existing := Get(section, service, key);
      Get(SetEntry(section, service, name, value, found), service, key) ==
      if name != key || !Counts(key, existing, found) || (existing.Some? && !Weak(existing.value)) then existing
      else Some(Offered(key, value, found))
  {
  }

  lemma {:induction false} CommandIsChosen(section: Section, store: Option<Store>, t: Template, c: Command, names: seq<string>, key: string, earlier: seq<string>)
    requires Placed(t) && Get(section, t.service, key) == Chosen(earlier)
    requires '~' in key && Found(store, t, c.secret, key).None? ==> earlier == []
    ensures Get(SetEntries(section, store, t, c, names), t.service, key)
         == Chosen(earlier + OffersOf(store, t, c, names, key))
    ensures '~' in key && Found(store, t, c.secret, key).None? ==> OffersOf(store, t, c, names, key) == []
  {
    hide FirstStrong, Found, KeyPath, Offered, SetEntry, Get;
    if names == [] {
      assert earlier + [] == earlier;
    } else {
      var most, last := names[..|names| - 1], names[|names| - 1];
      CommandIsChosen(section, store, t, c, most, key, earlier);
      var offers := earlier + OffersOf(store, t, c, most, key);
      var found := Found(store, t, c.secret, last);
      SetEntryGets(SetEntries(section, store, t, c, most), t.service, last, c.value, found, key);
      if last == key && Counts(key, None, found) {
        ChosenAppend(offers, Offered(key, c.value, found));
        assert earlier + OffersOf(store, t, c, names, key) == offers + [Offered(key, c.value, found)];
      } else {
        assert earlier + OffersOf(store, t, c, names, key) == offers;
      }
    }
  }

  // ----- Referential integrity of one template -----

  /** The leaf at the end of a path names the entry with the path's last name, and there is one. */
  ghost predicate Resolves(values: Section, secrets: Section, path: seq<string>, text: string) {
    path != [] && NamesEntry(values, secrets, path[|path| - 1], text)
  }

  ghost predicate NamesEntry(values: Section, secrets: Section, key: string, text: string) {
    exists service :: RefersTo(values, false, service, key, text) || RefersTo(secrets, true, service, key, text)
  }

  predicate RefersTo(section: Section, secret: bool, service: string, key: string, text: string) {
    text == Reference(secret, service, key) && Get(section, service, key).Some?
  }

  ghost predicate Integrity(p: Parsed) {
    forall path :: LeafAt(p.template, path).Some? ==> Resolves(p.values, p.secrets, path, LeafAt(p.template, path).value)
  }

  /** Entries are never taken away. */
  ghost predicate Extends(more: Section, less: Section) {
    forall service, key :: Get(less, service, key).Some? ==> Get(more, service, key).Some?
  }

  lemma {:induction false} SetEntriesExtends(section: Section, store: Option<Store>, t: Template, c: Command, names: seq<string>)
    requires Placed(t)
    ensures Extends(SetEntries(section, store, t, c, names), section)
    ensures forall name :: name in names && Counts(name, Get(section, t.service, name), Found(store, t, c.secret, name)) ==>
      Get(SetEntries(section, store, t, c, names), t.service, name).Some?
  {
    if names != [] {
      SetEntriesExtends(section, store, t, c, names[..|names| - 1]);
    }
  }

  lemma ResolvesStill(p: Parsed, q: Parsed, path: seq<string>, text: string)
    requires Extends(q.values, p.values) && Extends(q.secrets, p.secrets)
    requires Resolves(p.values, p.secrets, path, text)
    ensures Resolves(q.values, q.secrets, path, text)
  {
    var service :| RefersTo(p.values, false, service, path[|path| - 1], text)
      || RefersTo(p.secrets, true, service, path[|path| - 1], text);
    assert RefersTo(q.values, false, service, path[|path| - 1], text)
      || RefersTo(q.secrets, true, service, path[|path| - 1], text);
  }

  lemma ParseOneExtends(p: Parsed, store: Option<Store>, t: Template, c: Command)
    requires Placed(t)
    ensures Extends(ParseOne(p, store, t, c).values, p.values) && Extends(ParseOne(p, store, t, c).secrets, p.secrets)
    ensures Get(SectionOf(ParseOne(p, store, t, c), c.secret), t.service, c.key).Some?
      <==> Counts(c.key, Get(SectionOf(p, c.secret), t.service, c.key), Found(store, t, c.secret, c.key))
  {
    SetEntriesExtends(SectionOf(p, c.secret), store, t, c, Names(store, c.key));
    assert c.key == Names(store, c.key)[0];
    SetEntriesOnly(SectionOf(p, c.secret), store, t, c, Names(store, c.key), c.key);
  }

  /** A regional name without a value gets no entry. */
  lemma {:induction false} SetEntriesOnly(section: Section, store: Option<Store>, t: Template, c: Command, names: seq<string>, key: string)
    requires Placed(t)
    ensures !Counts(key, Get(section, t.service, key), Found(store, t, c.secret, key)) ==>
      Get(SetEntries(section, store, t, c, names), t.service, key).None?
  {
    if names != [] {
      SetEntriesOnly(section, store, t, c, names[..|names| - 1], key);
    }
  }

  /** A command keeps integrity exactly when its name has no region mark, or has a value already. */
  lemma CommandKeepsIntegrity(p: Parsed, store: Option<Store>, t: Template, c: Command)
    requires Placed(t) && Integrity(p)
    ensures Integrity(ParseOne(p, store, t, c))
      <==> Counts(c.key, Get(SectionOf(p, c.secret), t.service, c.key), Found(store, t, c.secret, c.key))
  {
    hide Counts, Get, Found, LeafAt, SetEntries, Names;
    var q := ParseOne(p, store, t, c);
    var at, text := t.path[t.dir..] + [c.key], Reference(c.secret, t.service, c.key);
    ParseOneExtends(p, store, t, c);
    forall path | LeafAt(q.template, path).Some? && path != at
      ensures Resolves(q.values, q.secrets, path, LeafAt(q.template, path).value)
    {
      PutLeaves(p.template, at, text, path);
      ResolvesStill(p, q, path, LeafAt(p.template, path).value);
    }
    PutLeaves(p.template, at, text, at);
    OneReference(q, at, c.secret, t.service, text);
  }

  lemma OneReference(p: Parsed, path: seq<string>, secret: bool, service: string, text: string)
    requires path != [] && text == Reference(secret, service, path[|path| - 1])
    ensures Resolves(p.values, p.secrets, path, text) <==> Get(SectionOf(p, secret), service, path[|path| - 1]).Some?
  {
    var key := path[|path| - 1];
    forall s, other | text == Reference(s, other, key) ensures s == secret && other == service {
      assert Reference(s, other, key)[1] == (if s then 's' else 'v');
      var from := if secret then 15 else 8;
      assert text[from..|text| - |key| - 3] == service;
      assert Reference(s, other, key)[from..|text| - |key| - 3] == other;
    }
    assert RefersTo(SectionOf(p, secret), secret, service, key, text) == Get(SectionOf(p, secret), service, key).Some?;
  }

  /** Every leaf that a template's accepted elements produce refers to an entry. */
  lemma {:induction false} ToSeedIntegrity(store: Option<Store>, t: Template, elements: seq<seq<string>>)
    requires Placed(t) && AllAccepted(t, elements)
    ensures Integrity(ParseAll(BLANK, store, t, Commands(t, elements)))
  {
    if elements != [] {
      var most, last := elements[..|elements| - 1], elements[|elements| - 1];
      ToSeedIntegrity(store, t, most);
      CommandsAppend(t, most, last);
      assert elements == most + [last];
      var p := ParseAll(BLANK, store, t, Commands(t, most));
      assert '~' !in Decode(last).value.key;
      CommandKeepsIntegrity(p, store, t, Decode(last).value);
    }
  }

  // ----- Combining the results of all templates -----

  function EntriesOf(section: Section, service: string): map<string, string> {
    if service in section then section[service] else map[]
  }

  function CombineOne(combined: Section, section: Section): Section {
    map service | service in combined.Keys + section.Keys :: EntriesOf(combined, service) + EntriesOf(section, service)
  }

  function CombineAll(sections: seq<Section>): Section {
    Fold(CombineOne, map[], sections)
  }

  predicate AgreeOn(s: Section, t: Section, service: string, key: string) {
    Get(s, service, key).Some? && Get(t, service, key).Some? ==> Get(s, service, key) == Get(t, service, key)
  }

  ghost predicate Agreeing(s: Section, t: Section) {
    forall service, key :: AgreeOn(s, t, service, key)
  }

  lemma CombineOneGets(combined: Section, section: Section, service: string, key: string)
    ensures Get(CombineOne(combined, section), service, key) ==
      if Get(section, service, key).Some? then Get(section, service, key) else Get(combined, service, key)
  {
  }

  lemma SectionsEqual(s: Section, t: Section)
    requires s.Keys == t.Keys && forall service, key :: Get(s, service, key) == Get(t, service, key)
    ensures s == t
  {
    forall service | service in s ensures s[service] == t[service] {
      assert forall key :: key in s[service] <==> Get(s, service, key).Some?;
      assert forall key :: key in t[service] <==> Get(t, service, key).Some?;
      assert s[service].Keys == t[service].Keys;
      forall key | key in s[service] ensures s[service][key] == t[service][key] {
        assert Get(s, service, key) == Get(t, service, key);
      }
    }
  }

  lemma CombinesSwap(x: Section, s: Section, t: Section)
    requires Agreeing(s, t)
    ensures CombineOne(CombineOne(x, s), t) == CombineOne(CombineOne(x, t), s)
  {
    hide CombineOne, Get;
    var l, r := CombineOne(CombineOne(x, s), t), CombineOne(CombineOne(x, t), s);
    forall service, key ensures Get(l, service, key) == Get(r, service, key) {
      CombineOneGets(x, s, service, key);
      CombineOneGets(x, t, service, key);
      CombineOneGets(CombineOne(x, s), t, service, key);
      CombineOneGets(CombineOne(x, t), s, service, key);
      assert AgreeOn(s, t, service, key);
    }
    CombineOneKeys(x, s);
    CombineOneKeys(x, t);
    CombineOneKeys(CombineOne(x, s), t);
    CombineOneKeys(CombineOne(x, t), s);
    SectionsEqual(l, r);
  }

  lemma CombineOneKeys(s: Section, t: Section)
    ensures CombineOne(s, t).Keys == s.Keys + t.Keys
  {
  }

  ghost predicate AllAgreeing(sections: seq<Section>) {
    forall s, t :: s in sections && t in sections ==> Agreeing(s, t)
  }

  ghost predicate OrderIrrelevant(sections: seq<Section>) {
    forall arrived :: multiset(arrived) == multiset(sections) ==> CombineAll(arrived) == CombineAll(sections)
  }

  /** The combined section is the same for every order of arrival exactly when no two sections
    disagree on an entry that both have. */
  lemma ArrivalOrderIrrelevant(sections: seq<Section>)
    ensures OrderIrrelevant(sections) <==> AllAgreeing(sections)
  {
    if AllAgreeing(sections) {
      forall x, s, t | s in sections && t in sections
        ensures CombineOne(CombineOne(x, s), t) == CombineOne(CombineOne(x, t), s)
      {
        CombinesSwap(x, s, t);
      }
      forall arrived | multiset(arrived) == multiset(sections) ensures CombineAll(arrived) == CombineAll(sections) {
        FoldPermuted(CombineOne, map[], sections, arrived);
      }
    }
    if OrderIrrelevant(sections) {
      forall s, t, service, key | s in sections && t in sections ensures AgreeOn(s, t, service, key) {
        if !AgreeOn(s, t, service, key) {
          Disagreement(sections, s, t, service, key);
        }
      }
    }
  }

  lemma Disagreement(sections: seq<Section>, s: Section, t: Section, service: string, key: string)
    requires s in sections && t in sections && !AgreeOn(s, t, service, key)
    ensures !OrderIrrelevant(sections)
  {
    hide CombineOne, Get, Fold;
    var rest := WithoutTwo(sections, s, t);
    LastTwo(rest, s, t, service, key);
    LastTwo(rest, t, s, service, key);
    assert CombineAll(rest + [s, t]) != CombineAll(rest + [t, s]);
  }

  lemma LastTwo(sections: seq<Section>, s: Section, t: Section, service: string, key: string)
    requires Get(t, service, key).Some?
    ensures Get(CombineAll(sections + [s, t]), service, key) == Get(t, service, key)
  {
    hide CombineOne, Get;
    assert (sections + [s, t])[..|sections| + 1] == sections + [s];
    CombineOneGets(CombineAll(sections + [s]), t, service, key);
  }

  lemma {:induction false} CombinedHas(sections: seq<Section>, i: nat, service: string, key: string)
    requires i < |sections| && Get(sections[i], service, key).Some?
    ensures Get(CombineAll(sections), service, key).Some?
  {
    var most, last := sections[..|sections| - 1], sections[|sections| - 1];
    CombineOneGets(CombineAll(most), last, service, key);
    if i < |most| {
      CombinedHas(most, i, service, key);
    }
  }

  // ----- Referential integrity of the whole seed -----

  /** One template with its place, its elements and the data that Vault has for it. */
  datatype Job = Job(store: Option<Store>, t: Template, elements: seq<seq<string>>)

  predicate Sound(job: Job) { Placed(job.t) && AllAccepted(job.t, job.elements) }

  function Result(job: Job): Parsed
    requires Sound(job)
  {
    ParseAll(BLANK, job.store, job.t, Commands(job.t, job.elements))
  }

  /** The combined template, values and secrets of results as they arrived. */
  function Combined(results: seq<Parsed>): Parsed {
    Parsed(
      CombineTemplates(Node(map[]), seq(|results|, i requires 0 <= i < |results| => results[i].template)),
      CombineAll(seq(|results|, i requires 0 <= i < |results| => results[i].values)),
      CombineAll(seq(|results|, i requires 0 <= i < |results| => results[i].secrets)))
  }

  lemma CombinedIntegrity(results: seq<Parsed>)
    requires forall i :: 0 <= i < |results| ==> Integrity(results[i])
    ensures Integrity(Combined(results))
  {
    hide CombineOne, Get;
    var all := Combined(results);
    var templates := seq(|results|, i requires 0 <= i < |results| => results[i].template);
    forall path | LeafAt(all.template, path).Some?
      ensures Resolves(all.values, all.secrets, path, LeafAt(all.template, path).value)
    {
      CombinedLeaves(Node(map[]), templates, path);
      var i :| 0 <= i < |templates| && LeafAt(templates[i], path) == LeafAt(all.template, path);
      assert Integrity(results[i]);
      CombinedExtends(results, i);
      ResolvesStill(results[i], all, path, LeafAt(all.template, path).value);
    }
  }

  lemma CombinedExtends(results: seq<Parsed>, i: nat)
    requires i < |results|
    ensures Extends(Combined(results).values, results[i].values) && Extends(Combined(results).secrets, results[i].secrets)
  {
    forall service, key | Get(results[i].values, service, key).Some? ensures Get(Combined(results).values, service, key).Some? {
      CombinedHas(seq(|results|, j requires 0 <= j < |results| => results[j].values), i, service, key);
    }
    forall service, key | Get(results[i].secrets, service, key).Some? ensures Get(Combined(results).secrets, service, key).Some? {
      CombinedHas(seq(|results|, j requires 0 <= j < |results| => results[j].secrets), i, service, key);
    }
  }

  function Results(jobs: seq<Job>): seq<Parsed>
    requires forall i :: 0 <= i < |jobs| ==> Sound(jobs[i])
  {
    seq(|jobs|, i requires 0 <= i < |jobs| => Result(jobs[i]))
  }

  /** Whatever the templates say and in whatever order their results arrive, every leaf of the combined
    template refers to an entry of the combined values or secrets. */
  lemma SeedIntegrity(arrived: seq<Job>)
    requires forall i :: 0 <= i < |arrived| ==> Sound(arrived[i])
    ensures Integrity(Combined(Results(arrived)))
  {
    hide ParseAll;
    forall i | 0 <= i < |arrived| ensures Integrity(Results(arrived)[i]) {
      var job := arrived[i];
      ToSeedIntegrity(job.store, job.t, job.elements);
    }
    CombinedIntegrity(Results(arrived));
  }

  // ----- The loop of CombineSection, with the keys of a map in any order -----

  class Combiner {
    var combined: Section

    constructor ()
      ensures combined == map[]
    {
      combined := map[];
    }

    method CombineSection(sections: seq<Section>)
      modifies this
      ensures combined == Fold(CombineOne, old(combined), sections)
    {
      for i := 0 to |sections|
        invariant combined == Fold(CombineOne, old(combined), sections[..i])
      {
        assert sections[..i + 1][..i] == sections[..i];
        CombineServices(sections[i]);
      }
      assert sections[..|sections|] == sections;
    }

    method CombineServices(section: Section)
      modifies this
      ensures combined == CombineOne(old(combined), section)
    {
      hide CombineOne;
      var todo := section.Keys;
      CombineNothing(combined);
      while todo != {}
        invariant todo <= section.Keys
        invariant combined == CombineOne(old(combined), section - todo)
      {
        var service :| service in todo;
        CombineService(old(combined), section, todo, service);
        CombineEntries(service, section[service]);
        todo := todo - {service};
      }
      assert section - todo == section;
    }

    method CombineEntries(service: string, entries: map<string, string>)
      modifies this
      ensures combined == CombineOne(old(combined), map[service := entries])
    {
      hide CombineOne;
      CombineSingle(combined, service, map[]);
      PlusNothing(EntriesOf(combined, service));
      if service !in combined {
        combined := combined[service := map[]];
      }
      var todo := entries.Keys;
      assert entries - todo == map[];
      while todo != {}
        invariant todo <= entries.Keys
        invariant combined == CombineOne(old(combined), map[service := entries - todo])
      {
        var key :| key in todo;
        CombineEntry(old(combined), service, entries - todo, key, entries[key]);
        combined := combined[service := combined[service][key := entries[key]]];
        assert entries - (todo - {key}) == (entries - todo)[key := entries[key]];
        todo := todo - {key};
      }
      assert entries - todo == entries;
    }
  }

  lemma PlusNothing(m: map<string, string>)
    ensures m + map[] == m
  {
  }

  lemma CombineNothing(c: Section)
    ensures forall s: Section :: s - s.Keys == map[]
    ensures CombineOne(c, map[]) == c
  {
    forall k | k in c ensures CombineOne(c, map[])[k] == c[k] {
      PlusNothing(c[k]);
    }
  }

  lemma CombineSingle(c: Section, service: string, entries: map<string, string>)
    ensures CombineOne(c, map[service := entries]) == c[service := EntriesOf(c, service) + entries]
  {
    var l, r := CombineOne(c, map[service := entries]), c[service := EntriesOf(c, service) + entries];
    assert l.Keys == r.Keys;
    forall k | k in l && k != service ensures l[k] == r[k] {
      PlusNothing(c[k]);
    }
    assert forall k :: k in l ==> l[k] == r[k];
  }

  lemma CombineService(c: Section, section: Section, todo: set<string>, service: string)
    requires service in todo && todo <= section.Keys
    ensures CombineOne(CombineOne(c, section - todo), map[service := section[service]])
         == CombineOne(c, section - (todo - {service}))
  {
    hide CombineOne;
    var less, more := section - todo, section - (todo - {service});
    var before, after := CombineOne(c, less), CombineOne(c, more);
    CombineSingle(before, service, section[service]);
    CombineOneKeys(c, less);
    CombineOneKeys(c, more);
    assert EntriesOf(less, service) == map[];
    CombineOneAt(c, less, service);
    PlusNothing(EntriesOf(c, service));
    var updated := before[service := EntriesOf(before, service) + section[service]];
    assert updated.Keys == after.Keys;
    forall k | k in after ensures after[k] == updated[k] {
      CombineOneAt(c, less, k);
      CombineOneAt(c, more, k);
    }
  }

  lemma CombineOneAt(c: Section, section: Section, k: string)
    ensures EntriesOf(CombineOne(c, section), k) == EntriesOf(c, k) + EntriesOf(section, k)
  {
    PlusNothing(map[]);
  }

  lemma CombineEntry(c: Section, service: string, entries: map<string, string>, key: string, value: string)
    ensures var before := CombineOne(c, map[service := entries]);
      service in before && CombineOne(c, map[service := entries[key := value]]) == before[service := before[service][key := value]]
  {
    hide CombineOne;
    CombineSingle(c, service, entries);
    CombineSingle(c, service, entries[key := value]);
    assert EntriesOf(c, service) + entries[key := value] == (EntriesOf(c, service) + entries)[key := value];
  }
}
