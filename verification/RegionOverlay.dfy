/** A plugin's configuration with regional fields: `field~region` stands for `field` in that region.
  Reading overlays the base fields with a region's, writing puts the base fields back. */
module RegionOverlay {
  datatype Value = Text(text: string) | Flag(on: bool)

  type Fields = map<string, Value>

  const DEFAULTS := ["trcsha256", "copied", "deployed", "trcservicename"]
  const BOOLS := ["copied", "deployed"]

  predicate EndsWith(field: string, suffix: string) {
    |suffix| <= |field| && field[|field| - |suffix|..] == suffix
  }

  predicate Contains(field: string, part: string) {
    part <= field || (field != "" && Contains(field[1..], part))
  }

  function TrimSuffix(field: string, suffix: string): string {
    if EndsWith(field, suffix) then field[..|field| - |suffix|] else field
  }

  function Suffix(region: string): string { if region == "" then "" else "~" + region }

  predicate Parsed(text: string) { text in ["1", "t", "T", "TRUE", "true", "True"] }

  // ----- Reading -----

  /** The fields that mention the region. */
  function Regional(v: Fields, suffix: string): set<string> {
    if suffix == "" then {} else set f | f in v && Contains(f, suffix)
  }

  /** The base values that regional fields replace. */
  function Replaced(v: Fields, suffix: string): Fields {
    ReplacedBy(v, suffix, Regional(v, suffix))
  }

  function ReplacedBy(v: Fields, suffix: string, fields: set<string>): Fields {
    map f | f in fields && TrimSuffix(f, suffix) in v :: TrimSuffix(f, suffix) := v[TrimSuffix(f, suffix)]
  }

  /** The fields overlaid with the regional ones, in some order. */
  function Overlay(v: Fields, suffix: string, order: seq<string>): Fields
    requires forall f :: f in order ==> f in v
  {
    if order == [] then v
    else
      var last := order[|order| - 1];
      Overlay(v, suffix, order[..|order| - 1])[TrimSuffix(last, suffix) := v[last]]
  }

  function DefaultOf(v: Fields, field: string): Value {
    if field in v then v[field] else if field in BOOLS then Text("false") else Text("")
  }

  datatype Data = Data(values: Fields, replaced: Fields)

  /** Without regional data four fields get a regional copy. */
  function WithDefaults(d: Data, v: Fields, suffix: string, n: nat): Data
    requires n <= |DEFAULTS|
  {
    if n == 0 then d
    else
      var before, field := WithDefaults(d, v, suffix, n - 1), DEFAULTS[n - 1];
      Data(before.values[field + suffix := DefaultOf(v, field)], before.replaced[field := DefaultOf(v, field)])
  }

  function WithFlag(d: Data, regional: bool, field: string): Data {
    if field in d.values && d.values[field].Text? then
      Data(d.values[field := Flag(Parsed(d.values[field].text))], if regional then d.replaced[field := d.values[field]] else d.replaced)
    else d
  }

  /** What a caller gets; the flags arrive as text. */
  function Got(v: Fields, region: string, order: seq<string>): Data
    requires forall f :: f in order ==> f in v
  {
    var suffix := Suffix(region);
    var d :=
      if region == "" then Data(v, map[])
      else if Regional(v, suffix) == {} then WithDefaults(Data(v, map[]), v, suffix, |DEFAULTS|)
      else Data(Overlay(v, suffix, order), Replaced(v, suffix));
    WithFlag(WithFlag(d, region != "", "copied"), region != "", "deployed")
  }

  // ----- Writing -----

  /** The replaced fields move to their regional names, in some order. */
  function PutBack(p: Fields, replaced: Fields, suffix: string, order: seq<string>): Fields
    requires forall f :: f in order ==> f in replaced
  {
    if order == [] then p
    else
      var before, last := PutBack(p, replaced, suffix, order[..|order| - 1]), order[|order| - 1];
      if last in before then before[last + suffix := before[last]][last := replaced[last]] else before
  }

  /** An order in which a loop can visit the keys. */
  ghost predicate Visits(order: seq<string>, keys: set<string>) {
    && (forall f :: f in order <==> f in keys)
    && (forall i, j :: 0 <= i < j < |order| ==> order[i] != order[j])
  }

  // ----- The program -----

  class Properties {
    /** The values loaded for the plugin; the caller works on this very map. */
    var valueMap: Fields
    /** The plugin's entry in Vault. */
    var certify: Fields

    constructor (certify: Fields)
      ensures this.certify == certify && valueMap == certify
    {
      this.certify := certify;
      valueMap := certify;
    }

    method GetPluginData(region: string) returns (replaced: Fields, ghost order: seq<string>)
      modifies this`valueMap
      ensures Visits(order, Regional(old(valueMap), Suffix(region)))
      ensures Data(valueMap, replaced) == Got(old(valueMap), region, order)
    {
      hide Overlay, Contains, WithDefaults, Replaced;
      replaced, order := map[], [];
      var suffix := Suffix(region);
      if region != "" {
        var regionFields;
        regionFields, replaced := CollectRegion(suffix);
        assert regionFields.Keys == Regional(valueMap, suffix);
        if regionFields == map[] {
          replaced := AddDefaults(suffix);
        } else {
          order := OverlayRegion(suffix, regionFields);
        }
      }
      replaced := ToFlag(replaced, region != "", "copied");
      replaced := ToFlag(replaced, region != "", "deployed");
    }

    method CollectRegion(suffix: string) returns (regionFields: Fields, replaced: Fields)
      requires suffix != ""
      ensures regionFields.Keys == Regional(valueMap, suffix) && forall f :: f in regionFields ==> f in valueMap && regionFields[f] == valueMap[f]
      ensures replaced == Replaced(valueMap, suffix)
    {
      hide Contains, TrimSuffix, ReplacedBy;
      regionFields, replaced := map[], map[];
      var todo := valueMap.Keys;
      NothingReplaced(valueMap, suffix);
      assert Regional(valueMap, suffix) - todo == {};
      while todo != {}
        invariant todo <= valueMap.Keys
        invariant regionFields.Keys == Regional(valueMap, suffix) - todo
        invariant forall f :: f in regionFields ==> f in valueMap && regionFields[f] == valueMap[f]
        invariant replaced == ReplacedBy(valueMap, suffix, regionFields.Keys)
      {
        var field :| field in todo;
        if Contains(field, suffix) {
          OneMoreReplaced(valueMap, suffix, regionFields.Keys, field);
          assert regionFields[field := valueMap[field]].Keys == regionFields.Keys + {field};
          regionFields := regionFields[field := valueMap[field]];
          if TrimSuffix(field, suffix) in valueMap {
            replaced := replaced[TrimSuffix(field, suffix) := valueMap[TrimSuffix(field, suffix)]];
          }
        }
        todo := todo - {field};
      }
    }

    method AddDefaults(suffix: string) returns (replaced: Fields)
      requires '~' in suffix
      modifies this`valueMap
      ensures Data(valueMap, replaced) == WithDefaults(Data(old(valueMap), map[]), old(valueMap), suffix, |DEFAULTS|)
    {
      replaced := map[];
      for i := 0 to |DEFAULTS|
        invariant Data(valueMap, replaced) == WithDefaults(Data(old(valueMap), map[]), old(valueMap), suffix, i)
        invariant forall j :: i <= j < |DEFAULTS| ==> (DEFAULTS[j] in valueMap <==> DEFAULTS[j] in old(valueMap))
        invariant forall j :: i <= j < |DEFAULTS| && DEFAULTS[j] in valueMap ==> valueMap[DEFAULTS[j]] == old(valueMap)[DEFAULTS[j]]
      {
        var field := DEFAULTS[i];
        assert '~' in field + suffix;
        if field in valueMap {
          replaced := replaced[field := valueMap[field]];
          valueMap := valueMap[field + suffix := valueMap[field]];
        } else if field == "copied" || field == "deployed" {
          replaced := replaced[field := Text("false")];
          valueMap := valueMap[field + suffix := Text("false")];
        } else {
          replaced := replaced[field := Text("")];
          valueMap := valueMap[field + suffix := Text("")];
        }
      }
    }

    method OverlayRegion(suffix: string, regionFields: Fields) returns (ghost order: seq<string>)
      requires forall f :: f in regionFields ==> f in valueMap && regionFields[f] == valueMap[f]
      modifies this`valueMap
      ensures Visits(order, regionFields.Keys)
      ensures valueMap == Overlay(old(valueMap), suffix, order)
    {
      hide TrimSuffix;
      order := [];
      var todo := regionFields.Keys;
      while todo != {}
        invariant todo <= regionFields.Keys
        invariant Visits(order, regionFields.Keys - todo)
        invariant valueMap == Overlay(old(valueMap), suffix, order)
      {
        var field :| field in todo;
        valueMap := valueMap[TrimSuffix(field, suffix) := regionFields[field]];
        order := order + [field];
        todo := todo - {field};
        assert order[..|order| - 1] + [field] == order;
      }
    }

    method ToFlag(before: Fields, regional: bool, field: string) returns (replaced: Fields)
      modifies this`valueMap
      ensures Data(valueMap, replaced) == WithFlag(Data(old(valueMap), before), regional, field)
    {
      replaced := before;
      if field in valueMap && valueMap[field].Text? {
        if regional {
          replaced := replaced[field := valueMap[field]];
        }
        valueMap := valueMap[field := Flag(Parsed(valueMap[field].text))];
      }
    }

    /** Puts the replaced fields back and writes everything over what Vault holds for the plugin. */
    method WritePluginData(replaced: Fields, region: string) returns (ghost order: seq<string>)
      modifies this
      ensures Visits(order, replaced.Keys)
      ensures valueMap == PutBack(old(valueMap), replaced, Suffix(region), order)
      ensures certify == old(certify) + valueMap
    {
      var suffix := Suffix(region);
      order := [];
      var todo := replaced.Keys;
      while todo != {}
        invariant todo <= replaced.Keys
        invariant Visits(order, replaced.Keys - todo)
        invariant valueMap == PutBack(old(valueMap), replaced, suffix, order) && certify == old(certify)
      {
        var field :| field in todo;
        if field in valueMap {
          valueMap := valueMap[field + suffix := valueMap[field]];
          valueMap := valueMap[field := replaced[field]];
        }
        order := order + [field];
        todo := todo - {field};
        assert order[..|order| - 1] + [field] == order;
      }
      var writeMap := certify;
      var left := valueMap.Keys;
      while left != {}
        invariant left <= valueMap.Keys
        invariant writeMap == certify + (valueMap - left)
      {
        var field :| field in left;
        writeMap := writeMap[field := valueMap[field]];
        left := left - {field};
      }
      assert valueMap - left == valueMap;
      certify := writeMap;
    }
  }

  lemma NothingReplaced(v: Fields, suffix: string)
    ensures ReplacedBy(v, suffix, {}) == map[]
  {
  }

  lemma OneMoreReplaced(v: Fields, suffix: string, fields: set<string>, field: string)
    ensures
      var before, base := ReplacedBy(v, suffix, fields), TrimSuffix(field, suffix);
      ReplacedBy(v, suffix, fields + {field}) == if base in v then before[base := v[base]] else before
  {
    hide TrimSuffix;
  }

  // ----- Reading, editing and writing back -----

  /** The caller edits base names only and removes nothing. */
  ghost predicate Edits(values: Fields, edited: Fields) {
    && values.Keys <= edited.Keys
    && forall f :: f in edited && '~' in f ==> f in values && edited[f] == values[f]
  }

  /** One visit of a region, with any order of the loops over maps. */
  ghost predicate Session(s: Fields, region: string, order: seq<string>, edited: Fields, back: seq<string>) {
    && region != ""
    && Visits(order, Regional(s, Suffix(region)))
    && Edits(Got(s, region, order).values, edited)
    && Visits(back, Got(s, region, order).replaced.Keys)
  }

  /** What Vault then holds for the plugin. */
  ghost function Stored(s: Fields, region: string, order: seq<string>, edited: Fields, back: seq<string>): Fields
    requires Session(s, region, order, edited, back)
  {
    s + PutBack(edited, Got(s, region, order).replaced, Suffix(region), back)
  }

  lemma {:induction false} ContainsEnd(field: string, suffix: string)
    ensures Contains(field + suffix, suffix)
  {
    if field == "" {
      assert field + suffix == suffix;
    } else {
      assert (field + suffix)[1..] == field[1..] + suffix;
      ContainsEnd(field[1..], suffix);
    }
  }

  lemma TrimmedBack(field: string, suffix: string)
    ensures EndsWith(field + suffix, suffix) && TrimSuffix(field + suffix, suffix) == field
  {
  }

  lemma {:induction false} OverlayAt(s: Fields, suffix: string, order: seq<string>, n: string)
    requires forall f :: f in order ==> f in s
    ensures n in s ==> n in Overlay(s, suffix, order)
    ensures (forall f :: f in order ==> TrimSuffix(f, suffix) != n) ==>
      (n in Overlay(s, suffix, order) <==> n in s) && (n in s ==> Overlay(s, suffix, order)[n] == s[n])
  {
    if order != [] {
      OverlayAt(s, suffix, order[..|order| - 1], n);
    }
  }

  /** A name that does not mention the region is overlaid by its own regional field only. */
  lemma {:induction false} OverlaidBy(s: Fields, suffix: string, order: seq<string>, n: string)
    requires suffix != "" && !Contains(n, suffix) && n + suffix in order
    requires forall f :: f in order ==> f in s && Contains(f, suffix)
    ensures n in Overlay(s, suffix, order) && Overlay(s, suffix, order)[n] == s[n + suffix]
  {
    hide TrimSuffix, EndsWith, Contains;
    var most, last := order[..|order| - 1], order[|order| - 1];
    TrimmedBack(n, suffix);
    if last != n + suffix {
      OverlaidBy(s, suffix, most, n);
      TrimOther(last, suffix, n);
    }
  }

  lemma TrimOther(f: string, suffix: string, n: string)
    requires Contains(f, suffix) && !Contains(n, suffix) && f != n + suffix
    ensures TrimSuffix(f, suffix) != n
  {
    assert EndsWith(f, suffix) ==> f == TrimSuffix(f, suffix) + suffix;
  }

  lemma {:induction false} PutBackAt(p: Fields, replaced: Fields, suffix: string, back: seq<string>, n: string)
    requires forall f :: f in back ==> f in replaced && f + suffix != n
    ensures n in PutBack(p, replaced, suffix, back) <==> n in p
    ensures n in p ==> PutBack(p, replaced, suffix, back)[n] == if n in back then replaced[n] else p[n]
  {
    if back != [] {
      PutBackAt(p, replaced, suffix, back[..|back| - 1], n);
    }
  }

  lemma {:induction false} PutBackRegional(p: Fields, replaced: Fields, suffix: string, back: seq<string>, n: string)
    requires suffix != "" && forall f :: f in back ==> f in replaced && f + suffix != n && f != n + suffix
    requires n in back && n in p && forall i, j :: 0 <= i < j < |back| ==> back[i] != back[j]
    ensures n + suffix in PutBack(p, replaced, suffix, back) && PutBack(p, replaced, suffix, back)[n + suffix] == p[n]
  {
    var most, last := back[..|back| - 1], back[|back| - 1];
    PutBackAt(p, replaced, suffix, most, n);
    if last != n {
      PutBackRegional(p, replaced, suffix, most, n);
      assert last + suffix != n + suffix by {
        TrimmedBack(last, suffix);
        TrimmedBack(n, suffix);
      }
    }
  }

  lemma {:induction false} WithDefaultsAt(s: Fields, suffix: string, k: nat, n: string)
    requires k <= |DEFAULTS|
    ensures var d := WithDefaults(Data(s, map[]), s, suffix, k);
      && (n in s ==> n in d.values)
      && ((forall f :: f in DEFAULTS ==> f + suffix != n) && n in s ==> d.values[n] == s[n])
      && (n in d.replaced <==> n in DEFAULTS[..k]) && (n in d.replaced ==> d.replaced[n] == DefaultOf(s, n))
  {
    if k > 0 {
      WithDefaultsAt(s, suffix, k - 1, n);
      assert DEFAULTS[..k] == DEFAULTS[..k - 1] + [DEFAULTS[k - 1]];
    }
  }

  /** What reading leaves of a stored field other than the two flags. */
  lemma GotAt(s: Fields, region: string, order: seq<string>, n: string)
    requires region != "" && Visits(order, Regional(s, Suffix(region)))
    requires n in s && !EndsWith(n, Suffix(region)) && n !in BOOLS
    ensures var d := Got(s, region, order);
      n in d.values && (if n in d.replaced then d.replaced[n] == s[n] else d.values[n] == s[n])
  {
    hide Contains, TrimSuffix, EndsWith, WithDefaults, Overlay, Replaced;
    var suffix := Suffix(region);
    if Regional(s, suffix) == {} {
      WithDefaultsAt(s, suffix, |DEFAULTS|, n);
      NoneEnding(DEFAULTS, suffix, n);
    } else {
      OverlayAt(s, suffix, order, n);
      ReplacedAt(s, suffix, order, n);
    }
  }

  lemma ReplacedAt(s: Fields, suffix: string, order: seq<string>, n: string)
    requires forall f :: f in order <==> f in Regional(s, suffix)
    ensures n in Replaced(s, suffix) ==> n in s && Replaced(s, suffix)[n] == s[n]
    ensures n in s && n !in Replaced(s, suffix) ==> forall f :: f in order ==> TrimSuffix(f, suffix) != n
  {
    hide Contains, TrimSuffix;
  }

  lemma NoneEnding(back: seq<string>, suffix: string, n: string)
    requires !EndsWith(n, suffix)
    ensures forall f :: f in back ==> f + suffix != n
  {
    forall f | f in back ensures f + suffix != n {
      TrimmedBack(f, suffix);
    }
  }

  /** The fields of every other region are left as they were. */
  lemma OtherRegionsKept(s: Fields, region: string, order: seq<string>, edited: Fields, back: seq<string>, n: string)
    requires Session(s, region, order, edited, back)
    requires n in s && '~' in n && !EndsWith(n, Suffix(region))
    ensures Stored(s, region, order, edited, back)[n] == s[n]
  {
    hide Got;
    GotAt(s, region, order, n);
    NoneEnding(back, Suffix(region), n);
    PutBackAt(edited, Got(s, region, order).replaced, Suffix(region), back, n);
  }

  /** A base field with a counterpart for the region keeps its value, and the edited value is stored
    for the region. */
  lemma BaseKeptEditStored(s: Fields, region: string, order: seq<string>, edited: Fields, back: seq<string>, n: string)
    requires Session(s, region, order, edited, back)
    requires n in s && !EndsWith(n, Suffix(region)) && n !in BOOLS && n + Suffix(region) in s
    ensures Stored(s, region, order, edited, back)[n] == s[n] && n in edited
    ensures n + Suffix(region) + Suffix(region) !in s ==> Stored(s, region, order, edited, back)[n + Suffix(region)] == edited[n]
  {
    var suffix := Suffix(region);
    var d := Got(s, region, order);
    GotAt(s, region, order, n);
    HasCounterpart(s, region, order, n);
    NoneEnding(back, suffix, n);
    PutBackAt(edited, d.replaced, suffix, back, n);
    if n + suffix + suffix !in s {
      NotReplaced(s, region, order, n + suffix);
      PutBackRegional(edited, d.replaced, suffix, back, n);
    }
  }

  lemma HasCounterpart(s: Fields, region: string, order: seq<string>, n: string)
    requires region != "" && Visits(order, Regional(s, Suffix(region)))
    requires n in s && n + Suffix(region) in s
    ensures n + Suffix(region) in Regional(s, Suffix(region)) && n in Got(s, region, order).replaced
    ensures n in Replaced(s, Suffix(region))
  {
    hide Contains;
    ContainsEnd(n, Suffix(region));
    TrimmedBack(n, Suffix(region));
  }

  /** A regional name is replaced only by a field that bears the region's mark twice. */
  lemma NotReplaced(s: Fields, region: string, order: seq<string>, m: string)
    requires region != "" && Visits(order, Regional(s, Suffix(region)))
    requires EndsWith(m, Suffix(region)) && m + Suffix(region) !in s && m in s
    ensures m !in Got(s, region, order).replaced
    ensures forall f :: f in order ==> TrimSuffix(f, Suffix(region)) != m
  {
    hide Got, Contains;
    var suffix := Suffix(region);
    RegionalName(s, region, m);
    GotRegional(s, region, order, m);
    forall f | f in Regional(s, suffix) ensures TrimSuffix(f, suffix) != m {
      TrimsApart(f, suffix, m);
    }
  }

  lemma TrimsApart(f: string, suffix: string, m: string)
    requires EndsWith(m, suffix) && f != m + suffix && suffix != ""
    ensures TrimSuffix(f, suffix) != m
  {
    assert EndsWith(f, suffix) ==> f == TrimSuffix(f, suffix) + suffix;
  }

  lemma Marked(field: string, region: string)
    requires region != ""
    ensures '~' in field + Suffix(region) && '~' in Suffix(region)
    ensures EndsWith(field, Suffix(region)) ==> '~' in field
    ensures Contains(field, Suffix(region)) ==> '~' in field
  {
    var suffix := Suffix(region);
    assert suffix[0] == '~' && (field + suffix)[|field|] == '~';
    assert EndsWith(field, suffix) ==> field[|field| - |suffix|] == suffix[0];
    if Contains(field, suffix) {
      if suffix <= field {
        assert field[0] == '~';
      } else {
        Marked(field[1..], region);
      }
    }
  }

  lemma {:induction false} RestoredLast(p: Fields, replaced: Fields, suffix: string, back: seq<string>, m: string, j: nat)
    requires j < |back| && back[j] == m && m in p && forall f :: f in back ==> f in replaced
    requires forall k :: j < k < |back| ==> back[k] != m && back[k] + suffix != m
    ensures m in PutBack(p, replaced, suffix, back) && PutBack(p, replaced, suffix, back)[m] == replaced[m]
  {
    var most := back[..|back| - 1];
    if j < |most| {
      RestoredLast(p, replaced, suffix, most, m, j);
    } else {
      Present(p, replaced, suffix, most, m);
    }
  }

  lemma {:induction false} Present(p: Fields, replaced: Fields, suffix: string, back: seq<string>, m: string)
    requires m in p && forall f :: f in back ==> f in replaced
    ensures m in PutBack(p, replaced, suffix, back)
  {
    if back != [] {
      Present(p, replaced, suffix, back[..|back| - 1], m);
    }
  }

  /** A field that bears the mark twice can lose the edit: it does when the loop restores the region's
    field after the base field. */
  lemma DoubledMarkLosesEdit(s: Fields, region: string, order: seq<string>, edited: Fields, back: seq<string>, n: string, i: nat, j: nat)
    requires Session(s, region, order, edited, back)
    requires i < j < |back| && back[i] == n && back[j] == n + Suffix(region) && n + Suffix(region) in s
    ensures Stored(s, region, order, edited, back)[n + Suffix(region)] == s[n + Suffix(region)]
  {
    hide PutBack;
    var suffix, m := Suffix(region), n + Suffix(region);
    RegionalReplaced(s, region, order, m);
    forall k | j < k < |back| ensures back[k] != m && back[k] + suffix != m {
      TrimmedBack(back[k], suffix);
      TrimmedBack(n, suffix);
    }
    RestoredLast(edited, Got(s, region, order).replaced, suffix, back, m, j);
  }

  /** A field that ends with the region's mark is regional and no base name. */
  lemma RegionalName(s: Fields, region: string, m: string)
    requires region != "" && m in s && EndsWith(m, Suffix(region))
    ensures m in Regional(s, Suffix(region)) && m !in BOOLS && m !in DEFAULTS
  {
    hide Contains, EndsWith;
    Marked(m, region);
    NotEnding(m, Suffix(region));
    assert '~' in m;
  }

  /** Flags aside, a region with data overlays its fields and saves what they replace. */
  lemma GotRegional(s: Fields, region: string, order: seq<string>, m: string)
    requires region != "" && Visits(order, Regional(s, Suffix(region))) && Regional(s, Suffix(region)) != {} && m !in BOOLS
    ensures
      var d, values := Got(s, region, order), Overlay(s, Suffix(region), order);
      && (m in d.values <==> m in values) && (m in values ==> d.values[m] == values[m])
      && (m in d.replaced <==> m in Replaced(s, Suffix(region)))
      && (m in d.replaced ==> d.replaced[m] == Replaced(s, Suffix(region))[m])
  {
    hide Regional, Overlay, Replaced;
    assert m != "copied" && m != "deployed";
  }

  lemma RegionalReplaced(s: Fields, region: string, order: seq<string>, m: string)
    requires region != "" && Visits(order, Regional(s, Suffix(region))) && m in s && EndsWith(m, Suffix(region))
    ensures var d := Got(s, region, order); m in d.values && (m in d.replaced ==> d.replaced[m] == s[m])
    ensures m in Regional(s, Suffix(region))
  {
    hide Got, Regional, Overlay, Replaced, TrimSuffix;
    var suffix := Suffix(region);
    RegionalName(s, region, m);
    GotRegional(s, region, order, m);
    OverlayAt(s, suffix, order, m) by { assert forall f :: f in order ==> f in s by { RegionalIn(s, suffix); } }
    ReplacedAt(s, suffix, order, m);
  }

  lemma RegionalIn(s: Fields, suffix: string)
    ensures forall f :: f in Regional(s, suffix) ==> f in s
  {
  }

  /** What reading does to a flag that is stored as text. */
  lemma FlagAt(s: Fields, region: string, order: seq<string>, n: string)
    requires region != "" && Visits(order, Regional(s, Suffix(region)))
    requires n in BOOLS && n in s && s[n].Text? && (n + Suffix(region) in s ==> s[n + Suffix(region)].Text?)
    ensures var d := Got(s, region, order);
      n in d.values && n in d.replaced && d.replaced[n] == if n + Suffix(region) in s then s[n + Suffix(region)] else s[n]
  {
    hide Contains, TrimSuffix, EndsWith, WithDefaults, Overlay, Replaced;
    var suffix := Suffix(region);
    Marked(n, region);
    ContainsEnd(n, suffix);
    assert DEFAULTS[..|DEFAULTS|] == DEFAULTS;
    if Regional(s, suffix) == {} {
      assert n + suffix in s ==> n + suffix in Regional(s, suffix);
      WithDefaultsAt(s, suffix, |DEFAULTS|, n);
      NoneEnding(DEFAULTS, suffix, n);
    } else if n + suffix in s {
      OverlaidBy(s, suffix, order, n);
    } else {
      forall f | f in order ensures TrimSuffix(f, suffix) != n {
        TrimOther(f, suffix, n);
      }
      OverlayAt(s, suffix, order, n);
    }
  }

  /** A flag keeps its base value exactly when the region's value, if there is one, is the same. */
  lemma FlagKept(s: Fields, region: string, order: seq<string>, edited: Fields, back: seq<string>, n: string)
    requires Session(s, region, order, edited, back)
    requires n in BOOLS && n in s && s[n].Text? && (n + Suffix(region) in s ==> s[n + Suffix(region)].Text?)
    ensures Stored(s, region, order, edited, back)[n] == s[n] <==>
      (n + Suffix(region) in s ==> s[n + Suffix(region)] == s[n])
  {
    hide Got, PutBack, EndsWith, Contains;
    FlagAt(s, region, order, n);
    Marked(n, region);
    NoneEnding(back, Suffix(region), n);
    PutBackAt(edited, Got(s, region, order).replaced, Suffix(region), back, n);
  }

  lemma FirstAt(s: Fields, region: string, order: seq<string>, n: string)
    requires region != "" && Visits(order, Regional(s, Suffix(region)))
    requires Regional(s, Suffix(region)) == {} && n in DEFAULTS && n in s && (n in BOOLS ==> s[n].Text?)
    ensures var d := Got(s, region, order);
      n in d.values && n + Suffix(region) in d.values && n in d.replaced && d.replaced[n] == s[n] && n + Suffix(region) !in d.replaced
  {
    hide Contains, TrimSuffix, EndsWith, WithDefaults;
    var suffix := Suffix(region);
    Marked(n, region);
    WithDefaultsAt(s, suffix, |DEFAULTS|, n);
    WithDefaultsAt(s, suffix, |DEFAULTS|, n + suffix);
    WithDefaultsHas(s, suffix, |DEFAULTS|, n);
    NoneEnding(DEFAULTS, suffix, n);
  }

  lemma {:induction false} WithDefaultsHas(s: Fields, suffix: string, k: nat, n: string)
    requires k <= |DEFAULTS| && n in DEFAULTS[..k]
    ensures n + suffix in WithDefaults(Data(s, map[]), s, suffix, k).values
  {
    assert DEFAULTS[..k] == DEFAULTS[..k - 1] + [DEFAULTS[k - 1]];
    if n in DEFAULTS[..k - 1] {
      WithDefaultsHas(s, suffix, k - 1, n);
    }
  }

  /** Without any regional data the four default fields keep their base values and what the caller
    made of them is stored for the region. */
  lemma FirstVisit(s: Fields, region: string, order: seq<string>, edited: Fields, back: seq<string>, n: string)
    requires Session(s, region, order, edited, back)
    requires Regional(s, Suffix(region)) == {} && n in DEFAULTS && n in s && (n in BOOLS ==> s[n].Text?)
    ensures var stored := Stored(s, region, order, edited, back);
      stored[n] == s[n] && n in edited && n + Suffix(region) in stored && stored[n + Suffix(region)] == edited[n]
  {
    hide Got, PutBack, EndsWith, Contains;
    FirstAt(s, region, order, n);
    Marked(n, region);
    NoneEnding(back, Suffix(region), n);
    PutBackAt(edited, Got(s, region, order).replaced, Suffix(region), back, n);
    PutBackRegional(edited, Got(s, region, order).replaced, Suffix(region), back, n);
  }

  lemma OrphanAt(s: Fields, region: string, order: seq<string>, n: string)
    requires region != "" && Visits(order, Regional(s, Suffix(region)))
    requires n !in s && n + Suffix(region) in s && !Contains(n, Suffix(region)) && n !in BOOLS
    requires n + Suffix(region) + Suffix(region) !in s
    ensures var d := Got(s, region, order);
      && n in d.values && d.values[n] == s[n + Suffix(region)] && n !in d.replaced
      && n + Suffix(region) in d.values && d.values[n + Suffix(region)] == s[n + Suffix(region)] && n + Suffix(region) !in d.replaced
  {
    hide Contains, TrimSuffix, EndsWith, Overlay;
    var suffix := Suffix(region);
    Marked(n, region);
    ContainsEnd(n, suffix);
    TrimmedBack(n, suffix);
    OverlaidBy(s, suffix, order, n);
    NotReplaced(s, region, order, n + suffix);
    ReplacedAt(s, suffix, order, n);
    ReplacedAt(s, suffix, order, n + suffix);
    OverlayAt(s, suffix, order, n + suffix);
  }

  /** Where only the region has a field, its value turns up as a base value: an edit makes a base field
    of it and the region keeps the old value. */
  lemma OrphanEdit(s: Fields, region: string, order: seq<string>, edited: Fields, back: seq<string>, n: string)
    requires Session(s, region, order, edited, back)
    requires n !in s && n + Suffix(region) in s && !Contains(n, Suffix(region)) && n !in BOOLS
    requires n + Suffix(region) + Suffix(region) !in s
    ensures n in Got(s, region, order).values && Got(s, region, order).values[n] == s[n + Suffix(region)]
    ensures var stored := Stored(s, region, order, edited, back);
      n in edited && n in stored && stored[n] == edited[n] && stored[n + Suffix(region)] == s[n + Suffix(region)]
  {
    hide Got, Contains, TrimSuffix;
    var suffix := Suffix(region);
    OrphanAt(s, region, order, n);
    Marked(n, region);
    NotEnding(n, suffix);
    NoneEnding(back, suffix, n);
    PutBackAt(edited, Got(s, region, order).replaced, suffix, back, n);
    forall f | f in back ensures f + suffix != n + suffix {
      TrimmedBack(f, suffix);
      TrimmedBack(n, suffix);
    }
    PutBackAt(edited, Got(s, region, order).replaced, suffix, back, n + suffix);
  }

  lemma NotEnding(n: string, suffix: string)
    ensures EndsWith(n, suffix) ==> Contains(n, suffix)
  {
    if EndsWith(n, suffix) {
      ContainsEnd(n[..|n| - |suffix|], suffix);
      assert n == n[..|n| - |suffix|] + suffix;
    }
  }

  // ----- For which fields reading and writing do what they should -----

  /** Any set of keys can be visited by a loop. */
  lemma SomeOrder(keys: set<string>) returns (order: seq<string>)
    ensures Visits(order, keys)
    decreases |keys|
  {
    order := [];
    if keys != {} {
      var k :| k in keys;
      var rest := SomeOrder(keys - {k});
      order := rest + [k];
    }
  }

  /** And two of the keys last, in the given order. */
  lemma OrderEndingWith(keys: set<string>, a: string, b: string) returns (order: seq<string>)
    requires a in keys && b in keys && a != b
    ensures Visits(order, keys) && |order| >= 2 && order[|order| - 2] == a && order[|order| - 1] == b
  {
    var rest := SomeOrder(keys - {a, b});
    order := rest + [a, b];
  }

  function Other(v: Value): Value { if v == Flag(true) then Flag(false) else Flag(true) }

  ghost predicate KeepsBase(s: Fields, region: string, n: string) {
    forall order, edited, back :: Session(s, region, order, edited, back) ==>
      var stored := Stored(s, region, order, edited, back); n in stored && n in s && stored[n] == s[n]
  }

  ghost predicate StoresEdit(s: Fields, region: string, n: string) {
    forall order, edited, back :: Session(s, region, order, edited, back) ==>
      var stored, m := Stored(s, region, order, edited, back), n + Suffix(region);
      n in edited && m in stored && stored[m] == edited[n]
  }

  /** In every visit of the region the edited value of a base field with a counterpart is stored for the
    region, if and only if no field bears the region's mark twice. */
  lemma EditStoredExactly(s: Fields, region: string, n: string)
    requires region != "" && n in s && '~' !in n && n !in BOOLS && n + Suffix(region) in s
    ensures StoresEdit(s, region, n) <==> n + Suffix(region) + Suffix(region) !in s
  {
    hide Got, Contains;
    Marked(n, region);
    if n + Suffix(region) + Suffix(region) !in s {
      forall order, edited, back | Session(s, region, order, edited, back)
        ensures
          var stored, m := Stored(s, region, order, edited, back), n + Suffix(region);
          n in edited && m in stored && stored[m] == edited[n]
      {
        BaseKeptEditStored(s, region, order, edited, back, n);
      }
    } else {
      EditCanGetLost(s, region, n);
    }
  }

  lemma EditCanGetLost(s: Fields, region: string, n: string)
    requires region != "" && n in s && '~' !in n && n !in BOOLS && n + Suffix(region) in s
    requires n + Suffix(region) + Suffix(region) in s
    ensures !StoresEdit(s, region, n)
  {
    hide Got, Contains, PutBack, Regional, StoresEdit;
    var suffix, m := Suffix(region), n + Suffix(region);
    var order := SomeOrder(Regional(s, suffix));
    Marked(n, region);
    Marked(m, region);
    OrderVisits(s, region, order);
    var d := Got(s, region, order);
    GotAt(s, region, order, n);
    HasCounterpart(s, region, order, n);
    HasCounterpart(s, region, order, m);
    var edited := d.values[n := Other(s[m])];
    assert Edits(d.values, edited);
    var back := OrderEndingWith(d.replaced.Keys, n, m);
    DoubledMarkLosesEdit(s, region, order, edited, back, n, |back| - 2, |back| - 1);
    Refutes(s, region, order, edited, back, n);
  }

  lemma OrderVisits(s: Fields, region: string, order: seq<string>)
    requires region != "" && Visits(order, Regional(s, Suffix(region)))
    ensures forall f :: f in order ==> f in s
  {
  }

  lemma Refutes(s: Fields, region: string, order: seq<string>, edited: Fields, back: seq<string>, n: string)
    requires Session(s, region, order, edited, back) && n in edited
    requires var stored := Stored(s, region, order, edited, back); n + Suffix(region) in stored && stored[n + Suffix(region)] != edited[n]
    ensures !StoresEdit(s, region, n)
  {
  }

  /** A base field without a counterpart is edited for all regions, unless the region has no data at all and
    the field is one of the four defaults. */
  lemma EditedForAll(s: Fields, region: string, order: seq<string>, edited: Fields, back: seq<string>, n: string)
    requires Session(s, region, order, edited, back)
    requires n in s && '~' !in n && n !in BOOLS && n + Suffix(region) !in s
    requires Regional(s, Suffix(region)) == {} ==> n !in DEFAULTS
    ensures n in edited && Stored(s, region, order, edited, back)[n] == edited[n]
  {
    hide Got, Contains;
    Marked(n, region);
    GotAt(s, region, order, n);
    BaseNotReplaced(s, region, order, n);
    NoneEnding(back, Suffix(region), n);
    PutBackAt(edited, Got(s, region, order).replaced, Suffix(region), back, n);
  }

  lemma BaseNotReplaced(s: Fields, region: string, order: seq<string>, n: string)
    requires region != "" && Visits(order, Regional(s, Suffix(region)))
    requires n in s && '~' !in n && n !in BOOLS && n + Suffix(region) !in s
    requires Regional(s, Suffix(region)) == {} ==> n !in DEFAULTS
    ensures n !in Got(s, region, order).replaced
  {
    hide Contains, WithDefaults, Overlay;
    var suffix := Suffix(region);
    Marked(n, region);
    if Regional(s, suffix) == {} {
      assert DEFAULTS[..|DEFAULTS|] == DEFAULTS;
      WithDefaultsAt(s, suffix, |DEFAULTS|, n);
    } else {
      forall f | f in Regional(s, suffix) ensures TrimSuffix(f, suffix) != n {
        TrimOther(f, suffix, n);
      }
      GotRegional(s, region, order, n);
    }
  }

  /** In every visit of the region a base field keeps its stored value, if and only if the region has a
    counterpart, or has no data at all and the field is one of the four defaults. */
  lemma BaseKeptExactly(s: Fields, region: string, n: string)
    requires region != "" && n in s && '~' !in n && n !in BOOLS
    ensures KeepsBase(s, region, n) <==>
      n + Suffix(region) in s || (Regional(s, Suffix(region)) == {} && n in DEFAULTS)
  {
    hide Got, Contains, Regional;
    Marked(n, region);
    if n + Suffix(region) in s || (Regional(s, Suffix(region)) == {} && n in DEFAULTS) {
      forall order, edited, back | Session(s, region, order, edited, back)
        ensures var stored := Stored(s, region, order, edited, back); n in stored && n in s && stored[n] == s[n]
      {
        if n + Suffix(region) in s {
          BaseKeptEditStored(s, region, order, edited, back, n);
        } else {
          FirstVisit(s, region, order, edited, back, n);
        }
      }
    } else {
      BaseCanChange(s, region, n);
    }
  }

  lemma BaseCanChange(s: Fields, region: string, n: string)
    requires region != "" && n in s && '~' !in n && n !in BOOLS && n + Suffix(region) !in s
    requires Regional(s, Suffix(region)) == {} ==> n !in DEFAULTS
    ensures !KeepsBase(s, region, n)
  {
    hide Got, Contains, PutBack, Regional, KeepsBase;
    var order := SomeOrder(Regional(s, Suffix(region)));
    OrderVisits(s, region, order);
    var d := Got(s, region, order);
    var edited := d.values[n := Other(s[n])];
    assert Edits(d.values, edited);
    var back := SomeOrder(d.replaced.Keys);
    EditedForAll(s, region, order, edited, back, n);
    Changes(s, region, order, edited, back, n);
  }

  lemma Changes(s: Fields, region: string, order: seq<string>, edited: Fields, back: seq<string>, n: string)
    requires Session(s, region, order, edited, back) && n in s
    requires n in Stored(s, region, order, edited, back) && Stored(s, region, order, edited, back)[n] != s[n]
    ensures !KeepsBase(s, region, n)
  {
  }

  // ----- Flags, and regions whose names contain one another -----

  /** A marked name that is not stored is not replaced. */
  lemma UnstoredNotReplaced(s: Fields, region: string, order: seq<string>, m: string)
    requires region != "" && Visits(order, Regional(s, Suffix(region))) && m !in s && '~' in m
    ensures m !in Got(s, region, order).replaced
  {
    hide Contains, WithDefaults, Overlay, TrimSuffix;
    var suffix := Suffix(region);
    assert m !in BOOLS && m !in DEFAULTS;
    if Regional(s, suffix) == {} {
      assert DEFAULTS[..|DEFAULTS|] == DEFAULTS;
      WithDefaultsAt(s, suffix, |DEFAULTS|, m);
    } else {
      GotRegional(s, region, order, m);
    }
  }

  /** The edited value of a flag is stored for the region, whether or not it had one, unless a field bears
    the mark twice. */
  lemma FlagEditStored(s: Fields, region: string, order: seq<string>, edited: Fields, back: seq<string>, n: string)
    requires Session(s, region, order, edited, back)
    requires n in BOOLS && n in s && s[n].Text? && (n + Suffix(region) in s ==> s[n + Suffix(region)].Text?)
    requires n + Suffix(region) + Suffix(region) !in s
    ensures
      var stored, m := Stored(s, region, order, edited, back), n + Suffix(region);
      n in edited && m in stored && stored[m] == edited[n]
  {
    hide Got, Contains, PutBack, EndsWith;
    FlagAt(s, region, order, n);
    Marked(n, region);
    MarkNotReplaced(s, region, order, n);
    NoneEnding(back, Suffix(region), n);
    PutBackRegional(edited, Got(s, region, order).replaced, Suffix(region), back, n);
  }

  lemma MarkNotReplaced(s: Fields, region: string, order: seq<string>, n: string)
    requires region != "" && Visits(order, Regional(s, Suffix(region))) && n + Suffix(region) + Suffix(region) !in s
    ensures n + Suffix(region) !in Got(s, region, order).replaced
  {
    hide Got, Contains, EndsWith, Regional;
    MarkedSum(n, region);
    TrimmedBack(n, Suffix(region));
    OrderVisits(s, region, order);
    if n + Suffix(region) in s {
      NotReplaced(s, region, order, n + Suffix(region));
    } else {
      UnstoredNotReplaced(s, region, order, n + Suffix(region));
    }
  }

  /** A field that mentions the region without ending with it, as one of a region with a longer name does,
    is taken for a base field: it stays, and a field with the mark appended is added beside it. */
  lemma LongerNameLeavesJunk(s: Fields, region: string, order: seq<string>, edited: Fields, back: seq<string>, m: string)
    requires Session(s, region, order, edited, back)
    requires m in s && Contains(m, Suffix(region)) && !EndsWith(m, Suffix(region)) && m + Suffix(region) !in s
    ensures
      var stored, junk := Stored(s, region, order, edited, back), m + Suffix(region);
      stored[m] == s[m] && junk in stored && stored[junk] == s[m]
  {
    hide Got, Contains, PutBack;
    var suffix, d := Suffix(region), Got(s, region, order);
    Marked(m, region);
    JunkAt(s, region, order, m);
    MarkedSum(m, region);
    UnstoredNotReplaced(s, region, order, m + suffix);
    GotAt(s, region, order, m);
    NoneEnding(back, suffix, m);
    PutBackAt(edited, d.replaced, suffix, back, m);
    PutBackRegional(edited, d.replaced, suffix, back, m);
  }

  lemma MarkedSum(m: string, region: string)
    requires region != ""
    ensures '~' in m + Suffix(region)
  {
    Marked(m, region);
  }

  lemma JunkAt(s: Fields, region: string, order: seq<string>, m: string)
    requires region != "" && Visits(order, Regional(s, Suffix(region)))
    requires m in s && Contains(m, Suffix(region)) && !EndsWith(m, Suffix(region)) && m + Suffix(region) !in s
    ensures var d := Got(s, region, order); m in d.replaced && m in d.values && d.values[m] == s[m]
  {
    hide Contains, Overlay, EndsWith;
    var suffix := Suffix(region);
    Marked(m, region);
    assert m !in BOOLS;
    assert m in Regional(s, suffix) && TrimSuffix(m, suffix) == m;
    GotRegional(s, region, order, m);
    OverlaidBySelf(s, suffix, order, m);
  }

  /** Only the field itself is laid over it. */
  lemma {:induction false} OverlaidBySelf(s: Fields, suffix: string, order: seq<string>, m: string)
    requires forall f :: f in order ==> f in s
    requires m in s && m + suffix !in s && !EndsWith(m, suffix)
    ensures m in Overlay(s, suffix, order) && Overlay(s, suffix, order)[m] == s[m]
  {
    if order != [] {
      var last := order[|order| - 1];
      OverlaidBySelf(s, suffix, order[..|order| - 1], m);
      assert EndsWith(last, suffix) ==> last == TrimSuffix(last, suffix) + suffix;
    }
  }

  // ----- The same in plain names -----

  lemma {:induction false} Mentions(field: string, part: string)
    ensures Contains(field, part) <==> exists a, b :: field == a + part + b
  {
    if Contains(field, part) {
      if part <= field {
        assert field == "" + part + field[|part|..];
      } else {
        Mentions(field[1..], part);
        var a, b :| field[1..] == a + part + b;
        assert field == ([field[0]] + a) + part + b;
      }
    }
    if a, b :| field == a + part + b {
      MentionedAt(a, part, b);
    }
  }

  lemma {:induction false} MentionedAt(a: string, part: string, b: string)
    ensures Contains(a + part + b, part)
  {
    var field := a + part + b;
    if a == "" {
      assert field == part + b;
    } else {
      assert field[1..] == a[1..] + part + b;
      MentionedAt(a[1..], part, b);
    }
  }

  lemma EndsExactly(field: string, suffix: string)
    ensures EndsWith(field, suffix) <==> exists a :: field == a + suffix
  {
    if EndsWith(field, suffix) { assert field == field[..|field| - |suffix|] + suffix; }
  }

  lemma InWords(n: string, region: string)
    requires region != ""
    ensures n + Suffix(region) == n + "~" + region && EndsWith(n + "~" + region, Suffix(region))
  {
    TrimmedBack(n, Suffix(region));
    assert n + Suffix(region) == n + "~" + region;
  }

  /** `name~region` is where a region's value of a field is stored. */
  lemma EditStoredByName(s: Fields, region: string, order: seq<string>, edited: Fields, back: seq<string>, n: string)
    requires Session(s, region, order, edited, back)
    requires '~' !in n && n !in ["copied", "deployed"] && n in s && n + "~" + region in s && n + "~" + region + "~" + region !in s
    ensures var stored := Stored(s, region, order, edited, back);
      n in stored && stored[n] == s[n] && n in edited && n + "~" + region in stored && stored[n + "~" + region] == edited[n]
  {
    hide Got, Contains, PutBack;
    InWords(n, region);
    InWords(n + Suffix(region), region);
    Marked(n, region);
    BaseKeptEditStored(s, region, order, edited, back, n);
  }

  /** A flag is read as set exactly for these texts: the region's if it has one, or else the base's. */
  lemma FlagReads(s: Fields, region: string, order: seq<string>, n: string)
    requires region != "" && Visits(order, Regional(s, Suffix(region))) && n in ["copied", "deployed"]
    requires n in s && s[n].Text? && (n + "~" + region in s ==> s[n + "~" + region].Text?)
    ensures var text := if n + "~" + region in s then s[n + "~" + region].text else s[n].text;
      var d := Got(s, region, order);
      n in d.values && d.values[n] == Flag(text == "1" || text == "t" || text == "T" || text == "TRUE" || text == "true" || text == "True")
  {
    InWords(n, region);
    FlagAt(s, region, order, n);
    FlagTurned(s, region, order, n);
  }

  lemma FlagTurned(s: Fields, region: string, order: seq<string>, n: string)
    requires region != "" && Visits(order, Regional(s, Suffix(region))) && n in BOOLS
    requires var d := Got(s, region, order); n in d.replaced && d.replaced[n].Text? && n in d.values
    requires n in s && s[n].Text? && (n + Suffix(region) in s ==> s[n + Suffix(region)].Text?)
    ensures var d := Got(s, region, order); d.values[n] == Flag(Parsed(d.replaced[n].text))
  {
    hide Contains, TrimSuffix, EndsWith, WithDefaults, Overlay, Replaced, Parsed;
    var suffix := Suffix(region);
    Marked(n, region);
    ContainsEnd(n, suffix);
    assert DEFAULTS[..|DEFAULTS|] == DEFAULTS;
    if Regional(s, suffix) == {} {
      assert n + suffix in s ==> n + suffix in Regional(s, suffix);
      WithDefaultsAt(s, suffix, |DEFAULTS|, n);
      NoneEnding(DEFAULTS, suffix, n);
    } else if n + suffix in s {
      OverlaidBy(s, suffix, order, n);
    } else {
      forall f | f in order ensures TrimSuffix(f, suffix) != n {
        TrimOther(f, suffix, n);
      }
      OverlayAt(s, suffix, order, n);
    }
  }

  lemma {:induction false} WithDefaultsGives(s: Fields, suffix: string, k: nat, n: string)
    requires k <= |DEFAULTS| && n in DEFAULTS[..k]
    ensures var d := WithDefaults(Data(s, map[]), s, suffix, k); n + suffix in d.values && d.values[n + suffix] == DefaultOf(s, n)
  {
    assert DEFAULTS[..k] == DEFAULTS[..k - 1] + [DEFAULTS[k - 1]];
    TrimmedBack(n, suffix);
    TrimmedBack(DEFAULTS[k - 1], suffix);
    if n != DEFAULTS[k - 1] { WithDefaultsGives(s, suffix, k - 1, n); }
  }

  lemma {:induction false} PutBackSkips(p: Fields, replaced: Fields, suffix: string, back: seq<string>, n: string)
    requires suffix != "" && n !in p && !EndsWith(n, suffix) && n + suffix in p && n + suffix !in back
    requires forall f :: f in back ==> f in replaced
    ensures var q := PutBack(p, replaced, suffix, back); n !in q && n + suffix in q && q[n + suffix] == p[n + suffix]
  {
    if back != [] {
      var most, last := back[..|back| - 1], back[|back| - 1];
      PutBackSkips(p, replaced, suffix, most, n);
      TrimmedBack(last, suffix);
      TrimmedBack(n, suffix);
    }
  }

  /** Without regional data a default field that is not stored at all gets a regional value: the text false
    for the two flags and an empty one for the others; no base field is made. */
  lemma FirstVisitCreates(s: Fields, region: string, order: seq<string>, edited: Fields, back: seq<string>, n: string)
    requires Session(s, region, order, edited, back) && Regional(s, Suffix(region)) == {}
    requires n in ["trcsha256", "copied", "deployed", "trcservicename"] && n !in s && n !in edited
    ensures var stored := Stored(s, region, order, edited, back);
      n !in stored && n + "~" + region in stored && stored[n + "~" + region] == Text(if n == "copied" || n == "deployed" then "false" else "")
  {
    hide Got, Contains, PutBack, EndsWith, Suffix, Stored;
    InWords(n, region);
    CreatedStays(s, region, order, edited, back, n);
  }

  lemma CreatedStays(s: Fields, region: string, order: seq<string>, edited: Fields, back: seq<string>, n: string)
    requires Session(s, region, order, edited, back) && Regional(s, Suffix(region)) == {}
    requires n in DEFAULTS && n !in s && n !in edited
    ensures var stored, m := Stored(s, region, order, edited, back), n + Suffix(region);
      n !in stored && m in stored && stored[m] == DefaultOf(s, n)
  {
    hide Got, Contains, PutBack, EndsWith;
    Marked(n, region);
    CreatedAt(s, region, order, n);
    PutBackSkips(edited, Got(s, region, order).replaced, Suffix(region), back, n);
  }

  lemma CreatedAt(s: Fields, region: string, order: seq<string>, n: string)
    requires region != "" && Visits(order, Regional(s, Suffix(region))) && Regional(s, Suffix(region)) == {}
    requires n in DEFAULTS && n !in s
    ensures var d := Got(s, region, order);
      && n + Suffix(region) in d.values && d.values[n + Suffix(region)] == DefaultOf(s, n)
      && n + Suffix(region) !in d.replaced && '~' in n + Suffix(region)
  {
    hide Contains, WithDefaults, EndsWith;
    var suffix := Suffix(region);
    Marked(n, region);
    assert DEFAULTS[..|DEFAULTS|] == DEFAULTS;
    WithDefaultsGives(s, suffix, |DEFAULTS|, n);
    WithDefaultsAt(s, suffix, |DEFAULTS|, n + suffix);
    assert n + suffix !in BOOLS && n + suffix !in DEFAULTS;
  }
}
