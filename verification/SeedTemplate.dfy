/** Seeding row after row from one base template. The copy that each call makes of the base shares its
  maps, so what a row fills in stays there for the next. */
module SeedTemplate {
  import opened Common
  import opened TemplateTree
  import opened SeedSections
  import opened ArrivalOrder

  /** A cell of a table row. Times and values of other types carry their printed form. */
  datatype Cell = Text(text: string) | Int64(i: int) | Int8(i: int) | Time(printed: string) | Nil | Other(printed: string)

  type Row = map<string, Cell>

  function Digits(n: nat): string {
    (if n < 10 then "" else Digits(n / 10)) + ["0123456789"[n % 10]]
  }

  function Decimal(i: int): string { if i < 0 then "-" + Digits(-i) else Digits(i) }

  function Show(c: Cell): string {
    match c
    case Text(s) => s
    case Int64(i) => Decimal(i)
    case Int8(i) => Decimal(i)
    case Time(s) => s
    case Nil => ""
    case Other(s) => s
  }

  /** The section with the row's values; names that the template does not have are passed over. */
  function Filled(section: Section, service: string, row: Row): Section {
    if service !in section then section
    else section[service := map k | k in section[service] :: if k in row then Show(row[k]) else section[service][k]]
  }

  function Fill(base: Parsed, service: string, row: Row): Parsed {
    base.(values := Filled(base.values, service, row), secrets := Filled(base.secrets, service, row))
  }

  /** The base after some rows. */
  function After(base: Parsed, service: string, rows: seq<Row>): Parsed {
    if rows == [] then base else Fill(After(base, service, rows[..|rows| - 1]), service, rows[|rows| - 1])
  }

  class BaseTemplate {
    const template: Tree
    var values: Section
    var secrets: Section

    constructor (base: Parsed)
      ensures State() == base
    {
      template, values, secrets := base.template, base.values, base.secrets;
    }

    function State(): Parsed
      reads this
    {
      Parsed(template, values, secrets)
    }

    /** Returns the seed for a row, read from the combined copies of the sections. */
    method SeedVaultById(service: string, tableData: Row) returns (seed: Parsed)
      modifies this
      ensures State() == Fill(old(State()), service, tableData)
      ensures seed == Combined([State()])
    {
      var todo := tableData.Keys;
      NothingFilled(secrets, service, tableData);
      while todo != {}
        invariant todo <= tableData.Keys && values == old(values)
        invariant secrets == Filled(old(secrets), service, tableData - todo)
      {
        var key :| key in todo;
        FillOne(old(secrets), service, tableData, todo, key);
        if service in secrets && key in secrets[service] {
          secrets := secrets[service := secrets[service][key := Show(tableData[key])]];
        }
        todo := todo - {key};
      }
      assert tableData - todo == tableData;
      todo := tableData.Keys;
      NothingFilled(values, service, tableData);
      while todo != {}
        invariant todo <= tableData.Keys && secrets == Filled(old(secrets), service, tableData)
        invariant values == Filled(old(values), service, tableData - todo)
      {
        var key :| key in todo;
        FillOne(old(values), service, tableData, todo, key);
        if service in values && key in values[service] {
          values := values[service := values[service][key := Show(tableData[key])]];
        }
        todo := todo - {key};
      }
      assert tableData - todo == tableData;
      var valueCombined := new Combiner();
      var secretCombined := new Combiner();
      valueCombined.CombineSection([values]);
      secretCombined.CombineSection([secrets]);
      seed := Parsed(CombineTemplates(Node(map[]), [template]), valueCombined.combined, secretCombined.combined);
      OneResult(State());
    }
  }

  lemma NothingFilled(section: Section, service: string, row: Row)
    ensures row - row.Keys == map[] && Filled(section, service, map[]) == section
  {
    if service in section {
      assert Filled(section, service, map[])[service] == section[service];
    }
  }

  lemma FillOne(section: Section, service: string, row: Row, todo: set<string>, key: string)
    requires key in todo && todo <= row.Keys
    ensures var before := Filled(section, service, row - todo);
      Filled(section, service, row - (todo - {key})) ==
      if service in before && key in before[service] then before[service := before[service][key := Show(row[key])]] else before
  {
    if service in section {
      var before, after := Filled(section, service, row - todo), Filled(section, service, row - (todo - {key}));
      assert after[service] == if key in before[service] then before[service][key := Show(row[key])] else before[service];
    }
  }

  /** Combining a single result changes nothing but a template without any leaf. */
  lemma CombinedAlone(p: Parsed)
    ensures Combined([p]) == p.(template := if p.template.Node? then p.template else Node(map[]))
  {
    OneResult(p);
    AloneSection(p.values);
    AloneSection(p.secrets);
    FoldOfOne(Union, Node(map[]), p.template);
    assert p.template.Node? ==> UnionEntries(Node(map[]), p.template) == p.template.entries;
  }

  lemma OneResult(p: Parsed)
    ensures Combined([p]) == Parsed(CombineTemplates(Node(map[]), [p.template]), CombineAll([p.values]), CombineAll([p.secrets]))
  {
    var results := [p];
    assert seq(|results|, i requires 0 <= i < |results| => results[i].template) == [p.template];
    assert seq(|results|, i requires 0 <= i < |results| => results[i].values) == [p.values];
    assert seq(|results|, i requires 0 <= i < |results| => results[i].secrets) == [p.secrets];
  }

  lemma AloneSection(section: Section)
    ensures CombineAll([section]) == section
  {
    FoldOfOne(CombineOne, map[], section);
    assert CombineOne(map[], section).Keys == section.Keys;
    forall service | service in section ensures CombineOne(map[], section)[service] == section[service] {
      assert map[] + section[service] == section[service];
    }
  }

  // ----- What earlier rows leave behind -----

  function Names(section: Section, service: string): set<string> {
    if service in section then section[service].Keys else {}
  }

  /** No row adds or removes a name, a service or anything of another service. */
  lemma {:induction false} NamesKept(base: Parsed, service: string, rows: seq<Row>)
    ensures var after := After(base, service, rows);
      && after.template == base.template
      && after.values.Keys == base.values.Keys && after.secrets.Keys == base.secrets.Keys
      && (forall s :: s in base.values ==> after.values[s].Keys == base.values[s].Keys && (s != service ==> after.values[s] == base.values[s]))
      && (forall s :: s in base.secrets ==> after.secrets[s].Keys == base.secrets[s].Keys && (s != service ==> after.secrets[s] == base.secrets[s]))
  {
    if rows != [] {
      NamesKept(base, service, rows[..|rows| - 1]);
    }
  }

  /** The row defines every name of the service's template. */
  predicate Covers(base: Parsed, service: string, row: Row) {
    Names(base.values, service) + Names(base.secrets, service) <= row.Keys
  }

  ghost predicate HistoryIrrelevant(base: Parsed, service: string, row: Row) {
    forall rows: seq<Row> :: Fill(After(base, service, rows), service, row) == Fill(base, service, row)
  }

  /** The seed for a row is what a fresh base would give, whatever rows came before, exactly when the
    row defines every name of the template. */
  lemma FreshSeed(base: Parsed, service: string, row: Row)
    ensures HistoryIrrelevant(base, service, row) <==> Covers(base, service, row)
  {
    if Covers(base, service, row) {
      forall rows: seq<Row> ensures Fill(After(base, service, rows), service, row) == Fill(base, service, row) {
        NamesKept(base, service, rows);
        SameFilled(After(base, service, rows).values, base.values, service, row);
        SameFilled(After(base, service, rows).secrets, base.secrets, service, row);
      }
    } else {
      var k :| k in Names(base.values, service) + Names(base.secrets, service) && k !in row;
      if k in Names(base.values, service) {
        Leftover(base, base.values, service, row, k);
      } else {
        Leftover(base, base.secrets, service, row, k);
      }
    }
  }

  lemma SameFilled(s: Section, t: Section, service: string, row: Row)
    requires s.Keys == t.Keys && forall x :: x in s ==> s[x].Keys == t[x].Keys && (x != service ==> s[x] == t[x])
    requires Names(t, service) <= row.Keys
    ensures Filled(s, service, row) == Filled(t, service, row)
  {
    var l, r := Filled(s, service, row), Filled(t, service, row);
    forall x | x in l ensures l[x] == r[x] {
      if x == service {
        assert forall k :: k in s[x] ==> k in row;
      }
    }
  }

  /** An earlier row's value for a name that this row lacks shows up in this row's seed. */
  lemma Leftover(base: Parsed, section: Section, service: string, row: Row, k: string)
    requires section == base.values || section == base.secrets
    requires k in Names(section, service) && k !in row
    ensures !HistoryIrrelevant(base, service, row)
  {
    var earlier: Row := map[k := Text(section[service][k] + "!")];
    assert [earlier][..0] == [];
    assert After(base, service, [earlier]) == Fill(base, service, earlier);
    var seed := Fill(After(base, service, [earlier]), service, row);
    assert Filled(Filled(section, service, earlier), service, row)[service][k] == section[service][k] + "!";
    assert Filled(section, service, row)[service][k] == section[service][k];
    assert seed != Fill(base, service, row);
  }

  /** The seed for a row, entry by entry: the row's value, or else the last earlier one, or else the base's. */
  function LastGiven(rows: seq<Row>, k: string, otherwise: string): string {
    if rows == [] then otherwise
    else if k in rows[|rows| - 1] then Show(rows[|rows| - 1][k])
    else LastGiven(rows[..|rows| - 1], k, otherwise)
  }

  lemma {:induction false} EntryAfter(base: Parsed, service: string, rows: seq<Row>, k: string)
    ensures k in Names(base.values, service) ==>
      Get(After(base, service, rows).values, service, k) == Some(LastGiven(rows, k, base.values[service][k]))
    ensures k in Names(base.secrets, service) ==>
      Get(After(base, service, rows).secrets, service, k) == Some(LastGiven(rows, k, base.secrets[service][k]))
  {
    if rows != [] {
      EntryAfter(base, service, rows[..|rows| - 1], k);
    }
  }

  // ----- What a cell is printed as -----

  /** The number that a text of digits stands for. */
  function Read(s: string): int {
    if s == "" then 0
    else if s[0] == '-' then 0 - ReadDigits(s[1..])
    else ReadDigits(s)
  }

  function ReadDigits(s: string): nat {
    if s == "" then 0
    else
      var c := s[|s| - 1];
      10 * ReadDigits(s[..|s| - 1]) + if '0' <= c <= '9' then c as int - '0' as int else 0
  }

  predicate AllDigits(s: string) { s != "" && forall c :: c in s ==> '0' <= c <= '9' }

  lemma DigitShown(d: nat)
    requires d < 10
    ensures var c := "0123456789"[d]; '0' <= c <= '9' && c as int - '0' as int == d
  {
    assert "0123456789"[d] == '0' + d as char;
  }

  lemma {:induction false} DigitsReadBack(n: nat)
    ensures ReadDigits(Digits(n)) == n && AllDigits(Digits(n)) && (Digits(n)[0] == '0' ==> n == 0)
  {
    DigitShown(n % 10);
    var s, last := if n < 10 then "" else Digits(n / 10), ["0123456789"[n % 10]];
    assert Digits(n) == s + last && (s + last)[..|s|] == s;
    if n >= 10 { DigitsReadBack(n / 10); }
  }

  /** Texts and printed forms are kept, nil leaves the entry empty, and a number is written in decimal,
    without leading zeros: read back, it is the number again. */
  lemma CellShown(c: Cell)
    ensures c.Text? ==> Show(c) == c.text
    ensures c.Time? || c.Other? ==> Show(c) == c.printed
    ensures c.Nil? ==> Show(c) == ""
    ensures c.Int64? || c.Int8? ==> Read(Show(c)) == c.i && (c.i >= 0 ==> AllDigits(Show(c)) && (Show(c)[0] == '0' ==> c.i == 0))
  {
    hide Decimal;
    if c.Int64? || c.Int8? { DecimalReadsBack(c.i); }
  }

  lemma DecimalReadsBack(i: int)
    ensures Read(Decimal(i)) == i && (i >= 0 ==> AllDigits(Decimal(i)) && (Decimal(i)[0] == '0' ==> i == 0))
  {
    hide Digits, ReadDigits;
    DigitsReadBack(if i < 0 then -i else i);
    if i < 0 {
      assert ("-" + Digits(-i))[1..] == Digits(-i);
    } else {
      assert Digits(i)[0] in Digits(i);
    }
  }
}
