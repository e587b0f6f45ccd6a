/** The key columns of a drained change and the query that re-reads its row.

  `getStatisticChangedByIdQuery` removes the id from the column names and from the values, and
  appends it again, all inside the backing arrays that its callers still hold. */
module StatisticKeys {
  import opened Common

  datatype Cell = Text(text: string) | Number(n: int) | Unsupported

  /** A Go slice that starts at the beginning of its backing array. */
  datatype Slice<T> = Slice(data: array<T>, len: nat) {
    ghost predicate Valid() {
      len <= data.Length
    }

    ghost function Contents(): seq<T>
      requires Valid()
      reads data
    {
      data[..len]
    }
  }

  /** The WHERE clause: a column and the value it is compared with. */
  type Condition = (string, Cell)
  datatype Outcome = Query(conditions: seq<Condition>) | Panic

  // ----- Specification on values -----

  function IndexOf<T(==)>(s: seq<T>, x: T): (k: nat)
    ensures k <= |s| && (k < |s| ==> s[k] == x) && forall j :: 0 <= j < k ==> s[j] != x
  {
    if s == [] then 0 else if s[0] == x then 0 else 1 + IndexOf(s[1..], x)
  }

  /** The element at `k` moved to the end. */
  function ToEnd<T>(s: seq<T>, k: nat): seq<T>
    requires k < |s|
  {
    s[..k] + s[k + 1..] + [s[k]]
  }

  /** What `append(slice[:k], slice[k+1:]...)` leaves in the backing array: the last element twice. */
  function Shifted<T>(s: seq<T>, k: nat): seq<T>
    requires k < |s|
  {
    s[..k] + s[k + 1..] + [s[|s| - 1]]
  }

  function Pairs(names: seq<string>, values: seq<Cell>): seq<Condition>
    requires |names| <= |values|
  {
    seq(|names|, i requires 0 <= i < |names| => (names[i], values[i]))
  }

  /** The conditions for the columns other than the id: none when only one is left. */
  function OtherConditions(names: seq<string>, values: seq<Cell>): Outcome {
    if |names| <= 1 then Query([])
    else if |names| <= |values| then Query(Pairs(names, values))
    else Panic
  }

  function WithId(idColumn: string, value: Cell, others: Outcome): Outcome {
    if others.Panic? then Panic else Query([(idColumn, value)] + others.conditions)
  }

  /** A text id that is one of the columns: the only case in which the names are touched. */
  predicate Rotates(names: seq<string>, values: seq<Cell>, idColumn: string) {
    values != [] && values[0].Text? && IndexOf(names, idColumn) < |names|
  }

  function Without<T>(s: seq<T>, k: nat): seq<T>
    requires k < |s|
  {
    s[..k] + s[k + 1..]
  }

  function NamesAfter(names: seq<string>, values: seq<Cell>, idColumn: string): seq<string> {
    if !Rotates(names, values, idColumn) then names
    else if idColumn == "" then Shifted(names, IndexOf(names, idColumn))
    else ToEnd(names, IndexOf(names, idColumn))
  }

  function ValuesAfter(names: seq<string>, values: seq<Cell>, idColumn: string): seq<Cell> {
    if values == [] || !values[0].Text? then values
    else if Rotates(names, values, idColumn) && idColumn != "" then ToEnd(values, 0)
    else Shifted(values, 0)
  }

  function Built(names: seq<string>, values: seq<Cell>, idColumn: string): Outcome {
    if values == [] || values[0].Unsupported? then Panic
    else if values[0].Number? then WithId(idColumn, values[0], OtherConditions(names, values))
    else if Rotates(names, values, idColumn) then
      WithId(idColumn, values[0], OtherConditions(Without(names, IndexOf(names, idColumn)), values[1..]))
    else WithId(idColumn, values[0], OtherConditions(names, values[1..]))
  }

  // ----- The code -----

  /** Shifts the elements behind `k` one place to the front, inside the backing array. */
  method ShiftLeft<T>(slice: Slice<T>, k: nat) returns (r: Slice<T>)
    requires slice.Valid() && k < slice.len
    modifies slice.data
    ensures r == Slice(slice.data, slice.len - 1) && r.Valid()
    ensures slice.data[..slice.len] == Shifted(old(slice.data[..slice.len]), k)
  {
    for i := k to slice.len - 1
      invariant forall j :: 0 <= j < k ==> slice.data[j] == old(slice.data[j])
      invariant forall j :: k <= j < i ==> slice.data[j] == old(slice.data[j + 1])
      invariant forall j :: i <= j < slice.data.Length ==> slice.data[j] == old(slice.data[j])
    {
      slice.data[i] := slice.data[i + 1];
    }
    r := Slice(slice.data, slice.len - 1);
  }

  /** Go's append when there is room behind the slice: it writes into the backing array. */
  method Append<T>(slice: Slice<T>, x: T) returns (r: Slice<T>)
    requires slice.Valid() && slice.len < slice.data.Length
    modifies slice.data
    ensures r == Slice(slice.data, slice.len + 1) && r.Valid()
    ensures slice.data[..] == old(slice.data[..])[slice.len := x]
  {
    slice.data[slice.len] := x;
    r := Slice(slice.data, slice.len + 1);
  }

  method RemoveElementFromSlice<T(==)>(slice: Slice<T>, s: T) returns (r: Slice<T>, found: bool)
    requires slice.Valid()
    modifies slice.data
    ensures r.Valid() && r.data == slice.data
    ensures
      var k := IndexOf(old(slice.Contents()), s);
      && found == (k < slice.len)
      && r.len == (if found then slice.len - 1 else slice.len)
      && slice.Contents() == if found then Shifted(old(slice.Contents()), k) else old(slice.Contents())
  {
    for k := 0 to slice.len
      invariant slice.data[..] == old(slice.data[..])
      invariant forall j :: 0 <= j < k ==> slice.data[j] != s
    {
      if slice.data[k] == s {
        ghost var was := slice.Contents();
        FirstIndex(was, s, k);
        r := ShiftLeft(slice, k);
        return r, true;
      }
    }
    assert slice.Contents() == old(slice.Contents());
    return slice, false;
  }

  lemma FirstIndex<T>(s: seq<T>, x: T, k: nat)
    requires k < |s| && s[k] == x && forall j :: 0 <= j < k ==> s[j] != x
    ensures IndexOf(s, x) == k
  {
  }

  /** The loop that adds the conditions for the remaining columns. */
  method AddConditions(names: Slice<string>, values: Slice<Cell>) returns (others: Outcome)
    requires names.Valid() && values.Valid()
    ensures others == OtherConditions(names.Contents(), values.Contents())
  {
    if names.len <= 1 { return Query([]); }
    var conditions: seq<Condition> := [];
    for i := 0 to names.len
      invariant i <= values.len && conditions == Pairs(names.Contents()[..i], values.Contents())
    {
      if i >= values.len { return Panic; }
      conditions := conditions + [(names.data[i], values.data[i])];
    }
    assert names.Contents()[..names.len] == names.Contents();
    others := Query(conditions);
  }

  lemma ShiftedThenAppended<T>(s: seq<T>, k: nat)
    requires k < |s|
    ensures Shifted(s, k)[..|s| - 1] == Without(s, k)
    ensures Shifted(s, k)[|s| - 1 := s[k]] == ToEnd(s, k)
  {
  }

  /** Both removals: what the two shortened slices and the full ones then hold. */
  method RemoveId(idColumn: string, names: Slice<string>, values: Slice<Cell>)
    returns (restNames: Slice<string>, restValues: Slice<Cell>, found: bool)
    requires names.Valid() && values.Valid() && values.len > 0
    modifies names.data, values.data
    ensures restValues == Slice(values.data, values.len - 1) && restValues.Contents() == old(values.Contents())[1..]
    ensures values.Contents() == Shifted(old(values.Contents()), 0)
    ensures found == (IndexOf(old(names.Contents()), idColumn) < names.len)
    ensures !found ==> restNames == names && names.Contents() == old(names.Contents())
    ensures found ==>
      var k := IndexOf(old(names.Contents()), idColumn);
      && restNames == Slice(names.data, names.len - 1) && restNames.Contents() == Without(old(names.Contents()), k)
      && names.Contents() == Shifted(old(names.Contents()), k)
  {
    ghost var n, v := names.Contents(), values.Contents();
    FirstIndex(v, values.data[0], 0);
    var removed;
    restValues, removed := RemoveElementFromSlice(values, values.data[0]);
    ShiftedThenAppended(v, 0);
    assert restValues.Contents() == values.Contents()[..|v| - 1];
    assert names.Contents() == n;
    restNames, found := RemoveElementFromSlice(names, idColumn);
    if found {
      ShiftedThenAppended(n, IndexOf(n, idColumn));
      assert restNames.Contents() == names.Contents()[..|n| - 1];
    }
  }

  /** Appends the removed element to a slice whose last element has been cut off. */
  method AppendAgain<T>(slice: Slice<T>, rest: Slice<T>, x: T, ghost was: seq<T>, ghost k: nat)
    requires slice.Valid() && slice.len > 0 && rest == Slice(slice.data, slice.len - 1)
    requires k < |was| && slice.Contents() == Shifted(was, k) && x == was[k]
    modifies slice.data
    ensures slice.Contents() == ToEnd(was, k)
  {
    var _ := Append(rest, x);
    ShiftedThenAppended(was, k);
  }

  /** The branch for a text id. */
  method TextIdQuery(idColumn: string, names: Slice<string>, values: Slice<Cell>) returns (query: Outcome)
    requires names.Valid() && values.Valid() && values.len > 0 && values.data[0].Text?
    modifies names.data, values.data
    ensures query == Built(old(names.Contents()), old(values.Contents()), idColumn)
    ensures !query.Panic? ==> names.Contents() == NamesAfter(old(names.Contents()), old(values.Contents()), idColumn)
    ensures !query.Panic? ==> values.Contents() == ValuesAfter(old(names.Contents()), old(values.Contents()), idColumn)
  {
    hide Shifted, ToEnd, Without, OtherConditions;
    ghost var n, v := names.Contents(), values.Contents();
    ghost var k := IndexOf(n, idColumn);
    var id := values.data[0];
    var restNames, restValues, found := RemoveId(idColumn, names, values);
    var others := AddConditions(restNames, restValues);
    query := WithId(idColumn, id, others);
    if query.Panic? { return; }
    if found && idColumn != "" {
      AppendAgain(values, restValues, id, v, 0);
      AppendAgain(names, restNames, idColumn, n, k);
    }
  }

  /** The query for one drained entry, and what it does to the arrays its callers still hold. */
  method GetStatisticChangedByIdQuery(idColumn: string, names: Slice<string>, values: Slice<Cell>) returns (query: Outcome)
    requires names.Valid() && values.Valid()
    modifies names.data, values.data
    ensures query == Built(old(names.Contents()), old(values.Contents()), idColumn)
    ensures !query.Panic? ==> names.Contents() == NamesAfter(old(names.Contents()), old(values.Contents()), idColumn)
    ensures !query.Panic? ==> values.Contents() == ValuesAfter(old(names.Contents()), old(values.Contents()), idColumn)
  {
    if values.len == 0 || values.data[0].Unsupported? { return Panic; }
    if values.data[0].Text? {
      query := TextIdQuery(idColumn, names, values);
    } else {
      var others := AddConditions(names, values);
      query := WithId(idColumn, values.data[0], others);
    }
  }

  // ----- Names and values stay paired -----

  type TableRow = map<string, Cell>

  /** The row has a text id and a value for every key column. */
  predicate HasKey(row: TableRow, names: seq<string>, idColumn: string) {
    idColumn in row && row[idColumn].Text? && forall c :: c in names ==> c in row
  }

  /** SELECT idColumn, names[0], names[1] FROM the change table of a statistic flow. */
  function SelectedStatistic(row: TableRow, names: seq<string>, idColumn: string): seq<Cell>
    requires |names| == 3 && HasKey(row, names, idColumn)
  {
    [row[idColumn], row[names[0]], row[names[1]]]
  }

  /** Every condition compares a column with that column's value in the row. */
  predicate AsksFor(query: Outcome, row: TableRow) {
    query.Query? && forall c :: c in query.conditions ==> c.0 in row && row[c.0] == c.1
  }

  lemma ToEndIsPermutation<T>(s: seq<T>, k: nat)
    requires k < |s|
    ensures multiset(ToEnd(s, k)) == multiset(s)
  {
    assert s == s[..k] + [s[k]] + s[k + 1..];
  }

  /** The names come back in order exactly when the id column is the last of them; the values are
    rotated by one and none is lost. */
  lemma RotationRestoresNames(names: seq<string>, values: seq<Cell>, idColumn: string)
    requires Distinct(names) && Rotates(names, values, idColumn) && idColumn != ""
    ensures NamesAfter(names, values, idColumn) == names <==> names[|names| - 1] == idColumn
    ensures ValuesAfter(names, values, idColumn) == values[1..] + values[..1]
    ensures multiset(ValuesAfter(names, values, idColumn)) == multiset(values)
    ensures multiset(NamesAfter(names, values, idColumn)) == multiset(names)
  {
    var k, last := IndexOf(names, idColumn), |names| - 1;
    var after := ToEnd(names, k);
    ToEndIsPermutation(names, k);
    ToEndIsPermutation(values, 0);
    assert after[last] == idColumn;
    if names[last] == idColumn {
      assert k == last;
      assert after == names;
    }
  }

  /** The rows of a batch are re-read by their own keys, whatever they hold, exactly when the id
    column is the last of the three key columns. */
  lemma IdColumnMustBeLast(names: seq<string>, idColumn: string)
    requires |names| == 3 && Distinct(names) && idColumn in names && idColumn != ""
    ensures
      (forall row :: HasKey(row, names, idColumn) ==> AsksFor(Built(names, SelectedStatistic(row, names, idColumn), idColumn), row))
      <==> names[2] == idColumn
  {
    var k := IndexOf(names, idColumn);
    if names[2] == idColumn {
      forall row | HasKey(row, names, idColumn)
        ensures AsksFor(Built(names, SelectedStatistic(row, names, idColumn), idColumn), row)
      {
        StatisticIsAskedFor(names, idColumn, row);
      }
    } else {
      var row := map[names[0] := Text("0"), names[1] := Text("1"), names[2] := Text("2")];
      var selected := SelectedStatistic(row, names, idColumn);
      assert HasKey(row, names, idColumn);
      var others := Without(names, k);
      assert others[1] == names[2];
      var query := Built(names, selected, idColumn);
      assert query.conditions[2] == (names[2], selected[1..][1]);
      assert !AsksFor(query, row);
    }
  }

  /** The query that compares each key column with its own value. */
  function KeyQuery(row: TableRow, names: seq<string>, idColumn: string): (query: Outcome)
    requires |names| == 3 && HasKey(row, names, idColumn)
    ensures AsksFor(query, row)
  {
    Query([(idColumn, row[idColumn]), (names[0], row[names[0]]), (names[1], row[names[1]])])
  }

  lemma TwoPairs(names: seq<string>, values: seq<Cell>)
    requires |names| == |values| == 2
    ensures OtherConditions(names, values) == Query([(names[0], values[0]), (names[1], values[1])])
  {
  }

  lemma StatisticIsAskedFor(names: seq<string>, idColumn: string, row: TableRow)
    requires |names| == 3 && Distinct(names) && names[2] == idColumn && HasKey(row, names, idColumn)
    ensures Built(names, SelectedStatistic(row, names, idColumn), idColumn) == KeyQuery(row, names, idColumn)
  {
    var selected := SelectedStatistic(row, names, idColumn);
    FirstIndex(names, idColumn, 2);
    hide IndexOf, OtherConditions;
    assert Without(names, 2) == names[..2];
    TwoPairs(names[..2], selected[1..]);
  }

  lemma StatisticIsRotated(names: seq<string>, idColumn: string, row: TableRow)
    requires |names| == 3 && Distinct(names) && names[2] == idColumn && idColumn != "" && HasKey(row, names, idColumn)
    ensures NamesAfter(names, SelectedStatistic(row, names, idColumn), idColumn) == names
    ensures ValuesAfter(names, SelectedStatistic(row, names, idColumn), idColumn) == RotatedStatistic(row, names, idColumn)
  {
    var selected := SelectedStatistic(row, names, idColumn);
    FirstIndex(names, idColumn, 2);
    assert Rotates(names, selected, idColumn);
    RotationRestoresNames(names, selected, idColumn);
    hide NamesAfter, ValuesAfter, IndexOf;
    assert RotatedStatistic(row, names, idColumn) == selected[1..] + selected[..1];
  }

  /** The values of an entry after its row was re-read: rotated left by one. */
  function RotatedStatistic(row: TableRow, names: seq<string>, idColumn: string): (r: seq<Cell>)
    requires |names| == 3 && HasKey(row, names, idColumn)
    ensures
      var selected := SelectedStatistic(row, names, idColumn);
      r == selected[1..] + selected[..1] && multiset(r) == multiset(selected)
  {
    [row[names[0]], row[names[1]], row[idColumn]]
  }

  /** An entry as the drain selected it. */
  ghost predicate Fresh(entry: Slice<Cell>, row: TableRow, names: seq<string>, idColumn: string)
    reads entry.data
  {
    entry.Valid() && |names| == 3 && HasKey(row, names, idColumn)
    && entry.Contents() == SelectedStatistic(row, names, idColumn)
  }

  /** An entry whose row has been re-read with `query`. */
  ghost predicate Used(entry: Slice<Cell>, row: TableRow, names: seq<string>, idColumn: string, query: Outcome)
    reads entry.data
  {
    entry.Valid() && |names| == 3 && HasKey(row, names, idColumn)
    && entry.Contents() == RotatedStatistic(row, names, idColumn) && query == KeyQuery(row, names, idColumn)
  }

  /** Re-reading one statistic entry. */
  method PersistEntry(idColumn: string, names: Slice<string>, entry: Slice<Cell>, ghost row: TableRow, ghost n: seq<string>)
    returns (query: Outcome)
    requires names.Valid() && names.len == 3 && names.Contents() == n && Distinct(n)
    requires n[2] == idColumn && idColumn != "" && Fresh(entry, row, n, idColumn)
    modifies names.data, entry.data
    ensures names.Contents() == n && Used(entry, row, n, idColumn, query)
  {
    StatisticIsAskedFor(n, idColumn, row);
    StatisticIsRotated(n, idColumn, row);
    hide Built, NamesAfter, ValuesAfter, Rotates, KeyQuery, SelectedStatistic, RotatedStatistic;
    query := GetStatisticChangedByIdQuery(idColumn, names, entry);
  }

  /** The persist loop over a statistic batch: every entry asks for its own row, each entry is left
    rotated by one, and the shared names are in order again, ready for the next batch. */
  method PersistBatch(idColumn: string, names: Slice<string>, entries: seq<Slice<Cell>>, ghost rows: seq<TableRow>, ghost n: seq<string>)
    returns (queries: seq<Outcome>)
    requires names.Valid() && names.len == 3 && names.Contents() == n && Distinct(n)
    requires n[2] == idColumn && idColumn != "" && |rows| == |entries|
    requires forall i, j :: 0 <= i < j < |entries| ==> entries[i].data != entries[j].data
    requires forall i :: 0 <= i < |entries| ==> Fresh(entries[i], rows[i], n, idColumn)
    modifies names.data, set e | e in entries :: e.data
    ensures names.Contents() == n && |queries| == |entries|
    ensures forall i :: 0 <= i < |entries| ==> Used(entries[i], rows[i], n, idColumn, queries[i])
  {
    hide Distinct, Fresh, Used;
    queries := [];
    for i := 0 to |entries|
      invariant names.Contents() == n && |queries| == i
      invariant forall j :: 0 <= j < i ==> Used(entries[j], rows[j], n, idColumn, queries[j])
      invariant forall j :: i <= j < |entries| ==> Fresh(entries[j], rows[j], n, idColumn)
    {
      var query := PersistEntry(idColumn, names, entries[i], rows[i], n);
      queries := queries + [query];
    }
  }

  /** With two key columns and the id first, the first batch asks for the right rows but leaves the
    names swapped, so the next batch compares the id column with the other column's value. */
  lemma TwoColumnsDrift(other: string, idColumn: string, row: TableRow)
    requires other != idColumn && idColumn != "" && HasKey(row, [idColumn, other], idColumn) && row[other].Text?
    ensures
      var first := [row[idColumn], row[other]];
      var swapped := NamesAfter([idColumn, other], first, idColumn);
      var second := [row[swapped[0]], row[swapped[1]]];
      && AsksFor(Built([idColumn, other], first, idColumn), row)
      && swapped == [other, idColumn]
      && (AsksFor(Built(swapped, second, idColumn), row) <==> row[other] == row[idColumn])
  {
    var first := [row[idColumn], row[other]];
    FirstIndex([idColumn, other], idColumn, 0);
    FirstIndex([other, idColumn], idColumn, 1);
    assert ToEnd([idColumn, other], 0) == [other, idColumn];
    assert Without([idColumn, other], 0) == [other] && Without([other, idColumn], 1) == [other];
    var second := [row[other], row[idColumn]];
    assert Built([other, idColumn], second, idColumn) == Query([(idColumn, row[other])]);
    assert (idColumn, row[other]) in Built([other, idColumn], second, idColumn).conditions;
  }
}
