/** Change capture between TrcDb and Vault, as a state machine.

  Writers change a row and only then record its id in the `_Changes` table; one flow goroutine
  seeds the table from Vault, drains `_Changes`, re-reads every row and writes it to Vault.
  Every `trcdb.Query` and every Vault call is one atomic step, so all interleavings are runs. */
module ChangeCapture {
  import opened Common

  type Id = string
  type Row = map<string, string>
  /** The text that Go's "%s" verb prints for the nil `changedId`. */
  const NIL_ID: Id := "%!s(<nil>)"

  /** `syncDelete`: the table is synced and its changes do not have three key columns. */
  datatype Config = Config(readOnly: bool, syncDelete: bool)

  /** What the index path callback answers: a path, the empty path, or an error. */
  datatype PathResult = FoundPath | EmptyPath | PathFailure

  /** A writer between its two queries, or a writer or manual trigger between the change record and the
    broadcast. */
  datatype Writer = Recording(id: Id) | Notifying

  /** Where the flow goroutine is. `last` marks the drain of the shutdown branch. */
  datatype Flow =
    | Seeding(todo: seq<(Id, Row)>)
    | Waiting
    | Deleting(left: seq<Id>, batch: seq<Id>, last: bool)
    | Persisting(batch: seq<Id>, last: bool)
    | Writing(id: Id, row: Row, batch: seq<Id>, last: bool)
    | Removing(id: Id, batch: seq<Id>, last: bool)
    | Stopped

  datatype State = State(
    rows: map<Id, Row>,
    changes: set<Id>,
    vault: map<Id, Row>,
    writers: map<nat, Writer>,
    flow: Flow,
    notified: bool,
    restart: bool)

  datatype Step =
    | ChangeRow(w: nat, id: Id, row: Option<Row>)
    | RecordChange(w: nat)
    | ForceChange(w: nat, id: Id)                        // a manual trigger records an id
    | Notify(w: nat, broadcast: bool)
    | Broadcast                                          // a manual trigger without an id
    | RequestRestart
    | SeedInsert
    | SeedDone
    | BeginDrain(ids: seq<Id>, last: bool)
    | DeleteChange
    | Unlock
    | ReadRow(path: PathResult)
    | WriteVault
    | SoftDelete
    | EndDrain(reseed: Option<seq<(Id, Row)>>)

  /** The steps of other goroutines: writers, manual triggers and restart requests. */
  predicate IsWriterStep(st: Step) {
    st.ChangeRow? || st.RecordChange? || st.ForceChange? || st.Notify? || st.Broadcast? || st.RequestRestart?
  }

  function SetOf<T>(s: seq<T>): set<T> {
    set x | x in s
  }

  /** Rows read from Vault before the table is filled: some entries may fail to load. */
  ghost predicate Loaded(vault: map<Id, Row>, todo: seq<(Id, Row)>) {
    forall e :: e in todo ==> e.0 in vault && vault[e.0] == e.1
  }

  function Current(rows: map<Id, Row>, id: Id): Option<Row> {
    if id in rows then Some(rows[id]) else None
  }

  // ----- Transitions -----

  ghost predicate Enabled(s: State, st: Step) {
    match st
    case ChangeRow(w, _, _) => w !in s.writers
    case RecordChange(w) => w in s.writers && s.writers[w].Recording?
    case Notify(w, _) => w in s.writers && s.writers[w].Notifying?
    case ForceChange(w, _) => w !in s.writers
    case Broadcast => true
    case RequestRestart => true
    case SeedInsert => s.flow.Seeding? && s.flow.todo != []
    case SeedDone => s.flow.Seeding? && s.flow.todo == []
    case BeginDrain(ids, last) =>
      s.flow.Waiting? && (last || s.notified) && Distinct(ids) && SetOf(ids) == s.changes
    case DeleteChange => s.flow.Deleting? && s.flow.left != []
    case Unlock => s.flow.Deleting? && s.flow.left == []
    case ReadRow(_) => s.flow.Persisting? && s.flow.batch != []
    case WriteVault => s.flow.Writing?
    case SoftDelete => s.flow.Removing?
    case EndDrain(reseed) =>
      && s.flow.Persisting? && s.flow.batch == []
      && (reseed.Some? ==> s.flow.last && s.restart && Loaded(s.vault, reseed.value))
  }

  /** An empty path for a deleted row makes the program remove the entry at the flow's own path, which
    belongs to no id; the id's entry stays. */
  function ReadRowResult(c: Config, s: State, path: PathResult): State
    requires s.flow.Persisting? && s.flow.batch != []
  {
    var id, rest := s.flow.batch[0], s.flow.batch[1..];
    var next := s.(flow := Persisting(rest, s.flow.last));
    if id !in s.rows then
      if !c.syncDelete || c.readOnly || !path.FoundPath? then next
      else s.(flow := Removing(id, rest, s.flow.last))
    else
      match path
      case PathFailure => next.(changes := s.changes + {NIL_ID})
      case EmptyPath => next
      case FoundPath => if c.readOnly then next else s.(flow := Writing(id, s.rows[id], rest, s.flow.last))
  }

  ghost function Apply(c: Config, s: State, st: Step): State
    requires Enabled(s, st)
  {
    match st
    case ChangeRow(w, id, row) =>
      var rows := if row.Some? then s.rows[id := row.value] else s.rows - {id};
      s.(rows := rows, writers := s.writers[w := Recording(id)])
    case RecordChange(w) =>
      s.(changes := s.changes + {s.writers[w].id}, writers := s.writers[w := Notifying])
    case Notify(w, broadcast) =>
      s.(notified := s.notified || broadcast, writers := s.writers - {w})
    case ForceChange(w, id) => s.(changes := s.changes + {id}, writers := s.writers[w := Notifying])
    case Broadcast => s.(notified := true)
    case RequestRestart => s.(restart := true)
    case SeedInsert =>
      var (id, row) := s.flow.todo[0];
      s.(rows := if id in s.rows then s.rows else s.rows[id := row], flow := Seeding(s.flow.todo[1..]))
    case SeedDone => s.(flow := Waiting)
    case BeginDrain(ids, last) => s.(flow := Deleting(ids, ids, last))
    case DeleteChange =>
      s.(changes := s.changes - {s.flow.left[0]}, flow := s.flow.(left := s.flow.left[1..]))
    case Unlock => s.(flow := Persisting(s.flow.batch, s.flow.last))
    case ReadRow(path) => ReadRowResult(c, s, path)
    case WriteVault =>
      s.(vault := s.vault[s.flow.id := s.flow.row], flow := Persisting(s.flow.batch, s.flow.last))
    case SoftDelete =>
      s.(vault := s.vault - {s.flow.id}, flow := Persisting(s.flow.batch, s.flow.last))
    case EndDrain(reseed) =>
      if !s.flow.last then s.(notified := false, flow := Waiting)
      else if !s.restart then s.(flow := Stopped)
      else s.(restart := false, flow := if reseed.Some? then Seeding(reseed.value) else Waiting)
  }

  // ----- Runs -----

  ghost predicate Valid(c: Config, s: State, run: seq<Step>)
    decreases |run|, 0
  {
    run == [] || (Valid(c, s, run[..|run| - 1]) && Enabled(Exec(c, s, run[..|run| - 1]), run[|run| - 1]))
  }

  ghost function Exec(c: Config, s: State, run: seq<Step>): State
    requires Valid(c, s, run)
    decreases |run|, 1
  {
    if run == [] then s else Apply(c, Exec(c, s, run[..|run| - 1]), run[|run| - 1])
  }

  lemma RunExtended(c: Config, s: State, run: seq<Step>, st: Step)
    requires Valid(c, s, run) && Enabled(Exec(c, s, run), st)
    ensures Valid(c, s, run + [st]) && Exec(c, s, run + [st]) == Apply(c, Exec(c, s, run), st)
  {
    hide Apply, Enabled;
    assert (run + [st])[..|run|] == run;
  }

  /** First start of a flow: an empty table that is about to be filled from Vault. */
  ghost predicate Start(s: State) {
    && s.rows == map[] && s.changes == {} && s.writers == map[]
    && s.flow.Seeding? && Loaded(s.vault, s.flow.todo)
  }

  // ----- Where a change can be -----

  /** Ids the flow goroutine has selected from `_Changes` and not yet looked at. */
  ghost function Unread(flow: Flow): set<Id> {
    match flow
    case Seeding(_) => {}
    case Waiting => {}
    case Deleting(_, batch, _) => SetOf(batch)
    case Persisting(batch, _) => SetOf(batch)
    case Writing(_, _, batch, _) => SetOf(batch)
    case Removing(_, batch, _) => SetOf(batch)
    case Stopped => {}
  }

  ghost predicate HeldByWriter(s: State, id: Id) {
    exists w :: w in s.writers && s.writers[w] == Recording(id)
  }

  function IdsOf(todo: seq<(Id, Row)>): set<Id> {
    set e | e in todo :: e.0
  }

  /** A Vault entry that the bootstrap has read and not yet inserted. */
  ghost predicate AboutToLoad(s: State, id: Id) {
    s.flow.Seeding? && id !in s.rows && id in IdsOf(s.flow.todo)
  }

  ghost predicate Tracked(s: State, id: Id) {
    id in s.changes || id in Unread(s.flow) || HeldByWriter(s, id) || AboutToLoad(s, id)
  }

  ghost predicate InFlight(s: State, id: Id) {
    (s.flow.Writing? || s.flow.Removing?) && s.flow.id == id
  }

  /** What the write that is under way will leave in Vault for its id. */
  ghost function Snapshot(flow: Flow): Option<Row>
    requires flow.Writing? || flow.Removing?
  {
    if flow.Writing? then Some(flow.row) else None
  }

  /** Vault holds exactly the row; a deleted id is gone from Vault when deletes are synced. */
  ghost predicate Agrees(c: Config, s: State, id: Id) {
    && (id in s.rows ==> id in s.vault && s.vault[id] == s.rows[id])
    && (id !in s.rows && c.syncDelete ==> id !in s.vault)
  }

  /** Vault is behind and nothing will bring it up to date. */
  ghost predicate Lost(c: Config, s: State, id: Id) {
    !Agrees(c, s, id) && !Tracked(s, id) && !InFlight(s, id)
  }

  /** A stale snapshot on its way to Vault is tracked. */
  ghost predicate Covered(s: State, id: Id) {
    InFlight(s, id) && Snapshot(s.flow) != Current(s.rows, id) ==> Tracked(s, id)
  }

  ghost predicate Inv(c: Config, s: State) {
    && (forall id :: Covered(s, id))
    && (s.flow.Seeding? ==> Loaded(s.vault, s.flow.todo))
    && (s.flow.Deleting? ==> SetOf(s.flow.left) <= SetOf(s.flow.batch))
    && (s.flow.Removing? ==> c.syncDelete)
  }

  /** A writer's first query gives one id its new row, or takes its row away, and changes no other. */
  lemma RowChanged(c: Config, s: State, w: nat, id: Id, row: Option<Row>, other: Id)
    requires Enabled(s, ChangeRow(w, id, row))
    ensures Current(Apply(c, s, ChangeRow(w, id, row)).rows, other) == if other == id then row else Current(s.rows, other)
  {
  }

  // ----- When a change gets lost -----

  /** A path failure records the text of nil instead of the id that was read. */
  ghost predicate Reinjects(s: State, st: Step, id: Id) {
    && st.ReadRow? && st.path.PathFailure? && s.flow.Persisting? && s.flow.batch != []
    && s.flow.batch[0] in s.rows && id == NIL_ID
  }

  /** The flow reads an id that is recorded nowhere else, and may not write or gets no usable path. */
  ghost predicate GivesUp(c: Config, s: State, st: Step, id: Id) {
    && st.ReadRow? && s.flow.Persisting? && s.flow.batch != [] && s.flow.batch[0] == id
    && (c.readOnly || !st.path.FoundPath?) && !Agrees(c, s, id)
    && id !in s.changes && id !in s.flow.batch[1..] && !HeldByWriter(s, id) && !Reinjects(s, st, id)
  }

  /** The id is changed, recorded by hand or by accident, or about to be reloaded. */
  ghost predicate Disturbs(s: State, st: Step, id: Id) {
    || (st.ChangeRow? && st.id == id)
    || (st.ForceChange? && st.id == id)
    || Reinjects(s, st, id)
    || (st.EndDrain? && st.reseed.Some? && id !in s.rows && id in IdsOf(st.reseed.value))
  }

  lemma SetOfTail<T>(s: seq<T>)
    requires s != []
    ensures SetOf(s) == {s[0]} + SetOf(s[1..])
  {
    assert s == [s[0]] + s[1..];
  }

  lemma SameWriters(s: State, s': State, id: Id)
    requires s'.writers == s.writers
    ensures HeldByWriter(s, id) <==> HeldByWriter(s', id)
  {
  }

  /** What a step does for one id: the snapshot stays covered, and the id is lost exactly if it was lost
    and nothing disturbed that, or the flow gives up on it now. */
  ghost predicate Exactly(c: Config, s: State, st: Step, id: Id)
    requires Enabled(s, st)
  {
    && Covered(Apply(c, s, st), id)
    && (Lost(c, Apply(c, s, st), id) <==> (Lost(c, s, id) && !Disturbs(s, st, id)) || GivesUp(c, s, st, id))
  }

  lemma WritersMove(c: Config, s: State, st: Step, id: Id)
    requires Enabled(s, st) && IsWriterStep(st)
    ensures
      var s' := Apply(c, s, st);
      HeldByWriter(s', id) || id in s'.changes <==>
        HeldByWriter(s, id) || id in s.changes || ((st.ChangeRow? || st.ForceChange?) && st.id == id)
  {
    var s' := Apply(c, s, st);
    if HeldByWriter(s, id) {
      var w :| w in s.writers && s.writers[w] == Recording(id);
      assert id in s'.changes || s'.writers[w] == Recording(id);
    }
    if st.ChangeRow? {
      assert s'.writers[st.w] == Recording(st.id);
    }
    if HeldByWriter(s', id) {
      var w :| w in s'.writers && s'.writers[w] == Recording(id);
      assert (w in s.writers && s.writers[w] == Recording(id)) || (st.ChangeRow? && st.id == id);
    }
  }

  lemma WriterStepExactly(c: Config, s: State, st: Step, id: Id)
    requires Covered(s, id) && Enabled(s, st) && IsWriterStep(st)
    ensures Exactly(c, s, st, id)
  {
    WritersMove(c, s, st, id);
    hide HeldByWriter;
    assert true;
  }

  lemma SeedStepExactly(c: Config, s: State, st: Step, id: Id)
    requires Covered(s, id) && Enabled(s, st) && (st.SeedInsert? || st.SeedDone?)
    requires Loaded(s.vault, s.flow.todo)
    ensures Exactly(c, s, st, id)
  {
    SameWriters(s, Apply(c, s, st), id);
    if st.SeedInsert? {
      var todo := s.flow.todo;
      assert todo[0] in todo;
      assert forall e :: e in todo <==> e == todo[0] || e in todo[1..];
    }
  }

  lemma DrainStepExactly(c: Config, s: State, st: Step, id: Id)
    requires Covered(s, id) && Enabled(s, st)
    requires st.BeginDrain? || st.DeleteChange? || st.Unlock? || st.EndDrain?
    requires s.flow.Deleting? ==> SetOf(s.flow.left) <= SetOf(s.flow.batch)
    ensures Exactly(c, s, st, id)
  {
    if st.EndDrain? {
      DrainEndExactly(c, s, st, id);
    } else {
      DrainQueryExactly(c, s, st, id);
    }
  }

  lemma DrainQueryExactly(c: Config, s: State, st: Step, id: Id)
    requires Covered(s, id) && Enabled(s, st) && (st.BeginDrain? || st.DeleteChange? || st.Unlock?)
    requires s.flow.Deleting? ==> SetOf(s.flow.left) <= SetOf(s.flow.batch)
    ensures Exactly(c, s, st, id)
  {
    SameWriters(s, Apply(c, s, st), id);
    if st.DeleteChange? { SetOfTail(s.flow.left); }
  }

  lemma DrainEnded(c: Config, s: State, st: Step, id: Id)
    requires Enabled(s, st) && st.EndDrain?
    ensures
      var s' := Apply(c, s, st);
      && s'.rows == s.rows && s'.vault == s.vault && !InFlight(s, id) && !InFlight(s', id)
      && (Tracked(s', id) <==> Tracked(s, id) || (st.reseed.Some? && id !in s.rows && id in IdsOf(st.reseed.value)))
  {
    SameWriters(s, Apply(c, s, st), id);
    hide HeldByWriter;
    assert true;
  }

  lemma DrainEndExactly(c: Config, s: State, st: Step, id: Id)
    requires Enabled(s, st) && st.EndDrain?
    ensures Exactly(c, s, st, id)
  {
    DrainEnded(c, s, st, id);
    SameAgreement(c, s, Apply(c, s, st), id);
    hide Apply, Agrees, Tracked, InFlight;
    assert true;
  }

  /** An entry that is read becomes a write of its current row or a removal if the flow may write and has
    a usable path, and is dropped otherwise. */
  lemma ReadRowOutcome(c: Config, s: State, path: PathResult)
    requires s.flow.Persisting? && s.flow.batch != []
    ensures
      var s', id := ReadRowResult(c, s, path), s.flow.batch[0];
      && s'.rows == s.rows && s'.vault == s.vault && s'.writers == s.writers
      && s'.changes == (if path.PathFailure? && id in s.rows then s.changes + {NIL_ID} else s.changes)
      && Unread(s'.flow) == SetOf(s.flow.batch[1..]) && !s'.flow.Seeding?
      && (if !c.readOnly && path.FoundPath? && (id in s.rows || c.syncDelete)
          then (s'.flow.Writing? || s'.flow.Removing?) && s'.flow.id == id && Snapshot(s'.flow) == Current(s.rows, id)
          else s'.flow.Persisting?)
  {
  }

  lemma SameAgreement(c: Config, s: State, s': State, id: Id)
    requires s'.rows == s.rows && s'.vault == s.vault
    ensures Agrees(c, s, id) <==> Agrees(c, s', id)
  {
  }

  lemma NothingOwed(c: Config, s: State, id: Id)
    requires id !in s.rows && !c.syncDelete
    ensures Agrees(c, s, id)
  {
  }

  /** Where the ids are after a read. */
  lemma ReadRowTracks(c: Config, s: State, path: PathResult, id: Id)
    requires s.flow.Persisting? && s.flow.batch != []
    ensures
      var s' := ReadRowResult(c, s, path);
      && (Tracked(s', id) <==> id in s.changes || id in s.flow.batch[1..] || HeldByWriter(s, id) || Reinjects(s, ReadRow(path), id))
      && (Tracked(s, id) <==> id in s.changes || id in s.flow.batch || HeldByWriter(s, id)) && !InFlight(s, id)
  {
    ReadRowOutcome(c, s, path);
    SameWriters(s, ReadRowResult(c, s, path), id);
    hide HeldByWriter, ReadRowResult;
    assert true;
  }

  lemma ReadRowExactly(c: Config, s: State, path: PathResult, id: Id)
    requires s.flow.Persisting? && s.flow.batch != []
    ensures Exactly(c, s, ReadRow(path), id)
  {
    var s' := ReadRowResult(c, s, path);
    ReadRowOutcome(c, s, path);
    ReadRowTracks(c, s, path, id);
    SameAgreement(c, s, s', id);
    assert s.flow.batch == [s.flow.batch[0]] + s.flow.batch[1..];
    if id == s.flow.batch[0] && id !in s.rows && !c.syncDelete { NothingOwed(c, s, id); }
    hide HeldByWriter, ReadRowResult, Agrees, Tracked;
    assert true;
  }

  lemma VaultStepExactly(c: Config, s: State, st: Step, id: Id)
    requires Covered(s, id) && Enabled(s, st) && (st.WriteVault? || st.SoftDelete?)
    requires s.flow.Removing? ==> c.syncDelete
    ensures Exactly(c, s, st, id)
  {
    SameWriters(s, Apply(c, s, st), id);
  }

  lemma StepExactly(c: Config, s: State, st: Step, id: Id)
    requires Inv(c, s) && Enabled(s, st)
    ensures Exactly(c, s, st, id)
  {
    assert Covered(s, id);
    hide Exactly, Covered;
    match st
    case SeedInsert => SeedStepExactly(c, s, st, id);
    case SeedDone => SeedStepExactly(c, s, st, id);
    case ReadRow(path) => ReadRowExactly(c, s, path, id);
    case WriteVault => VaultStepExactly(c, s, st, id);
    case SoftDelete => VaultStepExactly(c, s, st, id);
    case BeginDrain(_, _) => DrainStepExactly(c, s, st, id);
    case DeleteChange => DrainStepExactly(c, s, st, id);
    case Unlock => DrainStepExactly(c, s, st, id);
    case EndDrain(_) => DrainStepExactly(c, s, st, id);
    case _ => WriterStepExactly(c, s, st, id);
  }

  lemma StepKeepsInv(c: Config, s: State, st: Step)
    requires Inv(c, s) && Enabled(s, st)
    ensures Inv(c, Apply(c, s, st))
  {
    StepKeepsLoaded(c, s, st);
    StepKeepsLeft(c, s, st);
    hide Covered, Apply, Loaded;
    forall id ensures Covered(Apply(c, s, st), id) {
      hide Inv;
      StepExactly(c, s, st, id);
    }
  }

  lemma StepKeepsLoaded(c: Config, s: State, st: Step)
    requires Enabled(s, st) && (s.flow.Seeding? ==> Loaded(s.vault, s.flow.todo))
    ensures var s' := Apply(c, s, st); s'.flow.Seeding? ==> Loaded(s'.vault, s'.flow.todo)
  {
    if st.SeedInsert? { assert forall e :: e in s.flow.todo[1..] ==> e in s.flow.todo; }
  }

  lemma StepKeepsLeft(c: Config, s: State, st: Step)
    requires Enabled(s, st) && (s.flow.Removing? ==> c.syncDelete)
    requires s.flow.Deleting? ==> SetOf(s.flow.left) <= SetOf(s.flow.batch)
    ensures var s' := Apply(c, s, st);
      (s'.flow.Deleting? ==> SetOf(s'.flow.left) <= SetOf(s'.flow.batch)) && (s'.flow.Removing? ==> c.syncDelete)
  {
    if st.DeleteChange? { SetOfTail(s.flow.left); }
  }

  lemma StartInv(c: Config, s: State)
    requires Start(s)
    ensures Inv(c, s)
  {
  }

  /** The inductive invariant holds in every reachable state. */
  lemma {:induction false} InvAlways(c: Config, s: State, run: seq<Step>)
    requires Start(s) && Valid(c, s, run)
    ensures Inv(c, Exec(c, s, run))
    decreases |run|
  {
    hide Apply, Enabled, Inv;
    if run == [] { StartInv(c, s); }
    if run != [] {
      var prefix, st := run[..|run| - 1], run[|run| - 1];
      InvAlways(c, s, prefix);
      StepKeepsInv(c, Exec(c, s, prefix), st);
    }
  }

  // ----- Exactly which changes are lost over a run -----

  /** Step `i` of the run is where the flow gives up on the id. */
  ghost predicate GivenUpAt(c: Config, s: State, run: seq<Step>, i: nat, id: Id) {
    i < |run| && Valid(c, s, run[..i]) && GivesUp(c, Exec(c, s, run[..i]), run[i], id)
  }

  /** From step `i` on nothing disturbs the id. */
  ghost predicate Undisturbed(c: Config, s: State, run: seq<Step>, i: nat, id: Id) {
    forall j :: i <= j < |run| ==> UndisturbedAt(c, s, run, j, id)
  }

  ghost predicate UndisturbedAt(c: Config, s: State, run: seq<Step>, j: nat, id: Id) {
    j < |run| && Valid(c, s, run[..j]) && !Disturbs(Exec(c, s, run[..j]), run[j], id)
  }

  /** The flow gave up on the id in the run and nothing disturbed it since. */
  ghost predicate GivenUp(c: Config, s: State, run: seq<Step>, id: Id) {
    exists i: nat :: GivenUpAt(c, s, run, i, id) && Undisturbed(c, s, run, i + 1, id)
  }

  /** A Vault entry that the bootstrap failed to load, in a table whose deletes are synced. */
  ghost predicate NeverLoaded(c: Config, s: State, run: seq<Step>, id: Id)
    requires s.flow.Seeding?
  {
    c.syncDelete && id in s.vault && id !in IdsOf(s.flow.todo) && Undisturbed(c, s, run, 0, id)
  }

  lemma UndisturbedExtended(c: Config, s: State, prefix: seq<Step>, st: Step, i: nat, id: Id)
    requires Valid(c, s, prefix) && i <= |prefix|
    ensures Undisturbed(c, s, prefix + [st], i, id) <==>
      Undisturbed(c, s, prefix, i, id) && !Disturbs(Exec(c, s, prefix), st, id)
  {
    hide Disturbs, Valid, Exec;
    var run := prefix + [st];
    assert run[..|prefix|] == prefix;
    forall j | 0 <= j < |prefix| ensures UndisturbedAt(c, s, run, j, id) <==> UndisturbedAt(c, s, prefix, j, id) {
      assert run[..j] == prefix[..j];
    }
    assert UndisturbedAt(c, s, run, |prefix|, id) <==> !Disturbs(Exec(c, s, prefix), st, id);
  }

  lemma GivenUpExtended(c: Config, s: State, prefix: seq<Step>, st: Step, id: Id)
    requires Valid(c, s, prefix)
    ensures GivenUp(c, s, prefix + [st], id) <==>
      || (GivenUp(c, s, prefix, id) && !Disturbs(Exec(c, s, prefix), st, id))
      || GivesUp(c, Exec(c, s, prefix), st, id)
  {
    hide Disturbs, Valid, Exec, Undisturbed, GivesUp;
    var run := prefix + [st];
    assert run[..|prefix|] == prefix;
    forall i | 0 <= i < |prefix|
      ensures GivenUpAt(c, s, run, i, id) <==> GivenUpAt(c, s, prefix, i, id)
      ensures Undisturbed(c, s, run, i + 1, id) <==>
        Undisturbed(c, s, prefix, i + 1, id) && !Disturbs(Exec(c, s, prefix), st, id)
    {
      assert run[..i] == prefix[..i];
      UndisturbedExtended(c, s, prefix, st, i + 1, id);
    }
    assert GivenUpAt(c, s, run, |prefix|, id) <==> GivesUp(c, Exec(c, s, prefix), st, id);
    assert Undisturbed(c, s, run, |prefix| + 1, id) by { NothingAfter(c, s, run, id); }
  }

  lemma NothingAfter(c: Config, s: State, run: seq<Step>, id: Id)
    ensures Undisturbed(c, s, run, |run|, id)
  {
  }

  /** For any run and any id: Vault is behind with nothing to bring it up to date if and only if the
    flow gave up on the id, or the bootstrap failed to load it, and nothing disturbed the id since. */
  lemma {:induction false} LostExactly(c: Config, s: State, run: seq<Step>, id: Id)
    requires Start(s) && Valid(c, s, run)
    ensures Lost(c, Exec(c, s, run), id) <==> GivenUp(c, s, run, id) || NeverLoaded(c, s, run, id)
    decreases |run|
  {
    hide Apply, Enabled, Inv, GivenUp, NeverLoaded, Lost, Disturbs, GivesUp;
    if run == [] {
      LostAtStart(c, s, id);
    } else {
      var prefix, st := run[..|run| - 1], run[|run| - 1];
      LostExactly(c, s, prefix, id);
      InvAlways(c, s, prefix);
      StepExactly(c, Exec(c, s, prefix), st, id);
      assert run == prefix + [st];
      GivenUpExtended(c, s, prefix, st, id);
      NeverLoadedExtended(c, s, prefix, st, id);
    }
  }

  lemma LostAtStart(c: Config, s: State, id: Id)
    requires Start(s)
    ensures Lost(c, s, id) <==> GivenUp(c, s, [], id) || NeverLoaded(c, s, [], id)
  {
    NothingAfter(c, s, [], id);
  }

  lemma NeverLoadedExtended(c: Config, s: State, prefix: seq<Step>, st: Step, id: Id)
    requires Valid(c, s, prefix) && s.flow.Seeding?
    ensures NeverLoaded(c, s, prefix + [st], id) <==>
      NeverLoaded(c, s, prefix, id) && !Disturbs(Exec(c, s, prefix), st, id)
  {
    hide Disturbs, Valid, Exec, Undisturbed;
    UndisturbedExtended(c, s, prefix, st, 0, id);
  }

  /** An entry that was never loaded has no row until something disturbs it. */
  lemma {:induction false} NeverLoadedHasNoRow(c: Config, s: State, run: seq<Step>, id: Id)
    requires Start(s) && Valid(c, s, run) && NeverLoaded(c, s, run, id)
    ensures id !in Exec(c, s, run).rows
    decreases |run|
  {
    hide Apply, Enabled, Inv, NeverLoaded;
    if run != [] {
      var prefix, st := run[..|run| - 1], run[|run| - 1];
      assert run == prefix + [st];
      NeverLoadedExtended(c, s, prefix, st, id);
      NeverLoadedHasNoRow(c, s, prefix, id);
      LostExactly(c, s, prefix, id);
      RowStaysAway(c, Exec(c, s, prefix), st, id);
    }
  }

  lemma RowStaysAway(c: Config, s: State, st: Step, id: Id)
    requires Enabled(s, st) && id !in s.rows && Lost(c, s, id) && !Disturbs(s, st, id)
    ensures id !in Apply(c, s, st).rows
  {
    if st.SeedInsert? { assert s.flow.todo[0] in s.flow.todo; }
  }

  /** No lost update: in every reachable state a row that differs from Vault is in `_Changes`, in the
    drained batch, held by a writer between its two queries, about to be written with its current
    contents, or was given up on in a read of its last recorded change. */
  lemma {:induction false} NoChangeIsLost(c: Config, s: State, run: seq<Step>, id: Id)
    requires Start(s) && Valid(c, s, run)
    ensures
      var t := Exec(c, s, run);
      id in t.rows && Current(t.vault, id) != Some(t.rows[id]) ==>
        || id in t.changes || id in Unread(t.flow) || HeldByWriter(t, id)
        || (t.flow.Writing? && t.flow.id == id && t.flow.row == t.rows[id])
        || GivenUp(c, s, run, id)
  {
    hide GivenUp, NeverLoaded, Exec, Valid;
    InvAlways(c, s, run);
    LostExactly(c, s, run, id);
    if NeverLoaded(c, s, run, id) { NeverLoadedHasNoRow(c, s, run, id); }
    assert Covered(Exec(c, s, run), id);
  }

  /** Every answer of the index path callback is a path. */
  ghost predicate PathsFound(run: seq<Step>) {
    forall i :: 0 <= i < |run| && run[i].ReadRow? ==> run[i].path.FoundPath?
  }

  lemma NothingGivenUp(c: Config, s: State, run: seq<Step>, id: Id)
    requires !c.readOnly && PathsFound(run)
    ensures !GivenUp(c, s, run, id)
  {
    hide Valid, Exec;
    forall i: nat ensures !GivenUpAt(c, s, run, i, id) {
    }
  }

  /** A flow that may write and always gets a path loses nothing at all. */
  lemma WritableFlowLosesNothing(c: Config, s: State, run: seq<Step>, id: Id)
    requires Start(s) && Valid(c, s, run) && !c.readOnly && PathsFound(run)
    ensures
      var t := Exec(c, s, run);
      id in t.rows && Current(t.vault, id) != Some(t.rows[id]) ==>
        || id in t.changes || id in Unread(t.flow) || HeldByWriter(t, id)
        || (t.flow.Writing? && t.flow.id == id && t.flow.row == t.rows[id])
  {
    hide Valid, Exec, GivenUp;
    NoChangeIsLost(c, s, run, id);
    NothingGivenUp(c, s, run, id);
  }

  // ----- The shutdown branch -----

  ghost predicate NobodyRecording(s: State) {
    forall w :: w in s.writers ==> !s.writers[w].Recording?
  }

  /** No row is changed and no id recorded by hand; broadcasts and restart requests may come. */
  predicate NoChangeSteps(run: seq<Step>) {
    forall i :: 0 <= i < |run| ==> !run[i].ChangeRow? && !run[i].ForceChange?
  }

  /** From the SELECT of a drain on, with no writer between its queries, every recorded id is still to
    be deleted and so is in the batch, except for the spare: the id that a path failure records. */
  ghost predicate Settling(s: State, spare: set<Id>) {
    && NobodyRecording(s)
    && s.changes <= (if s.flow.Deleting? then SetOf(s.flow.left) else {}) + spare
  }

  lemma SettlingStep(c: Config, s: State, st: Step, spare: set<Id>)
    requires Enabled(s, st) && !st.ChangeRow? && !st.ForceChange?
    requires NIL_ID in spare || (st.ReadRow? ==> st.path.FoundPath?)
    requires Settling(s, spare) || (st.BeginDrain? && NobodyRecording(s))
    ensures Settling(Apply(c, s, st), spare)
  {
    if st.DeleteChange? { SetOfTail(s.flow.left); }
  }

  lemma {:induction false} SettlingKept(c: Config, s: State, run: seq<Step>, spare: set<Id>)
    requires Valid(c, s, run) && NoChangeSteps(run) && (NIL_ID in spare || PathsFound(run))
    requires NobodyRecording(s) && run != [] && run[0].BeginDrain?
    ensures Settling(Exec(c, s, run), spare)
    decreases |run|
  {
    hide Apply, Enabled, Settling;
    var prefix := run[..|run| - 1];
    if prefix != [] {
      assert forall i :: 0 <= i < |prefix| ==> prefix[i] == run[i];
      SettlingKept(c, s, prefix, spare);
    }
    SettlingStep(c, Exec(c, s, prefix), run[|run| - 1], spare);
  }

  /** No batch entry is left to look at and none is on its way to Vault. */
  ghost predicate AtRest(flow: Flow) {
    flow.Waiting? || flow.Stopped? || (flow.Persisting? && flow.batch == [])
  }

  lemma SettledAgrees(c: Config, s: State, id: Id)
    requires Settling(s, {NIL_ID}) && AtRest(s.flow) && id !in s.changes
    ensures Agrees(c, s, id) <==> !Lost(c, s, id)
  {
  }

  lemma LastStep(c: Config, s: State, run: seq<Step>)
    requires Valid(c, s, run)
    ensures run == [] ==> Exec(c, s, run) == s
    ensures run != [] ==>
      var prefix, st := run[..|run| - 1], run[|run| - 1];
      Valid(c, s, prefix) && Enabled(Exec(c, s, prefix), st) && Exec(c, s, run) == Apply(c, Exec(c, s, prefix), st)
  {
    hide Apply, Enabled;
    assert true;
  }

  lemma {:induction false} RunsCompose(c: Config, s: State, run: seq<Step>, tail: seq<Step>)
    requires Valid(c, s, run) && Valid(c, Exec(c, s, run), tail)
    ensures Valid(c, s, run + tail) && Exec(c, s, run + tail) == Exec(c, Exec(c, s, run), tail)
    decreases |tail|
  {
    hide Apply, Enabled, Valid, Exec;
    var t := Exec(c, s, run);
    LastStep(c, t, tail);
    if tail == [] {
      assert run + tail == run;
    } else {
      var prefix, st := tail[..|tail| - 1], tail[|tail| - 1];
      RunsCompose(c, s, run, prefix);
      RunExtended(c, s, run + prefix, st);
      assert run + tail == (run + prefix) + [st];
    }
  }

  /** Over a whole run: bootstrap, any steps of any goroutine, then a drain (of the shutdown branch
    or not) with no writer between its queries. When the flow has stopped, or waits again after a
    restart that did or did not reload the table, nothing is recorded but the text of nil, and an id
    agrees with Vault, as a row or as a synced delete, if and only if the flow has not given up on it
    and the bootstrap had loaded it, or else something disturbed it since. */
  lemma {:induction false} FinalDrainAgrees(c: Config, s: State, run: seq<Step>, tail: seq<Step>, id: Id)
    requires Start(s) && Valid(c, s, run) && NobodyRecording(Exec(c, s, run))
    requires Valid(c, Exec(c, s, run), tail) && NoChangeSteps(tail) && tail != [] && tail[0].BeginDrain?
    requires AtRest(Exec(c, Exec(c, s, run), tail).flow)
    ensures
      var t := Exec(c, Exec(c, s, run), tail);
      && t.changes <= {NIL_ID}
      && (id !in t.changes ==> (Agrees(c, t, id) <==> !GivenUp(c, s, run + tail, id) && !NeverLoaded(c, s, run + tail, id)))
  {
    hide Apply, Enabled, Valid, Exec, GivenUp, NeverLoaded, NobodyRecording;
    var t := Exec(c, s, run);
    RunsCompose(c, s, run, tail);
    LostExactly(c, s, run + tail, id);
    SettlingKept(c, t, tail, {NIL_ID});
    if id !in Exec(c, t, tail).changes { SettledAgrees(c, Exec(c, t, tail), id); }
  }

  /** If the flow may write and always gets a path, such a run leaves nothing recorded and Vault holds
    every row, and no deleted id unless the bootstrap had failed to load it. */
  lemma WritableFlowAgrees(c: Config, s: State, run: seq<Step>, tail: seq<Step>, id: Id)
    requires Start(s) && Valid(c, s, run) && NobodyRecording(Exec(c, s, run))
    requires Valid(c, Exec(c, s, run), tail) && NoChangeSteps(tail) && tail != [] && tail[0].BeginDrain?
    requires AtRest(Exec(c, Exec(c, s, run), tail).flow) && !c.readOnly && PathsFound(run + tail)
    ensures
      var t := Exec(c, Exec(c, s, run), tail);
      && t.changes == {}
      && (id in t.rows || id in IdsOf(s.flow.todo) || id !in s.vault ==> Agrees(c, t, id))
  {
    hide Valid, Exec, GivenUp;
    assert forall i :: 0 <= i < |tail| ==> tail[i] == (run + tail)[|run| + i];
    SettlingKept(c, Exec(c, s, run), tail, {});
    FinalDrainAgrees(c, s, run, tail, id);
    NothingGivenUp(c, s, run + tail, id);
    RunsCompose(c, s, run, tail);
    if NeverLoaded(c, s, run + tail, id) { NeverLoadedHasNoRow(c, s, run + tail, id); }
  }

  // ----- What becomes of one drained entry -----

  /** The entry was read in state `s`; nothing tracks its id since, and Vault has been brought up to its
    row, or is about to be, exactly in the good case. */
  ghost predicate Decided(c: Config, s: State, u: State, id: Id, good: bool) {
    && !Tracked(u, id) && Current(u.rows, id) == Current(s.rows, id)
    && (if InFlight(u, id) then good && Snapshot(u.flow) == Current(u.rows, id) else Agrees(c, u, id) <==> Agrees(c, s, id) || good)
  }

  lemma DecidedByReading(c: Config, s: State, path: PathResult, id: Id)
    requires s.flow.Persisting? && s.flow.batch != [] && s.flow.batch[0] == id
    requires id !in s.changes && id !in s.flow.batch[1..] && !HeldByWriter(s, id) && !Reinjects(s, ReadRow(path), id)
    ensures Decided(c, s, ReadRowResult(c, s, path), id, !c.readOnly && path.FoundPath?)
  {
    ReadRowOutcome(c, s, path);
    SameWriters(s, ReadRowResult(c, s, path), id);
    hide ReadRowResult, HeldByWriter;
    assert true;
  }

  lemma DecidedKept(c: Config, s: State, u: State, st: Step, id: Id, good: bool)
    requires Inv(c, u) && Enabled(u, st) && Decided(c, s, u, id, good) && !Disturbs(u, st, id)
    ensures Decided(c, s, Apply(c, u, st), id, good)
  {
    if IsWriterStep(st) {
      DecidedByWriter(c, s, u, st, id, good);
    } else if st.ReadRow? {
      DecidedByOther(c, s, u, st.path, id, good);
    } else {
      DecidedByFlow(c, s, u, st, id, good);
    }
  }

  lemma DecidedByWriter(c: Config, s: State, u: State, st: Step, id: Id, good: bool)
    requires Enabled(u, st) && IsWriterStep(st) && Decided(c, s, u, id, good) && !Disturbs(u, st, id)
    ensures Decided(c, s, Apply(c, u, st), id, good)
  {
    WritersMove(c, u, st, id);
    hide HeldByWriter;
    assert true;
  }

  lemma DecidedByOther(c: Config, s: State, u: State, path: PathResult, id: Id, good: bool)
    requires u.flow.Persisting? && u.flow.batch != [] && Decided(c, s, u, id, good) && !Disturbs(u, ReadRow(path), id)
    ensures Decided(c, s, ReadRowResult(c, u, path), id, good)
  {
    ReadRowOutcome(c, u, path);
    SameWriters(u, ReadRowResult(c, u, path), id);
    SetOfTail(u.flow.batch);
    hide ReadRowResult, HeldByWriter;
    assert true;
  }

  lemma DecidedByFlow(c: Config, s: State, u: State, st: Step, id: Id, good: bool)
    requires Inv(c, u) && Enabled(u, st) && !IsWriterStep(st) && !st.ReadRow?
    requires Decided(c, s, u, id, good) && !Disturbs(u, st, id)
    ensures Decided(c, s, Apply(c, u, st), id, good)
  {
    if st.SeedInsert? || st.SeedDone? {
      DecidedBySeeding(c, s, u, st, id, good);
    } else if st.WriteVault? || st.SoftDelete? {
      DecidedByVault(c, s, u, st, id, good);
    } else {
      DecidedByDrain(c, s, u, st, id, good);
    }
  }

  lemma DecidedBySeeding(c: Config, s: State, u: State, st: Step, id: Id, good: bool)
    requires Enabled(u, st) && (st.SeedInsert? || st.SeedDone?) && Decided(c, s, u, id, good)
    ensures Decided(c, s, Apply(c, u, st), id, good)
  {
    SameWriters(u, Apply(c, u, st), id);
    if st.SeedInsert? {
      assert u.flow.todo[0] in u.flow.todo;
      assert forall e :: e in u.flow.todo[1..] ==> e in u.flow.todo;
    }
  }

  lemma DecidedByVault(c: Config, s: State, u: State, st: Step, id: Id, good: bool)
    requires Enabled(u, st) && (st.WriteVault? || st.SoftDelete?) && Decided(c, s, u, id, good)
    requires u.flow.Removing? ==> c.syncDelete
    ensures Decided(c, s, Apply(c, u, st), id, good)
  {
    SameWriters(u, Apply(c, u, st), id);
  }

  lemma DecidedByDrain(c: Config, s: State, u: State, st: Step, id: Id, good: bool)
    requires Enabled(u, st) && (st.BeginDrain? || st.DeleteChange? || st.Unlock? || st.EndDrain?)
    requires Decided(c, s, u, id, good) && !Disturbs(u, st, id)
    requires u.flow.Deleting? ==> SetOf(u.flow.left) <= SetOf(u.flow.batch)
    ensures Decided(c, s, Apply(c, u, st), id, good)
  {
    if st.EndDrain? {
      DecidedByDrainEnd(c, s, u, st, id, good);
    } else {
      DecidedByDrainQuery(c, s, u, st, id, good);
    }
  }

  lemma DecidedByDrainQuery(c: Config, s: State, u: State, st: Step, id: Id, good: bool)
    requires Enabled(u, st) && (st.BeginDrain? || st.DeleteChange? || st.Unlock?) && Decided(c, s, u, id, good)
    requires u.flow.Deleting? ==> SetOf(u.flow.left) <= SetOf(u.flow.batch)
    ensures Decided(c, s, Apply(c, u, st), id, good)
  {
    SameWriters(u, Apply(c, u, st), id);
    if st.DeleteChange? { SetOfTail(u.flow.left); }
  }

  lemma DecidedByDrainEnd(c: Config, s: State, u: State, st: Step, id: Id, good: bool)
    requires Enabled(u, st) && st.EndDrain? && Decided(c, s, u, id, good) && !Disturbs(u, st, id)
    ensures Decided(c, s, Apply(c, u, st), id, good)
  {
    DrainEnded(c, u, st, id);
    SameAgreement(c, u, Apply(c, u, st), id);
    hide Apply, Enabled, Agrees, Tracked, InFlight;
    assert true;
  }

  lemma {:induction false} DecidedAlways(c: Config, s: State, u: State, tail: seq<Step>, id: Id, good: bool)
    requires Inv(c, u) && Decided(c, s, u, id, good) && Valid(c, u, tail) && Undisturbed(c, u, tail, 0, id)
    ensures Decided(c, s, Exec(c, u, tail), id, good) && Inv(c, Exec(c, u, tail))
    decreases |tail|
  {
    hide Apply, Enabled, Inv, Decided, Disturbs, Valid, Exec, Undisturbed;
    LastStep(c, u, tail);
    if tail != [] {
      var prefix, st := tail[..|tail| - 1], tail[|tail| - 1];
      assert tail == prefix + [st];
      UndisturbedExtended(c, u, prefix, st, 0, id);
      DecidedAlways(c, s, u, prefix, id, good);
      StepKeepsInv(c, Exec(c, u, prefix), st);
      DecidedKept(c, s, Exec(c, u, prefix), st, id, good);
    }
  }

  /** Over every continuation that leaves the id alone, a drained entry that is recorded nowhere else
    stays untracked, and once no write of it is under way Vault agrees with it if and only if Vault did
    already, or the flow may write and the index path callback gave a path. */
  lemma EntryReachesVault(c: Config, s: State, path: PathResult, tail: seq<Step>, id: Id)
    requires Inv(c, s) && s.flow.Persisting? && s.flow.batch != [] && s.flow.batch[0] == id
    requires id !in s.changes && id !in s.flow.batch[1..] && !HeldByWriter(s, id) && !Reinjects(s, ReadRow(path), id)
    requires Valid(c, ReadRowResult(c, s, path), tail) && Undisturbed(c, ReadRowResult(c, s, path), tail, 0, id)
    ensures
      var t := Exec(c, ReadRowResult(c, s, path), tail);
      && !Tracked(t, id)
      && (!InFlight(t, id) ==> (Agrees(c, t, id) <==> Agrees(c, s, id) || (!c.readOnly && path.FoundPath?)))
  {
    hide Valid, Exec, Undisturbed, Inv, ReadRowResult;
    assert Inv(c, ReadRowResult(c, s, path)) by { StepKeepsInv(c, s, ReadRow(path)); }
    DecidedByReading(c, s, path, id);
    DecidedAlways(c, s, ReadRowResult(c, s, path), tail, id, !c.readOnly && path.FoundPath?);
  }

  // ----- When a notification is wiped -----

  /** The ids that a step puts into `_Changes`. */
  ghost function Records(s: State, st: Step): set<Id> {
    if st.RecordChange? && st.w in s.writers && s.writers[st.w].Recording? then {s.writers[st.w].id}
    else if st.ForceChange? then {st.id}
    else if Reinjects(s, st, NIL_ID) then {NIL_ID}
    else {}
  }

  predicate InDrain(flow: Flow) {
    flow.Deleting? || flow.Persisting? || flow.Writing? || flow.Removing?
  }

  ghost predicate SomebodyNotifying(s: State) {
    exists w :: w in s.writers && s.writers[w].Notifying?
  }

  /** Outside a drain a recorded id has been announced, or is about to be; inside, it is still to be deleted. */
  ghost predicate Heard(s: State) {
    && (s.flow.Seeding? || s.flow.Waiting? ==> s.notified || s.changes == {} || SomebodyNotifying(s))
    && (InDrain(s.flow) ==> s.changes <= if s.flow.Deleting? then SetOf(s.flow.left) else {})
  }

  /** Every announcement is made, and nothing is recorded between the SELECT of a drain and its end. */
  ghost predicate Announces(s: State, st: Step) {
    (st.Notify? ==> st.broadcast) && (InDrain(s.flow) ==> Records(s, st) == {})
  }

  lemma HeardStep(c: Config, s: State, st: Step)
    requires Enabled(s, st) && Heard(s) && Announces(s, st)
    ensures Heard(Apply(c, s, st))
  {
    var s' := Apply(c, s, st);
    if SomebodyNotifying(s) {
      var w :| w in s.writers && s.writers[w].Notifying?;
      assert s'.notified || (w in s'.writers && s'.writers[w].Notifying?);
    }
    if st.RecordChange? || st.ForceChange? { assert s'.writers[st.w].Notifying?; }
    if st.DeleteChange? { SetOfTail(s.flow.left); }
  }

  ghost predicate AlwaysAnnounced(c: Config, s: State, run: seq<Step>)
    requires Valid(c, s, run)
    decreases |run|
  {
    run == [] || (
      var prefix := run[..|run| - 1];
      Valid(c, s, prefix) && AlwaysAnnounced(c, s, prefix) && Announces(Exec(c, s, prefix), run[|run| - 1]))
  }

  lemma {:induction false} HeardAlways(c: Config, s: State, run: seq<Step>)
    requires Start(s) && Valid(c, s, run) && AlwaysAnnounced(c, s, run)
    ensures Heard(Exec(c, s, run))
    decreases |run|
  {
    hide Apply, Enabled, Announces, Heard, Valid, Exec;
    LastStep(c, s, run);
    if run == [] {
      assert Heard(s) by { HeardAtStart(s); }
    } else {
      var prefix := run[..|run| - 1];
      HeardAlways(c, s, prefix);
      HeardStep(c, Exec(c, s, prefix), run[|run| - 1]);
    }
  }

  lemma HeardAtStart(s: State)
    requires Start(s)
    ensures Heard(s)
  {
  }

  /** If every writer broadcasts and nothing is recorded between a drain's SELECT and its `Clear()`,
    then whenever the flow waits unnotified with an id recorded, somebody is about to broadcast. */
  lemma NotificationsHeard(c: Config, s: State, run: seq<Step>)
    requires Start(s) && Valid(c, s, run) && AlwaysAnnounced(c, s, run)
    ensures
      var t := Exec(c, s, run);
      t.flow.Waiting? && !t.notified && t.changes != {} ==> SomebodyNotifying(t)
  {
    HeardAlways(c, s, run);
  }

  /** The ids recorded in a run and not deleted afterwards by the drain under way. */
  ghost function RecordedSince(c: Config, s: State, run: seq<Step>): set<Id>
    requires Valid(c, s, run)
    decreases |run|
  {
    if run == [] then {}
    else
      var prefix, st := run[..|run| - 1], run[|run| - 1];
      var u := Exec(c, s, prefix);
      RecordedSince(c, s, prefix) - (if st.DeleteChange? then {u.flow.left[0]} else {}) + Records(u, st)
  }

  /** Drain in progress: what is recorded is what is left to delete and what was recorded since. */
  ghost predicate DrainRecords(s: State, since: set<Id>, last: bool) {
    && InDrain(s.flow) && s.flow.last == last
    && (s.flow.Deleting? ==> Distinct(s.flow.left))
    && s.changes == (if s.flow.Deleting? then SetOf(s.flow.left) else {}) + since
  }

  lemma DrainRecordsStep(c: Config, s: State, st: Step, since: set<Id>, last: bool)
    requires Enabled(s, st) && !st.EndDrain? && DrainRecords(s, since, last)
    ensures DrainRecords(Apply(c, s, st), since - (if st.DeleteChange? then {s.flow.left[0]} else {}) + Records(s, st), last)
  {
    if st.DeleteChange? {
      SetOfTail(s.flow.left);
      assert s.flow.left[0] !in SetOf(s.flow.left[1..]);
    }
  }

  lemma {:induction false} DrainRecordsAlways(c: Config, s: State, run: seq<Step>, last: bool)
    requires Valid(c, s, run) && DrainRecords(s, {}, last)
    requires forall i :: 0 <= i < |run| ==> !run[i].EndDrain?
    ensures DrainRecords(Exec(c, s, run), RecordedSince(c, s, run), last)
    decreases |run|
  {
    hide Apply, Enabled, DrainRecords, Records;
    if run != [] {
      var prefix := run[..|run| - 1];
      assert forall i :: 0 <= i < |prefix| ==> prefix[i] == run[i];
      DrainRecordsAlways(c, s, prefix, last);
      DrainRecordsStep(c, Exec(c, s, prefix), run[|run| - 1], RecordedSince(c, s, prefix), last);
    }
  }

  /** A drain that was started by a notification, up to its `Clear()`: the flow then waits unnotified,
    and exactly the ids recorded since the SELECT and not deleted again are left without being heard;
    unless there is none, only a writer or trigger that has not broadcast yet wakes the flow for them. */
  lemma ClearWipes(c: Config, s: State, ids: seq<Id>, run: seq<Step>)
    requires Enabled(s, BeginDrain(ids, false)) && Valid(c, Apply(c, s, BeginDrain(ids, false)), run)
    requires forall i :: 0 <= i < |run| ==> !run[i].EndDrain?
    requires Enabled(Exec(c, Apply(c, s, BeginDrain(ids, false)), run), EndDrain(None))
    ensures
      var d := Apply(c, s, BeginDrain(ids, false));
      var t := Apply(c, Exec(c, d, run), EndDrain(None));
      && t.flow.Waiting? && !t.notified && t.changes == RecordedSince(c, d, run)
      && (Heard(t) <==> RecordedSince(c, d, run) == {} || SomebodyNotifying(t))
  {
    hide Valid, Exec;
    DrainRecordsAlways(c, Apply(c, s, BeginDrain(ids, false)), run, false);
  }

  // ----- Reachable failures -----

  const EMPTY_START := State(map[], {}, map[], map[], Seeding([]), false, false)

  ghost predicate Reaches(c: Config, s: State, t: State) {
    exists run :: Valid(c, s, run) && Exec(c, s, run) == t
  }

  lemma ReachesNothing(c: Config, s: State)
    ensures Reaches(c, s, s)
  {
    assert Valid(c, s, []) && Exec(c, s, []) == s;
  }

  lemma ReachesStep(c: Config, s: State, t: State, st: Step)
    requires Reaches(c, s, t) && Enabled(t, st)
    ensures Reaches(c, s, Apply(c, t, st))
  {
    var run :| Valid(c, s, run) && Exec(c, s, run) == t;
    RunExtended(c, s, run, st);
  }

  /** A writer has put a row in the table and the flow has started to drain its id. */
  lemma FirstChangeDrained(c: Config, id: Id, row: Row)
    ensures Reaches(c, EMPTY_START,
      EMPTY_START.(rows := map[id := row], flow := Persisting([id], false), notified := true))
  {
    var s := EMPTY_START;
    ReachesNothing(c, s);
    ReachesStep(c, EMPTY_START, s, SeedDone);
    s := Apply(c, s, SeedDone);
    ReachesStep(c, EMPTY_START, s, ChangeRow(0, id, Some(row)));
    s := Apply(c, s, ChangeRow(0, id, Some(row)));
    ReachesStep(c, EMPTY_START, s, RecordChange(0));
    s := Apply(c, s, RecordChange(0));
    ReachesStep(c, EMPTY_START, s, Notify(0, true));
    s := Apply(c, s, Notify(0, true));
    assert s.changes == {id} && SetOf([id]) == {id};
    ReachesStep(c, EMPTY_START, s, BeginDrain([id], false));
    s := Apply(c, s, BeginDrain([id], false));
    ReachesStep(c, EMPTY_START, s, DeleteChange);
    s := Apply(c, s, DeleteChange);
    ReachesStep(c, EMPTY_START, s, Unlock);
    s := Apply(c, s, Unlock);
    assert s == EMPTY_START.(rows := map[id := row], flow := Persisting([id], false), notified := true);
  }

  /** The notification of a change recorded during a drain can be wiped by `Clear()`: the flow waits
    unnotified while Vault is behind. The change itself is still recorded. */
  lemma ClearDelaysAChange(c: Config, id: Id, row: Row, newer: Row)
    requires !c.readOnly && row != newer
    ensures exists t ::
      && Reaches(c, EMPTY_START, t) && t.flow.Waiting? && !t.notified && t.writers == map[]
      && !Agrees(c, t, id) && id in t.changes
  {
    FirstChangeDrained(c, id, row);
    var s := EMPTY_START.(rows := map[id := row], flow := Persisting([id], false), notified := true);
    ReachesStep(c, EMPTY_START, s, ReadRow(FoundPath));
    s := Apply(c, s, ReadRow(FoundPath));
    ReachesStep(c, EMPTY_START, s, ChangeRow(0, id, Some(newer)));
    s := Apply(c, s, ChangeRow(0, id, Some(newer)));
    ReachesStep(c, EMPTY_START, s, RecordChange(0));
    s := Apply(c, s, RecordChange(0));
    ReachesStep(c, EMPTY_START, s, Notify(0, true));
    s := Apply(c, s, Notify(0, true));
    ReachesStep(c, EMPTY_START, s, WriteVault);
    s := Apply(c, s, WriteVault);
    ReachesStep(c, EMPTY_START, s, EndDrain(None));
    s := Apply(c, s, EndDrain(None));
    assert s.vault[id] == row && s.rows[id] == newer;
  }

  /** Re-injection after an index path failure records the text of nil instead of the id: the row
    never reaches Vault and nothing tracks it any more. */
  lemma ReinjectionLosesTheChange(c: Config, id: Id, row: Row)
    requires id != NIL_ID
    ensures exists t ::
      && Reaches(c, EMPTY_START, t) && t.flow.Waiting? && t.writers == map[]
      && !Agrees(c, t, id) && t.changes == {NIL_ID} && !Tracked(t, id)
  {
    FirstChangeDrained(c, id, row);
    var s := EMPTY_START.(rows := map[id := row], flow := Persisting([id], false), notified := true);
    ReachesStep(c, EMPTY_START, s, ReadRow(PathFailure));
    s := Apply(c, s, ReadRow(PathFailure));
    ReachesStep(c, EMPTY_START, s, EndDrain(None));
    s := Apply(c, s, EndDrain(None));
    assert s.changes == {NIL_ID} && id in s.rows && id !in s.vault;
  }
}
