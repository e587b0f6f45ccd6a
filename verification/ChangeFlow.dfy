/** The flow goroutine as code: the drain loop under `changesLock`, the per-entry persist loop, the
  bootstrap insert loop and the branches of the select loop.

  Other goroutines run at every point where the code performs a query. What they do there is an
  arbitrary list of steps taken from `others`; what the index path callback answers comes from
  `answers`. Each method is proved to be a run of the ChangeCapture state machine. */
module ChangeFlow {
  import opened Common
  import opened ChangeCapture

  lemma MissingStep(c: Config, s: State, path: PathResult, id: Id, rest: seq<Id>, last: bool)
    requires s.flow == Persisting([id] + rest, last) && id !in s.rows
    ensures Enabled(s, ReadRow(path))
    ensures
      var remove := c.syncDelete && !c.readOnly && path.FoundPath?;
      Apply(c, s, ReadRow(path)) == s.(flow := if remove then Removing(id, rest, last) else Persisting(rest, last))
  {
    assert s.flow.batch[0] == id && s.flow.batch[1..] == rest;
  }

  lemma FoundStep(c: Config, s: State, path: PathResult, id: Id, rest: seq<Id>, last: bool)
    requires s.flow == Persisting([id] + rest, last) && id in s.rows
    ensures Enabled(s, ReadRow(path))
    ensures
      var write := path.FoundPath? && !c.readOnly;
      Apply(c, s, ReadRow(path)) == s.(
        flow := if write then Writing(id, s.rows[id], rest, last) else Persisting(rest, last),
        changes := if path.PathFailure? then s.changes + {NIL_ID} else s.changes)
  {
    assert s.flow.batch[0] == id && s.flow.batch[1..] == rest;
  }

  /** The ids that the flow goroutine looks at in a run, in order. */
  ghost function ReadIds(c: Config, s: State, run: seq<Step>): seq<Id>
    requires ChangeCapture.Valid(c, s, run)
    decreases |run|
  {
    if run == [] then []
    else
      var prefix := run[..|run| - 1];
      ReadIds(c, s, prefix) + if run[|run| - 1].ReadRow? then [Exec(c, s, prefix).flow.batch[0]] else []
  }

  /** What the index path callback answers next; it finds a path when nothing else is given. */
  function Answer(answers: seq<PathResult>): PathResult {
    if answers == [] then FoundPath else answers[0]
  }

  function Tail(answers: seq<PathResult>): seq<PathResult> {
    if answers == [] then [] else answers[1..]
  }

  /** The answers that are left when the reads of a run have taken theirs. */
  function AnswersLeft(given: seq<PathResult>, run: seq<Step>): seq<PathResult> {
    if run == [] then given
    else
      var left := AnswersLeft(given, run[..|run| - 1]);
      if run[|run| - 1].ReadRow? then Tail(left) else left
  }

  /** Each read of the run went by the answer that the callback gave it. */
  predicate Answered(given: seq<PathResult>, run: seq<Step>) {
    run == [] || (
      var prefix, st := run[..|run| - 1], run[|run| - 1];
      Answered(given, prefix) && (st.ReadRow? ==> st.path == Answer(AnswersLeft(given, prefix))))
  }

  lemma AnsweredNext(given: seq<PathResult>, was: seq<Step>, st: Step)
    requires Answered(given, was) && (st.ReadRow? ==> st.path == Answer(AnswersLeft(given, was)))
    ensures Answered(given, was + [st])
    ensures AnswersLeft(given, was + [st]) == if st.ReadRow? then Tail(AnswersLeft(given, was)) else AnswersLeft(given, was)
  {
    assert (was + [st])[..|was|] == was;
  }

  predicate AllFound(answers: seq<PathResult>) {
    forall i :: 0 <= i < |answers| ==> answers[i].FoundPath?
  }

  /** A callback that only gives paths has only given paths. */
  lemma {:induction false} AnsweredByPaths(given: seq<PathResult>, run: seq<Step>)
    requires Answered(given, run) && AllFound(given)
    ensures PathsFound(run) && AllFound(AnswersLeft(given, run))
  {
    if run != [] {
      var prefix := run[..|run| - 1];
      AnsweredByPaths(given, prefix);
      assert forall i :: 0 <= i < |prefix| ==> prefix[i] == run[i];
    }
  }

  /** Of the steps that another goroutine has scheduled, those that it can make. */
  ghost function Made(c: Config, s: State, steps: seq<Step>): seq<Step>
    decreases |steps|
  {
    if steps == [] then []
    else if IsWriterStep(steps[0]) && Enabled(s, steps[0]) then [steps[0]] + Made(c, Apply(c, s, steps[0]), steps[1..])
    else Made(c, s, steps[1..])
  }

  class TrcFlow {
    const config: Config
    var rows: map<Id, Row>
    var changes: set<Id>
    var vault: map<Id, Row>
    var writers: map<nat, Writer>
    var notified: bool
    var restart: bool
    var others: seq<seq<Step>>
    var answers: seq<PathResult>

    // Program counter and the run so far, for the proof only.
    ghost var pc: Flow
    ghost var trace: seq<Step>
    ghost const start: State
    ghost const given: seq<PathResult>

    ghost function Abs(): State
      reads this
    {
      State(rows, changes, vault, writers, pc, notified, restart)
    }

    /** The fields are in the state that the machine reaches from a first start by the run so far, whose
      reads have taken exactly the answers that the callback gave. */
    ghost predicate Traced()
      reads this
    {
      && Start(start) && ChangeCapture.Valid(config, start, trace) && Exec(config, start, trace) == Abs()
      && Answered(given, trace) && answers == AnswersLeft(given, trace)
    }

    /** The ids that may stay recorded after a drain: none if the callback only gives paths. */
    ghost function Spare(): set<Id> {
      if AllFound(given) then {} else {NIL_ID}
    }

    /** The ids looked at so far. */
    ghost function Read(): seq<Id>
      reads this
      requires Traced()
    {
      ReadIds(config, start, trace)
    }

    /** Nobody else is scheduled and no writer is between its queries. */
    ghost predicate Alone()
      reads this
    {
      others == [] && NobodyRecording(Abs())
    }

    /** A drain has begun while the flow goroutine is alone. */
    ghost predicate SettlingAlone()
      reads this
    {
      others == [] && Settling(Abs(), Spare())
    }

    /** Only the text of nil may be recorded, and Vault holds what the table holds exactly for the ids
      that the flow has not given up on and the bootstrap had loaded. If the flow may write and the
      callback only gives paths, nothing is recorded and Vault holds every row. */
    ghost predicate VaultAgrees()
      reads this
    {
      && Start(start) && changes <= Spare()
      && (forall id :: id !in changes ==>
           (Agrees(config, Abs(), id) <==> !GivenUp(config, start, trace, id) && !NeverLoaded(config, start, trace, id)))
      && (!config.readOnly && AllFound(given) ==>
           forall id :: id in rows || id in IdsOf(start.flow.todo) || id !in start.vault ==> Agrees(config, Abs(), id))
    }

    lemma SettledVaultAgrees()
      requires Traced() && Settling(Abs(), Spare()) && AtRest(pc)
      ensures VaultAgrees()
    {
      hide GivenUp, NeverLoaded, ChangeCapture.Valid, Exec, Answered, AnswersLeft, Agrees, Lost;
      assert Settling(Abs(), {NIL_ID});
      forall id | id !in changes
        ensures Agrees(config, Abs(), id) <==> !GivenUp(config, start, trace, id) && !NeverLoaded(config, start, trace, id)
      {
        LostExactly(config, start, trace, id);
        SettledAgrees(config, Abs(), id);
      }
      if !config.readOnly && AllFound(given) {
        AnsweredByPaths(given, trace);
        forall id | id in rows || id in IdsOf(start.flow.todo) || id !in start.vault ensures Agrees(config, Abs(), id) {
          NothingGivenUp(config, start, trace, id);
          LoadedOrRow(id);
        }
      }
    }

    lemma LoadedOrRow(id: Id)
      requires Traced() && (id in rows || id in IdsOf(start.flow.todo) || id !in start.vault)
      ensures !NeverLoaded(config, start, trace, id)
    {
      hide ChangeCapture.Valid, Exec, Answered, AnswersLeft, Undisturbed;
      if id in rows && NeverLoaded(config, start, trace, id) { NeverLoadedHasNoRow(config, start, trace, id); }
    }

    constructor (config: Config, vault: map<Id, Row>, loaded: seq<(Id, Row)>, others: seq<seq<Step>>, answers: seq<PathResult>)
      requires Loaded(vault, loaded)
      ensures Traced() && pc == Seeding(loaded)
      ensures this.config == config && this.vault == vault && rows == map[] && changes == {}
      ensures this.others == others && this.answers == answers == given
    {
      this.config := config;
      this.rows, this.changes, this.vault := map[], {}, vault;
      this.writers, this.notified, this.restart := map[], false, false;
      this.others, this.answers := others, answers;
      this.pc := Seeding(loaded);
      this.trace := [];
      this.given := answers;
      this.start := State(map[], {}, vault, map[], Seeding(loaded), false, false);
    }

    /** The fields have just made step `st` from state `before`, which run `was` had reached. */
    lemma Moved(before: State, was: seq<Step>, st: Step)
      requires Start(start) && ChangeCapture.Valid(config, start, was) && Exec(config, start, was) == before
      requires Answered(given, was) && (st.ReadRow? ==> st.path == Answer(AnswersLeft(given, was)))
      requires answers == if st.ReadRow? then Tail(AnswersLeft(given, was)) else AnswersLeft(given, was)
      requires Enabled(before, st) && Apply(config, before, st) == Abs() && trace == was + [st]
      ensures Traced()
      ensures Read() == ReadIds(config, start, was) + if st.ReadRow? then [before.flow.batch[0]] else []
      ensures !st.ChangeRow? && !st.ForceChange? && (Settling(before, Spare()) || (st.BeginDrain? && NobodyRecording(before))) ==>
        Settling(Abs(), Spare())
    {
      RunExtended(config, start, was, st);
      AnsweredNext(given, was, st);
      assert trace[..|was|] == was;
      if !st.ChangeRow? && !st.ForceChange? && (Settling(before, Spare()) || (st.BeginDrain? && NobodyRecording(before))) {
        if AllFound(given) {
          AnsweredByPaths(given, trace);
          assert trace[|was|] == st;
        }
        SettlingStep(config, before, st, Spare());
      }
    }

    /** One step of a writer, a manual trigger or a restart request, if it can be made now. */
    method OtherStep(st: Step)
      requires Traced() && IsWriterStep(st)
      modifies `rows, `changes, `writers, `notified, `restart, `trace
      ensures Traced() && Read() == old(Read())
      ensures Enabled(old(Abs()), st) ==> trace == old(trace) + [st] && Abs() == Apply(config, old(Abs()), st)
      ensures !Enabled(old(Abs()), st) ==> trace == old(trace) && Abs() == old(Abs())
    {
      hide ChangeCapture.Valid, ChangeCapture.Exec, ChangeCapture.Start, ChangeCapture.Settling, ReadIds, Answered, AnswersLeft;
      ghost var before, was := Abs(), trace;
      match st {
        case ChangeRow(w, id, row) =>
          if w in writers { return; }
          rows := if row.Some? then rows[id := row.value] else rows - {id};
          writers := writers[w := Recording(id)];
        case RecordChange(w) =>
          if w !in writers || !writers[w].Recording? { return; }
          changes := changes + {writers[w].id};
          writers := writers[w := Notifying];
        case Notify(w, broadcast) =>
          if w !in writers || !writers[w].Notifying? { return; }
          notified := notified || broadcast;
          writers := writers - {w};
        case ForceChange(w, id) =>
          if w in writers { return; }
          changes := changes + {id};
          writers := writers[w := Notifying];
        case Broadcast =>
          notified := true;
        case RequestRestart =>
          restart := true;
        case _ =>
          assert false;
      }
      trace := trace + [st];
      Moved(before, was, st);
    }

    /** The goroutine is between two queries: the others run. */
    method Yield()
      requires Traced()
      modifies `rows, `changes, `writers, `notified, `restart, `others, `trace
      ensures Traced() && Read() == old(Read())
      ensures old(others) == [] ==> Abs() == old(Abs()) && others == [] && trace == old(trace)
      ensures old(others) != [] ==> others == old(others)[1..] && trace == old(trace) + Made(config, old(Abs()), old(others)[0])
    {
      hide ChangeCapture.Valid, ChangeCapture.Exec, ChangeCapture.Start, ChangeCapture.Settling, ReadIds, Answered, AnswersLeft;
      if others == [] { return; }
      var steps := others[0];
      others := others[1..];
      assert steps[0..] == steps;
      for i := 0 to |steps|
        invariant others == old(others)[1..]
        invariant Traced() && Read() == old(Read())
        invariant trace + Made(config, Abs(), steps[i..]) == old(trace) + Made(config, old(Abs()), steps)
      {
        ghost var before, was := Abs(), trace;
        assert steps[i..][0] == steps[i] && steps[i..][1..] == steps[i + 1..];
        if IsWriterStep(steps[i]) { OtherStep(steps[i]); }
        if IsWriterStep(steps[i]) && Enabled(before, steps[i]) {
          var more := Made(config, Abs(), steps[i + 1..]);
          assert was + [steps[i]] + more == was + ([steps[i]] + more);
        }
      }
      assert steps[|steps|..] == [] && trace + [] == trace;
    }

    method NextAnswer() returns (path: PathResult)
      modifies `answers
      ensures path == Answer(old(answers))
      ensures answers == Tail(old(answers))
    {
      if answers == [] { return FoundPath; }
      path := answers[0];
      answers := answers[1..];
    }

    /** SELECT id FROM _Changes: every recorded id once, in an arbitrary order. */
    method SelectChanges() returns (ids: seq<Id>)
      ensures Distinct(ids) && SetOf(ids) == changes
    {
      ids := [];
      var rest := changes;
      while rest != {}
        invariant Distinct(ids) && SetOf(ids) !! rest && SetOf(ids) + rest == changes
        decreases rest
      {
        var id :| id in rest;
        assert SetOf(ids + [id]) == SetOf(ids) + {id};
        ids, rest := ids + [id], rest - {id};
      }
    }

    /** The SELECT of a drain, under `changesLock`. */
    method BeginDrainQuery(last: bool) returns (ids: seq<Id>)
      requires Traced() && pc.Waiting? && (last || notified)
      modifies `pc, `trace
      ensures Traced() && Read() == old(Read()) && pc == Deleting(ids, ids, last) && SetOf(ids) == changes
      ensures Alone() ==> SettlingAlone()
    {
      hide ChangeCapture.Valid, ChangeCapture.Exec, ChangeCapture.Start, ChangeCapture.Settling, ReadIds, Answered, AnswersLeft;
      ids := SelectChanges();
      ghost var before, was := Abs(), trace;
      pc := Deleting(ids, ids, last);
      trace := trace + [BeginDrain(ids, last)];
      Moved(before, was, BeginDrain(ids, last));
    }

    /** DELETE FROM _Changes WHERE id = ... */
    method DeleteChangeQuery(id: Id, ghost left: seq<Id>, ghost batch: seq<Id>, ghost last: bool)
      requires Traced() && pc == Deleting([id] + left, batch, last)
      modifies `changes, `pc, `trace
      ensures Traced() && Read() == old(Read()) && pc == Deleting(left, batch, last) && changes == old(changes) - {id}
      ensures old(SettlingAlone()) ==> SettlingAlone()
    {
      hide ChangeCapture.Valid, ChangeCapture.Exec, ChangeCapture.Start, ChangeCapture.Settling, ReadIds, Answered, AnswersLeft;
      ghost var before, was := Abs(), trace;
      assert ([id] + left)[1..] == left;
      changes := changes - {id};
      pc := Deleting(left, batch, last);
      trace := trace + [DeleteChange];
      Moved(before, was, DeleteChange);
    }

    /** The end of the drain queries: `changesLock` is released. */
    ghost method Unlocked(matrix: seq<Id>, last: bool)
      requires Traced() && pc == Deleting([], matrix, last)
      modifies `pc, `trace
      ensures Traced() && Read() == old(Read()) && pc == Persisting(matrix, last)
      ensures old(SettlingAlone()) ==> SettlingAlone()
    {
      hide ChangeCapture.Valid, ChangeCapture.Exec, ChangeCapture.Start, ChangeCapture.Settling, ReadIds, Answered, AnswersLeft;
      ghost var before, was := Abs(), trace;
      pc := Persisting(matrix, last);
      trace := trace + [Unlock];
      Moved(before, was, Unlock);
    }

    /** Selects the recorded ids and deletes them one query at a time. */
    method RemoveChangedTableEntries(last: bool) returns (matrix: seq<Id>)
      requires Traced() && pc.Waiting? && (last || notified)
      modifies `rows, `changes, `writers, `notified, `restart, `others, `pc, `trace
      ensures Traced() && Read() == old(Read()) && pc == Persisting(matrix, last) && SetOf(matrix) == old(changes)
      ensures old(Alone()) ==> SettlingAlone() && restart == old(restart)
    {
      hide ChangeCapture.Valid, ChangeCapture.Exec, ChangeCapture.Start, ChangeCapture.Settling, ReadIds, Answered, AnswersLeft;
      matrix := BeginDrainQuery(last);
      ghost var down := SettlingAlone();
      for i := 0 to |matrix|
        invariant Traced() && Read() == old(Read()) && pc == Deleting(matrix[i..], matrix, last)
        invariant down ==> SettlingAlone() && restart == old(restart)
      {
        Yield();
        assert matrix[i..] == [matrix[i]] + matrix[i + 1..];
        DeleteChangeQuery(matrix[i], matrix[i + 1..], matrix, last);
      }
      Unlocked(matrix, last);
    }

    /** What the persist loop does, up to the Vault call, with a drained id that has no row. */
    method EntryMissing(id: Id, ghost rest: seq<Id>, ghost last: bool) returns (remove: bool)
      requires Traced() && pc == Persisting([id] + rest, last) && id !in rows
      modifies `answers, `pc, `trace
      ensures remove <==> config.syncDelete && !config.readOnly && Answer(old(answers)).FoundPath?
      ensures Traced() && Read() == old(Read()) + [id]
      ensures pc == if remove then Removing(id, rest, last) else Persisting(rest, last)
      ensures old(SettlingAlone()) ==> SettlingAlone()
    {
      hide ChangeCapture.Valid, ChangeCapture.Exec, ChangeCapture.Start, ChangeCapture.Settling, ReadIds, Answered, AnswersLeft, ChangeCapture.Apply, ChangeCapture.Enabled;
      ghost var before, was := Abs(), trace;
      var path := NextAnswer();
      MissingStep(config, before, path, id, rest, last);
      remove := config.syncDelete && !config.readOnly && path.FoundPath?;
      pc := if remove then Removing(id, rest, last) else Persisting(rest, last);
      trace := trace + [ReadRow(path)];
      Moved(before, was, ReadRow(path));
    }

    /** What the persist loop does, up to the Vault call, with the row of a drained id. */
    method EntryFound(id: Id, ghost rest: seq<Id>, ghost last: bool) returns (write: Option<Row>)
      requires Traced() && pc == Persisting([id] + rest, last) && id in rows
      modifies `changes, `answers, `pc, `trace
      ensures write == if !config.readOnly && Answer(old(answers)).FoundPath? then Some(rows[id]) else None
      ensures changes == if Answer(old(answers)).PathFailure? then old(changes) + {NIL_ID} else old(changes)
      ensures Traced() && Read() == old(Read()) + [id]
      ensures pc == if write.Some? then Writing(id, rows[id], rest, last) else Persisting(rest, last)
      ensures old(SettlingAlone()) ==> SettlingAlone()
    {
      hide ChangeCapture.Valid, ChangeCapture.Exec, ChangeCapture.Start, ChangeCapture.Settling, ReadIds, Answered, AnswersLeft, ChangeCapture.Apply, ChangeCapture.Enabled;
      ghost var before, was := Abs(), trace;
      var path := NextAnswer();
      FoundStep(config, before, path, id, rest, last);
      write := if path.FoundPath? && !config.readOnly then Some(rows[id]) else None;
      if path.PathFailure? { changes := changes + {NIL_ID}; }
      pc := if write.Some? then Writing(id, rows[id], rest, last) else Persisting(rest, last);
      trace := trace + [ReadRow(path)];
      Moved(before, was, ReadRow(path));
    }

    /** `SeedVaultById` or `SoftDelete` for the entry that was read. */
    method ChangeVault(id: Id, row: Option<Row>, ghost rest: seq<Id>, ghost last: bool)
      requires Traced()
      requires pc == if row.Some? then Writing(id, row.value, rest, last) else Removing(id, rest, last)
      modifies `vault, `pc, `trace
      ensures Traced() && Read() == old(Read()) && pc == Persisting(rest, last)
      ensures vault == if row.Some? then old(vault)[id := row.value] else old(vault) - {id}
      ensures old(SettlingAlone()) ==> SettlingAlone()
    {
      hide ChangeCapture.Valid, ChangeCapture.Exec, ChangeCapture.Start, ChangeCapture.Settling, ReadIds, Answered, AnswersLeft;
      ghost var before, was := Abs(), trace;
      vault := if row.Some? then vault[id := row.value] else vault - {id};
      pc := Persisting(rest, last);
      trace := trace + [if row.Some? then WriteVault else SoftDelete];
      Moved(before, was, if row.Some? then WriteVault else SoftDelete);
    }

    /** Re-reads one drained entry and brings Vault up to it. */
    method PersistEntry(id: Id, ghost rest: seq<Id>, ghost last: bool)
      requires Traced() && pc == Persisting([id] + rest, last)
      modifies this
      ensures Traced() && Read() == old(Read()) + [id] && pc == Persisting(rest, last)
      ensures old(SettlingAlone()) ==> SettlingAlone() && restart == old(restart)
    {
      hide ChangeCapture.Valid, ChangeCapture.Exec, ChangeCapture.Start, ChangeCapture.Settling, ReadIds, Answered, AnswersLeft;
      Yield();
      if id in rows {
        var write := EntryFound(id, rest, last);
        if write.Some? {
          Yield();
          ChangeVault(id, write, rest, last);
        }
      } else {
        var remove := EntryMissing(id, rest, last);
        if remove {
          Yield();
          ChangeVault(id, None, rest, last);
        }
      }
    }

    /** Every id that was recorded at the SELECT is looked at, and no other. */
    method VaultPersistPushRemoteChanges(last: bool) returns (matrix: seq<Id>)
      requires Traced() && pc.Waiting? && (last || notified)
      modifies this
      ensures Traced() && pc == Persisting([], last)
      ensures Read() == old(Read()) + matrix && SetOf(matrix) == old(changes)
      ensures old(Alone()) ==> SettlingAlone() && restart == old(restart)
    {
      hide ChangeCapture.Valid, ChangeCapture.Exec, ChangeCapture.Start, ChangeCapture.Settling, ReadIds, Answered, AnswersLeft;
      matrix := RemoveChangedTableEntries(last);
      for i := 0 to |matrix|
        invariant Traced() && pc == Persisting(matrix[i..], last)
        invariant Read() == old(Read()) + matrix[..i]
        invariant old(Alone()) ==> SettlingAlone() && restart == old(restart)
      {
        assert matrix[i..] == [matrix[i]] + matrix[i + 1..];
        PersistEntry(matrix[i], matrix[i + 1..], last);
        assert matrix[..i + 1] == matrix[..i] + [matrix[i]];
      }
      assert matrix[..|matrix|] == matrix;
    }

    /** The branch of the select loop for a notification: persist, then clear the channel. */
    method OnNotification()
      requires Traced() && pc.Waiting? && notified
      modifies this
      ensures Traced() && pc == Waiting && !notified
      ensures old(Alone()) ==> VaultAgrees()
    {
      hide ChangeCapture.Valid, ChangeCapture.Exec, ChangeCapture.Start, ChangeCapture.Settling, ReadIds, Answered, AnswersLeft;
      var _ := VaultPersistPushRemoteChanges(false);
      ghost var before, was := Abs(), trace;
      notified, pc := false, Waiting;
      trace := trace + [EndDrain(None)];
      Moved(before, was, EndDrain(None));
      if SettlingAlone() { SettledVaultAgrees(); }
    }

    /** Reads the Vault entries below the index; an entry outside `readable` fails to load. */
    method LoadRows(readable: set<Id>) returns (loaded: seq<(Id, Row)>)
      ensures Loaded(vault, loaded)
      ensures forall id :: id in vault && id in readable <==> exists e :: e in loaded && e.0 == id
    {
      loaded := [];
      var rest := vault.Keys * readable;
      while rest != {}
        invariant Loaded(vault, loaded) && rest <= vault.Keys * readable
        invariant forall id :: id in vault && id in readable <==> id in rest || exists e :: e in loaded && e.0 == id
        decreases rest
      {
        var id :| id in rest;
        ghost var was := loaded;
        loaded, rest := loaded + [(id, vault[id])], rest - {id};
        assert forall e :: e in loaded <==> e in was || e == (id, vault[id]);
        assert (id, vault[id]) in loaded;
      }
    }

    /** The shutdown branch: a last persist, then a relaunch if one was asked for. The relaunched
      cycle either still sees `Restart` and keeps the table, or sees it cleared and loads Vault. */
    method OnDone(sawRestart: bool, readable: set<Id>) returns (relaunched: bool)
      requires Traced() && pc.Waiting?
      modifies this
      ensures Traced() && pc == if relaunched then Waiting else Stopped
      ensures old(Alone()) ==> relaunched == old(restart) && !restart && VaultAgrees()
    {
      hide ChangeCapture.Valid, ChangeCapture.Exec, ChangeCapture.Start, ChangeCapture.Settling, ReadIds, Answered, AnswersLeft;
      var _ := VaultPersistPushRemoteChanges(true);
      ghost var before, was := Abs(), trace;
      relaunched := restart;
      if !relaunched {
        pc := Stopped;
        trace := trace + [EndDrain(None)];
        Moved(before, was, EndDrain(None));
      } else if sawRestart {
        restart, pc := false, Waiting;
        trace := trace + [EndDrain(None)];
        Moved(before, was, EndDrain(None));
      } else {
        var loaded := LoadRows(readable);
        restart, pc := false, Seeding(loaded);
        trace := trace + [EndDrain(Some(loaded))];
        Moved(before, was, EndDrain(Some(loaded)));
        SeedTrcDbFromVault(loaded);
      }
      if SettlingAlone() { SettledVaultAgrees(); }
    }

    /** Inserts one row read from Vault; an existing key makes the insert fail and changes nothing. */
    method InsertRow(id: Id, row: Row, ghost rest: seq<(Id, Row)>)
      requires Traced() && pc == Seeding([(id, row)] + rest)
      modifies `rows, `pc, `trace
      ensures Traced() && Read() == old(Read()) && pc == Seeding(rest)
      ensures rows == if id in old(rows) then old(rows) else old(rows)[id := row]
      ensures old(SettlingAlone()) ==> SettlingAlone()
    {
      hide ChangeCapture.Valid, ChangeCapture.Exec, ChangeCapture.Start, ChangeCapture.Settling, ReadIds, Answered, AnswersLeft;
      ghost var before, was := Abs(), trace;
      assert ([(id, row)] + rest)[1..] == rest;
      if id !in rows { rows := rows[id := row]; }
      pc := Seeding(rest);
      trace := trace + [SeedInsert];
      Moved(before, was, SeedInsert);
    }

    /** Fills the table with the rows that were read from Vault. */
    method SeedTrcDbFromVault(loaded: seq<(Id, Row)>)
      requires Traced() && pc == Seeding(loaded)
      modifies `rows, `changes, `writers, `notified, `restart, `others, `pc, `trace
      ensures Traced() && pc == Waiting
      ensures old(SettlingAlone()) ==> SettlingAlone() && restart == old(restart)
      ensures old(others) == [] ==> forall e :: e in loaded ==> e.0 in rows
    {
      hide ChangeCapture.Valid, ChangeCapture.Exec, ChangeCapture.Start, ChangeCapture.Settling, ReadIds, Answered, AnswersLeft;
      ghost var alone := others == [];
      for i := 0 to |loaded|
        invariant Traced() && pc == Seeding(loaded[i..])
        invariant old(SettlingAlone()) ==> SettlingAlone() && restart == old(restart)
        invariant alone ==> others == [] && forall j :: 0 <= j < i ==> loaded[j].0 in rows
      {
        Yield();
        assert loaded[i..] == [loaded[i]] + loaded[i + 1..];
        InsertRow(loaded[i].0, loaded[i].1, loaded[i + 1..]);
      }
      ghost var before, was := Abs(), trace;
      pc := Waiting;
      trace := trace + [SeedDone];
      Moved(before, was, SeedDone);
    }
  }
}
