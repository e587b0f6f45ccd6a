/** The cache of Vault modifiers: one pool per env and address, each a channel of capacity 20 and a
  separate counter. Checkout, release and clean change channel and counter in separate steps, so
  any number of goroutines interleave between them. */
module ModifierPool {
  type Key = string
  type ModId = nat

  const CAPACITY: nat := 20
  const LIMIT: nat := 10
  const TWO_64: nat := 0x1_0000_0000_0000_0000

  datatype Pool = Pool(count: nat, queue: seq<ModId>)

  /** What a goroutine goes on with when the clean it started is over. */
  datatype Then = ToCheckout | ToRelease(m: ModId) | ToCaller

  /** Where a goroutine is. */
  datatype Pc =
    | Ready
    | Wanting(key: Key)                                          // before checkInitModCache
    | InstallForCheckout(key: Key)                               // it saw no pool
    | Receiving(key: Key)
    | Decrementing(key: Key, m: ModId)                           // received, not yet counted down
    | Returning(key: Key, m: ModId)                              // before checkInitModCache
    | InstallForRelease(key: Key, m: ModId)                      // it saw no pool
    | Checking(key: Key, m: ModId)                               // before modCount > 10
    | WaitClean(key: Key, limit: nat, next: Then)                // before modifierCachLock
    | Cleaning(key: Key, i: nat, limit: nat, next: Then)         // holds the lock, at the loop head
    | CleanDecrementing(key: Key, i: nat, limit: nat, next: Then)
    | Counting(key: Key, m: ModId)                               // before modCount + 1
    | Sending(key: Key, m: ModId)                                // counted, not yet sent

  /** A goroutine and the modifiers it has checked out. */
  datatype Thread = Thread(owned: set<ModId>, pc: Pc)

  datatype State = State(pools: map<Key, Pool>, threads: seq<Thread>, locked: bool, made: nat)

  datatype Action =
    | StartCheckout(key: Key)
    | StartRelease(m: ModId, key: Key)
    | DropStale(m: ModId)
    | StartRemove(key: Key)
    | EnterClean
    | CleanReceive
    | CleanDecrement
    | CleanExit
    | CheckInit
    | Install
    | Receive
    | Timeout
    | Decrement
    | Check
    | Count
    | Send

  /** A step: which goroutine does what. */
  datatype Step = Step(t: nat, act: Action)

  /** `atomic.AddUint64`: addition wraps around. */
  function AddUint64(x: nat, delta: nat): nat {
    (x + delta) % TWO_64
  }

  /** `^uint64(0)`, with which the code counts down. */
  const MINUS_ONE: nat := TWO_64 - 1

  // ----- Transitions -----

  function PcOf(s: State, t: nat): Pc {
    if t < |s.threads| then s.threads[t].pc else Ready
  }

  predicate HasPool(s: State, pc: Pc) {
    !pc.Ready? && pc.key in s.pools
  }

  predicate Enabled(s: State, st: Step) {
    var pc := PcOf(s, st.t);
    && st.t < |s.threads|
    && match st.act
       case StartCheckout(_) => pc.Ready?
       case StartRelease(m, _) => pc.Ready? && m in s.threads[st.t].owned
       case DropStale(m) => pc.Ready? && m in s.threads[st.t].owned
       case StartRemove(key) => pc.Ready? && key in s.pools
       case EnterClean => pc.WaitClean? && HasPool(s, pc) && !s.locked
       case CleanReceive => pc.Cleaning? && HasPool(s, pc) && pc.i < pc.limit && s.pools[pc.key].queue != []
       case CleanDecrement => pc.CleanDecrementing? && HasPool(s, pc)
       case CleanExit => pc.Cleaning? && HasPool(s, pc) && (pc.i >= pc.limit || s.pools[pc.key].queue == [])
       case CheckInit => pc.Wanting? || pc.Returning?
       case Install => (pc.InstallForCheckout? || pc.InstallForRelease?) && !s.locked
       case Receive => pc.Receiving? && HasPool(s, pc) && s.pools[pc.key].queue != []
       case Timeout => pc.Receiving?
       case Decrement => pc.Decrementing? && HasPool(s, pc)
       case Check => pc.Checking? && HasPool(s, pc)
       case Count => pc.Counting? && HasPool(s, pc)
       case Send => pc.Sending? && HasPool(s, pc) && |s.pools[pc.key].queue| < CAPACITY
  }

  function Continue(key: Key, next: Then): Pc {
    match next
    case ToCheckout => Wanting(key)
    case ToRelease(m) => Counting(key, m)
    case ToCaller => Ready
  }

  function WithPc(s: State, t: nat, pc: Pc): State
    requires t < |s.threads|
  {
    s.(threads := s.threads[t := s.threads[t].(pc := pc)])
  }

  function WithPool(s: State, key: Key, count: nat, queue: seq<ModId>): State {
    s.(pools := s.pools[key := Pool(count, queue)])
  }

  function Apply(s: State, st: Step): State
    requires Enabled(s, st)
  {
    var t, pc, owned := st.t, PcOf(s, st.t), s.threads[st.t].owned;
    match st.act
    case StartCheckout(key) =>
      WithPc(s, t, if key in s.pools && s.pools[key].count > LIMIT then WaitClean(key, LIMIT, ToCheckout) else Wanting(key))
    case StartRelease(m, key) => s.(threads := s.threads[t := Thread(owned - {m}, Returning(key, m))])
    case DropStale(m) => s.(threads := s.threads[t := Thread(owned - {m}, Ready)])
    case StartRemove(key) => WithPc(s, t, WaitClean(key, CAPACITY, ToCaller))
    case EnterClean =>
      if s.pools[pc.key].count > 1 then WithPc(s, t, Cleaning(pc.key, 0, pc.limit, pc.next)).(locked := true)
      else WithPc(s, t, Continue(pc.key, pc.next))
    case CleanReceive =>
      var pool := s.pools[pc.key];
      WithPool(WithPc(s, t, CleanDecrementing(pc.key, pc.i, pc.limit, pc.next)), pc.key, pool.count, pool.queue[1..])
    case CleanDecrement =>
      var pool := s.pools[pc.key];
      WithPool(WithPc(s, t, Cleaning(pc.key, pc.i + 1, pc.limit, pc.next)), pc.key, AddUint64(pool.count, MINUS_ONE), pool.queue)
    case CleanExit => WithPc(s, t, Continue(pc.key, pc.next)).(locked := false)
    case CheckInit =>
      if pc.Wanting? then WithPc(s, t, if pc.key in s.pools then Receiving(pc.key) else InstallForCheckout(pc.key))
      else WithPc(s, t, if pc.key in s.pools then Checking(pc.key, pc.m) else InstallForRelease(pc.key, pc.m))
    case Install =>
      var next := if pc.InstallForCheckout? then Receiving(pc.key) else Checking(pc.key, pc.m);
      WithPool(WithPc(s, t, next), pc.key, 0, [])
    case Receive =>
      var pool := s.pools[pc.key];
      WithPool(WithPc(s, t, Decrementing(pc.key, pool.queue[0])), pc.key, pool.count, pool.queue[1..])
    case Timeout => s.(threads := s.threads[t := Thread(owned + {s.made}, Ready)], made := s.made + 1)
    case Decrement =>
      var pool := s.pools[pc.key];
      WithPool(s.(threads := s.threads[t := Thread(owned + {pc.m}, Ready)]), pc.key, AddUint64(pool.count, MINUS_ONE), pool.queue)
    case Check =>
      WithPc(s, t, if s.pools[pc.key].count > LIMIT then WaitClean(pc.key, LIMIT, ToRelease(pc.m)) else Counting(pc.key, pc.m))
    case Count =>
      var pool := s.pools[pc.key];
      WithPool(WithPc(s, t, Sending(pc.key, pc.m)), pc.key, AddUint64(pool.count, 1), pool.queue)
    case Send =>
      var pool := s.pools[pc.key];
      WithPool(WithPc(s, t, Ready), pc.key, pool.count, pool.queue + [pc.m])
  }

  ghost predicate Valid(s: State, run: seq<Step>)
    decreases |run|, 0
  {
    run == [] || (Valid(s, run[..|run| - 1]) && Enabled(Exec(s, run[..|run| - 1]), run[|run| - 1]))
  }

  ghost function Exec(s: State, run: seq<Step>): State
    requires Valid(s, run)
    decreases |run|, 1
  {
    if run == [] then s else Apply(Exec(s, run[..|run| - 1]), run[|run| - 1])
  }

  /** No pool yet, and nobody holds a modifier. */
  predicate Start(s: State) {
    s.pools == map[] && !s.locked && forall t :: 0 <= t < |s.threads| ==> s.threads[t] == Thread({}, Ready)
  }

  // ----- Counting goroutines by what they owe -----

  datatype Role = Owing | Uncounted | Committed | Trimmed | InRelease

  /** Owing: the channel has changed and the counter not yet, or the other way round. Uncounted and
    Committed: a release behind its check. Trimmed: a release whose clean has removed something. */
  predicate Plays(pc: Pc, key: Key, role: Role) {
    && !pc.Ready? && pc.key == key
    && match role
       case Owing => pc.Sending? || pc.Decrementing? || pc.CleanDecrementing?
       case Uncounted => pc.Counting?
       case Committed => pc.Counting? || pc.Sending?
       case Trimmed => (pc.Cleaning? && pc.i > 0 && pc.next.ToRelease?) || (pc.CleanDecrementing? && pc.next.ToRelease?)
       case InRelease =>
         || pc.Returning? || pc.InstallForRelease? || pc.Checking? || pc.Counting? || pc.Sending?
         || ((pc.WaitClean? || pc.Cleaning? || pc.CleanDecrementing?) && pc.next.ToRelease?)
  }

  function Bit(b: bool): nat {
    if b then 1 else 0
  }

  function Number(ts: seq<Thread>, key: Key, role: Role): nat {
    if ts == [] then 0 else Bit(Plays(ts[0].pc, key, role)) + Number(ts[1..], key, role)
  }

  lemma {:induction false} NumberUpdated(ts: seq<Thread>, t: nat, th: Thread, key: Key, role: Role)
    requires t < |ts|
    ensures
      Number(ts[t := th], key, role) + Bit(Plays(ts[t].pc, key, role))
      == Number(ts, key, role) + Bit(Plays(th.pc, key, role))
  {
    hide Plays;
    if t > 0 {
      NumberUpdated(ts[1..], t - 1, th, key, role);
      assert ts[t := th][1..] == ts[1..][t - 1 := th];
    } else {
      assert ts[t := th][1..] == ts[1..];
    }
  }

  lemma {:induction false} NumberBound(ts: seq<Thread>, key: Key, role: Role)
    ensures Number(ts, key, role) <= |ts|
  {
    if ts != [] { NumberBound(ts[1..], key, role); }
  }

  /** Releases behind their check and releases that are cleaning are different releases. */
  lemma {:induction false} RolesAreApart(ts: seq<Thread>, key: Key)
    ensures Number(ts, key, Committed) + Number(ts, key, Trimmed) <= Number(ts, key, InRelease)
    ensures Number(ts, key, Committed) <= Number(ts, key, Owing) + Number(ts, key, Uncounted)
    ensures Number(ts, key, Uncounted) <= Number(ts, key, Committed)
  {
    if ts != [] { RolesAreApart(ts[1..], key); }
  }

  lemma {:induction false} NobodyPlays(ts: seq<Thread>, key: Key, role: Role)
    requires forall t :: 0 <= t < |ts| ==> !Plays(ts[t].pc, key, role)
    ensures Number(ts, key, role) == 0
  {
    if ts != [] { NobodyPlays(ts[1..], key, role); }
  }

  lemma {:induction false} PlayerCounts(ts: seq<Thread>, t: nat, key: Key, role: Role)
    requires t < |ts| && Plays(ts[t].pc, key, role)
    ensures Number(ts, key, role) >= 1
  {
    if t > 0 { PlayerCounts(ts[1..], t - 1, key, role); }
  }

  // ----- The counter is exact -----

  ghost predicate NeedsPool(pc: Pc) {
    !(pc.Ready? || pc.Wanting? || pc.Returning? || pc.InstallForCheckout? || pc.InstallForRelease?)
  }

  /** Goroutines beyond checkInitModCache have a pool, and channels keep to their capacity. */
  ghost predicate WellFormed(s: State) {
    && |s.threads| + CAPACITY < TWO_64
    && (forall t :: 0 <= t < |s.threads| && NeedsPool(s.threads[t].pc) ==> s.threads[t].pc.key in s.pools)
    && (forall key :: key in s.pools ==> |s.pools[key].queue| <= CAPACITY)
  }

  /** The counter is the length of the channel plus the releases that are counted and not yet sent
    plus the receives that are not yet counted down. */
  ghost predicate Exact(s: State, key: Key) {
    var owed := Number(s.threads, key, Owing);
    if key in s.pools then s.pools[key].count == |s.pools[key].queue| + owed else owed == 0
  }

  /** An install that replaces no pool with pending work: in particular any install of a first pool. */
  ghost predicate InstallsQuietly(s: State, st: Step) {
    st.act.Install? && !PcOf(s, st.t).Ready? ==> Number(s.threads, PcOf(s, st.t).key, Owing) == 0
  }

  lemma OneThreadMoves(s: State, st: Step)
    requires Enabled(s, st)
    ensures |Apply(s, st).threads| == |s.threads|
    ensures Apply(s, st).threads == s.threads[st.t := Apply(s, st).threads[st.t]]
  {
  }

  lemma PoolsKept(s: State, st: Step, key: Key)
    requires Enabled(s, st) && key in s.pools && |s.pools[key].queue| <= CAPACITY
    ensures key in Apply(s, st).pools && |Apply(s, st).pools[key].queue| <= CAPACITY
  {
  }

  lemma NewPools(s: State, st: Step, key: Key)
    requires Enabled(s, st) && key !in s.pools && key in Apply(s, st).pools
    ensures Apply(s, st).pools[key].queue == []
  {
  }

  lemma MoverHasPool(s: State, st: Step)
    requires Enabled(s, st) && (NeedsPool(PcOf(s, st.t)) ==> HasPool(s, PcOf(s, st.t)))
    ensures NeedsPool(PcOf(Apply(s, st), st.t)) ==> HasPool(Apply(s, st), PcOf(Apply(s, st), st.t))
  {
  }

  lemma WellFormedKept(s: State, st: Step)
    requires Enabled(s, st) && WellFormed(s)
    ensures WellFormed(Apply(s, st))
  {
    OneThreadMoves(s, st);
    MoverHasPool(s, st);
    var s' := Apply(s, st);
    forall key | key in s.pools ensures key in s'.pools && |s'.pools[key].queue| <= CAPACITY { PoolsKept(s, st, key); }
    forall key | key in s'.pools ensures |s'.pools[key].queue| <= CAPACITY {
      if key !in s.pools { NewPools(s, st, key); }
    }
    hide Apply, Enabled;
  }

  lemma CountsDown(x: nat)
    requires 0 < x < TWO_64
    ensures AddUint64(x, MINUS_ONE) == x - 1
  {
  }

  lemma ExactCountDown(s: State, st: Step, key: Key)
    requires Enabled(s, st) && WellFormed(s) && Exact(s, key) && (st.act.Decrement? || st.act.CleanDecrement?)
    ensures Exact(Apply(s, st), key)
  {
    var th := Apply(s, st).threads[st.t];
    NumberUpdated(s.threads, st.t, th, key, Owing);
    NumberBound(s.threads, key, Owing);
    if PcOf(s, st.t).key == key {
      PlayerCounts(s.threads, st.t, key, Owing);
      CountsDown(s.pools[key].count);
    }
  }

  lemma ExactCountUp(s: State, st: Step, key: Key)
    requires Enabled(s, st) && WellFormed(s) && Exact(s, key) && st.act.Count?
    ensures Exact(Apply(s, st), key)
  {
    var th := Apply(s, st).threads[st.t];
    NumberUpdated(s.threads, st.t, th, key, Owing);
    NumberBound(s.threads[st.t := th], key, Owing);
    var pool := s.pools[PcOf(s, st.t).key];
    assert PcOf(s, st.t).key == key ==> AddUint64(pool.count, 1) == pool.count + 1;
  }

  lemma ExactChannel(s: State, st: Step, key: Key)
    requires Enabled(s, st) && Exact(s, key) && (st.act.Receive? || st.act.CleanReceive? || st.act.Send?)
    ensures Exact(Apply(s, st), key)
  {
    NumberUpdated(s.threads, st.t, Apply(s, st).threads[st.t], key, Owing);
  }

  lemma ExactInstall(s: State, st: Step, key: Key)
    requires Enabled(s, st) && Exact(s, key) && st.act.Install? && InstallsQuietly(s, st)
    ensures Exact(Apply(s, st), key)
  {
    NumberUpdated(s.threads, st.t, Apply(s, st).threads[st.t], key, Owing);
  }

  /** The steps that touch no pool. */
  lemma PoolsUntouched(s: State, st: Step, key: Key)
    requires Enabled(s, st) && WellFormed(s)
    requires !st.act.Receive? && !st.act.CleanReceive? && !st.act.Send? && !st.act.Install?
    requires !st.act.Decrement? && !st.act.CleanDecrement? && !st.act.Count?
    ensures Apply(s, st).pools == s.pools
    ensures Plays(Apply(s, st).threads[st.t].pc, key, Owing) == Plays(PcOf(s, st.t), key, Owing) == false
  {
  }

  lemma ExactKept(s: State, st: Step, key: Key)
    requires Enabled(s, st) && WellFormed(s) && Exact(s, key) && InstallsQuietly(s, st)
    ensures Exact(Apply(s, st), key)
  {
    hide WellFormed, Exact, Apply, Enabled, InstallsQuietly;
    match st.act
    case Decrement => ExactCountDown(s, st, key);
    case CleanDecrement => ExactCountDown(s, st, key);
    case Count => ExactCountUp(s, st, key);
    case Receive => ExactChannel(s, st, key);
    case CleanReceive => ExactChannel(s, st, key);
    case Send => ExactChannel(s, st, key);
    case Install => ExactInstall(s, st, key);
    case _ => ExactElsewhere(s, st, key);
  }

  lemma ExactElsewhere(s: State, st: Step, key: Key)
    requires Enabled(s, st) && WellFormed(s) && Exact(s, key)
    requires !st.act.Receive? && !st.act.CleanReceive? && !st.act.Send? && !st.act.Install?
    requires !st.act.Decrement? && !st.act.CleanDecrement? && !st.act.Count?
    ensures Exact(Apply(s, st), key)
  {
    PoolsUntouched(s, st, key);
    OneThreadMoves(s, st);
    hide Apply, Enabled, Plays;
    NumberUpdated(s.threads, st.t, Apply(s, st).threads[st.t], key, Owing);
  }

  /** Exactness at an install, both ways. */
  lemma InstallExactness(s: State, st: Step)
    requires Enabled(s, st) && st.act.Install?
    ensures Exact(Apply(s, st), PcOf(s, st.t).key) <==> InstallsQuietly(s, st)
  {
    OneThreadMoves(s, st);
    NumberUpdated(s.threads, st.t, Apply(s, st).threads[st.t], PcOf(s, st.t).key, Owing);
  }

  /** Every install of the run finds no pending work on the pool it replaces. */
  ghost predicate QuietRun(s: State, run: seq<Step>)
    requires Valid(s, run)
    decreases |run|
  {
    run == [] || (
      var prefix := run[..|run| - 1];
      Valid(s, prefix) && QuietRun(s, prefix) && InstallsQuietly(Exec(s, prefix), run[|run| - 1]))
  }

  lemma LastStep(s: State, run: seq<Step>)
    requires Valid(s, run)
    ensures run == [] ==> Exec(s, run) == s
    ensures run != [] ==>
      var prefix, st := run[..|run| - 1], run[|run| - 1];
      Valid(s, prefix) && Enabled(Exec(s, prefix), st) && Exec(s, run) == Apply(Exec(s, prefix), st)
  {
    hide Apply, Enabled;
    assert true;
  }

  lemma {:induction false} WellFormedAlways(s: State, run: seq<Step>)
    requires Start(s) && |s.threads| + CAPACITY < TWO_64 && Valid(s, run)
    ensures WellFormed(Exec(s, run)) && |Exec(s, run).threads| == |s.threads|
    decreases |run|
  {
    hide Apply, Enabled, Valid, Exec;
    LastStep(s, run);
    if run != [] {
      var prefix := run[..|run| - 1];
      WellFormedAlways(s, prefix);
      WellFormedKept(Exec(s, prefix), run[|run| - 1]);
      OneThreadMoves(Exec(s, prefix), run[|run| - 1]);
    }
  }

  lemma {:induction false} QuietIsExact(s: State, run: seq<Step>, key: Key)
    requires Start(s) && |s.threads| + CAPACITY < TWO_64 && Valid(s, run) && QuietRun(s, run)
    ensures Exact(Exec(s, run), key)
    decreases |run|
  {
    hide Apply, Enabled, Valid, Exec, WellFormed;
    LastStep(s, run);
    if run == [] {
      NobodyPlays(s.threads, key, Owing);
    } else {
      var prefix := run[..|run| - 1];
      QuietIsExact(s, prefix, key);
      WellFormedAlways(s, prefix);
      ExactKept(Exec(s, prefix), run[|run| - 1], key);
    }
  }

  // ----- First uses that do not meet -----

  /** Between the look for a pool and its install. */
  predicate Installing(pc: Pc) {
    pc.InstallForCheckout? || pc.InstallForRelease?
  }

  /** Every install of the run still finds no pool. */
  ghost predicate InstallsFirst(s: State, run: seq<Step>)
    requires Valid(s, run)
    decreases |run|
  {
    run == [] || (
      var prefix, st := run[..|run| - 1], run[|run| - 1];
      && Valid(s, prefix) && InstallsFirst(s, prefix)
      && (st.act.Install? ==> !HasPool(Exec(s, prefix), PcOf(Exec(s, prefix), st.t))))
  }

  /** No two goroutines are about to install a pool for the same key. */
  predicate InstallersApart(s: State) {
    forall t, u :: 0 <= t < u < |s.threads| && Installing(s.threads[t].pc) && Installing(s.threads[u].pc) ==>
      s.threads[t].pc.key != s.threads[u].pc.key
  }

  /** That holds at every moment of the run. */
  ghost predicate AlwaysApart(s: State, run: seq<Step>)
    requires Valid(s, run)
    decreases |run|
  {
    && InstallersApart(Exec(s, run))
    && (run == [] || (Valid(s, run[..|run| - 1]) && AlwaysApart(s, run[..|run| - 1])))
  }

  /** Whoever is about to install a pool still finds none. */
  predicate InstallersFresh(s: State) {
    forall t :: 0 <= t < |s.threads| && Installing(s.threads[t].pc) ==> s.threads[t].pc.key !in s.pools
  }

  lemma InstallersFreshKept(s: State, st: Step)
    requires Enabled(s, st) && InstallersFresh(s) && InstallersApart(s)
    ensures InstallersFresh(Apply(s, st))
  {
    OneThreadMoves(s, st);
    var s' := Apply(s, st);
    assert forall key :: key in s'.pools ==> key in s.pools || (st.act.Install? && key == PcOf(s, st.t).key);
    assert Installing(s'.threads[st.t].pc) ==> s'.threads[st.t].pc.key !in s'.pools;
  }

  lemma {:induction false} ApartIsFresh(s: State, run: seq<Step>)
    requires Start(s) && Valid(s, run) && AlwaysApart(s, run)
    ensures InstallersFresh(Exec(s, run)) && InstallsFirst(s, run)
    decreases |run|
  {
    hide Apply, Enabled, InstallersFresh, InstallersApart;
    if run == [] {
      assert InstallersFresh(s) by { StartFresh(s); }
    } else {
      var prefix, st := run[..|run| - 1], run[|run| - 1];
      ApartIsFresh(s, prefix);
      InstallersFreshKept(Exec(s, prefix), st);
      InstallerFindsNone(Exec(s, prefix), st);
    }
  }

  lemma StartFresh(s: State)
    requires Start(s)
    ensures InstallersFresh(s)
  {
  }

  lemma InstallerFindsNone(s: State, st: Step)
    requires Enabled(s, st) && InstallersFresh(s)
    ensures st.act.Install? ==> !HasPool(s, PcOf(s, st.t))
  {
  }

  lemma {:induction false} FirstIsQuiet(s: State, run: seq<Step>)
    requires Start(s) && |s.threads| + CAPACITY < TWO_64 && Valid(s, run) && InstallsFirst(s, run)
    ensures QuietRun(s, run)
    decreases |run|
  {
    hide Apply, Enabled;
    if run != [] {
      var prefix, st := run[..|run| - 1], run[|run| - 1];
      FirstIsQuiet(s, prefix);
      var pc := PcOf(Exec(s, prefix), st.t);
      if st.act.Install? && !pc.Ready? { QuietIsExact(s, prefix, pc.key); }
    }
  }

  /** In every interleaving in which installs find no pool, each pool's counter is exact. */
  lemma CounterIsExact(s: State, run: seq<Step>, key: Key)
    requires Start(s) && |s.threads| + CAPACITY < TWO_64 && Valid(s, run) && InstallsFirst(s, run)
    ensures Exact(Exec(s, run), key)
  {
    hide Exec, Valid, Exact;
    FirstIsQuiet(s, run);
    QuietIsExact(s, run, key);
  }

  /** In particular if no two goroutines are ever about to install a pool for the same key. */
  lemma FirstUsesApart(s: State, run: seq<Step>, key: Key)
    requires Start(s) && |s.threads| + CAPACITY < TWO_64 && Valid(s, run) && AlwaysApart(s, run)
    ensures Exact(Exec(s, run), key) && InstallsFirst(s, run)
  {
    hide Exec, Valid, Exact, AlwaysApart;
    ApartIsFresh(s, run);
    CounterIsExact(s, run, key);
  }

  /** No decrement of such a run underflows: it finds a positive counter and lowers it by one. At
    quiescence the counter is the number of queued modifiers. */
  lemma {:induction false} NeverUnderflows(s: State, run: seq<Step>, st: Step)
    requires Start(s) && |s.threads| + CAPACITY < TWO_64 && Valid(s, run) && InstallsFirst(s, run)
    requires Enabled(Exec(s, run), st)
    ensures
      var u := Exec(s, run);
      var key := if PcOf(u, st.t).Ready? then "" else PcOf(u, st.t).key;
      && (st.act.Decrement? || st.act.CleanDecrement? ==>
           u.pools[key].count > 0 && Apply(u, st).pools[key].count == u.pools[key].count - 1)
      && (forall k :: k in u.pools && (forall t :: 0 <= t < |u.threads| ==> u.threads[t].pc.Ready?) ==>
           u.pools[k].count == |u.pools[k].queue|)
  {
    hide Exec, Valid, InstallsFirst;
    var u := Exec(s, run);
    WellFormedAlways(s, run);
    var pc := PcOf(u, st.t);
    if st.act.Decrement? || st.act.CleanDecrement? {
      CounterIsExact(s, run, pc.key);
      PlayerCounts(u.threads, st.t, pc.key, Owing);
      NumberBound(u.threads, pc.key, Owing);
      CountsDown(u.pools[pc.key].count);
    }
    forall k | k in u.pools && (forall t :: 0 <= t < |u.threads| ==> u.threads[t].pc.Ready?)
      ensures u.pools[k].count == |u.pools[k].queue|
    {
      CounterIsExact(s, run, k);
      NobodyPlays(u.threads, k, Owing);
    }
  }

  // ----- Capacity -----

  /** Queued modifiers plus releases behind their check never exceed 10 plus the releases in flight;
    one less for a clean that has already removed something. */
  ghost predicate Bounded(s: State, key: Key, k: nat) {
    key in s.pools ==>
      |s.pools[key].queue| + Number(s.threads, key, Committed) + Number(s.threads, key, Trimmed) <= LIMIT + k
  }

  /** A clean started by a release removes at most ten and counts what it has removed. */
  ghost predicate CleansByTen(s: State) {
    forall t :: 0 <= t < |s.threads| ==>
      var pc := s.threads[t].pc;
      && ((pc.WaitClean? || pc.Cleaning? || pc.CleanDecrementing?) && pc.next.ToRelease? ==> pc.limit == LIMIT)
  }

  lemma CleansByTenKept(s: State, st: Step)
    requires Enabled(s, st) && CleansByTen(s)
    ensures CleansByTen(Apply(s, st))
  {
    OneThreadMoves(s, st);
  }

  /** A release that is neither behind its check nor cleaning is one more than those that are. */
  lemma OneToSpare(ts: seq<Thread>, t: nat, key: Key)
    requires t < |ts| && Plays(ts[t].pc, key, InRelease)
    requires !Plays(ts[t].pc, key, Committed) && !Plays(ts[t].pc, key, Trimmed)
    ensures Number(ts, key, Committed) + Number(ts, key, Trimmed) + 1 <= Number(ts, key, InRelease)
  {
    var idle := Thread({}, Ready);
    NumberUpdated(ts, t, idle, key, Committed);
    NumberUpdated(ts, t, idle, key, Trimmed);
    NumberUpdated(ts, t, idle, key, InRelease);
    RolesAreApart(ts[t := idle], key);
  }

  /** How the numbers of committed and of trimming releases change with the goroutine that moves. */
  lemma RolesMove(s: State, st: Step, key: Key)
    requires Enabled(s, st)
    ensures
      var s', pc, pc' := Apply(s, st), PcOf(s, st.t), PcOf(Apply(s, st), st.t);
      && Number(s'.threads, key, Committed) == Number(s.threads, key, Committed) - Bit(Plays(pc, key, Committed)) + Bit(Plays(pc', key, Committed))
      && Number(s'.threads, key, Trimmed) == Number(s.threads, key, Trimmed) - Bit(Plays(pc, key, Trimmed)) + Bit(Plays(pc', key, Trimmed))
  {
    OneThreadMoves(s, st);
    hide Apply, Enabled, Plays;
    NumberUpdated(s.threads, st.t, Apply(s, st).threads[st.t], key, Committed);
    NumberUpdated(s.threads, st.t, Apply(s, st).threads[st.t], key, Trimmed);
  }

  /** The steps that may let a release pass its check. */
  lemma BoundedAtCheck(s: State, st: Step, key: Key, k: nat)
    requires Enabled(s, st) && (st.act.Check? || st.act.EnterClean? || st.act.CleanExit?)
    requires CleansByTen(s) && Bounded(s, key, k) && Exact(s, key) && Number(s.threads, key, InRelease) <= k
    ensures Bounded(Apply(s, st), key, k)
  {
    RolesMove(s, st, key);
    var ts, pc := s.threads, PcOf(s, st.t);
    if pc.key == key && Plays(pc, key, InRelease) && !Plays(pc, key, Trimmed) {
      OneToSpare(ts, st.t, key);
      RolesAreApart(ts, key);
    }
    assert pc.Cleaning? && pc.next.ToRelease? ==> pc.limit == LIMIT;
  }

  lemma BoundedElsewhere(s: State, st: Step, key: Key, k: nat)
    requires Enabled(s, st) && !st.act.Check? && !st.act.EnterClean? && !st.act.CleanExit?
    requires Bounded(s, key, k) && Number(s.threads, key, InRelease) <= k
    ensures Bounded(Apply(s, st), key, k)
  {
    RolesMove(s, st, key);
    RolesAreApart(s.threads, key);
  }

  lemma BoundedKept(s: State, st: Step, key: Key, k: nat)
    requires Enabled(s, st) && CleansByTen(s) && Bounded(s, key, k) && Exact(s, key)
    requires Number(s.threads, key, InRelease) <= k
    ensures Bounded(Apply(s, st), key, k)
  {
    if st.act.Check? || st.act.EnterClean? || st.act.CleanExit? {
      BoundedAtCheck(s, st, key, k);
    } else {
      BoundedElsewhere(s, st, key, k);
    }
  }

  /** At no moment of the run are more than k releases to the pool in flight. */
  ghost predicate ReleasesWithin(s: State, run: seq<Step>, key: Key, k: nat)
    requires Valid(s, run)
    decreases |run|
  {
    && Number(Exec(s, run).threads, key, InRelease) <= k
    && (run == [] || (Valid(s, run[..|run| - 1]) && ReleasesWithin(s, run[..|run| - 1], key, k)))
  }

  lemma {:induction false} BoundedAlways(s: State, run: seq<Step>, key: Key, k: nat)
    requires Start(s) && |s.threads| + CAPACITY < TWO_64 && Valid(s, run) && QuietRun(s, run)
    requires ReleasesWithin(s, run, key, k)
    ensures Bounded(Exec(s, run), key, k) && CleansByTen(Exec(s, run))
    decreases |run|
  {
    hide Apply, Enabled, Valid, Exec, Exact, Bounded, CleansByTen;
    LastStep(s, run);
    if run == [] {
      assert Bounded(s, key, k) && CleansByTen(s) by { StartBounded(s, key, k); }
    } else {
      var prefix := run[..|run| - 1];
      BoundedAlways(s, prefix, key, k);
      QuietIsExact(s, prefix, key);
      BoundedKept(Exec(s, prefix), run[|run| - 1], key, k);
      CleansByTenKept(Exec(s, prefix), run[|run| - 1]);
    }
  }

  lemma StartBounded(s: State, key: Key, k: nat)
    requires Start(s)
    ensures Bounded(s, key, k) && CleansByTen(s)
  {
  }

  /** With at most k releases in flight, queued modifiers and counted releases that are still to be
    sent never exceed 10 + k. One release at a time keeps a pool at 11 or less; for k up to 10 a send
    always finds room in the channel. */
  lemma CapacityBound(s: State, run: seq<Step>, key: Key, k: nat)
    requires Start(s) && |s.threads| + CAPACITY < TWO_64 && Valid(s, run) && InstallsFirst(s, run)
    requires ReleasesWithin(s, run, key, k) && key in Exec(s, run).pools
    ensures
      var u := Exec(s, run);
      && |u.pools[key].queue| + Number(u.threads, key, Committed) <= LIMIT + k
      && (k == 1 ==> |u.pools[key].queue| <= 11)
      && (k <= 10 ==> forall t :: 0 <= t < |u.threads| && u.threads[t].pc.Sending? && u.threads[t].pc.key == key ==>
            Enabled(u, Step(t, Send)))
  {
    hide Valid, Exec, QuietRun, InstallsFirst, ReleasesWithin, Start;
    FirstIsQuiet(s, run);
    BoundedAlways(s, run, key, k);
    SendsFit(Exec(s, run), key, k);
  }

  /** What the bound means for a channel. */
  lemma SendsFit(u: State, key: Key, k: nat)
    requires Bounded(u, key, k) && key in u.pools
    ensures |u.pools[key].queue| + Number(u.threads, key, Committed) <= LIMIT + k
    ensures k <= 10 ==> forall t :: 0 <= t < |u.threads| && u.threads[t].pc.Sending? && u.threads[t].pc.key == key ==>
      Enabled(u, Step(t, Send))
  {
    forall t | k <= 10 && 0 <= t < |u.threads| && u.threads[t].pc.Sending? && u.threads[t].pc.key == key
      ensures Enabled(u, Step(t, Send))
    {
      PlayerCounts(u.threads, t, key, Committed);
    }
  }

  // ----- Two goroutines that both install the first pool -----

  ghost predicate Reaches(s: State, u: State) {
    exists run :: Valid(s, run) && Exec(s, run) == u
  }

  lemma ReachesStep(s: State, u: State, st: Step)
    requires Reaches(s, u) && Enabled(u, st)
    ensures Reaches(s, Apply(u, st))
  {
    var run :| Valid(s, run) && Exec(s, run) == u;
    hide Apply, Enabled;
    assert (run + [st])[..|run|] == run;
    assert Valid(s, run + [st]) && Exec(s, run + [st]) == Apply(u, st);
  }

  /** Two goroutines and the one pool they use. */
  function Two(a: Thread, b: Thread, key: Key, pool: Pool, made: nat): State {
    State(map[key := pool], [a, b], false, made)
  }

  lemma Moves(s: State, u: State, st: Step, v: State)
    requires Reaches(s, u) && Enabled(u, st) && |v.threads| == |u.threads|
    requires v.locked == Apply(u, st).locked && v.made == Apply(u, st).made && v.pools.Keys == Apply(u, st).pools.Keys
    requires forall k :: k in v.pools ==>
      v.pools[k].count == Apply(u, st).pools[k].count && v.pools[k].queue == Apply(u, st).pools[k].queue
    requires v.threads[st.t].owned == Apply(u, st).threads[st.t].owned && v.threads[st.t].pc == Apply(u, st).threads[st.t].pc
    requires forall t :: 0 <= t < |u.threads| && t != st.t ==> v.threads[t] == u.threads[t]
    ensures Reaches(s, v)
  {
    ReachesStep(s, u, st);
    OneThreadMoves(u, st);
    assert v.threads == Apply(u, st).threads;
    assert v.pools == Apply(u, st).pools;
    hide Reaches;
    assert v == Apply(u, st);
  }

  const IDLE := Thread({}, Ready)
  const BEGIN := State(map[], [IDLE, IDLE], false, 0)

  /** Both goroutines see that there is no pool. */
  lemma BothSeeNoPool(key: Key)
    ensures Reaches(BEGIN, State(map[], [Thread({}, InstallForCheckout(key)), Thread({}, InstallForCheckout(key))], false, 0))
  {
    var w, i := Thread({}, Wanting(key)), Thread({}, InstallForCheckout(key));
    assert Valid(BEGIN, []) && Exec(BEGIN, []) == BEGIN;
    hide Reaches;
    Moves(BEGIN, BEGIN, Step(0, StartCheckout(key)), State(map[], [w, IDLE], false, 0));
    Moves(BEGIN, State(map[], [w, IDLE], false, 0), Step(0, CheckInit), State(map[], [i, IDLE], false, 0));
    Moves(BEGIN, State(map[], [i, IDLE], false, 0), Step(1, StartCheckout(key)), State(map[], [i, w], false, 0));
    Moves(BEGIN, State(map[], [i, w], false, 0), Step(1, CheckInit), State(map[], [i, i], false, 0));
  }

  /** One installs the pool, makes a modifier and starts to release it. */
  lemma OneInstallsAndReturns(key: Key)
    ensures Reaches(BEGIN, Two(Thread({}, Checking(key, 0)), Thread({}, InstallForCheckout(key)), key, Pool(0, []), 1))
  {
    BothSeeNoPool(key);
    hide Reaches;
    var i, none := Thread({}, InstallForCheckout(key)), Pool(0, []);
    var u1, u2 := Two(Thread({}, Receiving(key)), i, key, none, 0), Two(Thread({0}, Ready), i, key, none, 1);
    var u3 := Two(Thread({}, Returning(key, 0)), i, key, none, 1);
    Moves(BEGIN, State(map[], [i, i], false, 0), Step(0, Install), u1);
    Moves(BEGIN, u1, Step(0, Timeout), u2);
    Moves(BEGIN, u2, Step(0, StartRelease(0, key)), u3);
    Moves(BEGIN, u3, Step(0, CheckInit), Two(Thread({}, Checking(key, 0)), i, key, none, 1));
  }

  lemma CountedBeforeReplaced(key: Key)
    ensures Reaches(BEGIN, Two(Thread({}, Sending(key, 0)), Thread({}, InstallForCheckout(key)), key, Pool(1, []), 1))
  {
    OneInstallsAndReturns(key);
    hide Reaches;
    var i := Thread({}, InstallForCheckout(key));
    var u := Two(Thread({}, Counting(key, 0)), i, key, Pool(0, []), 1);
    assert AddUint64(0, 1) == 1;
    Moves(BEGIN, Two(Thread({}, Checking(key, 0)), i, key, Pool(0, []), 1), Step(0, Check), u);
    Moves(BEGIN, u, Step(0, Count), Two(Thread({}, Sending(key, 0)), i, key, Pool(1, []), 1));
  }

  /** The other installs a second pool over the counted one, and the send goes to the new channel. */
  lemma OtherReplacesThePool(key: Key)
    ensures Reaches(BEGIN, Two(IDLE, Thread({}, Receiving(key)), key, Pool(0, [0]), 1))
  {
    CountedBeforeReplaced(key);
    hide Reaches;
    var i, r := Thread({}, InstallForCheckout(key)), Thread({}, Receiving(key));
    var u := Two(Thread({}, Sending(key, 0)), r, key, Pool(0, []), 1);
    Moves(BEGIN, Two(Thread({}, Sending(key, 0)), i, key, Pool(1, []), 1), Step(1, Install), u);
    Moves(BEGIN, u, Step(0, Send), Two(IDLE, r, key, Pool(0, [0]), 1));
  }

  /** Without quiet installs the counter does underflow: the replaced pool took the count with it,
    and the checkout that receives the late send counts down from zero. */
  lemma FirstUseRaceUnderflows(key: Key)
    ensures Reaches(BEGIN, Two(IDLE, Thread({0}, Ready), key, Pool(MINUS_ONE, []), 1))
  {
    OtherReplacesThePool(key);
    hide Reaches;
    var u := Two(IDLE, Thread({}, Receiving(key)), key, Pool(0, [0]), 1);
    var u1 := Two(IDLE, Thread({}, Decrementing(key, 0)), key, Pool(0, []), 1);
    assert AddUint64(0, MINUS_ONE) == MINUS_ONE;
    Moves(BEGIN, u, Step(1, Receive), u1);
    Moves(BEGIN, u1, Step(1, Decrement), Two(IDLE, Thread({0}, Ready), key, Pool(MINUS_ONE, []), 1));
  }

  // ----- Any two goroutines that are about to install the same pool -----

  /** Another goroutine waits to install a pool for the key, the lock is free and the pool is empty. */
  ghost predicate Awaited(u: State, other: nat, key: Key) {
    && other < |u.threads| && Installing(u.threads[other].pc) && u.threads[other].pc.key == key
    && !u.locked && key in u.pools && u.pools[key] == Pool(0, [])
  }

  /** A goroutine that waits for a modifier gives up, makes one and gives it back. */
  lemma ReturnsNewModifier(s: State, u: State, t: nat, other: nat, key: Key) returns (v: State, m: ModId)
    requires Reaches(s, u) && Awaited(u, other, key) && t != other
    requires t < |u.threads| && u.threads[t].pc == Receiving(key)
    ensures Reaches(s, v) && Awaited(v, other, key) && t < |v.threads| && v.threads[t].pc == Checking(key, m)
  {
    hide Reaches;
    m := u.made;
    ReachesStep(s, u, Step(t, Timeout));
    var u1 := Apply(u, Step(t, Timeout));
    ReachesStep(s, u1, Step(t, StartRelease(m, key)));
    var u2 := Apply(u1, Step(t, StartRelease(m, key)));
    ReachesStep(s, u2, Step(t, CheckInit));
    v := Apply(u2, Step(t, CheckInit));
  }

  lemma CountsIt(s: State, u: State, t: nat, other: nat, key: Key, m: ModId) returns (v: State)
    requires Reaches(s, u) && Awaited(u, other, key) && t != other
    requires t < |u.threads| && u.threads[t].pc == Checking(key, m)
    ensures Reaches(s, v) && t < |v.threads| && v.threads[t].pc == Sending(key, m)
    ensures other < |v.threads| && Installing(v.threads[other].pc) && v.threads[other].pc.key == key && !v.locked
  {
    hide Reaches;
    ReachesStep(s, u, Step(t, Check));
    var u1 := Apply(u, Step(t, Check));
    ReachesStep(s, u1, Step(t, Count));
    v := Apply(u1, Step(t, Count));
  }

  /** Whenever two goroutines are about to install a pool for the same key, some continuation breaks
    the counter: one installs, counts a modifier, and the other's pool takes the place of the counted. */
  lemma TwoInstallersBreakTheCounter(s: State, u: State, t: nat, other: nat, key: Key)
    requires Reaches(s, u) && !u.locked && t < |u.threads| && other < |u.threads| && t != other
    requires Installing(u.threads[t].pc) && u.threads[t].pc.key == key
    requires Installing(u.threads[other].pc) && u.threads[other].pc.key == key
    ensures exists v :: Reaches(s, v) && !Exact(v, key)
  {
    hide Reaches, Exact;
    ReachesStep(s, u, Step(t, Install));
    var v := Apply(u, Step(t, Install));
    var m := if v.threads[t].pc.Checking? then v.threads[t].pc.m else 0;
    if v.threads[t].pc.Receiving? {
      v, m := ReturnsNewModifier(s, v, t, other, key);
    }
    v := CountsIt(s, v, t, other, key, m);
    ReachesStep(s, v, Step(other, Install));
    PlayerCounts(v.threads, t, key, Owing);
    InstallExactness(v, Step(other, Install));
  }

  // ----- Each modifier is in one place -----

  /** The modifier that a goroutine carries between two steps. */
  function Carried(pc: Pc): set<ModId> {
    match pc
    case Decrementing(_, m) => {m}
    case Returning(_, m) => {m}
    case InstallForRelease(_, m) => {m}
    case Checking(_, m) => {m}
    case Counting(_, m) => {m}
    case Sending(_, m) => {m}
    case WaitClean(_, _, next) => CarriedNext(next)
    case Cleaning(_, _, _, next) => CarriedNext(next)
    case CleanDecrementing(_, _, _, next) => CarriedNext(next)
    case _ => {}
  }

  function CarriedNext(next: Then): set<ModId> {
    if next.ToRelease? then {next.m} else {}
  }

  function Holds(th: Thread): set<ModId> {
    th.owned + Carried(th.pc)
  }

  predicate Apart(th: Thread) {
    th.owned !! Carried(th.pc)
  }

  /** Nobody holds what another goroutine holds. */
  ghost predicate HoldersApart(s: State) {
    && (forall t :: 0 <= t < |s.threads| ==> Apart(s.threads[t]))
    && (forall t, u :: 0 <= t < u < |s.threads| ==> Holds(s.threads[t]) !! Holds(s.threads[u]))
  }

  /** No modifier is queued twice, in one pool or in two. */
  ghost predicate QueuesApart(s: State) {
    && (forall key, i, j :: key in s.pools && 0 <= i < j < |s.pools[key].queue| ==> s.pools[key].queue[i] != s.pools[key].queue[j])
    && (forall key, key', m :: key in s.pools && key' in s.pools && key != key' && m in s.pools[key].queue ==> m !in s.pools[key'].queue)
  }

  /** No queued modifier is held. */
  ghost predicate QueuedUnheld(s: State) {
    forall t, key, m :: 0 <= t < |s.threads| && key in s.pools && m in s.pools[key].queue ==> m !in Holds(s.threads[t])
  }

  /** Modifiers not yet made are nowhere. */
  ghost predicate AllMade(s: State) {
    && (forall t, m :: 0 <= t < |s.threads| && m in Holds(s.threads[t]) ==> m < s.made)
    && (forall key, m :: key in s.pools && m in s.pools[key].queue ==> m < s.made)
  }

  ghost predicate Exclusive(s: State) {
    HoldersApart(s) && QueuesApart(s) && QueuedUnheld(s) && AllMade(s)
  }

  /** The steps that leave every channel alone and give the mover nothing. */
  predicate Quiet(act: Action) {
    !act.Receive? && !act.CleanReceive? && !act.Send? && !act.Install? && !act.Timeout?
  }

  lemma QuietStep(s: State, st: Step)
    requires Enabled(s, st) && Quiet(st.act) && Apart(s.threads[st.t])
    ensures Apart(Apply(s, st).threads[st.t]) && Holds(Apply(s, st).threads[st.t]) <= Holds(s.threads[st.t])
    ensures Apply(s, st).made == s.made && Apply(s, st).pools.Keys == s.pools.Keys
    ensures forall k :: k in s.pools ==> Apply(s, st).pools[k].queue == s.pools[k].queue
  {
  }

  /** The mover ends up with some of what it held and, possibly, something that nobody held. */
  lemma HoldersStayApart(s: State, s': State, t: nat, gained: set<ModId>)
    requires HoldersApart(s) && t < |s.threads| == |s'.threads|
    requires forall u :: 0 <= u < |s.threads| && u != t ==> s'.threads[u] == s.threads[u] && gained !! Holds(s.threads[u])
    requires Apart(s'.threads[t]) && Holds(s'.threads[t]) <= Holds(s.threads[t]) + gained
    ensures HoldersApart(s')
  {
  }

  lemma QuietKeepsExclusive(s: State, st: Step)
    requires Enabled(s, st) && Exclusive(s) && Quiet(st.act)
    ensures Exclusive(Apply(s, st))
  {
    var s' := Apply(s, st);
    assert Apart(s.threads[st.t]);
    QuietStep(s, st);
    OneThreadMoves(s, st);
    HoldersStayApart(s, s', st.t, {});
    hide Apply, Enabled, Holds, Apart;
    assert forall k, m :: k in s'.pools && m in s'.pools[k].queue ==> k in s.pools && m in s.pools[k].queue;
  }

  lemma TimeoutKeepsExclusive(s: State, st: Step)
    requires Enabled(s, st) && Exclusive(s) && st.act.Timeout?
    ensures Exclusive(Apply(s, st))
  {
    var s' := Apply(s, st);
    assert Apart(s.threads[st.t]);
    HoldersStayApart(s, s', st.t, {s.made});
  }

  /** A channel loses its head and the mover gains `gained`: that head or nothing. */
  lemma HeadTaken(s: State, s': State, t: nat, key: Key, gained: set<ModId>)
    requires Exclusive(s) && t < |s.threads| && key in s.pools && s.pools[key].queue != []
    requires gained <= {s.pools[key].queue[0]} && |s'.threads| == |s.threads| && s'.made == s.made
    requires forall u :: 0 <= u < |s.threads| && u != t ==> s'.threads[u] == s.threads[u]
    requires Apart(s'.threads[t]) && Holds(s'.threads[t]) <= Holds(s.threads[t]) + gained
    requires s'.pools.Keys == s.pools.Keys && s'.pools[key].queue == s.pools[key].queue[1..]
    requires forall k :: k in s.pools && k != key ==> s'.pools[k].queue == s.pools[k].queue
    ensures Exclusive(s')
  {
    hide Holds, Apart;
    var head := s.pools[key].queue[0];
    assert head in s.pools[key].queue;
    HoldersStayApart(s, s', t, gained);
    assert forall k, m :: k in s'.pools && m in s'.pools[k].queue ==> k in s.pools && m in s.pools[k].queue;
    assert forall i :: 0 <= i < |s'.pools[key].queue| ==> s'.pools[key].queue[i] == s.pools[key].queue[i + 1];
    assert head !in s'.pools[key].queue;
  }

  lemma ReceiveKeepsExclusive(s: State, st: Step)
    requires Enabled(s, st) && Exclusive(s) && (st.act.Receive? || st.act.CleanReceive?)
    ensures Exclusive(Apply(s, st))
  {
    var s', pc := Apply(s, st), PcOf(s, st.t);
    assert Apart(s.threads[st.t]);
    var head := s.pools[pc.key].queue[0];
    assert head in s.pools[pc.key].queue;
    HeadTaken(s, s', st.t, pc.key, if st.act.Receive? then {head} else {});
  }

  lemma SendKeepsExclusive(s: State, st: Step)
    requires Enabled(s, st) && Exclusive(s) && st.act.Send?
    ensures Exclusive(Apply(s, st))
  {
    var s', pc := Apply(s, st), PcOf(s, st.t);
    assert Apart(s.threads[st.t]) && pc.m in Holds(s.threads[st.t]);
    assert Holds(s'.threads[st.t]) == Holds(s.threads[st.t]) - {pc.m};
    HoldersStayApart(s, s', st.t, {});
    SentApart(s, s', st.t, pc.key, pc.m);
  }

  lemma SentApart(s: State, s': State, t: nat, key: Key, m: ModId)
    requires Exclusive(s) && HoldersApart(s') && t < |s.threads| == |s'.threads| && key in s.pools && m in Holds(s.threads[t])
    requires forall u :: 0 <= u < |s.threads| && u != t ==> s'.threads[u] == s.threads[u]
    requires Holds(s'.threads[t]) == Holds(s.threads[t]) - {m} && s'.made == s.made
    requires s'.pools.Keys == s.pools.Keys && s'.pools[key].queue == s.pools[key].queue + [m]
    requires forall k :: k in s.pools && k != key ==> s'.pools[k].queue == s.pools[k].queue
    ensures Exclusive(s')
  {
    hide Holds, Apart;
    assert forall k, x :: k in s'.pools && x in s'.pools[k].queue ==> x in s.pools[k].queue || (k == key && x == m);
    forall k | k in s.pools ensures m !in s.pools[k].queue { }
    assert forall u :: 0 <= u < |s.threads| && u != t ==> m !in Holds(s'.threads[u]);
  }

  lemma InstallKeepsExclusive(s: State, st: Step)
    requires Enabled(s, st) && Exclusive(s) && st.act.Install?
    ensures Exclusive(Apply(s, st))
  {
    var s' := Apply(s, st);
    assert Apart(s.threads[st.t]);
    HoldersStayApart(s, s', st.t, {});
    assert Holds(s'.threads[st.t]) == Holds(s.threads[st.t]);
    assert forall k, m :: k in s'.pools && m in s'.pools[k].queue ==> k in s.pools && m in s.pools[k].queue && s'.pools[k] == s.pools[k];
  }

  lemma ExclusiveKept(s: State, st: Step)
    requires Enabled(s, st) && Exclusive(s)
    ensures Exclusive(Apply(s, st))
  {
    hide Exclusive, Enabled, Apply;
    if Quiet(st.act) { QuietKeepsExclusive(s, st); }
    else if st.act.Timeout? { TimeoutKeepsExclusive(s, st); }
    else if st.act.Send? { SendKeepsExclusive(s, st); }
    else if st.act.Install? { InstallKeepsExclusive(s, st); }
    else { ReceiveKeepsExclusive(s, st); }
  }

  lemma StartExclusive(s: State)
    requires Start(s)
    ensures Exclusive(s)
  {
  }

  /** If callers release only what they hold, and that once, then in every run, whatever its installs,
    each modifier is held by at most one goroutine or queued at most once, and never both. */
  lemma {:induction false} OneOwner(s: State, run: seq<Step>)
    requires Start(s) && Valid(s, run)
    ensures Exclusive(Exec(s, run))
    decreases |run|
  {
    hide Apply, Enabled, Valid, Exec, Exclusive;
    LastStep(s, run);
    if run == [] {
      StartExclusive(s);
    } else {
      OneOwner(s, run[..|run| - 1]);
      ExclusiveKept(Exec(s, run[..|run| - 1]), run[|run| - 1]);
    }
  }
}
