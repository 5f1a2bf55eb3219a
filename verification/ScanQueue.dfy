/** The evidence scan queue: rows of `scan_jobs`, the transactions that hold their locks, and the audit trail.

    One call of `processNextScanJob` is one database transaction. Here it is two steps, `Claim` and `Finish`, with
    any other steps in between. The row a transaction is working on keeps its committed value, and its lock, until
    the transaction ends. Who is scanning and who holds a lock are kept apart: a crash or a thrown error ends both
    (`Abort`), while a connection that the database loses takes the lock and leaves the worker scanning
    (`LoseConnection`); its `Finish` then fails and commits nothing. All workers and the database read one clock. */
module ScanQueue {
  import opened Options
  import opened FailureCodes
  import Backoff

  const ATTEMPTS_LIMIT: nat := 3

  datatype Status = Pending | Running | Completed | Failed | Dead

  datatype TerminalReason = ContentAttemptsExhausted | InfrastructureAttemptsExhausted | LegacyAttemptsExhausted

  datatype Row = Row(
    status: Status,
    scanStatus: ScanStatus,
    attempts: nat,
    infrastructureAttempts: nat,
    availableAt: int,
    createdAt: int,
    updatedAt: int,
    lastErrorCode: Option<Code>,
    lastFailureClass: Option<FailureClass>,
    terminalReason: Option<TerminalReason>,
    terminalAt: Option<int>)

  datatype Config = Config(retryDelayMs: int, infrastructureLimit: nat, maxDelayMs: int, leaseMs: int) {
    /** The settings `processNextScanJob` accepts; it refuses anything else with a TypeError. */
    predicate Valid() {
      && 1 <= retryDelayMs <= maxDelayMs <= Backoff.MAX_CONFIGURED_DELAY_MS
      && 1 <= infrastructureLimit <= 100
      && 10_000 <= leaseMs <= 3_600_000
    }
  }

  type JobId = int
  type WorkerId = int

  /** `evidence_files.scan_status` of the one file a job is about. */
  datatype ScanStatus = Unscanned | Clean | Infected | TimedOut | Errored

  /** What reading and scanning one evidence file comes to. */
  datatype ScanResult = Verdict(infected: bool) | Threw(error: Option<Code>)

  datatype Transaction = Transaction(job: JobId, reclaimed: bool)

  datatype Event =
    | Attempted(job: JobId, scanStatus: ScanStatus, failureClass: Option<FailureClass>, reclaimed: bool)
    | RequiresAttention(job: JobId, reason: TerminalReason)
    | Requeued(job: JobId)

  datatype State = State(
    rows: map<JobId, Row>,
    open: map<WorkerId, Transaction>,
    scanning: map<WorkerId, JobId>,
    clock: int,
    audit: seq<Event>)
  {
    predicate Locked(job: JobId) {
      exists w :: w in open && open[w].job == job
    }
  }

  datatype Action =
    | Tick(elapsed: nat)
    | Arrive(job: JobId)
    | Claim(worker: WorkerId, job: JobId)
    | Finish(worker: WorkerId, result: ScanResult, draw: real)
    | Abort(worker: WorkerId)
    | LoseConnection(worker: WorkerId)
    | Requeue(job: JobId)

  /** The settings as the document bounds them, and its defaults among them. */
  lemma SettingsAreTheDocumented(c: Config)
    ensures c.Valid() <==>
            && 1 <= c.retryDelayMs && c.retryDelayMs <= c.maxDelayMs && c.maxDelayMs <= 24 * 60 * 60 * 1000
            && 1 <= c.infrastructureLimit && c.infrastructureLimit <= 100
            && 10 * 1000 <= c.leaseMs && c.leaseMs <= 60 * 60 * 1000
    ensures Config(60_000, 12, 900_000, 300_000).Valid()
  {}

  // ----- claiming ------------------------------------------------------------------------------------------

  predicate IsTerminal(row: Row) { row.status == Completed || row.status == Dead }

  predicate WithinBudgets(c: Config, row: Row) {
    row.attempts < ATTEMPTS_LIMIT && row.infrastructureAttempts < c.infrastructureLimit
  }

  /** The WHERE clause of the claim query. */
  predicate Eligible(c: Config, row: Row, now: int) {
    && (((row.status == Pending || row.status == Failed) && row.availableAt <= now)
        || (row.status == Running && row.updatedAt < now - c.leaseMs))
    && WithinBudgets(c, row)
  }

  /** The ORDER BY clause: `available_at`, then `created_at`. */
  predicate Before(a: Row, b: Row) {
    a.availableAt < b.availableAt || (a.availableAt == b.availableAt && a.createdAt < b.createdAt)
  }

  predicate Claimable(c: Config, s: State, job: JobId) {
    job in s.rows && !s.Locked(job) && Eligible(c, s.rows[job], s.clock)
  }

  /** What FOR UPDATE SKIP LOCKED LIMIT 1 may return; rows that tie may come in any order. */
  predicate IsHead(c: Config, s: State, job: JobId) {
    Claimable(c, s, job)
    && forall other :: other in s.rows && Claimable(c, s, other) ==> !Before(s.rows[other], s.rows[job])
  }

  // ----- settling ------------------------------------------------------------------------------------------

  function FreshRow(now: int): Row {
    Row(Pending, Unscanned, 0, 0, now, now, now, None, None, None, None)
  }

  function StatusOf(result: ScanResult): ScanStatus {
    match result
    case Verdict(infected) => if infected then Infected else Clean
    case Threw(error) => if ScanFailureCode(error) == ScanTimeout then TimedOut else Errored
  }

  function ClassOf(result: ScanResult): Option<FailureClass> {
    match result
    case Verdict(_) => None
    case Threw(error) => Some(ClassifyFailure(ScanFailureCode(error)))
  }

  /** What an attempt costs the item: one for a reclaim, one for a content failure. */
  function ContentCharge(failureClass: Option<FailureClass>, reclaimed: bool): nat {
    (if reclaimed then 1 else 0) + (if failureClass == Some(Content) then 1 else 0)
  }

  function InfrastructureCharge(failureClass: Option<FailureClass>): nat {
    if failureClass == Some(Infrastructure) then 1 else 0
  }

  /** The row a finished attempt commits. */
  function Settled(c: Config, row: Row, reclaimed: bool, result: ScanResult, now: int, draw: real): Row {
    var failureClass := ClassOf(result);
    var charged := row.(
      scanStatus := StatusOf(result),
      attempts := row.attempts + ContentCharge(failureClass, reclaimed),
      infrastructureAttempts := row.infrastructureAttempts + InfrastructureCharge(failureClass),
      lastErrorCode := if result.Verdict? then None else Some(ScanFailureCode(result.error)),
      lastFailureClass := failureClass,
      updatedAt := now,
      terminalReason := None,
      terminalAt := None);
    var delay := if failureClass == Some(Infrastructure)
      then Backoff.RetryBackoffMs(charged.infrastructureAttempts, c.retryDelayMs, c.maxDelayMs, draw)
      else c.retryDelayMs;
    var deferred := charged.(availableAt := now + delay);
    if result.Verdict? then deferred.(status := Completed)
    else if WithinBudgets(c, deferred) then deferred.(status := Failed)
    else deferred.(
      status := Dead,
      terminalReason := Some(if deferred.attempts >= ATTEMPTS_LIMIT
                             then ContentAttemptsExhausted else InfrastructureAttemptsExhausted),
      terminalAt := Some(now))
  }

  function AttemptEvents(job: JobId, tx: Transaction, result: ScanResult, settled: Row): seq<Event> {
    [Attempted(job, StatusOf(result), ClassOf(result), tx.reclaimed)]
    + (if settled.terminalReason.Some? then [RequiresAttention(job, settled.terminalReason.value)] else [])
  }

  function RequeuedRow(row: Row, now: int): Row {
    row.(status := Pending, scanStatus := Unscanned, attempts := 0, infrastructureAttempts := 0, lastErrorCode := None,
         lastFailureClass := None, terminalReason := None, terminalAt := None, availableAt := now, updatedAt := now)
  }

  // ----- the step system -----------------------------------------------------------------------------------

  predicate Enabled(c: Config, s: State, a: Action) {
    match a
    case Tick(_) => true
    case Arrive(job) => job !in s.rows
    case Claim(worker, job) => worker !in s.open && worker !in s.scanning && IsHead(c, s, job)
    case Finish(worker, _, draw) =>
      worker in s.scanning && (worker in s.open ==> s.open[worker].job in s.rows) && 0.0 <= draw <= 1.0
    case Abort(worker) => worker in s.scanning
    case LoseConnection(worker) => worker in s.open
    case Requeue(job) => job in s.rows && s.rows[job].status == Dead && !s.Locked(job)
  }

  function Next(c: Config, s: State, a: Action): State
    requires Enabled(c, s, a)
  {
    match a
    case Tick(elapsed) => s.(clock := s.clock + elapsed)
    case Arrive(job) => s.(rows := s.rows[job := FreshRow(s.clock)])
    case Claim(worker, job) =>
      s.(open := s.open[worker := Transaction(job, s.rows[job].status == Running)],
         scanning := s.scanning[worker := job])
    case Finish(worker, result, draw) =>
      var done := s.(open := s.open - {worker}, scanning := s.scanning - {worker});
      if worker !in s.open then done
      else
        var tx := s.open[worker];
        var settled := Settled(c, s.rows[tx.job], tx.reclaimed, result, s.clock, draw);
        done.(rows := s.rows[tx.job := settled], audit := s.audit + AttemptEvents(tx.job, tx, result, settled))
    case Abort(worker) => s.(open := s.open - {worker}, scanning := s.scanning - {worker})
    case LoseConnection(worker) => s.(open := s.open - {worker})
    case Requeue(job) =>
      s.(rows := s.rows[job := RequeuedRow(s.rows[job], s.clock)], audit := s.audit + [Requeued(job)])
  }

  ghost predicate IsRun(c: Config, states: seq<State>, actions: seq<Action>) {
    && |states| == |actions| + 1
    && forall i :: 0 <= i < |actions| ==>
         Enabled(c, states[i], actions[i]) && states[i + 1] == Next(c, states[i], actions[i])
  }

  lemma RunStep(c: Config, states: seq<State>, actions: seq<Action>, i: nat)
    requires IsRun(c, states, actions) && i < |actions|
    ensures Enabled(c, states[i], actions[i]) && states[i + 1] == Next(c, states[i], actions[i])
  {}

  // ----- what every run keeps --------------------------------------------------------------------------------

  /** A row is dead exactly when it states a reason and a time; a reason other than the legacy one names a budget
      that really is spent; a row that is not terminal still has both budgets, so the claim query can see it; a
      file has a verdict exactly when its job is completed. */
  predicate RowConsistent(c: Config, row: Row) {
    && (row.status == Dead <==> row.terminalReason.Some?)
    && (row.status == Dead <==> row.terminalAt.Some?)
    && (row.status == Completed <==> row.scanStatus.Clean? || row.scanStatus.Infected?)
    && (row.terminalReason == Some(ContentAttemptsExhausted) ==> row.attempts >= ATTEMPTS_LIMIT)
    && (row.terminalReason == Some(InfrastructureAttemptsExhausted)
        ==> row.attempts < ATTEMPTS_LIMIT && row.infrastructureAttempts >= c.infrastructureLimit)
    && (!IsTerminal(row) ==> WithinBudgets(c, row))
  }

  ghost predicate Inv(c: Config, s: State) {
    && (forall job :: job in s.rows ==> RowConsistent(c, s.rows[job]))
    && (forall w :: w in s.open ==>
          && s.open[w].job in s.rows && Eligible(c, s.rows[s.open[w].job], s.clock)
          && (s.open[w].reclaimed <==> s.rows[s.open[w].job].status == Running)
          && w in s.scanning && s.scanning[w] == s.open[w].job)
    && (forall w, v :: w in s.open && v in s.open && s.open[w].job == s.open[v].job ==> w == v)
  }

  lemma FinishKeepsInv(c: Config, s: State, a: Action)
    requires c.Valid()
    requires Inv(c, s) && Enabled(c, s, a) && a.Finish? && a.worker in s.open
    ensures Inv(c, Next(c, s, a))
  {
    var tx, t := s.open[a.worker], Next(c, s, a);
    SettledIsConsistent(c, s.rows[tx.job], tx.reclaimed, a.result, s.clock, a.draw);
    assert forall w :: w in t.open ==> s.open[w].job != tx.job;
  }

  lemma SettledIsConsistent(c: Config, row: Row, reclaimed: bool, result: ScanResult, now: int, draw: real)
    ensures RowConsistent(c, Settled(c, row, reclaimed, result, now, draw))
  {}

  lemma StepKeepsInv(c: Config, s: State, a: Action)
    requires c.Valid()
    requires Inv(c, s) && Enabled(c, s, a)
    ensures Inv(c, Next(c, s, a))
  {
    match a
    case Claim(worker, job) => assert !s.Locked(job);
    case Requeue(job) => assert !s.Locked(job);
    case Finish(worker, _, _) =>
      if worker in s.open {
        FinishKeepsInv(c, s, a);
      }
    case _ =>
  }

  /** In every interleaving of workers, crashes, lost connections, arrivals and requeues the row invariant holds and
      no two open transactions hold the same job, which stays eligible as long as one does. */
  lemma {:induction false} EveryRunKeepsInv(c: Config, states: seq<State>, actions: seq<Action>, i: nat)
    requires c.Valid()
    requires IsRun(c, states, actions) && Inv(c, states[0]) && i < |states|
    ensures Inv(c, states[i])
  {
    if i == 0 {
    } else {
      EveryRunKeepsInv(c, states, actions, i - 1);
      StepKeepsInv(c, states[i - 1], actions[i - 1]);
    }
  }

  // ----- who scans, and who commits ---------------------------------------------------------------------------

  predicate Scans(s: State, worker: WorkerId, job: JobId) { worker in s.scanning && s.scanning[worker] == job }

  ghost predicate ScansThroughout(states: seq<State>, from: nat, to: nat, worker: WorkerId, job: JobId) {
    forall i: nat :: from <= i <= to && i < |states| ==> Scans(states[i], worker, job)
  }

  /** Every scanning worker still holds its lock. */
  predicate AllLocked(s: State) { forall w :: w in s.scanning ==> w in s.open }

  /** The worker's connection was lost at step `k`, during the scan of the job that it is still at in state `i`. */
  ghost predicate LostDuring(states: seq<State>, actions: seq<Action>, k: nat, i: nat, worker: WorkerId, job: JobId) {
    k < i && k < |actions| && actions[k] == LoseConnection(worker) && ScansThroughout(states, k, i, worker, job)
  }

  /** A worker that scans without a lock lost its connection during that very scan. */
  lemma {:induction false} LocklessScanLostItsConnection(
    c: Config, states: seq<State>, actions: seq<Action>, i: nat, worker: WorkerId, job: JobId) returns (k: nat)
    requires c.Valid() && IsRun(c, states, actions) && AllLocked(states[0]) && i < |states|
    requires Scans(states[i], worker, job) && worker !in states[i].open
    ensures LostDuring(states, actions, k, i, worker, job)
  {
    assert i > 0;
    var s, a := states[i - 1], actions[i - 1];
    assert Enabled(c, s, a) && states[i] == Next(c, s, a);
    assert Scans(s, worker, job);
    if worker in s.open {
      assert a == LoseConnection(worker);
      k := i - 1;
    } else {
      k := LocklessScanLostItsConnection(c, states, actions, i - 1, worker, job);
    }
  }

  /** Where a scan began: with its claim, or before the run. */
  lemma {:induction false} ScanBegan(
    c: Config, states: seq<State>, actions: seq<Action>, i: nat, worker: WorkerId, job: JobId) returns (m: int)
    requires IsRun(c, states, actions) && i < |states| && Scans(states[i], worker, job)
    ensures -1 <= m < i && ScansThroughout(states, m + 1, i, worker, job)
    ensures m >= 0 ==> actions[m] == Claim(worker, job)
  {
    if i == 0 {
      m := -1;
    } else {
      RunStep(c, states, actions, i - 1);
      if Scans(states[i - 1], worker, job) {
        m := ScanBegan(c, states, actions, i - 1, worker, job);
      } else {
        m := i - 1;
      }
    }
  }

  /** A connection lost during a scan of the job at step `k`, and a later claim of the job at step `m`, by workers that
      are both still scanning it in state `i`. */
  ghost predicate LostThenClaimed(
    states: seq<State>, actions: seq<Action>, i: nat, w: WorkerId, k: nat, v: WorkerId, m: nat, job: JobId)
  {
    && w != v && k < m < i && m < |actions|
    && LostDuring(states, actions, k, i, w, job)
    && actions[m] == Claim(v, job) && ScansThroughout(states, m + 1, i, v, job)
  }

  /** The later of two scans of one job was claimed after the earlier one had lost its connection. */
  lemma LaterClaimFollowsLoss(
    c: Config, states: seq<State>, actions: seq<Action>, i: nat, w: WorkerId, began: int, v: WorkerId, m: nat,
    job: JobId)
    returns (k: nat)
    requires c.Valid() && IsRun(c, states, actions) && Inv(c, states[0]) && AllLocked(states[0]) && i < |states|
    requires -1 <= began < m < i && ScansThroughout(states, began + 1, i, w, job)
    requires actions[m] == Claim(v, job) && ScansThroughout(states, m + 1, i, v, job) && w != v
    ensures LostThenClaimed(states, actions, i, w, k, v, m, job)
  {
    RunStep(c, states, actions, m);
    EveryRunKeepsInv(c, states, actions, m);
    assert Scans(states[m], w, job);
    assert w !in states[m].open;
    k := LocklessScanLostItsConnection(c, states, actions, m, w, job);
    assert ScansThroughout(states, k, i, w, job);
  }

  lemma LockedScansDiffer(c: Config, s: State)
    requires Inv(c, s) && AllLocked(s)
    ensures forall w, v, job :: Scans(s, w, job) && Scans(s, v, job) ==> w == v
  {}

  /** Two live workers scan one job at once exactly when one of them lost its connection during its scan and the other
      claimed the job after that. The length of the lease has no part in it. */
  lemma DoubleScanExactlyAfterLoss(c: Config, states: seq<State>, actions: seq<Action>, i: nat, job: JobId)
    requires c.Valid() && IsRun(c, states, actions) && Inv(c, states[0]) && AllLocked(states[0]) && i < |states|
    ensures (exists w, v :: w != v && Scans(states[i], w, job) && Scans(states[i], v, job))
            <==> (exists w, k, v, m :: LostThenClaimed(states, actions, i, w, k, v, m, job))
  {
    if w, v :| w != v && Scans(states[i], w, job) && Scans(states[i], v, job) {
      var first := ScanBegan(c, states, actions, i, w, job);
      var second := ScanBegan(c, states, actions, i, v, job);
      LockedScansDiffer(c, states[0]);
      if first < second {
        var k := LaterClaimFollowsLoss(c, states, actions, i, w, first, v, second, job);
      } else {
        assert second < first;
        var k := LaterClaimFollowsLoss(c, states, actions, i, v, second, w, first, job);
      }
    }
    if w, k: nat, v, m: nat :| LostThenClaimed(states, actions, i, w, k, v, m, job) {
      assert Scans(states[i], w, job) && Scans(states[i], v, job);
    }
  }

  /** Without a lost connection, no job is ever being scanned twice. */
  lemma NoLossNoDoubleScan(
    c: Config, states: seq<State>, actions: seq<Action>, i: nat, w: WorkerId, v: WorkerId, job: JobId)
    requires c.Valid() && IsRun(c, states, actions) && Inv(c, states[0]) && AllLocked(states[0]) && i < |states|
    requires forall k :: 0 <= k < i ==> !actions[k].LoseConnection?
    requires Scans(states[i], w, job) && Scans(states[i], v, job)
    ensures w == v
  {
    if w != v {
      DoubleScanExactlyAfterLoss(c, states, actions, i, job);
    }
  }

  /** A lost connection is enough: whatever the lease, the job can be claimed again in that same moment, and once
      it heads the queue a second worker scans it beside the first. */
  lemma LossLetsASecondWorkerIn(c: Config, s: State, w: WorkerId, v: WorkerId)
    requires c.Valid() && Inv(c, s) && Enabled(c, s, LoseConnection(w)) && v !in s.scanning
    ensures var job, lost := s.open[w].job, Next(c, s, LoseConnection(w));
            && Claimable(c, lost, job)
            && (IsHead(c, lost, job) ==>
                  && Enabled(c, lost, Claim(v, job))
                  && var t := Next(c, lost, Claim(v, job)); Scans(t, w, job) && Scans(t, v, job) && w !in t.open)
  {
    var lost := Next(c, s, LoseConnection(w));
    assert forall u :: u in lost.open ==> u in s.open && lost.open[u] == s.open[u];
  }

  /** A lock is taken by the claim that starts a scan and never later. */
  lemma {:induction false} LockIsNotRegained(
    c: Config, states: seq<State>, actions: seq<Action>, i: nat, k: nat, worker: WorkerId, job: JobId)
    requires c.Valid() && IsRun(c, states, actions) && i <= k < |states|
    requires ScansThroughout(states, i, k, worker, job) && worker in states[k].open
    ensures worker in states[i].open
  {
    if i == k {
    } else {
      assert Scans(states[k - 1], worker, job) && Scans(states[k], worker, job);
      assert Enabled(c, states[k - 1], actions[k - 1]) && states[k] == Next(c, states[k - 1], actions[k - 1]);
      LockIsNotRegained(c, states, actions, i, k - 1, worker, job);
    }
  }

  predicate Commits(s: State, a: Action, worker: WorkerId) {
    a.Finish? && a.worker == worker && worker in s.open
  }

  /** Of all workers that scan a job at one moment, at most one commits that scan, whichever of them lost their
      connections. */
  lemma AtMostOneScanCommits(
    c: Config, states: seq<State>, actions: seq<Action>, i: nat, k: nat, m: nat, w: WorkerId, v: WorkerId, job: JobId)
    requires c.Valid() && IsRun(c, states, actions) && Inv(c, states[0])
    requires i <= k < |actions| && i <= m < |actions|
    requires ScansThroughout(states, i, k, w, job) && ScansThroughout(states, i, m, v, job)
    requires Commits(states[k], actions[k], w) && Commits(states[m], actions[m], v)
    ensures w == v
  {
    LockIsNotRegained(c, states, actions, i, k, w, job);
    LockIsNotRegained(c, states, actions, i, m, v, job);
    EveryRunKeepsInv(c, states, actions, i);
    assert Scans(states[i], w, job) && Scans(states[i], v, job);
  }

  // ----- the audit trail determines the row --------------------------------------------------------------------

  datatype Phase = Waiting | Done | Stopped(reason: TerminalReason)

  /** A job as a reader of the audit trail sees it; `settledAttempts` counts attempts since the last requeue. */
  datatype View = View(phase: Phase, attempts: nat, infrastructureAttempts: nat, settledAttempts: nat)

  function PhaseOf(row: Row): Phase
    requires row.status == Dead ==> row.terminalReason.Some?
  {
    if row.status == Completed then Done else if row.status == Dead then Stopped(row.terminalReason.value) else Waiting
  }

  function ApplyEvent(v: View, e: Event): View {
    match e
    case Attempted(_, _, failureClass, reclaimed) =>
      View(if failureClass.None? then Done else Waiting,
           v.attempts + ContentCharge(failureClass, reclaimed),
           v.infrastructureAttempts + InfrastructureCharge(failureClass),
           v.settledAttempts + 1)
    case RequiresAttention(_, reason) => v.(phase := Stopped(reason))
    case Requeued(_) => View(Waiting, 0, 0, 0)
  }

  function Replay(base: View, audit: seq<Event>, job: JobId): View {
    if audit == [] then base
    else
      var v := Replay(base, audit[..|audit| - 1], job);
      var e := audit[|audit| - 1];
      if e.job == job then ApplyEvent(v, e) else v
  }

  lemma ReplayOne(base: View, audit: seq<Event>, e: Event, job: JobId)
    ensures Replay(base, audit + [e], job)
         == if e.job == job then ApplyEvent(Replay(base, audit, job), e) else Replay(base, audit, job)
  {
    assert (audit + [e])[..|audit|] == audit;
  }

  predicate Agrees(c: Config, row: Row, v: View) {
    && RowConsistent(c, row)
    && v.phase == PhaseOf(row)
    && v.attempts == row.attempts
    && v.infrastructureAttempts == row.infrastructureAttempts
    && v.settledAttempts <=
         if IsTerminal(row) then c.infrastructureLimit + 2 else row.attempts + row.infrastructureAttempts
  }

  /** The view a run starts from: the rows already there, or a fresh job. */
  function BaseView(s: State, job: JobId): View
    requires forall j :: j in s.rows && s.rows[j].status == Dead ==> s.rows[j].terminalReason.Some?
  {
    if job in s.rows then View(PhaseOf(s.rows[job]), s.rows[job].attempts, s.rows[job].infrastructureAttempts, 0)
    else View(Waiting, 0, 0, 0)
  }

  ghost predicate AuditAgrees(c: Config, s: State, base: JobId -> View) {
    forall job :: if job in s.rows then Agrees(c, s.rows[job], Replay(base(job), s.audit, job))
                  else Replay(base(job), s.audit, job) == View(Waiting, 0, 0, 0)
  }

  lemma SettledAgrees(
    c: Config, row: Row, v: View, tx: Transaction, job: JobId, result: ScanResult, now: int, draw: real)
    requires c.Valid()
    requires Agrees(c, row, v) && !IsTerminal(row)
    ensures var settled := Settled(c, row, tx.reclaimed, result, now, draw);
            var after := ApplyEvent(v, Attempted(job, StatusOf(result), ClassOf(result), tx.reclaimed));
            Agrees(c, settled,
                   if settled.terminalReason.Some?
                   then ApplyEvent(after, RequiresAttention(job, settled.terminalReason.value)) else after)
  {
  }

  lemma StepKeepsAudit(c: Config, s: State, a: Action, base: JobId -> View)
    requires c.Valid()
    requires Inv(c, s) && AuditAgrees(c, s, base) && Enabled(c, s, a)
    ensures AuditAgrees(c, Next(c, s, a), base)
  {
    var t := Next(c, s, a);
    match a
    case Tick(_) =>
    case Arrive(_) =>
    case Claim(_, _) =>
    case Abort(_) =>
    case LoseConnection(_) =>
    case Finish(worker, result, draw) =>
      if worker !in s.open {
        return;
      }
      var tx := s.open[worker];
      var settled := t.rows[tx.job];
      var first := Attempted(tx.job, StatusOf(result), ClassOf(result), tx.reclaimed);
      forall job
        ensures if job in t.rows then Agrees(c, t.rows[job], Replay(base(job), t.audit, job))
                else Replay(base(job), t.audit, job) == View(Waiting, 0, 0, 0)
      {
        ReplayOne(base(job), s.audit, first, job);
        if settled.terminalReason.Some? {
          var second := RequiresAttention(tx.job, settled.terminalReason.value);
          assert t.audit == (s.audit + [first]) + [second];
          ReplayOne(base(job), s.audit + [first], second, job);
        } else {
          assert t.audit == s.audit + [first];
        }
        if job == tx.job {
          SettledAgrees(c, s.rows[job], Replay(base(job), s.audit, job), tx, job, result, s.clock, draw);
        }
      }
    case Requeue(requeued) =>
      forall job
        ensures if job in t.rows then Agrees(c, t.rows[job], Replay(base(job), t.audit, job))
                else Replay(base(job), t.audit, job) == View(Waiting, 0, 0, 0)
      {
        ReplayOne(base(job), s.audit, Requeued(requeued), job);
      }
  }

  lemma {:induction false} AuditInductive(
    c: Config, states: seq<State>, actions: seq<Action>, i: nat, base: JobId -> View)
    requires c.Valid()
    requires IsRun(c, states, actions) && Inv(c, states[0]) && AuditAgrees(c, states[0], base) && i < |states|
    ensures AuditAgrees(c, states[i], base)
  {
    if i == 0 {
    } else {
      var s, a := states[i - 1], actions[i - 1];
      AuditInductive(c, states, actions, i - 1, base);
      EveryRunKeepsInv(c, states, actions, i - 1);
      RunStep(c, states, actions, i - 1);
      StepKeepsAudit(c, s, a, base);
    }
  }

  /** Replaying the audit trail gives every job's phase, terminal reason and both counters, at every point of every
      run. So `attempts` is exactly the content failures plus the reclaims since the last requeue, an
      infrastructure failure never moves it, and a stop is never silent. */
  lemma AuditDeterminesRows(c: Config, states: seq<State>, actions: seq<Action>, i: nat, job: JobId)
    requires c.Valid()
    requires IsRun(c, states, actions) && Inv(c, states[0]) && states[0].audit == [] && i < |states|
    requires job in states[i].rows
    ensures var v := Replay(BaseView(states[0], job), states[i].audit, job);
            var row := states[i].rows[job];
            && (row.status == Dead ==> row.terminalReason.Some?) && v.phase == PhaseOf(row)
            && v.attempts == row.attempts && v.infrastructureAttempts == row.infrastructureAttempts
  {
    AuditInductive(c, states, actions, i, j => BaseView(states[0], j));
  }

  /** Retry termination: between two requeues a job settles at most `infrastructureLimit + 2` times, whatever mix
      of content failures, infrastructure failures and reclaims it meets. */
  lemma SettledAttemptsBounded(c: Config, states: seq<State>, actions: seq<Action>, i: nat, job: JobId)
    requires c.Valid()
    requires IsRun(c, states, actions) && Inv(c, states[0]) && states[0].audit == [] && i < |states|
    ensures Replay(BaseView(states[0], job), states[i].audit, job).settledAttempts <= c.infrastructureLimit + 2
  {
    AuditInductive(c, states, actions, i, j => BaseView(states[0], j));
  }

  const CONTENT_FAILURE := Threw(Some(IntegrityMismatch))
  const INFRASTRUCTURE_FAILURE := Threw(Some(ScannerUnavailable))

  /** A queue of one job that is due, after `n` attempts of which the first two failed on content and the others on
      infrastructure. */
  predicate DueAfter(c: Config, s: State, job: JobId, n: nat) {
    && s.rows.Keys == {job} && s.open == map[] && s.scanning == map[]
    && (s.rows[job].status == Pending || s.rows[job].status == Failed) && s.rows[job].availableAt <= s.clock
    && s.rows[job].attempts == Backoff.Min(n, 2) && s.rows[job].infrastructureAttempts == Backoff.Max(n - 2, 0)
    && Replay(View(Waiting, 0, 0, 0), s.audit, job).settledAttempts == n
  }

  function EmptyQueue(clock: int): State { State(map[], map[], map[], clock, []) }

  /** The next attempt of that series. */
  function NextFailure(n: nat): ScanResult { if n < 2 then CONTENT_FAILURE else INFRASTRUCTURE_FAILURE }

  /** The audit events of a settled attempt count as one. */
  lemma AttemptCountsOnce(base: View, audit: seq<Event>, job: JobId, tx: Transaction, result: ScanResult, settled: Row)
    ensures Replay(base, audit + AttemptEvents(job, tx, result, settled), job).settledAttempts
            == Replay(base, audit, job).settledAttempts + 1
  {
    var first := Attempted(job, StatusOf(result), ClassOf(result), tx.reclaimed);
    ReplayOne(base, audit, first, job);
    if settled.terminalReason.Some? {
      var second := RequiresAttention(job, settled.terminalReason.value);
      assert audit + AttemptEvents(job, tx, result, settled) == (audit + [first]) + [second];
      ReplayOne(base, audit + [first], second, job);
    } else {
      assert audit + AttemptEvents(job, tx, result, settled) == audit + [first];
    }
  }

  lemma NextFailureSettles(c: Config, row: Row, n: nat, now: int)
    requires c.Valid() && n <= c.infrastructureLimit + 1
    requires row.attempts == Backoff.Min(n, 2) && row.infrastructureAttempts == Backoff.Max(n - 2, 0)
    ensures var after := Settled(c, row, false, NextFailure(n), now, 0.5);
            && after.attempts == Backoff.Min(n + 1, 2) && after.infrastructureAttempts == Backoff.Max(n - 1, 0)
            && after.status == (if n <= c.infrastructureLimit then Failed else Dead)
            && after.availableAt <= now + c.maxDelayMs
  {
    Backoff.DelayStaysBounded(Backoff.Max(n - 1, 0), c.retryDelayMs, c.maxDelayMs, 0.5);
  }

  lemma OneMoreAttempt(c: Config, s: State, job: JobId, worker: WorkerId, n: nat)
    requires c.Valid() && DueAfter(c, s, job, n) && n <= c.infrastructureLimit + 1
    ensures Enabled(c, s, Claim(worker, job))
    ensures var claimed := Next(c, s, Claim(worker, job));
            && Enabled(c, claimed, Finish(worker, NextFailure(n), 0.5))
            && var done := Next(c, claimed, Finish(worker, NextFailure(n), 0.5));
            && Replay(View(Waiting, 0, 0, 0), done.audit, job).settledAttempts == n + 1
            && (n <= c.infrastructureLimit ==> DueAfter(c, Next(c, done, Tick(c.maxDelayMs)), job, n + 1))
            && (n == c.infrastructureLimit + 1 ==> job in done.rows && done.rows[job].status == Dead)
  {
    assert !s.Locked(job);
    var row, tx := s.rows[job], Transaction(job, false);
    var claimed := Next(c, s, Claim(worker, job));
    assert claimed == s.(open := map[worker := tx], scanning := map[worker := job]);
    NextFailureSettles(c, row, n, s.clock);
    var settled := Settled(c, row, false, NextFailure(n), s.clock, 0.5);
    AttemptCountsOnce(View(Waiting, 0, 0, 0), s.audit, job, tx, NextFailure(n), settled);
    var done := Next(c, claimed, Finish(worker, NextFailure(n), 0.5));
    assert done.rows == s.rows[job := settled] && done.open == map[] && done.scanning == map[];
  }

  lemma RunsOn(c: Config, states: seq<State>, actions: seq<Action>, a: Action)
    requires IsRun(c, states, actions) && Enabled(c, states[|actions|], a)
    ensures IsRun(c, states + [Next(c, states[|actions|], a)], actions + [a])
  {
  }

  lemma {:induction false} SeriesRun(c: Config, job: JobId, worker: WorkerId, n: nat)
    returns (states: seq<State>, actions: seq<Action>)
    requires c.Valid() && n <= c.infrastructureLimit + 1
    ensures IsRun(c, states, actions) && states[0] == EmptyQueue(0)
    ensures DueAfter(c, states[|actions|], job, n)
  {
    if n == 0 {
      var s := EmptyQueue(0);
      actions := [Arrive(job)];
      states := [s, Next(c, s, Arrive(job))];
    } else {
      var before, taken := SeriesRun(c, job, worker, n - 1);
      var s := before[|taken|];
      OneMoreAttempt(c, s, job, worker, n - 1);
      var claimed := Next(c, s, Claim(worker, job));
      var done := Next(c, claimed, Finish(worker, NextFailure(n - 1), 0.5));
      RunsOn(c, before, taken, Claim(worker, job));
      RunsOn(c, before + [claimed], taken + [Claim(worker, job)], Finish(worker, NextFailure(n - 1), 0.5));
      states := before + [claimed] + [done];
      actions := taken + [Claim(worker, job)] + [Finish(worker, NextFailure(n - 1), 0.5)];
      RunsOn(c, states, actions, Tick(c.maxDelayMs));
      states, actions := states + [Next(c, done, Tick(c.maxDelayMs))], actions + [Tick(c.maxDelayMs)];
    }
  }

  /** The bound is tight, in a run of one worker from an empty queue: the job arrives, settles exactly
      `infrastructureLimit + 2` attempts and stops at the last of them. */
  lemma BoundIsReached(c: Config, job: JobId, worker: WorkerId) returns (states: seq<State>, actions: seq<Action>)
    requires c.Valid()
    ensures IsRun(c, states, actions) && states[0] == EmptyQueue(0)
    ensures var last := states[|actions|];
            && Replay(View(Waiting, 0, 0, 0), last.audit, job).settledAttempts == c.infrastructureLimit + 2
            && job in last.rows && last.rows[job].status == Dead
  {
    var n := c.infrastructureLimit + 1;
    states, actions := SeriesRun(c, job, worker, n);
    var s := states[|actions|];
    OneMoreAttempt(c, s, job, worker, n);
    RunsOn(c, states, actions, Claim(worker, job));
    states, actions := states + [Next(c, s, Claim(worker, job))], actions + [Claim(worker, job)];
    var claimed := states[|actions|];
    RunsOn(c, states, actions, Finish(worker, NextFailure(n), 0.5));
    states := states + [Next(c, claimed, Finish(worker, NextFailure(n), 0.5))];
    actions := actions + [Finish(worker, NextFailure(n), 0.5)];
  }

  // ----- what one attempt costs, as the document tabulates it ----------------------------------------------------

  /** The errors that an evidence file has to answer for. Everything else that is thrown, known or not, is the
      infrastructure's. */
  predicate BlamesTheFile(result: ScanResult) {
    || result == Threw(Some(IntegrityMismatch)) || result == Threw(Some(SizeExceeded))
    || result == Threw(Some(StoragePathInvalid))
  }

  /** The table of budgets, error by error. An infrastructure failure leaves the item's budget alone and waits out an
      exponential backoff; a failure of the file spends one item attempt and waits the fixed delay; a verdict spends
      nothing; and a reclaim costs one item attempt on top, whatever comes of it. */
  lemma BudgetsAreSeparate(c: Config, row: Row, reclaimed: bool, result: ScanResult, now: int, draw: real)
    requires c.Valid() && RowConsistent(c, row) && !IsTerminal(row) && 0.0 <= draw <= 1.0
    ensures var after := Settled(c, row, reclaimed, result, now, draw);
            var attempts := row.attempts + if reclaimed then 1 else 0;
            if result.Verdict? then
              && after.status == Completed
              && (after.attempts, after.infrastructureAttempts) == (attempts, row.infrastructureAttempts)
            else if BlamesTheFile(result) then
              && (after.attempts, after.infrastructureAttempts) == (attempts + 1, row.infrastructureAttempts)
              && after.availableAt == now + c.retryDelayMs
              && (after.status == Dead <==> after.attempts >= 3) && (after.status == Failed <==> after.attempts < 3)
            else
              && (after.attempts, after.infrastructureAttempts) == (attempts, row.infrastructureAttempts + 1)
              && after.availableAt == now + InfrastructureDelay(c, row.infrastructureAttempts + 1, draw)
              && now < now + c.retryDelayMs <= after.availableAt <= now + c.maxDelayMs
              && (after.status == Dead <==> attempts >= 3 || after.infrastructureAttempts >= c.infrastructureLimit)
              && (after.status == Failed <==> attempts < 3 && after.infrastructureAttempts < c.infrastructureLimit)
  {
    ClassByError(result);
    if ClassOf(result) == Some(Infrastructure) {
      Backoff.DelayStaysBounded(row.infrastructureAttempts + 1, c.retryDelayMs, c.maxDelayMs, draw);
    }
  }

  /** The wait after the n-th infrastructure failure since the job arrived or was requeued. */
  function InfrastructureDelay(c: Config, failures: nat, draw: real): int {
    Backoff.RetryBackoffMs(failures, c.retryDelayMs, c.maxDelayMs, draw)
  }

  lemma ClassByError(result: ScanResult)
    ensures ClassOf(result) == if result.Verdict? then None
                               else if BlamesTheFile(result) then Some(Content) else Some(Infrastructure)
  {}

  /** Every committed retry is put off past the moment it is committed. */
  lemma RetryIsLater(c: Config, row: Row, reclaimed: bool, result: ScanResult, now: int, draw: real)
    requires c.Valid()
    ensures Settled(c, row, reclaimed, result, now, draw).availableAt > now
  {
    var charged := row.infrastructureAttempts + InfrastructureCharge(ClassOf(result));
    Backoff.DelayStaysBounded(charged, c.retryDelayMs, c.maxDelayMs, draw);
  }

  // ----- crashes, leases and rows nothing can reach -------------------------------------------------------------

  /** A claim followed by a rollback leaves no trace at all. */
  lemma AbortedClaimLeavesNoTrace(c: Config, s: State, worker: WorkerId, job: JobId)
    requires Enabled(c, s, Claim(worker, job))
    ensures var claimed := Next(c, s, Claim(worker, job));
            Enabled(c, claimed, Abort(worker)) && Next(c, claimed, Abort(worker)) == s
  {
    var claimed := Next(c, s, Claim(worker, job));
    assert claimed.open - {worker} == s.open && claimed.scanning - {worker} == s.scanning;
  }

  function CrashLoopStates(c: Config, s: State, worker: WorkerId, job: JobId, n: nat): (states: seq<State>)
    requires Enabled(c, s, Claim(worker, job))
    ensures |states| == 2 * n + 1
  {
    var claimed := Next(c, s, Claim(worker, job));
    seq(2 * n + 1, i => if i % 2 == 0 then s else claimed)
  }

  function CrashLoopActions(worker: WorkerId, job: JobId, n: nat): (actions: seq<Action>)
    ensures |actions| == 2 * n
  {
    seq(2 * n, i => if i % 2 == 0 then Claim(worker, job) else Abort(worker))
  }

  /** So a crash is charged to nobody, and nothing bounds the number of times one job can be claimed and crash its
      worker: for every n there is a run with n claims of the job that ends where it began. The document says a
      reclaim bounds this loop; it cannot, because a rollback leaves no `running` row to reclaim. */
  lemma CrashLoopIsUnbounded(c: Config, s: State, worker: WorkerId, job: JobId, n: nat)
    requires Enabled(c, s, Claim(worker, job))
    ensures IsRun(c, CrashLoopStates(c, s, worker, job, n), CrashLoopActions(worker, job, n))
    ensures CrashLoopStates(c, s, worker, job, n)[2 * n] == s
  {
    AbortedClaimLeavesNoTrace(c, s, worker, job);
  }

  /** No run ever commits a `running` row: one that is there was there at the start and has not changed. The lease
      therefore only ever reaches rows left behind by something other than this queue. */
  lemma {:induction false} RunningRowsAreOld(c: Config, states: seq<State>, actions: seq<Action>, i: nat, job: JobId)
    requires IsRun(c, states, actions) && i < |states|
    requires job in states[i].rows && states[i].rows[job].status == Running
    ensures job in states[0].rows && states[0].rows[job] == states[i].rows[job]
  {
    if i == 0 {
    } else {
      var s, a := states[i - 1], actions[i - 1];
      assert states[i] == Next(c, s, a);
      assert job in s.rows && s.rows[job] == states[i].rows[job];
      RunningRowsAreOld(c, states, actions, i - 1, job);
    }
  }

  predicate Stranded(c: Config, row: Row) {
    !IsTerminal(row) && !WithinBudgets(c, row)
  }

  /** A waiting row can be claimed at some moment exactly when it is not stranded. */
  lemma WaitingRowsAreEventuallyEligible(c: Config, row: Row)
    requires !IsTerminal(row)
    ensures (exists now :: Eligible(c, row, now)) <==> !Stranded(c, row)
  {
    if WithinBudgets(c, row) {
      assert Eligible(c, row, Backoff.Max(row.availableAt, row.updatedAt + c.leaseMs + 1));
    }
  }

  /** A stranded row is never claimed, completed, failed, killed or requeued again: no step of any run changes it.
      The invariant keeps every run from creating one, but a run may start with one, as the next lemma shows. */
  lemma {:induction false} StrandedForever(c: Config, states: seq<State>, actions: seq<Action>, i: nat, job: JobId)
    requires IsRun(c, states, actions) && i < |states|
    requires job in states[0].rows && Stranded(c, states[0].rows[job]) && !states[0].Locked(job)
    ensures job in states[i].rows && states[i].rows[job] == states[0].rows[job] && !states[i].Locked(job)
    ensures i < |actions| ==> forall w :: actions[i] != Claim(w, job)
    ensures i < |actions| ==> actions[i] != Requeue(job)
  {
    if i == 0 {
    } else {
      StrandedForever(c, states, actions, i - 1, job);
      var s, a := states[i - 1], actions[i - 1];
      assert Enabled(c, s, a) && states[i] == Next(c, s, a);
      assert forall w :: w in states[i].open && w in s.open ==> states[i].open[w] == s.open[w] || a.Claim?;
    }
  }

  /** Changing the configured limit under a waiting row strands it exactly when the row has already spent the new
      limit: the row was consistent under the old configuration, is not dead, and nothing will ever say so. */
  lemma LoweredLimitStrands(before: Config, after: Config, row: Row)
    requires RowConsistent(before, row) && !IsTerminal(row)
    ensures Stranded(after, row) <==> row.infrastructureAttempts >= after.infrastructureLimit
  {
  }

  /** Requeueing restores both budgets and the job can be claimed at once. */
  lemma RequeueMakesClaimable(c: Config, s: State, job: JobId)
    requires c.Valid() && Enabled(c, s, Requeue(job))
    ensures Claimable(c, Next(c, s, Requeue(job)), job)
    ensures var row := Next(c, s, Requeue(job)).rows[job];
            row.attempts == 0 && row.infrastructureAttempts == 0 && RowConsistent(c, row)
  {
    assert Next(c, s, Requeue(job)).open == s.open;
  }

  /** If any job is claimable, some job heads the queue. */
  lemma HeadExists(c: Config, s: State, candidates: set<JobId>, job: JobId) returns (head: JobId)
    requires job in candidates
    requires forall j :: j in candidates ==> j in s.rows
    ensures head in candidates
    ensures forall other :: other in candidates ==> !Before(s.rows[other], s.rows[head])
    decreases |candidates|
  {
    if other :| other in candidates && Before(s.rows[other], s.rows[job]) {
      head := HeadExists(c, s, candidates - {job}, other);
    } else {
      head := job;
    }
  }
}
