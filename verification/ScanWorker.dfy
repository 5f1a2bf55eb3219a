/** The queue as the worker and the API change it: fields that each operation assigns, tied to the step system. */
module ScanWorker {
  import opened Options
  import opened FailureCodes
  import opened ScanQueue
  import Backoff

  /** Who calls; a part that is missing is empty. */
  datatype Caller = Caller(role: string, tenantId: string, actorId: string)

  predicate IsWorker(caller: Option<Caller>) {
    && caller.Some? && caller.value.role == "worker" && caller.value.tenantId != "" && caller.value.actorId != ""
  }

  datatype ClaimOutcome =
    | AuthorizationRefused
    | ScannerMissing
    | ConfigurationRefused
    | NothingDue
    | Claimed(job: JobId)

  /** What a finished call reports, or that its connection was gone and it threw. */
  datatype AttemptOutcome =
    | ConnectionGone
    | Reported(
        job: JobId,
        scanStatus: ScanStatus,
        errorCode: Option<Code>,
        jobStatus: Status,
        attempt: nat,
        failureClass: Option<FailureClass>,
        infrastructureAttempts: nat,
        terminalReason: Option<TerminalReason>,
        requiresAttention: bool,
        reclaimed: bool,
        availableInMs: Option<int>)

  datatype RequeueOutcome = NotFound | ScanJobNotDead | RequeuedPending

  /** What the scan came to, as `catch` sees it. */
  method ReadResult(result: ScanResult)
    returns (scanStatus: ScanStatus, errorCode: Option<Code>, failureClass: Option<FailureClass>)
    ensures scanStatus == StatusOf(result) && failureClass == ClassOf(result)
    ensures errorCode == if result.Verdict? then None else Some(ScanFailureCode(result.error))
  {
    errorCode := None;
    match result {
      case Verdict(infected) =>
        scanStatus := if infected then Infected else Clean;
      case Threw(error) =>
        errorCode := Some(ScanFailureCode(error));
        scanStatus := if errorCode == Some(ScanTimeout) then TimedOut else Errored;
    }
    var completed := scanStatus == Clean || scanStatus == Infected;
    failureClass := if completed then None else Some(ClassifyFailure(errorCode.value));
  }

  /** Charge the budgets and judge exhaustion against both. */
  method Judge(config: Config, row: Row, reclaimed: bool, failureClass: Option<FailureClass>)
    returns (attempts: nat, infrastructureAttempts: nat, status: Status, reason: Option<TerminalReason>)
    ensures attempts == row.attempts + ContentCharge(failureClass, reclaimed)
    ensures infrastructureAttempts == row.infrastructureAttempts + InfrastructureCharge(failureClass)
    ensures status == Completed <==> failureClass.None?
    ensures status == Failed <==>
            failureClass.Some? && attempts < ATTEMPTS_LIMIT && infrastructureAttempts < config.infrastructureLimit
    ensures status == Completed || status == Failed || status == Dead
    ensures reason == if status != Dead then None
                      else if attempts >= ATTEMPTS_LIMIT then Some(ContentAttemptsExhausted)
                      else Some(InfrastructureAttemptsExhausted)
  {
    var attempt := row.attempts + if reclaimed then 1 else 0;
    var completed, infrastructure := failureClass.None?, failureClass == Some(Infrastructure);
    assert !completed && !infrastructure ==> failureClass.value == Content;
    attempts := if completed || infrastructure then attempt else attempt + 1;
    infrastructureAttempts := row.infrastructureAttempts + if infrastructure then 1 else 0;
    var contentExhausted := attempts >= ATTEMPTS_LIMIT;
    var infrastructureExhausted := infrastructureAttempts >= config.infrastructureLimit;
    var exhausted := contentExhausted || infrastructureExhausted;
    status := if completed then Completed else if exhausted then Dead else Failed;
    reason :=
      if status != Dead then None
      else if contentExhausted then Some(ContentAttemptsExhausted) else Some(InfrastructureAttemptsExhausted);
  }

  /** The body of one attempt after the scan: classify the outcome, charge the budgets, judge exhaustion against
      both, defer. */
  method SettleRow(config: Config, row: Row, reclaimed: bool, result: ScanResult, now: int, draw: real)
    returns (settled: Row)
    ensures settled == Settled(config, row, reclaimed, result, now, draw)
  {
    var scanStatus, errorCode, failureClass := ReadResult(result);
    var attempts, infrastructureAttempts, status, reason := Judge(config, row, reclaimed, failureClass);
    var delay :=
      if failureClass == Some(Infrastructure)
      then Backoff.RetryBackoffMs(infrastructureAttempts, config.retryDelayMs, config.maxDelayMs, draw)
      else config.retryDelayMs;
    settled := row.(
      status := status, scanStatus := scanStatus, attempts := attempts,
      infrastructureAttempts := infrastructureAttempts, lastErrorCode := errorCode, lastFailureClass := failureClass,
      availableAt := now + delay, updatedAt := now, terminalReason := reason,
      terminalAt := if status == Dead then Some(now) else None);
  }

  /** The fields of a settled row that the audit events and the report are made of. */
  lemma SettledShape(config: Config, row: Row, reclaimed: bool, result: ScanResult, now: int, draw: real)
    ensures var settled := Settled(config, row, reclaimed, result, now, draw);
            && settled.scanStatus == StatusOf(result) && settled.lastFailureClass == ClassOf(result)
            && (settled.status == Dead <==> settled.terminalReason.Some?)
  {}

  /** What a call returns about the row it committed. */
  function Report(tx: Transaction, row: Row, now: int): AttemptOutcome {
    Reported(
      tx.job, row.scanStatus, row.lastErrorCode, row.status, row.attempts, row.lastFailureClass,
      row.infrastructureAttempts, row.terminalReason, row.status == Dead, tx.reclaimed,
      if row.status == Completed then None else Some(row.availableAt - now))
  }

  /** The audit events of a settled attempt, as the worker appends them. */
  method AttemptAudit(tx: Transaction, result: ScanResult, settled: Row) returns (events: seq<Event>)
    requires settled.scanStatus == StatusOf(result) && settled.lastFailureClass == ClassOf(result)
    requires settled.status == Dead <==> settled.terminalReason.Some?
    ensures events == AttemptEvents(tx.job, tx, result, settled)
  {
    events := [Attempted(tx.job, settled.scanStatus, settled.lastFailureClass, tx.reclaimed)];
    if settled.status == Dead {
      events := events + [RequiresAttention(tx.job, settled.terminalReason.value)];
    }
  }

  class ScanQueueTable {
    const config: Config
    var rows: map<JobId, Row>
    var open: map<WorkerId, Transaction>
    var scanning: map<WorkerId, JobId>
    var clock: int
    var audit: seq<Event>

    ghost function Snapshot(): State
      reads this
    {
      State(rows, open, scanning, clock, audit)
    }

    ghost predicate Valid()
      reads this
    {
      Inv(config, Snapshot())
    }

    constructor (config: Config, clock: int)
      ensures Valid() && this.config == config && Snapshot() == EmptyQueue(clock)
    {
      this.config := config;
      this.clock := clock;
      rows, open, scanning, audit := map[], map[], map[], [];
    }

    /** The first half of `processNextScanJob`: check the caller and the settings, select, lock. */
    method ClaimNext(caller: Option<Caller>, hasScanner: bool, worker: WorkerId) returns (outcome: ClaimOutcome)
      requires Valid() && worker !in open && worker !in scanning
      modifies this
      ensures Valid()
      ensures outcome == AuthorizationRefused <==> !IsWorker(caller)
      ensures outcome == ScannerMissing <==> IsWorker(caller) && !hasScanner
      ensures outcome == ConfigurationRefused <==> IsWorker(caller) && hasScanner && !config.Valid()
      ensures outcome == NothingDue <==>
              IsWorker(caller) && hasScanner && config.Valid() && forall job :: !Claimable(config, old(Snapshot()), job)
      ensures match outcome
              case Claimed(job) =>
                Enabled(config, old(Snapshot()), Claim(worker, job))
                && Snapshot() == Next(config, old(Snapshot()), Claim(worker, job))
              case _ => Snapshot() == old(Snapshot())
    {
      if !IsWorker(caller) {
        return AuthorizationRefused;
      }
      if !hasScanner {
        return ScannerMissing;
      }
      if !config.Valid() {
        return ConfigurationRefused;
      }
      var state := State(rows, open, scanning, clock, audit);
      var candidates := set job | job in rows && Claimable(config, state, job);
      assert forall job :: Claimable(config, state, job) ==> job in candidates;
      if candidates == {} {
        return NothingDue;
      }
      ghost var some :| some in candidates;
      ghost var first := HeadExists(config, state, candidates, some);
      assert IsHead(config, state, first);
      var job :| job in rows && IsHead(config, state, job);
      StepKeepsInv(config, state, Claim(worker, job));
      open := open[worker := Transaction(job, rows[job].status == Running)];
      scanning := scanning[worker := job];
      return Claimed(job);
    }

    /** The second half: settle the row, write it back with the file's status and its audit events, release the lock.
        Without its connection the call throws and writes nothing. */
    method FinishAttempt(worker: WorkerId, result: ScanResult, draw: real) returns (outcome: AttemptOutcome)
      requires Valid() && config.Valid() && worker in scanning && 0.0 <= draw <= 1.0
      modifies this
      ensures Valid()
      ensures Snapshot() == Next(config, old(Snapshot()), Finish(worker, result, draw))
      ensures outcome.ConnectionGone? <==> worker !in old(open)
      ensures outcome.ConnectionGone? ==> rows == old(rows) && audit == old(audit)
      ensures outcome.Reported? ==>
                && old(open[worker]).job in rows
                && outcome == Report(old(open[worker]), rows[old(open[worker]).job], clock)
    {
      StepKeepsInv(config, State(rows, open, scanning, clock, audit), Finish(worker, result, draw));
      scanning := scanning - {worker};
      if worker !in open {
        assert open - {worker} == open;
        return ConnectionGone;
      }
      var tx := open[worker];
      SettledShape(config, rows[tx.job], tx.reclaimed, result, clock, draw);
      var settled := SettleRow(config, rows[tx.job], tx.reclaimed, result, clock, draw);
      rows := rows[tx.job := settled];
      var events := AttemptAudit(tx, result, settled);
      audit := audit + events;
      open := open - {worker};
      outcome := Report(tx, settled, clock);
    }

    /** The rollback that follows a thrown error or the death of the worker. */
    method Rollback(worker: WorkerId)
      requires Valid() && config.Valid() && worker in scanning
      modifies this
      ensures Valid()
      ensures Snapshot() == Next(config, old(Snapshot()), Abort(worker))
      ensures rows == old(rows) && audit == old(audit)
    {
      open := open - {worker};
      scanning := scanning - {worker};
    }

    /** The first statement of `requeueDeadScanJob`: 404 for an unknown job, 409 for one that is not dead. */
    method FindDead(job: JobId) returns (refusal: Option<RequeueOutcome>)
      ensures refusal == Some(NotFound) <==> job !in rows
      ensures refusal == Some(ScanJobNotDead) <==> job in rows && rows[job].status != Dead
      ensures refusal.None? <==> job in rows && rows[job].status == Dead
    {
      if job !in rows {
        return Some(NotFound);
      }
      refusal := if rows[job].status != Dead then Some(ScanJobNotDead) else None;
    }

    /** The second, which checks again under a lock: a requeue that lost the race against another is refused too. */
    method RequeueFound(job: JobId) returns (outcome: RequeueOutcome)
      requires Valid() && config.Valid() && job in rows
      modifies this
      ensures Valid()
      ensures outcome == RequeuedPending <==> Enabled(config, old(Snapshot()), Requeue(job))
      ensures outcome == ScanJobNotDead <==> old(rows[job]).status != Dead
      ensures Snapshot() == if outcome == RequeuedPending then Next(config, old(Snapshot()), Requeue(job))
                            else old(Snapshot())
    {
      if rows[job].status != Dead {
        return ScanJobNotDead;
      }
      StepKeepsInv(config, State(rows, open, scanning, clock, audit), Requeue(job));
      var row := rows[job];
      rows := rows[job := row.(
        status := Pending, scanStatus := Unscanned, attempts := 0, infrastructureAttempts := 0, lastErrorCode := None,
        lastFailureClass := None, terminalReason := None, terminalAt := None,
        availableAt := clock, updatedAt := clock)];
      audit := audit + [Requeued(job)];
      return RequeuedPending;
    }
  }
}
