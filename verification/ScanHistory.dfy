/** What a run of the queue has done to one job: the last thing that settled its row, and when it may be claimed. */
module ScanHistory {
  import opened Options
  import opened FailureCodes
  import opened ScanQueue

  // ----- the last thing that settled a row -----------------------------------------------------------------------

  /** A scan of the job is committed. */
  predicate Commits(s: State, a: Action, job: JobId) {
    a.Finish? && a.worker in s.open && s.open[a.worker].job == job
  }

  /** The job starts anew. */
  predicate Renews(a: Action, job: JobId) { a == Arrive(job) || a == Requeue(job) }

  predicate Settles(s: State, a: Action, job: JobId) { Commits(s, a, job) || Renews(a, job) }

  ghost predicate Unsettled(states: seq<State>, actions: seq<Action>, from: nat, to: nat, job: JobId)
    requires to <= |actions| <= |states|
  {
    forall j :: from <= j < to ==> !Settles(states[j], actions[j], job)
  }

  /** Step i is the last of the first n steps that settled the job's row. */
  ghost predicate IsLatest(states: seq<State>, actions: seq<Action>, n: nat, i: nat, job: JobId)
    requires n <= |actions| <= |states|
  {
    i < n && Settles(states[i], actions[i], job) && Unsettled(states, actions, i + 1, n, job)
  }

  lemma {:induction false} RowSince(c: Config, states: seq<State>, actions: seq<Action>, i: nat, n: nat, job: JobId)
    requires IsRun(c, states, actions) && i <= n <= |actions|
    requires job in states[i].rows && Unsettled(states, actions, i, n, job)
    ensures job in states[n].rows && states[n].rows[job] == states[i].rows[job]
    decreases n
  {
    if i == n {
    } else {
      RowSince(c, states, actions, i, n - 1, job);
      RunStep(c, states, actions, n - 1);
    }
  }

  lemma {:induction false} LatestExists(c: Config, states: seq<State>, actions: seq<Action>, n: nat, job: JobId)
    returns (i: nat)
    requires IsRun(c, states, actions) && states[0].rows == map[] && n <= |actions| && job in states[n].rows
    ensures IsLatest(states, actions, n, i, job)
    decreases n
  {
    assert n > 0;
    RunStep(c, states, actions, n - 1);
    if Settles(states[n - 1], actions[n - 1], job) {
      i := n - 1;
    } else {
      i := LatestExists(c, states, actions, n - 1, job);
    }
  }

  lemma LatestIsUnique(states: seq<State>, actions: seq<Action>, n: nat, i: nat, k: nat, job: JobId)
    requires n <= |actions| <= |states|
    requires IsLatest(states, actions, n, i, job) && IsLatest(states, actions, n, k, job)
    ensures i == k
  {}

  // ----- what a row says about it --------------------------------------------------------------------------------

  /** The codes an attempt may be recorded with. */
  predicate IsRecordable(code: Code) {
    || code == ScannerUnavailable || code == ScannerMalformedResponse || code == ScanTimeout
    || code == StorageUnavailable || code == IntegrityMismatch || code == SizeExceeded || code == StoragePathInvalid
  }

  /** The file's status and the error, class and code, that a committed result leaves. */
  predicate States(result: ScanResult, status: ScanStatus, code: Option<Code>, failureClass: Option<FailureClass>) {
    match result
    case Verdict(infected) =>
      status == (if infected then Infected else Clean) && code == None && failureClass == None
    case Threw(error) =>
      && status == (if error == Some(ScanTimeout) then TimedOut else Errored)
      && code == (if error.Some? && IsRecordable(error.value) then error else Some(ScannerUnavailable))
      && failureClass == Some(if BlamesTheFile(result) then Content else Infrastructure)
  }

  /** The row right after a commit: what the result says, and the present moment. */
  lemma CommitIsStated(c: Config, s: State, a: Action, job: JobId)
    requires Inv(c, s) && Enabled(c, s, a) && Commits(s, a, job)
    ensures var t := Next(c, s, a);
      && job in t.rows
      && var row := t.rows[job];
      && States(a.result, row.scanStatus, row.lastErrorCode, row.lastFailureClass)
      && row.updatedAt == s.clock && row.createdAt == s.rows[job].createdAt
      && row.terminalAt == (if row.status == Dead then Some(s.clock) else None)
      && row.terminalReason == (if row.status != Dead then None
                                else if row.attempts >= 3 then Some(ContentAttemptsExhausted)
                                else Some(InfrastructureAttemptsExhausted))
  {}

  /** The audit trail of a commit: one event that says the same of the attempt, and whether the row had been left
      running; and one more exactly when the job is dead, with the row's own reason. */
  lemma AuditStatesTheCommit(c: Config, s: State, a: Action, job: JobId)
    requires Inv(c, s) && Enabled(c, s, a) && Commits(s, a, job)
    ensures var t := Next(c, s, a);
      && job in t.rows
      && var row := t.rows[job];
      && (row.status == Dead <==> row.terminalReason.Some?)
      && t.audit == s.audit
                    + [Attempted(job, row.scanStatus, row.lastFailureClass, s.rows[job].status == Running)]
                    + (if row.status == Dead then [RequiresAttention(job, row.terminalReason.value)] else [])
  {
    SettledIsConsistent(c, s.rows[job], s.open[a.worker].reclaimed, a.result, s.clock, a.draw);
  }

  /** A row that starts anew: nothing scanned, nothing spent, nothing failed, due at once. */
  lemma RenewalIsStated(c: Config, s: State, a: Action, job: JobId)
    requires Enabled(c, s, a) && Renews(a, job)
    ensures var t := Next(c, s, a);
      && job in t.rows
      && var row := t.rows[job];
      && row.status == Pending && row.scanStatus == Unscanned && row.attempts == row.infrastructureAttempts == 0
      && row.lastErrorCode == None && row.lastFailureClass == None && row.terminalReason == None
      && row.terminalAt == None && row.availableAt == row.updatedAt == s.clock
      && (a.Arrive? ==> row.createdAt == s.clock)
  {}

  /** In every run from an empty queue a job's row says what its last commit came to, or, if it has arrived or was
      requeued since, that nothing has been scanned. */
  lemma RowStatesItsLastCommit(c: Config, states: seq<State>, actions: seq<Action>, n: nat, job: JobId) returns (i: nat)
    requires c.Valid() && IsRun(c, states, actions) && states[0].rows == map[] && Inv(c, states[0])
    requires n <= |actions| && job in states[n].rows
    ensures IsLatest(states, actions, n, i, job)
    ensures var row := states[n].rows[job];
      if Renews(actions[i], job)
      then && row.status == Pending && row.scanStatus == Unscanned
           && row.lastErrorCode == None && row.lastFailureClass == None
      else && Commits(states[i], actions[i], job)
           && States(actions[i].result, row.scanStatus, row.lastErrorCode, row.lastFailureClass)
           && row.updatedAt == states[i].clock
           && row.terminalAt == (if row.status == Dead then Some(states[i].clock) else None)
           && row.terminalReason == (if row.status != Dead then None
                                     else if row.attempts >= 3 then Some(ContentAttemptsExhausted)
                                     else Some(InfrastructureAttemptsExhausted))
  {
    i := LatestExists(c, states, actions, n, job);
    RunStep(c, states, actions, i);
    EveryRunKeepsInv(c, states, actions, i);
    if Renews(actions[i], job) {
      RenewalIsStated(c, states[i], actions[i], job);
    } else {
      CommitIsStated(c, states[i], actions[i], job);
    }
    RowSince(c, states, actions, i + 1, n, job);
  }

  /** The last settling step of the job committed this result. */
  ghost predicate LastCommitted(states: seq<State>, actions: seq<Action>, n: nat, job: JobId, result: ScanResult)
    requires n <= |actions| <= |states|
  {
    exists i: nat :: IsLatest(states, actions, n, i, job) && Commits(states[i], actions[i], job)
                     && actions[i].result == result
  }

  /** So a file reads infected, or clean, exactly when that is the last verdict committed since its job arrived or was
      requeued; timed out exactly when that scan timed out; and unscanned exactly when none was committed. */
  lemma FileReadsItsLastVerdict(c: Config, states: seq<State>, actions: seq<Action>, n: nat, job: JobId)
    requires c.Valid() && IsRun(c, states, actions) && states[0].rows == map[] && Inv(c, states[0])
    requires n <= |actions| && job in states[n].rows
    ensures var status := states[n].rows[job].scanStatus;
      && (status == Infected <==> LastCommitted(states, actions, n, job, Verdict(true)))
      && (status == Clean <==> LastCommitted(states, actions, n, job, Verdict(false)))
      && (status == TimedOut <==> LastCommitted(states, actions, n, job, Threw(Some(ScanTimeout))))
      && (status == Errored <==> exists error :: error != Some(ScanTimeout)
                                                 && LastCommitted(states, actions, n, job, Threw(error)))
      && (status == Unscanned <==> forall result :: !LastCommitted(states, actions, n, job, result))
  {
    var i := RowStatesItsLastCommit(c, states, actions, n, job);
    forall result ensures LastCommitted(states, actions, n, job, result) <==>
                          !Renews(actions[i], job) && actions[i].result == result
    {
      if LastCommitted(states, actions, n, job, result) {
        var k: nat :| IsLatest(states, actions, n, k, job) && Commits(states[k], actions[k], job)
                      && actions[k].result == result;
        LatestIsUnique(states, actions, n, i, k, job);
      }
    }
  }

  // ----- when a job may be claimed -------------------------------------------------------------------------------

  /** A job that nobody holds can be claimed: when it is due, if it waits; when its lease is over, if it was left
      running; and never, if it is done or dead. */
  lemma ClaimableExactly(c: Config, s: State, job: JobId)
    requires job in s.rows && RowConsistent(c, s.rows[job]) && !s.Locked(job)
    ensures var row := s.rows[job];
      Claimable(c, s, job) <==>
      match row.status
      case Pending => row.availableAt <= s.clock
      case Failed => row.availableAt <= s.clock
      case Running => s.clock - row.updatedAt > c.leaseMs
      case Completed => false
      case Dead => false
  {}

  /** A claim takes nobody's turn: no job that could be claimed was due earlier, or as early and created before. */
  lemma ClaimTakesTheEarliest(c: Config, s: State, worker: WorkerId, job: JobId, other: JobId)
    requires Enabled(c, s, Claim(worker, job)) && Claimable(c, s, other)
    ensures var row, rival := s.rows[job], s.rows[other];
      row.availableAt < rival.availableAt
      || (row.availableAt == rival.availableAt && row.createdAt <= rival.createdAt)
  {}

  /** From the step after a commit on, as long as nobody claims or requeues the job, it is free and its row stays. */
  lemma {:induction false} FreeSinceCommit(
    c: Config, states: seq<State>, actions: seq<Action>, i: nat, k: nat, job: JobId)
    requires c.Valid() && IsRun(c, states, actions) && Inv(c, states[0]) && i < k <= |actions|
    requires Commits(states[i], actions[i], job) && LeftAlone(actions, i + 1, k, job)
    ensures job in states[k].rows && !states[k].Locked(job) && states[k].rows[job] == states[i + 1].rows[job]
    decreases k
  {
    if k == i + 1 {
      EveryRunKeepsInv(c, states, actions, i);
      RunStep(c, states, actions, i);
    } else {
      FreeSinceCommit(c, states, actions, i, k - 1, job);
      RunStep(c, states, actions, k - 1);
      assert forall w :: w in states[k].open && w in states[k - 1].open ==> states[k].open[w] == states[k - 1].open[w];
    }
  }

  predicate RetryFollows(s: State, job: JobId) { job in s.rows && s.rows[job].status == Failed }

  predicate LeftAlone(actions: seq<Action>, from: nat, to: nat, job: JobId)
    requires to <= |actions|
  {
    forall j :: from <= j < to ==> actions[j] != Requeue(job) && !(actions[j].Claim? && actions[j].job == job)
  }

  /** The wait a failed attempt owes, by its error and by the infrastructure failures that the audit trail shows since
      the job arrived or was requeued. */
  function DelayOwed(c: Config, failuresBefore: nat, result: ScanResult, draw: real): int {
    if BlamesTheFile(result) then c.retryDelayMs else InfrastructureDelay(c, failuresBefore + 1, draw)
  }

  /** A retry waits. After a commit that leaves the job to be retried, and until somebody claims or requeues it, the job
      can be claimed exactly when the wait it owes is over. */
  lemma RetryIsClaimableExactlyWhenDue(
    c: Config, states: seq<State>, actions: seq<Action>, i: nat, k: nat, job: JobId)
    requires c.Valid() && IsRun(c, states, actions) && Inv(c, states[0]) && states[0].audit == [] && i < k <= |actions|
    requires Commits(states[i], actions[i], job) && RetryFollows(states[i + 1], job)
    requires LeftAlone(actions, i + 1, k, job)
    ensures var failures := Replay(BaseView(states[0], job), states[i].audit, job).infrastructureAttempts;
      Claimable(c, states[k], job)
      <==> states[k].clock >= states[i].clock + DelayOwed(c, failures, actions[i].result, actions[i].draw)
  {
    var row, a := states[i].rows[job], actions[i];
    EveryRunKeepsInv(c, states, actions, i);
    EveryRunKeepsInv(c, states, actions, k);
    RunStep(c, states, actions, i);
    AuditDeterminesRows(c, states, actions, i, job);
    BudgetsAreSeparate(c, row, states[i].open[a.worker].reclaimed, a.result, states[i].clock, a.draw);
    FreeSinceCommit(c, states, actions, i, k, job);
    ClaimableExactly(c, states[k], job);
  }

  /** So the next claim of that job does not come before the wait is over. */
  lemma RetryWaits(c: Config, states: seq<State>, actions: seq<Action>, i: nat, k: nat, worker: WorkerId, job: JobId)
    requires c.Valid() && IsRun(c, states, actions) && Inv(c, states[0]) && states[0].audit == [] && i < k < |actions|
    requires Commits(states[i], actions[i], job) && RetryFollows(states[i + 1], job)
    requires LeftAlone(actions, i + 1, k, job) && actions[k] == Claim(worker, job)
    ensures var failures := Replay(BaseView(states[0], job), states[i].audit, job).infrastructureAttempts;
      states[k].clock >= states[i].clock + DelayOwed(c, failures, actions[i].result, actions[i].draw)
  {
    RunStep(c, states, actions, k);
    RetryIsClaimableExactlyWhenDue(c, states, actions, i, k, job);
  }

  /** A job that was left running is reclaimed only when its lease is over. */
  lemma ReclaimWaitsForTheLease(
    c: Config, states: seq<State>, actions: seq<Action>, k: nat, worker: WorkerId, job: JobId)
    requires IsRun(c, states, actions) && k < |actions| && actions[k] == Claim(worker, job)
    requires job in states[k].rows && states[k].rows[job].status == Running
    ensures job in states[0].rows && states[k].clock - states[0].rows[job].updatedAt > c.leaseMs
  {
    RunStep(c, states, actions, k);
    RunningRowsAreOld(c, states, actions, k, job);
  }
}
