/** No starvation: once a job is due, how many claims can be made ahead of it. */
module Fairness {
  import opened ScanQueue

  /** The jobs the claim query could still return before `job`: unlocked, not terminal, and not after it in the
      order of the queue. */
  function Ahead(s: State, job: JobId): (ahead: set<JobId>)
    requires job in s.rows
  {
    set k | k in s.rows && k != job && !s.Locked(k) && !IsTerminal(s.rows[k]) && !Before(s.rows[job], s.rows[k])
  }

  /** The job is due, free, and became due strictly before the present moment. */
  predicate Overdue(c: Config, s: State, job: JobId) {
    Claimable(c, s, job) && s.rows[job].availableAt < s.clock
  }

  /** The action rolls a transaction back: its worker gives up, or its connection is lost. */
  predicate RollsBack(s: State, a: Action) {
    (a.Abort? || a.LoseConnection?) && a.worker in s.open
  }

  predicate RollsBackJob(s: State, a: Action, job: JobId) { RollsBack(s, a) && s.open[a.worker].job == job }

  lemma SubsetSize<T>(small: set<T>, large: set<T>)
    requires small <= large
    ensures |small| <= |large|
  {
    if x :| x in small {
      SubsetSize(small - {x}, large - {x});
    }
  }

  /** One step that does not claim the job leaves it overdue; a claim of another job takes that job out of the set
      ahead, a rollback may put its own job back, and nothing else enters. */
  lemma StepAhead(c: Config, s: State, a: Action, job: JobId)
    requires c.Valid() && Inv(c, s) && Overdue(c, s, job) && Enabled(c, s, a)
    requires a.Claim? ==> a.job != job
    ensures Overdue(c, Next(c, s, a), job) && Next(c, s, a).rows[job] == s.rows[job]
    ensures a.Claim? ==> a.job in Ahead(s, job)
    ensures forall k :: k in Ahead(Next(c, s, a), job)
              ==> (k in Ahead(s, job) && !(a.Claim? && a.job == k)) || RollsBackJob(s, a, k)
  {
    var t := Next(c, s, a);
    match a {
      case Finish(worker, result, draw) =>
        if worker in s.open {
          var tx := s.open[worker];
          RetryIsLater(c, s.rows[tx.job], tx.reclaimed, result, s.clock, draw);
          assert tx.job != job;
          assert Before(t.rows[job], t.rows[tx.job]);
        }
      case Abort(worker) =>
      case LoseConnection(worker) =>
      case Claim(worker, other) =>
        assert t.open[worker].job == other;
      case Requeue(other) =>
        assert Before(t.rows[job], t.rows[other]);
      case Arrive(other) =>
        assert Before(t.rows[job], t.rows[other]);
      case Tick(_) =>
    }
    assert forall w :: w in t.open && w in s.open ==> t.open[w] == s.open[w];
    assert !t.Locked(job);
  }

  lemma StepAheadSize(c: Config, s: State, a: Action, job: JobId)
    requires c.Valid() && Inv(c, s) && Overdue(c, s, job) && Enabled(c, s, a)
    requires a.Claim? ==> a.job != job
    ensures Overdue(c, Next(c, s, a), job)
    ensures |Ahead(Next(c, s, a), job)| + (if a.Claim? then 1 else 0)
            <= |Ahead(s, job)| + (if RollsBack(s, a) then 1 else 0)
  {
    StepAhead(c, s, a, job);
    var before, after := Ahead(s, job), Ahead(Next(c, s, a), job);
    if RollsBack(s, a) {
      SubsetSize(after, before + {s.open[a.worker].job});
    } else if a.Claim? {
      SubsetSize(after, before - {a.job});
    } else {
      SubsetSize(after, before);
    }
  }

  // ----- counting over a run -------------------------------------------------------------------------------------

  function Claims(actions: seq<Action>): nat {
    if actions == [] then 0
    else Claims(actions[..|actions| - 1]) + if actions[|actions| - 1].Claim? then 1 else 0
  }

  function Rollbacks(states: seq<State>, actions: seq<Action>): nat
    requires |states| == |actions| + 1
  {
    if actions == [] then 0
    else
      var n := |actions| - 1;
      Rollbacks(states[..n + 1], actions[..n]) + if RollsBack(states[n], actions[n]) then 1 else 0
  }

  function ClaimsOf(actions: seq<Action>, k: JobId): nat {
    if actions == [] then 0
    else
      var last := actions[|actions| - 1];
      ClaimsOf(actions[..|actions| - 1], k) + if last.Claim? && last.job == k then 1 else 0
  }

  function RollbacksOf(states: seq<State>, actions: seq<Action>, k: JobId): nat
    requires |states| == |actions| + 1
  {
    if actions == [] then 0
    else
      var n := |actions| - 1;
      RollbacksOf(states[..n + 1], actions[..n], k) + if RollsBackJob(states[n], actions[n], k) then 1 else 0
  }

  predicate NeverClaims(actions: seq<Action>, job: JobId) {
    forall i :: 0 <= i < |actions| && actions[i].Claim? ==> actions[i].job != job
  }

  lemma RunPrefix(c: Config, states: seq<State>, actions: seq<Action>)
    requires IsRun(c, states, actions) && |actions| > 0
    ensures var n := |actions| - 1; IsRun(c, states[..n + 1], actions[..n])
  {
  }

  /** Bounded overtaking. From a moment at which `job` is overdue, and until it is claimed, any other job is claimed
      at most once more than its own claims are rolled back, and not even once unless it was ahead already. */
  lemma {:induction false} OvertakenAtMostOnce(
    c: Config, states: seq<State>, actions: seq<Action>, job: JobId, other: JobId)
    requires c.Valid() && IsRun(c, states, actions) && Inv(c, states[0]) && Overdue(c, states[0], job)
    requires NeverClaims(actions, job) && other != job
    ensures Overdue(c, states[|actions|], job)
    ensures ClaimsOf(actions, other) + (if other in Ahead(states[|actions|], job) then 1 else 0)
            <= (if other in Ahead(states[0], job) then 1 else 0) + RollbacksOf(states, actions, other)
  {
    if actions == [] {
    } else {
      var n := |actions| - 1;
      RunPrefix(c, states, actions);
      OvertakenAtMostOnce(c, states[..n + 1], actions[..n], job, other);
      EveryRunKeepsInv(c, states, actions, n);
      StepAhead(c, states[n], actions[n], job);
    }
  }

  /** No starvation. A run that never claims the overdue job makes at most as many claims as there were jobs ahead of
      it, plus one for every rollback. So with r rollbacks the job is the one claimed at the latest by claim
      number `|Ahead| + r + 1`. */
  lemma {:induction false} DueJobIsReached(c: Config, states: seq<State>, actions: seq<Action>, job: JobId)
    requires c.Valid() && IsRun(c, states, actions) && Inv(c, states[0]) && Overdue(c, states[0], job)
    requires NeverClaims(actions, job)
    ensures Overdue(c, states[|actions|], job)
    ensures Claims(actions) + |Ahead(states[|actions|], job)| <= |Ahead(states[0], job)| + Rollbacks(states, actions)
  {
    if actions == [] {
    } else {
      var n := |actions| - 1;
      RunPrefix(c, states, actions);
      DueJobIsReached(c, states[..n + 1], actions[..n], job);
      EveryRunKeepsInv(c, states, actions, n);
      StepAheadSize(c, states[n], actions[n], job);
    }
  }

  /** And while it waits, a worker that polls always finds something to claim. */
  lemma OverdueQueueIsNotEmpty(c: Config, s: State, job: JobId) returns (head: JobId)
    requires Overdue(c, s, job)
    ensures IsHead(c, s, head)
  {
    var candidates := set k | k in s.rows && Claimable(c, s, k);
    head := HeadExists(c, s, candidates, job);
  }
}
