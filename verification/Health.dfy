/** Worker health: a record of flags, faults, counters and timestamps, and the history of signals it stands for. */
module Health {
  import opened Options
  import opened FailureCodes

  datatype Signal =
    | Authentication(ok: bool, code: Option<Code>)
    | Tenancy(tenants: nat, enforced: bool)
    | PollSucceeded(empty: bool, at: nat)
    | PollFailed(code: Option<Code>, at: nat)
    | JobSettled(errorCode: Option<Code>, scanStatus: Option<string>, at: nat)
    | Probed(ok: bool, at: nat)
    | QueueSeen(queue: QueueDepths)

  datatype QueueDepths =
    QueueDepths(pending: nat, running: nat, requiresAttention: nat, oldestPendingAgeMs: nat, at: nat)

  // ----- reading the history -----------------------------------------------------------------------------------

  predicate IsCompletion(e: Signal) { e.JobSettled? && e.errorCode.None? }

  predicate IsFault(e: Signal, kind: FailureClass) {
    e.JobSettled? && e.errorCode.Some? && ClassifyFailure(e.errorCode.value) == kind
  }

  predicate IsInfrastructure(e: Signal) { IsFault(e, Infrastructure) }

  /** A later signal that is evidence against a recorded infrastructure fault. */
  predicate Disproves(e: Signal, fault: Signal)
    requires IsInfrastructure(fault)
  {
    IsCompletion(e) || (e.Probed? && e.ok && IsScannerReachability(fault.errorCode.value))
  }

  /** What the document asks for: some infrastructure fault has met no evidence against it. */
  ghost predicate SomeFaultStands(log: seq<Signal>) {
    exists i :: 0 <= i < |log| && IsInfrastructure(log[i]) && Undisproved(log, i)
  }

  ghost predicate Undisproved(log: seq<Signal>, i: nat)
    requires i < |log| && IsInfrastructure(log[i])
  {
    forall j :: i < j < |log| ==> !Disproves(log[j], log[i])
  }

  ghost predicate IsLatestFault(log: seq<Signal>, i: nat) {
    i < |log| && IsInfrastructure(log[i]) && forall j :: i < j < |log| ==> !IsInfrastructure(log[j])
  }

  /** What one slot can remember: the latest infrastructure fault has met no evidence against it. */
  ghost predicate LatestFaultStands(log: seq<Signal>) {
    exists i :: IsLatestFault(log, i) && Undisproved(log, i)
  }

  /** Some signal of one kind has not been followed by any signal of another. */
  ghost predicate Standing(log: seq<Signal>, sets: Signal -> bool, clears: Signal -> bool) {
    exists i :: 0 <= i < |log| && sets(log[i]) && NoneAfter(log, i, clears)
  }

  ghost predicate NoneAfter(log: seq<Signal>, i: nat, clears: Signal -> bool) {
    forall j :: i < j < |log| ==> !clears(log[j])
  }

  predicate IsSignIn(e: Signal) { e.Authentication? && e.ok }
  predicate IsAuthentication(e: Signal) { e.Authentication? }
  predicate IsEnforcement(e: Signal) { e.Tenancy? && e.enforced }
  predicate IsTenancy(e: Signal) { e.Tenancy? }
  predicate IsPollSuccess(e: Signal) { e.PollSucceeded? }
  predicate IsPollFailure(e: Signal) { e.PollFailed? }
  predicate IsItem(e: Signal) { IsFault(e, Content) }
  predicate IsAlarm(e: Signal) { e.QueueSeen? && e.queue.requiresAttention > 0 }
  predicate IsQueue(e: Signal) { e.QueueSeen? }

  function RecentSuccess(since: int): Signal -> bool { (e: Signal) => e.PollSucceeded? && e.at >= since }

  function RecentFailure(since: int): Signal -> bool { (e: Signal) => e.PollFailed? && e.at >= since }

  /** The last word on authentication was a success. */
  ghost predicate Authenticated(log: seq<Signal>) { Standing(log, IsSignIn, IsAuthentication) }

  /** The last tenancy check found the invariant enforced. */
  ghost predicate TenancyEnforced(log: seq<Signal>) { Standing(log, IsEnforcement, IsTenancy) }

  /** A poll failed and none has succeeded since. */
  ghost predicate PollFailureStands(log: seq<Signal>) { Standing(log, IsPollFailure, IsPollSuccess) }

  /** An item failed on its own merits and no scan has completed since. */
  ghost predicate ItemFaultStands(log: seq<Signal>) { Standing(log, IsItem, IsCompletion) }

  /** The last look at the queue saw parked jobs. */
  ghost predicate AttentionStands(log: seq<Signal>) { Standing(log, IsAlarm, IsQueue) }

  /** The loop was alive inside the window: it started inside it, or its last successful or its last failed poll
      falls inside it. */
  ghost predicate HeartbeatFresh(log: seq<Signal>, startedAt: nat, staleAfterMs: nat, at: int) {
    || at - startedAt <= staleAfterMs
    || Standing(log, RecentSuccess(at - staleAfterMs), IsPollSuccess)
    || Standing(log, RecentFailure(at - staleAfterMs), IsPollFailure)
  }

  ghost predicate ReadyByHistory(log: seq<Signal>, startedAt: nat, staleAfterMs: nat, at: int) {
    && Authenticated(log)
    && TenancyEnforced(log)
    && !PollFailureStands(log)
    && !LatestFaultStands(log)
    && HeartbeatFresh(log, startedAt, staleAfterMs, at)
  }

  // ----- the same answers, one signal at a time -------------------------------------------------------------------

  function Last(log: seq<Signal>): Signal
    requires log != []
  {
    log[|log| - 1]
  }

  function Init(log: seq<Signal>): seq<Signal>
    requires log != []
  {
    log[..|log| - 1]
  }

  datatype Fault = Fault(code: Code, at: nat, scanStatus: Option<string>)

  datatype Tenants = Tenants(count: nat, enforced: bool)

  datatype ProbeResult = ProbeResult(ok: bool, at: nat)

  /** What is kept of a history. */
  datatype Record = Record(
    authenticated: bool,
    authFailure: Option<Code>,
    tenancy: Option<Tenants>,
    lastSuccess: Option<nat>,
    lastEmpty: Option<nat>,
    lastFailure: Option<nat>,
    pollFailure: Option<Code>,
    pollFailures: nat,
    lastCompletedJob: Option<nat>,
    lastJobFailure: Option<nat>,
    completedJobs: nat,
    jobFailures: nat,
    fault: Option<Fault>,
    itemFault: Option<Fault>,
    probe: Option<ProbeResult>,
    queue: Option<QueueDepths>)

  const NOTHING_KEPT :=
    Record(false, None, None, None, None, None, None, 0, None, None, 0, 0, None, None, None, None)

  function Absorb(r: Record, e: Signal): Record {
    match e
    case Authentication(ok, code) =>
      r.(authenticated := ok, authFailure := if ok then None else Some(OrElse(code, WorkerAuthenticationFailed)))
    case Tenancy(tenants, enforced) => r.(tenancy := Some(Tenants(tenants, enforced)))
    case PollSucceeded(empty, at) =>
      r.(lastSuccess := Some(at), lastEmpty := if empty then Some(at) else r.lastEmpty, pollFailures := 0,
         pollFailure := None)
    case PollFailed(code, at) =>
      r.(lastFailure := Some(at), pollFailures := r.pollFailures + 1,
         pollFailure := Some(OrElse(code, WorkerPollFailed)))
    case JobSettled(code, scanStatus, at) => AbsorbJob(r, code, scanStatus, at)
    case Probed(ok, at) =>
      var cleared := ok && r.fault.Some? && IsScannerReachability(r.fault.value.code);
      r.(probe := Some(ProbeResult(ok, at)), fault := if cleared then None else r.fault)
    case QueueSeen(queue) => r.(queue := Some(queue))
  }

  function AbsorbJob(r: Record, code: Option<Code>, scanStatus: Option<string>, at: nat): Record {
    if code.None? then
      r.(lastCompletedJob := Some(at), completedJobs := r.completedJobs + 1, jobFailures := 0, fault := None,
         itemFault := None)
    else
      var failed := r.(lastJobFailure := Some(at), jobFailures := r.jobFailures + 1);
      var fault := Some(Fault(code.value, at, scanStatus));
      if ClassifyFailure(code.value) == Content then failed.(itemFault := fault) else failed.(fault := fault)
  }

  function Digest(log: seq<Signal>): Record {
    if log == [] then NOTHING_KEPT else Absorb(Digest(Init(log)), Last(log))
  }

  function CodeOf(fault: Option<Fault>): Option<Code> {
    if fault.Some? then Some(fault.value.code) else None
  }

  function FaultSlot(log: seq<Signal>): Option<Code> { CodeOf(Digest(log).fault) }

  function ItemSlot(log: seq<Signal>): Option<Code> { CodeOf(Digest(log).itemFault) }

  function PollFailures(log: seq<Signal>): nat { Digest(log).pollFailures }

  function LastAuthentication(log: seq<Signal>): bool { Digest(log).authenticated }

  function LastTenancy(log: seq<Signal>): Option<Tenants> { Digest(log).tenancy }

  function LastPoll(log: seq<Signal>, succeeded: bool): Option<nat> {
    if succeeded then Digest(log).lastSuccess else Digest(log).lastFailure
  }

  function LastQueue(log: seq<Signal>): Option<QueueDepths> { Digest(log).queue }

  function Attention(queue: Option<QueueDepths>): nat {
    if queue.Some? then queue.value.requiresAttention else 0
  }

  function OrElse(code: Option<Code>, otherwise: Code): Code {
    if code.Some? then code.value else otherwise
  }

  // ----- the reasons a snapshot states -------------------------------------------------------------------------

  ghost function UnverifiedReasons(log: seq<Signal>): set<Code> {
    (if Authenticated(log) then {} else {OrElse(Digest(log).authFailure, WorkerNotAuthenticated)})
    + (if TenancyEnforced(log) then {}
       else {if LastTenancy(log).Some? then MultiTenantUnsupported else TenancyNotChecked})
  }

  ghost function UnreadyReasons(log: seq<Signal>, startedAt: nat, staleAfterMs: nat, at: int): set<Code> {
    UnverifiedReasons(log)
    + (if PollFailureStands(log) then {OrElse(Digest(log).pollFailure, WorkerPollFailed)} else {})
    + (if FaultSlot(log).Some? then {FaultSlot(log).value} else {})
    + (if HeartbeatFresh(log, startedAt, staleAfterMs, at) then {} else {HeartbeatStale})
  }

  ghost function DegradedReasons(log: seq<Signal>): set<Code> {
    (if ItemSlot(log).Some? then {ItemSlot(log).value} else {})
    + (if AttentionStands(log) then {JobsRequireAttention} else {})
  }

  lemma {:induction false} FaultSlotIsHistory(log: seq<Signal>)
    ensures FaultSlot(log).Some? <==> LatestFaultStands(log)
    ensures forall i: nat :: FaultSlot(log).Some? && IsLatestFault(log, i) ==> log[i].errorCode == FaultSlot(log)
  {
    if log == [] {
    } else {
      var rest, e, n := Init(log), Last(log), |log| - 1;
      FaultSlotIsHistory(rest);
      if IsInfrastructure(e) {
        assert IsLatestFault(log, n) && Undisproved(log, n);
      } else {
        assert log == rest + [e];
        assert forall i: nat :: IsLatestFault(log, i) <==> IsLatestFault(rest, i);
        forall i: nat | IsLatestFault(rest, i)
          ensures Undisproved(log, i) <==> Undisproved(rest, i) && !Disproves(e, rest[i])
        {
          assert log[n] == e && log[i] == rest[i];
        }
      }
    }
  }

  lemma StandingStep(log: seq<Signal>, sets: Signal -> bool, clears: Signal -> bool)
    requires log != []
    ensures Standing(log, sets, clears)
            <==> sets(Last(log)) || (Standing(Init(log), sets, clears) && !clears(Last(log)))
  {
    var rest, n := Init(log), |log| - 1;
    if sets(log[n]) {
      assert NoneAfter(log, n, clears);
    } else {
      forall i: nat | i < n
        ensures NoneAfter(log, i, clears) <==> NoneAfter(rest, i, clears) && !clears(log[n])
      {
        assert NoneAfter(rest, i, clears) ==> forall j :: i < j < n ==> !clears(rest[j]) && rest[j] == log[j];
        assert NoneAfter(log, i, clears) ==> forall j :: i < j < n ==> !clears(log[j]) && rest[j] == log[j];
      }
      assert forall i :: 0 <= i < n ==> rest[i] == log[i];
    }
  }

  lemma {:induction false} ItemSlotIsHistory(log: seq<Signal>)
    ensures ItemSlot(log).Some? <==> ItemFaultStands(log)
  {
    if log == [] {
    } else {
      ItemSlotIsHistory(Init(log));
      StandingStep(log, IsItem, IsCompletion);
    }
  }

  lemma {:induction false} PollFailuresAreHistory(log: seq<Signal>)
    ensures PollFailures(log) > 0 <==> PollFailureStands(log)
  {
    if log == [] {
    } else {
      PollFailuresAreHistory(Init(log));
      StandingStep(log, IsPollFailure, IsPollSuccess);
    }
  }

  lemma {:induction false} LastAuthenticationIsHistory(log: seq<Signal>)
    ensures LastAuthentication(log) <==> Authenticated(log)
  {
    if log == [] {
    } else {
      LastAuthenticationIsHistory(Init(log));
      StandingStep(log, IsSignIn, IsAuthentication);
    }
  }

  lemma {:induction false} LastTenancyIsHistory(log: seq<Signal>)
    ensures LastTenancy(log).Some? && LastTenancy(log).value.enforced <==> TenancyEnforced(log)
  {
    if log == [] {
    } else {
      LastTenancyIsHistory(Init(log));
      StandingStep(log, IsEnforcement, IsTenancy);
    }
  }

  lemma {:induction false} LastQueueIsHistory(log: seq<Signal>)
    ensures Attention(LastQueue(log)) > 0 <==> AttentionStands(log)
  {
    if log == [] {
    } else {
      LastQueueIsHistory(Init(log));
      StandingStep(log, IsAlarm, IsQueue);
    }
  }

  lemma {:induction false} LastSuccessIsHistory(log: seq<Signal>, since: int)
    ensures (LastPoll(log, true).Some? && LastPoll(log, true).value >= since)
            <==> Standing(log, RecentSuccess(since), IsPollSuccess)
  {
    if log == [] {
    } else {
      LastSuccessIsHistory(Init(log), since);
      StandingStep(log, RecentSuccess(since), IsPollSuccess);
    }
  }

  lemma {:induction false} LastFailureIsHistory(log: seq<Signal>, since: int)
    ensures (LastPoll(log, false).Some? && LastPoll(log, false).value >= since)
            <==> Standing(log, RecentFailure(since), IsPollFailure)
  {
    if log == [] {
    } else {
      LastFailureIsHistory(Init(log), since);
      StandingStep(log, RecentFailure(since), IsPollFailure);
    }
  }

  /** The counters of a snapshot: completed jobs of the whole history, and failed ones since the last completed. */
  lemma {:induction false} CompletedJobsAreHistory(log: seq<Signal>)
    ensures Digest(log).completedJobs == |Completions(log)|
  {
    if log == [] {
    } else {
      CompletedJobsAreHistory(Init(log));
      CompletionsStep(log);
    }
  }

  lemma CompletionsStep(log: seq<Signal>)
    requires log != []
    ensures |Completions(log)| == |Completions(Init(log))| + if IsCompletion(Last(log)) then 1 else 0
  {
    var n := |log| - 1;
    assert forall i :: 0 <= i < n ==> log[i] == Init(log)[i];
    assert Completions(log) == Completions(Init(log)) + if IsCompletion(log[n]) then {n} else {};
  }

  lemma {:induction false} JobFailuresAreHistory(log: seq<Signal>)
    ensures Digest(log).jobFailures > 0 <==> Standing(log, IsFailedJob, IsCompletion)
  {
    if log == [] {
    } else {
      JobFailuresAreHistory(Init(log));
      StandingStep(log, IsFailedJob, IsCompletion);
    }
  }

  predicate IsFailedJob(e: Signal) { e.JobSettled? && e.errorCode.Some? }

  // ----- what is kept is the latest of its kind ------------------------------------------------------------------

  predicate IsEmptyPoll(e: Signal) { e.PollSucceeded? && e.empty }

  predicate IsProbe(e: Signal) { e.Probed? }

  /** Signal i is the last of its kind; there has been none if i is -1. */
  ghost predicate LastAt(log: seq<Signal>, i: int, kind: Signal -> bool) {
    && -1 <= i < |log| && (i >= 0 ==> kind(log[i]))
    && forall j :: i < j < |log| ==> !kind(log[j])
  }

  lemma LastAtBefore(log: seq<Signal>, i: int, kind: Signal -> bool)
    requires LastAt(log, i, kind) && i < |log| - 1
    ensures LastAt(Init(log), i, kind) && !kind(Last(log)) && (i >= 0 ==> Init(log)[i] == log[i])
  {
    assert forall j :: 0 <= j < |log| - 1 ==> Init(log)[j] == log[j];
  }

  /** Whether the last authentication succeeded, and why not. */
  lemma {:induction false} AuthenticationIsKept(log: seq<Signal>, i: int)
    requires LastAt(log, i, IsAuthentication)
    ensures if i < 0 then !Digest(log).authenticated && Digest(log).authFailure == None
            else
              && Digest(log).authenticated == log[i].ok
              && Digest(log).authFailure == (if log[i].ok then None
                                             else Some(OrElse(log[i].code, WorkerAuthenticationFailed)))
    decreases |log|
  {
    if log == [] || i == |log| - 1 {
    } else {
      LastAtBefore(log, i, IsAuthentication);
      AuthenticationIsKept(Init(log), i);
    }
  }

  /** The last tenancy check. */
  lemma {:induction false} TenancyIsKept(log: seq<Signal>, i: int)
    requires LastAt(log, i, IsTenancy)
    ensures if i < 0 then Digest(log).tenancy == None
            else Digest(log).tenancy == Some(Tenants(log[i].tenants, log[i].enforced))
    decreases |log|
  {
    if log == [] || i == |log| - 1 {
    } else {
      LastAtBefore(log, i, IsTenancy);
      TenancyIsKept(Init(log), i);
    }
  }

  /** The times of the last successful poll, the last empty one and the last failed one, and why that failed. */
  lemma {:induction false} SuccessfulPollIsKept(log: seq<Signal>, i: int)
    requires LastAt(log, i, IsPollSuccess)
    ensures if i < 0 then Digest(log).lastSuccess == None
            else Digest(log).lastSuccess == Some(log[i].at)
    decreases |log|
  {
    if log == [] || i == |log| - 1 {
    } else {
      LastAtBefore(log, i, IsPollSuccess);
      SuccessfulPollIsKept(Init(log), i);
    }
  }

  lemma {:induction false} EmptyPollIsKept(log: seq<Signal>, i: int)
    requires LastAt(log, i, IsEmptyPoll)
    ensures if i < 0 then Digest(log).lastEmpty == None
            else Digest(log).lastEmpty == Some(log[i].at)
    decreases |log|
  {
    if log == [] || i == |log| - 1 {
    } else {
      LastAtBefore(log, i, IsEmptyPoll);
      EmptyPollIsKept(Init(log), i);
    }
  }

  lemma {:induction false} FailedPollIsKept(log: seq<Signal>, i: int)
    requires LastAt(log, i, IsPollFailure)
    ensures if i < 0 then Digest(log).lastFailure == None && Digest(log).pollFailures == 0
            else
              && Digest(log).lastFailure == Some(log[i].at)
              && (Digest(log).pollFailures > 0 ==>
                    Digest(log).pollFailure == Some(OrElse(log[i].code, WorkerPollFailed)))
    decreases |log|
  {
    if log == [] || i == |log| - 1 {
    } else {
      LastAtBefore(log, i, IsPollFailure);
      FailedPollIsKept(Init(log), i);
    }
  }

  /** The times of the last completed and the last failed job. */
  lemma {:induction false} CompletedJobIsKept(log: seq<Signal>, i: int)
    requires LastAt(log, i, IsCompletion)
    ensures if i < 0 then Digest(log).lastCompletedJob == None
            else Digest(log).lastCompletedJob == Some(log[i].at)
    decreases |log|
  {
    if log == [] || i == |log| - 1 {
    } else {
      LastAtBefore(log, i, IsCompletion);
      CompletedJobIsKept(Init(log), i);
    }
  }

  lemma {:induction false} FailedJobIsKept(log: seq<Signal>, i: int)
    requires LastAt(log, i, IsFailedJob)
    ensures if i < 0 then Digest(log).lastJobFailure == None
            else Digest(log).lastJobFailure == Some(log[i].at)
    decreases |log|
  {
    if log == [] || i == |log| - 1 {
    } else {
      LastAtBefore(log, i, IsFailedJob);
      FailedJobIsKept(Init(log), i);
    }
  }

  /** The last probe and the last look at the queue. */
  lemma {:induction false} ProbeIsKept(log: seq<Signal>, i: int)
    requires LastAt(log, i, IsProbe)
    ensures if i < 0 then Digest(log).probe == None
            else Digest(log).probe == Some(ProbeResult(log[i].ok, log[i].at))
    decreases |log|
  {
    if log == [] || i == |log| - 1 {
    } else {
      LastAtBefore(log, i, IsProbe);
      ProbeIsKept(Init(log), i);
    }
  }

  lemma {:induction false} QueueIsKept(log: seq<Signal>, i: int)
    requires LastAt(log, i, IsQueue)
    ensures if i < 0 then Digest(log).queue == None
            else Digest(log).queue == Some(log[i].queue)
    decreases |log|
  {
    if log == [] || i == |log| - 1 {
    } else {
      LastAtBefore(log, i, IsQueue);
      QueueIsKept(Init(log), i);
    }
  }

  /** A fault that stands is the latest of its class, with its code, its time and its scan status. */
  lemma {:induction false} FaultIsKept(log: seq<Signal>, i: int)
    requires LastAt(log, i, IsInfrastructure)
    ensures if i < 0 then Digest(log).fault == None
            else
              Digest(log).fault.Some? ==>
                Digest(log).fault == Some(Fault(log[i].errorCode.value, log[i].at, log[i].scanStatus))
    decreases |log|
  {
    if log == [] || i == |log| - 1 {
    } else {
      LastAtBefore(log, i, IsInfrastructure);
      FaultIsKept(Init(log), i);
    }
  }

  lemma {:induction false} ItemFaultIsKept(log: seq<Signal>, i: int)
    requires LastAt(log, i, IsItem)
    ensures if i < 0 then Digest(log).itemFault == None
            else
              Digest(log).itemFault.Some? ==>
                Digest(log).itemFault == Some(Fault(log[i].errorCode.value, log[i].at, log[i].scanStatus))
    decreases |log|
  {
    if log == [] || i == |log| - 1 {
    } else {
      LastAtBefore(log, i, IsItem);
      ItemFaultIsKept(Init(log), i);
    }
  }

  /** The signals of one kind that no signal of another has followed. */
  ghost function StandingOnes(log: seq<Signal>, sets: Signal -> bool, clears: Signal -> bool): set<int> {
    set i | 0 <= i < |log| && sets(log[i]) && NoneAfter(log, i, clears)
  }

  lemma StandingOnesStep(log: seq<Signal>, sets: Signal -> bool, clears: Signal -> bool)
    requires log != []
    ensures |StandingOnes(log, sets, clears)| ==
            (if clears(Last(log)) then 0 else |StandingOnes(Init(log), sets, clears)|)
            + (if sets(Last(log)) then 1 else 0)
  {
    var n := |log| - 1;
    var before, last := StandingOnes(Init(log), sets, clears), if sets(log[n]) then {n} else {};
    forall i | 0 <= i < n ensures NoneAfter(log, i, clears) <==> NoneAfter(Init(log), i, clears) && !clears(log[n]) {
      assert forall j :: i < j < n ==> log[j] == Init(log)[j];
    }
    assert forall i :: 0 <= i < n ==> log[i] == Init(log)[i];
    assert StandingOnes(log, sets, clears) == (if clears(log[n]) then {} else before) + last;
    assert n !in before;
  }

  lemma JobFailuresStep(log: seq<Signal>)
    requires log != []
    ensures Digest(log).jobFailures == (if IsCompletion(Last(log)) then 0 else Digest(Init(log)).jobFailures)
                                       + (if IsFailedJob(Last(log)) then 1 else 0)
  {}

  /** The consecutive failures of polls and of jobs, counted: those that no success has followed. */
  lemma {:induction false} PollFailuresAreCounted(log: seq<Signal>)
    ensures Digest(log).pollFailures == |StandingOnes(log, IsPollFailure, IsPollSuccess)|
  {
    if log == [] {
    } else {
      PollFailuresAreCounted(Init(log));
      StandingOnesStep(log, IsPollFailure, IsPollSuccess);
    }
  }

  lemma {:induction false} JobFailuresAreCounted(log: seq<Signal>)
    ensures Digest(log).jobFailures == |StandingOnes(log, IsFailedJob, IsCompletion)|
  {
    if log == [] {
    } else {
      JobFailuresAreCounted(Init(log));
      JobFailuresStep(log);
      StandingOnesStep(log, IsFailedJob, IsCompletion);
    }
  }

  /** Which codes stop a worker, which only mark it, and which of them a probe answers for. */
  lemma FaultClassesAreTheDocumented(log: seq<Signal>, code: Code, scanStatus: Option<string>, at: nat)
    ensures var item := code == IntegrityMismatch || code == SizeExceeded || code == StoragePathInvalid
                        || code == RetentionFailed;
            var after := Digest(log + [JobSettled(Some(code), scanStatus, at)]);
            && (item ==> after.itemFault == Some(Fault(code, at, scanStatus)) && after.fault == Digest(log).fault)
            && (!item ==> after.fault == Some(Fault(code, at, scanStatus)) && after.itemFault == Digest(log).itemFault)
    ensures var scanner := code == ScannerUnavailable || code == ScannerMalformedResponse || code == ScanTimeout;
            FaultSlot(log) == Some(code) ==>
              (FaultSlot(log + [Probed(true, at)]) == None <==> scanner)
              && FaultSlot(log + [Probed(false, at)]) == Some(code)
  {
    Absorbs(log, JobSettled(Some(code), scanStatus, at));
    Absorbs(log, Probed(true, at));
    Absorbs(log, Probed(false, at));
  }

  /** The last sign of life is the latest of the start, the last successful poll and the last failed one. */
  lemma LastSignIsTheLatest(log: seq<Signal>, startedAt: nat, success: int, failure: int)
    requires LastAt(log, success, IsPollSuccess) && LastAt(log, failure, IsPollFailure)
    ensures var sign := LastSign(Digest(log), startedAt);
      && sign >= startedAt && (success >= 0 ==> sign >= log[success].at) && (failure >= 0 ==> sign >= log[failure].at)
      && (sign == startedAt || (success >= 0 && sign == log[success].at) || (failure >= 0 && sign == log[failure].at))
  {
    SuccessfulPollIsKept(log, success);
    FailedPollIsKept(log, failure);
  }

  /** The reasons by name: what a snapshot of an unready worker says of its identity, as the history has it. */
  lemma IdentityReasonsAreNamed(log: seq<Signal>, startedAt: nat, staleAfterMs: nat, at: int, auth: int, tenancy: int)
    requires LastAt(log, auth, IsAuthentication) && LastAt(log, tenancy, IsTenancy)
    ensures var reasons := UnreadyReasons(log, startedAt, staleAfterMs, at);
      && (auth < 0 ==> WorkerNotAuthenticated in reasons)
      && (auth >= 0 && !log[auth].ok ==> OrElse(log[auth].code, WorkerAuthenticationFailed) in reasons)
      && (tenancy < 0 ==> TenancyNotChecked in reasons)
      && (tenancy >= 0 && !log[tenancy].enforced ==> MultiTenantUnsupported in reasons)
  {
    AuthenticationIsKept(log, auth);
    TenancyIsKept(log, tenancy);
    LastAuthenticationIsHistory(log);
    LastTenancyIsHistory(log);
  }

  /** And of its work: the last failed poll while its failure stands, the latest infrastructure fault while it stands,
      and a loop that has gone silent. */
  lemma WorkReasonsAreNamed(log: seq<Signal>, startedAt: nat, staleAfterMs: nat, at: int, poll: int, fault: int)
    requires LastAt(log, poll, IsPollFailure) && LastAt(log, fault, IsInfrastructure)
    ensures var reasons := UnreadyReasons(log, startedAt, staleAfterMs, at);
      && (poll >= 0 && PollFailureStands(log) ==> OrElse(log[poll].code, WorkerPollFailed) in reasons)
      && (fault >= 0 && LatestFaultStands(log) ==> log[fault].errorCode.value in reasons)
      && (!HeartbeatFresh(log, startedAt, staleAfterMs, at) ==> HeartbeatStale in reasons)
  {
    FailedPollIsKept(log, poll);
    FaultIsKept(log, fault);
    PollFailuresAreHistory(log);
    FaultSlotIsHistory(log);
  }

  /** And what degrades it: the latest item fault while one stands, and parked jobs. */
  lemma DegradedReasonsAreNamed(log: seq<Signal>, item: int)
    requires LastAt(log, item, IsItem)
    ensures item >= 0 && ItemFaultStands(log) ==> log[item].errorCode.value in DegradedReasons(log)
    ensures AttentionStands(log) ==> JobsRequireAttention in DegradedReasons(log)
  {
    ItemFaultIsKept(log, item);
    ItemSlotIsHistory(log);
  }

  ghost function Completions(log: seq<Signal>): set<int> {
    set i | 0 <= i < |log| && IsCompletion(log[i])
  }

  lemma Absorbs(log: seq<Signal>, e: Signal)
    ensures Digest(log + [e]) == Absorb(Digest(log), e)
  {
    assert Init(log + [e]) == log;
  }

  /** There is a reason not to be ready exactly when the history denies readiness, and one to be degraded exactly when
      it holds a standing item fault or parked jobs. */
  lemma ReasonsDecide(log: seq<Signal>, startedAt: nat, staleAfterMs: nat, at: int)
    ensures UnreadyReasons(log, startedAt, staleAfterMs, at) == {} <==> ReadyByHistory(log, startedAt, staleAfterMs, at)
    ensures DegradedReasons(log) == {} <==> !ItemFaultStands(log) && !AttentionStands(log)
  {
    FaultSlotIsHistory(log);
    ItemSlotIsHistory(log);
    var reasons := UnreadyReasons(log, startedAt, staleAfterMs, at);
    assert !Authenticated(log) ==> OrElse(Digest(log).authFailure, WorkerNotAuthenticated) in reasons;
    assert !TenancyEnforced(log) ==> MultiTenantUnsupported in reasons || TenancyNotChecked in reasons;
    assert PollFailureStands(log) ==> OrElse(Digest(log).pollFailure, WorkerPollFailed) in reasons;
    assert FaultSlot(log).Some? ==> FaultSlot(log).value in reasons;
    assert !HeartbeatFresh(log, startedAt, staleAfterMs, at) ==> HeartbeatStale in reasons;
    assert ItemSlot(log).Some? ==> ItemSlot(log).value in DegradedReasons(log);
    assert AttentionStands(log) ==> JobsRequireAttention in DegradedReasons(log);
  }

  // ----- where the one slot falls short of the documented rule -------------------------------------------------------

  /** A fault the probe says nothing about was overwritten by one the probe disproves, and the probe answered, all
      since the last completed scan. */
  ghost predicate Masked(log: seq<Signal>) {
    exists i, latest, probe :: IsMasking(log, i, latest, probe)
  }

  ghost predicate IsMasking(log: seq<Signal>, i: nat, latest: nat, probe: nat) {
    && i < latest < probe < |log|
    && IsInfrastructure(log[i]) && !IsScannerReachability(log[i].errorCode.value)
    && IsLatestFault(log, latest) && IsScannerReachability(log[latest].errorCode.value)
    && log[probe].Probed? && log[probe].ok
    && forall j :: i < j < |log| ==> !IsCompletion(log[j])
  }

  /** A slot that holds a fault is always right. The slot is empty although some fault still stands exactly when that
      fault was masked, so on every other history one slot answers the documented question. */
  lemma SlotFallsShortExactlyWhenMasked(log: seq<Signal>)
    ensures LatestFaultStands(log) ==> SomeFaultStands(log)
    ensures SomeFaultStands(log) && !LatestFaultStands(log) <==> Masked(log)
  {
    if SomeFaultStands(log) && !LatestFaultStands(log) {
      var i :| 0 <= i < |log| && IsInfrastructure(log[i]) && Undisproved(log, i);
      var latest := LatestFaultFrom(log, i);
      assert !Undisproved(log, latest);
      var probe :| latest < probe < |log| && Disproves(log[probe], log[latest]);
      assert !Disproves(log[probe], log[i]);
      assert forall j :: i < j < |log| ==> !Disproves(log[j], log[i]);
      assert IsMasking(log, i, latest, probe);
    }
    if Masked(log) {
      var i: nat, latest: nat, probe: nat :| IsMasking(log, i, latest, probe);
      assert Undisproved(log, i);
      assert forall k :: IsLatestFault(log, k) ==> k == latest;
      assert Disproves(log[probe], log[latest]);
    }
  }

  lemma LatestFaultFrom(log: seq<Signal>, i: nat) returns (latest: nat)
    requires i < |log| && IsInfrastructure(log[i])
    ensures i <= latest && IsLatestFault(log, latest)
    decreases |log| - i
  {
    if later :| i < later < |log| && IsInfrastructure(log[later]) {
      latest := LatestFaultFrom(log, later);
    } else {
      latest := i;
    }
  }

  /** The shortest history on which they differ: storage fails, the scanner fails, the scanner answers. */
  lemma MaskedStorageFault()
    ensures var log :=
              [JobSettled(Some(StorageUnavailable), None, 1),
               JobSettled(Some(ScannerUnavailable), None, 2),
               Probed(true, 3)];
            SomeFaultStands(log) && !LatestFaultStands(log)
  {
    var log :=
      [JobSettled(Some(StorageUnavailable), None, 1), JobSettled(Some(ScannerUnavailable), None, 2), Probed(true, 3)];
    assert IsMasking(log, 0, 1, 2);
    SlotFallsShortExactlyWhenMasked(log);
  }

  // ----- what cannot clear a fault -------------------------------------------------------------------------------

  /** Signals that are no evidence about a fault: polls of either kind, queue depths, sign-ins, tenancy checks and
      failed probes. */
  predicate ProvesNothing(e: Signal) {
    !e.JobSettled? && !(e.Probed? && e.ok)
  }

  /** However many empty polls follow a fault, it stands. */
  lemma {:induction false} EmptyPollsClearNothing(log: seq<Signal>, more: seq<Signal>)
    requires forall e :: e in more ==> ProvesNothing(e)
    ensures FaultSlot(log + more) == FaultSlot(log)
    ensures ItemSlot(log + more) == ItemSlot(log)
  {
    if more == [] {
      assert log + more == log;
    } else {
      var all := log + more;
      assert Init(all) == log + Init(more) && Last(all) == Last(more);
      assert Last(more) in more && forall e :: e in Init(more) ==> e in more;
      EmptyPollsClearNothing(log, Init(more));
    }
  }

  /** A fault outside the probe's reach (storage, or a retention sweep that failed with a code of its own) stands
      until a scan completes or a scanner fault takes its slot: on an empty queue no probe ever clears it, and the
      worker stays unready. */
  lemma {:induction false} ProbesCannotClear(log: seq<Signal>, more: seq<Signal>)
    requires FaultSlot(log).Some? && !IsScannerReachability(FaultSlot(log).value)
    requires forall e :: e in more ==>
      !IsCompletion(e) && !(IsInfrastructure(e) && IsScannerReachability(e.errorCode.value))
    ensures FaultSlot(log + more).Some? && !IsScannerReachability(FaultSlot(log + more).value)
    ensures LatestFaultStands(log + more)
  {
    if more == [] {
      assert log + more == log;
    } else {
      var all := log + more;
      assert Init(all) == log + Init(more) && Last(all) == Last(more);
      ProbesCannotClear(log, Init(more));
    }
    FaultSlotIsHistory(log + more);
  }

  /** `server.mjs` records a failed retention sweep under the error's own code when it has one. Only the one code it
      falls back to, and the three item codes, degrade the worker; every `RETENTION_...` code makes it unready. */
  lemma RetentionFailureUnreadies(log: seq<Signal>, code: Code, scanStatus: Option<string>, at: nat)
    ensures FaultSlot(log + [JobSettled(Some(code), scanStatus, at)]) == Some(code)
            <==> !IsItemFault(code) || FaultSlot(log) == Some(code)
    ensures LatestFaultStands(log + [JobSettled(Some(code), scanStatus, at)])
            <==> !IsItemFault(code) || LatestFaultStands(log)
  {
    var longer := log + [JobSettled(Some(code), scanStatus, at)];
    assert Init(longer) == log;
    FaultSlotIsHistory(longer);
    FaultSlotIsHistory(log);
  }

  // ----- the record ----------------------------------------------------------------------------------------------

  datatype HealthStatus = Healthy | Degraded | Unready

  datatype Snapshot = Snapshot(
    status: HealthStatus,
    live: bool,
    ready: bool,
    reasons: set<Code>,
    uptimeMs: int,
    heartbeatAgeMs: int,
    kept: Record)

  /** The latest sign of life of the polling loop. */
  function LastSign(r: Record, startedAt: nat): nat {
    var success := if r.lastSuccess.Some? then r.lastSuccess.value else 0;
    var failure := if r.lastFailure.Some? then r.lastFailure.value else 0;
    var poll := if success >= failure then success else failure;
    if startedAt > poll then startedAt else poll
  }

  class WorkerHealth {
    const startedAt: nat
    const staleAfterMs: nat
    var authenticated: bool
    var authFailureCode: Option<Code>
    var tenancy: Option<Tenants>
    var lastSuccessfulPollAt: Option<nat>
    var lastEmptyPollAt: Option<nat>
    var lastFailedPollAt: Option<nat>
    var lastPollFailureCode: Option<Code>
    var consecutivePollFailures: nat
    var lastCompletedJobAt: Option<nat>
    var lastJobFailureAt: Option<nat>
    var completedJobs: nat
    var consecutiveJobFailures: nat
    var infrastructureFault: Option<Fault>
    var itemFault: Option<Fault>
    var lastScannerProbe: Option<ProbeResult>
    var queue: Option<QueueDepths>
    ghost var log: seq<Signal>

    function Kept(): Record
      reads this
    {
      Record(authenticated, authFailureCode, tenancy, lastSuccessfulPollAt, lastEmptyPollAt, lastFailedPollAt,
             lastPollFailureCode, consecutivePollFailures, lastCompletedJobAt, lastJobFailureAt, completedJobs,
             consecutiveJobFailures, infrastructureFault, itemFault, lastScannerProbe, queue)
    }

    /** Every field is what the history so far says. */
    ghost predicate Valid()
      reads this
    {
      Kept() == Digest(log)
    }

    constructor (now: nat, staleAfterMs: nat)
      requires staleAfterMs >= 1000
      ensures Valid() && log == [] && startedAt == now && this.staleAfterMs == staleAfterMs
    {
      startedAt := now;
      this.staleAfterMs := staleAfterMs;
      authenticated, authFailureCode, tenancy := false, None, None;
      lastSuccessfulPollAt, lastEmptyPollAt, lastFailedPollAt := None, None, None;
      lastPollFailureCode, consecutivePollFailures := None, 0;
      lastCompletedJobAt, lastJobFailureAt, completedJobs, consecutiveJobFailures := None, None, 0, 0;
      infrastructureFault, itemFault, lastScannerProbe, queue := None, None, None, None;
      log := [];
    }

    method RecordAuthentication(ok: bool, code: Option<Code>)
      requires Valid()
      modifies this
      ensures Valid() && log == old(log) + [Authentication(ok, code)]
    {
      Absorbs(log, Authentication(ok, code));
      log := log + [Authentication(ok, code)];
      authenticated := ok;
      authFailureCode := if ok then None else Some(OrElse(code, WorkerAuthenticationFailed));
    }

    method RecordTenancy(tenants: nat, enforced: bool)
      requires Valid()
      modifies this
      ensures Valid() && log == old(log) + [Tenancy(tenants, enforced)]
    {
      Absorbs(log, Tenancy(tenants, enforced));
      log := log + [Tenancy(tenants, enforced)];
      tenancy := Some(Tenants(tenants, enforced));
    }

    method RecordPollSuccess(empty: bool, now: nat)
      requires Valid()
      modifies this
      ensures Valid() && log == old(log) + [PollSucceeded(empty, now)]
      ensures infrastructureFault == old(infrastructureFault) && itemFault == old(itemFault)
    {
      Absorbs(log, PollSucceeded(empty, now));
      log := log + [PollSucceeded(empty, now)];
      lastSuccessfulPollAt := Some(now);
      consecutivePollFailures := 0;
      lastPollFailureCode := None;
      if empty {
        lastEmptyPollAt := Some(now);
      }
    }

    method RecordPollFailure(code: Option<Code>, now: nat)
      requires Valid()
      modifies this
      ensures Valid() && log == old(log) + [PollFailed(code, now)]
    {
      Absorbs(log, PollFailed(code, now));
      log := log + [PollFailed(code, now)];
      lastFailedPollAt := Some(now);
      lastPollFailureCode := Some(OrElse(code, WorkerPollFailed));
      consecutivePollFailures := consecutivePollFailures + 1;
    }

    method RecordJobOutcome(errorCode: Option<Code>, scanStatus: Option<string>, now: nat)
      requires Valid()
      modifies this
      ensures Valid() && log == old(log) + [JobSettled(errorCode, scanStatus, now)]
    {
      Absorbs(log, JobSettled(errorCode, scanStatus, now));
      log := log + [JobSettled(errorCode, scanStatus, now)];
      if errorCode.None? {
        KeepCompletion(scanStatus, now);
      } else {
        KeepFailure(Fault(errorCode.value, now, scanStatus));
      }
    }

    method KeepCompletion(scanStatus: Option<string>, now: nat)
      modifies this`lastCompletedJobAt, this`consecutiveJobFailures, this`completedJobs, this`infrastructureFault,
               this`itemFault
      ensures Kept() == AbsorbJob(old(Kept()), None, scanStatus, now)
    {
      lastCompletedJobAt := Some(now);
      consecutiveJobFailures := 0;
      completedJobs := completedJobs + 1;
      infrastructureFault := None;
      itemFault := None;
    }

    method KeepFailure(fault: Fault)
      modifies this`lastJobFailureAt, this`consecutiveJobFailures, this`itemFault, this`infrastructureFault
      ensures Kept() == AbsorbJob(old(Kept()), Some(fault.code), fault.scanStatus, fault.at)
    {
      lastJobFailureAt := Some(fault.at);
      consecutiveJobFailures := consecutiveJobFailures + 1;
      if ClassifyFailure(fault.code) == Content {
        itemFault := Some(fault);
      } else {
        infrastructureFault := Some(fault);
      }
    }

    method RecordScannerProbe(ok: bool, now: nat)
      requires Valid()
      modifies this
      ensures Valid() && log == old(log) + [Probed(ok, now)]
      ensures itemFault == old(itemFault)
    {
      Absorbs(log, Probed(ok, now));
      log := log + [Probed(ok, now)];
      lastScannerProbe := Some(ProbeResult(ok, now));
      if ok && infrastructureFault.Some? && IsScannerReachability(infrastructureFault.value.code) {
        infrastructureFault := None;
      }
    }

    method RecordQueue(depths: QueueDepths)
      requires Valid()
      modifies this
      ensures Valid() && log == old(log) + [QueueSeen(depths)]
    {
      Absorbs(log, QueueSeen(depths));
      log := log + [QueueSeen(depths)];
      queue := Some(depths);
    }

    method HeartbeatAgeMs(at: int) returns (age: int)
      requires Valid()
      ensures age == at - LastSign(Digest(log), startedAt)
      ensures age <= staleAfterMs <==> HeartbeatFresh(log, startedAt, staleAfterMs, at)
    {
      var success := if lastSuccessfulPollAt.Some? then lastSuccessfulPollAt.value else 0;
      var failure := if lastFailedPollAt.Some? then lastFailedPollAt.value else 0;
      var last := if success >= failure then success else failure;
      if startedAt > last {
        last := startedAt;
      }
      age := at - last;
      LastSuccessIsHistory(log, at - staleAfterMs);
      LastFailureIsHistory(log, at - staleAfterMs);
    }

    /** Readiness refines the history: whatever was recorded, in whatever order, the snapshot is ready exactly when
        the whole log says so, and degraded exactly when it is ready with an item fault or parked jobs standing. */
    method TakeSnapshot(at: int) returns (snapshot: Snapshot)
      requires Valid()
      ensures snapshot.live
      ensures snapshot.ready <==> ReadyByHistory(log, startedAt, staleAfterMs, at)
      ensures snapshot.status == Unready <==> !snapshot.ready
      ensures snapshot.status == Degraded <==> snapshot.ready && (ItemFaultStands(log) || AttentionStands(log))
      ensures snapshot.reasons == {} <==> snapshot.status == Healthy
      ensures snapshot.reasons == if snapshot.ready then DegradedReasons(log)
                                  else UnreadyReasons(log, startedAt, staleAfterMs, at)
      ensures snapshot.kept == Digest(log)
      ensures snapshot.uptimeMs == at - startedAt && snapshot.heartbeatAgeMs == at - LastSign(Digest(log), startedAt)
    {
      var notReady, heartbeat := FindUnready(at);
      var degraded := FindDegraded();
      ReasonsDecide(log, startedAt, staleAfterMs, at);
      var ready := notReady == {};
      var status := if !ready then Unready else if degraded != {} then Degraded else Healthy;
      snapshot := Snapshot(
        status, true, ready, if ready then degraded else notReady, at - startedAt, heartbeat, Kept());
    }

    method FindUnready(at: int) returns (reasons: set<Code>, heartbeat: int)
      requires Valid()
      ensures reasons == UnreadyReasons(log, startedAt, staleAfterMs, at)
      ensures heartbeat == at - LastSign(Digest(log), startedAt)
    {
      reasons := FindUnverified();
      PollFailuresAreHistory(log);
      if consecutivePollFailures > 0 {
        reasons := reasons + {OrElse(lastPollFailureCode, WorkerPollFailed)};
      }
      if infrastructureFault.Some? {
        reasons := reasons + {infrastructureFault.value.code};
      }
      heartbeat := HeartbeatAgeMs(at);
      if heartbeat > staleAfterMs {
        reasons := reasons + {HeartbeatStale};
      }
    }

    method FindUnverified() returns (reasons: set<Code>)
      requires Valid()
      ensures reasons == UnverifiedReasons(log)
    {
      LastAuthenticationIsHistory(log);
      LastTenancyIsHistory(log);
      reasons := {};
      if !authenticated {
        reasons := reasons + {OrElse(authFailureCode, WorkerNotAuthenticated)};
      }
      if tenancy.Some? && !tenancy.value.enforced {
        reasons := reasons + {MultiTenantUnsupported};
      }
      if tenancy.None? {
        reasons := reasons + {TenancyNotChecked};
      }
    }

    method FindDegraded() returns (reasons: set<Code>)
      requires Valid()
      ensures reasons == DegradedReasons(log)
    {
      LastQueueIsHistory(log);
      reasons := {};
      if itemFault.Some? {
        reasons := reasons + {itemFault.value.code};
      }
      if Attention(queue) > 0 {
        reasons := reasons + {JobsRequireAttention};
      }
    }
  }
}
