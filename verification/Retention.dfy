/** Retention deletion of one evidence row by any number of workers: the database claim that fences it, and the file
    that the workers rename and remove one step at a time.

    Every claim advances the row's generation and no owner is used twice, so a call of `cleanupRetainedEvidence` is
    identified by the generation it claimed. Each `await` of the call is one step, and steps of different calls
    interleave freely. A lease is live until an `ExpireLease` step. The tombstones of successive operations share
    one place here, which only lets a stale call reach more than it can in the code. */
module Retention {
  import opened Options

  datatype Place = Original | Tombstone | Gone

  datatype RowStatus = Retained | Deleting | Deleted | IntegrityUnknown

  /** The step that the call of a fresh claim takes next. */
  datatype ClaimerPc =
    | Renew
    | Prepare
    | Rename
    | ProbeOriginal
    | ListDirectory(originalSeen: bool)
    | ProbeTombstone(originalSeen: bool, listed: bool)
    | ConfirmVolume
    | Remove
    | CheckTombstone
    | CheckOriginal
    | CheckDirectory
    | Finalise
    | Restore
    | ConfirmRestored
    | Release
    | MarkUncertain

  /** The step that the recovery of an expired claim takes next. */
  datatype RecovererPc =
    | List
    | FindTombstone(listed: bool)
    | FindOriginal(found: bool)
    | ProveVolume
    | MakeDirectory
    | Resume
    | RecheckOriginal
    | RecheckTombstone(originalSeen: bool)
    | Sweep
    | Delete
    | ProveDeleted
    | ProveOriginalGone
    | ProveDirectoryEmpty
    | Record
    | GiveUp

  datatype Call = Claimer(pc: ClaimerPc) | Recoverer(step: RecovererPc)

  datatype State = State(
    status: RowStatus,
    generation: nat,
    leaseLive: bool,
    place: Place,
    mounted: bool,
    calls: map<nat, Call>,
    records: nat)
  {
    /** The compare-and-set on owner and generation that every retention function makes. */
    predicate Owns(g: nat) { status == Deleting && g == generation }

    /** What a probe or a listing that answers reports. */
    predicate Sees(p: Place) { mounted && place == p }
  }

  /** How an operation ends: as asked, with an error and no effect, or with an error after taking effect. */
  datatype Outcome = Succeeds | FailsClean | FailsDone

  datatype Action =
    | Claim
    | Reclaim
    | ExpireLease
    | Step(call: nat, outcome: Outcome)
    | Crash(call: nat)
    | Unmount
    | Mount

  // ----- one step of one call --------------------------------------------------------------------------------------

  /** The renames and removals: from where, to where. */
  function FileMove(call: Call): Option<(Place, Place)> {
    match call
    case Claimer(Rename) => Some((Original, Tombstone))
    case Claimer(Remove) => Some((Tombstone, Gone))
    case Claimer(Restore) => Some((Tombstone, Original))
    case Recoverer(Resume) => Some((Original, Tombstone))
    case Recoverer(Delete) => Some((Tombstone, Gone))
    case _ => None
  }

  /** A move takes effect if the file is where it starts and the failure is not a clean one. */
  function PlaceAfter(s: State, call: Call, o: Outcome): Place {
    var move := FileMove(call);
    if move.Some? && s.Sees(move.value.0) && !o.FailsClean? then move.value.1 else s.place
  }

  /** `complete_openppwr_retention`, `release_openppwr_retention` and `mark_openppwr_retention_uncertain`. All three
      need the fence; the first two also need a live lease. */
  function StatusAfter(s: State, g: nat, call: Call, o: Outcome): RowStatus {
    if !s.Owns(g) || o.FailsClean? then s.status
    else
      match call
      case Claimer(Finalise) => if s.leaseLive then Deleted else s.status
      case Recoverer(Record) => if s.leaseLive then Deleted else s.status
      case Claimer(Release) => if s.leaseLive then Retained else s.status
      case Claimer(MarkUncertain) => IntegrityUnknown
      case Recoverer(GiveUp) => IntegrityUnknown
      case _ => s.status
  }

  /** Where a call that made a fresh claim goes next; None when it returns or throws. `ok` says that the operation
      reported success. Every error of the guarded block ends in `Restore` if the file may have been moved, and in
      `MarkUncertain` or `Release` otherwise. */
  function ClaimerNext(s: State, g: nat, pc: ClaimerPc, o: Outcome): Option<ClaimerPc> {
    var ok := o.Succeeds?;
    match pc
    case Renew => if s.Owns(g) && s.leaseLive && ok then Some(Prepare) else None
    case Prepare => Some(if ok then Rename else MarkUncertain)
    case Rename => Some(if ok && s.Sees(Original) then Remove else ProbeOriginal)
    case ProbeOriginal => Some(if ok then ListDirectory(s.Sees(Original)) else MarkUncertain)
    case ListDirectory(originalSeen) =>
      Some(if ok then ProbeTombstone(originalSeen, s.Sees(Tombstone)) else MarkUncertain)
    case ProbeTombstone(originalSeen, listed) =>
      var tombstoneSeen := s.Sees(Tombstone);
      Some(if !ok then MarkUncertain
           else if !originalSeen && tombstoneSeen && listed then Remove
           else if !originalSeen && !tombstoneSeen && !listed then ConfirmVolume
           else if originalSeen && !tombstoneSeen && !listed then Release
           else MarkUncertain)
    case ConfirmVolume => Some(if ok && s.mounted then Finalise else MarkUncertain)
    case Remove => Some(if ok && s.Sees(Tombstone) then CheckTombstone else Restore)
    case CheckTombstone => Some(if ok && !s.Sees(Tombstone) then CheckOriginal else Restore)
    case CheckOriginal => Some(if ok && !s.Sees(Original) then CheckDirectory else Restore)
    case CheckDirectory => Some(if ok && !s.Sees(Tombstone) then Finalise else Restore)
    case Finalise => if ok && s.Owns(g) && s.leaseLive then None else Some(MarkUncertain)
    case Restore => Some(if ok && s.Sees(Tombstone) then ConfirmRestored else MarkUncertain)
    case ConfirmRestored => Some(if ok && s.Sees(Original) then Release else MarkUncertain)
    case Release => None
    case MarkUncertain => None
  }

  /** Where a call that adopted an expired claim goes next; every error ends in `GiveUp`. */
  function RecovererNext(s: State, g: nat, step: RecovererPc, o: Outcome): Option<RecovererPc> {
    var ok := o.Succeeds?;
    match step
    case List => Some(if ok then FindTombstone(s.Sees(Tombstone)) else GiveUp)
    case FindTombstone(listed) => Some(if ok then FindOriginal(listed || s.Sees(Tombstone)) else GiveUp)
    case FindOriginal(found) =>
      Some(if !ok then GiveUp
           else if s.Sees(Original) then MakeDirectory
           else if found then Sweep
           else ProveVolume)
    case ProveVolume => Some(if ok && s.mounted then Record else GiveUp)
    case MakeDirectory => Some(if ok then Resume else GiveUp)
    case Resume => Some(if ok && s.Sees(Original) then Sweep else RecheckOriginal)
    case RecheckOriginal => Some(if ok then RecheckTombstone(s.Sees(Original)) else GiveUp)
    case RecheckTombstone(originalSeen) => Some(if ok && !originalSeen && s.Sees(Tombstone) then Sweep else GiveUp)
    case Sweep => Some(if !ok then GiveUp else if s.Sees(Tombstone) then Delete else ProveOriginalGone)
    case Delete => Some(if ok && s.Sees(Tombstone) then ProveDeleted else GiveUp)
    case ProveDeleted => Some(if ok && !s.Sees(Tombstone) then ProveOriginalGone else GiveUp)
    case ProveOriginalGone => Some(if ok && !s.Sees(Original) then ProveDirectoryEmpty else GiveUp)
    case ProveDirectoryEmpty => Some(if ok && !s.Sees(Tombstone) then Record else GiveUp)
    case Record => if ok && s.Owns(g) && s.leaseLive then None else Some(GiveUp)
    case GiveUp => None
  }

  function CallNext(s: State, g: nat, call: Call, o: Outcome): Option<Call> {
    match call
    case Claimer(pc) =>
      var next := ClaimerNext(s, g, pc, o); if next.Some? then Some(Claimer(next.value)) else None
    case Recoverer(step) =>
      var next := RecovererNext(s, g, step, o); if next.Some? then Some(Recoverer(next.value)) else None
  }

  /** Completing writes the audit record in the same statement as the state change. */
  function Apply(s: State, g: nat, o: Outcome): State
    requires g in s.calls
  {
    var call := s.calls[g];
    var status, next := StatusAfter(s, g, call, o), CallNext(s, g, call, o);
    s.(place := PlaceAfter(s, call, o),
       status := status,
       records := s.records + (if status == Deleted && s.status != Deleted then 1 else 0),
       calls := if next.Some? then s.calls[g := next.value] else s.calls - {g})
  }

  predicate Enabled(s: State, a: Action) {
    match a
    case Claim => s.status == Retained
    case Reclaim => s.status == Deleting && !s.leaseLive
    case Step(g, _) => g in s.calls
    case Crash(g) => g in s.calls
    case _ => true
  }

  function Next(s: State, a: Action): State
    requires Enabled(s, a)
  {
    match a
    case Claim =>
      s.(status := Deleting, generation := s.generation + 1, leaseLive := true,
         calls := s.calls[s.generation + 1 := Claimer(Renew)])
    case Reclaim =>
      s.(generation := s.generation + 1, leaseLive := true, calls := s.calls[s.generation + 1 := Recoverer(List)])
    case ExpireLease => s.(leaseLive := false)
    case Step(g, o) => Apply(s, g, o)
    case Crash(g) => s.(calls := s.calls - {g})
    case Unmount => s.(mounted := false)
    case Mount => s.(mounted := true)
  }

  ghost predicate IsRun(states: seq<State>, actions: seq<Action>) {
    && |states| == |actions| + 1
    && forall i :: 0 <= i < |actions| ==> Enabled(states[i], actions[i]) && states[i + 1] == Next(states[i], actions[i])
  }

  /** An item that is retained, present and claimed by nobody. */
  predicate Initial(s: State) {
    s.status == Retained && s.place == Original && s.mounted && s.calls == map[] && s.records == 0
  }

  // ----- the two promises ----------------------------------------------------------------------------------------

  /** A record that says deleted means the bytes are gone, and one that says retained means they are in place. */
  predicate Truthful(s: State) {
    && (s.status == Deleted ==> s.place == Gone)
    && (s.status == Retained ==> s.place == Original)
  }

  /** A call that has lost its claim moves the original away between the current recovery's probe of the tombstone,
      which found nothing, and its probe of the original, which will now find nothing either. It matters while the
      lease of that recovery is live. */
  predicate WindowMove(s: State, a: Action) {
    && s.leaseLive
    && a.Step? && a.call in s.calls && (s.calls[a.call] == Claimer(Rename) || s.calls[a.call] == Recoverer(Resume))
    && s.Sees(Original) && !a.outcome.FailsClean?
    && a.call != s.generation && s.status == Deleting
    && s.generation in s.calls && s.calls[s.generation] == Recoverer(FindOriginal(false))
  }

  // ----- the invariant -------------------------------------------------------------------------------------------

  /** A claimer whose claim is lost and that may still find the tombstone and put the file back under its original
      name. */
  predicate MayRestore(call: Call) {
    && call.Claimer?
    && match call.pc
       case Renew => false
       case ListDirectory(originalSeen) => !originalSeen
       case ProbeTombstone(originalSeen, listed) => !originalSeen && listed
       case ConfirmVolume | Finalise | ConfirmRestored | Release | MarkUncertain => false
       case _ => true
  }

  /** A call whose claim is lost and that may still move the original to the tombstone. */
  predicate MayTake(call: Call) {
    match call
    case Claimer(pc) => pc == Prepare || pc == Rename
    case Recoverer(step) =>
      step.List? || step.FindTombstone? || step.FindOriginal? || step.MakeDirectory? || step.Resume?
  }

  /** Nobody can put the file back any more. */
  predicate RestoreSpent(s: State) {
    forall g :: g in s.calls ==> !MayRestore(s.calls[g])
  }

  /** Stale calls can still take the file away and put it back. */
  predicate MayCycle(s: State) {
    !RestoreSpent(s) && exists g :: g in s.calls && g != s.generation && MayTake(s.calls[g])
  }

  /** The places a call's next probe must not overlook. A recovery that has found a tombstone can afford to miss the
      tombstone while nobody can put the file back, and the original while nobody can take it and put it back. */
  function MustNotOverlook(call: Call, restoreSpent: bool, mayCycle: bool): set<Place> {
    match call
    case Claimer(ProbeOriginal) => {Original}
    case Claimer(ProbeTombstone(originalSeen, listed)) => if originalSeen || listed then {} else {Tombstone}
    case Recoverer(FindTombstone(listed)) => if listed then {} else {Tombstone}
    case Recoverer(FindOriginal(found)) => if found && !mayCycle then {} else {Original}
    case Recoverer(Sweep) => if restoreSpent then {} else {Tombstone}
    case Recoverer(ProveOriginalGone) => {Original}
    case Recoverer(ProveDirectoryEmpty) => {Tombstone}
    case _ => {}
  }

  predicate Overlooks(s: State, call: Call, o: Outcome, spent: bool, cycle: bool) {
    !s.mounted && o.Succeeds? && s.place in MustNotOverlook(call, spent, cycle)
  }

  /** With the volume away, a probe of the call that holds a live claim answers "absent" of the very place where the
      file is, and the call's conclusion rests on that place. */
  predicate BlindProbe(s: State, a: Action) {
    && s.leaseLive && a.Step? && a.call in s.calls && s.Owns(a.call)
    && Overlooks(s, s.calls[a.call], a.outcome, RestoreSpent(s), MayCycle(s))
  }

  /** What the call that holds a fresh claim knows: nobody else is at work. */
  predicate ClaimerKnows(pc: ClaimerPc, place: Place) {
    match pc
    case Renew | Prepare | Rename | Release => place == Original
    case ProbeOriginal => place != Gone
    case ListDirectory(originalSeen) => place != Gone && (originalSeen <==> place == Original)
    case ProbeTombstone(originalSeen, listed) =>
      place != Gone && (originalSeen <==> place == Original) && (listed ==> place == Tombstone)
    case ConfirmVolume => false
    case Remove => place == Tombstone
    case CheckTombstone | CheckOriginal | CheckDirectory | Finalise => place == Gone
    case Restore | ConfirmRestored | MarkUncertain => true
  }

  /** What the call that holds an adopted claim knows, while stale calls keep moving the file. */
  predicate RecovererKnows(step: RecovererPc, place: Place, restoreSpent: bool, mayCycle: bool) {
    match step
    case FindOriginal(found) => !found ==> place != Tombstone
    case ProveVolume | ProveDeleted | Record => place == Gone
    case Sweep => place == Original ==> !mayCycle
    case ProveOriginalGone => (place == Original ==> !mayCycle) && (place == Tombstone ==> restoreSpent)
    case ProveDirectoryEmpty => place != Original && (place == Tombstone ==> restoreSpent)
    case _ => true
  }

  /** An expired claim can no longer write the record, so what its call believes does not matter. */
  predicate OwnerKnows(s: State) {
    s.status == Deleting && s.leaseLive && s.generation in s.calls ==>
      match s.calls[s.generation]
      case Claimer(pc) => s.calls.Keys == {s.generation} && ClaimerKnows(pc, s.place)
      case Recoverer(step) => RecovererKnows(step, s.place, RestoreSpent(s), MayCycle(s))
  }

  /** Calls claimed under generations already given out, and at most one of them a fresh claim. */
  ghost predicate CallsOrderly(s: State) {
    && (forall g :: g in s.calls ==> g <= s.generation)
    && (forall g, h :: g in s.calls && h in s.calls && s.calls[g].Claimer? && s.calls[h].Claimer? ==> g == h)
  }

  ghost predicate Inv(s: State) {
    && Truthful(s)
    && (s.status == Retained ==> s.calls == map[])
    && s.records == (if s.status == Deleted then 1 else 0)
    && CallsOrderly(s)
    && OwnerKnows(s)
  }

  lemma StepKeepsCallsOrderly(s: State, g: nat, o: Outcome)
    requires CallsOrderly(s) && g in s.calls
    ensures CallsOrderly(Apply(s, g, o))
  {}

  /** A stale step gives its call no way to move the file that it did not have. */
  lemma StaleStepSpends(s: State, g: nat, o: Outcome)
    requires g in s.calls && !s.Owns(g)
    ensures var t := Apply(s, g, o);
            (RestoreSpent(s) ==> RestoreSpent(t)) && (MayCycle(t) ==> MayCycle(s))
  {
    var t, next := Apply(s, g, o), CallNext(s, g, s.calls[g], o);
    assert next.Some? && MayRestore(next.value) ==> MayRestore(s.calls[g]);
    assert next.Some? && MayTake(next.value) ==> MayTake(s.calls[g]);
    assert forall h :: h in t.calls && h != g ==> h in s.calls && t.calls[h] == s.calls[h];
  }

  /** What a step of a call that no longer owns the row can do: nothing to the row, and one of three moves to the
      file. */
  lemma StaleStepEffect(s: State, g: nat, o: Outcome)
    requires g in s.calls && !s.Owns(g)
    ensures var t, call := Apply(s, g, o), s.calls[g];
            && t.status == s.status && t.records == s.records
            && (t.place != s.place ==>
                  (s.place, t.place) in {(Tombstone, Gone), (Tombstone, Original), (Original, Tombstone)})
            && ((s.place, t.place) == (Tombstone, Original) ==>
                  call == Claimer(Restore) && (g in t.calls ==> !MayRestore(t.calls[g])))
            && ((s.place, t.place) == (Original, Tombstone) ==>
                  (call == Claimer(Rename) || call == Recoverer(Resume)) && s.Sees(Original) && !o.FailsClean?)
  {
  }

  /** What a step of the call that owns the row does, and what the call then knows. */
  lemma OwningClaimerStep(s: State, g: nat, pc: ClaimerPc, o: Outcome, spent: bool, cycle: bool)
    requires s.Owns(g) && s.leaseLive && ClaimerKnows(pc, s.place)
    ensures var call := Claimer(pc);
            var place, status, next := PlaceAfter(s, call, o), StatusAfter(s, g, call, o), ClaimerNext(s, g, pc, o);
            && (status == Deleting && next.Some? ==>
                  (ClaimerKnows(next.value, place) <==> !Overlooks(s, call, o, spent, cycle)))
            && (status == Deleted ==> place == Gone)
            && (status == Retained ==> place == Original && next.None?)
            && (Overlooks(s, call, o, spent, cycle) ==> status == Deleting && next.Some?)
  {
  }

  lemma OwningRecovererStep(s: State, g: nat, step: RecovererPc, o: Outcome, spent: bool, cycle: bool)
    requires s.Owns(g) && s.leaseLive && RecovererKnows(step, s.place, spent, cycle) && (cycle ==> !spent)
    ensures var call := Recoverer(step);
            var place, status, next := PlaceAfter(s, call, o), StatusAfter(s, g, call, o), RecovererNext(s, g, step, o);
            && (status == Deleting && next.Some? ==>
                  (RecovererKnows(next.value, place, spent, cycle) <==> !Overlooks(s, call, o, spent, cycle)))
            && (status == Deleted ==> place == Gone)
            && status != Retained
            && (Overlooks(s, call, o, spent, cycle) ==> status == Deleting && next.Some?)
  {
  }

  lemma StaleStepKeepsInv(s: State, g: nat, o: Outcome)
    requires Inv(s) && g in s.calls && !s.Owns(g) && !WindowMove(s, Step(g, o))
    ensures Inv(Apply(s, g, o))
  {
    var t := Apply(s, g, o);
    StepKeepsCallsOrderly(s, g, o);
    StaleStepSpends(s, g, o);
    StaleStepEffect(s, g, o);
    if s.status == Deleting && s.leaseLive && s.generation in s.calls {
      assert t.calls[s.generation] == s.calls[s.generation];
      if (s.place, t.place) == (Tombstone, Original) {
        assert MayRestore(s.calls[g]) && RestoreSpent(t);
      }
      if (s.place, t.place) == (Original, Tombstone) {
        assert MayTake(s.calls[g]) && g != s.generation;
      }
    }
  }

  /** Without the lease the call that still owns the row can only give it up. */
  lemma ExpiredStepKeepsInv(s: State, g: nat, o: Outcome)
    requires Inv(s) && g in s.calls && s.Owns(g) && !s.leaseLive
    ensures Inv(Apply(s, g, o))
  {
    StepKeepsCallsOrderly(s, g, o);
  }

  lemma OwningStepKeepsInvUnlessBlind(s: State, g: nat, o: Outcome)
    requires Inv(s) && g in s.calls && s.Owns(g) && s.leaseLive
    ensures Inv(Apply(s, g, o)) <==> !BlindProbe(s, Step(g, o))
  {
    var t := Apply(s, g, o);
    StepKeepsCallsOrderly(s, g, o);
    match s.calls[g]
    case Claimer(pc) =>
      OwningClaimerStep(s, g, pc, o, RestoreSpent(s), MayCycle(s));
      if g in t.calls {
        assert t.calls.Keys == {g};
      } else {
        assert t.calls == map[];
      }
    case Recoverer(step) =>
      OwningRecovererStep(s, g, step, o, RestoreSpent(s), MayCycle(s));
      RecovererLeavesRestores(s, g, o);
  }

  lemma RecovererLeavesRestores(s: State, g: nat, o: Outcome)
    requires g in s.calls && s.calls[g].Recoverer? && g == s.generation
    ensures var t := Apply(s, g, o);
            (RestoreSpent(t) <==> RestoreSpent(s)) && (MayCycle(t) <==> MayCycle(s))
  {
    var t := Apply(s, g, o);
    assert forall h :: h in s.calls && h != g ==> h in t.calls && t.calls[h] == s.calls[h];
    assert forall h :: h in t.calls && h != g ==> h in s.calls;
  }

  lemma CrashSpends(s: State, g: nat)
    requires g in s.calls
    ensures var t := Next(s, Crash(g));
            (RestoreSpent(s) ==> RestoreSpent(t)) && (MayCycle(t) ==> MayCycle(s))
  {
    var t := Next(s, Crash(g));
    assert forall h :: h in t.calls ==> h in s.calls && t.calls[h] == s.calls[h];
  }

  /** The invariant survives a step, with the volume in place or away, exactly when the step is neither a window move
      nor a blind probe. */
  lemma StepKeepsInvExactly(s: State, a: Action)
    requires Inv(s) && Enabled(s, a)
    ensures Inv(Next(s, a)) <==> !WindowMove(s, a) && !BlindProbe(s, a)
  {
    match a
    case Step(g, o) =>
      if WindowMove(s, a) {
        assert Next(s, a).calls[s.generation] == Recoverer(FindOriginal(false));
      } else if s.Owns(g) && s.leaseLive {
        OwningStepKeepsInvUnlessBlind(s, g, o);
      } else if s.Owns(g) {
        ExpiredStepKeepsInv(s, g, o);
      } else {
        StaleStepKeepsInv(s, g, o);
      }
    case Crash(g) =>
      CrashSpends(s, g);
    case _ =>
  }

  // ----- over whole runs -----------------------------------------------------------------------------------------

  ghost predicate Undisturbed(states: seq<State>, actions: seq<Action>)
    requires |states| == |actions| + 1
  {
    forall i :: 0 <= i < |actions| ==> !WindowMove(states[i], actions[i]) && !BlindProbe(states[i], actions[i])
  }

  lemma {:induction false} UndisturbedKeepsInv(states: seq<State>, actions: seq<Action>, i: nat)
    requires IsRun(states, actions) && Inv(states[0]) && Undisturbed(states, actions) && i < |states|
    ensures Inv(states[i])
  {
    if i == 0 {
    } else {
      UndisturbedKeepsInv(states, actions, i - 1);
      StepKeepsInvExactly(states[i - 1], actions[i - 1]);
    }
  }

  /** However many workers claim, crash, stall past their leases, adopt each other's claims and fail halfway, and
      however often the volume goes away and comes back, in every run without a window move and without a blind
      probe the record stays truthful, and at most one deletion is ever recorded. */
  lemma RecordStaysTruthful(states: seq<State>, actions: seq<Action>, i: nat)
    requires IsRun(states, actions) && Initial(states[0]) && Undisturbed(states, actions) && i < |states|
    ensures Inv(states[i]) && Truthful(states[i])
    ensures states[i].records == if states[i].status == Deleted then 1 else 0
  {
    UndisturbedKeepsInv(states, actions, i);
  }

  // ----- what a call brings about --------------------------------------------------------------------------------

  /** A call's next steps, all of them successful, as long as it goes on. */
  function Proceed(s: State, g: nat, n: nat): State
    decreases n
  {
    if n == 0 || g !in s.calls then s else Proceed(Next(s, Step(g, Succeeds)), g, n - 1)
  }

  /** Steps of one call alone, all of them successful. */
  ghost predicate Unhindered(actions: seq<Action>, g: nat) {
    forall i :: 0 <= i < |actions| ==> actions[i] == Step(g, Succeeds)
  }

  lemma {:induction false} UnhinderedRunProceeds(states: seq<State>, actions: seq<Action>, g: nat)
    requires IsRun(states, actions) && Unhindered(actions, g)
    ensures Proceed(states[0], g, |actions|) == states[|actions|]
    decreases |actions|
  {
    if actions == [] {
    } else {
      assert actions[0] == Step(g, Succeeds) && states[1] == Next(states[0], actions[0]);
      RunFrom(states, actions, 1);
      assert Unhindered(actions[1..], g);
      UnhinderedRunProceeds(states[1..], actions[1..], g);
    }
  }

  lemma RunFrom(states: seq<State>, actions: seq<Action>, k: nat)
    requires IsRun(states, actions) && k <= |actions|
    ensures IsRun(states[k..], actions[k..])
  {}

  lemma {:induction false} ProceedStaysEnded(s: State, g: nat, m: nat, n: nat)
    requires m <= n && g !in Proceed(s, g, m).calls
    ensures Proceed(s, g, n) == Proceed(s, g, m)
    decreases n
  {
    if g !in s.calls || n == 0 {
    } else {
      assert m > 0;
      ProceedStaysEnded(Next(s, Step(g, Succeeds)), g, m - 1, n - 1);
    }
  }

  /** How an operation ends: what the row says, and where the file is. */
  datatype End = End(status: RowStatus, place: Place)

  /** A call at work and unhindered, on a volume that is in place and under a live lease. */
  predicate Working(s: State, g: nat, call: Call) {
    s.mounted && s.leaseLive && s.Owns(g) && g in s.calls && s.calls[g] == call
  }

  /** The unhindered call is over after `n` steps: the row and the file are as told, the other calls are untouched, and
      a deletion was recorded exactly if the row says so. */
  ghost predicate EndsAs(s: State, g: nat, n: nat, end: End) {
    var t := Proceed(s, g, n);
    && g !in t.calls && t.calls == s.calls - {g}
    && t.status == end.status && t.place == end.place
    && t.records == s.records + (if end.status == Deleted then 1 else 0)
  }

  /** How many steps a claimer has left at most. */
  function ClaimerLeft(pc: ClaimerPc): nat {
    match pc
    case Renew => 15
    case Prepare => 14
    case Rename => 13
    case ProbeOriginal => 12
    case ListDirectory(_) => 11
    case ProbeTombstone(_, _) => 10
    case Remove => 9
    case CheckTombstone => 8
    case CheckOriginal => 7
    case CheckDirectory => 6
    case ConfirmVolume => 6
    case Finalise => 5
    case Restore => 4
    case ConfirmRestored => 3
    case Release => 1
    case MarkUncertain => 1
  }

  /** Where a claimer that knows what it should is heading. */
  function ClaimerEnd(pc: ClaimerPc, place: Place): End {
    match pc
    case Renew => End(Deleted, Gone)
    case Prepare => End(Deleted, Gone)
    case Rename => End(Deleted, Gone)
    case ProbeOriginal => if place == Original then End(Retained, Original) else End(Deleted, Gone)
    case ListDirectory(_) => if place == Original then End(Retained, Original) else End(Deleted, Gone)
    case ProbeTombstone(_, listed) =>
      if place == Original then End(Retained, Original)
      else if listed then End(Deleted, Gone) else End(IntegrityUnknown, Tombstone)
    case Restore => if place == Tombstone then End(Retained, Original) else End(IntegrityUnknown, place)
    case ConfirmRestored => if place == Original then End(Retained, Original) else End(IntegrityUnknown, place)
    case Release => End(Retained, place)
    case MarkUncertain => End(IntegrityUnknown, place)
    case _ => End(Deleted, Gone)
  }

  lemma {:induction false} ClaimerReachesItsEnd(s: State, g: nat, pc: ClaimerPc, n: nat)
    requires Working(s, g, Claimer(pc)) && ClaimerKnows(pc, s.place) && n >= ClaimerLeft(pc)
    ensures EndsAs(s, g, n, ClaimerEnd(pc, s.place))
    decreases n
  {
    var t := Next(s, Step(g, Succeeds));
    if g in t.calls {
      ClaimerReachesItsEnd(t, g, t.calls[g].pc, n - 1);
      assert t.calls - {g} == s.calls - {g};
    } else {
      assert Proceed(t, g, n - 1) == t;
    }
  }

  function RecovererLeft(step: RecovererPc): nat {
    match step
    case List => 14
    case FindTombstone(_) => 13
    case FindOriginal(_) => 12
    case MakeDirectory => 11
    case Resume => 10
    case RecheckOriginal => 9
    case RecheckTombstone(_) => 8
    case Sweep => 7
    case Delete => 6
    case ProveDeleted => 5
    case ProveOriginalGone => 4
    case ProveDirectoryEmpty => 3
    case ProveVolume => 3
    case Record => 2
    case GiveUp => 1
  }

  /** What the recovery has found is there to be found. */
  predicate RecovererSees(step: RecovererPc, place: Place) {
    match step
    case FindTombstone(listed) => listed ==> place == Tombstone
    case FindOriginal(found) => found <==> place == Tombstone
    case MakeDirectory | Resume => place == Original
    case RecheckOriginal => place != Gone
    case RecheckTombstone(originalSeen) => place != Gone && (originalSeen <==> place == Original)
    case Sweep | Delete => place == Tombstone
    case ProveDeleted | ProveOriginalGone | ProveDirectoryEmpty | ProveVolume | Record => place == Gone
    case _ => true
  }

  /** Where a recovery that knows what it should is heading. */
  function RecovererEnd(step: RecovererPc, place: Place): End {
    match step
    case RecheckOriginal => if place == Tombstone then End(Deleted, Gone) else End(IntegrityUnknown, place)
    case RecheckTombstone(_) => if place == Tombstone then End(Deleted, Gone) else End(IntegrityUnknown, place)
    case GiveUp => End(IntegrityUnknown, place)
    case _ => End(Deleted, Gone)
  }

  lemma {:induction false} RecovererReachesItsEnd(s: State, g: nat, step: RecovererPc, n: nat)
    requires Working(s, g, Recoverer(step)) && RecovererSees(step, s.place) && n >= RecovererLeft(step)
    ensures EndsAs(s, g, n, RecovererEnd(step, s.place))
    decreases n
  {
    var t := Next(s, Step(g, Succeeds));
    if g in t.calls {
      RecovererReachesItsEnd(t, g, t.calls[g].step, n - 1);
      assert t.calls - {g} == s.calls - {g};
    } else {
      assert Proceed(t, g, n - 1) == t;
    }
  }

  /** An undisturbed deletion deletes. In every run of a claim on a retained item and the steps of that call alone, all
      of them successful, the call comes to its end after at most fifteen steps, and then the file is gone and its
      deletion is recorded once. */
  lemma ClaimDeletes(states: seq<State>, actions: seq<Action>)
    requires IsRun(states, actions) && Initial(states[0])
    requires |actions| >= 1 && actions[0] == Claim && Unhindered(actions[1..], states[1].generation)
    ensures |actions| >= 16 ==> states[|actions|].calls == map[]
    ensures states[|actions|].calls == map[] ==>
              var t := states[|actions|]; t.status == Deleted && t.place == Gone && t.records == 1
  {
    var s, g := states[1], states[1].generation;
    RunStep(states, actions, 0);
    ClaimerReachesItsEnd(s, g, Renew, 15);
    assert s.calls - {g} == map[];
    RunEndsAs(states, actions, 1, g, End(Deleted, Gone));
  }

  /** No claim is left behind. From every state of every run in which a deletion is under way, wherever the file is and
      whatever calls have stalled: once the lease has expired, another worker can adopt the claim, and its steps,
      undisturbed, end with the file gone and one more deletion recorded. */
  lemma ReclaimDeletes(states: seq<State>, actions: seq<Action>)
    requires IsRun(states, actions) && states[0].status == Deleting && states[0].mounted && !states[0].leaseLive
    requires |actions| >= 1 && actions[0] == Reclaim && Unhindered(actions[1..], states[1].generation)
    ensures |actions| >= 16 ==> states[1].generation !in states[|actions|].calls
    ensures states[1].generation !in states[|actions|].calls ==>
              var t := states[|actions|];
              t.status == Deleted && t.place == Gone && t.records == states[0].records + 1
  {
    RunStep(states, actions, 0);
    RecovererReachesItsEnd(states[1], states[1].generation, List, 15);
    RunEndsAs(states, actions, 1, states[1].generation, End(Deleted, Gone));
  }

  /** Such runs exist: an unhindered call can always take its next step. */
  lemma {:induction false} UnhinderedRunExists(s: State, g: nat, n: nat)
    returns (states: seq<State>, actions: seq<Action>)
    ensures IsRun(states, actions) && Unhindered(actions, g) && states[0] == s
    ensures states[|actions|] == Proceed(s, g, n)
    decreases n
  {
    if n == 0 || g !in s.calls {
      states, actions := [s], [];
    } else {
      var a := Step(g, Succeeds);
      var rest, taken := UnhinderedRunExists(Next(s, a), g, n - 1);
      states, actions := [s] + rest, [a] + taken;
      assert forall i :: 0 < i < |states| ==> states[i] == rest[i - 1];
      assert forall i :: 0 < i < |actions| ==> actions[i] == taken[i - 1];
    }
  }

  /** What one fault does to a deletion that goes well otherwise, by the step it hits and by whether the operation took
      effect all the same. Only a rename or a removal that cleanly failed lets the item be retained, and then it is in
      place; a fault that leaves the outcome unproven marks it as unknown. */
  lemma OneFaultInAClaim(s: State, g: nat, pc: ClaimerPc, o: Outcome)
    requires Working(s, g, Claimer(pc)) && ClaimerKnows(pc, s.place) && !o.Succeeds?
    ensures var t := Next(s, Step(g, o));
            match pc
            case Renew => g !in t.calls && t.status == Deleting && t.place == Original && t.records == s.records
            case Prepare => EndsAs(t, g, 15, End(IntegrityUnknown, Original))
            case Rename => EndsAs(t, g, 15, if o.FailsClean? then End(Retained, Original) else End(Deleted, Gone))
            case Remove =>
              EndsAs(t, g, 15, if o.FailsClean? then End(Retained, Original) else End(IntegrityUnknown, Gone))
            case CheckTombstone | CheckOriginal | CheckDirectory => EndsAs(t, g, 15, End(IntegrityUnknown, Gone))
            case Finalise =>
              if o.FailsClean? then EndsAs(t, g, 15, End(IntegrityUnknown, Gone))
              else t.status == Deleted && t.place == Gone && t.records == s.records + 1
                   && Proceed(t, g, 1) == t.(calls := t.calls - {g})
            case ProbeOriginal | ListDirectory(_) | ProbeTombstone(_, _) | ConfirmRestored =>
              EndsAs(t, g, 15, End(IntegrityUnknown, s.place))
            case Restore =>
              var place := if o.FailsDone? && s.place == Tombstone then Original else s.place;
              EndsAs(t, g, 15, End(IntegrityUnknown, place))
            case Release => t == s.(status := if o.FailsDone? then Retained else Deleting, calls := s.calls - {g})
            case MarkUncertain =>
              t == s.(status := if o.FailsDone? then IntegrityUnknown else Deleting, calls := s.calls - {g})
            case ConfirmVolume => true
  {
    var t := Next(s, Step(g, o));
    if g in t.calls && t.Owns(g) {
      ClaimerReachesItsEnd(t, g, t.calls[g].pc, 15);
    }
  }

  /** One of them spelled out as a run: the rename of a claim on a retained item fails without effect, everything else
      succeeds, and the item is retained where it was. */
  lemma FailedRenameRetains(states: seq<State>, actions: seq<Action>)
    requires IsRun(states, actions) && Initial(states[0]) && |actions| >= 4
    requires var g := states[1].generation;
      actions[0] == Claim && actions[1] == actions[2] == Step(g, Succeeds) && actions[3] == Step(g, FailsClean)
      && Unhindered(actions[4..], g)
    ensures |actions| >= 19 ==> states[|actions|].calls == map[]
    ensures states[|actions|].calls == map[] ==>
              var t := states[|actions|]; t.status == Retained && t.place == Original && t.records == 0
  {
    var g := states[1].generation;
    BeforeTheRename(states, actions);
    RunStep(states, actions, 3);
    OneFaultInAClaim(states[3], g, Rename, FailsClean);
    assert states[4].calls - {g} == map[];
    RunEndsAs(states, actions, 4, g, End(Retained, Original));
  }

  lemma RunStep(states: seq<State>, actions: seq<Action>, i: nat)
    requires IsRun(states, actions) && i < |actions|
    ensures Enabled(states[i], actions[i]) && states[i + 1] == Next(states[i], actions[i])
  {}

  lemma BeforeTheRename(states: seq<State>, actions: seq<Action>)
    requires IsRun(states, actions) && Initial(states[0]) && |actions| >= 3 && actions[0] == Claim
    requires var g := states[1].generation; actions[1] == actions[2] == Step(g, Succeeds)
    ensures var s, g := states[3], states[1].generation;
      Working(s, g, Claimer(Rename)) && s.place == Original && s.records == 0 && s.calls == map[g := Claimer(Rename)]
  {
    RunStep(states, actions, 0);
    RunStep(states, actions, 1);
    RunStep(states, actions, 2);
  }

  /** A run whose last part is one unhindered call ends as that call does. */
  lemma RunEndsAs(states: seq<State>, actions: seq<Action>, k: nat, g: nat, end: End)
    requires IsRun(states, actions) && k <= |actions| && Unhindered(actions[k..], g)
    requires EndsAs(states[k], g, 15, end)
    ensures |actions| >= k + 15 ==> g !in states[|actions|].calls
    ensures var t := states[|actions|];
      g !in t.calls ==>
        && t.calls == states[k].calls - {g} && t.status == end.status && t.place == end.place
        && t.records == states[k].records + (if end.status == Deleted then 1 else 0)
  {
    var n := |actions| - k;
    RunFrom(states, actions, k);
    UnhinderedRunProceeds(states[k..], actions[k..], g);
    if n >= 15 {
      ProceedStaysEnded(states[k], g, 15, n);
    } else if g !in states[|actions|].calls {
      ProceedStaysEnded(states[k], g, n, 15);
    }
  }

  /** And to a recovery: a rename that took effect, or a record that was written, completes it all the same; every
      other fault ends in the admission that nobody knows. */
  lemma OneFaultInARecovery(s: State, g: nat, step: RecovererPc, o: Outcome)
    requires Working(s, g, Recoverer(step)) && RecovererSees(step, s.place) && !o.Succeeds?
    ensures var t := Next(s, Step(g, o));
            if step == Resume && o.FailsDone? then EndsAs(t, g, 15, End(Deleted, Gone))
            else if step == Record && o.FailsDone?
            then t.status == Deleted && t.place == Gone && t.records == s.records + 1
            else if step == GiveUp then g !in t.calls
            else EndsAs(t, g, 15, End(IntegrityUnknown, t.place))
                 && t.place == (if step == Delete && o.FailsDone? then Gone else s.place)
  {
    var t := Next(s, Step(g, o));
    if g in t.calls && t.Owns(g) {
      RecovererReachesItsEnd(t, g, t.calls[g].step, 15);
    }
  }

  /** A call that has lost its claim or its lease before it renews it gives up without a trace. */
  lemma LateCallTouchesNothing(s: State, g: nat, o: Outcome)
    requires g in s.calls && s.calls[g] == Claimer(Renew) && !(s.Owns(g) && s.leaseLive)
    ensures Next(s, Step(g, o)) == s.(calls := s.calls - {g})
  {}

  /** A call whose lease ran out while it worked, and whose claim nobody has taken, admits that it does not know; and if
      it was about to give the item back, it leaves that to whoever takes the claim. */
  lemma LateCallRecordsNothing(s: State, g: nat)
    requires g in s.calls && s.Owns(g) && !s.leaseLive
    ensures s.calls[g] == Claimer(Finalise) || s.calls[g] == Recoverer(Record) ==>
              EndsAs(s, g, 2, End(IntegrityUnknown, s.place))
    ensures s.calls[g] == Claimer(Release) ==> Proceed(s, g, 1) == s.(calls := s.calls - {g})
  {
    var t := Next(s, Step(g, Succeeds));
    if s.calls[g] == Claimer(Finalise) || s.calls[g] == Recoverer(Record) {
      var u := Next(t, Step(g, Succeeds));
      assert Proceed(s, g, 2) == Proceed(t, g, 1) == Proceed(u, g, 0);
    } else if s.calls[g] == Claimer(Release) {
      assert Proceed(s, g, 1) == Proceed(t, g, 0);
    }
  }

  /** And one whose claim was taken changes nothing by finishing, giving back, or giving up. */
  lemma SupersededCallRecordsNothing(s: State, g: nat, o: Outcome)
    requires g in s.calls && !s.Owns(g)
    requires s.calls[g] in
               {Claimer(Finalise), Claimer(Release), Claimer(MarkUncertain), Recoverer(Record), Recoverer(GiveUp)}
    ensures var t := Next(s, Step(g, o)); t == s.(calls := t.calls) && t.calls - {g} == s.calls - {g}
  {}

  /** A claim is safe while its lease is: between two takings of the claim, the lease has expired. */
  lemma LeaseProtectsTheClaim(states: seq<State>, actions: seq<Action>, i: nat, k: nat) returns (j: nat)
    requires IsRun(states, actions) && i < k < |actions|
    requires (actions[i] == Claim || actions[i] == Reclaim) && actions[k] == Reclaim
    ensures i < j < k && actions[j] == ExpireLease
  {
    assert states[i + 1] == Next(states[i], actions[i]) && states[i + 1].leaseLive;
    assert Enabled(states[k], actions[k]) && !states[k].leaseLive;
    j := WhenLeaseExpired(states, actions, i + 1, k);
  }

  lemma {:induction false} WhenLeaseExpired(states: seq<State>, actions: seq<Action>, i: nat, k: nat) returns (j: nat)
    requires IsRun(states, actions) && i <= k < |states| && states[i].leaseLive && !states[k].leaseLive
    ensures i <= j < k && actions[j] == ExpireLease
    decreases k - i
  {
    assert i < k;
    assert Enabled(states[i], actions[i]) && states[i + 1] == Next(states[i], actions[i]);
    if actions[i] == ExpireLease {
      j := i;
    } else {
      j := WhenLeaseExpired(states, actions, i + 1, k);
    }
  }

  /** `deleted` and `integrity_unknown` are final whatever stale calls do, so no deletion is recorded twice. */
  lemma {:induction false} TerminalStatusIsFinal(states: seq<State>, actions: seq<Action>, i: nat)
    requires IsRun(states, actions) && i < |states|
    requires states[0].status == Deleted || states[0].status == IntegrityUnknown
    ensures states[i].status == states[0].status && states[i].records == states[0].records
  {
    if i == 0 {
    } else {
      TerminalStatusIsFinal(states, actions, i - 1);
      var s, a := states[i - 1], actions[i - 1];
      assert Enabled(s, a) && states[i] == Next(s, a);
      if a.Step? {
        StaleStepEffect(s, a.call, a.outcome);
      }
    }
  }

  /** A window move is enough to falsify the record: with the lease still live, three ordinary steps of the recovery
      record a deletion while the file lies under its tombstone name. */
  lemma WindowMoveFalsifiesRecord(s: State, a: Action)
    requires Inv(s) && Enabled(s, a) && WindowMove(s, a)
    ensures var r := Step(s.generation, Succeeds);
            var s1 := Next(s, a);
            Enabled(s1, r) && Enabled(Next(s1, r), r) && Enabled(Next(Next(s1, r), r), r)
            && (var t := Next(Next(Next(s1, r), r), r);
                t.status == Deleted && t.place == Tombstone && !Truthful(t))
  {
    var g := s.generation;
    var r := Step(g, Succeeds);
    var s1 := Next(s, a);
    assert s1.calls[g] == Recoverer(FindOriginal(false)) && s1.place == Tombstone;
    var s2 := Next(s1, r);
    assert s2.calls[g] == Recoverer(ProveVolume) && s2.Owns(g) && s2.mounted && s2.place == Tombstone;
    var s3 := Next(s2, r);
    assert s3.calls[g] == Recoverer(Record) && s3.Owns(g) && s3.leaseLive && s3.place == Tombstone;
  }

  // ----- the two conditions are exact ----------------------------------------------------------------------------

  /** Some continuation without a window move and without a blind probe makes the record false. */
  ghost predicate Falsifiable(s: State) {
    exists states, actions :: IsRun(states, actions) && Undisturbed(states, actions) && states[0] == s
                              && !Truthful(states[|actions|])
  }

  lemma FalseNow(s: State)
    requires !Truthful(s)
    ensures Falsifiable(s)
  {
    assert IsRun([s], []) && Undisturbed([s], []);
  }

  lemma FalseAfter(s: State, a: Action)
    requires Enabled(s, a) && !WindowMove(s, a) && !BlindProbe(s, a) && Falsifiable(Next(s, a))
    ensures Falsifiable(s)
  {
    var states, actions :| IsRun(states, actions) && Undisturbed(states, actions) && states[0] == Next(s, a)
                           && !Truthful(states[|actions|]);
    RunPrepends(s, a, states, actions);
    assert ([s] + states)[|[a] + actions|] == states[|actions|];
  }

  lemma RunPrepends(s: State, a: Action, states: seq<State>, actions: seq<Action>)
    requires IsRun(states, actions) && Undisturbed(states, actions) && Enabled(s, a) && states[0] == Next(s, a)
    requires !WindowMove(s, a) && !BlindProbe(s, a)
    ensures IsRun([s] + states, [a] + actions) && Undisturbed([s] + states, [a] + actions)
  {
    var longer, taken := [s] + states, [a] + actions;
    forall i | 0 <= i < |taken|
      ensures Enabled(longer[i], taken[i]) && longer[i + 1] == Next(longer[i], taken[i])
      ensures !WindowMove(longer[i], taken[i]) && !BlindProbe(longer[i], taken[i])
    {
      if i > 0 {
        assert longer[i] == states[i - 1] && taken[i] == actions[i - 1] && longer[i + 1] == states[i];
      }
    }
  }

  /** How many successful steps away a call that has concluded wrongly is from recording it; 0 when it is not. */
  function StepsToFalseRecord(call: Call, place: Place): nat {
    match call
    case Claimer(Finalise) => 1
    case Recoverer(Record) => 1
    case Claimer(ConfirmVolume) => 2
    case Recoverer(ProveVolume) => 2
    case Recoverer(ProveDirectoryEmpty) => if place == Original then 2 else 0
    case Claimer(ProbeTombstone(originalSeen, listed)) => if !originalSeen && !listed && place == Original then 3 else 0
    case Recoverer(FindOriginal(found)) => if !found && place == Tombstone then 3 else 0
    case Claimer(ListDirectory(originalSeen)) => if !originalSeen && place == Original then 4 else 0
    case _ => 0
  }

  /** The call that holds a live claim, on a volume that is in place. */
  predicate AtWork(s: State, call: Call) {
    && s.mounted && s.leaseLive && s.status == Deleting
    && s.generation in s.calls && s.calls[s.generation] == call
  }

  lemma {:induction false} FalseConclusionIsRecorded(s: State, call: Call)
    requires AtWork(s, call) && s.place != Gone && StepsToFalseRecord(call, s.place) >= 1
    ensures Falsifiable(s)
    decreases StepsToFalseRecord(call, s.place)
  {
    var a := Step(s.generation, Succeeds);
    var t := Next(s, a);
    if StepsToFalseRecord(call, s.place) == 1 {
      FalseNow(t);
    } else {
      FalseConclusionIsRecorded(t, t.calls[t.generation]);
    }
    FalseAfter(s, a);
  }

  /** How many steps a stale claimer is from putting the tombstone back. */
  function StepsToRestore(call: Call): nat
    requires MayRestore(call)
  {
    if call.pc == Prepare then 7
    else if call.pc == Rename then 6
    else if call.pc == ProbeOriginal then 5
    else if call.pc.ListDirectory? then 4
    else if call.pc.ProbeTombstone? then 3
    else if call.pc == Restore then 1
    else 2
  }

  /** The recovery has seen no original; a stale claimer puts the file back; the recovery then sees no tombstone. */
  lemma {:induction false} StaleRestoreFalsifiesRecord(s: State, h: nat)
    requires AtWork(s, Recoverer(ProveDirectoryEmpty)) && s.place == Tombstone
    requires h in s.calls && h != s.generation && MayRestore(s.calls[h])
    ensures Falsifiable(s)
    decreases StepsToRestore(s.calls[h])
  {
    var pc := s.calls[h].pc;
    var failing := pc == Remove || pc == CheckTombstone || pc == CheckOriginal || pc == CheckDirectory;
    var a := Step(h, if failing then FailsClean else Succeeds);
    var t := Next(s, a);
    if pc == Restore {
      FalseConclusionIsRecorded(t, Recoverer(ProveDirectoryEmpty));
    } else {
      StaleRestoreFalsifiesRecord(t, h);
    }
    FalseAfter(s, a);
  }

  lemma MissedTombstoneFalsifiesRecord(s: State, h: nat)
    requires AtWork(s, Recoverer(ProveOriginalGone)) && s.place == Tombstone
    requires h in s.calls && h != s.generation && MayRestore(s.calls[h])
    ensures Falsifiable(s)
  {
    var a := Step(s.generation, Succeeds);
    StaleRestoreFalsifiesRecord(Next(s, a), h);
    FalseAfter(s, a);
  }

  /** How many steps a stale call is from taking the original to the tombstone. */
  function StepsToTake(call: Call): nat
    requires MayTake(call)
  {
    match call
    case Claimer(pc) => if pc == Prepare then 2 else 1
    case Recoverer(step) =>
      match step
      case List => 5
      case FindTombstone(_) => 4
      case FindOriginal(_) => 3
      case MakeDirectory => 2
      case _ => 1
  }

  /** The file is taken to the tombstone just before the recovery looks for the original, and put back just before it
      looks for the tombstone. */
  lemma {:induction false} MissedOriginalFalsifiesRecord(s: State, g: nat, h: nat)
    requires AtWork(s, Recoverer(ProveOriginalGone)) && s.place == Original
    requires g in s.calls && g != s.generation && MayTake(s.calls[g])
    requires h in s.calls && h != s.generation && MayRestore(s.calls[h])
    ensures Falsifiable(s)
    decreases StepsToTake(s.calls[g])
  {
    var a := Step(g, Succeeds);
    var t := Next(s, a);
    if s.calls[g] == Claimer(Rename) || s.calls[g] == Recoverer(Resume) {
      MissedTombstoneFalsifiesRecord(t, h);
    } else {
      MissedOriginalFalsifiesRecord(t, g, h);
    }
    FalseAfter(s, a);
  }

  /** A blind probe is always enough. The volume comes back, no other probe is blind and no window move happens; in some
      continuation the record becomes false all the same. */
  lemma BlindProbeFalsifiesRecord(s: State, a: Action)
    requires Inv(s) && Enabled(s, a) && BlindProbe(s, a)
    ensures Falsifiable(Next(s, a))
  {
    var g, t := a.call, Next(Next(s, a), Mount);
    if s.calls[g] == Recoverer(Sweep) {
      var h :| h in s.calls && MayRestore(s.calls[h]);
      MissedTombstoneFalsifiesRecord(t, h);
    } else if s.calls[g] == Recoverer(FindOriginal(true)) {
      var h :| h in s.calls && MayRestore(s.calls[h]);
      var taker :| taker in s.calls && taker != s.generation && MayTake(s.calls[taker]);
      var sweep := Step(g, Succeeds);
      MissedOriginalFalsifiesRecord(Next(t, sweep), taker, h);
      FalseAfter(t, sweep);
    } else {
      FalseConclusionIsRecorded(t, t.calls[g]);
    }
    FalseAfter(Next(s, a), Mount);
  }

  /** So the two conditions are exact for the record itself: from a state that satisfies the invariant, a step leads
      to a state from which the record can become false without any further window move or blind probe exactly when
      the step is one of them. */
  lemma RecordIsAtRiskExactly(s: State, a: Action)
    requires Inv(s) && Enabled(s, a)
    ensures Falsifiable(Next(s, a)) <==> WindowMove(s, a) || BlindProbe(s, a)
  {
    StepKeepsInvExactly(s, a);
    if WindowMove(s, a) {
      FalseConclusionIsRecorded(Next(s, a), Recoverer(FindOriginal(false)));
    } else if BlindProbe(s, a) {
      BlindProbeFalsifiesRecord(s, a);
    } else if Falsifiable(Next(s, a)) {
      var states, actions :| IsRun(states, actions) && Undisturbed(states, actions) && states[0] == Next(s, a)
                             && !Truthful(states[|actions|]);
      UndisturbedKeepsInv(states, actions, |actions|);
      assert false;
    }
  }

  const FRESH_ITEM := State(Retained, 0, false, Original, true, map[], 0)

  /** A state that some run from a fresh item reaches: one that keeps the volume, or one without window moves. */
  ghost predicate Reachable(s: State, keepsVolume: bool) {
    exists states, actions :: IsRun(states, actions) && Initial(states[0]) && states[|actions|] == s
                              && Avoids(states, actions, keepsVolume)
  }

  ghost predicate Avoids(states: seq<State>, actions: seq<Action>, keepsVolume: bool)
    requires |states| == |actions| + 1
  {
    forall i :: 0 <= i < |actions| ==> !Avoided(states[i], actions[i], keepsVolume)
  }

  predicate Avoided(s: State, a: Action, keepsVolume: bool) {
    if keepsVolume then a.Unmount? else WindowMove(s, a)
  }

  lemma ReachStart(keepsVolume: bool)
    ensures Reachable(FRESH_ITEM, keepsVolume)
  {
    assert IsRun([FRESH_ITEM], []) && Avoids([FRESH_ITEM], [], keepsVolume);
  }

  lemma ReachStep(s: State, a: Action, t: State, keepsVolume: bool)
    requires Reachable(s, keepsVolume) && Enabled(s, a) && !Avoided(s, a, keepsVolume) && t == Next(s, a)
    ensures Reachable(t, keepsVolume)
  {
    var states, actions :| IsRun(states, actions) && Initial(states[0]) && states[|actions|] == s
                           && Avoids(states, actions, keepsVolume);
    var longer, taken := states + [t], actions + [a];
    RunExtends(states, actions, a);
    AvoidsExtends(states, actions, a, t, keepsVolume);
    assert longer[|taken|] == t;
  }

  lemma RunExtends(states: seq<State>, actions: seq<Action>, a: Action)
    requires IsRun(states, actions) && Enabled(states[|actions|], a)
    ensures IsRun(states + [Next(states[|actions|], a)], actions + [a])
  {}

  lemma AvoidsExtends(states: seq<State>, actions: seq<Action>, a: Action, t: State, keepsVolume: bool)
    requires |states| == |actions| + 1 && Avoids(states, actions, keepsVolume)
    requires !Avoided(states[|actions|], a, keepsVolume)
    ensures Avoids(states + [t], actions + [a], keepsVolume)
  {}

  /** A first worker has renewed its lease and stands before its rename. */
  const BEFORE_RENAME := State(Deleting, 1, true, Original, true, map[1 := Claimer(Rename)], 0)

  lemma BeforeRenameIsReachable(keepsVolume: bool)
    ensures Reachable(BEFORE_RENAME, keepsVolume)
  {
    var s1 := BEFORE_RENAME.(calls := map[1 := Claimer(Renew)]);
    var s2 := BEFORE_RENAME.(calls := map[1 := Claimer(Prepare)]);
    ReachStart(keepsVolume);
    ReachStep(FRESH_ITEM, Claim, s1, keepsVolume);
    ReachStep(s1, Step(1, Succeeds), s2, keepsVolume);
    ReachStep(s2, Step(1, Succeeds), BEFORE_RENAME, keepsVolume);
  }

  /** The first worker stalled, a second adopted the claim and looked for the tombstone, then the first renamed. */
  const WINDOW_MOVED :=
    State(Deleting, 2, true, Tombstone, true, map[1 := Claimer(Remove), 2 := Recoverer(FindOriginal(false))], 0)

  lemma WindowMoveIsReachable()
    ensures Reachable(WINDOW_MOVED, true)
  {
    var s3 := BEFORE_RENAME.(leaseLive := false);
    var s4 := State(Deleting, 2, true, Original, true, map[1 := Claimer(Rename), 2 := Recoverer(List)], 0);
    var s5 := s4.(calls := map[1 := Claimer(Rename), 2 := Recoverer(FindTombstone(false))]);
    var s6 := s4.(calls := map[1 := Claimer(Rename), 2 := Recoverer(FindOriginal(false))]);
    BeforeRenameIsReachable(true);
    ReachStep(BEFORE_RENAME, ExpireLease, s3, true);
    ReachStep(s3, Reclaim, s4, true);
    ReachStep(s4, Step(2, Succeeds), s5, true);
    ReachStep(s5, Step(2, Succeeds), s6, true);
    ReachStep(s6, Step(1, Succeeds), WINDOW_MOVED, true);
  }

  /** The second worker has found nothing and is about to record the deletion. */
  const ABOUT_TO_RECORD :=
    State(Deleting, 2, true, Tombstone, true, map[1 := Claimer(Remove), 2 := Recoverer(Record)], 0)

  lemma AboutToRecordIsReachable()
    ensures Reachable(ABOUT_TO_RECORD, true)
  {
    var s8 := WINDOW_MOVED.(calls := map[1 := Claimer(Remove), 2 := Recoverer(ProveVolume)]);
    WindowMoveIsReachable();
    ReachStep(WINDOW_MOVED, Step(2, Succeeds), s8, true);
    ReachStep(s8, Step(2, Succeeds), ABOUT_TO_RECORD, true);
  }

  /** The second worker has recorded the deletion. */
  const WRONGLY_RECORDED := State(Deleted, 2, true, Tombstone, true, map[1 := Claimer(Remove)], 1)

  lemma WrongRecordIsReachable()
    ensures Reachable(WRONGLY_RECORDED, true)
  {
    AboutToRecordIsReachable();
    ReachStep(ABOUT_TO_RECORD, Step(2, Succeeds), WRONGLY_RECORDED, true);
  }

  /** Such a run from the start, with the volume in place throughout: after the window move the second worker finds
      nothing and records a deletion, the first fails to remove the tombstone and puts the file back. The record
      says deleted; the file is under its own name. */
  lemma StalledWorkerFalsifiesRecord()
    ensures Reachable(State(Deleted, 2, true, Original, true, map[1 := Claimer(ConfirmRestored)], 1), true)
  {
    var s11 := WRONGLY_RECORDED.(calls := map[1 := Claimer(Restore)]);
    var s12 := WRONGLY_RECORDED.(place := Original, calls := map[1 := Claimer(ConfirmRestored)]);
    WrongRecordIsReachable();
    ReachStep(WRONGLY_RECORDED, Step(1, FailsClean), s11, true);
    ReachStep(s11, Step(1, Succeeds), s12, true);
  }

  /** A worker crashed after its rename, and a second adopted the claim. */
  const ADOPTED_AFTER_CRASH := State(Deleting, 2, true, Tombstone, true, map[2 := Recoverer(List)], 0)

  lemma AdoptedAfterCrashIsReachable()
    ensures Reachable(ADOPTED_AFTER_CRASH, false)
  {
    var s3 := BEFORE_RENAME.(place := Tombstone, calls := map[1 := Claimer(Remove)]);
    var s4 := s3.(calls := map[]);
    var s5 := s4.(leaseLive := false);
    BeforeRenameIsReachable(false);
    ReachStep(BEFORE_RENAME, Step(1, Succeeds), s3, false);
    ReachStep(s3, Crash(1), s4, false);
    ReachStep(s4, ExpireLease, s5, false);
    ReachStep(s5, Reclaim, ADOPTED_AFTER_CRASH, false);
  }

  /** The second worker found the tombstone. */
  const FOUND_TOMBSTONE := State(Deleting, 2, true, Tombstone, true, map[2 := Recoverer(Sweep)], 0)

  lemma FoundTombstoneIsReachable()
    ensures Reachable(FOUND_TOMBSTONE, false)
  {
    var s7 := FOUND_TOMBSTONE.(calls := map[2 := Recoverer(FindTombstone(true))]);
    var s8 := FOUND_TOMBSTONE.(calls := map[2 := Recoverer(FindOriginal(true))]);
    AdoptedAfterCrashIsReachable();
    ReachStep(ADOPTED_AFTER_CRASH, Step(2, Succeeds), s7, false);
    ReachStep(s7, Step(2, Succeeds), s8, false);
    ReachStep(s8, Step(2, Succeeds), FOUND_TOMBSTONE, false);
  }

  /** The volume went away, and the second worker's next probe misses the tombstone. */
  const PROBED_BLIND := State(Deleting, 2, true, Tombstone, false, map[2 := Recoverer(ProveOriginalGone)], 0)

  lemma ProbedBlindIsReachable()
    ensures Reachable(PROBED_BLIND, false)
  {
    var s10 := FOUND_TOMBSTONE.(mounted := false);
    FoundTombstoneIsReachable();
    ReachStep(FOUND_TOMBSTONE, Unmount, s10, false);
    ReachStep(s10, Step(2, Succeeds), PROBED_BLIND, false);
  }

  /** Such blind probes happen, without any window move: the volume's marker is checked only by a recovery that found
      nothing, so a volume that goes away after the tombstone was found reads as a finished removal. */
  lemma VanishedVolumeFalsifiesRecord()
    ensures Reachable(State(Deleted, 2, true, Tombstone, false, map[], 1), false)
  {
    var s12 := PROBED_BLIND.(calls := map[2 := Recoverer(ProveDirectoryEmpty)]);
    var s13 := PROBED_BLIND.(calls := map[2 := Recoverer(Record)]);
    var s14 := PROBED_BLIND.(status := Deleted, records := 1, calls := map[]);
    ProbedBlindIsReachable();
    ReachStep(PROBED_BLIND, Step(2, Succeeds), s12, false);
    ReachStep(s12, Step(2, Succeeds), s13, false);
    ReachStep(s13, Step(2, Succeeds), s14, false);
  }
}
