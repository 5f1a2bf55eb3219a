/** The listings of the workbench under its `busy` lock: operations start from controls, answers arrive later, and
    several operations can be outstanding when a control escapes the lock. */
module Workbench {
  import opened Options
  import opened Paging
  import opened Currency

  datatype Listing = Evidence | Gaps | Requirements

  /** What has been started and not yet finished. A listing request carries the credential it was sent with. */
  datatype Job =
    | Load(listing: Listing, who: nat)
    | LoadMore(listing: Listing, who: nat, offset: nat)
    | Mutate(listing: Listing, who: nat)
    | Plain
    | Reset
    | Tile
    | SignOut

  /** How an answer reads to `act`. */
  datatype Outcome = Success | Unauthorized | Failure

  datatype Event =
    | PressLoad(listing: Listing)
    | PressLoadMore(listing: Listing)
    | PressMutate(listing: Listing)
    | PressPlain
    | PressReset
    | PressTile
    | PressSignOut
    | EditCredential(who: nat)
    | TokenReceived(who: nat)
    | SessionAnswered(confirmed: bool)
    | Settle(job: nat, outcome: Outcome)
    | Changed(listing: Listing)

  /** `who` is the identity whose credential the next request carries; `signedIn` is whether the screen shows one.
      Beside the screen's own state: how often each listing has changed at the server, and which listings on screen
      have changed since their first page was loaded. */
  datatype Desk = Desk(
    busy: bool,
    signedIn: bool,
    who: nat,
    rows: map<Listing, seq<Row>>,
    more: set<Listing>,
    jobs: seq<Job>,
    versions: map<Listing, nat>,
    stale: set<Listing>)

  /** What the API lists for a credential after so many changes of the listing. */
  type Served = (nat, Listing, nat) -> seq<Row>

  function Version(d: Desk, l: Listing): nat { if l in d.versions then d.versions[l] else 0 }

  /** What the API lists now, for an identity and for the present one. */
  function ListedFor(d: Desk, served: Served, who: nat, l: Listing): seq<Row> { served(who, l, Version(d, l)) }

  function Listed(d: Desk, served: Served, l: Listing): seq<Row> { ListedFor(d, served, d.who, l) }

  function LimitOf(listing: Listing): nat {
    if listing.Requirements? then SELECT_PAGE_SIZE else PAGE_SIZE
  }

  /** Only evidence rows carry a mark. */
  ghost function Present(listing: Listing, rows: seq<Row>): seq<Row> {
    if listing.Evidence? then WithCurrency(rows) else rows
  }

  function Held(rows: map<Listing, seq<Row>>, listing: Listing): seq<Row> {
    if listing in rows then rows[listing] else []
  }

  // ----- when a control can be pressed ----------------------------------------------------------------------------

  /** The reasons a control is locked for, most permanent first. */
  datatype Lock = SignedOut | Permission | Precondition | Busy

  function LockOf(signedOut: bool, permission: bool, precondition: bool, busy: bool): Option<Lock> {
    if signedOut then Some(SignedOut)
    else if permission then Some(Permission)
    else if precondition then Some(Precondition)
    else if busy then Some(Busy)
    else None
  }

  /** The controls, for a role that holds every permission and with every field filled in. The catalogue tiles are
      plain buttons, the credential field and signing in do not ask for the lock, and load-more does not ask who is
      signed in. */
  predicate Enabled(d: Desk, e: Event) {
    match e
    case PressLoad(_) => LockOf(!d.signedIn, false, false, d.busy).None?
    case PressLoadMore(l) =>
      l in d.more && (l.Requirements? || Held(d.rows, l) != []) && LockOf(false, false, false, d.busy).None?
    case PressMutate(_) => LockOf(false, false, false, d.busy).None?
    case PressPlain => LockOf(false, false, false, d.busy).None?
    case PressReset => d.signedIn && LockOf(false, false, false, d.busy).None?
    case PressTile => true
    case PressSignOut => d.signedIn && LockOf(false, false, false, d.busy).None?
    case EditCredential(_) => true
    case TokenReceived(_) => true
    case SessionAnswered(_) => true
    case Settle(i, _) => i < |d.jobs|
    case Changed(_) => true
  }

  // ----- what an event does ---------------------------------------------------------------------------------------

  function Started(d: Desk, job: Job): Desk {
    d.(busy := d.busy || !job.SignOut?, jobs := d.jobs + [job])
  }

  function Without(jobs: seq<Job>, i: nat): seq<Job>
    requires i < |jobs|
  {
    jobs[..i] + jobs[i + 1..]
  }

  /** A listing changes at the server, by an operation of this screen or by somebody else. */
  function Change(d: Desk, l: Listing): Desk {
    d.(versions := d.versions[l := Version(d, l) + 1], stale := if l in d.rows then d.stale + {l} else d.stale)
  }

  function ChangeAll(d: Desk): Desk { Change(Change(Change(d, Evidence), Gaps), Requirements) }

  function Cleared(d: Desk): Desk { d.(rows := map[], more := {}, stale := {}) }

  /** A page arrives for a listing: the rows it joins, and the flag it brings. */
  ghost function Arrived(d: Desk, listing: Listing, before: seq<Row>, reply: Reply<Row>): Desk {
    d.(rows := d.rows[listing := Present(listing, AppendPage(before, reply.items))],
       more := if reply.hasMore then d.more + {listing} else d.more - {listing})
  }

  /** A finished operation releases the lock whoever else still holds it; a refused credential ends the session. */
  function Released(d: Desk, i: nat, outcome: Outcome): Desk
    requires i < |d.jobs|
  {
    d.(busy := false, signedIn := d.signedIn && !outcome.Unauthorized?, jobs := Without(d.jobs, i))
  }

  ghost function Settled(d: Desk, served: Served, i: nat, outcome: Outcome): Desk
    requires i < |d.jobs|
  {
    var job := d.jobs[i];
    if job.SignOut? then
      Cleared(d).(signedIn := false, jobs := Without(d.jobs, i))
    else if !outcome.Success? then Released(d, i, outcome)
    else match job
      case Load(l, who) =>
        Arrived(Released(d, i, outcome), l, [], Serve(ListedFor(d, served, who, l), LimitOf(l), 0))
        .(stale := d.stale - {l})
      case LoadMore(l, who, offset) =>
        Arrived(Released(d, i, outcome), l, Held(d.rows, l), Serve(ListedFor(d, served, who, l), LimitOf(l), offset))
      case Reset => ChangeAll(Cleared(Released(d, i, outcome)))
      case Mutate(l, who) => Change(d, l).(busy := true, jobs := d.jobs[i := Load(l, who)])
      case _ => Released(d, i, outcome)
  }

  ghost function Next(d: Desk, served: Served, e: Event): Desk
    requires Enabled(d, e)
  {
    match e
    case PressLoad(l) => Started(d, Load(l, d.who))
    case PressLoadMore(l) => Started(d, LoadMore(l, d.who, |Held(d.rows, l)|))
    case PressMutate(l) => Started(d, Mutate(l, d.who))
    case PressPlain => Started(d, Job.Plain)
    case PressReset => Started(d, Reset)
    case PressTile => Started(d, Tile)
    case PressSignOut => Started(d, SignOut)
    case EditCredential(who) => d.(signedIn := false, who := who)
    case TokenReceived(who) => d.(who := who)
    case SessionAnswered(confirmed) => d.(signedIn := confirmed)
    case Settle(i, outcome) => Settled(d, served, i, outcome)
    case Changed(l) => Change(d, l)
  }

  // ----- the safe runs --------------------------------------------------------------------------------------------

  /** The ways around the lock, excluded: nothing starts while a sign-out is pending, no tile is pressed while
      anything is outstanding, and no other identity's credential is brought in over rows or operations. */
  predicate Orderly(d: Desk, e: Event) {
    match e
    case Settle(_, _) => true
    case SessionAnswered(_) => true
    case Changed(_) => true
    case EditCredential(who) => MayBecome(d, who)
    case TokenReceived(who) => MayBecome(d, who)
    case PressTile => d.jobs == []
    case _ => SignOut !in d.jobs
  }

  predicate MayBecome(d: Desk, who: nat) { who == d.who || (d.jobs == [] && d.rows == map[]) }

  /** The rows of a listing are its first rows, and the flag says whether there are others. */
  ghost predicate IsPrefix(d: Desk, served: Served, l: Listing, n: nat) {
    && l in d.rows && n <= |Listed(d, served, l)|
    && d.rows[l] == Present(l, Listed(d, served, l)[..n])
    && (l in d.more <==> n < |Listed(d, served, l)|)
  }

  ghost predicate ListingInv(d: Desk, served: Served, l: Listing) {
    if l in d.rows then l in d.stale || exists n: nat :: IsPrefix(d, served, l, n)
    else l !in d.more && l !in d.stale
  }

  ghost predicate JobInv(d: Desk) {
    && |d.jobs| <= 1
    && (d.busy <==> |d.jobs| == 1 && !d.jobs[0].SignOut?)
    && (forall job :: job in d.jobs ==> match job
        case Load(_, who) => who == d.who
        case Mutate(_, who) => who == d.who
        case LoadMore(l, who, offset) => who == d.who && l in d.rows && offset == |d.rows[l]|
        case _ => true)
  }

  ghost predicate Inv(d: Desk, served: Served) {
    JobInv(d) && forall l :: ListingInv(d, served, l)
  }

  function Opened(): Desk { Desk(false, false, 0, map[], {}, [], map[], {}) }

  lemma PresentKeepsLength(l: Listing, rows: seq<Row>)
    ensures |Present(l, rows)| == |rows|
  {}

  lemma PresentAppends(l: Listing, raw: seq<Row>, items: seq<Row>)
    ensures Present(l, AppendPage(Present(l, raw), items)) == Present(l, raw + items)
  {
    if l.Evidence? {
      IncrementalEqualsWhole(raw, items);
    }
  }

  lemma ArrivedKeepsPrefix(d: Desk, served: Served, l: Listing, held: nat)
    requires held <= |Listed(d, served, l)|
    ensures var listing := Listed(d, served, l);
      var after := Arrived(d, l, Present(l, listing[..held]), Serve(listing, LimitOf(l), held));
      IsPrefix(after, served, l, Min(held + LimitOf(l), |listing|))
    ensures var listing := Listed(d, served, l);
      Present(l, listing[..0]) == [] && listing[..0] == []
  {
    var listing := Listed(d, served, l);
    var reply := Serve(listing, LimitOf(l), held);
    NextPageExtendsThePrefix(listing, LimitOf(l), held);
    PresentAppends(l, listing[..held], reply.items);
  }

  lemma OtherListingsStay(d: Desk, after: Desk, served: Served, l: Listing)
    requires ListingInv(d, served, l) && after.who == d.who && Version(after, l) == Version(d, l)
    requires l in after.stale <==> l in d.stale
    requires (l in after.rows <==> l in d.rows) && (l in after.more <==> l in d.more)
    requires l in d.rows ==> after.rows[l] == d.rows[l]
    ensures ListingInv(after, served, l)
  {
    if l in d.rows && l !in d.stale {
      var n: nat :| IsPrefix(d, served, l, n);
      assert IsPrefix(after, served, l, n);
    }
  }

  lemma SettledArrivalKeepsInv(d: Desk, served: Served, outcome: Outcome)
    requires Inv(d, served) && |d.jobs| == 1 && outcome.Success? && (d.jobs[0].Load? || d.jobs[0].LoadMore?)
    ensures Inv(Settled(d, served, 0, outcome), served)
  {
    var after := Settled(d, served, 0, outcome);
    var job := d.jobs[0];
    assert job in d.jobs;
    var l := job.listing;
    var released := Released(d, 0, outcome);
    if job.Load? {
      ArrivedKeepsPrefix(released, served, l, 0);
      assert IsPrefix(after, served, l, Min(LimitOf(l), |Listed(d, served, l)|));
    } else {
      assert ListingInv(d, served, l);
      if l !in d.stale {
        var n: nat :| IsPrefix(d, served, l, n);
        PresentKeepsLength(l, Listed(d, served, l)[..n]);
        ArrivedKeepsPrefix(released, served, l, n);
      }
    }
    forall other | other != l ensures ListingInv(after, served, other) {
      assert ListingInv(d, served, other);
      OtherListingsStay(d, after, served, other);
    }
  }

  /** The new identity is listed the same rows as far as they are held, and more beyond exactly if more was offered. */
  ghost predicate ListsTheSame(d: Desk, served: Served, l: Listing, who: nat)
    requires l in d.rows
  {
    var n := |d.rows[l]|;
    && n <= |ListedFor(d, served, who, l)|
    && Present(l, ListedFor(d, served, who, l)[..n]) == d.rows[l]
    && (l in d.more <==> n < |ListedFor(d, served, who, l)|)
  }

  predicate IsListingJob(job: Job) { job.Load? || job.LoadMore? || job.Mutate? }

  /** Which credential changes keep the property: those to the same identity, and otherwise exactly those with no
      listing request outstanding and to an identity that is listed the same as far as the screen shows. */
  lemma CredentialChangeKeepsInvExactly(d: Desk, served: Served, who: nat)
    requires Inv(d, served)
    ensures Inv(d.(who := who), served) <==>
            || who == d.who
            || ((forall job :: job in d.jobs ==> !IsListingJob(job))
                && forall l :: l in d.rows && l !in d.stale ==> ListsTheSame(d, served, l, who))
  {
    var after := d.(who := who);
    if who != d.who {
      forall l | l in d.rows && l !in d.stale
        ensures ListingInv(after, served, l) <==> ListsTheSame(d, served, l, who)
      {
        if ListingInv(after, served, l) {
          var n: nat :| IsPrefix(after, served, l, n);
          PresentKeepsLength(l, ListedFor(d, served, who, l)[..n]);
        }
        if ListsTheSame(d, served, l, who) {
          assert IsPrefix(after, served, l, |d.rows[l]|);
        }
      }
      forall l | l !in d.rows || l in d.stale ensures ListingInv(after, served, l) {
        assert ListingInv(d, served, l);
      }
    }
  }

  lemma CredentialChangeKeepsInv(d: Desk, served: Served, who: nat)
    requires Inv(d, served) && MayBecome(d, who)
    ensures forall signedIn :: Inv(d.(signedIn := signedIn, who := who), served)
  {
    CredentialChangeKeepsInvExactly(d, served, who);
    forall signedIn ensures Inv(d.(signedIn := signedIn, who := who), served) {
      var before, after := d.(who := who), d.(signedIn := signedIn, who := who);
      forall l ensures ListingInv(after, served, l) {
        assert ListingInv(before, served, l);
        OtherListingsStay(before, after, served, l);
      }
    }
  }

  /** A session lost to a refused credential can be regained over its own rows, in an orderly way. */
  lemma SessionCanBeRegained(d: Desk, served: Served)
    ensures var events := [TokenReceived(d.who), SessionAnswered(true)];
      OrderlyRun(d, served, events) && IsRun(d, served, events)
      && After(d, served, events) == d.(signedIn := true)
  {
    OrderlyJoin(d, served, SessionAnswered(true), []);
    RunsJoin(d, served, SessionAnswered(true), []);
    OrderlyJoin(d, served, TokenReceived(d.who), [SessionAnswered(true)]);
    RunsJoin(d, served, TokenReceived(d.who), [SessionAnswered(true)]);
    assert [TokenReceived(d.who)] + [SessionAnswered(true)] == [TokenReceived(d.who), SessionAnswered(true)];
    assert [SessionAnswered(true)] + [] == [SessionAnswered(true)];
  }

  lemma ChangeKeepsListings(d: Desk, served: Served, l: Listing)
    requires forall k :: ListingInv(d, served, k)
    ensures forall k :: ListingInv(Change(d, l), served, k)
  {
    forall k ensures ListingInv(Change(d, l), served, k) {
      assert ListingInv(d, served, k);
      if k != l {
        OtherListingsStay(d, Change(d, l), served, k);
      }
    }
  }

  /** The guard is exact: apart from credential changes, whose exact condition is above, an event keeps the invariant
      exactly when it is orderly. */
  lemma StepKeepsInvExactlyWhenOrderly(d: Desk, served: Served, e: Event)
    requires Inv(d, served) && Enabled(d, e) && !e.EditCredential? && !e.TokenReceived?
    ensures Inv(Next(d, served, e), served) <==> Orderly(d, e)
  {
    if Orderly(d, e) {
      OrderlyStepKeepsInv(d, served, e);
    }
  }

  /** Listings do not depend on the lock, on operations in flight, or on who is shown as signed in. */
  lemma ListingsStay(d: Desk, after: Desk, served: Served)
    requires forall l :: ListingInv(d, served, l)
    requires after.who == d.who && after.rows == d.rows && after.more == d.more
    requires after.versions == d.versions && after.stale == d.stale
    ensures forall l :: ListingInv(after, served, l)
  {
    forall l ensures ListingInv(after, served, l) {
      assert ListingInv(d, served, l);
      OtherListingsStay(d, after, served, l);
    }
  }

  predicate IsPress(e: Event) {
    || e.PressLoad? || e.PressLoadMore? || e.PressMutate? || e.PressPlain? || e.PressReset? || e.PressTile?
    || e.PressSignOut?
  }

  lemma FirstIsMember(jobs: seq<Job>)
    ensures jobs == [] || jobs[0] in jobs
  {}

  lemma PressKeepsInv(d: Desk, served: Served, e: Event)
    requires Inv(d, served) && Enabled(d, e) && Orderly(d, e) && IsPress(e)
    ensures Inv(Next(d, served, e), served)
  {
    FirstIsMember(d.jobs);
    if e.PressLoadMore? {
      assert ListingInv(d, served, e.listing);
    }
    ListingsStay(d, Next(d, served, e), served);
  }

  lemma SettleKeepsInv(d: Desk, served: Served, i: nat, outcome: Outcome)
    requires Inv(d, served) && i < |d.jobs|
    ensures Inv(Settled(d, served, i, outcome), served)
  {
    var after, job := Settled(d, served, i, outcome), d.jobs[i];
    assert job in d.jobs;
    if outcome.Success? && (job.Load? || job.LoadMore?) {
      SettledArrivalKeepsInv(d, served, outcome);
    } else if outcome.Success? && job.Mutate? {
      ChangeKeepsListings(d, served, job.listing);
      ListingsStay(Change(d, job.listing), after, served);
    } else if !job.SignOut? && !(job.Reset? && outcome.Success?) {
      ListingsStay(d, after, served);
    }
  }

  /** Every orderly event keeps the invariant. */
  lemma OrderlyStepKeepsInv(d: Desk, served: Served, e: Event)
    requires Inv(d, served) && Enabled(d, e) && Orderly(d, e)
    ensures Inv(Next(d, served, e), served)
  {
    match e
    case Settle(i, outcome) => SettleKeepsInv(d, served, i, outcome);
    case Changed(l) => ChangeKeepsListings(d, served, l);
    case EditCredential(who) => CredentialChangeKeepsInv(d, served, who);
    case TokenReceived(who) => CredentialChangeKeepsInv(d, served, who);
    case SessionAnswered(_) => ListingsStay(d, Next(d, served, e), served);
    case _ => PressKeepsInv(d, served, e);
  }

  ghost predicate OrderlyRun(d: Desk, served: Served, events: seq<Event>)
    decreases |events|
  {
    events == [] ||
    (Enabled(d, events[0]) && Orderly(d, events[0]) && OrderlyRun(Next(d, served, events[0]), served, events[1..]))
  }

  ghost predicate IsRun(d: Desk, served: Served, events: seq<Event>)
    decreases |events|
  {
    events == [] || (Enabled(d, events[0]) && IsRun(Next(d, served, events[0]), served, events[1..]))
  }

  ghost function After(d: Desk, served: Served, events: seq<Event>): Desk
    requires IsRun(d, served, events)
    decreases |events|
  {
    if events == [] then d else After(Next(d, served, events[0]), served, events[1..])
  }

  lemma {:induction false} OrderlyRunKeepsInv(d: Desk, served: Served, events: seq<Event>)
    requires Inv(d, served) && OrderlyRun(d, served, events)
    ensures IsRun(d, served, events) && Inv(After(d, served, events), served)
    decreases |events|
  {
    if events == [] {
    } else {
      OrderlyStepKeepsInv(d, served, events[0]);
      OrderlyRunKeepsInv(Next(d, served, events[0]), served, events[1..]);
    }
  }

  /** What the screen promises about a listing that has not changed since it was loaded. */
  ghost predicate IsSafe(d: Desk, served: Served, l: Listing) {
    l in d.rows && l !in d.stale ==>
      && DuplicateFree(Ids(d.rows[l]))
      && Ids(d.rows[l]) <= Ids(Listed(d, served, l))
      && (l in d.more <==> |d.rows[l]| < |Listed(d, served, l)|)
      && (l !in d.more ==> d.rows[l] == Present(l, Listed(d, served, l)))
  }

  lemma InvIsSafe(d: Desk, served: Served, l: Listing)
    requires Inv(d, served) && DuplicateFree(Ids(Listed(d, served, l)))
    ensures IsSafe(d, served, l)
  {
    assert ListingInv(d, served, l);
    if l in d.rows && l !in d.stale {
      var n: nat :| IsPrefix(d, served, l, n);
      var listing := Listed(d, served, l);
      PresentKeepsIds(l, listing[..n]);
      PresentKeepsLength(l, listing[..n]);
      assert Ids(listing[..n]) == Ids(listing)[..n];
      assert listing[..|listing|] == listing;
    }
  }

  /** In every orderly run from an opened workbench: one operation at a time, every listing on screen a prefix of
      what the server lists for the present credential and free of duplicates, a further page on offer exactly when
      rows are missing, and every mark exact once none are. */
  lemma ListingsAreSafe(served: Served, events: seq<Event>, l: Listing)
    requires OrderlyRun(Opened(), served, events)
    requires forall who, k, version :: DuplicateFree(Ids(served(who, k, version)))
    ensures IsRun(Opened(), served, events)
    ensures |After(Opened(), served, events).jobs| <= 1
    ensures IsSafe(After(Opened(), served, events), served, l)
  {
    assert Inv(Opened(), served);
    OrderlyRunKeepsInv(Opened(), served, events);
    InvIsSafe(After(Opened(), served, events), served, l);
  }

  function Ids(rows: seq<Row>): (ids: seq<nat>)
    ensures |ids| == |rows|
  {
    seq(|rows|, i requires 0 <= i < |rows| => rows[i].id)
  }

  lemma PresentKeepsIds(l: Listing, rows: seq<Row>)
    ensures Ids(Present(l, rows)) == Ids(rows)
  {
    assert forall i :: 0 <= i < |rows| ==> WithCurrency(rows)[i].id == rows[i].id;
  }

  // ----- reaching the end of a listing ----------------------------------------------------------------------------

  lemma {:induction false} RunsJoin(d: Desk, served: Served, e: Event, rest: seq<Event>)
    requires Enabled(d, e) && IsRun(Next(d, served, e), served, rest)
    ensures IsRun(d, served, [e] + rest) && After(d, served, [e] + rest) == After(Next(d, served, e), served, rest)
  {
    var events := [e] + rest;
    assert events[0] == e && events[1..] == rest;
  }

  /** One press of load-more and its answer. */
  lemma LoadMoreAdvances(d: Desk, served: Served, l: Listing)
    requires Inv(d, served) && d.jobs == [] && l in d.more && Held(d.rows, l) != [] && l !in d.stale
    ensures Enabled(d, PressLoadMore(l)) && Orderly(d, PressLoadMore(l))
    ensures var pressed := Next(d, served, PressLoadMore(l));
      Enabled(pressed, Settle(0, Success))
      && var after := Next(pressed, served, Settle(0, Success));
      && Inv(after, served) && after.jobs == [] && after.who == d.who && after.versions == d.versions
      && l in after.rows && l !in after.stale
      && |after.rows[l]| == Min(|d.rows[l]| + LimitOf(l), |Listed(d, served, l)|)
  {
    OrderlyStepKeepsInv(d, served, PressLoadMore(l));
    var pressed := Next(d, served, PressLoadMore(l));
    OrderlyStepKeepsInv(pressed, served, Settle(0, Success));
    assert ListingInv(d, served, l);
    var n: nat :| IsPrefix(d, served, l, n);
    PageIsASlice(Listed(d, served, l), LimitOf(l), n);
    PresentKeepsLength(l, Listed(d, served, l)[..n]);
  }

  /** From any quiet moment with rows of a listing on screen, pressing load-more while it is offered is an orderly
      run to the whole listing, with every mark exact. */
  lemma {:induction false} PressingReachesTheEnd(d: Desk, served: Served, l: Listing) returns (events: seq<Event>)
    requires Inv(d, served) && d.jobs == [] && l in d.rows && d.rows[l] != [] && l !in d.stale
    ensures OrderlyRun(d, served, events) && IsRun(d, served, events)
    ensures var after := After(d, served, events);
      l in after.rows && l !in after.more && after.rows[l] == Present(l, Listed(d, served, l))
    decreases |Listed(d, served, l)| - |d.rows[l]|
  {
    assert ListingInv(d, served, l);
    var n: nat :| IsPrefix(d, served, l, n);
    PresentKeepsLength(l, Listed(d, served, l)[..n]);
    if l !in d.more {
      assert Listed(d, served, l)[..n] == Listed(d, served, l);
      events := [];
    } else {
      LoadMoreAdvances(d, served, l);
      var pressed := Next(d, served, PressLoadMore(l));
      var after := Next(pressed, served, Settle(0, Success));
      var rest := PressingReachesTheEnd(after, served, l);
      RunsJoin(pressed, served, Settle(0, Success), rest);
      RunsJoin(d, served, PressLoadMore(l), [Settle(0, Success)] + rest);
      events := [PressLoadMore(l)] + ([Settle(0, Success)] + rest);
      OrderlyJoin(pressed, served, Settle(0, Success), rest);
      OrderlyJoin(d, served, PressLoadMore(l), [Settle(0, Success)] + rest);
    }
  }

  lemma {:induction false} OrderlyJoin(d: Desk, served: Served, e: Event, rest: seq<Event>)
    requires Enabled(d, e) && Orderly(d, e) && OrderlyRun(Next(d, served, e), served, rest)
    ensures OrderlyRun(d, served, [e] + rest)
  {
    var events := [e] + rest;
    assert events[0] == e && events[1..] == rest;
  }

  // ----- who is signed in, and when a table changes ----------------------------------------------------------------

  /** The desks a run passes through. */
  ghost function Desks(d: Desk, served: Served, events: seq<Event>): (desks: seq<Desk>)
    requires IsRun(d, served, events)
    ensures |desks| == |events| + 1 && desks[0] == d
    decreases |events|
  {
    if events == [] then [d] else [d] + Desks(Next(d, served, events[0]), served, events[1..])
  }

  /** What takes the identity off the screen: a session that is not confirmed, an edited credential, an operation other
      than signing out that is refused, and the end of a sign-out, however it went. */
  predicate EndsSession(d: Desk, e: Event) {
    || e == SessionAnswered(false) || e.EditCredential?
    || (e.Settle? && e.job < |d.jobs| && (d.jobs[e.job].SignOut? || e.outcome == Unauthorized))
  }

  ghost predicate Undisturbed(desks: seq<Desk>, events: seq<Event>, from: nat)
    requires |desks| == |events| + 1
  {
    forall j :: from <= j < |events| ==> !EndsSession(desks[j], events[j])
  }

  ghost predicate ConfirmedAt(desks: seq<Desk>, events: seq<Event>, i: nat)
    requires |desks| == |events| + 1
  {
    i < |events| && events[i] == SessionAnswered(true) && Undisturbed(desks, events, i + 1)
  }

  lemma LaterDesks(desks: seq<Desk>, events: seq<Event>, i: nat)
    requires |desks| == |events| + 1 && events != []
    ensures Undisturbed(desks, events, i + 1) <==> Undisturbed(desks[1..], events[1..], i)
    ensures ConfirmedAt(desks, events, i + 1) <==> ConfirmedAt(desks[1..], events[1..], i)
  {
    var later, rest := desks[1..], events[1..];
    forall k: nat ensures Undisturbed(desks, events, k + 1) <==> Undisturbed(later, rest, k) {
      assert forall j: nat :: j < |rest| ==> rest[j] == events[j + 1] && later[j] == desks[j + 1];
      assert forall j: nat :: 0 < j < |events| ==> events[j] == rest[j - 1] && desks[j] == later[j - 1];
    }
  }

  /** One event: who is signed in after it. */
  lemma SessionStep(d: Desk, served: Served, e: Event)
    requires Enabled(d, e)
    ensures Next(d, served, e).signedIn <==> e == SessionAnswered(true) || (d.signedIn && !EndsSession(d, e))
  {}

  lemma {:induction false} SignedInSince(d: Desk, served: Served, events: seq<Event>, desks: seq<Desk>)
    requires IsRun(d, served, events) && desks == Desks(d, served, events)
    ensures After(d, served, events).signedIn
            <==> (exists i :: ConfirmedAt(desks, events, i)) || (d.signedIn && Undisturbed(desks, events, 0))
    decreases |events|
  {
    if events == [] {
    } else {
      var next, rest := Next(d, served, events[0]), events[1..];
      var later := Desks(next, served, rest);
      assert desks[1..] == later;
      SessionStep(d, served, events[0]);
      SignedInSince(next, served, rest, later);
      LaterDesks(desks, events, 0);
      LaterConfirmations(desks, events);
      assert ConfirmedAt(desks, events, 0) <==> events[0] == SessionAnswered(true) && Undisturbed(desks, events, 1);
      assert Undisturbed(desks, events, 0) <==> !EndsSession(d, events[0]) && Undisturbed(desks, events, 1);
    }
  }

  lemma LaterConfirmations(desks: seq<Desk>, events: seq<Event>)
    requires |desks| == |events| + 1 && events != []
    ensures (exists i :: ConfirmedAt(desks, events, i))
            <==> ConfirmedAt(desks, events, 0) || exists i :: ConfirmedAt(desks[1..], events[1..], i)
  {
    if i: nat :| ConfirmedAt(desks[1..], events[1..], i) {
      LaterDesks(desks, events, i);
      assert ConfirmedAt(desks, events, i + 1);
    }
    if i: nat :| ConfirmedAt(desks, events, i) && i > 0 {
      LaterDesks(desks, events, i - 1);
      assert ConfirmedAt(desks[1..], events[1..], i - 1);
    }
  }

  /** In every run from an opened workbench, orderly or not, somebody is shown as signed in exactly when a session was
      confirmed and nothing has ended it since. */
  lemma SignedInExactly(served: Served, events: seq<Event>, desks: seq<Desk>)
    requires IsRun(Opened(), served, events) && desks == Desks(Opened(), served, events)
    ensures After(Opened(), served, events).signedIn <==> exists i :: ConfirmedAt(desks, events, i)
  {
    SignedInSince(Opened(), served, events, desks);
  }

  /** The events that change what a table shows: the arrival of its own rows, and the clearing of all of them. */
  predicate Rewrites(d: Desk, e: Event, l: Listing) {
    && e.Settle? && e.job < |d.jobs|
    && match d.jobs[e.job]
       case Load(k, _) => k == l && e.outcome.Success?
       case LoadMore(k, _, _) => k == l && e.outcome.Success?
       case Reset => e.outcome.Success?
       case SignOut => true
       case _ => false
  }

  predicate SameTable(d: Desk, after: Desk, l: Listing) {
    && (l in after.rows <==> l in d.rows) && (l in after.more <==> l in d.more)
    && Held(after.rows, l) == Held(d.rows, l)
  }

  /** A table keeps its rows and its offer through every other event: a failed or refused request, an operation on
      another table, a change at the server, a new credential. */
  lemma TablesKeepThroughOtherEvents(d: Desk, served: Served, e: Event, l: Listing)
    requires Enabled(d, e) && !Rewrites(d, e, l)
    ensures SameTable(d, Next(d, served, e), l)
  {
    if e.Settle? {
      SettleKeepsOtherTables(d, served, e.job, e.outcome, l);
    }
  }

  lemma SettleKeepsOtherTables(d: Desk, served: Served, i: nat, outcome: Outcome, l: Listing)
    requires i < |d.jobs| && !Rewrites(d, Event.Settle(i, outcome), l)
    ensures SameTable(d, Settled(d, served, i, outcome), l)
  {
    if outcome.Success? && (d.jobs[i].Load? || d.jobs[i].LoadMore?) {
      ArrivalKeepsOtherTables(d, served, i, l);
    }
  }

  lemma ArrivalKeepsOtherTables(d: Desk, served: Served, i: nat, l: Listing)
    requires i < |d.jobs| && (d.jobs[i].Load? || d.jobs[i].LoadMore?) && d.jobs[i].listing != l
    ensures SameTable(d, Settled(d, served, i, Success), l)
  {}

  /** A finished sign-out, even one the server refused, and a finished reset leave no row on screen; a sign-out leaves
      no identity either. */
  lemma ClearingIsComplete(d: Desk, served: Served, e: Event)
    requires Enabled(d, e) && e.Settle?
    requires d.jobs[e.job].SignOut? || (d.jobs[e.job].Reset? && e.outcome.Success?)
    ensures var after := Next(d, served, e);
      && after.rows == map[] && after.more == {} && (d.jobs[e.job].SignOut? ==> !after.signedIn)
      && (d.jobs[e.job].Reset? ==> !after.busy && after.signedIn == d.signedIn)
  {}

  /** The first page of a listing: five hundred rows for the requirement chooser, a hundred for a table, or all. */
  lemma LoadShowsOnePage(d: Desk, served: Served, l: Listing)
    requires d.signedIn && !d.busy && d.jobs == []
    ensures Enabled(d, PressLoad(l))
    ensures var after := Next(Next(d, served, PressLoad(l)), served, Settle(0, Success));
      && l in after.rows
      && |after.rows[l]| == Min(if l.Requirements? then 500 else 100, |Listed(d, served, l)|)
      && (l in after.more <==> |after.rows[l]| < |Listed(d, served, l)|)
      && !after.busy && after.signedIn
  {
    var pressed := Next(d, served, PressLoad(l));
    assert pressed == d.(busy := true, jobs := [Load(l, d.who)]);
    PageIsASlice(Listed(d, served, l), LimitOf(l), 0);
  }

  ghost predicate HasNewer(listing: seq<Row>, row: Row) {
    exists r :: r in listing && r.requirement == row.requirement && r.version > row.version
  }

  /** Once no row is missing, an evidence row reads current exactly when the whole listing holds no newer version of its
      requirement, and superseded otherwise; every other table shows the rows as they are listed. */
  lemma MarksAreExact(d: Desk, served: Served, l: Listing)
    requires Inv(d, served) && l in d.rows && l !in d.stale && l !in d.more
    ensures var listing := Listed(d, served, l);
      if l == Evidence then
        && |d.rows[l]| == |listing|
        && forall i :: 0 <= i < |listing| ==>
             d.rows[l][i] == listing[i].(currency := if HasNewer(listing, listing[i]) then Superseded else Current)
      else d.rows[l] == listing
  {
    assert ListingInv(d, served, l);
    var n: nat :| IsPrefix(d, served, l, n);
    var listing := Listed(d, served, l);
    assert listing[..n] == listing;
  }

  /** Why a control is locked: a reason that holds, and none more permanent does. */
  lemma LockStatesTheMostPermanentReason(signedOut: bool, permission: bool, precondition: bool, busy: bool)
    ensures var lock := LockOf(signedOut, permission, precondition, busy);
      && (lock.None? <==> !signedOut && !permission && !precondition && !busy)
      && (lock == Some(SignedOut) <==> signedOut)
      && (lock == Some(Permission) <==> permission && !signedOut)
      && (lock == Some(Precondition) <==> precondition && !permission && !signedOut)
  {}

  // ----- mutations ------------------------------------------------------------------------------------------------

  /** Uploading, reviewing, assigning, remediating: the operation changes its listing and loads it again, which puts the
      first page of the changed listing on screen, fresh, whatever was there; the other tables keep their rows. */
  lemma MutationReloads(d: Desk, served: Served, l: Listing)
    requires Inv(d, served) && d.jobs == []
    ensures var events := [PressMutate(l), Settle(0, Success), Settle(0, Success)];
      OrderlyRun(d, served, events) && IsRun(d, served, events)
      && var after := After(d, served, events);
      && Inv(after, served) && Version(after, l) == Version(d, l) + 1 && after.jobs == []
      && l in after.rows && l !in after.stale
      && after.rows[l] == Present(l, Serve(Listed(after, served, l), LimitOf(l), 0).items)
      && forall k :: k != l ==> Held(after.rows, k) == Held(d.rows, k)
  {
    MutationSteps(d, served, l);
    MutationRuns(d, served, l);
    OrderlyRunKeepsInv(d, served, [PressMutate(l), Settle(0, Success), Settle(0, Success)]);
  }

  lemma MutationRuns(d: Desk, served: Served, l: Listing)
    requires !d.busy && d.jobs == []
    ensures var events := [PressMutate(l), Settle(0, Success), Settle(0, Success)];
      OrderlyRun(d, served, events) && IsRun(d, served, events)
      && After(d, served, events) ==
         Next(Next(Next(d, served, PressMutate(l)), served, Settle(0, Success)), served, Settle(0, Success))
  {
    MutationSteps(d, served, l);
    var d1 := Next(d, served, PressMutate(l));
    var d2 := Next(d1, served, Settle(0, Success));
    OrderlyPair(d2, served, Settle(0, Success), []);
    OrderlyPair(d1, served, Settle(0, Success), [Settle(0, Success)]);
    OrderlyPair(d, served, PressMutate(l), [Settle(0, Success), Settle(0, Success)]);
  }

  lemma MutationSteps(d: Desk, served: Served, l: Listing)
    requires !d.busy && d.jobs == []
    ensures Enabled(d, PressMutate(l)) && Orderly(d, PressMutate(l))
    ensures var d1 := Next(d, served, PressMutate(l));
      d1.jobs == [Mutate(l, d.who)]
      && var d2 := Next(d1, served, Settle(0, Success));
      d2 == Change(d, l).(busy := true, jobs := [Load(l, d.who)])
      && var d3 := Next(d2, served, Settle(0, Success));
      d3.jobs == [] && d3.who == d.who && d3.versions == d2.versions && l !in d3.stale
      && d3.rows == d.rows[l := Present(l, Serve(Listed(d2, served, l), LimitOf(l), 0).items)]
  {
    var d1 := Next(d, served, PressMutate(l));
    assert d1 == d.(busy := true, jobs := [Mutate(l, d.who)]);
    var d2 := Next(d1, served, Settle(0, Success));
    assert d2 == Change(d, l).(busy := true, jobs := [Load(l, d.who)]);
    var items := Serve(Listed(d2, served, l), LimitOf(l), 0).items;
    assert AppendPage([], items) == items;
  }

  // ----- each way around the lock breaks the listing --------------------------------------------------------------

  /** A workbench with the first page of the gaps on screen and more to come. */
  function FirstPageHeld(first: seq<Row>): Desk { Desk(false, true, 0, map[Gaps := first], {Gaps}, [], map[], {}) }

  /** Signing in as identity 0 and loading the gaps. */
  function FirstLoad(): seq<Event> {
    [TokenReceived(0), SessionAnswered(true), PressLoad(Gaps), Settle(0, Success)]
  }

  lemma FirstPageIsReachable(served: Served)
    requires |served(0, Gaps, 0)| > PAGE_SIZE
    ensures OrderlyRun(Opened(), served, FirstLoad()) && IsRun(Opened(), served, FirstLoad())
    ensures After(Opened(), served, FirstLoad()) == FirstPageHeld(served(0, Gaps, 0)[..PAGE_SIZE])
  {
    var d1 := Next(Opened(), served, TokenReceived(0));
    var d2 := Next(d1, served, SessionAnswered(true));
    assert d2 == Opened().(signedIn := true);
    FirstLoadRun(served);
    OrderlyPair(d1, served, SessionAnswered(true), [PressLoad(Gaps), Settle(0, Success)]);
    OrderlyPair(Opened(), served, TokenReceived(0), [SessionAnswered(true), PressLoad(Gaps), Settle(0, Success)]);
  }

  lemma FirstLoadRun(served: Served)
    requires |served(0, Gaps, 0)| > PAGE_SIZE
    ensures var d := Opened().(signedIn := true);
      var events := [PressLoad(Gaps), Settle(0, Success)];
      OrderlyRun(d, served, events) && IsRun(d, served, events)
      && After(d, served, events) == FirstPageHeld(served(0, Gaps, 0)[..PAGE_SIZE])
  {
    var d2 := Opened().(signedIn := true);
    var d3 := Next(d2, served, PressLoad(Gaps));
    assert d3 == d2.(busy := true, jobs := [Load(Gaps, 0)]);
    var d4 := Next(d3, served, Settle(0, Success));
    PageIsASlice(served(0, Gaps, 0), PAGE_SIZE, 0);
    assert [] + served(0, Gaps, 0)[0..PAGE_SIZE] == served(0, Gaps, 0)[..PAGE_SIZE];
    assert d4.rows == map[Gaps := served(0, Gaps, 0)[..PAGE_SIZE]];
    assert d4 == FirstPageHeld(served(0, Gaps, 0)[..PAGE_SIZE]);
    OrderlyPair(d3, served, Settle(0, Success), []);
    OrderlyPair(d2, served, PressLoad(Gaps), [Settle(0, Success)]);
  }

  lemma OrderlyPair(d: Desk, served: Served, e: Event, rest: seq<Event>)
    requires Enabled(d, e) && Orderly(d, e)
    requires OrderlyRun(Next(d, served, e), served, rest) && IsRun(Next(d, served, e), served, rest)
    ensures OrderlyRun(d, served, [e] + rest) && IsRun(d, served, [e] + rest)
    ensures After(d, served, [e] + rest) == After(Next(d, served, e), served, rest)
  {
    RunsJoin(d, served, e, rest);
    OrderlyJoin(d, served, e, rest);
  }

  lemma {:induction false} RunsConcat(d: Desk, served: Served, first: seq<Event>, rest: seq<Event>)
    requires IsRun(d, served, first) && IsRun(After(d, served, first), served, rest)
    ensures IsRun(d, served, first + rest)
    ensures After(d, served, first + rest) == After(After(d, served, first), served, rest)
    decreases |first|
  {
    if first == [] {
      assert first + rest == rest;
    } else {
      var next := Next(d, served, first[0]);
      RunsConcat(next, served, first[1..], rest);
      RunsJoin(d, served, first[0], first[1..] + rest);
      assert first + rest == [first[0]] + (first[1..] + rest);
    }
  }

  function SecondPage(served: Served, who: nat): seq<Row> { Serve(served(who, Gaps, 0), PAGE_SIZE, PAGE_SIZE).items }

  /** The second page is not empty and starts at the row after the first page. */
  lemma SecondPageStartsAfresh(served: Served)
    requires |served(0, Gaps, 0)| > PAGE_SIZE
    ensures SecondPage(served, 0) != [] && SecondPage(served, 0)[0] == served(0, Gaps, 0)[PAGE_SIZE]
  {
    PageIsASlice(served(0, Gaps, 0), PAGE_SIZE, PAGE_SIZE);
  }

  lemma PendingSignOutRun(served: Served)
    requires |served(0, Gaps, 0)| > PAGE_SIZE
    ensures var d := FirstPageHeld(served(0, Gaps, 0)[..PAGE_SIZE]);
      var events := [PressSignOut, PressLoadMore(Gaps), Settle(0, Success), Settle(0, Success)];
      IsRun(d, served, events)
      && var after := After(d, served, events);
      !after.signedIn && Held(after.rows, Gaps) == SecondPage(served, 0)
  {
    var d0 := FirstPageHeld(served(0, Gaps, 0)[..PAGE_SIZE]);
    var d1 := Next(d0, served, PressSignOut);
    var d2 := Next(d1, served, PressLoadMore(Gaps));
    assert d2.jobs == [SignOut, LoadMore(Gaps, 0, PAGE_SIZE)];
    var d3 := Next(d2, served, Settle(0, Success));
    assert d3.jobs == [LoadMore(Gaps, 0, PAGE_SIZE)];
    var d4 := Next(d3, served, Settle(0, Success));
    assert d4.rows[Gaps] == SecondPage(served, 0);
    RunsJoin(d3, served, Settle(0, Success), []);
    RunsJoin(d2, served, Settle(0, Success), [Settle(0, Success)]);
    RunsJoin(d1, served, PressLoadMore(Gaps), [Settle(0, Success), Settle(0, Success)]);
    RunsJoin(d0, served, PressSignOut, [PressLoadMore(Gaps), Settle(0, Success), Settle(0, Success)]);
  }

  /** A further page asked for while a sign-out is pending arrives after the tables were cleared: the screen of a
      signed-out user then shows the second page alone, which is no prefix of the listing. */
  lemma PendingSignOutLeavesASecondPage(served: Served)
    requires |served(0, Gaps, 0)| > PAGE_SIZE && DuplicateFree(Ids(served(0, Gaps, 0)))
    ensures var events := FirstLoad() + [PressSignOut, PressLoadMore(Gaps), Settle(0, Success), Settle(0, Success)];
      IsRun(Opened(), served, events)
      && var after := After(Opened(), served, events);
      !after.signedIn && Held(after.rows, Gaps) == SecondPage(served, 0)
      && !(Ids(Held(after.rows, Gaps)) <= Ids(served(0, Gaps, 0)))
  {
    FirstPageIsReachable(served);
    PendingSignOutRun(served);
    RunsConcat(
      Opened(), served, FirstLoad(), [PressSignOut, PressLoadMore(Gaps), Settle(0, Success), Settle(0, Success)]);
    SecondPageStartsAfresh(served);
    var ids := Ids(served(0, Gaps, 0));
    assert Ids(SecondPage(served, 0))[0] == ids[PAGE_SIZE] != ids[0];
  }

  /** With a load-more outstanding and the lock free, a second press asks for the same page. */
  lemma SamePageTwice(served: Served)
    requires |served(0, Gaps, 0)| > PAGE_SIZE
    ensures var first := served(0, Gaps, 0)[..PAGE_SIZE];
      var d := FirstPageHeld(first).(jobs := [LoadMore(Gaps, 0, PAGE_SIZE)]);
      var events := [PressLoadMore(Gaps), Settle(0, Success), Settle(0, Success)];
      IsRun(d, served, events)
      && Held(After(d, served, events).rows, Gaps) == first + SecondPage(served, 0) + SecondPage(served, 0)
  {
    var more := LoadMore(Gaps, 0, PAGE_SIZE);
    var d3 := FirstPageHeld(served(0, Gaps, 0)[..PAGE_SIZE]).(jobs := [more]);
    var d4 := Next(d3, served, PressLoadMore(Gaps));
    assert d4.jobs == [more, more];
    var d5 := Next(d4, served, Settle(0, Success));
    assert d5.jobs == [more];
    var d6 := Next(d5, served, Settle(0, Success));
    RunsJoin(d5, served, Settle(0, Success), []);
    RunsJoin(d4, served, Settle(0, Success), [Settle(0, Success)]);
    RunsJoin(d3, served, PressLoadMore(Gaps), [Settle(0, Success), Settle(0, Success)]);
  }

  function TileRun(): seq<Event> {
    [PressLoadMore(Gaps), PressTile, Settle(1, Success), PressLoadMore(Gaps), Settle(0, Success), Settle(0, Success)]
  }

  lemma TileRunDoublesThePage(served: Served)
    requires |served(0, Gaps, 0)| > PAGE_SIZE
    ensures var d := FirstPageHeld(served(0, Gaps, 0)[..PAGE_SIZE]);
      IsRun(d, served, TileRun())
      && Held(After(d, served, TileRun()).rows, Gaps)
         == served(0, Gaps, 0)[..PAGE_SIZE] + SecondPage(served, 0) + SecondPage(served, 0)
  {
    var d0 := FirstPageHeld(served(0, Gaps, 0)[..PAGE_SIZE]);
    var more := LoadMore(Gaps, 0, PAGE_SIZE);
    var d1 := Next(d0, served, PressLoadMore(Gaps));
    var d2 := Next(d1, served, PressTile);
    assert d2.jobs == [more, Tile];
    var d3 := Next(d2, served, Settle(1, Success));
    assert d3 == d0.(jobs := [more]);
    SamePageTwice(served);
    var rest := [PressLoadMore(Gaps), Settle(0, Success), Settle(0, Success)];
    RunsJoin(d2, served, Settle(1, Success), rest);
    RunsJoin(d1, served, PressTile, [Settle(1, Success)] + rest);
    RunsJoin(d0, served, PressLoadMore(Gaps), [PressTile] + ([Settle(1, Success)] + rest));
    assert TileRun() == [PressLoadMore(Gaps)] + ([PressTile] + ([Settle(1, Success)] + rest));
  }

  /** A catalogue tile pressed during load-more releases the lock early: the same page can be asked for twice, and
      lands twice. */
  lemma TileReleasesTheLock(served: Served)
    requires |served(0, Gaps, 0)| > PAGE_SIZE
    ensures IsRun(Opened(), served, FirstLoad() + TileRun())
    ensures var rows := Held(After(Opened(), served, FirstLoad() + TileRun()).rows, Gaps);
      rows == served(0, Gaps, 0)[..PAGE_SIZE] + SecondPage(served, 0) + SecondPage(served, 0)
      && !DuplicateFree(Ids(rows))
  {
    FirstPageIsReachable(served);
    TileRunDoublesThePage(served);
    RunsConcat(Opened(), served, FirstLoad(), TileRun());
    SecondPageStartsAfresh(served);
    RepeatedRows(served(0, Gaps, 0)[..PAGE_SIZE], SecondPage(served, 0));
  }

  lemma RepeatedRows(first: seq<Row>, page: seq<Row>)
    requires page != []
    ensures !DuplicateFree(Ids(first + page + page))
  {
    var ids := Ids(first + page + page);
    assert ids[|first|] == page[0].id == ids[|first| + |page|];
  }

  /** The two ways to bring in a credential over the rows on screen. */
  predicate BringsIn(e: Event, who: nat) { e == TokenReceived(who) || e == EditCredential(who) }

  lemma ChangedCredentialRun(served: Served, change: Event)
    requires |served(0, Gaps, 0)| > PAGE_SIZE && BringsIn(change, 1)
    ensures var d := FirstPageHeld(served(0, Gaps, 0)[..PAGE_SIZE]);
      var events := [change, PressLoadMore(Gaps), Settle(0, Success)];
      IsRun(d, served, events)
      && After(d, served, events).who == 1
      && Held(After(d, served, events).rows, Gaps) == served(0, Gaps, 0)[..PAGE_SIZE] + SecondPage(served, 1)
  {
    var d0 := FirstPageHeld(served(0, Gaps, 0)[..PAGE_SIZE]);
    var d1 := Next(d0, served, change);
    var d2 := Next(d1, served, PressLoadMore(Gaps));
    var d3 := Next(d2, served, Settle(0, Success));
    RunsJoin(d2, served, Settle(0, Success), []);
    RunsJoin(d1, served, PressLoadMore(Gaps), [Settle(0, Success)]);
    RunsJoin(d0, served, change, [PressLoadMore(Gaps), Settle(0, Success)]);
  }

  /** Signing in as someone else without signing out, or editing the credential field, keeps the rows of the first
      session, and load-more continues them from the other listing. Where the two listings start differently, what
      is on screen is no prefix of what the present credential is listed. */
  lemma ChangedCredentialMixesListings(served: Served, change: Event)
    requires |served(0, Gaps, 0)| > PAGE_SIZE && BringsIn(change, 1)
    requires served(1, Gaps, 0) != [] ==> served(1, Gaps, 0)[0].id != served(0, Gaps, 0)[0].id
    ensures var events := FirstLoad() + [change, PressLoadMore(Gaps), Settle(0, Success)];
      IsRun(Opened(), served, events)
      && var after := After(Opened(), served, events);
      after.who == 1 && !(Ids(Held(after.rows, Gaps)) <= Ids(served(1, Gaps, 0)))
  {
    FirstPageIsReachable(served);
    ChangedCredentialRun(served, change);
    RunsConcat(Opened(), served, FirstLoad(), [change, PressLoadMore(Gaps), Settle(0, Success)]);
    var rows := served(0, Gaps, 0)[..PAGE_SIZE] + SecondPage(served, 1);
    assert Ids(rows)[0] == served(0, Gaps, 0)[0].id;
  }

  /** A mutation that succeeds and whose reload fails. */
  function FailedReload(): seq<Event> {
    [PressMutate(Gaps)] + ([Settle(0, Success)] + [Settle(0, Failure), PressLoadMore(Gaps), Settle(0, Success)])
  }

  lemma FailedReloadRun(served: Served)
    requires |served(0, Gaps, 0)| > PAGE_SIZE
    ensures var d := FirstPageHeld(served(0, Gaps, 0)[..PAGE_SIZE]);
      OrderlyRun(d, served, FailedReload()) && IsRun(d, served, FailedReload())
      && var after := After(d, served, FailedReload());
      && after.who == 0 && Version(after, Gaps) == 1
      && Held(after.rows, Gaps)
         == served(0, Gaps, 0)[..PAGE_SIZE] + Serve(served(0, Gaps, 1), PAGE_SIZE, PAGE_SIZE).items
  {
    var d0 := FirstPageHeld(served(0, Gaps, 0)[..PAGE_SIZE]);
    var rest := [Settle(0, Failure), PressLoadMore(Gaps), Settle(0, Success)];
    MutationSteps(d0, served, Gaps);
    ReloadFails(served, served(0, Gaps, 0)[..PAGE_SIZE]);
    var d1 := Next(d0, served, PressMutate(Gaps));
    OrderlyPair(d1, served, Settle(0, Success), rest);
    OrderlyPair(d0, served, PressMutate(Gaps), [Settle(0, Success)] + rest);
  }

  lemma ReloadFails(served: Served, first: seq<Row>)
    requires |first| == PAGE_SIZE
    ensures var d := Change(FirstPageHeld(first), Gaps).(busy := true, jobs := [Load(Gaps, 0)]);
      var events := [Settle(0, Failure), PressLoadMore(Gaps), Settle(0, Success)];
      OrderlyRun(d, served, events) && IsRun(d, served, events)
      && var after := After(d, served, events);
      && after.who == 0 && Version(after, Gaps) == 1
      && Held(after.rows, Gaps) == first + Serve(served(0, Gaps, 1), PAGE_SIZE, PAGE_SIZE).items
  {
    var d2 := Change(FirstPageHeld(first), Gaps).(busy := true, jobs := [Load(Gaps, 0)]);
    var d3 := FirstPageHeld(first).(versions := map[Gaps := 1], stale := {Gaps});
    assert Next(d2, served, Settle(0, Failure)) == d3;
    StaleLoadMore(served, first);
    OrderlyPair(d2, served, Settle(0, Failure), [PressLoadMore(Gaps), Settle(0, Success)]);
  }

  lemma StaleLoadMore(served: Served, first: seq<Row>)
    requires |first| == PAGE_SIZE
    ensures var d := FirstPageHeld(first).(versions := map[Gaps := 1], stale := {Gaps});
      var events := [PressLoadMore(Gaps), Settle(0, Success)];
      OrderlyRun(d, served, events) && IsRun(d, served, events)
      && var after := After(d, served, events);
      && after.who == 0 && Version(after, Gaps) == 1
      && Held(after.rows, Gaps) == first + Serve(served(0, Gaps, 1), PAGE_SIZE, PAGE_SIZE).items
  {
    var d3 := FirstPageHeld(first).(versions := map[Gaps := 1], stale := {Gaps});
    var d4 := Next(d3, served, PressLoadMore(Gaps));
    assert d4 == d3.(busy := true, jobs := [LoadMore(Gaps, 0, PAGE_SIZE)]);
    OrderlyPair(d4, served, Settle(0, Success), []);
    OrderlyPair(d3, served, PressLoadMore(Gaps), [Settle(0, Success)]);
  }

  /** A listing that changed since it was loaded is excepted from the promise for a reason: when the reload after a
      mutation fails, load-more continues the old rows with the changed listing, in a run that is orderly throughout. */
  lemma FailedReloadMixesVersions(served: Served)
    requires |served(0, Gaps, 0)| > PAGE_SIZE
    requires served(0, Gaps, 1) != [] ==> served(0, Gaps, 1)[0].id != served(0, Gaps, 0)[0].id
    ensures var events := FirstLoad() + FailedReload();
      IsRun(Opened(), served, events)
      && var after := After(Opened(), served, events);
      !(Ids(Held(after.rows, Gaps)) <= Ids(Listed(after, served, Gaps)))
  {
    FirstPageIsReachable(served);
    FailedReloadRun(served);
    RunsConcat(Opened(), served, FirstLoad(), FailedReload());
    var rows := served(0, Gaps, 0)[..PAGE_SIZE] + Serve(served(0, Gaps, 1), PAGE_SIZE, PAGE_SIZE).items;
    assert Ids(rows)[0] == served(0, Gaps, 0)[0].id;
  }

  // ----- the component itself -------------------------------------------------------------------------------------

  /** What the API answers to a listing request. */
  function Answer(d: Desk, served: Served, job: Job): Reply<Row>
    requires job.Load? || job.LoadMore?
  {
    Serve(ListedFor(d, served, job.who, job.listing), LimitOf(job.listing), if job.Load? then 0 else job.offset)
  }

  /** The component's state. Every method is one event; while the events are orderly the tables stay valid. */
  class Screen {
    var busy: bool
    var signedIn: bool
    var who: nat
    var rows: map<Listing, seq<Row>>
    var more: set<Listing>
    var jobs: seq<Job>
    ghost var versions: map<Listing, nat>
    ghost var stale: set<Listing>

    ghost function View(): Desk
      reads this
    {
      Desk(busy, signedIn, who, rows, more, jobs, versions, stale)
    }

    ghost predicate Valid(served: Served)
      reads this
    {
      Inv(View(), served)
    }

    constructor ()
      ensures View() == Opened() && forall served :: Valid(served)
    {
      busy, signedIn, who, rows, more, jobs := false, false, 0, map[], {}, [];
      versions, stale := map[], {};
    }

    /** What a table and its footer render, while the listing is as it was when it was loaded. */
    method Table(l: Listing, ghost served: Served) returns (shown: Option<seq<Row>>, offersMore: bool)
      requires Valid(served) && DuplicateFree(Ids(Listed(View(), served, l)))
      ensures shown.Some? <==> l in rows
      ensures shown.Some? && l !in stale ==>
                && Ids(shown.value) <= Ids(Listed(View(), served, l)) && DuplicateFree(Ids(shown.value))
                && (!offersMore ==> shown.value == Present(l, Listed(View(), served, l)))
                && (offersMore <==> |shown.value| < |Listed(View(), served, l)|)
    {
      InvIsSafe(View(), served, l);
      shown := if l in rows then Some(rows[l]) else None;
      offersMore := l in more;
    }

    /** `act` takes the lock and starts its operation. */
    method Act(job: Job)
      requires !job.SignOut?
      modifies this
      ensures View() == Started(old(View()), job)
    {
      busy := true;
      jobs := jobs + [job];
    }

    /** The operations behind `act`, each with the request it sends first. */
    method Press(e: Event, ghost served: Served)
      requires e.PressLoad? || e.PressLoadMore? || e.PressMutate? || e.PressPlain? || e.PressReset? || e.PressTile?
      requires Enabled(View(), e)
      modifies this
      ensures View() == Next(old(View()), served, e)
      ensures old(Valid(served)) && Orderly(old(View()), e) ==> Valid(served)
    {
      OrderlyKeepsValid(served, e);
      match e {
        case PressLoad(l) => Act(Load(l, who));
        case PressLoadMore(l) =>
          var offset := if l in rows then |rows[l]| else 0;
          Act(LoadMore(l, who, offset));
        case PressMutate(l) => Act(Mutate(l, who));
        case PressPlain => Act(Job.Plain);
        case PressReset => Act(Reset);
        case PressTile => Act(Tile);
      }
    }

    /** Signing out does not take the lock. */
    method SignOutPressed(ghost served: Served)
      requires Enabled(View(), PressSignOut)
      modifies this
      ensures View() == Next(old(View()), served, PressSignOut)
      ensures old(Valid(served)) && Orderly(old(View()), PressSignOut) ==> Valid(served)
    {
      OrderlyKeepsValid(served, PressSignOut);
      jobs := jobs + [SignOut];
    }

    /** Typing in the credential field: another credential, and nobody shown as signed in. */
    method CredentialEdited(identity: nat, ghost served: Served)
      modifies this
      ensures View() == Next(old(View()), served, EditCredential(identity))
      ensures old(Valid(served)) && Orderly(old(View()), EditCredential(identity)) ==> Valid(served)
    {
      OrderlyKeepsValid(served, EditCredential(identity));
      who, signedIn := identity, false;
    }

    /** The first half of signing in with a password: the login answered with a token. */
    method LoginAnswered(identity: nat, ghost served: Served)
      modifies this
      ensures View() == Next(old(View()), served, TokenReceived(identity))
      ensures old(Valid(served)) && Orderly(old(View()), TokenReceived(identity)) ==> Valid(served)
    {
      OrderlyKeepsValid(served, TokenReceived(identity));
      who := identity;
    }

    /** The end of either way to sign in: the identity is adopted, or a failure clears it. */
    method SignInEnded(confirmed: bool, ghost served: Served)
      modifies this
      ensures View() == Next(old(View()), served, SessionAnswered(confirmed))
      ensures old(Valid(served)) ==> Valid(served)
    {
      OrderlyKeepsValid(served, SessionAnswered(confirmed));
      signedIn := confirmed;
    }

    method ClearWorkspace()
      modifies this`rows, this`more, this`stale
      ensures View() == Cleared(old(View()))
    {
      rows, more, stale := map[], {}, {};
    }

    /** The server's listing changes. */
    ghost method ListingChanged(l: Listing, served: Served)
      modifies this`versions, this`stale
      ensures View() == Next(old(View()), served, Changed(l))
      ensures old(Valid(served)) ==> Valid(served)
    {
      OrderlyKeepsValid(served, Changed(l));
      var after := Change(View(), l);
      versions, stale := after.versions, after.stale;
    }

    /** A page replaces the rows of a listing or joins them, and its flag is kept. */
    method Adopt(l: Listing, before: seq<Row>, reply: Reply<Row>)
      modifies this`rows, this`more
      ensures View() == Arrived(old(View()), l, before, reply)
    {
      var joined := AppendPage(before, reply.items);
      if l.Evidence? {
        joined := AnnotateCurrency(joined);
      }
      rows := rows[l := joined];
      more := if reply.hasMore then more + {l} else more - {l};
    }

    /** The `finally` of `act`, and what its `catch` does to the session. */
    method Release(i: nat, outcome: Outcome)
      requires i < |jobs|
      modifies this
      ensures View() == Released(old(View()), i, outcome)
    {
      busy := false;
      jobs := jobs[..i] + jobs[i + 1..];
      if outcome.Unauthorized? {
        signedIn := false;
      }
    }

    /** An answer arrives: what `act`, the loads and `signOut` do after their `await`. */
    method Settle(i: nat, outcome: Outcome, reply: Reply<Row>, ghost served: Served)
      requires i < |jobs|
      requires (jobs[i].Load? || jobs[i].LoadMore?) && outcome.Success? ==> reply == Answer(View(), served, jobs[i])
      modifies this
      ensures View() == Next(old(View()), served, Event.Settle(i, outcome))
      ensures old(Valid(served)) ==> Valid(served)
    {
      OrderlyKeepsValid(served, Event.Settle(i, outcome));
      var job := jobs[i];
      if job.SignOut? {
        jobs := jobs[..i] + jobs[i + 1..];
        signedIn := false;
        ClearWorkspace();
      } else if job.Mutate? && outcome.Success? {
        ghost var after := Change(View(), job.listing);
        versions, stale := after.versions, after.stale;
        busy := true;
        jobs := jobs[i := Load(job.listing, job.who)];
      } else {
        Finish(i, outcome, reply, served);
      }
    }

    /** The end of an operation that has nothing further to ask. */
    method Finish(i: nat, outcome: Outcome, reply: Reply<Row>, ghost served: Served)
      requires i < |jobs| && !jobs[i].SignOut? && !(jobs[i].Mutate? && outcome.Success?)
      requires (jobs[i].Load? || jobs[i].LoadMore?) && outcome.Success? ==> reply == Answer(View(), served, jobs[i])
      modifies this
      ensures View() == Settled(old(View()), served, i, outcome)
    {
      var job := jobs[i];
      Release(i, outcome);
      if outcome.Success? && job.Reset? {
        ClearWorkspace();
        ghost var after := ChangeAll(View());
        versions, stale := after.versions, after.stale;
      } else if outcome.Success? && job.Load? {
        Adopt(job.listing, [], reply);
        stale := stale - {job.listing};
      } else if outcome.Success? && job.LoadMore? {
        Adopt(job.listing, if job.listing in rows then rows[job.listing] else [], reply);
      }
    }

    /** What the next event keeps, if it is orderly. */
    lemma OrderlyKeepsValid(served: Served, e: Event)
      requires Enabled(View(), e)
      ensures Valid(served) && Orderly(View(), e) ==> Inv(Next(View(), served, e), served)
    {
      if Valid(served) && Orderly(View(), e) {
        OrderlyStepKeepsInv(View(), served, e);
      }
    }
  }
}
