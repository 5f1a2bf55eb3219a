/** Paged listings: the page the API serves, and the page appended to the rows already on screen. */
module Paging {

  /** The answer of a list route. */
  datatype Reply<T> = Reply(items: seq<T>, hasMore: bool)

  const PAGE_SIZE := 100
  const SELECT_PAGE_SIZE := 500

  /** What `LIMIT n OFFSET m` leaves of an ordered listing. */
  function Rows<T>(listing: seq<T>, limit: nat, offset: nat): seq<T> {
    var after := if offset <= |listing| then listing[offset..] else [];
    if |after| <= limit then after else after[..limit]
  }

  /** A list route fetches one row past the page: the extra row is what `hasMore` reports. */
  function Serve<T>(listing: seq<T>, limit: nat, offset: nat): Reply<T> {
    var fetched := Rows(listing, limit + 1, offset);
    Reply(if |fetched| <= limit then fetched else fetched[..limit], |fetched| > limit)
  }

  function AppendPage<T>(existing: seq<T>, items: seq<T>): seq<T> { existing + items }

  ghost predicate DuplicateFree<T(!new)>(rows: seq<T>) {
    forall i, j :: 0 <= i < j < |rows| ==> rows[i] != rows[j]
  }

  function Min(a: nat, b: nat): nat { if a <= b then a else b }

  /** What the answer means: the listing's rows from the offset on, cut at the limit, and a flag that is set exactly
      when a row lies beyond them. */
  lemma PageIsASlice<T>(listing: seq<T>, limit: nat, offset: nat)
    requires limit >= 1
    ensures var reply := Serve(listing, limit, offset);
      reply.hasMore <==> offset + limit < |listing|
    ensures offset <= |listing| ==>
              Serve(listing, limit, offset).items == listing[offset..Min(offset + limit, |listing|)]
    ensures offset > |listing| ==> Serve(listing, limit, offset).items == []
  {}

  /** Asking for the page at the number of rows held keeps the rows a prefix of the listing, and says truthfully
      whether that prefix is all of it. */
  lemma NextPageExtendsThePrefix<T>(listing: seq<T>, limit: nat, held: nat)
    requires limit >= 1 && held <= |listing|
    ensures var reply := Serve(listing, limit, held);
      var now := Min(held + limit, |listing|);
      AppendPage(listing[..held], reply.items) == listing[..now] && (reply.hasMore <==> now < |listing|)
  {
    PageIsASlice(listing, limit, held);
  }

  /** Any other offset spoils it: of a listing without duplicates the rows stay a prefix exactly when the page
      starts where the rows end, or brings nothing. */
  lemma OnlyTheHeldOffsetFits<T(!new)>(listing: seq<T>, limit: nat, held: nat, offset: nat)
    requires limit >= 1 && held <= |listing| && DuplicateFree(listing)
    ensures AppendPage(listing[..held], Serve(listing, limit, offset).items) <= listing <==>
            offset == held || offset >= |listing|
  {
    PageIsASlice(listing, limit, offset);
    var items := Serve(listing, limit, offset).items;
    var rows := AppendPage(listing[..held], items);
    if offset == held {
      NextPageExtendsThePrefix(listing, limit, held);
    } else if offset >= |listing| {
      assert rows == listing[..held];
    } else {
      assert rows[held] == items[0] == listing[offset];
      assert |rows| > held && (held < |listing| ==> rows[held] != listing[held]);
    }
  }

  /** Pressing load-more until the flag is false. */
  function Walk<T>(listing: seq<T>, limit: nat, rows: seq<T>): seq<T>
    requires limit >= 1
    decreases |listing| - |rows|
  {
    var reply := Serve(listing, limit, |rows|);
    PageIsASlice(listing, limit, |rows|);
    if reply.hasMore then Walk(listing, limit, AppendPage(rows, reply.items)) else AppendPage(rows, reply.items)
  }

  /** The requests a walk sends. */
  function Requests<T>(listing: seq<T>, limit: nat, held: nat): (n: nat)
    requires limit >= 1
    decreases |listing| - held
  {
    if Serve(listing, limit, held).hasMore then
      PageIsASlice(listing, limit, held);
      1 + Requests(listing, limit, held + limit)
    else 1
  }

  /** A walk ends with the whole listing, in order, whatever the page size. */
  lemma {:induction false} WalkReachesEveryRow<T>(listing: seq<T>, limit: nat, held: nat)
    requires limit >= 1 && held <= |listing|
    ensures Walk(listing, limit, listing[..held]) == listing
    decreases |listing| - held
  {
    NextPageExtendsThePrefix(listing, limit, held);
    PageIsASlice(listing, limit, held);
    assert listing[..|listing|] == listing;
    if !Serve(listing, limit, held).hasMore {
    } else {
      WalkReachesEveryRow(listing, limit, held + limit);
    }
  }

  /** It sends one request for each started page and none that comes back empty, except the first of an empty
      listing. */
  lemma {:induction false} WalkSendsNoSpareRequest<T>(listing: seq<T>, limit: nat, held: nat)
    requires limit >= 1 && held <= |listing|
    ensures (Requests(listing, limit, held) - 1) * limit <= |listing| - held <= Requests(listing, limit, held) * limit
    ensures held < |listing| ==> (Requests(listing, limit, held) - 1) * limit < |listing| - held
    decreases |listing| - held
  {
    PageIsASlice(listing, limit, held);
    if !Serve(listing, limit, held).hasMore {
    } else {
      WalkSendsNoSpareRequest(listing, limit, held + limit);
      Distribute(Requests(listing, limit, held + limit), limit);
    }
  }

  lemma Distribute(n: nat, limit: nat)
    ensures (n + 1) * limit == n * limit + limit
    ensures n >= 1 ==> n * limit == (n - 1) * limit + limit
  {}
}
