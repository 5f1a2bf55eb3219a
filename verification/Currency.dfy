/** Which row of an evidence requirement is current. Every upload is a new version of its requirement, and the screen
    marks the highest version it holds. */
module Currency {

  datatype Mark = Unmarked | Current | Superseded

  datatype Row = Row(id: nat, requirement: int, version: int, currency: Mark)

  ghost predicate IsNewest(rows: seq<Row>, row: Row) {
    forall r :: r in rows && r.requirement == row.requirement ==> r.version <= row.version
  }

  /** The marks as the badge means them: current, exactly when no held row of the requirement is newer. */
  ghost function Marked(rows: seq<Row>, row: Row): Row {
    row.(currency := if IsNewest(rows, row) then Current else Superseded)
  }

  ghost function WithCurrency(rows: seq<Row>): (marked: seq<Row>)
    ensures |marked| == |rows|
  {
    seq(|rows|, i requires 0 <= i < |rows| => Marked(rows, rows[i]))
  }

  ghost predicate HoldsMaxima(latest: map<int, int>, rows: seq<Row>) {
    && (forall row :: row in rows ==> row.requirement in latest && row.version <= latest[row.requirement])
    && (forall q :: q in latest ==> exists row :: row in rows && row.requirement == q && row.version == latest[q])
  }

  /** The table of highest versions, in one pass. */
  method LatestVersions(rows: seq<Row>) returns (latest: map<int, int>)
    ensures HoldsMaxima(latest, rows)
  {
    latest := map[];
    for i := 0 to |rows|
      invariant HoldsMaxima(latest, rows[..i])
    {
      var item := rows[i];
      ghost var before := rows[..i];
      assert rows[..i + 1] == before + [item];
      ghost var was := latest;
      if item.requirement !in latest || item.version > latest[item.requirement] {
        latest := latest[item.requirement := item.version];
      }
      forall q | q in latest
        ensures exists row :: row in rows[..i + 1] && row.requirement == q && row.version == latest[q]
      {
        if q in was && latest[q] == was[q] {
          var row :| row in before && row.requirement == q && row.version == was[q];
          assert row in rows[..i + 1];
        } else {
          assert item in rows[..i + 1];
        }
      }
    }
    assert rows[..|rows|] == rows;
  }

  method AnnotateCurrency(rows: seq<Row>) returns (marked: seq<Row>)
    ensures marked == WithCurrency(rows)
  {
    var latest := LatestVersions(rows);
    marked := [];
    for i := 0 to |rows|
      invariant marked == WithCurrency(rows)[..i]
    {
      MaximaDecide(latest, rows, rows[i]);
      var current := rows[i].version == latest[rows[i].requirement];
      marked := marked + [rows[i].(currency := if current then Current else Superseded)];
    }
  }

  lemma MaximaDecide(latest: map<int, int>, rows: seq<Row>, row: Row)
    requires HoldsMaxima(latest, rows) && row in rows
    ensures row.requirement in latest
    ensures row.version == latest[row.requirement] <==> IsNewest(rows, row)
  {
    var top :| top in rows && top.requirement == row.requirement && top.version == latest[row.requirement];
  }

  /** Two tables that hold the same requirements and versions in the same places. */
  ghost predicate SameVersions(a: seq<Row>, b: seq<Row>) {
    |a| == |b| && forall i :: 0 <= i < |a| ==> a[i].(currency := Unmarked) == b[i].(currency := Unmarked)
  }

  lemma NewestIgnoresMarks(a: seq<Row>, b: seq<Row>, row: Row, twin: Row)
    requires SameVersions(a, b) && row.(currency := Unmarked) == twin.(currency := Unmarked)
    requires IsNewest(a, row)
    ensures IsNewest(b, twin)
  {
    forall r | r in b && r.requirement == twin.requirement ensures r.version <= twin.version {
      var i :| 0 <= i < |b| && b[i] == r;
      assert a[i].(currency := Unmarked) == b[i].(currency := Unmarked);
      assert a[i] in a;
    }
  }

  lemma MarksIgnoreMarks(a: seq<Row>, b: seq<Row>)
    requires SameVersions(a, b)
    ensures WithCurrency(a) == WithCurrency(b)
  {
    forall i | 0 <= i < |a| ensures Marked(a, a[i]) == Marked(b, b[i]) {
      assert a[i].(currency := Unmarked) == b[i].(currency := Unmarked);
      if IsNewest(a, a[i]) {
        NewestIgnoresMarks(a, b, a[i], b[i]);
      }
      if IsNewest(b, b[i]) {
        NewestIgnoresMarks(b, a, b[i], a[i]);
      }
    }
  }

  /** Marking the held rows again together with a new page gives what marking the raw rows at once gives. */
  lemma IncrementalEqualsWhole(raw: seq<Row>, page: seq<Row>)
    ensures WithCurrency(WithCurrency(raw) + page) == WithCurrency(raw + page)
  {
    MarksIgnoreMarks(WithCurrency(raw) + page, raw + page);
  }

  /** A page changes a mark exactly when it brings a newer version of a row that read as current. */
  lemma PageChangesMarkExactly(held: seq<Row>, page: seq<Row>, i: nat)
    requires i < |held|
    ensures WithCurrency(held + page)[i].currency != WithCurrency(held)[i].currency <==>
            IsNewest(held, held[i])
            && exists r :: r in page && r.requirement == held[i].requirement && r.version > held[i].version
    ensures WithCurrency(held)[i].currency == Superseded ==> WithCurrency(held + page)[i].currency == Superseded
  {
    var all := held + page;
    assert all[i] == held[i];
    assert forall r :: r in all <==> r in held || r in page;
    assert IsNewest(all, held[i]) <==> IsNewest(held, held[i]) && IsNewest(page, held[i]);
  }

  /** Over any further pages a superseded mark stays. */
  lemma {:induction false} SupersededIsFinal(held: seq<Row>, pages: seq<seq<Row>>, i: nat)
    requires i < |held| && WithCurrency(held)[i].currency == Superseded
    ensures |Shown(held, pages)| >= |held| && Shown(held, pages)[i].currency == Superseded
    decreases |pages|
  {
    if pages == [] {
    } else {
      PageChangesMarkExactly(held, pages[0], i);
      SupersededIsFinal(held + pages[0], pages[1..], i);
      ShownStep(held, pages);
    }
  }

  /** The table after load-more presses, one page after the other, from raw rows. */
  ghost function Shown(held: seq<Row>, pages: seq<seq<Row>>): seq<Row>
    decreases |pages|
  {
    ShownFrom(WithCurrency(held), pages)
  }

  ghost function ShownFrom(rows: seq<Row>, pages: seq<seq<Row>>): seq<Row>
    decreases |pages|
  {
    if pages == [] then rows else ShownFrom(WithCurrency(rows + pages[0]), pages[1..])
  }

  lemma ShownStep(held: seq<Row>, pages: seq<seq<Row>>)
    requires pages != []
    ensures Shown(held, pages) == Shown(held + pages[0], pages[1..])
  {
    IncrementalEqualsWhole(held, pages[0]);
  }

  function Flat(pages: seq<seq<Row>>): seq<Row> {
    if pages == [] then [] else pages[0] + Flat(pages[1..])
  }

  /** However the rows arrived, the table is what one marking of all of them would be. */
  lemma {:induction false} PagesEqualWhole(held: seq<Row>, pages: seq<seq<Row>>)
    ensures Shown(held, pages) == WithCurrency(held + Flat(pages))
    decreases |pages|
  {
    if pages == [] {
      assert held + Flat(pages) == held;
    } else {
      ShownStep(held, pages);
      PagesEqualWhole(held + pages[0], pages[1..]);
      assert held + pages[0] + Flat(pages[1..]) == held + Flat(pages);
    }
  }

  /** Every requirement with a row on screen has one that reads as current. */
  lemma {:induction false} SomeRowIsCurrent(rows: seq<Row>, requirement: int)
    requires exists row :: row in rows && row.requirement == requirement
    ensures exists i :: 0 <= i < |rows| && rows[i].requirement == requirement && IsNewest(rows, rows[i])
  {
    var n := |rows| - 1;
    var rest := rows[..n];
    assert rows == rest + [rows[n]];
    if exists row :: row in rest && row.requirement == requirement {
      SomeRowIsCurrent(rest, requirement);
      var i :| 0 <= i < |rest| && rest[i].requirement == requirement && IsNewest(rest, rest[i]);
      assert rows[i] == rest[i];
      if rows[n].requirement == requirement && rows[n].version > rest[i].version {
        assert IsNewest(rows, rows[n]);
      } else {
        assert IsNewest(rows, rows[i]);
      }
    } else {
      var row :| row in rows && row.requirement == requirement;
      assert IsNewest(rows, rows[n]);
    }
  }
}
