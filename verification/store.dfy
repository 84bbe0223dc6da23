/** The request table (main.py, `init_db`, `save_request`, `get_all_requests`):
    an append-only sequence of rows, each with an auto-increment id. */
module RequestStore {
  import opened Common

  /** One submitted request: the submitter and one answer per question field.
      Answers are `None` where the conversation stored no text. */
  datatype Request = Request(
    userId: UserId,
    username: Option<string>,
    device: Option<string>,
    photoId: Option<string>,
    memory: Option<string>,
    battery: Option<string>,
    kit: Option<string>,
    defects: Option<string>,
    urgency: Option<string>)

  /** A stored row: the assigned id and the request. */
  datatype Row = Row(id: int, req: Request)

  /** The table's rows in insertion order. */
  type Store = seq<Row>

  /** Ids increase strictly in insertion order, so no two rows share one. */
  predicate StrictlyIncreasing(rows: Store)
  {
    forall i, j :: 0 <= i < j < |rows| ==> rows[i].id < rows[j].id
  }

  /** The largest id in `rows`, or 0 when there is none. */
  function MaxId(rows: Store): (m: int)
    ensures m >= 0
    ensures forall i :: 0 <= i < |rows| ==> rows[i].id <= m
    ensures m == 0 || exists i :: 0 <= i < |rows| && rows[i].id == m
  {
    if |rows| == 0 then 0
    else
      var rest := MaxId(rows[..|rows| - 1]);
      var last := rows[|rows| - 1].id;
      if last > rest then last else rest
  }

  /** Appends one row with a fresh AUTOINCREMENT id. AUTOINCREMENT continues
      from the largest id the table has ever held. The program never deletes
      rows, so that is the largest id present, and the new id is one more
      (1 for an empty table). Existing rows are untouched. */
  function Save(rows: Store, req: Request): (r: Store)
    ensures |r| == |rows| + 1
    ensures r[..|rows|] == rows
    ensures r[|rows|].req == req
    ensures r[|rows|].id >= 1
    ensures forall i :: 0 <= i < |rows| ==> rows[i].id < r[|rows|].id
  {
    rows + [Row(MaxId(rows) + 1, req)]
  }

  /** Saving keeps the ids strictly increasing. */
  lemma SavePreservesOrder(rows: Store, req: Request)
    requires StrictlyIncreasing(rows)
    ensures StrictlyIncreasing(Save(rows, req))
  {
  }

  /** Ids never increase along `rows`. */
  predicate NonIncreasing(rows: Store)
  {
    forall i, j :: 0 <= i < j < |rows| ==> rows[i].id >= rows[j].id
  }

  /** Ids strictly decrease along `rows`. */
  predicate StrictlyDecreasing(rows: Store)
  {
    forall i, j :: 0 <= i < j < |rows| ==> rows[i].id > rows[j].id
  }

  /** No two rows share an id. */
  predicate DistinctIds(rows: Store)
  {
    forall i, j :: 0 <= i < j < |rows| ==> rows[i].id != rows[j].id
  }

  /** Putting a row in front of a list ordered by descending id keeps it
      ordered when the row is at least as new as the list's head. */
  lemma ConsKeepsOrder(h: Row, t: Store)
    requires NonIncreasing(t)
    requires |t| > 0 ==> h.id >= t[0].id
    ensures NonIncreasing([h] + t)
  {
  }

  /** The same, strictly. */
  lemma ConsKeepsStrictOrder(h: Row, t: Store)
    requires StrictlyDecreasing(t)
    requires |t| > 0 ==> h.id > t[0].id
    ensures StrictlyDecreasing([h] + t)
  {
  }

  /** Inserts `x` into a list ordered by descending id, before the first row
      that is not newer than it. */
  function InsertByIdDesc(x: Row, rows: Store): (r: Store)
    requires NonIncreasing(rows)
    ensures NonIncreasing(r)
    ensures multiset(r) == multiset(rows) + multiset{x}
    ensures |r| > 0 && (r[0] == x || (|rows| > 0 && r[0] == rows[0]))
  {
    if |rows| == 0 then [x]
    else if x.id >= rows[0].id then
      ConsKeepsOrder(x, rows);
      [x] + rows
    else
      var tail := InsertByIdDesc(x, rows[1..]);
      assert rows == [rows[0]] + rows[1..];
      assert |rows| > 1 ==> rows[0].id >= rows[1].id;
      ConsKeepsOrder(rows[0], tail);
      [rows[0]] + tail
  }

  /** Inserting a row whose id is new into a strictly ordered list keeps it
      strictly ordered. */
  lemma {:induction false} InsertKeepsStrictOrder(x: Row, rows: Store)
    requires StrictlyDecreasing(rows)
    requires forall j :: 0 <= j < |rows| ==> rows[j].id != x.id
    ensures StrictlyDecreasing(InsertByIdDesc(x, rows))
  {
    if |rows| > 0 && x.id < rows[0].id {
      assert rows == [rows[0]] + rows[1..];
      assert StrictlyDecreasing(rows[1..]);
      InsertKeepsStrictOrder(x, rows[1..]);
      var tail := InsertByIdDesc(x, rows[1..]);
      assert |rows| > 1 ==> rows[0].id > rows[1].id;
      ConsKeepsStrictOrder(rows[0], tail);
    } else if |rows| > 0 {
      ConsKeepsStrictOrder(x, rows);
    }
  }

  /** A row of a list is the row at one of its positions. */
  lemma MemberAt(y: Row, rows: Store) returns (j: nat)
    requires y in multiset(rows)
    ensures j < |rows| && rows[j] == y
  {
    j :| 0 <= j < |rows| && rows[j] == y;
  }

  /** `SELECT * FROM requests ORDER BY id DESC`: the table's rows, newest id
      first. */
  function AllByIdDesc(rows: Store): (r: Store)
    ensures NonIncreasing(r)
    ensures multiset(r) == multiset(rows)
  {
    if |rows| == 0 then []
    else
      var rest := AllByIdDesc(rows[1..]);
      assert rows == [rows[0]] + rows[1..];
      InsertByIdDesc(rows[0], rest)
  }

  /** On a table with distinct ids the descending listing is strictly
      descending. */
  lemma {:induction false} AllByIdDescStrict(rows: Store)
    requires DistinctIds(rows)
    ensures StrictlyDecreasing(AllByIdDesc(rows))
  {
    if |rows| > 0 {
      var rest := AllByIdDesc(rows[1..]);
      assert DistinctIds(rows[1..]);
      AllByIdDescStrict(rows[1..]);
      forall i | 0 <= i < |rest|
        ensures rest[i].id != rows[0].id
      {
        assert rest[i] in multiset(rows[1..]);
        var j := MemberAt(rest[i], rows[1..]);
        assert rows[j + 1] == rest[i];
      }
      InsertKeepsStrictOrder(rows[0], rest);
    }
  }

  /** A table with strictly increasing ids has distinct ids. */
  lemma IncreasingIsDistinct(rows: Store)
    requires StrictlyIncreasing(rows)
    ensures DistinctIds(rows)
  {
  }

  /** The first `limit` rows of the descending listing (Python's `rows[:limit]`). */
  function ListRecent(rows: Store, limit: nat): (r: Store)
    ensures |r| == Min(limit, |rows|)
    ensures NonIncreasing(r)
    ensures forall y :: y in r ==> y in rows
  {
    var all := AllByIdDesc(rows);
    var r := all[..Min(limit, |all|)];
    assert forall y :: y in r ==> y in multiset(all);
    r
  }

  /** Every row of the table that is not listed is older than every row that
      is: the listing holds the newest rows. */
  lemma ListRecentIsNewest(rows: Store, limit: nat, x: Row, y: Row)
    requires x in rows && x !in ListRecent(rows, limit)
    requires y in ListRecent(rows, limit)
    ensures x.id <= y.id
  {
    var all := AllByIdDesc(rows);
    var r := ListRecent(rows, limit);
    var k := Min(limit, |all|);
    assert r == all[..k];
    var j := MemberAt(x, all);
    var i := MemberAt(y, r);
    assert all[i] == y;
  }

  /** On a table with distinct ids the listing is strictly newest first, and
      when the table holds no more than `limit` rows all of them are listed. */
  lemma ListRecentOrderAndCoverage(rows: Store, limit: nat)
    requires DistinctIds(rows)
    ensures StrictlyDecreasing(ListRecent(rows, limit))
    ensures |rows| <= limit ==> multiset(ListRecent(rows, limit)) == multiset(rows)
  {
    var all := AllByIdDesc(rows);
    var k := Min(limit, |all|);
    assert ListRecent(rows, limit) == all[..k];
    AllByIdDescStrict(rows);
    assert |all| == |multiset(all)| == |rows|;
    if |rows| <= limit {
      assert all[..k] == all;
    }
  }
}
