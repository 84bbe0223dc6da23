/** The administrator's `/list` command (main.py, `list_requests`). */
module Admin {
  import opened Common
  import opened RequestStore
  import opened Outputs

  /** The one identity allowed to list requests (main.py, `ADMIN_ID`). */
  const AdminId: UserId := 167372100

  /** How many rows one listing shows. */
  const ListLimit: nat := 10

  /** One message per row, in order: a photo with caption when the row has a
      photo reference, a text message otherwise. */
  function ListingMessages(to: UserId, rows: Store): (r: seq<Output>)
    ensures |r| == |rows|
    ensures forall i :: 0 <= i < |rows| ==>
      r[i] == (if Truthy(rows[i].req.photoId) then ListedWithPhoto(to, rows[i]) else ListedAsText(to, rows[i]))
  {
    if |rows| == 0 then []
    else
      var m := if Truthy(rows[0].req.photoId) then ListedWithPhoto(to, rows[0]) else ListedAsText(to, rows[0]);
      [m] + ListingMessages(to, rows[1..])
  }

  /** `list_requests`: a caller other than the administrator is denied; the
      administrator gets "no requests" for an empty table, and otherwise one
      message for each of the ten newest rows (see `ListingContents`). */
  function ListRequests(store: Store, caller: UserId): (r: seq<Output>)
    ensures caller != AdminId ==> r == [Denied(caller)]
    ensures caller == AdminId && |store| == 0 ==> r == [NoRequests(caller)]
    ensures caller == AdminId && |store| > 0 ==> |r| == Min(ListLimit, |store|)
  {
    if caller != AdminId then [Denied(caller)]
    else
      var rows := AllByIdDesc(store);
      assert |rows| == |multiset(store)| == |store|;
      if |rows| == 0 then [NoRequests(caller)]
      else ListingMessages(caller, rows[..Min(ListLimit, |rows|)])
  }

  /** Each message of an administrator's listing shows a row of the table,
      to the caller, as a photo exactly when the row has a photo reference,
      and the rows come newest first. */
  lemma ListingContents(store: Store)
    requires |store| > 0
    ensures var r := ListRequests(store, AdminId);
      && (forall i :: 0 <= i < |r| ==>
            && (r[i].ListedWithPhoto? || r[i].ListedAsText?)
            && r[i].user == AdminId
            && r[i].row in store
            && (r[i].ListedWithPhoto? <==> Truthy(r[i].row.req.photoId)))
      && (forall i, j :: 0 <= i < j < |r| ==> r[i].row.id >= r[j].row.id)
  {
    var shown := ListRecent(store, ListLimit);
    assert ListRequests(store, AdminId) == ListingMessages(AdminId, shown);
  }

  /** A denied caller's reply does not depend on the table: nothing is read. */
  lemma DeniedReadsNothing(s1: Store, s2: Store, caller: UserId)
    requires caller != AdminId
    ensures ListRequests(s1, caller) == ListRequests(s2, caller)
  {
  }

  /** The rows an administrator's listing shows are, in order, those of
      `ListRecent`: the newest ten. */
  lemma ListingRows(store: Store)
    requires |store| > 0
    ensures var r := ListRequests(store, AdminId);
      && |r| == |ListRecent(store, ListLimit)|
      && forall i :: 0 <= i < |r| ==>
           (r[i].ListedWithPhoto? || r[i].ListedAsText?) && r[i].row == ListRecent(store, ListLimit)[i]
  {
  }

  /** No row left out of an administrator's listing is newer than a row in
      it. */
  lemma ListingShowsNewest(store: Store, x: Row, i: nat)
    requires |store| > 0
    requires x in store && x !in ListRecent(store, ListLimit)
    requires i < |ListRequests(store, AdminId)|
    ensures var o := ListRequests(store, AdminId)[i];
      (o.ListedWithPhoto? || o.ListedAsText?) && o.row.id >= x.id
  {
    ListingRows(store);
    ListRecentIsNewest(store, ListLimit, x, ListRecent(store, ListLimit)[i]);
  }

  /** On a table whose ids increase, as `save_request` keeps them, the
      listing is strictly newest first, and when the table holds at most ten
      rows every row is among the rows listed (see `ListingListsAll` for the
      messages themselves). */
  lemma ListingNewestFirst(store: Store)
    requires |store| > 0 && StrictlyIncreasing(store)
    ensures var r := ListRequests(store, AdminId);
      forall i, j :: 0 <= i < j < |r| ==>
        && (r[i].ListedWithPhoto? || r[i].ListedAsText?)
        && (r[j].ListedWithPhoto? || r[j].ListedAsText?)
        && r[i].row.id > r[j].row.id
    ensures |store| <= ListLimit ==> multiset(ListRecent(store, ListLimit)) == multiset(store)
  {
    var r := ListRequests(store, AdminId);
    var shown := ListRecent(store, ListLimit);
    ListingRows(store);
    IncreasingIsDistinct(store);
    ListRecentOrderAndCoverage(store, ListLimit);
    forall i, j | 0 <= i < j < |r|
      ensures (r[i].ListedWithPhoto? || r[i].ListedAsText?) && (r[j].ListedWithPhoto? || r[j].ListedAsText?)
      ensures r[i].row.id > r[j].row.id
    {
      assert r[i].row == shown[i] && r[j].row == shown[j];
    }
  }

  /** When the table holds at most ten rows, the administrator's listing
      shows every one of them, one message per row. */
  lemma ListingListsAll(store: Store)
    requires 0 < |store| <= ListLimit
    ensures var r := ListRequests(store, AdminId);
      && |r| == |store|
      && forall x :: x in store ==>
           exists i :: 0 <= i < |r| && (r[i].ListedWithPhoto? || r[i].ListedAsText?) && r[i].row == x
  {
    var r := ListRequests(store, AdminId);
    var shown := ListRecent(store, ListLimit);
    ListingRows(store);
    assert |shown| == |store|;
    var all := AllByIdDesc(store);
    assert |all| == |multiset(all)| == |store|;
    assert shown == all;
    forall x | x in store
      ensures exists i :: 0 <= i < |r| && (r[i].ListedWithPhoto? || r[i].ListedAsText?) && r[i].row == x
    {
      assert x in multiset(all);
      var i :| 0 <= i < |shown| && shown[i] == x;
      assert r[i].row == x;
    }
  }
}
