/**
 The effect on `table3` of each SQL statement the handlers send: a plain multi-row
 INSERT for `table1` writes, INSERT ... ON DUPLICATE KEY UPDATE for `table1`
 updates, DELETE ... WHERE orderId IN (...) for `table1` deletes, and one
 UPDATE ... SET orderStatus<code> per `table2` row.
 */
module Projection {
  import opened Types

  // ---------------------------------------------------------------------------
  // Rows and status columns

  /** The row a plain INSERT of the four mirrored columns creates; the status
      columns take their column default, taken here to be NULL. */
  function NewRow(im: OrderImage): Row {
    Row(im.orderItem, im.customerName, im.orderDate, None, None, None, None, None)
  }

  /** Two rows agree on the columns mirrored from `table1`. */
  predicate SameOrder(a: Row, b: Row) {
    a.orderItem == b.orderItem && a.customerName == b.customerName && a.orderDate == b.orderDate
  }

  /** Column `orderStatus<code>` of a row. */
  function StatusColumn(row: Row, code: int): Option<string>
    requires 1 <= code <= 5
  {
    if code == 1 then row.orderStatus1
    else if code == 2 then row.orderStatus2
    else if code == 3 then row.orderStatus3
    else if code == 4 then row.orderStatus4
    else row.orderStatus5
  }

  /** Sets column `orderStatus<code>` to `text`. */
  function WithStatus(row: Row, code: int, text: string): (r: Row)
    requires 1 <= code <= 5
    ensures SameOrder(r, row)
    ensures forall c | 1 <= c <= 5 ::
      StatusColumn(r, c) == if c == code then Some(text) else StatusColumn(row, c)
  {
    if code == 1 then row.(orderStatus1 := Some(text))
    else if code == 2 then row.(orderStatus2 := Some(text))
    else if code == 3 then row.(orderStatus3 := Some(text))
    else if code == 4 then row.(orderStatus4 := Some(text))
    else row.(orderStatus5 := Some(text))
  }

  /** A row is determined by its mirrored columns and its five status columns. */
  lemma RowsEqual(a: Row, b: Row)
    requires SameOrder(a, b)
    requires forall c | 1 <= c <= 5 :: StatusColumn(a, c) == StatusColumn(b, c)
    ensures a == b
  {
    assert StatusColumn(a, 1) == StatusColumn(b, 1);
    assert StatusColumn(a, 2) == StatusColumn(b, 2);
    assert StatusColumn(a, 3) == StatusColumn(b, 3);
    assert StatusColumn(a, 4) == StatusColumn(b, 4);
    assert StatusColumn(a, 5) == StatusColumn(b, 5);
  }

  // ---------------------------------------------------------------------------
  // Write: INSERT INTO table3 (...) VALUES (...), one statement for the batch

  predicate DistinctIds(images: seq<OrderImage>) {
    forall i, j | 0 <= i < j < |images| :: images[i].orderId != images[j].orderId
  }

  predicate AbsentFrom(t: Table, images: seq<OrderImage>) {
    forall i | 0 <= i < |images| :: images[i].orderId !in t
  }

  function Ids(images: seq<OrderImage>): set<int> {
    set i | 0 <= i < |images| :: images[i].orderId
  }

  /** The keys of a batch are its first key and the keys of the rest. */
  lemma IdsCons(images: seq<OrderImage>)
    requires images != []
    ensures Ids(images) == {images[0].orderId} + Ids(images[1..])
  {
    var rest := images[1..];
    forall k | k in Ids(images) ensures k in {images[0].orderId} + Ids(rest) {
      var i :| 0 <= i < |images| && images[i].orderId == k;
      if i > 0 { assert images[i] == rest[i - 1]; }
    }
    forall k | k in Ids(rest) ensures k in Ids(images) {
      var i :| 0 <= i < |rest| && rest[i].orderId == k;
      assert rest[i] == images[i + 1];
    }
  }

  /** `r` is `t` with one new row per image and nothing else changed. */
  predicate Inserted(t: Table, images: seq<OrderImage>, r: Table) {
    && r.Keys == t.Keys + Ids(images)
    && (forall k | k in t :: k in r && r[k] == t[k])
    && (forall i | 0 <= i < |images| :: images[i].orderId in r && r[images[i].orderId] == NewRow(images[i]))
  }

  /** Inserts the images one after the other; the first key already present
      (in the table or earlier in the batch) aborts the statement. */
  function InsertEach(t: Table, images: seq<OrderImage>): (r: Result<Table>)
    ensures r.Err? ==> r.error.DuplicateKey? && r.error.orderId in Ids(images)
    decreases |images|
  {
    if images == [] then Ok(t)
    else
      IdsCons(images);
      if images[0].orderId in t then Err(DuplicateKey(images[0].orderId))
      else InsertEach(t[images[0].orderId := NewRow(images[0])], images[1..])
  }

  /** The effect of the write handler's INSERT. With no rows the statement is sent
      with its placeholders unfilled and the server rejects it; a failed
      statement leaves the table as it was. */
  function Insert(t: Table, images: seq<OrderImage>): (r: Result<Table>)
    ensures r.Ok? <==> images != [] && AbsentFrom(t, images) && DistinctIds(images)
    ensures r.Ok? ==> Inserted(t, images, r.value)
    ensures r.Err? ==> (r.error == EmptyStatement <==> images == [])
  {
    if images == [] then Err(EmptyStatement)
    else
      InsertEachSpec(t, images);
      InsertEach(t, images)
  }

  /** The insert succeeds exactly when every key is new and the batch repeats no
      key, and then it adds exactly the batch's rows. */
  lemma {:induction false} InsertEachSpec(t: Table, images: seq<OrderImage>)
    ensures InsertEach(t, images).Ok? <==> AbsentFrom(t, images) && DistinctIds(images)
    ensures InsertEach(t, images).Ok? ==> Inserted(t, images, InsertEach(t, images).value)
    decreases |images|
  {
    if images != [] {
      var x, rest := images[0], images[1..];
      if x.orderId !in t {
        var t' := t[x.orderId := NewRow(x)];
        InsertEachSpec(t', rest);
        assert AbsentFrom(t', rest) && DistinctIds(rest) <==> AbsentFrom(t, images) && DistinctIds(images) by {
          if AbsentFrom(t', rest) && DistinctIds(rest) {
            forall i, j | 0 <= i < j < |images|
              ensures images[i].orderId != images[j].orderId
            {
              if i > 0 { assert images[i] == rest[i - 1] && images[j] == rest[j - 1]; }
              else { assert images[j] == rest[j - 1]; }
            }
            forall i | 0 <= i < |images| ensures images[i].orderId !in t {
              if i > 0 { assert images[i] == rest[i - 1]; }
            }
          }
          if AbsentFrom(t, images) && DistinctIds(images) {
            forall i | 0 <= i < |rest| ensures rest[i].orderId !in t' {
              assert rest[i] == images[i + 1];
            }
            forall i, j | 0 <= i < j < |rest| ensures rest[i].orderId != rest[j].orderId {
              assert rest[i] == images[i + 1] && rest[j] == images[j + 1];
            }
          }
        }
        if InsertEach(t, images).Ok? {
          var r := InsertEach(t, images).value;
          IdsCons(images);
          forall i | 0 <= i < |images|
            ensures images[i].orderId in r && r[images[i].orderId] == NewRow(images[i])
          {
            if i > 0 { assert images[i] == rest[i - 1]; }
          }
        }
      }
    }
  }

  // ---------------------------------------------------------------------------
  // Update: INSERT ... ON DUPLICATE KEY UPDATE orderItem, customerName, orderDate

  /** The row left by upserting `im` over the row `prior` (if any) with its key. */
  function Overlay(prior: Option<Row>, im: OrderImage): (r: Row)
    ensures r.orderItem == im.orderItem && r.customerName == im.customerName && r.orderDate == im.orderDate
    ensures prior.None? ==> r == NewRow(im)
    ensures prior.Some? ==> forall c | 1 <= c <= 5 :: StatusColumn(r, c) == StatusColumn(prior.value, c)
  {
    match prior
    case None => NewRow(im)
    case Some(row) => row.(orderItem := im.orderItem, customerName := im.customerName, orderDate := im.orderDate)
  }

  /** One row of the statement: insert, or overwrite the three mirrored columns. */
  function UpsertOne(t: Table, im: OrderImage): (r: Table)
    ensures r.Keys == t.Keys + {im.orderId}
    ensures r[im.orderId] == Overlay(Get(t, im.orderId), im)
    ensures forall k | k in t && k != im.orderId :: r[k] == t[k]
  {
    if im.orderId in t then t[im.orderId := Overlay(Some(t[im.orderId]), im)]
    else t[im.orderId := NewRow(im)]
  }

  function UpsertEach(t: Table, images: seq<OrderImage>): (r: Table)
    ensures r.Keys == t.Keys + Ids(images)
    ensures forall k | k in t && k !in Ids(images) :: r[k] == t[k]
    decreases |images|
  {
    if images == [] then t
    else
      IdsCons(images);
      UpsertEach(UpsertOne(t, images[0]), images[1..])
  }

  /** The effect of the update handler's statement (an empty batch is rejected
      as for the INSERT). */
  function Upsert(t: Table, images: seq<OrderImage>): (r: Result<Table>)
    ensures r.Ok? <==> images != []
    ensures r.Ok? ==> r.value.Keys == t.Keys + Ids(images)
    ensures r.Ok? ==> forall k | k in t && k !in Ids(images) :: r.value[k] == t[k]
  {
    if images == [] then Err(EmptyStatement) else Ok(UpsertEach(t, images))
  }

  /** The last image in the batch whose key is `k`. */
  function LastFor(images: seq<OrderImage>, k: int): Option<OrderImage>
    decreases |images|
  {
    if images == [] then None
    else match LastFor(images[1..], k)
      case Some(im) => Some(im)
      case None => if images[0].orderId == k then Some(images[0]) else None
  }

  /** Upserting `a` and then `b` for the same key leaves what upserting `b` alone
      leaves: the later image wins and the status columns are untouched. */
  lemma OverlayTwice(prior: Option<Row>, a: OrderImage, b: OrderImage)
    ensures Overlay(Some(Overlay(prior, a)), b) == Overlay(prior, b)
  {
  }

  /** Key by key, an upsert batch leaves the last image for that key laid over the
      row the table had, and leaves keys the batch does not mention alone. */
  lemma {:induction false} UpsertEachAt(t: Table, images: seq<OrderImage>, k: int)
    ensures var r := UpsertEach(t, images);
      && (k in r <==> k in t || LastFor(images, k).Some?)
      && (LastFor(images, k).Some? ==> k in r && r[k] == Overlay(Get(t, k), LastFor(images, k).value))
      && (LastFor(images, k).None? && k in t ==> r[k] == t[k])
    decreases |images|
  {
    if images != [] {
      var x, rest := images[0], images[1..];
      var t' := UpsertOne(t, x);
      UpsertEachAt(t', rest, k);
      match LastFor(rest, k)
      case Some(im) =>
        if k == x.orderId {
          OverlayTwice(Get(t, k), x, im);
        }
      case None =>
    }
  }

  /** Re-applying an update batch changes nothing. */
  lemma UpsertEachIdempotent(t: Table, images: seq<OrderImage>)
    ensures UpsertEach(UpsertEach(t, images), images) == UpsertEach(t, images)
  {
    var r1 := UpsertEach(t, images);
    var r2 := UpsertEach(r1, images);
    forall k ensures (k in r2 <==> k in r1) && (k in r1 ==> r2[k] == r1[k]) {
      UpsertEachAt(t, images, k);
      UpsertEachAt(r1, images, k);
      if LastFor(images, k).Some? {
        OverlayTwice(Get(t, k), LastFor(images, k).value, LastFor(images, k).value);
      }
    }
    assert r2.Keys == r1.Keys;
  }

  /** An update batch never touches a status column of a row that existed, and
      gives a new row NULL status columns. */
  lemma UpsertKeepsStatuses(t: Table, images: seq<OrderImage>, k: int, c: int)
    requires 1 <= c <= 5
    requires k in UpsertEach(t, images)
    ensures StatusColumn(UpsertEach(t, images)[k], c) == if k in t then StatusColumn(t[k], c) else None
  {
    UpsertEachAt(t, images, k);
  }

  // ---------------------------------------------------------------------------
  // Delete: DELETE FROM table3 WHERE orderId IN (...)

  /** The effect of the delete handler's statement. An empty batch has no
      `orderId` column to read, so the handler raises before any statement. */
  function Delete(t: Table, images: seq<OrderImage>): (r: Result<Table>)
    ensures r.Ok? <==> images != []
    ensures r.Ok? ==> forall k :: k in r.value <==> k in t && forall i | 0 <= i < |images| :: images[i].orderId != k
    ensures r.Ok? ==> forall k | k in r.value :: r.value[k] == t[k]
  {
    if images == [] then Err(EmptyStatement) else Ok(t - Ids(images))
  }

  /** Deleting a batch that was just inserted restores the table. */
  lemma DeleteUndoesInsert(t: Table, images: seq<OrderImage>)
    requires Insert(t, images).Ok?
    ensures Delete(Insert(t, images).value, images) == Ok(t)
  {
    InsertEachSpec(t, images);
    var r := Insert(t, images).value;
    assert t.Keys !! Ids(images) by {
      forall k | k in Ids(images) ensures k !in t {
        var i :| 0 <= i < |images| && images[i].orderId == k;
      }
    }
    var back := r - Ids(images);
    assert back.Keys == t.Keys;
    assert forall k | k in back :: back[k] == t[k];
    assert back == t;
  }

  /** Re-applying a delete batch changes nothing. */
  lemma DeleteIdempotent(t: Table, images: seq<OrderImage>)
    requires images != []
    ensures Delete(Delete(t, images).value, images) == Delete(t, images)
  {
    var once := t - Ids(images);
    assert once - Ids(images) == once;
  }

  // ---------------------------------------------------------------------------
  // Status: UPDATE table3 SET orderStatus<code> = '<label>' WHERE orderId = <id>

  /** The handler's fixed map from status code to label. */
  const STATUS_MAP: map<int, string> :=
    map[1 := "ordered", 2 := "Processing", 3 := "shipped", 4 := "outForDelivery", 5 := "delivered"]

  /** The label the status map gives `code`, if it gives one. */
  function StatusLabel(code: int): (r: Option<string>)
    ensures r.Some? <==> 1 <= code <= 5
    ensures r.Some? ==> r.value != ""
  {
    if code in STATUS_MAP then Some(STATUS_MAP[code]) else None
  }

  /** The five labels, spelled as in the handler's map. */
  lemma StatusLabels()
    ensures StatusLabel(1) == Some("ordered")
    ensures StatusLabel(2) == Some("Processing")
    ensures StatusLabel(3) == Some("shipped")
    ensures StatusLabel(4) == Some("outForDelivery")
    ensures StatusLabel(5) == Some("delivered")
  {
  }

  /** One status row: a known code sets that one column of the matching row;
      an unknown code, or an orderId with no row, changes nothing. */
  function SetStatus(t: Table, s: StatusImage): (r: Table)
    ensures r.Keys == t.Keys
    ensures forall k | k in t && k != s.orderId :: r[k] == t[k]
    ensures StatusLabel(s.orderStatus).None? || s.orderId !in t ==> r == t
    ensures StatusLabel(s.orderStatus).Some? && s.orderId in t ==>
      && SameOrder(r[s.orderId], t[s.orderId])
      && forall c | 1 <= c <= 5 :: StatusColumn(r[s.orderId], c) ==
           if c == s.orderStatus then StatusLabel(c) else StatusColumn(t[s.orderId], c)
  {
    match StatusLabel(s.orderStatus)
    case None => t
    case Some(text) =>
      if s.orderId in t then t[s.orderId := WithStatus(t[s.orderId], s.orderStatus, text)] else t
  }

  /** Re-applying a status row changes nothing. */
  lemma SetStatusIdempotent(t: Table, s: StatusImage)
    ensures SetStatus(SetStatus(t, s), s) == SetStatus(t, s)
  {
  }

  /** The status rows of one event, applied in order. */
  function SetStatuses(t: Table, images: seq<StatusImage>): (r: Table)
    ensures r.Keys == t.Keys
    ensures forall k | k in t :: SameOrder(r[k], t[k])
    decreases |images|
  {
    if images == [] then t else SetStatuses(SetStatus(t, images[0]), images[1..])
  }

  /** The codes the batch carries for order `id`. */
  function CodesFor(images: seq<StatusImage>, id: int): set<int>
    decreases |images|
  {
    if images == [] then {}
    else (if images[0].orderId == id then {images[0].orderStatus} else {}) + CodesFor(images[1..], id)
  }

  /** Cell by cell, a status batch sets column `c` of row `k` to the label of `c`
      exactly when some row of the batch carries (`k`, `c`); it adds or removes no
      row and never touches a mirrored column. */
  lemma {:induction false} SetStatusesAt(t: Table, images: seq<StatusImage>, k: int, c: int)
    requires 1 <= c <= 5
    ensures var r := SetStatuses(t, images);
      && r.Keys == t.Keys
      && (k in t ==> SameOrder(r[k], t[k]))
      && (k in t ==> StatusColumn(r[k], c) == if c in CodesFor(images, k) then StatusLabel(c) else StatusColumn(t[k], c))
    decreases |images|
  {
    if images != [] {
      SetStatusesAt(SetStatus(t, images[0]), images[1..], k, c);
    }
  }

  /** Re-applying a status batch changes nothing. */
  lemma SetStatusesIdempotent(t: Table, images: seq<StatusImage>)
    ensures SetStatuses(SetStatuses(t, images), images) == SetStatuses(t, images)
  {
    var r1 := SetStatuses(t, images);
    var r2 := SetStatuses(r1, images);
    SetStatusesAt(t, images, 0, 1);
    SetStatusesAt(r1, images, 0, 1);
    forall k | k in r1 ensures r2[k] == r1[k] {
      forall c | 1 <= c <= 5 ensures StatusColumn(r2[k], c) == StatusColumn(r1[k], c) {
        SetStatusesAt(t, images, k, c);
        SetStatusesAt(r1, images, k, c);
      }
      SetStatusesAt(t, images, k, 1);
      SetStatusesAt(r1, images, k, 1);
      RowsEqual(r2[k], r1[k]);
    }
  }

  /** A batch whose codes are all unknown leaves the table unchanged. */
  lemma {:induction false} SetStatusesUnknownCodes(t: Table, images: seq<StatusImage>)
    requires forall i | 0 <= i < |images| :: StatusLabel(images[i].orderStatus).None?
    ensures SetStatuses(t, images) == t
    decreases |images|
  {
    if images != [] {
      assert SetStatus(t, images[0]) == t;
      forall i | 0 <= i < |images[1..]| ensures StatusLabel(images[1..][i].orderStatus).None? {
        assert images[1..][i] == images[i + 1];
      }
      SetStatusesUnknownCodes(t, images[1..]);
    }
  }

  /** The codes an opening stretch of a batch carries are among the codes of the
      whole batch. */
  lemma {:induction false} CodesForPrefix(images: seq<StatusImage>, j: nat, id: int)
    requires j <= |images|
    ensures CodesFor(images[..j], id) <= CodesFor(images, id)
    decreases |images|
  {
    if j == 0 {
      assert images[..j] == [];
    } else {
      assert images[..j][0] == images[0];
      assert images[..j][1..] == images[1..][..j - 1];
      CodesForPrefix(images[1..], j - 1, id);
    }
  }

  /** Each status row is committed on its own, so a crash can leave the first `j`
      rows of a batch applied; delivering the whole batch again then ends as if
      it had run once. */
  lemma SetStatusesPrefix(t: Table, images: seq<StatusImage>, j: nat)
    requires j <= |images|
    ensures SetStatuses(SetStatuses(t, images[..j]), images) == SetStatuses(t, images)
  {
    var r1 := SetStatuses(t, images[..j]);
    var r2 := SetStatuses(r1, images);
    var r := SetStatuses(t, images);
    forall k | k in r ensures r2[k] == r[k] {
      CodesForPrefix(images, j, k);
      forall c | 1 <= c <= 5 ensures StatusColumn(r2[k], c) == StatusColumn(r[k], c) {
        SetStatusesAt(t, images[..j], k, c);
        SetStatusesAt(r1, images, k, c);
        SetStatusesAt(t, images, k, c);
      }
      RowsEqual(r2[k], r[k]);
    }
    assert r2.Keys == r.Keys;
  }
}
