/**
 Dispatch of one replication event: `table1` events go to the mirror handlers by
 kind, `table2` write events to the status handler, everything else is skipped.
 */
module Router {
  import opened Types
  import opened Projection

  const TABLE1 := "table1"
  const TABLE2 := "table2"

  /** Every entry has the shape its event kind gives it. */
  predicate Shaped<T>(kind: Kind, entries: seq<Entry<T>>) {
    forall i | 0 <= i < |entries| :: (entries[i].UpdateEntry? <==> kind == UpdateRowsEvent)
  }

  /** What the replication reader guarantees of an event: its rows are decoded
      against its own table's schema, with entries shaped by the event kind. */
  predicate Decoded(e: Event) {
    && (e.table == TABLE1 ==> e.rows.OrderRows? && Shaped(e.kind, e.rows.orders))
    && (e.table == TABLE2 ==> e.rows.StatusRows? && Shaped(e.kind, e.rows.statuses))
  }

  /** The `values` image of each entry, in order. */
  function ValuesOf<T>(entries: seq<Entry<T>>): (r: seq<T>)
    requires forall i | 0 <= i < |entries| :: entries[i].Entry?
    ensures |r| == |entries|
    ensures forall i | 0 <= i < |entries| :: r[i] == entries[i].values
  {
    seq(|entries|, i requires 0 <= i < |entries| => entries[i].values)
  }

  /** The `after_values` image of each entry, in order; the before image is dropped. */
  function AfterValuesOf<T>(entries: seq<Entry<T>>): (r: seq<T>)
    requires forall i | 0 <= i < |entries| :: entries[i].UpdateEntry?
    ensures |r| == |entries|
    ensures forall i | 0 <= i < |entries| :: r[i] == entries[i].afterValues
  {
    seq(|entries|, i requires 0 <= i < |entries| => entries[i].afterValues)
  }

  /** The effect of a `table1` event on `table3`: it raises on an empty batch or on
      a write whose keys clash; deletes only remove rows, writes and updates only
      add or change them. */
  function Table1Effect(t: Table, kind: Kind, entries: seq<Entry<OrderImage>>): (r: Result<Table>)
    requires Shaped(kind, entries)
    ensures r.Err? <==>
      (entries == [] || (kind == WriteRowsEvent && !(AbsentFrom(t, ValuesOf(entries)) && DistinctIds(ValuesOf(entries)))))
    ensures r.Ok? && kind == DeleteRowsEvent ==> r.value.Keys <= t.Keys
    ensures r.Ok? && kind != DeleteRowsEvent ==> t.Keys <= r.value.Keys
  {
    match kind
    case WriteRowsEvent => Insert(t, ValuesOf(entries))
    case UpdateRowsEvent => Upsert(t, AfterValuesOf(entries))
    case DeleteRowsEvent => Delete(t, ValuesOf(entries))
  }

  /** The effect of a `table2` event on `table3`: only writes are acted on. */
  function Table2Effect(t: Table, kind: Kind, entries: seq<Entry<StatusImage>>): (r: Table)
    requires Shaped(kind, entries)
    ensures r.Keys == t.Keys
    ensures forall k | k in t :: SameOrder(r[k], t[k])
    ensures kind != WriteRowsEvent ==> r == t
  {
    if kind == WriteRowsEvent then SetStatuses(t, ValuesOf(entries)) else t
  }

  /** The effect of one event on `table3`. Routing is total: only `table1`
      events can fail, and only `table1` events and `table2` writes can write. */
  function ApplyEvent(t: Table, e: Event): (r: Result<Table>)
    requires Decoded(e)
    ensures r.Err? ==> e.table == TABLE1
    ensures e.table != TABLE1 && (e.table != TABLE2 || e.kind != WriteRowsEvent) ==> r == Ok(t)
    ensures e.table == TABLE2 ==> r.Ok? && r.value.Keys == t.Keys
  {
    if e.table == TABLE1 then Table1Effect(t, e.kind, e.rows.orders)
    else if e.table == TABLE2 then Ok(Table2Effect(t, e.kind, e.rows.statuses))
    else Ok(t)
  }

  predicate IsTable1Write(e: Event) {
    e.table == TABLE1 && e.kind == WriteRowsEvent
  }

  /** An update event reads only the after image of each entry. */
  lemma UpdateIgnoresBeforeValues(t: Table, entries: seq<Entry<OrderImage>>, others: seq<Entry<OrderImage>>)
    requires Shaped(UpdateRowsEvent, entries) && Shaped(UpdateRowsEvent, others)
    requires |entries| == |others|
    requires forall i | 0 <= i < |entries| :: entries[i].afterValues == others[i].afterValues
    ensures Table1Effect(t, UpdateRowsEvent, entries) == Table1Effect(t, UpdateRowsEvent, others)
  {
    assert AfterValuesOf(entries) == AfterValuesOf(others);
  }

  /** Every event but a `table1` write can be delivered twice with the effect of
      one delivery: upserts, deletes by key and absolute status writes are
      idempotent, and skipped events do nothing. */
  lemma EventIdempotent(t: Table, e: Event)
    requires Decoded(e) && !IsTable1Write(e)
    requires ApplyEvent(t, e).Ok?
    ensures ApplyEvent(ApplyEvent(t, e).value, e) == ApplyEvent(t, e)
  {
    if e.table == TABLE1 {
      if e.kind == UpdateRowsEvent {
        UpsertEachIdempotent(t, AfterValuesOf(e.rows.orders));
      } else {
        DeleteIdempotent(t, ValuesOf(e.rows.orders));
      }
    } else if e.table == TABLE2 && e.kind == WriteRowsEvent {
      SetStatusesIdempotent(t, ValuesOf(e.rows.statuses));
    }
  }

  /** A `table1` write that succeeded fails when delivered again: its first row's
      key is now in the table and the INSERT has no conflict clause. */
  lemma WriteRedeliveryFails(t: Table, e: Event)
    requires Decoded(e) && IsTable1Write(e)
    requires ApplyEvent(t, e).Ok?
    ensures ApplyEvent(ApplyEvent(t, e).value, e) == Err(DuplicateKey(e.rows.orders[0].values.orderId))
  {
    var images := ValuesOf(e.rows.orders);
    InsertEachSpec(t, images);
    assert images[0] == e.rows.orders[0].values;
  }
}
