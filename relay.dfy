/**
 The relay loop: for each event of the replication stream, route it, let its
 handler change `table3`, then save the stream position as the checkpoint.
 The stream is given as the sequence of events it yields, each paired with the
 reader's (log file, log position) once that event has been read.
 */
module Relay {
  import opened Types
  import opened Projection
  import opened Router

  // ---------------------------------------------------------------------------
  // Specification of a run

  predicate AllDecoded(stream: seq<(Event, Position)>) {
    forall i | 0 <= i < |stream| :: Decoded(stream[i].0)
  }

  /** No event of the stretch belongs to `table1`. */
  predicate NoTable1(stream: seq<(Event, Position)>) {
    forall i | 0 <= i < |stream| :: stream[i].0.table != TABLE1
  }

  /** The table after applying the events in order; the first failing handler
      stops the run with its error, so a run can only fail on a `table1` event. */
  function Replay(t: Table, stream: seq<(Event, Position)>): (r: Result<Table>)
    requires AllDecoded(stream)
    ensures r.Err? ==> !NoTable1(stream)
    decreases |stream|
  {
    if stream == [] then Ok(t)
    else match ApplyEvent(t, stream[0].0)
      case Err(e) => Err(e)
      case Ok(t') =>
        var r := Replay(t', stream[1..]);
        assert r.Err? ==> !NoTable1(stream) by {
          if r.Err? {
            var i :| 0 <= i < |stream[1..]| && stream[1..][i].0.table == TABLE1;
            assert stream[i + 1] == stream[1..][i];
          }
        }
        r
  }

  /** The stream positions, in order. */
  function Positions(stream: seq<(Event, Position)>): seq<Position> {
    seq(|stream|, i requires 0 <= i < |stream| => stream[i].1)
  }

  /** The checkpoint once the given events have all been handled. */
  function Checkpoint(start: Option<Position>, stream: seq<(Event, Position)>): Option<Position> {
    if stream == [] then start else Some(stream[|stream| - 1].1)
  }

  /** A stretch without `table1` events never fails and never adds or removes a row. */
  lemma {:induction false} ReplayWithoutTable1(t: Table, stream: seq<(Event, Position)>)
    requires AllDecoded(stream) && NoTable1(stream)
    ensures Replay(t, stream).Ok? && Replay(t, stream).value.Keys == t.Keys
    decreases |stream|
  {
    if stream != [] {
      assert stream[0].0.table != TABLE1;
      var u := ApplyEvent(t, stream[0].0).value;
      assert NoTable1(stream[1..]) by {
        forall i | 0 <= i < |stream[1..]| ensures stream[1..][i].0.table != TABLE1 {
          assert stream[1..][i] == stream[i + 1];
        }
      }
      ReplayWithoutTable1(u, stream[1..]);
    }
  }

  /** Replaying a concatenation is replaying its halves one after the other. */
  lemma {:induction false} ReplayAppend(t: Table, a: seq<(Event, Position)>, b: seq<(Event, Position)>)
    requires AllDecoded(a) && AllDecoded(b)
    ensures AllDecoded(a + b)
    ensures Replay(t, a + b) == match Replay(t, a) case Err(e) => Err(e) case Ok(u) => Replay(u, b)
    decreases |a|
  {
    if a == [] {
      assert a + b == b;
    } else {
      assert (a + b)[0] == a[0];
      assert (a + b)[1..] == a[1..] + b;
      match ApplyEvent(t, a[0].0)
      case Err(e) =>
      case Ok(t') => ReplayAppend(t', a[1..], b);
    }
  }

  /** Crash between applying event `k` and saving its position: the restarted
      relay resumes from the checkpoint of event `k - 1`, so event `k` is
      delivered again. Unless it is a `table1` write, the resumed run ends where
      an uninterrupted run would. */
  lemma CrashResumeConverges(t: Table, stream: seq<(Event, Position)>, k: nat, tk: Table)
    requires AllDecoded(stream) && k < |stream|
    requires Replay(t, stream[..k]) == Ok(tk)
    requires !IsTable1Write(stream[k].0)
    requires ApplyEvent(tk, stream[k].0).Ok?
    ensures Replay(ApplyEvent(tk, stream[k].0).value, stream[k..]) == Replay(t, stream)
  {
    var u := ApplyEvent(tk, stream[k].0).value;
    assert stream == stream[..k] + stream[k..];
    ReplayAppend(t, stream[..k], stream[k..]);
    EventIdempotent(tk, stream[k].0);
    assert stream[k..][0] == stream[k];
  }

  /** The same crash after a `table1` write wedges the relay: the first event of
      the resumed run is the redelivered write, which raises a duplicate key on its
      first row, so the run stops there and that event is never checkpointed. */
  lemma CrashAfterWriteWedges(t: Table, stream: seq<(Event, Position)>, k: nat, tk: Table)
    requires AllDecoded(stream) && k < |stream|
    requires Replay(t, stream[..k]) == Ok(tk)
    requires IsTable1Write(stream[k].0)
    requires ApplyEvent(tk, stream[k].0).Ok?
    ensures ApplyEvent(ApplyEvent(tk, stream[k].0).value, stream[k].0) == Err(DuplicateKey(stream[k].0.rows.orders[0].values.orderId))
    ensures Replay(ApplyEvent(tk, stream[k].0).value, stream[k..]) == Err(DuplicateKey(stream[k].0.rows.orders[0].values.orderId))
  {
    WriteRedeliveryFails(tk, stream[k].0);
    assert stream[k..][0] == stream[k];
  }

  /** A crash inside a `table2` write event, after its first `j` status rows were
      committed one by one: the restarted relay delivers the whole event again,
      and the resumed run ends where an uninterrupted run would. */
  lemma CrashInStatusBatchConverges(t: Table, stream: seq<(Event, Position)>, k: nat, tk: Table, j: nat)
    requires AllDecoded(stream) && k < |stream|
    requires Replay(t, stream[..k]) == Ok(tk)
    requires stream[k].0.table == TABLE2 && stream[k].0.kind == WriteRowsEvent
    requires j <= |stream[k].0.rows.statuses|
    ensures Replay(SetStatuses(tk, ValuesOf(stream[k].0.rows.statuses)[..j]), stream[k..]) == Replay(t, stream)
  {
    var images := ValuesOf(stream[k].0.rows.statuses);
    assert stream == stream[..k] + stream[k..];
    ReplayAppend(t, stream[..k], stream[k..]);
    SetStatusesPrefix(tk, images, j);
    assert stream[k..][0] == stream[k];
  }

  /** One more event of the stream: it either stops the whole run with its error
      or extends the replayed prefix and the saved positions by one. */
  lemma ReplayStep(t: Table, stream: seq<(Event, Position)>, i: nat, u: Table)
    requires AllDecoded(stream) && i < |stream|
    requires Replay(t, stream[..i]) == Ok(u)
    ensures ApplyEvent(u, stream[i].0).Err? ==> Replay(t, stream) == ApplyEvent(u, stream[i].0)
    ensures ApplyEvent(u, stream[i].0).Ok? ==> Replay(t, stream[..i + 1]) == ApplyEvent(u, stream[i].0)
    ensures Positions(stream[..i + 1]) == Positions(stream[..i]) + [stream[i].1]
  {
    assert stream[..i + 1] == stream[..i] + [stream[i]];
    assert stream == stream[..i] + stream[i..];
    assert stream[i..][0] == stream[i];
    ReplayAppend(t, stream[..i], stream[i..]);
    ReplayAppend(t, stream[..i], [stream[i]]);
  }

  // ---------------------------------------------------------------------------
  // The checkpoint store

  /** The position file: `saved` is its content, None while it does not exist.
      `history` records every save, in order. */
  class PositionManager {
    var saved: Option<Position>
    ghost var history: seq<Position>

    constructor (stored: Option<Position>)
      ensures saved == stored && history == []
    {
      saved := stored;
      history := [];
    }

    method LoadLastPosition() returns (p: Option<Position>)
      ensures p == saved
    {
      p := saved;
    }

    method SaveLastPosition(p: Position)
      modifies this
      ensures saved == Some(p)
      ensures history == old(history) + [p]
    {
      saved := Some(p);
      history := history + [p];
    }
  }

  /** On a fresh store, load finds nothing; after a save, load finds what was saved. */
  method CheckpointRoundTrip(p: Position, q: Position) returns (first: Option<Position>, second: Option<Position>, third: Option<Position>)
    ensures first == None && second == Some(p) && third == Some(q)
  {
    var store := new PositionManager(None);
    first := store.LoadLastPosition();
    store.SaveLastPosition(p);
    second := store.LoadLastPosition();
    store.SaveLastPosition(q);
    third := store.LoadLastPosition();
  }

  // ---------------------------------------------------------------------------
  // The processor

  /** How `ProcessEvents` ended: the stream ran out, or the handler of event
      `index` raised `error`. */
  datatype Outcome = Drained | Stopped(index: nat, error: Error)

  /** Ties a handler's new table and completion to the effect its statement has. */
  predicate Completed(before: Table, effect: Result<Table>, after: Table, c: Completion) {
    match effect
    case Ok(t) => after == t && c == Returned
    case Err(e) => after == before && c == Raised(e)
  }

  class BinlogProcessor {
    var table3: Table
    const positionManager: PositionManager

    constructor (initial: Table, store: PositionManager)
      ensures table3 == initial && positionManager == store
    {
      table3 := initial;
      positionManager := store;
    }

    method HandleWriteRowsEvent(entries: seq<Entry<OrderImage>>) returns (c: Completion)
      requires Shaped(WriteRowsEvent, entries)
      modifies this
      ensures Completed(old(table3), Insert(old(table3), ValuesOf(entries)), table3, c)
    {
      match Insert(table3, ValuesOf(entries))
      case Ok(t) => table3 := t; c := Returned;
      case Err(e) => c := Raised(e);
    }

    method HandleUpdateRowsEvent(entries: seq<Entry<OrderImage>>) returns (c: Completion)
      requires Shaped(UpdateRowsEvent, entries)
      modifies this
      ensures Completed(old(table3), Upsert(old(table3), AfterValuesOf(entries)), table3, c)
    {
      match Upsert(table3, AfterValuesOf(entries))
      case Ok(t) => table3 := t; c := Returned;
      case Err(e) => c := Raised(e);
    }

    method HandleDeleteRowsEvent(entries: seq<Entry<OrderImage>>) returns (c: Completion)
      requires Shaped(DeleteRowsEvent, entries)
      modifies this
      ensures Completed(old(table3), Delete(old(table3), ValuesOf(entries)), table3, c)
    {
      match Delete(table3, ValuesOf(entries))
      case Ok(t) => table3 := t; c := Returned;
      case Err(e) => c := Raised(e);
    }

    method HandleTable1Event(kind: Kind, entries: seq<Entry<OrderImage>>) returns (c: Completion)
      requires Shaped(kind, entries)
      modifies this
      ensures Completed(old(table3), Table1Effect(old(table3), kind, entries), table3, c)
    {
      match kind
      case WriteRowsEvent => c := HandleWriteRowsEvent(entries);
      case UpdateRowsEvent => c := HandleUpdateRowsEvent(entries);
      case DeleteRowsEvent => c := HandleDeleteRowsEvent(entries);
    }

    /** One status statement per row, in the order of the batch. */
    method UpdateOrderStatus(row: StatusImage)
      modifies this
      ensures table3 == SetStatus(old(table3), row)
    {
      var orderStatus := StatusLabel(row.orderStatus);
      if orderStatus.Some? {
        if row.orderId in table3 {
          table3 := table3[row.orderId := WithStatus(table3[row.orderId], row.orderStatus, orderStatus.value)];
        }
      }
    }

    method HandleTable2WriteRowsEvent(entries: seq<Entry<StatusImage>>)
      requires Shaped(WriteRowsEvent, entries)
      modifies this
      ensures table3 == SetStatuses(old(table3), ValuesOf(entries))
    {
      var images := ValuesOf(entries);
      var i := 0;
      while i < |images|
        invariant 0 <= i <= |images|
        invariant SetStatuses(table3, images[i..]) == SetStatuses(old(table3), images)
      {
        assert images[i..][1..] == images[i + 1..];
        UpdateOrderStatus(images[i]);
        i := i + 1;
      }
    }

    method HandleTable2Event(kind: Kind, entries: seq<Entry<StatusImage>>)
      requires Shaped(kind, entries)
      modifies this
      ensures table3 == Table2Effect(old(table3), kind, entries)
    {
      if kind == WriteRowsEvent {
        HandleTable2WriteRowsEvent(entries);
      }
    }

    /** Routes one event by table name to its handler; an event of any other
        table is logged and skipped. */
    method HandleEvent(e: Event) returns (c: Completion)
      requires Decoded(e)
      modifies this
      ensures Completed(old(table3), ApplyEvent(old(table3), e), table3, c)
    {
      if e.table == TABLE1 {
        c := HandleTable1Event(e.kind, e.rows.orders);
      } else if e.table == TABLE2 {
        HandleTable2Event(e.kind, e.rows.statuses);
        c := Returned;
      } else {
        c := Returned;
      }
    }

    /** Handles the events in order and saves each one's position right after its
        handler returns, skipped events included. A handler that raises ends the
        run before that event's position is saved. */
    method ProcessEvents(stream: seq<(Event, Position)>) returns (outcome: Outcome)
      requires AllDecoded(stream)
      modifies this, positionManager
      ensures outcome.Drained? ==>
        && Replay(old(table3), stream) == Ok(table3)
        && positionManager.saved == Checkpoint(old(positionManager.saved), stream)
        && positionManager.history == old(positionManager.history) + Positions(stream)
      ensures outcome.Stopped? ==>
        && outcome.index < |stream|
        && Replay(old(table3), stream[..outcome.index]) == Ok(table3)
        && ApplyEvent(table3, stream[outcome.index].0) == Err(outcome.error)
        && Replay(old(table3), stream) == Err(outcome.error)
        && positionManager.saved == Checkpoint(old(positionManager.saved), stream[..outcome.index])
        && positionManager.history == old(positionManager.history) + Positions(stream[..outcome.index])
    {
      var i := 0;
      while i < |stream|
        invariant 0 <= i <= |stream|
        invariant Replay(old(table3), stream[..i]) == Ok(table3)
        invariant positionManager.saved == Checkpoint(old(positionManager.saved), stream[..i])
        invariant positionManager.history == old(positionManager.history) + Positions(stream[..i])
      {
        var (e, p) := stream[i];
        ghost var before := table3;
        var c := HandleEvent(e);
        ReplayStep(old(table3), stream, i, before);
        if c.Raised? {
          return Stopped(i, c.error);
        }
        positionManager.SaveLastPosition(p);
        i := i + 1;
      }
      assert stream[..i] == stream;
      outcome := Drained;
    }
  }
}
