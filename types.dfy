/**
 The values the relay works on: replication events as the stream reader decodes
 them, the rows of the target table `table3`, and stream positions.
 */
module Types {

  datatype Option<+T> = None | Some(value: T)

  /** Why a statement against the target database raised. */
  datatype Error =
    | DuplicateKey(orderId: int)   // a plain INSERT met an existing (or repeated) orderId
    | EmptyStatement               // a statement built from an empty row batch

  datatype Result<+T> = Ok(value: T) | Err(error: Error)

  /** How a handler call ended: it returned, or an exception left it. */
  datatype Completion = Returned | Raised(error: Error)

  /** A row image of `table1`, the orders table mirrored into `table3`. */
  datatype OrderImage = OrderImage(orderId: int, orderItem: string, customerName: string, orderDate: string)

  /** A row image of `table2`, the status transitions of an order. */
  datatype StatusImage = StatusImage(orderId: int, orderStatus: int)

  /** One entry of a rows event: `values` for writes and deletes,
      `before_values` and `after_values` for updates. */
  datatype Entry<T> = Entry(values: T) | UpdateEntry(beforeValues: T, afterValues: T)

  /** The three row-event classes the stream is opened for. */
  datatype Kind = WriteRowsEvent | UpdateRowsEvent | DeleteRowsEvent

  /** The rows of an event, decoded against the schema of the event's table. */
  datatype Rows =
    | OrderRows(orders: seq<Entry<OrderImage>>)
    | StatusRows(statuses: seq<Entry<StatusImage>>)
    | OtherRows(count: nat)   // rows of a table the relay never reads

  datatype Event = Event(table: string, kind: Kind, rows: Rows)

  /** A replication log position: log file name and offset in it. */
  datatype Position = Position(file: string, pos: nat)

  /** A row of `table3`; the key `orderId` is the key of the table map. */
  datatype Row = Row(
    orderItem: string,
    customerName: string,
    orderDate: string,
    orderStatus1: Option<string>,
    orderStatus2: Option<string>,
    orderStatus3: Option<string>,
    orderStatus4: Option<string>,
    orderStatus5: Option<string>)

  type Table = map<int, Row>

  function Get(t: Table, k: int): Option<Row> {
    if k in t then Some(t[k]) else None
  }
}
