/** The routing decision of `dispatch_message`, `process_response` and
    `process_order_notifications`: which table (requests or orders) and
    which id an inbound message is sent to, or whether it is only logged.
    The decoding of `ResponseMessage` lives outside this model, so a
    message carries its kind, its fields and the results of its
    `request_id()` and `order_id()` accessors as given values. */
module Routing {
  import opened Base
  import opened Senders

  /** The `IncomingMessages` variants the dispatcher tells apart; `Other`
      stands for every remaining variant, by its message code. */
  datatype Kind =
    | Error
    | NextValidId
    | ManagedAccounts
    | OrderStatus
    | OpenOrder
    | OpenOrderEnd
    | ExecutionData
    | ExecutionDataEnd
    | CommissionsReport
    | Other(code: int)

  /** One field of a message: its text, and its value when the text parses
      as an `i32` (the parser is not part of this model). */
  datatype Field = Field(text: string, number: Option<i32>)

  /** A decoded `ResponseMessage`. Field 0 is the message code. */
  datatype Msg = Msg(kind: Kind, fields: seq<Field>, requestId: Option<i32>, orderId: Option<i32>)

  /** The request id an error message carries when it concerns no request. */
  const UNSPECIFIED_REQUEST_ID: i32 := -1

  /** `next_int` / `peek_int` at position `i`. */
  function IntAt(fields: seq<Field>, i: nat): (r: Result<i32>)
    ensures r.Ok? <==> i < |fields| && fields[i].number.Some?
    ensures r.Ok? ==> r.value == fields[i].number.value
    ensures r.Err? && i < |fields| ==> r.error == NotAnInteger
  {
    if i >= |fields| then Err(MissingField)
    else match fields[i].number
      case Some(v) => Ok(v)
      case None => Err(NotAnInteger)
  }

  /** `next_string` at position `i`. */
  function StringAt(fields: seq<Field>, i: nat): (r: Result<string>)
    ensures r.Ok? <==> i < |fields|
    ensures r.Ok? ==> r.value == fields[i].text
  {
    if i >= |fields| then Err(MissingField) else Ok(fields[i].text)
  }

  /** What `error_event` reads out of an error message before logging it. */
  datatype ErrorReport =
    | LegacyError(message: string)
    | ErrorReport(requestId: i32, code: i32, message: string, advancedOrderRejectJson: string)

  /** How many fields `error_event` reads (the skipped message code
      included) for a message of the given version. */
  function ErrorEventFieldCount(version: int, serverVersion: int, advancedOrderReject: int): nat {
    if version < 2 then 3
    else if serverVersion >= advancedOrderReject then 6
    else 5
  }

  /** `error_event`: skips the message code, reads the version, then either
      the message text (version < 2) or request id, error code, text and,
      from the `ADVANCED_ORDER_REJECT` server version on, the reject JSON.
      It succeeds exactly when every field it reads is present and every
      integer field parses. */
  function ErrorEvent(serverVersion: int, advancedOrderReject: int, fields: seq<Field>): (r: Result<ErrorReport>)
    ensures r.Ok? <==>
      && IntAt(fields, 1).Ok?
      && |fields| >= ErrorEventFieldCount(IntAt(fields, 1).value as int, serverVersion, advancedOrderReject)
      && (IntAt(fields, 1).value >= 2 ==> IntAt(fields, 2).Ok? && IntAt(fields, 3).Ok?)
    ensures r.Ok? && r.value.ErrorReport? ==> IntAt(fields, 2) == Ok(r.value.requestId)
  {
    var version :- IntAt(fields, 1);
    if version < 2 then
      var message :- StringAt(fields, 2);
      Ok(LegacyError(message))
    else
      var requestId :- IntAt(fields, 2);
      var code :- IntAt(fields, 3);
      var message :- StringAt(fields, 4);
      if serverVersion >= advancedOrderReject then
        var json :- StringAt(fields, 5);
        Ok(ErrorReport(requestId, code, message, json))
      else
        Ok(ErrorReport(requestId, code, message, ""))
  }

  /** The two registration tables. */
  datatype Table = Requests | Orders

  /** What dispatching one message does: a `send` to one id of one table,
      nothing but logging, or a panic of the read-loop thread (the
      `.unwrap()` on a failed `error_event`). */
  datatype Destination = Deliver(table: Table, id: i32) | Drop | Panic

  /** `process_response`: the request id, defaulting to -1, goes to the
      requests table if registered there, else to the orders table if
      registered there, else nowhere. */
  function ProcessResponse(m: Msg, requests: set<i32>, orders: set<i32>): (r: Destination)
    ensures r != Panic
    ensures r.Deliver? ==> r.id == m.requestId.GetOr(UNSPECIFIED_REQUEST_ID)
    ensures r.Deliver? ==> r.id in (if r.table == Requests then requests else orders)
    ensures r.Deliver? && r.table == Orders ==> r.id !in requests
    ensures r == Drop <==> m.requestId.GetOr(UNSPECIFIED_REQUEST_ID) !in requests + orders
  {
    var id := m.requestId.GetOr(UNSPECIFIED_REQUEST_ID);
    if id in requests then Deliver(Requests, id)
    else if id in orders then Deliver(Orders, id)
    else Drop
  }

  /** `process_order_notifications`: order status, open order and execution
      data go to the order id, else to the request id, whether or not that
      id is registered; everything else is dropped. */
  function ProcessOrderNotification(m: Msg): (r: Destination)
    ensures r != Panic
    ensures r.Deliver? ==> m.kind.OrderStatus? || m.kind.OpenOrder? || m.kind.ExecutionData?
    ensures r.Deliver? ==> if r.table == Orders then m.orderId == Some(r.id)
                           else m.orderId.None? && m.requestId == Some(r.id)
  {
    match m.kind
    case OrderStatus | OpenOrder | ExecutionData =>
      if m.orderId.Some? then Deliver(Orders, m.orderId.value)
      else if m.requestId.Some? then Deliver(Requests, m.requestId.value)
      else Drop
    case _ => Drop
  }

  /** Kinds that `dispatch_message` hands to `process_order_notifications`. */
  predicate IsOrderNotification(k: Kind) {
    k.OrderStatus? || k.OpenOrder? || k.OpenOrderEnd? || k.ExecutionData?
    || k.ExecutionDataEnd? || k.CommissionsReport?
  }

  /** Kinds that `dispatch_message` hands straight to `process_response`. */
  predicate IsPlainResponse(k: Kind) {
    !k.Error? && !k.NextValidId? && !k.ManagedAccounts? && !IsOrderNotification(k)
  }

  /** `peek_int(2).unwrap_or(-1)` of an error message. */
  function ErrorRequestId(m: Msg): (r: i32)
    ensures IntAt(m.fields, 2).Ok? ==> r == IntAt(m.fields, 2).value
    ensures IntAt(m.fields, 2).Err? ==> r == UNSPECIFIED_REQUEST_ID
  {
    match IntAt(m.fields, 2)
    case Ok(v) => v
    case Err(_) => UNSPECIFIED_REQUEST_ID
  }

  /** `dispatch_message`, given the ids registered in the two tables. */
  function Route(m: Msg, serverVersion: int, advancedOrderReject: int,
                 requests: set<i32>, orders: set<i32>): (r: Destination)
    ensures r == Panic ==> m.kind == Error
    ensures m.kind == NextValidId || m.kind == ManagedAccounts ==> r == Drop
    ensures r.Deliver? && !(m.kind.OrderStatus? || m.kind.OpenOrder? || m.kind.ExecutionData?)
      ==> r.id in (if r.table == Requests then requests else orders)
  {
    match m.kind
    case Error =>
      if ErrorRequestId(m) == UNSPECIFIED_REQUEST_ID then
        if ErrorEvent(serverVersion, advancedOrderReject, m.fields).Ok? then Drop else Panic
      else ProcessResponse(m, requests, orders)
    case NextValidId | ManagedAccounts => Drop
    case OrderStatus | OpenOrder | OpenOrderEnd | ExecutionData | ExecutionDataEnd | CommissionsReport =>
      ProcessOrderNotification(m)
    case _ => ProcessResponse(m, requests, orders)
  }

  /** A table after a message with destination `d` has been dispatched:
      only a delivery to this table changes it. */
  function Delivered(d: Destination, t: Table, table: map<i32, seq<Msg>>, m: Msg): (r: map<i32, seq<Msg>>)
    ensures r.Keys == table.Keys
    ensures r != table ==> d.Deliver? && d.table == t && d.id in table && r == table[d.id := table[d.id] + [m]]
    ensures d.Deliver? && d.table == t && d.id in table ==> r == table[d.id := table[d.id] + [m]]
  {
    if d.Deliver? && d.table == t then Enqueue(table, d.id, m) else table
  }

  /** An error message whose field 2 is missing, is not a number, or is -1
      is never delivered to either table; any other error message is routed
      as a response. */
  lemma UnspecifiedErrorNeverDelivered(m: Msg, serverVersion: int, advancedOrderReject: int,
                                       requests: set<i32>, orders: set<i32>)
    requires m.kind == Error
    ensures IntAt(m.fields, 2).Err? || IntAt(m.fields, 2).value == UNSPECIFIED_REQUEST_ID
      ==> !Route(m, serverVersion, advancedOrderReject, requests, orders).Deliver?
    ensures IntAt(m.fields, 2).Ok? && IntAt(m.fields, 2).value != UNSPECIFIED_REQUEST_ID
      ==> Route(m, serverVersion, advancedOrderReject, requests, orders) == ProcessResponse(m, requests, orders)
  {
  }

  /** An error message of version 2 or later without a numeric request id
      in field 2 makes `error_event` fail, and the `.unwrap()` in
      `dispatch_message` panics; with missing fields read as errors (see
      `IntAt`), this is the only way dispatching panics. */
  lemma PanicExactlyOnMalformedError(m: Msg, serverVersion: int, advancedOrderReject: int,
                                     requests: set<i32>, orders: set<i32>)
    ensures Route(m, serverVersion, advancedOrderReject, requests, orders) == Panic
      <==> m.kind == Error && ErrorRequestId(m) == UNSPECIFIED_REQUEST_ID
           && ErrorEvent(serverVersion, advancedOrderReject, m.fields).Err?
    ensures m.kind == Error && IntAt(m.fields, 1).Ok? && IntAt(m.fields, 1).value >= 2
            && IntAt(m.fields, 2).Err?
      ==> Route(m, serverVersion, advancedOrderReject, requests, orders) == Panic
  {
  }

  /** `NextValidId` and `ManagedAccounts` are only logged. */
  lemma AccountNoticesNeverDelivered(m: Msg, serverVersion: int, advancedOrderReject: int,
                                     requests: set<i32>, orders: set<i32>)
    requires m.kind == NextValidId || m.kind == ManagedAccounts
    ensures Route(m, serverVersion, advancedOrderReject, requests, orders) == Drop
  {
  }

  /** `process_response` priority, for every message it receives: the
      requests table wins, then the orders table, and an id registered in
      neither receives nothing. A missing request id is looked up as -1. */
  lemma ResponsePriority(m: Msg, serverVersion: int, advancedOrderReject: int,
                         requests: set<i32>, orders: set<i32>)
    requires IsPlainResponse(m.kind)
          || (m.kind == Error && ErrorRequestId(m) != UNSPECIFIED_REQUEST_ID)
    ensures var id := m.requestId.GetOr(UNSPECIFIED_REQUEST_ID);
      var d := Route(m, serverVersion, advancedOrderReject, requests, orders);
      && (id in requests ==> d == Deliver(Requests, id))
      && (id !in requests && id in orders ==> d == Deliver(Orders, id))
      && (id !in requests && id !in orders ==> d == Drop)
  {
  }

  /** Order status, open order and execution data go to the order id when
      present, else to the request id, else nowhere; the three end-of-list
      and commission kinds are dropped. */
  lemma OrderNotificationRouting(m: Msg, serverVersion: int, advancedOrderReject: int,
                                 requests: set<i32>, orders: set<i32>)
    requires IsOrderNotification(m.kind)
    ensures var d := Route(m, serverVersion, advancedOrderReject, requests, orders);
      if m.kind.OrderStatus? || m.kind.OpenOrder? || m.kind.ExecutionData? then
        && (m.orderId.Some? ==> d == Deliver(Orders, m.orderId.value))
        && (m.orderId.None? && m.requestId.Some? ==> d == Deliver(Requests, m.requestId.value))
        && (m.orderId.None? && m.requestId.None? ==> d == Drop)
      else d == Drop
  {
  }

  /** Once an id is registered in the requests table, every response that
      names it is delivered there, whatever the orders table holds. */
  lemma RegisteredRequestReceivesResponse(m: Msg, id: i32, serverVersion: int, advancedOrderReject: int,
                                          requests: set<i32>, orders: set<i32>)
    requires IsPlainResponse(m.kind) && m.requestId == Some(id) && id in requests
    ensures Route(m, serverVersion, advancedOrderReject, requests, orders) == Deliver(Requests, id)
  {
  }

  /** Dispatching one message delivers it at most once: either both tables
      are unchanged, or exactly one queue of exactly one registered id has
      the message appended, everything else untouched. A destination naming
      an id registered in its table delivers exactly once. */
  lemma {:induction false} AtMostOneDelivery(d: Destination, m: Msg,
                                             requests: map<i32, seq<Msg>>, orders: map<i32, seq<Msg>>)
    ensures var r, o := Delivered(d, Requests, requests, m), Delivered(d, Orders, orders, m);
      || (r == requests && o == orders)
      || (exists id :: id in requests && r == requests[id := requests[id] + [m]] && o == orders)
      || (exists id :: id in orders && r == requests && o == orders[id := orders[id] + [m]])
    ensures d.Deliver? && d.table == Requests && d.id in requests ==>
      (Delivered(d, Requests, requests, m) == requests[d.id := requests[d.id] + [m]]
       && Delivered(d, Orders, orders, m) == orders)
    ensures d.Deliver? && d.table == Orders && d.id in orders ==>
      (Delivered(d, Requests, requests, m) == requests
       && Delivered(d, Orders, orders, m) == orders[d.id := orders[d.id] + [m]])
  {
    if d.Deliver? && d.id in (if d.table == Requests then requests else orders) {
      var id := d.id;
      if d.table == Requests {
        assert requests[id := requests[id] + [m]] == Delivered(d, Requests, requests, m);
      } else {
        assert orders[id := orders[id] + [m]] == Delivered(d, Orders, orders, m);
      }
    }
  }
}
