/** `TcpMessageBus`: the two registration tables, the socket's write side
    (the bytes written so far and how many more it accepts) and its read
    side (the bytes not yet read). Its methods register callers, write
    frames and dispatch inbound messages, one atomic step each. */
module Transport {
  import opened Base
  import opened Framing
  import opened Senders
  import opened Routing

  /** The prefix of `bytes` that `write_all` gets onto a socket accepting
      `room` more bytes (`None`: no limit) before an I/O error. */
  function Accepted(bytes: seq<byte>, room: Option<nat>): (r: seq<byte>)
    ensures r <= bytes
    ensures r == bytes <==> Fits(bytes, room)
  {
    if Fits(bytes, room) then bytes else bytes[..room.value]
  }

  /** Whether `write_all` of `bytes` succeeds: always on a socket without a
      limit, never for a non-empty write on a full one, and for every
      prefix of a write that succeeds. */
  predicate Fits(bytes: seq<byte>, room: Option<nat>)
    ensures room.None? ==> Fits(bytes, room)
    ensures room == Some(0) ==> (Fits(bytes, room) <==> bytes == [])
    ensures Fits(bytes, room) ==> forall k :: 0 <= k <= |bytes| ==> Fits(bytes[..k], room)
  {
    room.None? || |bytes| <= room.value
  }

  /** What the socket still accepts after `write_all` of `bytes`. */
  function RoomAfter(bytes: seq<byte>, room: Option<nat>): (r: Option<nat>)
    ensures r.None? <==> room.None?
    ensures r.Some? ==> r.value <= room.value
    ensures room.Some? && Fits(bytes, room) ==> r.value == room.value - |bytes|
  {
    match room
    case None => None
    case Some(n) => if |bytes| <= n then Some(n - |bytes|) else Some(0)
  }

  /** Two `write_all` calls, the second only made when the first succeeded,
      put on the socket what one `write_all` of both would. */
  lemma {:induction false} AcceptedConcat(first: seq<byte>, second: seq<byte>, room: Option<nat>)
    ensures Fits(first + second, room) <==> Fits(first, room) && Fits(second, RoomAfter(first, room))
    ensures Accepted(first + second, room)
         == Accepted(first, room) + (if Fits(first, room) then Accepted(second, RoomAfter(first, room)) else [])
    ensures RoomAfter(first + second, room)
         == (if Fits(first, room) then RoomAfter(second, RoomAfter(first, room)) else Some(0))
  {
    if room.Some? && |first| <= room.value && |first + second| > room.value {
      assert (first + second)[..room.value] == first + second[..room.value - |first|];
    }
  }

  /** The receiving end handed back to the caller: the channel registered
      under `id` in `table` (`ResponsePacketPromise`). */
  datatype Promise = Promise(table: Table, id: i32)

  /** The observable steps of the write side, in the order they happen. */
  datatype Event = Registered(table: Table, id: i32) | Wrote(bytes: seq<byte>)

  class TcpMessageBus {
    const requests: SenderHash<Msg>
    const orders: SenderHash<Msg>
    /** Every byte written to the socket so far. */
    var output: seq<byte>
    /** How many more bytes the socket accepts before an I/O error. */
    var room: Option<nat>
    /** The bytes sent by the gateway and not yet read. */
    var input: seq<byte>
    /** Registrations and writes, in order. */
    ghost var trace: seq<Event>

    ghost predicate Valid()
      reads this
    {
      requests != orders
    }

    /** `connect`: both tables start empty. The socket is given by what it
        will deliver and how much it accepts. */
    constructor (incoming: seq<byte>, room: Option<nat>)
      ensures Valid() && fresh(requests) && fresh(orders)
      ensures requests.data == map[] && orders.data == map[]
      ensures output == [] && this.room == room && input == incoming && trace == []
    {
      requests := new SenderHash();
      orders := new SenderHash();
      output := [];
      this.room := room;
      input := incoming;
      trace := [];
    }

    /** `add_request`: registers a fresh, empty channel for `id`. */
    method AddRequest(id: i32) returns (r: Result<()>)
      requires Valid()
      ensures Valid()
      modifies requests, this`trace
      ensures r == Ok(())
      ensures requests.data == old(requests.data)[id := []]
      ensures trace == old(trace) + [Registered(Requests, id)]
    {
      var _ := requests.Insert(id, []);
      trace := trace + [Registered(Requests, id)];
      r := Ok(());
    }

    /** `add_order`: registers a fresh, empty channel for `id`. */
    method AddOrder(id: i32) returns (r: Result<()>)
      requires Valid()
      ensures Valid()
      modifies orders, this`trace
      ensures r == Ok(())
      ensures orders.data == old(orders.data)[id := []]
      ensures trace == old(trace) + [Registered(Orders, id)]
    {
      var _ := orders.Insert(id, []);
      trace := trace + [Registered(Orders, id)];
      r := Ok(());
    }

    /** `write_all` on the socket. */
    method WriteAll(bytes: seq<byte>) returns (r: Result<()>)
      modifies this`output, this`room
      ensures output == old(output) + Accepted(bytes, old(room))
      ensures room == RoomAfter(bytes, old(room))
      ensures r == if Fits(bytes, old(room)) then Ok(()) else Err(WriteFailed)
    {
      if Fits(bytes, room) {
        output := output + bytes;
        r := Ok(());
      } else {
        output := output + bytes[..room.value];
        r := Err(WriteFailed);
      }
      room := RoomAfter(bytes, room);
    }

    /** `write_message`: writes the length header, then the encoded message;
        a failed header write stops before the message. */
    method WriteMessage(encoded: seq<byte>) returns (r: Result<()>)
      modifies this`output, this`room, this`trace
      ensures output == old(output) + Accepted(EncodeFrame(encoded), old(room))
      ensures room == RoomAfter(EncodeFrame(encoded), old(room))
      ensures trace == old(trace) + [Wrote(Accepted(EncodeFrame(encoded), old(room)))]
      ensures r == if Fits(EncodeFrame(encoded), old(room)) then Ok(()) else Err(WriteFailed)
    {
      var header := U32ToBytes(LengthField(|encoded|));
      AcceptedConcat(header, encoded, room);
      ghost var written := Accepted(EncodeFrame(encoded), room);
      trace := trace + [Wrote(written)];
      r := WriteAll(header);
      if r.Err? {
        return;
      }
      r := WriteAll(encoded);
    }

    /** `write`: raw bytes, without a header (used for the handshake). */
    method Write(data: seq<byte>) returns (r: Result<()>)
      modifies this`output, this`room, this`trace
      ensures output == old(output) + Accepted(data, old(room))
      ensures room == RoomAfter(data, old(room))
      ensures trace == old(trace) + [Wrote(Accepted(data, old(room)))]
      ensures r == if Fits(data, old(room)) then Ok(()) else Err(WriteFailed)
    {
      trace := trace + [Wrote(Accepted(data, room))];
      r := WriteAll(data);
    }

    /** `write_message_for_request`: the id is registered before the frame
        is written, so a response read after the write finds it. The
        registration stays when the write fails. */
    method WriteMessageForRequest(id: i32, encoded: seq<byte>) returns (r: Result<Promise>)
      requires Valid()
      ensures Valid()
      modifies requests, this`output, this`room, this`trace
      ensures requests.data == old(requests.data)[id := []]
      ensures output == old(output) + Accepted(EncodeFrame(encoded), old(room))
      ensures room == RoomAfter(EncodeFrame(encoded), old(room))
      ensures trace == old(trace) + [Registered(Requests, id), Wrote(Accepted(EncodeFrame(encoded), old(room)))]
      ensures r == if Fits(EncodeFrame(encoded), old(room)) then Ok(Promise(Requests, id)) else Err(WriteFailed)
    {
      var added := AddRequest(id);
      var written := WriteMessage(encoded);
      if written.Err? {
        return Err(written.error);
      }
      r := Ok(Promise(Requests, id));
    }

    /** `send_order_message`: the same ordering with the orders table. */
    method SendOrderMessage(id: i32, encoded: seq<byte>) returns (r: Result<Promise>)
      requires Valid()
      ensures Valid()
      modifies orders, this`output, this`room, this`trace
      ensures orders.data == old(orders.data)[id := []]
      ensures output == old(output) + Accepted(EncodeFrame(encoded), old(room))
      ensures room == RoomAfter(EncodeFrame(encoded), old(room))
      ensures trace == old(trace) + [Registered(Orders, id), Wrote(Accepted(EncodeFrame(encoded), old(room)))]
      ensures r == if Fits(EncodeFrame(encoded), old(room)) then Ok(Promise(Orders, id)) else Err(WriteFailed)
    {
      var added := AddOrder(id);
      var written := WriteMessage(encoded);
      if written.Err? {
        return Err(written.error);
      }
      r := Ok(Promise(Orders, id));
    }

    /** `read_exact` of `n` bytes: at the end of the stream it fails having
        consumed everything that was left. */
    method ReadExact(n: nat) returns (r: Result<seq<byte>>)
      modifies this`input
      ensures r == if n <= |old(input)| then Ok(old(input)[..n]) else Err(UnexpectedEof)
      ensures input == if n <= |old(input)| then old(input)[n..] else []
    {
      if n <= |input| {
        r := Ok(input[..n]);
        input := input[n..];
      } else {
        r := Err(UnexpectedEof);
        input := [];
      }
    }

    /** `read_message` / `read_packet`: reads the header, then exactly the
        announced number of bytes; yields the payload of the frame. */
    method ReadMessage() returns (r: Result<seq<byte>>)
      modifies this`input
      ensures r == match DecodeFrame(old(input))
                   case Ok((payload, _)) => Ok(payload)
                   case Err(e) => Err(e)
      ensures input == match DecodeFrame(old(input))
                       case Ok((_, rest)) => rest
                       case Err(_) => []
    {
      var header := ReadExact(HEADER_LEN);
      if header.Err? {
        return Err(header.error);
      }
      var size := BytesToU32(header.value);
      r := ReadExact(size);
    }

    /** `process_response` over the live tables. */
    method DeliverResponse(m: Msg) returns (d: Destination)
      requires Valid()
      ensures Valid()
      modifies requests, orders
      ensures d == ProcessResponse(m, old(requests.data).Keys, old(orders.data).Keys)
      ensures requests.data == Delivered(d, Requests, old(requests.data), m)
      ensures orders.data == Delivered(d, Orders, old(orders.data), m)
    {
      var id := m.requestId.GetOr(UNSPECIFIED_REQUEST_ID);
      var inRequests := requests.Contains(id);
      if inRequests {
        var _ := requests.Send(id, m);
        return Deliver(Requests, id);
      }
      var inOrders := orders.Contains(id);
      if inOrders {
        var _ := orders.Send(id, m);
        return Deliver(Orders, id);
      }
      d := Drop;
    }

    /** `process_order_notifications` over the live tables. */
    method DeliverOrderNotification(m: Msg) returns (d: Destination)
      requires Valid()
      ensures Valid()
      modifies requests, orders
      ensures d == ProcessOrderNotification(m)
      ensures requests.data == Delivered(d, Requests, old(requests.data), m)
      ensures orders.data == Delivered(d, Orders, old(orders.data), m)
    {
      match m.kind
      case OrderStatus | OpenOrder | ExecutionData =>
        if m.orderId.Some? {
          var _ := orders.Send(m.orderId.value, m);
          return Deliver(Orders, m.orderId.value);
        }
        if m.requestId.Some? {
          var _ := requests.Send(m.requestId.value, m);
          return Deliver(Requests, m.requestId.value);
        }
        d := Drop;
      case _ =>
        d := Drop;
    }

    /** `dispatch_message`: one step of the read loop after a message has
        been read. A `Panic` result is the point where the read-loop thread
        would die. */
    method Dispatch(m: Msg, serverVersion: int, advancedOrderReject: int) returns (d: Destination)
      requires Valid()
      ensures Valid()
      modifies requests, orders
      ensures d == Route(m, serverVersion, advancedOrderReject, old(requests.data).Keys, old(orders.data).Keys)
      ensures requests.data == Delivered(d, Requests, old(requests.data), m)
      ensures orders.data == Delivered(d, Orders, old(orders.data), m)
    {
      match m.kind
      case Error =>
        var requestId := ErrorRequestId(m);
        if requestId == UNSPECIFIED_REQUEST_ID {
          var event := ErrorEvent(serverVersion, advancedOrderReject, m.fields);
          d := if event.Ok? then Drop else Panic;
        } else {
          d := DeliverResponse(m);
        }
      case NextValidId | ManagedAccounts =>
        d := Drop;
      case OrderStatus | OpenOrder | OpenOrderEnd | ExecutionData | ExecutionDataEnd | CommissionsReport =>
        d := DeliverOrderNotification(m);
      case _ =>
        d := DeliverResponse(m);
    }
  }

  /** A request written on a fresh connection and a response naming its id
      read back afterwards: the frame on the wire is exactly the encoded
      request, and the caller's channel holds exactly that response. */
  method RequestThenResponse(id: i32, encoded: seq<byte>, response: Msg,
                             serverVersion: int, advancedOrderReject: int)
    returns (wire: seq<byte>, queue: seq<Msg>)
    requires IsPlainResponse(response.kind) && response.requestId == Some(id)
    ensures wire == EncodeFrame(encoded)
    ensures queue == [response]
  {
    var bus := new TcpMessageBus([], None);
    var promise := bus.WriteMessageForRequest(id, encoded);
    var d := bus.Dispatch(response, serverVersion, advancedOrderReject);
    wire := bus.output;
    queue := bus.requests.data[id];
  }
}
