# Transport core of rust-ibapi, modelled in Dafny

This project models the framing and inbound routing of the client's
`TcpMessageBus` (`src/client/transport.rs`), the part of the library that
talks to the gateway over one TCP connection.

- **Frames** (`framing.dfy`, module `Framing`). `write_message` sends a
  four-byte big-endian length, then the encoded message. `read_header` and
  `read_packet` read the length back, then exactly that many bytes. The
  codec is modelled by pure functions over `seq<byte>`. The `as u32` cast
  of the length is written out: the header carries the length modulo 2^32.
  Proved: round trip for payloads under 2^32 bytes, in both directions of
  the header encoding; failure on every proper prefix of a frame; frames
  written back to back are read back in order; and an oversize payload is
  misread.
- **Registration tables** (`senders.dfy`, module `Senders`). `SenderHash`
  maps `i32` ids to delivery channels. It is a class over
  `map<i32, seq<T>>`, each channel being the queue of messages sent into
  it. `insert`, `remove`, `contains` and `send` are methods whose contracts
  give the new table, the returned previous sender, and that no other id
  changes. Messages sent to one id are queued first in, first out.
- **Routing** (`routing.dfy`, module `Routing`). `dispatch_message`,
  `process_response` and `process_order_notifications` are modelled by
  the pure `Route`, which calls `ProcessResponse` and
  `ProcessOrderNotification`. It decides which table and which id receive an
  inbound message, or that the message is only logged. The lemmas state
  the priority rules:
  - requests before orders;
  - error messages without a request id are never delivered;
  - account notices are only logged;
  - order notifications go to the order id, else to the request id.
  `error_event` is a pure field reader. Its failure is a routing outcome of
  its own (`Panic`), because `dispatch_message` calls `.unwrap()` on it.
  The model proves that this happens exactly when an error message without
  a request id in field 2 cannot be read by `error_event`. One such message
  is an error of version 2 or later whose field 2 is missing.
- **The bus** (`transport.dfy`, module `Transport`). `TcpMessageBus` holds
  the two tables, the bytes written to the socket, how many more bytes the
  socket accepts, and the bytes the gateway sent that have not been read
  yet. A ghost trace records registrations and writes in order.
  `write_message_for_request` and `send_order_message` are proved to
  register the id before the frame is written. The registration is kept
  even when the write fails. `Dispatch` applies `Route` to the live tables.

A received `ResponseMessage` is decoded by code this model does not
contain. A message (`Routing.Msg`) therefore carries as given values:

- its kind: the `IncomingMessages` variants the dispatcher distinguishes,
  plus `Other`;
- its fields, each a text plus its integer value when the text parses;
- the results of its `request_id()` and `order_id()` accessors.

The server version and the `ADVANCED_ORDER_REJECT` threshold
(`server_versions`) are parameters.

Behaviour of the code that the model keeps:

- Nothing in `transport.rs` retires a registration after a response;
  `remove` is never called there. Channels stay registered.
- An error message is classified by `peek_int(2)` but routed by
  `request_id()`; both accessors are kept apart in the model.
- A message with no request id is looked up under -1. It reaches a caller
  that registered -1.
- Order notifications are sent to the order id whether or not it is
  registered; the table drops them when it is not.

## Model

| member | source | states |
|---|---|---|
| `Framing.ToBigEndian` | src/client/transport.rs:112 | big-endian encoding into k bytes yields exactly k bytes |
| `Framing.FromBigEndian` | src/client/transport.rs:203 | the value of k big-endian bytes is below 256^k |
| `Framing.BigEndianRoundTrip` | src/client/transport.rs:112 | reading back k big-endian bytes gives every value below 256^k |
| `Framing.BigEndianBytesRoundTrip` | src/client/transport.rs:203 | every byte sequence is the big-endian encoding of the value it reads as |
| `Framing.U32ToBytes` | src/client/transport.rs:112 | the big-endian header of a `u32` is four bytes |
| `Framing.BytesToU32` | src/client/transport.rs:203 | a four-byte header reads as a value below 2^32 |
| `Framing.U32RoundTrip` | src/client/transport.rs:203 | reading back a written `u32` header gives the value written |
| `Framing.BytesRoundTrip` | src/client/transport.rs:198-206 | every four-byte header is the encoding of the length it reads as (the header encoding is a bijection) |
| `Framing.LengthField` | src/client/transport.rs:112 | `data.len() as u32` is below 2^32 and equals the length when the length fits; `OversizeFrameMisread` states what a wrapped length does to the reader |
| `Framing.EncodeFrame` | src/client/transport.rs:106-116 | a frame is four header bytes followed by exactly the message bytes |
| `Framing.DecodeHeader` | src/client/transport.rs:198-206 | `read_header` succeeds exactly when four bytes are available, fails only with end of stream, and consumes exactly the header of the value it returns |
| `Framing.DecodeFrame` | src/client/transport.rs:185-190 | a successful `read_packet` has consumed exactly one frame written for the returned payload; failures are end of stream |
| `Framing.FrameDecodesTruncatedLength` | src/client/transport.rs:110-115 | for any payload, the reader gets the first `len as u32` bytes and the rest stays in the stream |
| `Framing.FrameRoundTrip` | src/client/transport.rs:185-206 | a payload shorter than 2^32 bytes written by `write_message` is read back exactly, leaving what follows unread |
| `Framing.OversizeFrameMisread` | src/client/transport.rs:112 | a payload of 2^32 bytes or more is read back shorter than written |
| `Framing.TruncatedFrameFails` | src/client/transport.rs:185-206 | every proper prefix of a frame fails with end of stream instead of yielding partial data |
| `Framing.EncodeFrames` | src/client/transport.rs:106-120 | the bytes of frames written one after another; `StreamRoundTrip` states that they are read back in order, each once |
| `Framing.ReadFrames` | src/client/transport.rs:134-149 | the packets read successively, followed by the bytes the first failing read started on, make up the stream; with no UTF-8 check, that read fails only because the stream ends inside a frame |
| `Framing.StreamRoundTrip` | src/client/transport.rs:134-149 | frames written back to back are read in the order written, each once, and a trailing partial frame is left over without losing the frames before it |
| `Framing.FrameBeforePartialKept` | src/client/transport.rs:134-143 | a complete frame followed by a stray byte is read (and so dispatched) before the read of the stray byte fails |
| `Senders.Enqueue` | src/client/transport.rs:307-318 | `send` appends to a registered id's queue only, and leaves the table unchanged for an unknown id |
| `Senders.EnqueueAll` | src/client/transport.rs:307-318 | successive `send` calls to one id register no id and unregister none; `EnqueueAllInOrder` and `EnqueueAllUnregistered` state the resulting queues |
| `Senders.EnqueueAllInOrder` | src/client/transport.rs:307-318 | messages sent to one registered id are queued in sending order; no other id changes |
| `Senders.EnqueueAllUnregistered` | src/client/transport.rs:307-318 | messages sent to an unregistered id are all dropped |
| `Senders.SenderHash.constructor` | src/client/transport.rs:301-305 | a new table has no registered id |
| `Senders.SenderHash.Send` | src/client/transport.rs:307-318 | the message is appended to that id's queue when registered, dropped otherwise, and the result is `Ok` either way |
| `Senders.SenderHash.Insert` | src/client/transport.rs:320-323 | afterwards the id holds the new sender; the previous sender is returned; other ids unchanged |
| `Senders.SenderHash.Remove` | src/client/transport.rs:325-328 | afterwards the id is unregistered; the previous sender is returned; other ids unchanged |
| `Senders.SenderHash.Contains` | src/client/transport.rs:330-333 | true exactly when the id is registered |
| `Routing.IntAt` | src/client/transport.rs:211-220 | reading an integer field succeeds exactly when the field exists and parses, yielding its value |
| `Routing.StringAt` | src/client/transport.rs:214-230 | reading a text field succeeds exactly when the field exists |
| `Routing.ErrorEvent` | src/client/transport.rs:208-242 | `error_event` succeeds exactly when the 3, 5 or 6 fields it reads (by version and server version) are present and its integer fields parse; the request id it reports is field 2 |
| `Routing.ErrorRequestId` | src/client/transport.rs:165 | `peek_int(2).unwrap_or(-1)`: a numeric field 2 gives its own value, and a missing or non-numeric field 2 gives -1; `UnspecifiedErrorNeverDelivered` states the routing that follows |
| `Routing.ProcessResponse` | src/client/transport.rs:260-267 | `process_response` never panics and delivers only to the message's request id (default -1), in a table where it is registered, preferring requests; it drops exactly when neither table holds the id; `ResponsePriority` states the full decision |
| `Routing.ProcessOrderNotification` | src/client/transport.rs:269-293 | `process_order_notifications` never panics, delivers only status, open order and execution data, to orders under the order id when there is one and otherwise to requests under the request id; `OrderNotificationRouting` states the full decision |
| `Routing.Route` | src/client/transport.rs:157-183 | `dispatch_message` panics only on error messages, never delivers account notices, and delivers a non-order message only to a registered id; `PanicExactlyOnMalformedError`, `AccountNoticesNeverDelivered` and `ResponsePriority` state the routing per kind |
| `Routing.Delivered` | src/client/transport.rs:260-293 | sending along a routing decision keeps the table's ids and appends the message to the decided id's queue exactly when the decision names this table and an id registered in it, and changes nothing otherwise; `AtMostOneDelivery` combines both tables |
| `Routing.UnspecifiedErrorNeverDelivered` | src/client/transport.rs:164-172 | an error whose field 2 is missing, not a number or -1 reaches no table; any other error is routed as a response |
| `Routing.PanicExactlyOnMalformedError` | src/client/transport.rs:164-172 | dispatch panics exactly for an unscoped error that `error_event` cannot read, in particular a version 2 error whose field 2 is not a number |
| `Routing.AccountNoticesNeverDelivered` | src/client/transport.rs:173-174 | `NextValidId` and `ManagedAccounts` change neither table |
| `Routing.ResponsePriority` | src/client/transport.rs:260-267 | the request id (default -1) goes to requests if registered there, else to orders if registered there, else nowhere |
| `Routing.OrderNotificationRouting` | src/client/transport.rs:269-293 | status, open order and execution data go to the order id, else the request id, else nowhere; the end and commission kinds are dropped |
| `Routing.RegisteredRequestReceivesResponse` | src/client/transport.rs:260-267 | a response naming an id registered in requests is delivered there, whatever orders holds |
| `Routing.AtMostOneDelivery` | src/client/transport.rs:157-183 | a dispatched message is appended to at most one queue of one registered id, and to exactly that one when the destination names an id registered in its table; everything else is unchanged |
| `Transport.Accepted` | src/client/transport.rs:114-115 | `write_all` puts a prefix of its bytes on the socket, all of them exactly when it succeeds |
| `Transport.Fits` | src/client/transport.rs:114-115 | `write_all` always succeeds without a limit, succeeds on a full socket only for no bytes, and succeeds for every prefix of a write that succeeds; `Accepted` states what reaches the socket |
| `Transport.RoomAfter` | src/client/transport.rs:114-115 | an unlimited socket stays unlimited, a limited one never gains room, and a successful `write_all` uses exactly its bytes' worth; `AcceptedConcat` states how two writes compose |
| `Transport.AcceptedConcat` | src/client/transport.rs:114-115 | writing the header and then the data puts on the socket what one write of the whole frame would, and fails exactly when that would |
| `Transport.TcpMessageBus.constructor` | src/client/transport.rs:48-64 | a connected bus has two distinct, empty tables and has written nothing |
| `Transport.TcpMessageBus.AddRequest` | src/client/transport.rs:66-69 | the id is registered in requests with an empty channel |
| `Transport.TcpMessageBus.AddOrder` | src/client/transport.rs:71-74 | the id is registered in orders with an empty channel |
| `Transport.TcpMessageBus.WriteAll` | src/client/transport.rs:114 | the socket gets the accepted prefix; the result says whether all was accepted |
| `Transport.TcpMessageBus.WriteMessage` | src/client/transport.rs:106-120 | the socket gets the frame of the encoded message (its accepted prefix on an I/O error) |
| `Transport.TcpMessageBus.Write` | src/client/transport.rs:122-126 | the socket gets the raw bytes, with no header |
| `Transport.TcpMessageBus.WriteMessageForRequest` | src/client/transport.rs:86-94 | the id is registered in requests, then the frame is written; the registration stays if the write fails |
| `Transport.TcpMessageBus.SendOrderMessage` | src/client/transport.rs:96-104 | the id is registered in orders, then the frame is written; the registration stays if the write fails |
| `Transport.TcpMessageBus.ReadExact` | src/client/transport.rs:190 | `read_exact` takes exactly n bytes, or fails at end of stream having consumed the rest |
| `Transport.TcpMessageBus.ReadMessage` | src/client/transport.rs:185-206 | `read_packet` returns the payload `DecodeFrame` gives and consumes that frame, or fails leaving the stream empty |
| `Transport.TcpMessageBus.DeliverResponse` | src/client/transport.rs:260-267 | `process_response` on the live tables does what `ProcessResponse` decides |
| `Transport.TcpMessageBus.DeliverOrderNotification` | src/client/transport.rs:269-293 | `process_order_notifications` on the live tables does what `ProcessOrderNotification` decides |
| `Transport.TcpMessageBus.Dispatch` | src/client/transport.rs:157-183 | `dispatch_message` returns the destination `Route` gives for the tables' ids and changes the tables exactly as that delivery does |
| `Transport.RequestThenResponse` | src/client/transport.rs:86-94 | on a fresh bus, a request's frame is exactly the encoded request, and a later response naming its id lands in its channel, alone |

## Left out

- TCP connection set-up and `try_clone`: the socket is modelled as the byte sequences it delivers and accepts, plus how many bytes it accepts before an I/O error.
- The read-loop thread of `process_messages`: only one `Dispatch` step and the successive reads of `ReadFrames` are modelled. On a read error the source logs and loops again; `ReadFrames` keeps the payloads read before the failure and returns the bytes the failing read started on. Apart from a payload that is not UTF-8, a read fails only at the end of the stream, so the source's further reads find nothing more.
- Framing.ReadFrames: the source's loop skips a payload that is not UTF-8 (`String::from_utf8` in `read_packet`, src/client/transport.rs:192) and goes on with the next frame; `ReadFrames` has no UTF-8 check and returns that payload among the ones read.
- `RwLock`, `Arc` and the crossbeam channels: each table call is one atomic step, and a channel is the queue of messages sent into it.
- `ResponsePacketPromise`: the receive side, its 10 s / 20 s `recv_timeout` and `signal` are wall-clock waiting, which this model does not have.
- Senders.SenderHash.Send: a send into a channel whose receiver was dropped fails inside crossbeam and is only logged; the model has no receiver side, so every registered channel accepts the message.
- `process_next_valid_id` and `process_managed_accounts` only log a field; the model records that they deliver nothing.
- `MessageRecorder`: environment variables, file writes, the clock and a global counter are I/O.
- Routing.IntAt, Routing.StringAt: `peek_int`, `next_int` and `next_string` are modelled as reads by field index, and a missing field is modelled as an error result, never a panic. `PanicExactlyOnMalformedError` (the only way dispatching panics) and `AccountNoticesNeverDelivered` (`NextValidId` and `ManagedAccounts` of any length are dropped) rely on this; were an accessor to index out of range, as `process_next_valid_id` and `process_managed_accounts` (src/client/transport.rs:248, :256) would on a short message, it would panic instead. Text-to-integer parsing is an input: each field carries its integer value when it has one.
- `RequestMessage::encode` and `ResponseMessage::from` are not part of this model; the encoded bytes and the decoded message are inputs.
- Transport.TcpMessageBus.ReadMessage: the `String::from_utf8` check of `read_packet` is not modelled; the raw payload bytes are returned.
- The `server_versions` constants are not part of this model. `ADVANCED_ORDER_REJECT` is a parameter.
- The `handles` vector of spawned threads and the `debug!`/`error!` logging have no effect on the tables or the wire.
- Request-id allocation, the handshake, subscriptions, cancellation and disconnect fan-out are not in `transport.rs`.
