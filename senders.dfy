/** `SenderHash`: the table from request or order ids to the delivery
    channels of the callers waiting on them. A channel is modelled by the
    queue of messages sent into it and not yet received; the lock around
    the table is dropped, so every call is one atomic step. */
module Senders {
  import opened Base

  /** `a` and `b` hold the same entries for every id other than `id`. */
  ghost predicate AgreeExcept<T>(a: map<i32, seq<T>>, b: map<i32, seq<T>>, id: i32) {
    forall k :: k != id ==> (k in a <==> k in b) && (k in a ==> a[k] == b[k])
  }

  /** The table after `send(id, message)`: a registered id's queue gets the
      message at its end; an unregistered id drops it. */
  function Enqueue<T>(table: map<i32, seq<T>>, id: i32, message: T): (r: map<i32, seq<T>>)
    ensures r.Keys == table.Keys
    ensures AgreeExcept(table, r, id)
    ensures id in table ==> r[id] == table[id] + [message]
    ensures id !in table ==> r == table
  {
    if id in table then table[id := table[id] + [message]] else table
  }

  /** The table after sending `messages` to `id`, one `send` after another. */
  function EnqueueAll<T>(table: map<i32, seq<T>>, id: i32, messages: seq<T>): (r: map<i32, seq<T>>)
    ensures r.Keys == table.Keys
    decreases |messages|
  {
    if messages == [] then table
    else EnqueueAll(Enqueue(table, id, messages[0]), id, messages[1..])
  }

  /** FIFO delivery: messages sent to one registered id are queued in the
      order they were sent, and no other id's queue changes. */
  lemma {:induction false} EnqueueAllInOrder<T>(table: map<i32, seq<T>>, id: i32, messages: seq<T>)
    requires id in table
    ensures id in EnqueueAll(table, id, messages)
    ensures EnqueueAll(table, id, messages)[id] == table[id] + messages
    ensures AgreeExcept(table, EnqueueAll(table, id, messages), id)
  {
    if messages != [] {
      var next := Enqueue(table, id, messages[0]);
      EnqueueAllInOrder(next, id, messages[1..]);
      assert table[id] + [messages[0]] + messages[1..] == table[id] + messages;
    }
  }

  /** Messages sent to an id that is not registered are all dropped. */
  lemma {:induction false} EnqueueAllUnregistered<T>(table: map<i32, seq<T>>, id: i32, messages: seq<T>)
    requires id !in table
    ensures EnqueueAll(table, id, messages) == table
  {
    if messages != [] {
      EnqueueAllUnregistered(Enqueue(table, id, messages[0]), id, messages[1..]);
    }
  }

  class SenderHash<T> {
    /** Each registered id and the queue of its channel. */
    var data: map<i32, seq<T>>

    /** `SenderHash::new`: no id is registered. */
    constructor ()
      ensures data == map[]
    {
      data := map[];
    }

    /** `send`: delivers to a registered id's channel, logs and drops for an
        unknown id, and reports success either way. */
    method Send(id: i32, message: T) returns (r: Result<()>)
      modifies this
      ensures r == Ok(())
      ensures data == Enqueue(old(data), id, message)
    {
      if id in data {
        data := data[id := data[id] + [message]];
      }
      r := Ok(());
    }

    /** `insert`: registers `sender` for `id`, replacing and returning the
        sender registered before, if any. */
    method Insert(id: i32, sender: seq<T>) returns (previous: Option<seq<T>>)
      modifies this
      ensures id in data && data[id] == sender
      ensures AgreeExcept(old(data), data, id)
      ensures previous == if id in old(data) then Some(old(data)[id]) else None
    {
      previous := if id in data then Some(data[id]) else None;
      data := data[id := sender];
    }

    /** `remove`: unregisters `id` and returns its sender, if any. */
    method Remove(id: i32) returns (previous: Option<seq<T>>)
      modifies this
      ensures id !in data
      ensures AgreeExcept(old(data), data, id)
      ensures previous == if id in old(data) then Some(old(data)[id]) else None
    {
      previous := if id in data then Some(data[id]) else None;
      data := data - {id};
    }

    /** `contains`: whether `id` is registered. */
    method Contains(id: i32) returns (b: bool)
      ensures b <==> id in data
    {
      b := id in data;
    }
  }
}
