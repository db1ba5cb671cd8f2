// The receive path: the radio callback fills a bounded queue of heap messages,
// one task empties it, unpacks each message and hands the packet on.
module RxQueue {
  import opened Types
  import opened Frame

  datatype Msg = Msg(src: Mac, data: seq<byte>)

  datatype Packet = Packet(src: Mac, frame: Frame)

  // `accepted` records the messages that ever got a place in the queue, `done`
  // those the task has dealt with and `calls` the packets handed to the
  // application; messages are counted as they are allocated and freed.
  datatype State = State(queue: seq<Msg>, inFlight: Option<Msg>, open: bool,
                         accepted: seq<Msg>, done: seq<Msg>, calls: seq<Packet>, mallocs: nat, frees: nat)

  datatype Action =
    | Receive(msg: Msg, memory: bool)   // the radio delivers; `memory` says whether allocation succeeds
    | Take                              // the task takes the next message off the queue
    | Finish                            // the task has dealt with it

  function ReceiveStep(s: State, capacity: nat, m: Msg, memory: bool): State {
    if m.data == [] || !s.open || !memory then s
    else if |s.queue| < capacity then
      s.(queue := s.queue + [m], accepted := s.accepted + [m], mallocs := s.mallocs + 1)
    else s.(mallocs := s.mallocs + 1, frees := s.frees + 1)
  }

  function TakeStep(s: State): State {
    if s.queue == [] || s.inFlight.Some? || !s.open then s
    else s.(queue := s.queue[1..], inFlight := Some(s.queue[0]))
  }

  // What one message gives the application.
  function Deliver(m: Msg): seq<Packet> {
    var f := Decode(m.data);
    if f.Ok? then [Packet(m.src, f.value)] else []
  }

  function FinishStep(s: State): State {
    if s.inFlight.None? then s
    else
      s.(inFlight := None, done := s.done + [s.inFlight.value], calls := s.calls + Deliver(s.inFlight.value),
         frees := s.frees + 1)
  }

  // Nothing frees the message the task has in its hands.
  function StopStep(s: State): State {
    if !s.open then s
    else s.(queue := [], inFlight := None, open := false, frees := s.frees + |s.queue|)
  }

  function Next(s: State, capacity: nat, a: Action): State {
    match a
    case Receive(m, memory) => ReceiveStep(s, capacity, m, memory)
    case Take => TakeStep(s)
    case Finish => FinishStep(s)
  }

  const START := State([], None, true, [], [], [], 0, 0)

  class Transport {
    const capacity: nat
    var queue: seq<Msg>
    var inFlight: Option<Msg>
    var open: bool
    ghost var accepted: seq<Msg>
    ghost var done: seq<Msg>
    ghost var calls: seq<Packet>
    ghost var mallocs: nat
    ghost var frees: nat

    ghost function Contents(): State
      reads this
    {
      State(queue, inFlight, open, accepted, done, calls, mallocs, frees)
    }

    constructor (capacity: nat)
      ensures this.capacity == capacity && Contents() == START
    {
      this.capacity := capacity;
      queue, inFlight, open := [], None, true;
      accepted, done, calls, mallocs, frees := [], [], [], 0, 0;
    }

    // The radio callback.
    method RecvCb(src: Mac, data: seq<byte>, memory: bool)
      modifies this
      ensures Contents() == ReceiveStep(old(Contents()), capacity, Msg(src, data), memory)
    {
      if |data| <= 0 || !open {
        return;
      }
      if !memory {
        return;
      }
      var msg := Msg(src, data);
      mallocs := mallocs + 1;
      if |queue| < capacity {
        queue := queue + [msg];
        accepted := accepted + [msg];
      } else {
        frees := frees + 1;
      }
    }

    // The task's wait; returns nothing while there is nothing to take.
    method TakeNext()
      modifies this
      ensures Contents() == TakeStep(old(Contents()))
    {
      if open && inFlight.None? && |queue| > 0 {
        inFlight := Some(queue[0]);
        queue := queue[1..];
      }
    }

    // Unpacking the message in hand.
    method Unpacked(msg: Msg) returns (packet: Option<Packet>)
      ensures Deliver(msg) == if packet.Some? then [packet.value] else []
    {
      var data := new byte[|msg.data|](i requires 0 <= i < |msg.data| => msg.data[i]);
      var header := new HeaderCell();
      var json := new TextCell();
      var jsonLen := new SizeCell();
      var error := Unpack(data, data.Length, header, json, jsonLen);
      assert data[..data.Length] == msg.data;
      if error.Some? {
        return None;
      }
      var h, payload := header.value, data[HEADER_LEN..HEADER_LEN + jsonLen.value];
      return Some(Packet(msg.src, Frame(h.kind, h.flags, h.seqNo, h.xid, payload)));
    }

    // The rest of the task's round; the result is the packet passed on, if any.
    method Process() returns (packet: Option<Packet>)
      modifies this
      ensures Contents() == FinishStep(old(Contents()))
      ensures calls == old(calls) + if packet.Some? then [packet.value] else []
    {
      packet := None;
      if inFlight.Some? {
        var msg := inFlight.value;
        packet := Unpacked(msg);
        if packet.Some? {
          calls := calls + [packet.value];
        }
        inFlight := None;
        done := done + [msg];
        frees := frees + 1;
      }
    }

    // The task is deleted where it stands, then the queue is emptied.
    method Deinit()
      modifies this
      ensures Contents() == StopStep(old(Contents()))
    {
      if !open {
        return;
      }
      inFlight := None;
      while |queue| > 0
        invariant frees + |queue| == old(frees) + |old(queue)|
        invariant inFlight == None && open && accepted == old(accepted)
        invariant done == old(done) && calls == old(calls) && mallocs == old(mallocs)
      {
        queue := queue[1..];
        frees := frees + 1;
      }
      open := false;
    }
  }

  // ---------------------------------------------------------------------
  // Every interleaving

  function After(capacity: nat, actions: seq<Action>): State {
    if actions == [] then START
    else Next(After(capacity, actions[..|actions| - 1]), capacity, actions[|actions| - 1])
  }

  // The packets a list of messages gives the application.
  function Delivered(msgs: seq<Msg>): seq<Packet> {
    if msgs == [] then [] else Delivered(msgs[..|msgs| - 1]) + Deliver(msgs[|msgs| - 1])
  }

  function InFlight(s: State): seq<Msg> {
    if s.inFlight.Some? then [s.inFlight.value] else []
  }

  ghost predicate Inv(s: State, capacity: nat) {
    && |s.queue| <= capacity
    && s.accepted == s.done + InFlight(s) + s.queue
    && s.calls == Delivered(s.done)
    && s.mallocs == |s.queue| + |InFlight(s)| + s.frees
  }

  lemma DeliveredOneMore(msgs: seq<Msg>, m: Msg)
    ensures Delivered(msgs + [m]) == Delivered(msgs) + Deliver(m)
  {
    assert (msgs + [m])[..|msgs|] == msgs;
  }

  lemma ReceiveKeeps(s: State, capacity: nat, m: Msg, memory: bool)
    requires Inv(s, capacity)
    ensures Inv(ReceiveStep(s, capacity, m, memory), capacity)
  {
    assert s.done + InFlight(s) + (s.queue + [m]) == s.accepted + [m];
  }

  lemma TakeKeeps(s: State, capacity: nat)
    requires Inv(s, capacity)
    ensures Inv(TakeStep(s), capacity)
  {
    if s.queue != [] && s.inFlight.None? {
      assert s.done + [] + s.queue == s.done + [s.queue[0]] + s.queue[1..];
    }
  }

  lemma FinishKeeps(s: State, capacity: nat)
    requires Inv(s, capacity)
    ensures Inv(FinishStep(s), capacity)
  {
    if s.inFlight.Some? {
      DeliveredOneMore(s.done, s.inFlight.value);
    }
  }

  lemma NextKeepsInv(s: State, capacity: nat, a: Action)
    requires Inv(s, capacity)
    ensures Inv(Next(s, capacity, a), capacity)
  {
    match a
    case Receive(m, memory) => ReceiveKeeps(s, capacity, m, memory);
    case Take => TakeKeeps(s, capacity);
    case Finish => FinishKeeps(s, capacity);
  }

  // Over every interleaving: the application sees the accepted messages in the
  // order of arrival, each exactly once and only if it unpacks; what has not
  // been seen is in flight or queued; and no message is lost or freed twice.
  lemma {:induction false} InOrderExactlyOnce(capacity: nat, actions: seq<Action>)
    ensures Inv(After(capacity, actions), capacity)
  {
    if actions != [] {
      InOrderExactlyOnce(capacity, actions[..|actions| - 1]);
      NextKeepsInv(After(capacity, actions[..|actions| - 1]), capacity, actions[|actions| - 1]);
    }
  }

  // When the queue has run dry every accepted message has been dealt with, and
  // every allocated one freed.
  lemma DryMeansAllDelivered(capacity: nat, actions: seq<Action>)
    requires var s := After(capacity, actions); s.queue == [] && s.inFlight.None?
    ensures var s := After(capacity, actions); s.calls == Delivered(s.accepted) && s.mallocs == s.frees
  {
    InOrderExactlyOnce(capacity, actions);
    var s := After(capacity, actions);
    assert s.done + [] + [] == s.done;
  }

  // Which messages get a place: those with data that come while the transport is
  // open, with memory to be had and room in the queue.  No others leave a trace
  // but in the allocations.
  lemma AcceptedIff(s: State, capacity: nat, m: Msg, memory: bool)
    ensures var after := Next(s, capacity, Receive(m, memory));
            && (after.accepted == s.accepted + [m]
                <==> m.data != [] && s.open && memory && |s.queue| < capacity)
            && (after.accepted == s.accepted + [m] ==> after.queue == s.queue + [m])
            && (after.accepted != s.accepted + [m] ==> after.accepted == s.accepted && after.queue == s.queue)
            && (after.inFlight, after.open, after.done, after.calls) == (s.inFlight, s.open, s.done, s.calls)
  {
    assert |s.accepted + [m]| != |s.accepted|;
  }

  // The application gets the message's own sender and frame, or nothing if it
  // holds none.
  lemma DeliverIff(m: Msg, p: Packet)
    ensures Deliver(m) == [p] <==> p.src == m.src && Decode(m.data) == Ok(p.frame)
    ensures Deliver(m) == [] <==> Decode(m.data).Err?
  {
  }

  // The task's rounds one after the other.
  function Rounds(s: State, capacity: nat, k: nat): State
    decreases k
  {
    if k == 0 then s else Rounds(Next(Next(s, capacity, Take), capacity, Finish), capacity, k - 1)
  }

  // As many rounds as there are messages hand all of them on, in order.
  lemma {:induction false} RoundsDeliverAll(s: State, capacity: nat)
    requires Inv(s, capacity) && s.open && s.inFlight.None?
    ensures var after := Rounds(s, capacity, |s.queue|);
            after.queue == [] && after.inFlight.None? && after.accepted == s.accepted == after.done
            && after.calls == Delivered(s.accepted) && after.mallocs == after.frees == s.mallocs
    decreases |s.queue|
  {
    if s.queue == [] {
      assert s.done + [] + [] == s.done;
    } else {
      OneRound(s, capacity);
      RoundsDeliverAll(Next(Next(s, capacity, Take), capacity, Finish), capacity);
    }
  }

  lemma OneRound(s: State, capacity: nat)
    requires Inv(s, capacity) && s.open && s.inFlight.None? && s.queue != []
    ensures var after := Next(Next(s, capacity, Take), capacity, Finish);
            && Inv(after, capacity) && after.open && after.inFlight.None? && after.queue == s.queue[1..]
            && after.accepted == s.accepted && after.mallocs == s.mallocs
  {
    TakeKeeps(s, capacity);
    FinishKeeps(TakeStep(s), capacity);
  }

  // Stopping at any moment frees every message but the one in the task's hands:
  // all that was ever allocated is freed exactly if the task is then idle.
  // Afterwards nothing happens any more, so that message stays lost.
  lemma {:induction false} StopFreesAllIffIdle(capacity: nat, actions: seq<Action>, later: Action)
    ensures var s := After(capacity, actions);
            var stopped := StopStep(s);
            && stopped.mallocs == stopped.frees + |InFlight(s)|
            && (stopped.mallocs == stopped.frees <==> s.inFlight.None?)
            && Next(stopped, capacity, later) == stopped && StopStep(stopped) == stopped
  {
    InOrderExactlyOnce(capacity, actions);
    StaysOpen(capacity, actions);
  }

  lemma {:induction false} StaysOpen(capacity: nat, actions: seq<Action>)
    ensures After(capacity, actions).open
  {
    if actions != [] {
      StaysOpen(capacity, actions[..|actions| - 1]);
    }
  }
}
