// A host, one device and the radio between them.  The radio may lose, repeat
// and reorder frames at will, and other stations may send anything to either.
module World {
  import opened Types
  import opened Frame
  import opened DuplicateCache
  import opened Device
  import opened AtMostOnce
  import opened HostEvents
  import opened Ideal
  import Counter

  datatype Stations = Stations(host: Mac, device: Mac)

  // A tool call the host has issued, with the number of its xid draw.
  datatype Call = Call(draw: nat, xid: u16, payload: CText)

  // A frame on the air towards the device; `call` is the host's call it carries.
  datatype Wire = Wire(src: Mac, bytes: seq<byte>, call: Option<nat>)

  // A frame on the air towards the host; `arrival` is the device's arrival it answers.
  datatype Back = Back(src: Mac, bytes: seq<byte>, arrival: Option<nat>)

  datatype Event = Event(src: Mac, kind: EventKind, xid: u16, json: seq<byte>, arrival: Option<nat>)

  datatype World<!S> = World(
    randoms: seq<u32>,               // one offer of the random source per xid drawn
    counter: u16,                    // the host's xid counter
    calls: seq<Call>,
    toDevice: seq<Wire>,             // every frame ever sent to the device
    run: Run<S>,                     // the device and the calls it has handled
    sources: seq<Option<nat>>,       // which host call each handled call is a copy of
    toHost: seq<Back>,
    events: seq<Event>)

  datatype Action =
    | DrawXid(random: u32)                                      // discover, tools/list or ping, or a call elsewhere
    | CallTool(random: u32, seqNo: u16, payload: CText)
    | SendToDevice(src: Mac, bytes: seq<byte>)                  // another station transmits
    | SendToHost(src: Mac, bytes: seq<byte>)
    | DeliverToDevice(j: nat, at: int, done: int, pick: u32, seqNo: u16)
    | DeliverToHost(j: nat)

  ghost function Start<S>(cfg: Config<S>, start: S): World<S> {
    World([], 0, [], [], Execute(cfg, start, []), [], [], [])
  }

  ghost function CallToolStep<S>(net: Stations, w: World<S>, random: u32, seqNo: u16, payload: CText): World<S> {
    var xid := Counter.Successor(w.counter, random);
    var frame := Frame(TOOL_CALL, 0, seqNo, xid, payload);
    w.(randoms := w.randoms + [random], counter := xid,
       calls := w.calls + [Call(|w.randoms|, xid, payload)],
       toDevice := if |payload| > MAX_JSON_LEN then w.toDevice
                   else w.toDevice + [Wire(net.host, Encode(frame), Some(|w.calls|))])
  }

  // Handling one more call.
  ghost function Extend<S>(r: Run<S>, a: Arrival): Run<S>
    requires |r.states| == |r.calls| + 1 && |r.states[|r.calls|].slots| == CACHE_MAX
  {
    var (state, result) := Step(r.cfg, r.states[|r.calls|], a);
    r.(calls := r.calls + [a], states := r.states + [state], results := r.results + [result])
  }

  // Frames that do not decode, or are not tool calls, never reach the tools.
  ghost function ToDeviceStep<S>(net: Stations, w: World<S>, wire: Wire, at: int, done: int, pick: u32, seqNo: u16)
    : World<S>
    requires |w.run.states| == |w.run.calls| + 1 && |w.run.states[|w.run.calls|].slots| == CACHE_MAX
  {
    var f := Decode(wire.bytes);
    if f.Err? || f.value.kind != TOOL_CALL then w
    else
      var run := Extend(w.run, Arrival(wire.src, f.value.xid, f.value.payload, at, done, pick));
      var n := |w.run.calls|;
      w.(run := run, sources := w.sources + [wire.call],
         toHost := if wire.src != net.host || n >= |run.results| then w.toHost
                   else w.toHost + [SendAnswer(net.device, f.value.xid, run.results[n], seqNo, n)])
  }

  function SendAnswer(device: Mac, xid: u16, o: Outcome, seqNo: u16, n: nat): Back {
    var f := Answer(xid, o, seqNo);
    Back(device, if |f.payload| < 0x1_0000 then Encode(f) else [], Some(n))
  }

  ghost function ToHostStep<S>(w: World<S>, back: Back): World<S> {
    var f := Decode(back.bytes);
    if f.Err? then w
    else
      w.(events := w.events
                   + [Event(back.src, MapEventType(f.value), f.value.xid, f.value.payload, back.arrival)])
  }

  ghost function Next<S>(net: Stations, w: World<S>, action: Action): World<S>
    requires |w.run.states| == |w.run.calls| + 1 && |w.run.states[|w.run.calls|].slots| == CACHE_MAX
  {
    match action
    case DrawXid(random) => w.(randoms := w.randoms + [random], counter := Counter.Successor(w.counter, random))
    case CallTool(random, seqNo, payload) => CallToolStep(net, w, random, seqNo, payload)
    case SendToDevice(src, bytes) =>
      if src == net.host then w else w.(toDevice := w.toDevice + [Wire(src, bytes, None)])
    case SendToHost(src, bytes) =>
      if src == net.device then w else w.(toHost := w.toHost + [Back(src, bytes, None)])
    case DeliverToDevice(j, at, done, pick, seqNo) =>
      if j < |w.toDevice| then ToDeviceStep(net, w, w.toDevice[j], at, done, pick, seqNo) else w
    case DeliverToHost(j) => if j < |w.toHost| then ToHostStep(w, w.toHost[j]) else w
  }

  // ---------------------------------------------------------------------
  // What every reachable world satisfies

  ghost predicate HostOk<S>(w: World<S>) {
    DrawsOk(w.randoms, w.counter, w.calls)
  }

  ghost predicate DrawsOk(randoms: seq<u32>, counter: u16, calls: seq<Call>) {
    && counter == Counter.After(randoms, |randoms|)
    && (forall c | 0 <= c < |calls| :: calls[c].draw < |randoms|)
    && (forall c | 0 <= c < |calls| :: calls[c].xid == Counter.Draw(randoms, calls[c].draw))
    && (forall c, d | 0 <= c < d < |calls| :: calls[c].draw < calls[d].draw)
  }

  // The wire carries call c, or comes from someone else.
  predicate WireOk(net: Stations, calls: seq<Call>, wire: Wire) {
    if wire.call.None? then wire.src != net.host
    else
      && wire.call.value < |calls| && wire.src == net.host && Decode(wire.bytes).Ok?
      && var f := Decode(wire.bytes).value;
      f.xid == calls[wire.call.value].xid && f.payload == calls[wire.call.value].payload
  }

  predicate ArrivalOk(net: Stations, calls: seq<Call>, a: Arrival, source: Option<nat>) {
    if source.None? then a.src != net.host
    else
      && source.value < |calls| && a.src == net.host
      && a.xid == calls[source.value].xid && a.payload == calls[source.value].payload
  }

  // The frame is the device's answer to that arrival, or comes from someone else.
  ghost predicate BackOk<S>(net: Stations, run: Run<S>, sources: seq<Option<nat>>, back: Back) {
    if back.arrival.None? then back.src != net.device
    else
      var n := back.arrival.value;
      && back.src == net.device && n < |run.calls| && n < |run.results| && n < |sources| && sources[n].Some?
      && exists seqNo: u16 :: Decode(back.bytes) == Ok(Answer(run.calls[n].xid, run.results[n], seqNo))
  }

  ghost predicate EventOk<S>(net: Stations, run: Run<S>, sources: seq<Option<nat>>, e: Event) {
    if e.arrival.None? then e.src != net.device
    else
      var n := e.arrival.value;
      && e.src == net.device && n < |run.calls| && n < |run.results| && n < |sources| && sources[n].Some?
      && e.xid == run.calls[n].xid
      && (e.kind == ToolResult <==> run.results[n].HasReply())
      && (e.kind == ToolResult ==> e.json == run.results[n].reply)
  }

  predicate WiresOk(net: Stations, calls: seq<Call>, wires: seq<Wire>) {
    forall j | 0 <= j < |wires| :: WireOk(net, calls, wires[j])
  }

  predicate ArrivalsOk(net: Stations, calls: seq<Call>, arrivals: seq<Arrival>, sources: seq<Option<nat>>) {
    |sources| == |arrivals| && forall n | 0 <= n < |arrivals| :: ArrivalOk(net, calls, arrivals[n], sources[n])
  }

  ghost predicate BacksOk<S>(net: Stations, run: Run<S>, sources: seq<Option<nat>>, backs: seq<Back>) {
    forall j | 0 <= j < |backs| :: BackOk(net, run, sources, backs[j])
  }

  ghost predicate EventsOk<S>(net: Stations, run: Run<S>, sources: seq<Option<nat>>, events: seq<Event>) {
    forall e | 0 <= e < |events| :: EventOk(net, run, sources, events[e])
  }

  ghost predicate RunOk<S>(start: S, run: Run<S>) {
    run.Valid(start) && |run.states[|run.calls|].slots| == CACHE_MAX
  }

  ghost predicate Consistent<S>(net: Stations, start: S, w: World<S>) {
    && RunOk(start, w.run) && HostOk(w)
    && WiresOk(net, w.calls, w.toDevice)
    && ArrivalsOk(net, w.calls, w.run.calls, w.sources)
    && BacksOk(net, w.run, w.sources, w.toHost)
    && EventsOk(net, w.run, w.sources, w.events)
  }

  // The worlds that can come about: any actions in any order.
  ghost function Reach<S>(net: Stations, cfg: Config<S>, start: S, actions: seq<Action>): (w: World<S>)
    ensures Consistent(net, start, w) && w.run.cfg == cfg
    decreases |actions|
  {
    if actions == [] then
      StartIsConsistent(net, cfg, start);
      Start(cfg, start)
    else
      var last := |actions| - 1;
      var w := Reach(net, cfg, start, actions[..last]);
      NextIsConsistent(net, start, w, actions[last]);
      Next(net, w, actions[last])
  }

  lemma StartIsConsistent<S>(net: Stations, cfg: Config<S>, start: S)
    ensures Consistent(net, start, Start(cfg, start))
  {
    SlotCount(Execute(cfg, start, []), start, 0);
  }

  lemma NextIsConsistent<S>(net: Stations, start: S, w: World<S>, action: Action)
    requires Consistent(net, start, w)
    ensures Consistent(net, start, Next(net, w, action)) && Next(net, w, action).run.cfg == w.run.cfg
  {
    match action
    case DrawXid(random) =>
      DrawKeeps(w, random);
    case CallTool(random, seqNo, payload) =>
      CallKeeps(net, start, w, random, seqNo, payload);
    case SendToDevice(src, bytes) =>
      OthersKeep(net, start, w, src, bytes);
    case SendToHost(src, bytes) =>
      OthersKeep(net, start, w, src, bytes);
    case DeliverToDevice(j, at, done, pick, seqNo) =>
      if j < |w.toDevice| {
        ToDeviceKeeps(net, start, w, w.toDevice[j], at, done, pick, seqNo);
      }
    case DeliverToHost(j) =>
      if j < |w.toHost| {
        ToHostKeeps(net, start, w, w.toHost[j]);
      }
  }

  lemma OthersKeep<S>(net: Stations, start: S, w: World<S>, src: Mac, bytes: seq<byte>)
    requires Consistent(net, start, w)
    ensures src != net.host ==> Consistent(net, start, w.(toDevice := w.toDevice + [Wire(src, bytes, None)]))
    ensures src != net.device ==> Consistent(net, start, w.(toHost := w.toHost + [Back(src, bytes, None)]))
  {
  }

  // Later draws do not change earlier ones.
  lemma {:induction false} EarlierDraws(randoms: seq<u32>, random: u32, k: nat)
    requires k <= |randoms|
    ensures Counter.After(randoms + [random], k) == Counter.After(randoms, k)
  {
    if k > 0 {
      EarlierDraws(randoms, random, k - 1);
    }
  }

  lemma DrawKeeps<S>(w: World<S>, random: u32)
    requires HostOk(w)
    ensures HostOk(w.(randoms := w.randoms + [random], counter := Counter.Successor(w.counter, random)))
  {
    var randoms := w.randoms + [random];
    EarlierDraws(w.randoms, random, |w.randoms|);
    forall c | 0 <= c < |w.calls|
      ensures w.calls[c].xid == Counter.Draw(randoms, w.calls[c].draw)
    {
      EarlierDraws(w.randoms, random, w.calls[c].draw + 1);
    }
  }

  lemma CallKeeps<S>(net: Stations, start: S, w: World<S>, random: u32, seqNo: u16, payload: CText)
    requires Consistent(net, start, w)
    ensures Consistent(net, start, CallToolStep(net, w, random, seqNo, payload))
  {
    var after := CallToolStep(net, w, random, seqNo, payload);
    DrawKeeps(w, random);
    EarlierDraws(w.randoms, random, |w.randoms|);
    assert HostOk(after);
    CallsGrow(net, w.calls, Call(|w.randoms|, after.counter, payload), w.toDevice, w.run.calls, w.sources);
    if |payload| <= MAX_JSON_LEN {
      var frame := Frame(TOOL_CALL, 0, seqNo, after.counter, payload);
      DecodeIff(Encode(frame), frame);
    }
  }

  // One more call leaves what is known of the others.
  lemma CallsGrow(net: Stations, calls: seq<Call>, call: Call, wires: seq<Wire>, arrivals: seq<Arrival>,
                  sources: seq<Option<nat>>)
    requires WiresOk(net, calls, wires) && ArrivalsOk(net, calls, arrivals, sources)
    ensures WiresOk(net, calls + [call], wires) && ArrivalsOk(net, calls + [call], arrivals, sources)
  {
  }

  // Replies never outgrow a frame, replayed ones included.
  lemma ReplySize<S>(r: Run<S>, start: S, n: nat)
    requires r.Valid(start) && n < |r.calls| && r.results[n].HasReply()
    ensures |r.results[n].reply| <= MAX_JSON_LEN
  {
    var m := n;
    if r.results[n].Replayed? {
      m := ReplayOrigin(r, start, n);
    }
    assert r.StepAt(m);
  }

  lemma ExtendKeeps<S>(r: Run<S>, start: S, a: Arrival)
    requires r.Valid(start) && |r.states[|r.calls|].slots| == CACHE_MAX
    ensures Extend(r, a).Valid(start) && |Extend(r, a).states[|r.calls| + 1].slots| == CACHE_MAX
  {
    var s := Extend(r, a);
    forall n | 0 <= n < |s.calls|
      ensures s.StepAt(n)
    {
      assert n < |r.calls| ==> r.StepAt(n);
    }
  }

  lemma ToDeviceKeeps<S>(net: Stations, start: S, w: World<S>, wire: Wire, at: int, done: int, pick: u32, seqNo: u16)
    requires Consistent(net, start, w) && WireOk(net, w.calls, wire)
    ensures Consistent(net, start, ToDeviceStep(net, w, wire, at, done, pick, seqNo))
  {
    var f := Decode(wire.bytes);
    if f.Ok? && f.value.kind == TOOL_CALL {
      var a := Arrival(wire.src, f.value.xid, f.value.payload, at, done, pick);
      var n, run, sources := |w.run.calls|, Extend(w.run, a), w.sources + [wire.call];
      ExtendKeeps(w.run, start, a);
      OthersStay(net, w, a, wire.call);
      ArrivalsGrow(net, w.calls, w.run.calls, w.sources, a, wire.call);
      if wire.src == net.host {
        AnswerIsOk(net, run, start, sources, n, seqNo);
        BacksGrow(net, run, sources, w.toHost, SendAnswer(net.device, a.xid, run.results[n], seqNo, n));
      }
    }
  }

  lemma ArrivalsGrow(net: Stations, calls: seq<Call>, arrivals: seq<Arrival>, sources: seq<Option<nat>>,
                     a: Arrival, source: Option<nat>)
    requires ArrivalsOk(net, calls, arrivals, sources) && ArrivalOk(net, calls, a, source)
    ensures ArrivalsOk(net, calls, arrivals + [a], sources + [source])
  {
  }

  lemma BacksGrow<S>(net: Stations, run: Run<S>, sources: seq<Option<nat>>, backs: seq<Back>, back: Back)
    requires BacksOk(net, run, sources, backs) && BackOk(net, run, sources, back)
    ensures BacksOk(net, run, sources, backs + [back])
  {
  }

  // What the host was sent before is not affected by one more call.
  lemma OthersStay<S>(net: Stations, w: World<S>, a: Arrival, source: Option<nat>)
    requires |w.run.results| == |w.run.calls| == |w.sources| && |w.run.states| == |w.run.calls| + 1
    requires |w.run.states[|w.run.calls|].slots| == CACHE_MAX
    requires BacksOk(net, w.run, w.sources, w.toHost) && EventsOk(net, w.run, w.sources, w.events)
    ensures BacksOk(net, Extend(w.run, a), w.sources + [source], w.toHost)
    ensures EventsOk(net, Extend(w.run, a), w.sources + [source], w.events)
  {
    forall j | 0 <= j < |w.toHost|
      ensures BackOk(net, Extend(w.run, a), w.sources + [source], w.toHost[j])
    {
      BackStays(net, w.run, a, w.sources, source, w.toHost[j]);
    }
    forall e | 0 <= e < |w.events|
      ensures EventOk(net, Extend(w.run, a), w.sources + [source], w.events[e])
    {
      assert EventOk(net, w.run, w.sources, w.events[e]);
    }
  }

  lemma BackStays<S>(net: Stations, r: Run<S>, a: Arrival, sources: seq<Option<nat>>, source: Option<nat>, b: Back)
    requires BackOk(net, r, sources, b)
    requires |r.results| == |r.calls| == |sources| && |r.states| == |r.calls| + 1
    requires |r.states[|r.calls|].slots| == CACHE_MAX
    ensures BackOk(net, Extend(r, a), sources + [source], b)
  {
    if b.arrival.Some? {
      var n, s := b.arrival.value, Extend(r, a);
      var seqNo: u16 :| Decode(b.bytes) == Ok(Answer(r.calls[n].xid, r.results[n], seqNo));
      assert Decode(b.bytes) == Ok(Answer(s.calls[n].xid, s.results[n], seqNo));
    }
  }

  lemma AnswerIsOk<S>(net: Stations, run: Run<S>, start: S, sources: seq<Option<nat>>, n: nat, seqNo: u16)
    requires run.Valid(start) && n < |run.calls| == |sources| && sources[n].Some?
    ensures BackOk(net, run, sources, SendAnswer(net.device, run.calls[n].xid, run.results[n], seqNo, n))
  {
    var f := Answer(run.calls[n].xid, run.results[n], seqNo);
    if run.results[n].HasReply() {
      ReplySize(run, start, n);
    }
    AnswerArrives(run.calls[n].xid, run.results[n], seqNo, []);
    assert Encode(f) + [] == Encode(f);
  }

  // An event stands for what its frame stood for.
  lemma HeardIsOk<S>(net: Stations, run: Run<S>, sources: seq<Option<nat>>, back: Back, f: Frame)
    requires BackOk(net, run, sources, back) && Decode(back.bytes) == Ok(f)
    ensures EventOk(net, run, sources, Event(back.src, MapEventType(f), f.xid, f.payload, back.arrival))
  {
    if back.arrival.Some? {
      var n := back.arrival.value;
      var seqNo: u16 :| f == Answer(run.calls[n].xid, run.results[n], seqNo);
    }
  }

  lemma ToHostKeeps<S>(net: Stations, start: S, w: World<S>, back: Back)
    requires Consistent(net, start, w) && BackOk(net, w.run, w.sources, back)
    ensures Consistent(net, start, ToHostStep(w, back))
  {
    var f := Decode(back.bytes);
    if f.Ok? {
      HeardIsOk(net, w.run, w.sources, back, f.value);
    }
  }

  // ---------------------------------------------------------------------
  // A call that is sent and not lost is handled and answered

  // A frame delivered to the device is one more arrival, with its sender, xid
  // and payload, exactly if it decodes to a tool call.
  lemma DeliveryIsHandled<S>(net: Stations, start: S, w: World<S>, j: nat, at: int, done: int, pick: u32, seqNo: u16)
    requires Consistent(net, start, w) && j < |w.toDevice|
    ensures var wire := w.toDevice[j];
            var f := Decode(wire.bytes);
            var after := Next(net, w, DeliverToDevice(j, at, done, pick, seqNo));
            && Consistent(net, start, after)
            && after.calls == w.calls && after.randoms == w.randoms && after.events == w.events
            && (after.run.calls, after.sources)
               == (if f.Ok? && f.value.kind == 3 then
                     (w.run.calls + [Arrival(wire.src, f.value.xid, f.value.payload, at, done, pick)],
                      w.sources + [wire.call])
                   else
                     (w.run.calls, w.sources))
  {
    NextIsConsistent(net, start, w, DeliverToDevice(j, at, done, pick, seqNo));
  }

  // A call puts one frame on the air: the host's, of type 3, with the xid drawn
  // and the payload; none if the payload is too long for a frame.
  lemma CallIsSent<S>(net: Stations, start: S, w: World<S>, random: u32, seqNo: u16, payload: CText)
    requires Consistent(net, start, w)
    ensures var xid := Counter.Draw(w.randoms + [random], |w.randoms|);
            var sent := Next(net, w, CallTool(random, seqNo, payload));
            && Consistent(net, start, sent)
            && sent.randoms == w.randoms + [random] && sent.run == w.run && sent.sources == w.sources
            && sent.toHost == w.toHost && sent.events == w.events
            && sent.calls == w.calls + [Call(|w.randoms|, xid, payload)]
            && (|payload| > 1458 ==> sent.toDevice == w.toDevice)
            && (|payload| <= 1458 ==>
                  && |sent.toDevice| == |w.toDevice| + 1 && sent.toDevice[..|w.toDevice|] == w.toDevice
                  && sent.toDevice[|w.toDevice|].src == net.host
                  && sent.toDevice[|w.toDevice|].call == Some(|w.calls|)
                  && Decode(sent.toDevice[|w.toDevice|].bytes) == Ok(Frame(3, 0, seqNo, xid, payload)))
  {
    var sent := Next(net, w, CallTool(random, seqNo, payload));
    NextIsConsistent(net, start, w, CallTool(random, seqNo, payload));
    assert sent.counter == Counter.Draw(sent.randoms, |w.randoms|);
    if |payload| <= MAX_JSON_LEN {
      var frame := Frame(TOOL_CALL, 0, seqNo, sent.counter, payload);
      DecodeIff(Encode(frame), frame);
    }
  }

  // Requests of other kinds use up xids in between.
  lemma CallAfterDraw<S>(net: Stations, start: S, w: World<S>, other: u32, random: u32, seqNo: u16, payload: CText)
    requires Consistent(net, start, w)
    ensures var drawn := Next(net, w, DrawXid(other));
            && Consistent(net, start, drawn)
            && Next(net, drawn, CallTool(random, seqNo, payload)).calls
               == w.calls + [Call(|w.randoms| + 1, Counter.Draw(w.randoms + [other] + [random], |w.randoms| + 1),
                                  payload)]
  {
    NextIsConsistent(net, start, w, DrawXid(other));
    CallIsSent(net, start, Next(net, w, DrawXid(other)), random, seqNo, payload);
  }

  // So once that frame is delivered the call has arrived, as a copy of itself.
  lemma CallArrives<S>(net: Stations, start: S, w: World<S>, random: u32, seqNo: u16, payload: CText,
                       at: int, done: int, pick: u32, answerSeq: u16)
    requires Consistent(net, start, w) && |payload| <= 1458
    ensures var xid := Counter.Draw(w.randoms + [random], |w.randoms|);
            var sent := Next(net, w, CallTool(random, seqNo, payload));
            && Consistent(net, start, sent)
            && var after := Next(net, sent, DeliverToDevice(|w.toDevice|, at, done, pick, answerSeq));
            && Consistent(net, start, after)
            && after.calls == w.calls + [Call(|w.randoms|, xid, payload)]
            && after.run.calls == w.run.calls + [Arrival(net.host, xid, payload, at, done, pick)]
            && after.sources == w.sources + [Some(|w.calls|)]
  {
    var sent := Next(net, w, CallTool(random, seqNo, payload));
    CallIsSent(net, start, w, random, seqNo, payload);
    DeliveryIsHandled(net, start, sent, |w.toDevice|, at, done, pick, answerSeq);
  }

  // Whatever becomes of a tool call from the host, one frame is sent back.
  lemma AnswerIsSent<S>(net: Stations, start: S, w: World<S>, j: nat, at: int, done: int, pick: u32, seqNo: u16)
    requires Consistent(net, start, w) && j < |w.toDevice| && w.toDevice[j].src == net.host
    requires Decode(w.toDevice[j].bytes).Ok? && Decode(w.toDevice[j].bytes).value.kind == 3
    ensures var n := |w.run.calls|;
            var after := Next(net, w, DeliverToDevice(j, at, done, pick, seqNo));
            && Consistent(net, start, after) && |after.run.results| == n + 1
            && |after.toHost| == |w.toHost| + 1 && after.toHost[..|w.toHost|] == w.toHost
            && after.toHost[|w.toHost|].src == net.device && after.toHost[|w.toHost|].arrival == Some(n)
            && Decode(after.toHost[|w.toHost|].bytes)
               == Ok(Answer(Decode(w.toDevice[j].bytes).value.xid, after.run.results[n], seqNo))
  {
    var n, f := |w.run.calls|, Decode(w.toDevice[j].bytes).value;
    var after := Next(net, w, DeliverToDevice(j, at, done, pick, seqNo));
    NextIsConsistent(net, start, w, DeliverToDevice(j, at, done, pick, seqNo));
    assert |after.run.results| == n + 1;
    if after.run.results[n].HasReply() {
      ReplySize(after.run, start, n);
    }
    var answer := Answer(f.xid, after.run.results[n], seqNo);
    AnswerArrives(f.xid, after.run.results[n], seqNo, []);
    assert Encode(answer) + [] == Encode(answer);
  }

  // The host's one new event is the device's outcome o of arrival n.
  predicate Reported(net: Stations, before: seq<Event>, after: seq<Event>, xid: u16, o: Outcome, n: nat) {
    after == before + [if o.HasReply() then Event(net.device, ToolResult, xid, o.reply, Some(n))
                       else Event(net.device, ErrorEvent, xid, ErrorText(o), Some(n))]
  }

  // And once that is delivered the host reports it: as a result if there is a
  // reply, and as an error otherwise.
  lemma AnswerIsReported<S>(net: Stations, w: World<S>, j: nat, xid: u16, o: Outcome, seqNo: u16, n: nat)
    requires |w.run.states| == |w.run.calls| + 1 && |w.run.states[|w.run.calls|].slots| == CACHE_MAX
    requires j < |w.toHost| && Decode(w.toHost[j].bytes) == Ok(Answer(xid, o, seqNo))
    requires w.toHost[j].src == net.device && w.toHost[j].arrival == Some(n)
    ensures var after := Next(net, w, DeliverToHost(j));
            after.run == w.run && Reported(net, w.events, after.events, xid, o, n)
  {
    AnswerAsEvent(xid, o, seqNo);
    FrameIsReported(net, w, j, Answer(xid, o, seqNo));
  }

  lemma AnswerAsEvent(xid: u16, o: Outcome, seqNo: u16)
    ensures var f := Answer(xid, o, seqNo);
            && MapEventType(f) == (if o.HasReply() then ToolResult else ErrorEvent) && f.xid == xid
            && f.payload == if o.HasReply() then o.reply else ErrorText(o)
  {
  }

  // Any frame that decodes is reported as one event, under its source and xid.
  lemma FrameIsReported<S>(net: Stations, w: World<S>, j: nat, f: Frame)
    requires |w.run.states| == |w.run.calls| + 1 && |w.run.states[|w.run.calls|].slots| == CACHE_MAX
    requires j < |w.toHost| && Decode(w.toHost[j].bytes) == Ok(f)
    ensures var after := Next(net, w, DeliverToHost(j));
            && after.run == w.run
            && after.events
               == w.events + [Event(w.toHost[j].src, MapEventType(f), f.xid, f.payload, w.toHost[j].arrival)]
  {
  }

  // ---------------------------------------------------------------------
  // What the caller has to grant

  // A copy of a call never arrives more than TTL after its execution.
  ghost predicate CopiesInTime<S>(w: World<S>)
    requires |w.sources| == |w.run.calls| == |w.run.results|
  {
    forall m, n | 0 <= m < n < |w.run.calls| && w.run.Stores(m) && w.sources[m].Some? && w.sources[n] == w.sources[m] ::
      w.run.calls[n].at <= w.run.calls[m].done + TTL
  }

  // While the reply to one call is cached, only calls that are fewer than 65535
  // xid draws away from it arrive.
  ghost predicate XidsFresh<S>(w: World<S>)
    requires |w.sources| == |w.run.calls| == |w.run.results|
    requires forall n | 0 <= n < |w.sources| && w.sources[n].Some? :: w.sources[n].value < |w.calls|
  {
    forall m, n | 0 <= m < n < |w.run.calls| && w.run.Stores(m) && w.sources[m].Some? && w.sources[n].Some?
                  && w.run.calls[n].at <= w.run.calls[m].done + TTL ::
      Near(w, w.sources[m].value, w.sources[n].value)
  }

  ghost predicate Near<S>(w: World<S>, c: nat, d: nat)
    requires c < |w.calls| && d < |w.calls|
  {
    -Counter.PERIOD < w.calls[c].draw - w.calls[d].draw < Counter.PERIOD
  }

  // ---------------------------------------------------------------------
  // The guarantees

  // Nearby calls with the same xid are the same call.
  lemma XidNamesCall<S>(w: World<S>, c: nat, d: nat)
    requires HostOk(w) && c < |w.calls| && d < |w.calls| && Near(w, c, d)
    ensures w.calls[c].xid == w.calls[d].xid <==> c == d
  {
    Counter.DrawsEqualIff(w.randoms, w.calls[c].draw, w.calls[d].draw);
  }

  ghost predicate Copy<S>(w: World<S>, n: nat, c: nat)
  {
    n < |w.sources| && w.sources[n] == Some(c)
  }

  // Copies of one call carry the same key, and so do only they.
  lemma CopiesShareKey<S>(net: Stations, start: S, w: World<S>, m: nat, n: nat)
    requires Consistent(net, start, w) && m < |w.run.calls| && n < |w.run.calls| && w.sources[n].Some?
    ensures w.sources[m] == w.sources[n] ==> w.run.SameKey(m, n)
    ensures w.run.SameKey(m, n) ==>
              w.sources[m].Some? && w.calls[w.sources[m].value].xid == w.calls[w.sources[n].value].xid
  {
    assert ArrivalOk(net, w.calls, w.run.calls[m], w.sources[m]);
    assert ArrivalOk(net, w.calls, w.run.calls[n], w.sources[n]);
  }

  // No call of the host is executed twice, whatever the network does with it.
  lemma AtMostOnceExecution<S>(net: Stations, start: S, w: World<S>, c: nat, m: nat, n: nat)
    requires Consistent(net, start, w) && w.run.Ordered() && w.run.RateBounded() && CopiesInTime(w)
    requires m < |w.run.calls| && n < |w.run.calls| && w.run.Stores(m) && w.run.Stores(n)
    requires Copy(w, m, c) && Copy(w, n, c)
    ensures m == n
  {
    if m < n {
      CopiesShareKey(net, start, w, m, n);
      RepeatedExecutionIsLate(w.run, start, m, n);
    } else if n < m {
      CopiesShareKey(net, start, w, n, m);
      RepeatedExecutionIsLate(w.run, start, n, m);
    }
  }

  // A call is only ever answered from the cache with the reply of its own
  // execution: a first copy always reaches the tools.
  lemma NoFalseHit<S>(net: Stations, start: S, w: World<S>, c: nat, n: nat) returns (m: nat)
    requires Consistent(net, start, w) && XidsFresh(w)
    requires n < |w.run.calls| && w.run.results[n].Replayed? && Copy(w, n, c)
    ensures m < n && Copy(w, m, c) && w.run.Stores(m) && w.run.results[m].reply == w.run.results[n].reply
  {
    m := ReplayOrigin(w.run, start, n);
    CopiesShareKey(net, start, w, m, n);
    assert Near(w, w.sources[m].value, c);
    XidNamesCall(w, w.sources[m].value, c);
  }

  // In a boot of at most 65535 draws all xids are fresh.
  lemma FewDrawsAreFresh<S>(net: Stations, start: S, w: World<S>)
    requires Consistent(net, start, w) && |w.randoms| <= Counter.PERIOD
    ensures forall n | 0 <= n < |w.sources| && w.sources[n].Some? :: w.sources[n].value < |w.calls|
    ensures XidsFresh(w)
  {
    assert forall n | 0 <= n < |w.run.calls| :: ArrivalOk(net, w.calls, w.run.calls[n], w.sources[n]);
    assert forall c | 0 <= c < |w.calls| :: w.calls[c].draw < |w.randoms|;
  }

  // Freshness is needed, and nothing weaker will do: a call that arrives while
  // the reply to another one is cached shares its key exactly when their draws
  // are a multiple of 65535 apart, and is then given that reply.
  lemma StaleXidIsReplayed<S>(net: Stations, start: S, w: World<S>, c: nat, d: nat, m: nat, n: nat)
    requires Consistent(net, start, w) && w.run.Ordered() && w.run.RateBounded()
    requires m < n < |w.run.calls| && w.run.Stores(m) && w.run.calls[n].at <= w.run.calls[m].done + TTL
    requires Copy(w, m, c) && Copy(w, n, d)
    ensures c < |w.calls| && d < |w.calls|
    ensures w.run.SameKey(m, n) <==> (w.calls[c].draw - w.calls[d].draw) % Counter.PERIOD == 0
    ensures w.run.SameKey(m, n) ==> w.run.results[n] == Replayed(w.run.results[m].reply)
  {
    assert ArrivalOk(net, w.calls, w.run.calls[m], w.sources[m]);
    assert ArrivalOk(net, w.calls, w.run.calls[n], w.sources[n]);
    SameXidIff(w, c, d);
    if w.run.SameKey(m, n) {
      ReplayedInTime(w.run, start, m, n);
    }
  }

  lemma SameXidIff<S>(w: World<S>, c: nat, d: nat)
    requires HostOk(w) && c < |w.calls| && d < |w.calls|
    ensures w.calls[c].xid == w.calls[d].xid <==> (w.calls[c].draw - w.calls[d].draw) % Counter.PERIOD == 0
  {
    Counter.DrawsEqualIff(w.randoms, w.calls[c].draw, w.calls[d].draw);
  }

  // Event e answers a copy of call c, and carries the reply of its execution at arrival m.
  ghost predicate Reports<S>(w: World<S>, e: nat, c: nat, m: nat)
    requires e < |w.events| && c < |w.calls| && m < |w.run.results|
  {
    && w.events[e].arrival.Some? && Copy(w, w.events[e].arrival.value, c)
    && Copy(w, m, c) && w.run.Stores(m)
    && w.events[e].xid == w.calls[c].xid && w.events[e].json == w.run.results[m].reply
  }

  lemma ResultReportsExecution<S>(net: Stations, start: S, w: World<S>, e: nat) returns (c: nat, m: nat)
    requires Consistent(net, start, w) && XidsFresh(w)
    requires e < |w.events| && w.events[e].kind == ToolResult && w.events[e].src == net.device
    ensures c < |w.calls| && m < |w.run.calls| && Reports(w, e, c, m)
  {
    assert EventOk(net, w.run, w.sources, w.events[e]);
    m := w.events[e].arrival.value;
    assert ArrivalOk(net, w.calls, w.run.calls[m], w.sources[m]);
    c := w.sources[m].value;
    if w.run.results[m].Replayed? {
      m := NoFalseHit(net, start, w, c, m);
    }
  }

  // The host reports what it hears from other stations in the same way; its
  // events tell them apart by the source only.
  lemma OtherStationsAreHeard<S>(net: Stations, start: S, w: World<S>, src: Mac, seqNo: u16, xid: u16, json: CText)
    requires Consistent(net, start, w) && src != net.device && |json| <= MAX_JSON_LEN
    ensures var frame := Frame(TOOL_CALL, 0, seqNo, xid, json);
            var sent := Next(net, w, SendToHost(src, Encode(frame)));
            && |sent.run.states| == |sent.run.calls| + 1 && |sent.run.states[|sent.run.calls|].slots| == CACHE_MAX
            && Next(net, sent, DeliverToHost(|w.toHost|)).events
               == w.events + [Event(src, ToolResult, xid, json, None)]
  {
    var frame := Frame(TOOL_CALL, 0, seqNo, xid, json);
    DecodeIff(Encode(frame), frame);
    assert MapEventType(frame) == ToolResult;
  }

  // End to end, for every history of actions: no call is executed twice, every
  // TOOL_RESULT event from the device answers a copy of a call and carries the
  // reply of the one execution of that call, whose xid it has, and among calls
  // fewer than 65535 draws away that call is the only one with that xid.
  lemma EndToEnd<S>(net: Stations, cfg: Config<S>, start: S, actions: seq<Action>)
    requires var w := Reach(net, cfg, start, actions);
             w.run.Ordered() && w.run.RateBounded() && CopiesInTime(w) && XidsFresh(w)
    ensures var w := Reach(net, cfg, start, actions);
            forall c, m, n | 0 <= m < |w.run.calls| && 0 <= n < |w.run.calls| && w.run.Stores(m) && w.run.Stores(n)
                             && Copy(w, m, c) && Copy(w, n, c) :: m == n
    ensures var w := Reach(net, cfg, start, actions);
            forall e | 0 <= e < |w.events| && w.events[e].kind == ToolResult && w.events[e].src == net.device ::
              exists c, m | 0 <= c < |w.calls| && 0 <= m < |w.run.calls| :: Reports(w, e, c, m)
    ensures var w := Reach(net, cfg, start, actions);
            forall c, d | 0 <= c < |w.calls| && 0 <= d < |w.calls| && Near(w, c, d) ::
              w.calls[c].xid == w.calls[d].xid ==> c == d
  {
    var w := Reach(net, cfg, start, actions);
    forall c, m, n | 0 <= m < |w.run.calls| && 0 <= n < |w.run.calls| && w.run.Stores(m) && w.run.Stores(n)
                     && Copy(w, m, c) && Copy(w, n, c)
      ensures m == n
    {
      AtMostOnceExecution(net, start, w, c, m, n);
    }
    forall e | 0 <= e < |w.events| && w.events[e].kind == ToolResult && w.events[e].src == net.device
      ensures exists c, m | 0 <= c < |w.calls| && 0 <= m < |w.run.calls| :: Reports(w, e, c, m)
    {
      var c, m := ResultReportsExecution(net, start, w, e);
    }
    forall c, d | 0 <= c < |w.calls| && 0 <= d < |w.calls| && Near(w, c, d)
      ensures w.calls[c].xid == w.calls[d].xid ==> c == d
    {
      XidNamesCall(w, c, d);
    }
  }

  // ---------------------------------------------------------------------
  // What this means for the tool

  // Every call the device handled was one of the host's.
  ghost predicate HostOnly<S>(w: World<S>) {
    forall n | 0 <= n < |w.sources| :: w.sources[n].Some?
  }

  // In a boot of at most 65535 draws, arrivals with one key are copies of one call.
  lemma KeyNamesCall<S>(net: Stations, start: S, w: World<S>, m: nat, n: nat)
    requires Consistent(net, start, w) && HostOnly(w) && |w.randoms| <= Counter.PERIOD
    requires m < |w.run.calls| && n < |w.run.calls|
    ensures w.run.SameKey(m, n) <==> w.sources[m] == w.sources[n]
    ensures w.run.SameKey(m, n) ==> w.run.calls[m].payload == w.run.calls[n].payload
  {
    CopiesShareKey(net, start, w, m, n);
    assert ArrivalOk(net, w.calls, w.run.calls[m], w.sources[m]);
    assert ArrivalOk(net, w.calls, w.run.calls[n], w.sources[n]);
    XidNamesCall(w, w.sources[m].value, w.sources[n].value);
  }

  // So what the network is asked for is all that the theorems about the device ask for.
  lemma NetworkIsTimely<S>(net: Stations, start: S, w: World<S>)
    requires Consistent(net, start, w) && HostOnly(w) && |w.randoms| <= Counter.PERIOD
    ensures w.run.Timely() <==> CopiesInTime(w)
    ensures CopiesAgree(w.run.calls)
  {
    forall m, n | 0 <= m < n < |w.run.calls|
      ensures w.run.SameKey(m, n) <==> w.sources[m] == w.sources[n]
      ensures w.run.SameKey(m, n) ==> w.run.calls[m].payload == w.run.calls[n].payload
    {
      KeyNamesCall(net, start, w, m, n);
    }
  }

  // The host's calls that got through, in the order of their first copies.
  ghost function Arrived(sources: seq<Option<nat>>): seq<nat> {
    if sources == [] then []
    else
      var last := |sources| - 1;
      var before := Arrived(sources[..last]);
      if sources[last].None? || sources[last] in sources[..last] then before else before + [sources[last].value]
  }

  lemma {:induction false} ArrivedOnce(sources: seq<Option<nat>>)
    ensures forall c: nat :: c in Arrived(sources) <==> Some(c) in sources
    ensures forall i, j | 0 <= i < j < |Arrived(sources)| :: Arrived(sources)[i] != Arrived(sources)[j]
  {
    if sources != [] {
      var last := |sources| - 1;
      ArrivedOnce(sources[..last]);
      assert sources == sources[..last] + [sources[last]];
    }
  }

  // The payloads that take effect among the first n arrivals: a call of the
  // host with its first copy, and anything from another station that is not
  // answered from the cache.
  ghost function Heeded<S>(w: World<S>, n: nat): seq<seq<byte>>
    requires n <= |w.run.calls| == |w.run.results| == |w.sources|
  {
    if n == 0 then []
    else if Ignored(w, n - 1) then Heeded(w, n - 1)
    else Heeded(w, n - 1) + [w.run.calls[n - 1].payload]
  }

  ghost predicate Ignored<S>(w: World<S>, n: nat)
    requires n < |w.run.calls| == |w.run.results| == |w.sources|
  {
    if w.sources[n].Some? then w.sources[n] in w.sources[..n] else w.run.results[n].Replayed?
  }

  // For any tool whose handlers do not fail, however long the host has run:
  // the tool ends as if each call of the host that got through had been
  // delivered once.
  lemma ToolHeedsEachCallOnce<S>(net: Stations, start: S, w: World<S>, n: nat)
    requires Consistent(net, start, w) && w.run.Ordered() && w.run.RateBounded() && CopiesInTime(w) && XidsFresh(w)
    requires forall l | 0 <= l < |w.run.calls| && w.sources[l].Some? :: !w.run.results[l].Failed?
    requires n <= |w.run.calls|
    ensures w.run.states[n].tool == Effect(w.run.cfg, start, Heeded(w, n))
  {
    forall l | 0 <= l < |w.run.calls|
      ensures HeedsOrIdles(w, l)
    {
      HeededOrIdle(net, start, w, l);
    }
    EffectOfHeeded(start, w, n);
  }

  ghost predicate HeedsOrIdles<S>(w: World<S>, n: nat)
    requires n < |w.run.calls| == |w.run.results| == |w.sources| && |w.run.states| == |w.run.calls| + 1
  {
    w.run.states[n + 1].tool
    == if Ignored(w, n) then w.run.states[n].tool
       else Perform(w.run.cfg, w.run.states[n].tool, w.run.calls[n].payload).0
  }

  lemma {:induction false} EffectOfHeeded<S>(start: S, w: World<S>, n: nat)
    requires n <= |w.run.calls| == |w.run.results| == |w.sources| && |w.run.states| == |w.run.calls| + 1
    requires w.run.states[0].tool == start && forall l | 0 <= l < |w.run.calls| :: HeedsOrIdles(w, l)
    ensures w.run.states[n].tool == Effect(w.run.cfg, start, Heeded(w, n))
  {
    if n > 0 {
      EffectOfHeeded(start, w, n - 1);
      assert HeedsOrIdles(w, n - 1);
      EffectOfOneMore(w.run.cfg, start, Heeded(w, n - 1), w.run.calls[n - 1].payload);
    }
  }

  lemma HeededOrIdle<S>(net: Stations, start: S, w: World<S>, n: nat)
    requires Consistent(net, start, w) && w.run.Ordered() && w.run.RateBounded() && CopiesInTime(w) && XidsFresh(w)
    requires forall l | 0 <= l < |w.run.calls| && w.sources[l].Some? :: !w.run.results[l].Failed?
    requires n < |w.run.calls|
    ensures HeedsOrIdles(w, n)
  {
    CallOnTool(w.run, start, n);
    if w.sources[n].Some? {
      if Ignored(w, n) {
        CopyIsIdle(net, start, w, n);
      } else if w.run.results[n].Replayed? {
        var m := NoFalseHit(net, start, w, w.sources[n].value, n);
      }
    }
  }

  // What handling a call does to the tool.
  lemma CallOnTool<S>(r: Run<S>, start: S, n: nat)
    requires r.Valid(start) && n < |r.calls|
    ensures if r.results[n].Replayed? then r.states[n + 1].tool == r.states[n].tool
            else (r.states[n + 1].tool, r.results[n]) == Perform(r.cfg, r.states[n].tool, r.calls[n].payload)
  {
    assert r.StepAt(n);
  }

  // Whether a request is refused does not depend on the tool's state, and a
  // refused request leaves it alone.
  lemma RefusedAgain<S>(cfg: Config<S>, tool: S, later: S, payload: seq<byte>)
    requires Perform(cfg, tool, payload).1.Rejected?
    ensures Perform(cfg, later, payload).0 == later
  {
  }

  // A copy of a call that succeeded before is answered from the cache.
  lemma CopyIsReplayed<S>(net: Stations, start: S, w: World<S>, m: nat, n: nat)
    requires Consistent(net, start, w) && w.run.Ordered() && w.run.RateBounded() && CopiesInTime(w)
    requires m < n < |w.run.calls| && w.sources[n].Some? && w.sources[m] == w.sources[n] && w.run.Stores(m)
    ensures w.run.results[n].Replayed?
  {
    CopiesShareKey(net, start, w, m, n);
    ReplayedInTime(w.run, start, m, n);
  }

  // A copy of any call that arrived before changes nothing.
  lemma CopyIsIdle<S>(net: Stations, start: S, w: World<S>, n: nat)
    requires Consistent(net, start, w) && w.run.Ordered() && w.run.RateBounded() && CopiesInTime(w) && XidsFresh(w)
    requires forall l | 0 <= l < |w.run.calls| && w.sources[l].Some? :: !w.run.results[l].Failed?
    requires n < |w.run.calls| && w.sources[n].Some? && w.sources[n] in w.sources[..n]
    ensures w.run.states[n + 1].tool == w.run.states[n].tool
  {
    var m :| 0 <= m < n && w.sources[m] == w.sources[n];
    CallOnTool(w.run, start, m);
    CallOnTool(w.run, start, n);
    if w.run.results[m].Rejected? {
      assert ArrivalOk(net, w.calls, w.run.calls[m], w.sources[m]);
      assert ArrivalOk(net, w.calls, w.run.calls[n], w.sources[n]);
      RefusedAgain(w.run.cfg, w.run.states[m].tool, w.run.states[n].tool, w.run.calls[n].payload);
    } else {
      var l := m;
      if w.run.results[m].Replayed? {
        l := NoFalseHit(net, start, w, w.sources[n].value, m);
      }
      CopyIsReplayed(net, start, w, l, n);
    }
  }

  // The first copy of a call is performed.
  lemma FirstCopyIsPerformed<S>(net: Stations, start: S, w: World<S>, n: nat)
    requires Consistent(net, start, w) && XidsFresh(w)
    requires n < |w.run.calls| && w.sources[n].Some? && w.sources[n] !in w.sources[..n]
    ensures w.sources[n].value < |w.calls|
    ensures (w.run.states[n + 1].tool, w.run.results[n])
            == Perform(w.run.cfg, w.run.states[n].tool, w.calls[w.sources[n].value].payload)
  {
    assert ArrivalOk(net, w.calls, w.run.calls[n], w.sources[n]);
    CallOnTool(w.run, start, n);
    if w.run.results[n].Replayed? {
      var m := NoFalseHit(net, start, w, w.sources[n].value, n);
    }
  }

  // A call of the host, delivered and answered, is reported.
  lemma CallIsReported<S>(net: Stations, start: S, w: World<S>, j: nat, at: int, done: int, pick: u32, seqNo: u16)
    requires Consistent(net, start, w) && j < |w.toDevice| && w.toDevice[j].src == net.host
    requires Decode(w.toDevice[j].bytes).Ok? && Decode(w.toDevice[j].bytes).value.kind == 3
    ensures var xid, n := Decode(w.toDevice[j].bytes).value.xid, |w.run.calls|;
            var heard := Next(net, w, DeliverToDevice(j, at, done, pick, seqNo));
            && Consistent(net, start, heard) && |heard.run.results| == n + 1
            && var told := Next(net, heard, DeliverToHost(|w.toHost|));
            told.run == heard.run && Reported(net, w.events, told.events, xid, heard.run.results[n], n)
  {
    var xid, n := Decode(w.toDevice[j].bytes).value.xid, |w.run.calls|;
    var heard := Next(net, w, DeliverToDevice(j, at, done, pick, seqNo));
    AnswerIsSent(net, start, w, j, at, done, pick, seqNo);
    DeliveryIsHandled(net, start, w, j, at, done, pick, seqNo);
    AnswerIsReported(net, heard, |w.toHost|, xid, heard.run.results[n], seqNo, n);
  }

  // If no copy of it had arrived, its outcome is that of the request on the tool
  // as it then was.
  lemma NewCallIsPerformed<S>(net: Stations, start: S, w: World<S>, j: nat, c: nat, payload: seq<byte>,
                              at: int, done: int, pick: u32, seqNo: u16)
    requires Consistent(net, start, w) && j < |w.toDevice| && Some(c) !in w.sources && w.toDevice[j].call == Some(c)
    requires Decode(w.toDevice[j].bytes).Ok? && Decode(w.toDevice[j].bytes).value.kind == 3
    requires Decode(w.toDevice[j].bytes).value.payload == payload
    requires var heard := Next(net, w, DeliverToDevice(j, at, done, pick, seqNo));
             Consistent(net, start, heard) && XidsFresh(heard)
    ensures var n := |w.run.calls|;
            var heard := Next(net, w, DeliverToDevice(j, at, done, pick, seqNo));
            && |heard.run.states| == n + 2 && |heard.run.results| == n + 1
            && (heard.run.states[n + 1].tool, heard.run.results[n])
               == Perform(w.run.cfg, w.run.states[n].tool, payload)
  {
    var n, heard := |w.run.calls|, Next(net, w, DeliverToDevice(j, at, done, pick, seqNo));
    DeliveryIsHandled(net, start, w, j, at, done, pick, seqNo);
    assert heard.sources[..n] == w.sources && heard.run.calls[n].payload == payload;
    assert ArrivalOk(net, heard.calls, heard.run.calls[n], heard.sources[n]);
    FirstCopyIsPerformed(net, start, heard, n);
    EarlierStates(net, start, w, j, at, done, pick, seqNo);
    assert heard.run.states[n] == heard.run.states[..n + 1][n];
  }

  // From end to end: a call that is sent, delivered, answered and delivered back
  // is one more event, from the device, under the xid drawn for the call, and
  // tells what the request did to the tool.
  lemma CallIsAnswered<S>(net: Stations, start: S, w: World<S>, random: u32, seqNo: u16, payload: CText,
                          at: int, done: int, pick: u32, answerSeq: u16)
    requires Consistent(net, start, w) && |payload| <= 1458
    ensures var xid, n := Counter.Draw(w.randoms + [random], |w.randoms|), |w.run.calls|;
            var sent := Next(net, w, CallTool(random, seqNo, payload));
            && Consistent(net, start, sent)
            && var heard := Next(net, sent, DeliverToDevice(|w.toDevice|, at, done, pick, answerSeq));
            && Consistent(net, start, heard) && |heard.run.results| == n + 1 && Copy(heard, n, |w.calls|)
            && var told := Next(net, heard, DeliverToHost(|w.toHost|));
            && told.run == heard.run && Reported(net, w.events, told.events, xid, heard.run.results[n], n)
            && (XidsFresh(heard) ==>
                  (heard.run.states[n + 1].tool, heard.run.results[n])
                  == Perform(w.run.cfg, w.run.states[n].tool, payload))
  {
    var sent := Next(net, w, CallTool(random, seqNo, payload));
    CallIsSent(net, start, w, random, seqNo, payload);
    NewCallIsFirst(net, start, w);
    DeliveryIsHandled(net, start, sent, |w.toDevice|, at, done, pick, answerSeq);
    CallIsReported(net, start, sent, |w.toDevice|, at, done, pick, answerSeq);
    if XidsFresh(Next(net, sent, DeliverToDevice(|w.toDevice|, at, done, pick, answerSeq))) {
      NewCallIsPerformed(net, start, sent, |w.toDevice|, |w.calls|, payload, at, done, pick, answerSeq);
    }
  }

  lemma NewCallIsFirst<S>(net: Stations, start: S, w: World<S>)
    requires Consistent(net, start, w)
    ensures Some(|w.calls|) !in w.sources
  {
    assert forall n | 0 <= n < |w.run.calls| :: ArrivalOk(net, w.calls, w.run.calls[n], w.sources[n]);
  }

  // Handling a call does not change what went before.
  lemma EarlierStates<S>(net: Stations, start: S, w: World<S>, j: nat, at: int, done: int, pick: u32, seqNo: u16)
    requires Consistent(net, start, w)
    ensures var after := Next(net, w, DeliverToDevice(j, at, done, pick, seqNo));
            && after.run.cfg == w.run.cfg && |after.run.states| >= |w.run.states|
            && after.run.states[..|w.run.states|] == w.run.states
  {
  }

  ghost function CallPayloads(calls: seq<Call>, order: seq<nat>): (r: seq<seq<byte>>)
    ensures |r| == |order|
  {
    seq(|order|, i requires 0 <= i < |order| => if order[i] < |calls| then calls[order[i]].payload else [])
  }

  // With no other stations about, those are the payloads of the calls that arrived.
  lemma {:induction false} HeededCallsArrived<S>(net: Stations, start: S, w: World<S>, n: nat)
    requires Consistent(net, start, w) && HostOnly(w) && n <= |w.run.calls|
    ensures Heeded(w, n) == CallPayloads(w.calls, Arrived(w.sources[..n]))
  {
    if n > 0 {
      var l := n - 1;
      HeededCallsArrived(net, start, w, l);
      ArrivedOneMore(w.sources, l);
      assert ArrivalOk(net, w.calls, w.run.calls[l], w.sources[l]);
      if !Ignored(w, l) {
        PayloadsOneMore(w.calls, Arrived(w.sources[..l]), w.sources[l].value);
      }
    }
  }

  lemma ArrivedOneMore(sources: seq<Option<nat>>, n: nat)
    requires n < |sources| && sources[n].Some?
    ensures Arrived(sources[..n + 1])
            == if sources[n] in sources[..n] then Arrived(sources[..n]) else Arrived(sources[..n]) + [sources[n].value]
  {
    assert sources[..n + 1][..n] == sources[..n];
  }

  lemma PayloadsOneMore(calls: seq<Call>, order: seq<nat>, c: nat)
    requires c < |calls|
    ensures CallPayloads(calls, order + [c]) == CallPayloads(calls, order) + [calls[c].payload]
  {
  }
}
