// The device side of a tool call: look the request up in the duplicate cache,
// otherwise run the tool's handler and remember what it replied.
module Device {
  import opened Types
  import opened Frame
  import opened DuplicateCache

  // What a handler leaves in its 1459-byte response buffer.
  type ReplyText = s: CText | |s| <= MAX_JSON_LEN

  // A handler is a transition of the tool's own state; None is any result but ESP_OK.
  datatype HandlerResult<S> = HandlerResult(state: S, reply: Option<ReplyText>)

  datatype Tool<!S> = Tool(name: Option<CText>, handler: Option<(S, CText) -> HandlerResult<S>>)

  // The two members of a parsed request that a tool call uses.
  datatype Request = Request(name: Option<CText>, arguments: Option<CText>)

  // `parse` stands for the JSON parser; None is malformed text.
  datatype Config<!S> = Config(tools: seq<Tool<S>>, cacheSize: byte, parse: seq<byte> -> Option<Request>)
  {
    function Size(): (r: nat)
      ensures 1 <= r <= CACHE_MAX
    {
      CacheSize(cacheSize)
    }
  }

  // One tool call as the receive task hands it over: looked up at time `at`,
  // answered by time `done`; `pick` is the random number a full cache would use.
  datatype Arrival = Arrival(src: Mac, xid: u16, payload: seq<byte>, at: int, done: int, pick: u32)
  {
    function CallKey(): Key {
      Key(src, TOOL_CALL, xid)
    }
  }

  datatype Rejection = BadJson | ToolNotFound

  datatype Outcome =
    | Replayed(reply: CText)      // answered from the cache
    | Executed(reply: CText)      // the handler succeeded; the reply was stored
    | Failed                      // the handler ran and failed; nothing was stored
    | Rejected(why: Rejection)    // no handler ran
  {
    predicate HasReply() {
      Replayed? || Executed?
    }

    predicate RanHandler() {
      Executed? || Failed?
    }
  }

  datatype State<S> = State(slots: seq<Slot>, tool: S)

  function OkResult(): (r: ReplyText)
    ensures r != []
  {
    Ascii("{\"content\":[{\"type\":\"text\",\"text\":\"ok\"}],\"isError\":false}")
  }

  function ErrorText(o: Outcome): (r: ReplyText)
    requires !o.HasReply()
  {
    match o
    case Failed => Ascii("{\"error\":{\"code\":\"toolError\",\"message\":\"tool handler failed\"}}")
    case Rejected(BadJson) => Ascii("{\"error\":{\"code\":\"badJson\",\"message\":\"invalid tool call JSON\"}}")
    case Rejected(ToolNotFound) => Ascii("{\"error\":{\"code\":\"toolNotFound\",\"message\":\"tool not found\"}}")
  }

  // The frame that answers a call.
  function Answer(xid: u16, o: Outcome, seqNo: u16): Frame {
    if o.HasReply() then Frame(TOOL_CALL, 0, seqNo, xid, o.reply)
    else Frame(TOOL_CALL, FLAG_ERR, seqNo, xid, ErrorText(o))
  }

  function ParsePayload<S>(cfg: Config<S>, payload: seq<byte>): Option<Request> {
    if payload == [] then Some(Request(None, None)) else cfg.parse(payload)
  }

  // Index of the first tool of that name, or the number of tools.
  function ToolIndex<S>(tools: seq<Tool<S>>, name: Option<CText>): (r: nat)
    ensures r <= |tools|
    ensures name.Some? ==> forall i | 0 <= i < r :: tools[i].name != name
    ensures r < |tools| ==> name.Some? && tools[r].name == name
  {
    if tools == [] || name.None? then |tools|
    else if tools[0].name == name then 0
    else 1 + ToolIndex(tools[1..], name)
  }

  // What a request asks for: the index of a runnable tool and its arguments.
  function Resolve<S>(cfg: Config<S>, payload: seq<byte>): (r: Result<(nat, CText), Rejection>)
    ensures r.Ok? ==> r.value.0 < |cfg.tools| && cfg.tools[r.value.0].handler.Some?
  {
    match ParsePayload(cfg, payload)
    case None => Err(BadJson)
    case Some(request) =>
      var i := ToolIndex(cfg.tools, request.name);
      if i == |cfg.tools| || cfg.tools[i].handler.None? then Err(ToolNotFound)
      else Ok((i, if request.arguments.Some? then request.arguments.value else Ascii("{}")))
  }

  // The effect of running the request against a tool state, cache aside.
  function Perform<S>(cfg: Config<S>, tool: S, payload: seq<byte>): (r: (S, Outcome))
    ensures !r.1.Replayed?
    ensures r.1.Executed? ==> 0 < |r.1.reply| <= MAX_JSON_LEN
  {
    match Resolve(cfg, payload)
    case Err(why) => (tool, Rejected(why))
    case Ok((i, args)) =>
      var h := cfg.tools[i].handler.value(tool, args);
      if h.reply.None? then (h.state, Failed)
      else (h.state, Executed(if h.reply.value == [] then OkResult() else h.reply.value))
  }

  function Step<S>(cfg: Config<S>, d: State<S>, a: Arrival): (r: (State<S>, Outcome))
    requires |d.slots| == CACHE_MAX
    ensures |r.0.slots| == CACHE_MAX
  {
    var hit := FirstHit(d.slots, cfg.Size(), a.CallKey(), a.at);
    var swept := Sweep(d.slots, hit, a.at);
    if hit < cfg.Size() then
      (State(swept, d.tool), Replayed(d.slots[hit].reply))
    else
      var (tool, outcome) := Perform(cfg, d.tool, a.payload);
      if outcome.Executed? then
        (State(Stored(swept, cfg.Size(), a.CallKey(), outcome.reply, a.done, a.pick), tool), outcome)
      else
        (State(swept, tool), outcome)
  }

  class Device<S> {
    const cfg: Config<S>
    const cache: Cache
    var tool: S

    ghost predicate Valid()
      reads this
    {
      cache.slots.Length == CACHE_MAX && cache.configured == cfg.cacheSize
    }

    ghost function Contents(): State<S>
      reads this, cache.slots
    {
      State(cache.slots[..], tool)
    }

    constructor (cfg: Config<S>, tool: S)
      ensures Valid() && this.cfg == cfg && fresh(cache.slots)
      ensures Contents() == Fresh(tool)
    {
      this.cfg := cfg;
      this.tool := tool;
      cache := new Cache(cfg.cacheSize);
    }

    // Returns the index of the tool, or the number of tools.
    method FindTool(name: Option<CText>) returns (r: nat)
      ensures r == ToolIndex(cfg.tools, name)
    {
      if name.None? {
        return |cfg.tools|;
      }
      for i := 0 to |cfg.tools|
        invariant ToolIndex(cfg.tools, name) == i + ToolIndex(cfg.tools[i..], name)
      {
        if cfg.tools[i].name == name {
          return i;
        }
      }
      return |cfg.tools|;
    }

    method HandleToolCall(a: Arrival) returns (outcome: Outcome)
      requires Valid()
      modifies this, cache.slots
      ensures Valid()
      ensures (Contents(), outcome) == Step(cfg, old(Contents()), a)
    {
      var dup := cache.FindDuplicate(a.CallKey(), a.at);
      if dup.Some? {
        return Replayed(cache.slots[dup.value].reply);
      }
      var request := if a.payload == [] then Some(Request(None, None)) else cfg.parse(a.payload);
      if request.None? {
        return Rejected(BadJson);
      }
      var i := FindTool(request.value.name);
      if i == |cfg.tools| || cfg.tools[i].handler.None? {
        return Rejected(ToolNotFound);
      }
      var args := if request.value.arguments.Some? then request.value.arguments.value else Ascii("{}");
      var h := cfg.tools[i].handler.value(tool, args);
      tool := h.state;
      if h.reply.None? {
        return Failed;
      }
      var response := h.reply.value;
      if response == [] {
        response := OkResult();
      }
      cache.StoreDuplicate(a.CallKey(), response, a.done, a.pick);
      return Executed(response);
    }
  }

  // A device as it starts, with every slot empty.
  function Fresh<S>(tool: S): (r: State<S>)
    ensures |r.slots| == CACHE_MAX && Inv(r.slots, 1) && forall i | 0 <= i < CACHE_MAX :: !r.slots[i].used
  {
    State(seq(CACHE_MAX, i => EMPTY_SLOT), tool)
  }

  // Some tool of that name is registered, and the first of them has a handler.
  ghost predicate Callable<S>(tools: seq<Tool<S>>, name: Option<CText>) {
    name.Some? && exists i | 0 <= i < |tools| :: FirstNamed(tools, name, i) && tools[i].handler.Some?
  }

  ghost predicate FirstNamed<S>(tools: seq<Tool<S>>, name: Option<CText>, i: nat)
    requires i < |tools|
  {
    tools[i].name == name && forall j | 0 <= j < i :: tools[j].name != name
  }

  // When a request is refused, and why; a refused request leaves the tool alone.
  lemma RefusedIff<S>(cfg: Config<S>, tool: S, payload: seq<byte>)
    ensures Perform(cfg, tool, payload).1 == Rejected(BadJson) <==> payload != [] && cfg.parse(payload).None?
    ensures payload != [] && cfg.parse(payload).Some? ==>
              (Perform(cfg, tool, payload).1 == Rejected(ToolNotFound)
               <==> !Callable(cfg.tools, cfg.parse(payload).value.name))
    ensures payload == [] ==> Perform(cfg, tool, payload).1 == Rejected(ToolNotFound)
    ensures Perform(cfg, tool, payload).1.Rejected? ==> Perform(cfg, tool, payload).0 == tool
  {
    if payload != [] && cfg.parse(payload).Some? {
      var name := cfg.parse(payload).value.name;
      var i := ToolIndex(cfg.tools, name);
      if i < |cfg.tools| {
        assert FirstNamed(cfg.tools, name, i);
      }
    }
  }

  // Otherwise the handler of the first tool of that name is run, on the arguments
  // of the request or, without any, on the empty object.
  lemma PerformRuns<S>(cfg: Config<S>, tool: S, payload: seq<byte>, q: Request, i: nat)
    requires payload != [] && cfg.parse(payload) == Some(q) && q.name.Some?
    requires i < |cfg.tools| && FirstNamed(cfg.tools, q.name, i) && cfg.tools[i].handler.Some?
    ensures var arguments := if q.arguments.Some? then q.arguments.value else ['{' as byte, '}' as byte];
            var h := cfg.tools[i].handler.value(tool, arguments);
            var ok := Ascii("{\"content\":[{\"type\":\"text\",\"text\":\"ok\"}],\"isError\":false}");
            Perform(cfg, tool, payload)
            == (h.state, if h.reply.None? then Failed else Executed(if h.reply.value == [] then ok else h.reply.value))
  {
    var k := ToolIndex(cfg.tools, q.name);
    FirstIsIndex(cfg.tools, q.name, i);
    assert Ascii("{}") == ['{' as byte, '}' as byte];
  }

  lemma FirstIsIndex<S>(tools: seq<Tool<S>>, name: Option<CText>, i: nat)
    requires name.Some? && i < |tools| && FirstNamed(tools, name, i)
    ensures ToolIndex(tools, name) == i
  {
    if i > 0 {
      assert tools[0].name != name;
      FirstIsIndex(tools[1..], name, i - 1);
    }
  }

  // What the caller is told: a frame of type 3 under the call's xid, with flag 2
  // set and the cause named unless there is a reply.
  lemma CauseIsNamed<S>(cfg: Config<S>, tool: S, payload: seq<byte>, xid: u16, seqNo: u16)
    ensures var o := Perform(cfg, tool, payload).1;
            && (o.Executed? ==> Answer(xid, o, seqNo) == Frame(3, 0, seqNo, xid, o.reply))
            && (o.Failed? ==>
                  Answer(xid, o, seqNo) == Frame(3, 2, seqNo, xid,
                    Ascii("{\"error\":{\"code\":\"toolError\",\"message\":\"tool handler failed\"}}")))
            && (payload != [] && cfg.parse(payload).None? ==>
                  Answer(xid, o, seqNo) == Frame(3, 2, seqNo, xid,
                    Ascii("{\"error\":{\"code\":\"badJson\",\"message\":\"invalid tool call JSON\"}}")))
            && (payload == [] || (cfg.parse(payload).Some? && !Callable(cfg.tools, cfg.parse(payload).value.name)) ==>
                  Answer(xid, o, seqNo) == Frame(3, 2, seqNo, xid,
                    Ascii("{\"error\":{\"code\":\"toolNotFound\",\"message\":\"tool not found\"}}")))
  {
    RefusedIff(cfg, tool, payload);
  }

  // Everything a device ever answers fits a frame, and is what the receiver
  // reads back, byte for byte.
  lemma AnswerArrives(xid: u16, o: Outcome, seqNo: u16, trailing: seq<byte>)
    requires o.HasReply() ==> |o.reply| <= MAX_JSON_LEN
    ensures |Encode(Answer(xid, o, seqNo))| <= MAX_FRAME_LEN
    ensures Decode(Encode(Answer(xid, o, seqNo)) + trailing) == Ok(Answer(xid, o, seqNo))
  {
    DecodeIff(Encode(Answer(xid, o, seqNo)) + trailing, Answer(xid, o, seqNo));
  }
}
