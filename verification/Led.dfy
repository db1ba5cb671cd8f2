// The example device: one tool that sets or toggles a LED and counts calls.
module Led {
  import opened Types
  import opened DuplicateCache
  import opened Device
  import opened AtMostOnce
  import opened Ideal
  import opened World
  import Counter
  import Decimal

  datatype Led = Led(on: bool, calls: u32)

  // The members of the arguments that count: whether "toggle" is true, and
  // "on" if it is a boolean.
  datatype Arguments = Arguments(toggle: bool, on: Option<bool>)

  // A result object with one text item.
  function TextResult(text: string, isError: bool): CText {
    Ascii("{\"content\":[{\"type\":\"text\",\"text\":\"" + text + "\"}],\"isError\":"
          + (if isError then "true}" else "false}"))
  }

  function StatusText(s: Led): (r: string)
    ensures |r| < 32
  {
    Decimal.PrintNatLength(s.calls, 10);
    (if s.on then "led on" else "led off") + " calls=" + Decimal.PrintNat(s.calls)
  }

  // None is text the JSON parser rejects.
  function LedStep(s: Led, args: Option<Arguments>): (r: HandlerResult<Led>)
    ensures r.reply.Some?
  {
    match args
    case None => HandlerResult(s, Some(TextResult("invalid arguments", true)))
    case Some(a) =>
      if !a.toggle && a.on.None? then
        HandlerResult(s, Some(TextResult("expected {\\\"on\\\":true} or {\\\"toggle\\\":true}", true)))
      else
        var after := Led(if a.toggle then !s.on else a.on.value, (s.calls + 1) % 0x1_0000_0000);
        HandlerResult(after, Some(TextResult(StatusText(after), false)))
  }

  class LedTool {
    var on: bool
    var calls: u32

    constructor ()
      ensures !on && calls == 0
    {
      on, calls := false, 0;
    }

    method Apply(on: bool)
      modifies this`on
      ensures this.on == on
    {
      this.on := on;
    }

    method Set(args: Option<Arguments>) returns (reply: ReplyText)
      modifies this
      ensures HandlerResult(Led(on, calls), Some(reply)) == LedStep(old(Led(on, calls)), args)
    {
      if args.None? {
        return TextResult("invalid arguments", true);
      }
      if args.value.toggle {
        Apply(!on);
      } else if args.value.on.Some? {
        Apply(args.value.on.value);
      } else {
        return TextResult("expected {\\\"on\\\":true} or {\\\"toggle\\\":true}", true);
      }
      calls := (calls + 1) % 0x1_0000_0000;
      return TextResult(StatusText(Led(on, calls)), false);
    }
  }

  type ArgumentParser = CText -> Option<Arguments>

  function LedConfig(cacheSize: byte, parse: seq<byte> -> Option<Request>, parseArgs: ArgumentParser): Config<Led> {
    Config([Tool(Some(Ascii("led.set")), Some((s: Led, args: CText) => LedStep(s, parseArgs(args))))], cacheSize, parse)
  }

  // What a call payload tells the LED to do, if anything: it parses to a request
  // of that tool, with arguments that set or toggle.
  function Command(cfg: Config<Led>, parseArgs: ArgumentParser, payload: seq<byte>): Option<Arguments> {
    if payload == [] || cfg.parse(payload).None? || cfg.parse(payload).value.name != Some(Ascii("led.set")) then None
    else
      var q := cfg.parse(payload).value;
      var a := parseArgs(if q.arguments.Some? then q.arguments.value else Ascii("{}"));
      if a.None? || (!a.value.toggle && a.value.on.None?) then None else a
  }

  // The commands a list of payloads carries, in order.
  function Commands(cfg: Config<Led>, parseArgs: ArgumentParser, payloads: seq<seq<byte>>): seq<Arguments> {
    if payloads == [] then []
    else
      var c := Command(cfg, parseArgs, payloads[|payloads| - 1]);
      Commands(cfg, parseArgs, payloads[..|payloads| - 1]) + if c.Some? then [c.value] else []
  }

  // The light after a list of commands: the last explicit setting, flipped
  // once for every toggle since.
  function Light(on: bool, commands: seq<Arguments>): bool {
    if commands == [] then on
    else
      var c := commands[|commands| - 1];
      if c.toggle then !Light(on, commands[..|commands| - 1])
      else if c.on.Some? then c.on.value
      else Light(on, commands[..|commands| - 1])
  }

  function Obey(s: Led, c: Arguments): Led {
    Led(if c.toggle then !s.on else c.on.GetOr(s.on), (s.calls + 1) % 0x1_0000_0000)
  }

  lemma PerformOnLed(cacheSize: byte, parse: seq<byte> -> Option<Request>, parseArgs: ArgumentParser, s: Led,
                     payload: seq<byte>)
    ensures var cfg := LedConfig(cacheSize, parse, parseArgs);
            var c := Command(cfg, parseArgs, payload);
            && Perform(cfg, s, payload).0 == (if c.Some? then Obey(s, c.value) else s)
            && !Perform(cfg, s, payload).1.Failed?
            && (c.Some? ==> Perform(cfg, s, payload).1.Executed?)
  {
  }

  // A call that toggles, or says which way, is done and answered with the new
  // light and the new count; a toggle takes precedence.
  lemma CallSetsLight(cacheSize: byte, parse: seq<byte> -> Option<Request>, parseArgs: ArgumentParser, s: Led,
                      payload: seq<byte>, arguments: CText, a: Arguments)
    requires payload != [] && parse(payload) == Some(Request(Some(Ascii("led.set")), Some(arguments)))
    requires parseArgs(arguments) == Some(a) && (a.toggle || a.on.Some?)
    ensures var (led, outcome) := Perform(LedConfig(cacheSize, parse, parseArgs), s, payload);
            && led.on == (if a.toggle then !s.on else a.on.value)
            && led.calls == (s.calls + 1) % 0x1_0000_0000
            && outcome == Executed(TextResult((if led.on then "led on calls=" else "led off calls=")
                                              + Decimal.PrintNat(led.calls), false))
  {
    StatusIs(Led(if a.toggle then !s.on else a.on.value, (s.calls + 1) % 0x1_0000_0000));
  }

  lemma StatusIs(led: Led)
    ensures StatusText(led) == (if led.on then "led on calls=" else "led off calls=") + Decimal.PrintNat(led.calls)
  {
    var n := Decimal.PrintNat(led.calls);
    assert "led on" + " calls=" + n == "led on calls=" + n;
    assert "led off" + " calls=" + n == "led off calls=" + n;
  }

  // Any other arguments are answered with an error result, and change nothing.
  lemma OtherCallsAreIdle(cacheSize: byte, parse: seq<byte> -> Option<Request>, parseArgs: ArgumentParser, s: Led,
                          payload: seq<byte>, arguments: CText)
    requires payload != [] && parse(payload) == Some(Request(Some(Ascii("led.set")), Some(arguments)))
    requires parseArgs(arguments).None? || parseArgs(arguments).value == Arguments(false, None)
    ensures var expected := "expected {\\\"on\\\":true} or {\\\"toggle\\\":true}";
            Perform(LedConfig(cacheSize, parse, parseArgs), s, payload)
            == (s, Executed(TextResult(if parseArgs(arguments).None? then "invalid arguments" else expected, true)))
  {
  }

  lemma ObeyOneMore(start: Led, commands: seq<Arguments>, c: Arguments)
    ensures Obey(After(start, commands), c) == After(start, commands + [c])
  {
    assert (commands + [c])[..|commands|] == commands;
    CountOneMore(start.calls + |commands|);
  }

  lemma CountOneMore(x: nat)
    ensures (x % 0x1_0000_0000 + 1) % 0x1_0000_0000 == (x + 1) % 0x1_0000_0000
  {
  }

  // The LED once it has obeyed a list of commands.
  function After(start: Led, commands: seq<Arguments>): Led {
    Led(Light(start.on, commands), (start.calls + |commands|) % 0x1_0000_0000)
  }

  // Without a cache: the light follows the commands and every one is counted.
  lemma {:induction false} EffectOnLed(cacheSize: byte, parse: seq<byte> -> Option<Request>, parseArgs: ArgumentParser,
                                       start: Led, payloads: seq<seq<byte>>)
    ensures var cfg := LedConfig(cacheSize, parse, parseArgs);
            Effect(cfg, start, payloads) == After(start, Commands(cfg, parseArgs, payloads))
  {
    if payloads != [] {
      var last := |payloads| - 1;
      var cfg := LedConfig(cacheSize, parse, parseArgs);
      var before := Commands(cfg, parseArgs, payloads[..last]);
      EffectOnLed(cacheSize, parse, parseArgs, start, payloads[..last]);
      PerformOnLed(cacheSize, parse, parseArgs, Effect(cfg, start, payloads[..last]), payloads[last]);
      var c := Command(cfg, parseArgs, payloads[last]);
      if c.Some? {
        ObeyOneMore(start, before, c.value);
      } else {
        assert Commands(cfg, parseArgs, payloads) == before;
      }
    }
  }

  lemma LedNeverFails(r: Run<Led>, parse: seq<byte> -> Option<Request>, parseArgs: ArgumentParser, cacheSize: byte,
                      start: Led, n: nat)
    requires r.cfg == LedConfig(cacheSize, parse, parseArgs) && r.Valid(start) && n < |r.calls|
    ensures !r.results[n].Failed?
  {
    assert r.StepAt(n);
    PerformOnLed(cacheSize, parse, parseArgs, r.states[n].tool, r.calls[n].payload);
  }

  // Whatever the network repeats, the LED obeys and counts each distinct call once.
  lemma LedObeysDistinctCalls(r: Run<Led>, parse: seq<byte> -> Option<Request>, parseArgs: ArgumentParser,
                              cacheSize: byte, start: Led)
    requires r.cfg == LedConfig(cacheSize, parse, parseArgs)
    requires r.Valid(start) && r.Ordered() && r.RateBounded() && r.Timely() && CopiesAgree(r.calls)
    ensures r.states[|r.calls|].tool == After(start, Commands(r.cfg, parseArgs, Payloads(Deduped(r.calls))))
  {
    forall n | 0 <= n < |r.calls|
      ensures !r.results[n].Failed?
    {
      LedNeverFails(r, parse, parseArgs, cacheSize, start, n);
    }
    RepeatsHaveNoEffect(r, start, |r.calls|);
    assert r.calls[..|r.calls|] == r.calls;
    EffectOnLed(cacheSize, parse, parseArgs, start, Payloads(Deduped(r.calls)));
  }

  // From the host to the light, for every history: whatever the network loses,
  // repeats or reorders, each call that gets through at all is obeyed and
  // counted once, in the order of first copies.
  lemma LedObeysTheHost(net: Stations, parse: seq<byte> -> Option<Request>, parseArgs: ArgumentParser, cacheSize: byte,
                        start: Led, actions: seq<Action>)
    requires var w := Reach(net, LedConfig(cacheSize, parse, parseArgs), start, actions);
             w.run.Ordered() && w.run.RateBounded() && CopiesInTime(w) && XidsFresh(w)
    ensures var w := Reach(net, LedConfig(cacheSize, parse, parseArgs), start, actions);
            && w.run.states[|w.run.calls|].tool
               == After(start, Commands(w.run.cfg, parseArgs, Heeded(w, |w.run.calls|)))
            && (HostOnly(w) ==> Heeded(w, |w.run.calls|) == CallPayloads(w.calls, Arrived(w.sources)))
  {
    var w := Reach(net, LedConfig(cacheSize, parse, parseArgs), start, actions);
    forall n | 0 <= n < |w.run.calls|
      ensures !w.run.results[n].Failed?
    {
      LedNeverFails(w.run, parse, parseArgs, cacheSize, start, n);
    }
    ToolHeedsEachCallOnce(net, start, w, |w.run.calls|);
    EffectOnLed(cacheSize, parse, parseArgs, start, Heeded(w, |w.run.calls|));
    if HostOnly(w) {
      HeededCallsArrived(net, start, w, |w.run.calls|);
      assert w.sources[..|w.sources|] == w.sources;
    }
  }

  // In a boot of at most 65535 draws nothing need be asked of the xids.
  lemma LedObeysInShortBoot(net: Stations, parse: seq<byte> -> Option<Request>, parseArgs: ArgumentParser,
                            cacheSize: byte, start: Led, actions: seq<Action>)
    requires var w := Reach(net, LedConfig(cacheSize, parse, parseArgs), start, actions);
             && HostOnly(w) && |w.randoms| <= Counter.PERIOD
             && w.run.Ordered() && w.run.RateBounded() && CopiesInTime(w)
    ensures var w := Reach(net, LedConfig(cacheSize, parse, parseArgs), start, actions);
            w.run.states[|w.run.calls|].tool
            == After(start, Commands(w.run.cfg, parseArgs, CallPayloads(w.calls, Arrived(w.sources))))
  {
    FewDrawsAreFresh(net, start, Reach(net, LedConfig(cacheSize, parse, parseArgs), start, actions));
    LedObeysTheHost(net, parse, parseArgs, cacheSize, start, actions);
  }

  // Toggles alone: the light ends up flipped exactly when their number is odd.
  lemma {:induction false} TogglesFlipOnce(on: bool, commands: seq<Arguments>)
    requires forall i | 0 <= i < |commands| :: commands[i].toggle
    ensures Light(on, commands) == (on != (|commands| % 2 == 1))
  {
    if commands != [] {
      TogglesFlipOnce(on, commands[..|commands| - 1]);
    }
  }

  // The rate condition cannot be dropped.  With a single slot, any other call
  // that comes between a call and its copy makes the LED obey the copy again,
  // however soon it arrives.
  lemma OverloadObeysTwice(r: Run<Led>, parse: seq<byte> -> Option<Request>, parseArgs: ArgumentParser, start: Led)
    requires r.cfg == LedConfig(1, parse, parseArgs) && r.Valid(start) && |r.calls| == 3 && r.Ordered()
    requires forall n | 0 <= n < 3 :: Command(r.cfg, parseArgs, r.calls[n].payload).Some?
    requires r.SameKey(0, 2) && !r.SameKey(0, 1) && r.calls[2].payload == r.calls[0].payload
    requires r.calls[2].at <= r.calls[0].done + TTL
    ensures r.Timely() && CopiesAgree(r.calls) && !r.RateBounded()
    ensures r.results[0].Executed? && r.results[1].Executed? && r.results[2].Executed?
    ensures |Deduped(r.calls)| == 2 && r.states[3].tool.calls == (start.calls + 3) % 0x1_0000_0000
  {
    ThreeInOneSlot(r, parse, parseArgs, start);
    DedupedCopies(r.calls[0], r.calls[1], r.calls[2]);
    assert r.calls == [r.calls[0], r.calls[1], r.calls[2]];
    TwiceIsUnbounded(r, start);
  }

  // An early second execution means that the rate was exceeded.
  lemma TwiceIsUnbounded(r: Run<Led>, start: Led)
    requires r.Valid(start) && |r.calls| == 3 && r.Ordered() && r.SameKey(0, 2) && r.Stores(0) && r.Stores(2)
    requires r.calls[2].at <= r.calls[0].done + TTL
    ensures !r.RateBounded()
  {
    if r.RateBounded() {
      RepeatedExecutionIsLate(r, start, 0, 2);
    }
  }

  lemma ThreeInOneSlot(r: Run<Led>, parse: seq<byte> -> Option<Request>, parseArgs: ArgumentParser, start: Led)
    requires r.cfg == LedConfig(1, parse, parseArgs) && r.Valid(start) && |r.calls| == 3
    requires forall n | 0 <= n < 3 :: Command(r.cfg, parseArgs, r.calls[n].payload).Some?
    requires !r.SameKey(0, 1) && !r.SameKey(1, 2)
    ensures r.results[0].Executed? && r.results[1].Executed? && r.results[2].Executed?
    ensures r.states[3].tool.calls == (start.calls + 3) % 0x1_0000_0000
  {
    forall n | 0 <= n < 3
      ensures IsCounted(r.cfg, r.calls[n].payload)
    {
      CommandIsCounted(parse, parseArgs, r.calls[n].payload);
    }
    OneSlotStep(r, start, 2);
  }

  lemma DedupedCopies(a: Arrival, b: Arrival, copy: Arrival)
    requires copy.CallKey() == a.CallKey() != b.CallKey()
    ensures Deduped([a, b, copy]) == [a, b]
  {
    TwoCalls(a, b);
    assert [a, b] + [copy] == [a, b, copy];
    assert [a, b][0].CallKey() == copy.CallKey();
    DedupedOneMore([a, b], copy);
  }

  lemma TwoCalls(a: Arrival, b: Arrival)
    requires a.CallKey() != b.CallKey()
    ensures Deduped([a, b]) == [a, b]
  {
    DedupedOneMore([], a);
    assert [] + [a] == [a] && [a] + [b] == [a, b];
    DedupedOneMore([a], b);
  }

  // A call that is not answered from the cache runs against the tool, and on
  // success is stored.
  lemma MissedCallRuns(r: Run<Led>, start: Led, n: nat)
    requires r.Valid(start) && n < |r.calls| && !r.results[n].Replayed?
    ensures |r.states[n + 1].slots| == CACHE_MAX
    ensures (r.states[n + 1].tool, r.results[n]) == Perform(r.cfg, r.states[n].tool, r.calls[n].payload)
    ensures r.Size() == 1 && r.Stores(n) ==> r.states[n + 1].slots[0].key == r.calls[n].CallKey()
  {
    assert r.StepAt(n);
  }

  lemma OtherKeyMisses(r: Run<Led>, start: Led, n: nat)
    requires r.Valid(start) && n < |r.calls| && r.Size() == 1 && |r.states[n].slots| == CACHE_MAX
    requires r.states[n].slots[0].used ==> r.states[n].slots[0].key != r.calls[n].CallKey()
    ensures !r.results[n].Replayed?
  {
    assert r.StepAt(n);
    assert FirstHit(r.states[n].slots, 1, r.calls[n].CallKey(), r.calls[n].at) == 1;
  }

  // Whatever the state of the LED, the request succeeds and is counted.
  ghost predicate IsCounted(cfg: Config<Led>, payload: seq<byte>) {
    forall s: Led ::
      && Perform(cfg, s, payload).1.Executed?
      && Perform(cfg, s, payload).0.calls == (s.calls + 1) % 0x1_0000_0000
  }

  lemma CommandIsCounted(parse: seq<byte> -> Option<Request>, parseArgs: ArgumentParser, payload: seq<byte>)
    requires Command(LedConfig(1, parse, parseArgs), parseArgs, payload).Some?
    ensures IsCounted(LedConfig(1, parse, parseArgs), payload)
  {
    forall s: Led
      ensures Perform(LedConfig(1, parse, parseArgs), s, payload).1.Executed?
      ensures Perform(LedConfig(1, parse, parseArgs), s, payload).0.calls == (s.calls + 1) % 0x1_0000_0000
    {
      PerformOnLed(1, parse, parseArgs, s, payload);
    }
  }

  // A request that differs from the one in the slot misses, runs and takes the slot.
  lemma OneSlotCall(r: Run<Led>, start: Led, n: nat)
    requires r.Size() == 1 && r.Valid(start) && n < |r.calls| && IsCounted(r.cfg, r.calls[n].payload)
    requires |r.states[n].slots| == CACHE_MAX
    requires r.states[n].slots[0].used ==> r.states[n].slots[0].key != r.calls[n].CallKey()
    ensures r.results[n].Executed?
    ensures |r.states[n + 1].slots| == CACHE_MAX && r.states[n + 1].slots[0].key == r.calls[n].CallKey()
    ensures r.states[n + 1].tool.calls == (r.states[n].tool.calls + 1) % 0x1_0000_0000
  {
    OtherKeyMisses(r, start, n);
    MissedCallRuns(r, start, n);
  }

  // The count is the number of calls so far.
  lemma {:induction false} OneSlotStep(r: Run<Led>, start: Led, n: nat)
    requires r.Size() == 1 && r.Valid(start) && n < |r.calls|
    requires forall l | 0 <= l <= n :: IsCounted(r.cfg, r.calls[l].payload)
    requires forall l, m | 0 <= l < m <= n && m == l + 1 :: !r.SameKey(l, m)
    ensures forall l | 0 <= l <= n :: r.results[l].Executed?
    ensures |r.states[n + 1].slots| == CACHE_MAX && r.states[n + 1].slots[0].key == r.calls[n].CallKey()
    ensures r.states[n + 1].tool.calls == (start.calls + n + 1) % 0x1_0000_0000
  {
    if n > 0 {
      OneSlotStep(r, start, n - 1);
      assert !r.SameKey(n - 1, n);
      CountOneMore(start.calls + n);
    } else {
      assert r.states[0] == Fresh(start);
    }
    OneSlotCall(r, start, n);
  }
}
