// The device the cache is meant to imitate: one that remembers every reply for
// ever.  Under the conditions on rate and timing the two cannot be told apart.
module Ideal {
  import opened Types
  import opened DuplicateCache
  import opened Device
  import opened AtMostOnce

  datatype Ideal<S> = Ideal(memo: map<Key, CText>, tool: S)

  function IdealStep<S>(cfg: Config<S>, d: Ideal<S>, a: Arrival): (Ideal<S>, Outcome) {
    if a.CallKey() in d.memo then
      (d, Replayed(d.memo[a.CallKey()]))
    else
      var (tool, outcome) := Perform(cfg, d.tool, a.payload);
      (Ideal(if outcome.Executed? then d.memo[a.CallKey() := outcome.reply] else d.memo, tool), outcome)
  }

  function IdealAfter<S>(cfg: Config<S>, start: S, calls: seq<Arrival>, n: nat): Ideal<S>
    requires n <= |calls|
  {
    if n == 0 then Ideal(map[], start) else IdealStep(cfg, IdealAfter(cfg, start, calls, n - 1), calls[n - 1]).0
  }

  function IdealResult<S>(cfg: Config<S>, start: S, calls: seq<Arrival>, n: nat): Outcome
    requires n < |calls|
  {
    IdealStep(cfg, IdealAfter(cfg, start, calls, n), calls[n]).1
  }

  // The device answers call n as the ideal one does.
  ghost predicate Faithful<S>(r: Run<S>, start: S, n: nat)
    requires n < |r.calls| == |r.results|
  {
    r.results[n] == IdealResult(r.cfg, start, r.calls, n)
  }

  // The memory is exactly the stores made so far.
  ghost predicate MemoryOf<S>(r: Run<S>, n: nat, memo: map<Key, CText>)
    requires n <= |r.calls| == |r.results|
  {
    && (forall m | 0 <= m < n && r.Stores(m) ::
          r.calls[m].CallKey() in memo && memo[r.calls[m].CallKey()] == r.results[m].reply)
    && (forall k <- memo :: exists m :: 0 <= m < n && r.Stores(m) && r.calls[m].CallKey() == k)
  }

  ghost predicate Agrees<S>(r: Run<S>, start: S, n: nat)
    requires n <= |r.calls| == |r.results| && n < |r.states|
  {
    var d := IdealAfter(r.cfg, start, r.calls, n);
    d.tool == r.states[n].tool && MemoryOf(r, n, d.memo)
  }

  lemma {:induction false} AgreesAlways<S>(r: Run<S>, start: S, n: nat)
    requires r.Valid(start) && r.Ordered() && r.RateBounded() && r.Timely() && n <= |r.calls|
    ensures Agrees(r, start, n)
    ensures n < |r.calls| ==> Faithful(r, start, n)
  {
    if n > 0 {
      AgreesAlways(r, start, n - 1);
      StepsAgree(r, start, n - 1);
    }
    if n < |r.calls| {
      SameChoice(r, start, n, IdealAfter(r.cfg, start, r.calls, n).memo);
      assert r.StepAt(n);
    }
  }

  // Both devices replay the same calls, with the same replies.
  lemma SameChoice<S>(r: Run<S>, start: S, n: nat, memo: map<Key, CText>)
    requires r.Valid(start) && r.Ordered() && r.RateBounded() && r.Timely() && n < |r.calls|
    requires MemoryOf(r, n, memo)
    ensures r.calls[n].CallKey() in memo ==> r.results[n] == Replayed(memo[r.calls[n].CallKey()])
    ensures r.results[n].Replayed? ==> r.calls[n].CallKey() in memo
  {
    if r.calls[n].CallKey() in memo {
      var m := Rememberer(r, n, memo, r.calls[n].CallKey());
      InTime(r, m, n);
      ReplayedInTime(r, start, m, n);
    } else if r.results[n].Replayed? {
      var m := ReplayOrigin(r, start, n);
    }
  }

  lemma InTime<S>(r: Run<S>, m: nat, n: nat)
    requires |r.calls| == |r.results| && r.Timely() && m < n < |r.calls| && r.Stores(m) && r.SameKey(m, n)
    ensures r.calls[n].at <= r.calls[m].done + TTL
  {
  }

  lemma Rememberer<S>(r: Run<S>, n: nat, memo: map<Key, CText>, k: Key) returns (m: nat)
    requires n <= |r.calls| == |r.results| && MemoryOf(r, n, memo) && k in memo
    ensures m < n && r.Stores(m) && r.calls[m].CallKey() == k && memo[k] == r.results[m].reply
  {
    m :| 0 <= m < n && r.Stores(m) && r.calls[m].CallKey() == k;
  }

  // Answering alike, both devices end up alike.
  lemma StepsAgree<S>(r: Run<S>, start: S, n: nat)
    requires r.Valid(start) && n < |r.calls| && Agrees(r, start, n) && Faithful(r, start, n)
    ensures Agrees(r, start, n + 1)
  {
    assert r.StepAt(n);
    var d, e := IdealAfter(r.cfg, start, r.calls, n), IdealAfter(r.cfg, start, r.calls, n + 1);
    if r.Stores(n) {
      MemoryGrows(r, n, d.memo);
      assert e.memo == d.memo[r.calls[n].CallKey() := r.results[n].reply];
    } else {
      assert e.memo == d.memo;
    }
  }

  lemma MemoryGrows<S>(r: Run<S>, n: nat, memo: map<Key, CText>)
    requires n < |r.calls| == |r.results| && r.Stores(n) && MemoryOf(r, n, memo)
    requires r.calls[n].CallKey() !in memo
    ensures MemoryOf(r, n + 1, memo[r.calls[n].CallKey() := r.results[n].reply])
  {
    var grown := memo[r.calls[n].CallKey() := r.results[n].reply];
    forall k | k in grown
      ensures exists m :: 0 <= m < n + 1 && r.Stores(m) && r.calls[m].CallKey() == k
    {
      if k in memo {
        var m :| 0 <= m < n && r.Stores(m) && r.calls[m].CallKey() == k;
      } else {
        assert r.Stores(n) && r.calls[n].CallKey() == k;
      }
    }
  }

  // As long as answers agree the ideal device has every executed key in memory.
  lemma {:induction false} NeverForgets<S>(r: Run<S>, start: S, m: nat, n: nat)
    requires m < n <= |r.calls| == |r.results| && r.Stores(m) && Faithful(r, start, m)
    ensures r.calls[m].CallKey() in IdealAfter(r.cfg, start, r.calls, n).memo
  {
    if n > m + 1 {
      NeverForgets(r, start, m, n - 1);
    }
  }

  // The device with its handful of expiring slots answers every call exactly as
  // the ideal device does, if and only if no copy of an executed call comes back
  // after its entry has expired.
  lemma FaithfulIffTimely<S>(r: Run<S>, start: S)
    requires r.Valid(start) && r.Ordered() && r.RateBounded()
    ensures (forall n | 0 <= n < |r.calls| :: Faithful(r, start, n)) <==> r.Timely()
    ensures r.Timely() ==> forall n | 0 <= n <= |r.calls| ::
              r.states[n].tool == IdealAfter(r.cfg, start, r.calls, n).tool
  {
    if r.Timely() {
      forall n | 0 <= n <= |r.calls|
        ensures r.states[n].tool == IdealAfter(r.cfg, start, r.calls, n).tool
        ensures n < |r.calls| ==> Faithful(r, start, n)
      {
        AgreesAlways(r, start, n);
      }
    }
    if forall n | 0 <= n < |r.calls| :: Faithful(r, start, n) {
      forall m, n | 0 <= m < n < |r.calls| && r.Stores(m) && r.SameKey(m, n)
        ensures r.calls[n].at <= r.calls[m].done + TTL
      {
        FaithfulIsTimely(r, start, m, n);
      }
    }
  }

  lemma FaithfulIsTimely<S>(r: Run<S>, start: S, m: nat, n: nat)
    requires r.Valid(start) && m < n < |r.calls| && r.Stores(m) && r.SameKey(m, n)
    requires forall l | 0 <= l < |r.calls| :: Faithful(r, start, l)
    ensures r.calls[n].at <= r.calls[m].done + TTL
  {
    NeverForgets(r, start, m, n);
    assert Faithful(r, start, n);
    var l := ReplayOrigin(r, start, n);
    assert Faithful(r, start, m) && Faithful(r, start, l);
    if l < m {
      NeverForgets(r, start, l, m);
    } else if m < l {
      NeverForgets(r, start, m, l);
    }
  }

  // ---------------------------------------------------------------------
  // The effect on the tool: repeated calls might as well not have been sent

  // The calls that are not repeats of an earlier one.
  ghost function Deduped(calls: seq<Arrival>): seq<Arrival> {
    if calls == [] then []
    else
      var last := |calls| - 1;
      if Repeats(calls, last) then Deduped(calls[..last]) else Deduped(calls[..last]) + [calls[last]]
  }

  ghost predicate Repeats(calls: seq<Arrival>, n: nat)
    requires n < |calls|
  {
    exists m | 0 <= m < n :: calls[m].CallKey() == calls[n].CallKey()
  }

  ghost predicate Known(calls: seq<Arrival>, a: Arrival) {
    exists m | 0 <= m < |calls| :: calls[m].CallKey() == a.CallKey()
  }

  lemma DedupedOneMore(calls: seq<Arrival>, a: Arrival)
    ensures Deduped(calls + [a]) == Deduped(calls) + if Known(calls, a) then [] else [a]
  {
    var more := calls + [a];
    assert more[..|calls|] == calls;
    assert forall m | 0 <= m < |calls| :: more[m] == calls[m];
    assert Repeats(more, |calls|) <==> Known(calls, a);
  }

  // Running the requests one after the other against the tool, with no cache.
  ghost function Effect<S>(cfg: Config<S>, start: S, payloads: seq<seq<byte>>): S {
    if payloads == [] then start
    else
      var last := |payloads| - 1;
      Perform(cfg, Effect(cfg, start, payloads[..last]), payloads[last]).0
  }

  function Payloads(calls: seq<Arrival>): (r: seq<seq<byte>>)
    ensures |r| == |calls|
  {
    seq(|calls|, i requires 0 <= i < |calls| => calls[i].payload)
  }

  // Calls under one key are copies of one another.
  ghost predicate CopiesAgree(calls: seq<Arrival>) {
    forall m, n | 0 <= m < n < |calls| && calls[m].CallKey() == calls[n].CallKey() ::
      calls[m].payload == calls[n].payload
  }

  // Under the conditions above, with handlers that never fail, the tool ends in
  // the state it would reach if every call had been delivered exactly once.
  lemma {:induction false} RepeatsHaveNoEffect<S>(r: Run<S>, start: S, n: nat)
    requires r.Valid(start) && r.Ordered() && r.RateBounded() && r.Timely() && CopiesAgree(r.calls)
    requires forall l | 0 <= l < |r.calls| :: !r.results[l].Failed?
    requires n <= |r.calls|
    ensures r.states[n].tool == Effect(r.cfg, start, Payloads(Deduped(r.calls[..n])))
  {
    if n > 0 {
      var l, calls := n - 1, r.calls[..n];
      RepeatsHaveNoEffect(r, start, l);
      assert calls[..l] == r.calls[..l];
      if Repeats(calls, l) {
        RepeatIsIdle(r, start, l);
      } else {
        FirstCopyRuns(r, start, l);
        var before := Deduped(calls[..l]);
        EffectOfOneMore(r.cfg, start, Payloads(before), calls[l].payload);
        assert Payloads(before + [calls[l]]) == Payloads(before) + [calls[l].payload];
      }
    }
  }

  lemma EffectOfOneMore<S>(cfg: Config<S>, start: S, payloads: seq<seq<byte>>, payload: seq<byte>)
    ensures Effect(cfg, start, payloads + [payload]) == Perform(cfg, Effect(cfg, start, payloads), payload).0
  {
    assert (payloads + [payload])[..|payloads|] == payloads;
  }

  lemma FirstCopyRuns<S>(r: Run<S>, start: S, n: nat)
    requires r.Valid(start) && n < |r.calls| && !Repeats(r.calls[..n + 1], n)
    ensures r.states[n + 1].tool == Perform(r.cfg, r.states[n].tool, r.calls[n].payload).0
  {
    assert r.StepAt(n);
    if r.results[n].Replayed? {
      var m := ReplayOrigin(r, start, n);
    }
  }

  lemma RepeatIsIdle<S>(r: Run<S>, start: S, n: nat)
    requires r.Valid(start) && r.Ordered() && r.RateBounded() && r.Timely() && CopiesAgree(r.calls)
    requires forall l | 0 <= l < |r.calls| :: !r.results[l].Failed?
    requires n < |r.calls| && Repeats(r.calls[..n + 1], n)
    ensures r.states[n + 1].tool == r.states[n].tool
  {
    var m :| 0 <= m < n && r.calls[m].CallKey() == r.calls[n].CallKey();
    assert r.StepAt(n);
    var l := m;
    if r.results[m].Replayed? {
      l := ReplayOrigin(r, start, m);
    }
    if r.Stores(l) {
      RepeatIsReplayed(r, start, l, n);
    } else {
      assert r.StepAt(m);
      assert r.calls[m].payload == r.calls[n].payload;
    }
  }

  // ---------------------------------------------------------------------
  // Handlers that fail

  // A copy of a call whose handler ran, with no success under the key since, runs
  // the handler again exactly if the first run failed: failures are not recorded.
  lemma RunsAgainIffFailed<S>(r: Run<S>, start: S, m: nat, n: nat)
    requires r.Valid(start) && r.Ordered() && r.RateBounded() && r.Timely()
    requires m < n < |r.calls| && r.SameKey(m, n) && r.calls[m].payload == r.calls[n].payload
    requires r.results[m].RanHandler()
    requires forall l | m < l < n && r.SameKey(l, n) :: !r.Stores(l)
    ensures r.results[n].RanHandler() <==> r.results[m].Failed?
    ensures r.results[n].RanHandler() ==>
              (r.states[n + 1].tool, r.results[n]) == Perform(r.cfg, r.states[n].tool, r.calls[n].payload)
  {
    assert r.StepAt(m) && r.StepAt(n);
    if r.Stores(m) {
      RepeatIsReplayed(r, start, m, n);
    } else if r.results[n].Replayed? {
      var l := ReplayOrigin(r, start, n);
      assert l < m;
      RepeatIsReplayed(r, start, l, m);
    }
  }

  lemma RepeatIsReplayed<S>(r: Run<S>, start: S, m: nat, n: nat)
    requires r.Valid(start) && r.Ordered() && r.RateBounded() && r.Timely()
    requires m < n < |r.calls| && r.SameKey(m, n) && r.Stores(m)
    ensures r.results[n].Replayed?
  {
    InTime(r, m, n);
    ReplayedInTime(r, start, m, n);
  }

  // A device with one tool that counts how often it is run, and always fails.
  function FailingConfig(name: CText, cacheSize: byte, parse: seq<byte> -> Option<Request>): Config<int> {
    Config([Tool(Some(name), Some((runs: int, args: CText) => HandlerResult(runs + 1, None)))], cacheSize, parse)
  }

  // So at most once does not hold of it: two copies of one call, however close
  // together, act twice.
  lemma FailingCallActsTwice(r: Run<int>, name: CText, cacheSize: byte, parse: seq<byte> -> Option<Request>, start: int)
    requires r.cfg == FailingConfig(name, cacheSize, parse) && r.Valid(start) && |r.calls| == 2
    requires r.calls[0].CallKey() == r.calls[1].CallKey() && r.calls[0].payload == r.calls[1].payload != []
    requires parse(r.calls[0].payload).Some? && parse(r.calls[0].payload).value.name == Some(name)
    ensures r.results == [Failed, Failed] && r.states[2].tool == start + 2
    ensures Deduped(r.calls) == [r.calls[0]]
  {
    FailingPerforms(name, cacheSize, parse, start, r.calls[0].payload);
    FailingPerforms(name, cacheSize, parse, start + 1, r.calls[1].payload);
    NothingStored(r, start, 0);
    NothingStored(r, start, 1);
    assert r.calls == [r.calls[0], r.calls[1]];
    DedupedPair(r.calls[0], r.calls[1]);
  }

  lemma DedupedPair(first: Arrival, copy: Arrival)
    requires first.CallKey() == copy.CallKey()
    ensures Deduped([first, copy]) == [first]
  {
    DedupedOneMore([], first);
    assert [] + [first] == [first] && [first] + [copy] == [first, copy] && [first][0].CallKey() == copy.CallKey();
    DedupedOneMore([first], copy);
  }

  lemma FailingPerforms(name: CText, cacheSize: byte, parse: seq<byte> -> Option<Request>, runs: int, payload: seq<byte>)
    requires payload != [] && parse(payload).Some? && parse(payload).value.name == Some(name)
    ensures Perform(FailingConfig(name, cacheSize, parse), runs, payload) == (runs + 1, Failed)
  {
  }

  // A call that finds no earlier success runs.
  lemma NothingStored<S>(r: Run<S>, start: S, n: nat)
    requires r.Valid(start) && n < |r.calls| && forall m | 0 <= m < n :: !r.Stores(m)
    ensures (r.states[n + 1].tool, r.results[n]) == Perform(r.cfg, r.states[n].tool, r.calls[n].payload)
  {
    assert r.StepAt(n);
    if r.results[n].Replayed? {
      var m := ReplayOrigin(r, start, n);
    }
  }
}
