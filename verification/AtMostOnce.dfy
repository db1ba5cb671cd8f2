// What the duplicate cache guarantees over a whole run of tool calls.
module AtMostOnce {
  import opened Types
  import opened DuplicateCache
  import opened Device

  // A device handed one call after the other: states[n] is the device before
  // call n, results[n] what became of that call.
  datatype Run<!S> = Run(cfg: Config<S>, calls: seq<Arrival>, states: seq<State<S>>, results: seq<Outcome>)
  {
    ghost predicate Valid(start: S) {
      && |states| == |calls| + 1 && |results| == |calls|
      && states[0] == Fresh(start)
      && forall n | 0 <= n < |calls| :: StepAt(n)
    }

    ghost predicate StepAt(n: nat)
      requires |states| == |calls| + 1 && |results| == |calls| && n < |calls|
    {
      |states[n].slots| == CACHE_MAX && (states[n + 1], results[n]) == Step(cfg, states[n], calls[n])
    }

    function Size(): (r: nat)
      ensures 1 <= r <= CACHE_MAX
    {
      cfg.Size()
    }

    // Call n ran its handler successfully, and so was stored.
    ghost predicate Stores(n: nat)
      requires n < |results|
    {
      results[n].Executed?
    }

    ghost function Entry(n: nat): Slot
      requires n < |results| && n < |calls| && Stores(n)
    {
      Slot(true, calls[n].CallKey(), calls[n].done + TTL, results[n].reply)
    }

    ghost predicate SameKey(m: nat, n: nat)
      requires m < |calls| && n < |calls|
    {
      calls[m].CallKey() == calls[n].CallKey()
    }

    // The clock never runs backwards and calls are handled one at a time.
    ghost predicate Ordered() {
      && (forall n | 0 <= n < |calls| :: calls[n].at <= calls[n].done)
      && (forall m, n | 0 <= m < n < |calls| :: calls[m].done <= calls[n].at)
    }

    // The stores up to call n that are not older than the time to live.
    ghost function Window(n: nat): set<nat>
      requires n < |calls| == |results|
    {
      set m: nat | m <= n && Stores(m) && calls[m].done + TTL >= calls[n].done
    }

    // No store is made while more than the cache can hold is still alive.
    ghost predicate RateBounded()
      requires |calls| == |results|
    {
      forall n | 0 <= n < |calls| && Stores(n) :: |Window(n)| <= Size()
    }

    // Once a call has been stored, its copies come back before the entry expires.
    ghost predicate Timely()
      requires |calls| == |results|
    {
      forall m, n | 0 <= m < n < |calls| && Stores(m) && SameKey(m, n) ::
        calls[n].at <= calls[m].done + TTL
    }

    // Right after the first n calls, every unexpired execution would still be
    // answered from the cache, with its own reply.
    ghost predicate Remembers(n: nat)
      requires 0 < n <= |calls| == |results| && n < |states| && Size() <= |states[n].slots|
    {
      forall m | 0 <= m < n && Stores(m) && calls[m].done + TTL >= calls[n - 1].done ::
        Lookup(states[n].slots, Size(), calls[m].CallKey(), calls[n - 1].done) == Some(Entry(m))
    }
  }

  // The run of a device from start-up; there is one for every list of calls.
  ghost function Execute<S>(cfg: Config<S>, start: S, calls: seq<Arrival>): (r: Run<S>)
    ensures r.cfg == cfg && r.calls == calls && r.Valid(start)
    decreases |calls|
  {
    if calls == [] then
      Run(cfg, [], [Fresh(start)], [])
    else
      var last := |calls| - 1;
      var r := Execute(cfg, start, calls[..last]);
      SlotCount(r, start, last);
      var (state, result) := Step(cfg, r.states[last], calls[last]);
      var s := Run(cfg, calls, r.states + [state], r.results + [result]);
      assert forall n | 0 <= n < last :: r.StepAt(n) ==> s.StepAt(n);
      assert s.StepAt(last);
      s
  }

  lemma {:induction false} SlotCount<S>(r: Run<S>, start: S, n: nat)
    requires r.Valid(start) && n <= |r.calls|
    ensures |r.states[n].slots| == CACHE_MAX
  {
    if n > 0 {
      assert r.StepAt(n - 1);
    }
  }

  // ---------------------------------------------------------------------
  // Where the entries in the cache come from

  ghost predicate Explained<S>(r: Run<S>, n: nat, s: Slot)
    requires n <= |r.calls| == |r.results|
  {
    exists m | 0 <= m < n && r.Stores(m) :: s == r.Entry(m)
  }

  // In every reachable state keys are distinct and every slot in use is the
  // entry of an earlier successful call, expiring TTL after its store.
  ghost predicate Sound<S>(r: Run<S>, n: nat)
    requires n <= |r.calls| == |r.results| && n < |r.states|
  {
    && |r.states[n].slots| == CACHE_MAX
    && Inv(r.states[n].slots, r.Size())
    && forall i | 0 <= i < r.Size() && r.states[n].slots[i].used :: Explained(r, n, r.states[n].slots[i])
  }

  lemma {:induction false} CacheInvariant<S>(r: Run<S>, start: S, n: nat)
    requires r.Valid(start) && n <= |r.calls|
    ensures Sound(r, n)
  {
    if n > 0 {
      CacheInvariant(r, start, n - 1);
      assert r.StepAt(n - 1);
      SoundStep(r, n - 1);
    }
  }

  lemma SoundStep<S>(r: Run<S>, n: nat)
    requires n < |r.calls| == |r.results| && |r.states| == |r.calls| + 1 && r.StepAt(n) && Sound(r, n)
    ensures Sound(r, n + 1)
  {
    InvStep(r, n);
    var slots := r.states[n + 1].slots;
    forall i | 0 <= i < r.Size() && slots[i].used
      ensures Explained(r, n + 1, slots[i])
    {
      SlotExplained(r, n, i);
    }
  }

  lemma InvStep<S>(r: Run<S>, n: nat)
    requires n < |r.calls| == |r.results| && |r.states| == |r.calls| + 1 && r.StepAt(n) && Sound(r, n)
    ensures |r.states[n + 1].slots| == CACHE_MAX && Inv(r.states[n + 1].slots, r.Size())
  {
    var reply := if r.Stores(n) then r.results[n].reply else [];
    MissThenStore(r.states[n].slots, r.Size(), r.calls[n].CallKey(), reply, r.calls[n].at, r.calls[n].done,
                  r.calls[n].pick);
  }

  lemma SlotExplained<S>(r: Run<S>, n: nat, i: nat)
    requires n < |r.calls| == |r.results| && |r.states| == |r.calls| + 1 && r.StepAt(n) && Sound(r, n)
    requires i < r.Size() && |r.states[n + 1].slots| == CACHE_MAX && r.states[n + 1].slots[i].used
    ensures Explained(r, n + 1, r.states[n + 1].slots[i])
  {
    var before, after := r.states[n].slots[i], r.states[n + 1].slots[i];
    if r.Stores(n) && after == r.Entry(n) {
    } else {
      assert after == before;
      assert Explained(r, n, before);
      var m :| 0 <= m < n && r.Stores(m) && before == r.Entry(m);
    }
  }

  // ---------------------------------------------------------------------
  // Counting stores against slots

  ghost function Keys<S>(r: Run<S>, w: set<nat>): set<Key>
    requires forall m <- w :: m < |r.calls|
  {
    set m <- w :: r.calls[m].CallKey()
  }

  lemma {:induction false} KeysAtMost<S>(r: Run<S>, w: set<nat>)
    requires forall m <- w :: m < |r.calls|
    ensures |Keys(r, w)| <= |w|
    ensures (forall l, m | l in w && m in w && l < m :: !r.SameKey(l, m)) ==> |Keys(r, w)| == |w|
  {
    if w != {} {
      var m :| m in w;
      var rest := w - {m};
      KeysAtMost(r, rest);
      assert Keys(r, w) == Keys(r, rest) + {r.calls[m].CallKey()};
      assert |w| == |rest| + 1;
    }
  }

  // A slot that is alive when call n stores accounts for a store in its window.
  lemma LiveSlotsAreInWindow<S>(r: Run<S>, n: nat)
    requires n < |r.calls| == |r.results| && n < |r.states| && Sound(r, n) && r.Stores(n)
    ensures r.calls[n].CallKey() in Keys(r, r.Window(n))
    ensures forall i | 0 <= i < r.Size() && Live(r.states[n].slots[i], r.calls[n].done) ::
              r.states[n].slots[i].key in Keys(r, r.Window(n))
  {
    assert n in r.Window(n);
    forall i | 0 <= i < r.Size() && Live(r.states[n].slots[i], r.calls[n].done)
      ensures r.states[n].slots[i].key in Keys(r, r.Window(n))
    {
      LiveSlotIsInWindow(r, n, i);
    }
  }

  lemma LiveSlotIsInWindow<S>(r: Run<S>, n: nat, i: nat)
    requires n < |r.calls| == |r.results| && n < |r.states| && Sound(r, n)
    requires i < r.Size() && Live(r.states[n].slots[i], r.calls[n].done)
    ensures r.states[n].slots[i].key in Keys(r, r.Window(n))
  {
    assert Explained(r, n, r.states[n].slots[i]);
    var m :| 0 <= m < n && r.Stores(m) && r.states[n].slots[i] == r.Entry(m);
    assert m in r.Window(n);
  }

  // A lookup that misses, and still finds every slot alive later, has met as
  // many keys as there are slots, none of them its own.
  lemma FullCacheKeys(slots: seq<Slot>, size: nat, key: Key, now: int, later: int, keys: set<Key>)
    requires Inv(slots, size) && now <= later
    requires FirstHit(slots, size, key, now) == size && AllLive(Sweep(slots, size, now), size, later)
    requires key in keys && forall i | 0 <= i < size && Live(slots[i], later) :: slots[i].key in keys
    ensures |keys| > size
  {
    var swept := Sweep(slots, size, now);
    assert forall i | 0 <= i < size :: Live(swept[i], later) && swept[i] == slots[i];
    MissThenStore(slots, size, key, [], now, later, 0);
    FullKeys(slots, size);
    forall k | k in UsedKeys(slots, size)
      ensures k in keys && k != key
    {
      UsedKeyIff(slots, size, k);
    }
    Subset(UsedKeys(slots, size) + {key}, keys);
  }

  // If a store finds every slot alive, its window holds more stores than there
  // are slots.
  lemma FullMeansTooMany<S>(r: Run<S>, start: S, n: nat)
    requires r.Valid(start) && n < |r.calls| && r.Stores(n) && r.calls[n].at <= r.calls[n].done
    requires r.StepAt(n) && AllLive(Sweep(r.states[n].slots, r.Size(), r.calls[n].at), r.Size(), r.calls[n].done)
    ensures |r.Window(n)| > r.Size()
  {
    var a, w := r.calls[n], r.Window(n);
    CacheInvariant(r, start, n);
    LiveSlotsAreInWindow(r, n);
    FullCacheKeys(r.states[n].slots, r.Size(), a.CallKey(), a.at, a.done, Keys(r, w));
    KeysAtMost(r, w);
  }

  // ---------------------------------------------------------------------
  // Nothing is forgotten too early, exactly as long as stores are rare enough

  // One more call drops an entry only by expiry, unless it finds the cache full.
  lemma StepKeeps<S>(r: Run<S>, start: S, n: nat, i: nat)
    requires r.Valid(start) && n < |r.calls| && r.calls[n].at <= r.calls[n].done
    requires i < r.Size() && |r.states[n].slots| == CACHE_MAX && Live(r.states[n].slots[i], r.calls[n].done)
    requires r.Stores(n) ==> |r.Window(n)| <= r.Size()
    ensures |r.states[n + 1].slots| == CACHE_MAX && r.states[n + 1].slots[i] == r.states[n].slots[i]
  {
    assert r.StepAt(n);
    var a := r.calls[n];
    if r.Stores(n) && Victim(Sweep(r.states[n].slots, r.Size(), a.at), r.Size(), a.done, a.pick) == i {
      FullMeansTooMany(r, start, n);
    }
  }

  // A slot keeps its entry for as long as that entry lives.
  lemma {:induction false} SlotKept<S>(r: Run<S>, start: S, k: nat, n: nat, i: nat)
    requires r.Valid(start) && r.Ordered() && r.RateBounded() && k <= n <= |r.calls| && i < r.Size()
    requires |r.states[k].slots| == CACHE_MAX
    requires k < n ==> Live(r.states[k].slots[i], r.calls[n - 1].done)
    ensures |r.states[n].slots| == CACHE_MAX && r.states[n].slots[i] == r.states[k].slots[i]
  {
    if k < n {
      SlotKept(r, start, k, n - 1, i);
      StepKeeps(r, start, n - 1, i);
    }
  }

  // The slot an execution was stored in, as long as the entry lives.
  lemma Kept<S>(r: Run<S>, start: S, m: nat, n: nat) returns (i: nat)
    requires r.Valid(start) && r.Ordered() && r.RateBounded()
    requires m < n <= |r.calls| && r.Stores(m) && r.calls[m].done + TTL >= r.calls[n - 1].done
    ensures i < r.Size() && |r.states[n].slots| == CACHE_MAX && r.states[n].slots[i] == r.Entry(m)
  {
    i := StoredAt(r, start, m);
    SlotKept(r, start, m + 1, n, i);
  }

  // Right after a store its entry is in some slot.
  lemma StoredAt<S>(r: Run<S>, start: S, m: nat) returns (i: nat)
    requires r.Valid(start) && m < |r.calls| && r.Stores(m)
    ensures i < r.Size() && |r.states[m + 1].slots| == CACHE_MAX && r.states[m + 1].slots[i] == r.Entry(m)
  {
    var a := r.calls[m];
    assert r.StepAt(m);
    i := Victim(Sweep(r.states[m].slots, r.Size(), a.at), r.Size(), a.done, a.pick);
  }

  // A call is answered from the cache exactly when an earlier call with its key
  // ran successfully and the answer is at most TTL old; and it is given the
  // reply of that call.
  lemma ReplayIff<S>(r: Run<S>, start: S, n: nat)
    requires r.Valid(start) && r.Ordered() && r.RateBounded() && n < |r.calls|
    ensures r.results[n].Replayed? <==>
              exists m | 0 <= m < n && r.Stores(m) :: r.SameKey(m, n) && r.calls[n].at <= r.calls[m].done + TTL
    ensures forall m | 0 <= m < n && r.Stores(m) && r.SameKey(m, n) && r.calls[n].at <= r.calls[m].done + TTL ::
              r.results[n] == Replayed(r.results[m].reply)
  {
    forall m | 0 <= m < n && r.Stores(m) && r.SameKey(m, n) && r.calls[n].at <= r.calls[m].done + TTL
      ensures r.results[n] == Replayed(r.results[m].reply)
    {
      ReplayedInTime(r, start, m, n);
    }
    if r.results[n].Replayed? {
      var m := ReplayOrigin(r, start, n);
    }
  }

  lemma ReplayedInTime<S>(r: Run<S>, start: S, m: nat, n: nat)
    requires r.Valid(start) && r.Ordered() && r.RateBounded() && m < n < |r.calls|
    requires r.Stores(m) && r.SameKey(m, n) && r.calls[n].at <= r.calls[m].done + TTL
    ensures r.results[n] == Replayed(r.results[m].reply)
  {
    var i := Kept(r, start, m, n);
    CacheInvariant(r, start, n);
    assert r.StepAt(n);
    LookupIff(r.states[n].slots, r.Size(), r.calls[n].CallKey(), r.calls[n].at, r.Entry(m));
  }

  lemma ReplayOrigin<S>(r: Run<S>, start: S, n: nat) returns (m: nat)
    requires r.Valid(start) && n < |r.calls| && r.results[n].Replayed?
    ensures m < n && r.Stores(m) && r.SameKey(m, n) && r.calls[n].at <= r.calls[m].done + TTL
    ensures r.results[n].reply == r.results[m].reply
  {
    CacheInvariant(r, start, n);
    assert r.StepAt(n);
    var hit := FirstHit(r.states[n].slots, r.Size(), r.calls[n].CallKey(), r.calls[n].at);
    assert Explained(r, n, r.states[n].slots[hit]);
    m :| 0 <= m < n && r.Stores(m) && r.states[n].slots[hit] == r.Entry(m);
  }

  // At most once, as a matter of timing: a second successful execution under
  // the same key was looked up strictly after the first one's reply expired.
  lemma RepeatedExecutionIsLate<S>(r: Run<S>, start: S, m: nat, n: nat)
    requires r.Valid(start) && r.Ordered() && r.RateBounded()
    requires m < n < |r.calls| && r.Stores(m) && r.Stores(n) && r.SameKey(m, n)
    ensures r.calls[n].at > r.calls[m].done + TTL
  {
    if r.calls[n].at <= r.calls[m].done + TTL {
      ReplayedInTime(r, start, m, n);
    }
  }

  // The promise made for the duplicate window, that a recent execution is never
  // forgotten, is kept by a run exactly when no store is made while more than
  // the cache can hold is still alive.
  lemma RememberedIffRateBounded<S>(r: Run<S>, start: S)
    requires r.Valid(start) && r.Ordered()
    ensures forall n | 0 <= n <= |r.calls| :: |r.states[n].slots| == CACHE_MAX
    ensures (forall n | 0 < n <= |r.calls| :: r.Remembers(n)) <==> r.RateBounded()
  {
    forall n | 0 <= n <= |r.calls|
      ensures |r.states[n].slots| == CACHE_MAX
    {
      SlotCount(r, start, n);
    }
    if r.RateBounded() {
      forall n | 0 < n <= |r.calls|
        ensures r.Remembers(n)
      {
        BoundedRemembers(r, start, n);
      }
    }
    if forall n | 0 < n <= |r.calls| :: r.Remembers(n) {
      forall n | 0 <= n < |r.calls| && r.Stores(n)
        ensures |r.Window(n)| <= r.Size()
      {
        RememberedFits(r, start, n);
      }
    }
  }

  lemma BoundedRemembers<S>(r: Run<S>, start: S, n: nat)
    requires r.Valid(start) && r.Ordered() && r.RateBounded() && 0 < n <= |r.calls|
    ensures |r.states[n].slots| == CACHE_MAX && r.Remembers(n)
  {
    CacheInvariant(r, start, n);
    forall m | 0 <= m < n && r.Stores(m) && r.calls[m].done + TTL >= r.calls[n - 1].done
      ensures Lookup(r.states[n].slots, r.Size(), r.calls[m].CallKey(), r.calls[n - 1].done) == Some(r.Entry(m))
    {
      var i := Kept(r, start, m, n);
      LookupIff(r.states[n].slots, r.Size(), r.calls[m].CallKey(), r.calls[n - 1].done, r.Entry(m));
    }
  }

  // A run that remembers everything has, at each store, a slot for every store
  // in the window.
  lemma RememberedFits<S>(r: Run<S>, start: S, n: nat)
    requires r.Valid(start) && r.Ordered() && n < |r.calls| && r.Stores(n)
    requires forall l | 0 <= l <= n + 1 :: |r.states[l].slots| == CACHE_MAX
    requires forall l | 0 < l <= n + 1 :: r.Remembers(l)
    ensures |r.Window(n)| <= r.Size()
  {
    CacheInvariant(r, start, n + 1);
    var slots, size, w := r.states[n + 1].slots, r.Size(), r.Window(n);
    forall m | m in w
      ensures r.calls[m].CallKey() in UsedKeys(slots, size)
    {
      assert r.Remembers(n + 1);
      assert Lookup(slots, size, r.calls[m].CallKey(), r.calls[n].done).Some?;
      UsedKeyIff(slots, size, r.calls[m].CallKey());
    }
    forall l, m | l in w && m in w && l < m
      ensures !r.SameKey(l, m)
    {
      RememberedOnce(r, start, l, m, n);
    }
    KeysAtMost(r, w);
    Subset(Keys(r, w), UsedKeys(slots, size));
  }

  // What is remembered is not executed again while it lives.
  lemma RememberedOnce<S>(r: Run<S>, start: S, l: nat, m: nat, n: nat)
    requires r.Valid(start) && r.Ordered() && l < m <= n < |r.calls|
    requires |r.states[m].slots| == CACHE_MAX && r.Remembers(m)
    requires r.Stores(l) && r.Stores(m) && r.calls[l].done + TTL >= r.calls[n].done
    ensures !r.SameKey(l, m)
  {
    if r.SameKey(l, m) {
      CacheInvariant(r, start, m);
      assert r.calls[m - 1].done <= r.calls[m].at;
      LookupIff(r.states[m].slots, r.Size(), r.calls[l].CallKey(), r.calls[m - 1].done, r.Entry(l));
      HeldIsReplayed(r, start, m, r.Entry(l));
    }
  }

  // A call whose key is held by a live slot is answered from the cache.
  lemma HeldIsReplayed<S>(r: Run<S>, start: S, n: nat, s: Slot)
    requires r.Valid(start) && n < |r.calls| && r.Size() <= |r.states[n].slots|
    requires s in r.states[n].slots[..r.Size()] && Hit(s, r.calls[n].CallKey(), r.calls[n].at)
    ensures r.results[n].Replayed?
  {
    assert r.StepAt(n);
    var i :| 0 <= i < r.Size() && r.states[n].slots[i] == s;
  }

  // ---------------------------------------------------------------------
  // The condition on the rate, said without reference to any store

  // The stores made in the closed window of length TTL that starts at `from`.
  ghost function StoresFrom<S>(r: Run<S>, from: int): set<nat>
    requires |r.calls| == |r.results|
  {
    set m: nat | m < |r.calls| && r.Stores(m) && from <= r.calls[m].done <= from + TTL
  }

  lemma {:induction false} Latest(w: set<nat>) returns (n: nat)
    requires w != {}
    ensures n in w && forall m <- w :: m <= n
  {
    n :| n in w;
    var rest := w - {n};
    assert forall m <- w :: m in rest || m == n;
    if rest != {} {
      var l := Latest(rest);
      n := if l > n then l else n;
    }
  }

  // The rate is bounded exactly when no closed window of that length, wherever
  // it lies, holds more stores than the cache has slots.
  lemma RateBoundedIffWindows<S>(r: Run<S>)
    requires |r.calls| == |r.results| && r.Ordered()
    ensures r.RateBounded() <==> forall from: int :: |StoresFrom(r, from)| <= r.Size()
  {
    if r.RateBounded() {
      forall from: int
        ensures |StoresFrom(r, from)| <= r.Size()
      {
        var w := StoresFrom(r, from);
        if w != {} {
          var n := Latest(w);
          Subset(w, r.Window(n));
        }
      }
    }
    if forall from: int :: |StoresFrom(r, from)| <= r.Size() {
      forall n | 0 <= n < |r.calls| && r.Stores(n)
        ensures |r.Window(n)| <= r.Size()
      {
        EarlierDone(r, n);
        Subset(r.Window(n), StoresFrom(r, r.calls[n].done - TTL));
      }
    }
  }

  lemma EarlierDone<S>(r: Run<S>, n: nat)
    requires r.Ordered() && n < |r.calls|
    ensures forall m | 0 <= m <= n :: r.calls[m].done <= r.calls[n].done
  {
    assert r.calls[n].at <= r.calls[n].done;
  }
}
