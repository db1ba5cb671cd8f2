// The device's cache of replies to recent tool calls: a fixed array of slots
// that expire, swept lazily by lookups.
module DuplicateCache {
  import opened Types
  import opened Frame

  const CACHE_MAX := 16
  const TTL := 5_000_000

  datatype Key = Key(mac: Mac, kind: byte, xid: u16)

  datatype Slot = Slot(used: bool, key: Key, expiresAt: int, reply: CText)

  const EMPTY_SLOT := Slot(false, Key([0, 0, 0, 0, 0, 0], 0, 0), 0, [])

  // An entry still counts at the very instant it expires.
  predicate Live(s: Slot, now: int) {
    s.used && s.expiresAt >= now
  }

  predicate Hit(s: Slot, key: Key, now: int) {
    Live(s, now) && s.key == key
  }

  predicate AllLive(slots: seq<Slot>, size: nat, now: int)
    requires size <= |slots|
  {
    forall i | 0 <= i < size :: Live(slots[i], now)
  }

  // The number of slots in use for a configured size.
  function CacheSize(configured: byte): (r: nat)
    ensures 1 <= r <= CACHE_MAX
    ensures if 1 <= configured <= CACHE_MAX then r == configured else r == 8
  {
    if configured == 0 || configured > CACHE_MAX then 8 else configured
  }

  // strlcpy into a buffer of n characters.
  function Truncate(text: CText, n: nat): CText
    requires n > 0
  {
    if |text| < n then text else text[..n - 1]
  }

  // Index of the first slot below `size` that answers `key`, or `size`.
  function FirstHit(slots: seq<Slot>, size: nat, key: Key, now: int): (r: nat)
    requires size <= |slots|
    ensures r <= size
    ensures forall i | 0 <= i < r :: !Hit(slots[i], key, now)
    ensures r < size ==> Hit(slots[r], key, now)
  {
    if size == 0 then 0
    else
      var r := FirstHit(slots, size - 1, key, now);
      if r < size - 1 || Hit(slots[size - 1], key, now) then r else size
  }

  // Index of the first slot below `size` that may be reused, or `size`.
  function FirstFree(slots: seq<Slot>, size: nat, now: int): (r: nat)
    requires size <= |slots|
    ensures r <= size
    ensures forall i | 0 <= i < r :: Live(slots[i], now)
    ensures r < size ==> !Live(slots[r], now)
  {
    if size == 0 then 0
    else
      var r := FirstFree(slots, size - 1, now);
      if r < size - 1 || !Live(slots[size - 1], now) then r else size
  }

  // A lookup that got as far as slot n has dropped the dead entries before it.
  function Sweep(slots: seq<Slot>, n: nat, now: int): (r: seq<Slot>)
    requires n <= |slots|
    ensures |r| == |slots|
  {
    seq(|slots|, i requires 0 <= i < |slots| =>
      if i < n && !Live(slots[i], now) then slots[i].(used := false) else slots[i])
  }

  function Victim(slots: seq<Slot>, size: nat, now: int, pick: u32): (r: nat)
    requires 0 < size <= |slots|
    ensures r < size
    ensures Live(slots[r], now) ==> r == pick % size && AllLive(slots, size, now)
  {
    var i := FirstFree(slots, size, now);
    if i < size then i else pick % size
  }

  function Stored(slots: seq<Slot>, size: nat, key: Key, reply: CText, now: int, pick: u32): seq<Slot>
    requires 0 < size <= |slots|
  {
    slots[Victim(slots, size, now, pick) := Slot(true, key, now + TTL, Truncate(reply, MAX_JSON_LEN + 1))]
  }

  class Cache {
    const configured: byte
    const slots: array<Slot>

    constructor (configured: byte)
      ensures this.configured == configured && fresh(slots) && slots.Length == CACHE_MAX
      ensures slots[..] == seq(CACHE_MAX, i => EMPTY_SLOT)
    {
      this.configured := configured;
      slots := new Slot[CACHE_MAX](i => EMPTY_SLOT);
    }

    // Returns the index of the slot that answers, if any.
    method FindDuplicate(key: Key, now: int) returns (r: Option<nat>)
      requires slots.Length == CACHE_MAX
      modifies slots
      ensures var size := CacheSize(configured);
              var hit := FirstHit(old(slots[..]), size, key, now);
              && r == (if hit < size then Some(hit) else None)
              && slots[..] == Sweep(old(slots[..]), hit, now)
    {
      ghost var was := slots[..];
      var size := CacheSize(configured);
      for i := 0 to size
        invariant forall j | 0 <= j < i :: !Hit(was[j], key, now)
        invariant slots[..] == Sweep(was, i, now)
      {
        assert slots[i] == slots[..][i] == was[i];
        if !slots[i].used || slots[i].expiresAt < now {
          slots[i] := slots[i].(used := false);
          assert slots[..] == Sweep(was, i, now)[i := was[i].(used := false)];
          continue;
        }
        if slots[i].key.kind == key.kind && slots[i].key.xid == key.xid && slots[i].key.mac == key.mac {
          return Some(i);
        }
      }
      return None;
    }

    method StoreDuplicate(key: Key, reply: CText, now: int, pick: u32)
      requires slots.Length == CACHE_MAX
      modifies slots
      ensures slots[..] == Stored(old(slots[..]), CacheSize(configured), key, reply, now, pick)
    {
      var size := CacheSize(configured);
      var slot := size;
      for i := 0 to size
        invariant slot == size
        invariant forall j | 0 <= j < i :: Live(slots[j], now)
      {
        if !slots[i].used || slots[i].expiresAt < now {
          slot := i;
          break;
        }
      }
      if slot == size {
        slot := pick % size;
      }
      slots[slot] := Slot(true, key, now + TTL, Truncate(reply, MAX_JSON_LEN + 1));
    }
  }

  // ---------------------------------------------------------------------
  // What every reachable cache satisfies

  predicate Distinct(slots: seq<Slot>, n: nat)
    requires n <= |slots|
  {
    forall i, j | 0 <= i < j < n && slots[i].used && slots[j].used :: slots[i].key != slots[j].key
  }

  predicate Inv(slots: seq<Slot>, size: nat) {
    0 < size <= |slots| && Distinct(slots, size) && forall i | size <= i < |slots| :: !slots[i].used
  }

  predicate Absent(slots: seq<Slot>, size: nat, key: Key)
    requires size <= |slots|
  {
    forall i | 0 <= i < size && slots[i].used :: slots[i].key != key
  }

  // Distinctness rests on the full sweep of a missed lookup: what it leaves in
  // use was live, and so was compared with the key that is stored next, however
  // much time passes before the store.
  lemma MissThenStore(slots: seq<Slot>, size: nat, key: Key, reply: CText, now: int, later: int, pick: u32)
    requires Inv(slots, size)
    ensures var hit := FirstHit(slots, size, key, now);
            && Inv(Sweep(slots, hit, now), size)
            && (hit == size ==>
                  && Absent(Sweep(slots, size, now), size, key)
                  && Inv(Stored(Sweep(slots, size, now), size, key, reply, later, pick), size))
  {
    var hit := FirstHit(slots, size, key, now);
    var swept := Sweep(slots, hit, now);
    if hit == size {
      forall i | 0 <= i < size && swept[i].used
        ensures swept[i].key != key
      {
        assert !Hit(slots[i], key, now);
      }
    }
  }

  // ---------------------------------------------------------------------
  // The slots as a bounded map from keys to expiring entries

  ghost function View(slots: seq<Slot>, n: nat): (r: map<Key, Slot>)
    requires n <= |slots| && Distinct(slots, n)
    ensures forall i | 0 <= i < n && slots[i].used :: slots[i].key in r && r[slots[i].key] == slots[i]
    ensures forall k <- r :: r[k].used && r[k].key == k && r[k] in slots[..n]
  {
    if n == 0 then map[]
    else
      var r := View(slots, n - 1);
      assert slots[..n] == slots[..n - 1] + [slots[n - 1]];
      if slots[n - 1].used then r[slots[n - 1].key := slots[n - 1]] else r
  }

  ghost function UsedKeys(slots: seq<Slot>, n: nat): (r: set<Key>)
    requires n <= |slots|
    ensures |r| <= n
  {
    if n == 0 then {} else UsedKeys(slots, n - 1) + if slots[n - 1].used then {slots[n - 1].key} else {}
  }

  lemma {:induction false} UsedKeyIff(slots: seq<Slot>, n: nat, k: Key)
    requires n <= |slots|
    ensures k in UsedKeys(slots, n) <==> exists i :: 0 <= i < n && slots[i].used && slots[i].key == k
  {
    if n > 0 {
      UsedKeyIff(slots, n - 1, k);
      if k in UsedKeys(slots, n - 1) {
        var i :| 0 <= i < n - 1 && slots[i].used && slots[i].key == k;
      }
    }
  }

  // Slots that are all in use under distinct keys make as many keys as slots.
  lemma {:induction false} FullKeys(slots: seq<Slot>, n: nat)
    requires n <= |slots| && Distinct(slots, n) && forall i | 0 <= i < n :: slots[i].used
    ensures |UsedKeys(slots, n)| == n
  {
    if n > 0 {
      FullKeys(slots, n - 1);
      UsedKeyIff(slots, n - 1, slots[n - 1].key);
    }
  }

  // The map never outgrows the slots.
  lemma ViewIsBounded(slots: seq<Slot>, n: nat)
    requires n <= |slots| && Distinct(slots, n)
    ensures |View(slots, n)| <= n
  {
    var view := View(slots, n);
    assert view.Keys <= UsedKeys(slots, n) by {
      forall k | k in view
        ensures k in UsedKeys(slots, n)
      {
        UsedKeyIff(slots, n, k);
      }
    }
    Subset(view.Keys, UsedKeys(slots, n));
  }

  lemma {:induction false} Subset<T>(a: set<T>, b: set<T>)
    requires a <= b
    ensures |a| <= |b|
  {
    if a != {} {
      var x :| x in a;
      Subset(a - {x}, b - {x});
    }
  }

  // The entry a lookup answers with.
  function Lookup(slots: seq<Slot>, size: nat, key: Key, now: int): (r: Option<Slot>)
    requires size <= |slots|
    ensures r.Some? ==> Hit(r.value, key, now)
  {
    var hit := FirstHit(slots, size, key, now);
    if hit < size then Some(slots[hit]) else None
  }

  // A lookup answers exactly what the map restricted to unexpired entries does.
  lemma LookupIsView(slots: seq<Slot>, size: nat, key: Key, now: int)
    requires Inv(slots, size)
    ensures var view := View(slots, size);
            Lookup(slots, size, key, now)
            == if key in view && view[key].expiresAt >= now then Some(view[key]) else None
  {
    var view := View(slots, size);
    if key in view && view[key].expiresAt >= now {
      var i :| 0 <= i < size && slots[i] == view[key];
      assert Hit(slots[i], key, now);
    }
  }

  // Which slot answers does not matter: with distinct keys there is only one.
  lemma LookupIff(slots: seq<Slot>, size: nat, key: Key, now: int, s: Slot)
    requires Inv(slots, size)
    ensures Lookup(slots, size, key, now) == Some(s) <==> s in slots[..size] && Hit(s, key, now)
  {
    if s in slots[..size] && Hit(s, key, now) {
      var i :| 0 <= i < size && slots[i] == s;
    }
  }

  // Sweeping cannot be observed by any lookup made at that time or later.
  lemma SweepIsInvisible(slots: seq<Slot>, size: nat, n: nat, now: int, key: Key, later: int)
    requires Inv(slots, size) && n <= size && now <= later
    ensures Inv(Sweep(slots, n, now), size)
    ensures Lookup(Sweep(slots, n, now), size, key, later) == Lookup(slots, size, key, later)
  {
    var swept := Sweep(slots, n, now);
    var before, after := FirstHit(slots, size, key, later), FirstHit(swept, size, key, later);
    if before < size {
      assert Hit(swept[before], key, later);
    }
    if after < size {
      assert Hit(slots[after], key, later);
    }
  }

  // A store after a missed lookup adds its own entry and drops at most one
  // other live entry, and that only when every slot is live.
  lemma StoreIsMapUpdate(slots: seq<Slot>, size: nat, key: Key, reply: CText, now: int, pick: u32, k: Key)
    requires Inv(slots, size) && Absent(slots, size, key)
    ensures var after := Stored(slots, size, key, reply, now, pick);
            && Inv(after, size)
            && Lookup(after, size, k, now)
               == if k == key then
                    Some(Slot(true, key, now + TTL, Truncate(reply, MAX_JSON_LEN + 1)))
                  else if AllLive(slots, size, now) && k == slots[pick % size].key then
                    None
                  else
                    Lookup(slots, size, k, now)
  {
    var after := Stored(slots, size, key, reply, now, pick);
    var v := Victim(slots, size, now, pick);
    var l, r := FirstHit(slots, size, k, now), FirstHit(after, size, k, now);
    assert Hit(after[v], key, now);
    if l < size && l != v {
      assert Hit(after[l], k, now);
    }
    if r < size && r != v {
      assert Hit(slots[r], k, now);
    }
  }
}
