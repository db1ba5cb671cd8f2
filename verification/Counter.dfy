// The two 16-bit counters of the frame layer: request ids (xid) and frame
// sequence numbers.  Both are zero until first used, are then seeded from the
// hardware random source, and skip zero when they wrap.
module Counter {
  import opened Types

  const PERIOD := 0xffff

  class SkipZeroCounter {
    var value: u16

    constructor ()
      ensures value == 0
    {
      value := 0;
    }

    // One draw.  `random` is what the random source would answer if asked.
    method Next(random: u32) returns (r: u16)
      modifies this
      ensures r == value == Successor(old(value), random)
    {
      if value == 0 {
        value := random % 0x1_0000;
      }
      value := (value + 1) % 0x1_0000;
      if value == 0 {
        value := (value + 1) % 0x1_0000;
      }
      r := value;
    }
  }

  // On the ring 1..65535 a draw is a plain rotation.
  function Successor(value: u16, random: u32): (r: u16)
    ensures r != 0
  {
    (if value == 0 then random % 0x1_0000 else value) % PERIOD + 1
  }

  // The counter after k draws; randoms[i] is the random value on offer at draw i.
  function After(randoms: seq<u32>, k: nat): u16
    requires k <= |randoms|
  {
    if k == 0 then 0 else Successor(After(randoms, k - 1), randoms[k - 1])
  }

  // The result of draw k, counting from zero.
  function Draw(randoms: seq<u32>, k: nat): u16
    requires k < |randoms|
  {
    After(randoms, k + 1)
  }

  // Every draw is determined by the first random value alone: the counter is
  // seeded once and never again.
  lemma {:induction false} DrawClosedForm(randoms: seq<u32>, k: nat)
    requires k < |randoms|
    ensures Draw(randoms, k) == (randoms[0] % 0x1_0000 + k) % PERIOD + 1
  {
    if k == 0 {
      assert After(randoms, 0) == 0;
    } else {
      DrawClosedForm(randoms, k - 1);
      var x := randoms[0] % 0x1_0000 + (k - 1);
      assert Draw(randoms, k) == Successor(x % PERIOD + 1, randoms[k]);
      RotateOnce(x);
    }
  }

  lemma RotateOnce(x: nat)
    ensures (x % PERIOD + 1) % PERIOD == (x + 1) % PERIOD
  {
  }

  // Two draws agree exactly when they are a multiple of 65535 apart, so any
  // 65535 consecutive draws are pairwise distinct and the period is exact.
  lemma DrawsEqualIff(randoms: seq<u32>, i: nat, j: nat)
    requires i < |randoms| && j < |randoms|
    ensures Draw(randoms, i) == Draw(randoms, j) <==> (i - j) % PERIOD == 0
  {
    DrawClosedForm(randoms, i);
    DrawClosedForm(randoms, j);
  }

  // Draws taken from two different random sources that agree on the first
  // value never come apart.
  lemma SeededOnce(randoms: seq<u32>, others: seq<u32>, k: nat)
    requires k < |randoms| && k < |others|
    requires randoms[0] % 0x1_0000 == others[0] % 0x1_0000
    ensures Draw(randoms, k) == Draw(others, k) != 0
  {
    DrawClosedForm(randoms, k);
    DrawClosedForm(others, k);
  }
}
