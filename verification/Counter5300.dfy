/**
 The W5300's free-size and received-size counters: 32 bits, read a 16-bit half at a time until two
 successive readings agree. `reg(t)` is the value the counter holds at the t-th bus access.
 */
module Counter5300 {
  import opened Arith
  import opened Fifo5300

  ghost predicate Grows(reg: nat -> u32)
  {
    forall i: nat, j: nat :: i <= j ==> reg(i) <= reg(j)
  }

  /** Upper half at one access, lower half at the next. */
  function Reading(reg: nat -> u32, t: nat): u32
  {
    reg(t) / 0x1_0000 * 0x1_0000 + reg(t + 1) % 0x1_0000
  }

  lemma ReadingBounds(reg: nat -> u32, t: nat)
    requires Grows(reg)
    ensures Reading(reg, t) <= reg(t + 1)
    ensures reg(t) / 0x1_0000 == reg(t + 1) / 0x1_0000 ==> Reading(reg, t) == reg(t + 1)
  {
    assert reg(t) <= reg(t + 1);
  }

  /** Two successive readings that agree name a value the counter really held. */
  lemma Agreement(reg: nat -> u32, t: nat)
    requires Grows(reg) && Reading(reg, t) == Reading(reg, t + 2)
    ensures Reading(reg, t) == reg(t + 1)
  {
    assert reg(t) <= reg(t + 1) <= reg(t + 2) <= reg(t + 3);
  }

  /** Two that disagree mean that it has grown meanwhile. */
  lemma Disagreement(reg: nat -> u32, t: nat)
    requires Grows(reg) && Reading(reg, t) != Reading(reg, t + 2)
    ensures reg(t) + reg(t + 1) < reg(t + 2) + reg(t + 3)
  {
    assert reg(t) <= reg(t + 1) <= reg(t + 2) <= reg(t + 3);
  }

  /** The counter held this value at one of the first n accesses. */
  ghost predicate Held(reg: nat -> u32, n: nat, val: u32)
  {
    exists i: nat :: i < n && reg(i) == val
  }

  /**
   getSn_TX_FSR: the first reading is compared with the constant 1, so a first reading of 1 is believed at
   once; any other result was read twice. The result was held by the counter, unless that first reading of 1
   was torn - which takes a counter that goes beyond 65535.
   */
  method GetCounter(reg: nat -> u32) returns (val: u32, t: nat)
    requires Grows(reg)
    ensures t >= 2 && val <= reg(t - 1)
    ensures val != 1 || t > 2 ==> t >= 4 && val == reg(t - 3)
    ensures val == 1 && t == 2 ==> Reading(reg, 0) == 1
    ensures Reading(reg, 0) == 1 ==> val == 1
    ensures !Held(reg, t, val) <==> t == 2 && reg(0) != 1 && reg(1) != 1
    ensures (forall i: nat :: reg(i) < 0x1_0000) ==> Held(reg, t, val)
  {
    hide Reading, Held;
    var last: u32 := 1;
    t := 0;
    val := Reading(reg, t);
    t := 2;
    ReadingBounds(reg, 0);
    while val != last
      invariant t >= 2 && val == Reading(reg, t - 2) && val <= reg(t - 1)
      invariant t == 2 ==> last == 1
      invariant t > 2 ==> t >= 4 && last == Reading(reg, t - 4) && Reading(reg, 0) != 1
      decreases 0x2_0000_0000 - reg(t - 2) - reg(t - 1), if val != last then 1 else 0
    {
      last := val;
      val := Reading(reg, t);
      ReadingBounds(reg, t);
      if val != last {
        Disagreement(reg, t - 2);
      } else {
        assert reg(t - 2) <= reg(t) && reg(t - 1) <= reg(t + 1);
      }
      t := t + 2;
    }
    if t > 2 {
      Agreement(reg, t - 4);
    }
    HeldOrTorn(reg, t, val);
  }

  lemma HeldOrTorn(reg: nat -> u32, t: nat, val: u32)
    requires Grows(reg) && t >= 2
    requires if t == 2 then val == 1 == Reading(reg, 0) else t >= 4 && val == reg(t - 3)
    ensures !Held(reg, t, val) <==> t == 2 && reg(0) != 1 && reg(1) != 1
    ensures (forall i: nat :: reg(i) < 0x1_0000) ==> Held(reg, t, val)
  {
    if t == 2 {
      if reg(1) < 0x1_0000 {
        SmallCountersNeverTear(reg, 0);
      }
      if Held(reg, t, val) {
        var i: nat :| i < t && reg(i) == val;
        assert i == 0 || i == 1;
      }
    } else {
      assert reg(t - 3) == val;
    }
  }

  /** getSn_RX_RSR: the same loop, and one more for a byte the host already carries. */
  method GetReceived(reg: nat -> u32, packInfo: bv8) returns (size: u32, t: nat, ghost val: u32)
    requires Grows(reg)
    ensures t >= 2 && val <= reg(t - 1)
    ensures size as int == (val as int + (if packInfo & PACK_FIFOBYTE != 0 then 1 else 0)) % 0x1_0000_0000
    ensures !Held(reg, t, val) <==> t == 2 && reg(0) != 1 && reg(1) != 1
    ensures (forall i: nat :: reg(i) < 0x1_0000) ==>
      Held(reg, t, val) && size as int == val as int + (if packInfo & PACK_FIFOBYTE != 0 then 1 else 0)
  {
    var n;
    n, t := GetCounter(reg);
    val := n;
    var sum: int := n;
    if packInfo & PACK_FIFOBYTE != 0 {
      sum := sum + 1;
    }
    size := sum % 0x1_0000_0000;
  }

  /** Below 65536 the upper half is zero throughout, and no reading is ever torn. */
  lemma SmallCountersNeverTear(reg: nat -> u32, t: nat)
    requires Grows(reg) && reg(t + 1) < 0x1_0000
    ensures Reading(reg, t) == reg(t + 1)
  {
    assert reg(t) <= reg(t + 1);
  }

  /** A counter that passes 65536 between the two halves of the first reading: 1 is returned, never held. */
  lemma TornOne() returns (reg: nat -> u32)
    ensures Grows(reg) && Reading(reg, 0) == 1 && forall t: nat :: reg(t) != 1
  {
    reg := (t: nat) => if t == 0 then 0xFFFF else 0x1_0001;
  }
}
