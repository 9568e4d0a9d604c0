/**
 A socket's TX or RX memory as an abstract ring: `region` holds the bytes, a free-running 16-bit
 pointer names a position, and position p lives in slot p modulo the ring size.
 */
module Ring {
  import opened Arith

  /** The sizes the chips offer: 1, 2, 4, 8 and 16 KB. */
  predicate RingSize(n: int) { n in {1024, 2048, 4096, 8192, 16384} }

  lemma RingSizeDivides(n: int)
    requires RingSize(n)
    ensures 0 < n < 0x1_0000 && 0x1_0000 % n == 0
  {
  }

  /** The slot of the k-th position from p on. */
  function Slot(p: nat, k: nat, n: nat): (s: nat)
    requires n > 0
    ensures s < n
  {
    (p + k) % n
  }

  /** How far slot k lies behind position p, going round the ring. */
  function Gap(k: nat, p: nat, n: nat): (d: nat)
    requires n > 0
    ensures d < n
  {
    (k - p) % n
  }

  /** The n bytes from position p on. */
  function RingRead(region: seq<byte>, p: nat, n: nat): (s: seq<byte>)
    requires |region| > 0
    ensures |s| == n
  {
    seq(n, i requires 0 <= i < n => region[Slot(p, i, |region|)])
  }

  /** The ring after data was stored at positions p, p + 1, ... */
  function RingWrite(region: seq<byte>, p: nat, data: seq<byte>): (r: seq<byte>)
    requires |region| > 0
    ensures |r| == |region|
  {
    seq(|region|, k requires 0 <= k < |region| =>
      var d := Gap(k, p, |region|);
      if d < |data| then data[d] else region[k])
  }

  // ----- slots -----

  /** `ptr & (size - 1)` is the slot of ptr, for every size the chips offer. */
  lemma MaskSelectsSlot(p: nat, n: nat)
    requires RingSize(n)
    ensures And(p, n - 1) == Slot(p, 0, n)
  {
    var k := if n == 1024 then 10 else if n == 2048 then 11 else if n == 4096 then 12 else if n == 8192 then 13 else 14;
    assert Pow2(10) == 1024;
    assert Pow2(11) == 2 * Pow2(10) && Pow2(12) == 2 * Pow2(11);
    assert Pow2(13) == 2 * Pow2(12) && Pow2(14) == 2 * Pow2(13);
    MaskIsRemainder(p, k);
  }

  /** Dropping the carry at 65536 does not move a position to another slot. */
  lemma SlotWrap(p: nat, k: nat, n: nat)
    requires n > 0 && 0x1_0000 % n == 0
    ensures Slot(p % 0x1_0000, k, n) == Slot(p, k, n)
  {
    WrapInvisible(p, k, n);
  }

  lemma SlotSum(p: nat, a: nat, k: nat, n: nat)
    requires n > 0
    ensures Slot(p + a, k, n) == Slot(p, a + k, n)
  {
    assert p + a + k == p + (a + k);
  }

  lemma SlotsDiffer(p: nat, a: nat, b: nat, n: nat)
    requires a < b < a + n
    ensures Slot(p, a, n) != Slot(p, b, n)
  {
    SlotsDistinct(p + a, p + b, n);
  }

  /** As long as the end of the window is not reached, slots follow each other. */
  lemma NextSlots(p: nat, k: nat, i: nat, n: nat)
    requires n > 0 && Slot(p, k, n) + i < n
    ensures Slot(p, k + i, n) == Slot(p, k, n) + i
  {
    DivModUnique(p + k + i, n, (p + k) / n, (p + k) % n + i);
  }

  /** Behind the last slot of the window comes its first. */
  lemma FirstSlot(p: nat, k: nat, i: nat, n: nat)
    requires n > 0 && Slot(p, k, n) + i == n
    ensures Slot(p, k + i, n) == 0
  {
    DivModUnique(p + k + i, n, (p + k) / n + 1, 0);
  }

  lemma GapOfSlot(p: nat, i: nat, n: nat)
    requires i < n
    ensures Gap(Slot(p, i, n), p, n) == i
  {
    ModAbsorb(p + i, 0 - p, n);
    DivModUnique(i, n, 0, i);
  }

  lemma SlotOfGap(k: nat, p: nat, n: nat)
    requires k < n
    ensures Slot(p, Gap(k, p, n), n) == k
  {
    ModAbsorb(k - p, p, n);
    DivModUnique(k, n, 0, k);
  }

  lemma GapWrap(k: nat, p: nat, n: nat)
    requires n > 0 && 0x1_0000 % n == 0
    ensures Gap(k, p % 0x1_0000, n) == Gap(k, p, n)
  {
    var c, t := 0x1_0000 / n, p / 0x1_0000;
    assert n * c == 0x1_0000;
    assert n * (c * t) == n * c * t;
    ModShift(k - p, n, c * t);
  }

  // ----- reads and writes -----

  /** Byte i of a write lands in slot (p + i) modulo the size. */
  lemma WriteAt(region: seq<byte>, p: nat, data: seq<byte>, i: nat)
    requires i < |data| <= |region|
    ensures RingWrite(region, p, data)[Slot(p, i, |region|)] == data[i]
  {
    GapOfSlot(p, i, |region|);
    hide Slot, Gap;
  }

  /** A write leaves every slot that is not among its own alone. */
  lemma WriteElsewhere(region: seq<byte>, p: nat, data: seq<byte>, i: nat)
    requires |data| <= i < |region|
    ensures RingWrite(region, p, data)[Slot(p, i, |region|)] == region[Slot(p, i, |region|)]
  {
    GapOfSlot(p, i, |region|);
    hide Slot, Gap;
  }

  lemma ReadSplit(region: seq<byte>, p: nat, a: nat, b: nat)
    requires |region| > 0 && 0x1_0000 % |region| == 0
    ensures RingRead(region, p, a + b) == RingRead(region, p, a) + RingRead(region, (p + a) % 0x1_0000, b)
  {
    hide Slot;
    var whole, tail := RingRead(region, p, a + b), RingRead(region, (p + a) % 0x1_0000, b);
    forall i | 0 <= i < b
      ensures whole[a + i] == tail[i]
    {
      SlotWrap(p + a, i, |region|);
      SlotSum(p, a, i, |region|);
    }
  }

  /** Whether or not the pointer has been cut to 16 bits makes no difference. */
  lemma WriteWrap(region: seq<byte>, p: nat, data: seq<byte>)
    requires |region| > 0 && 0x1_0000 % |region| == 0
    ensures RingWrite(region, p % 0x1_0000, data) == RingWrite(region, p, data)
  {
    hide Gap;
    forall k | 0 <= k < |region|
      ensures Gap(k, p % 0x1_0000, |region|) == Gap(k, p, |region|)
    {
      GapWrap(k, p, |region|);
    }
  }

  /** A position in front of p, seen from p: it is the size further on, less the distance. */
  lemma SlotBehind(p: nat, n: nat, i: nat, size: nat)
    requires i < n <= size
    ensures Slot(p, i, size) == Slot(p + n, size - n + i, size)
  {
    ModShift(p + i, size, 1);
  }

  /**
   The heart of the lossless FIFO: with n bytes pending from p on, storing data right behind them
   appends it to what is pending, as long as both together fit into the ring. Nothing pending is
   overwritten, however the 16-bit pointers wrap.
   */
  lemma AppendKeepsPending(region: seq<byte>, p: nat, n: nat, data: seq<byte>)
    requires 0 < |region| && 0x1_0000 % |region| == 0 && n + |data| <= |region|
    ensures RingRead(RingWrite(region, (p + n) % 0x1_0000, data), p, n + |data|) == RingRead(region, p, n) + data
  {
    hide Slot, Gap;
    var size := |region|;
    WriteWrap(region, p + n, data);
    var after := RingWrite(region, p + n, data);
    hide RingWrite;
    forall i | 0 <= i < n + |data|
      ensures after[Slot(p, i, size)] == (RingRead(region, p, n) + data)[i]
    {
      if i < n {
        SlotBehind(p, n, i, size);
        WriteElsewhere(region, p + n, data, size - n + i);
      } else {
        SlotSum(p, n, i - n, size);
        WriteAt(region, p + n, data, i - n);
      }
    }
  }

  /** One more byte of a write in progress. */
  lemma WriteOneMore(region: seq<byte>, p: nat, data: seq<byte>, b: byte)
    requires |data| < |region|
    ensures RingWrite(region, p, data + [b]) == RingWrite(region, p, data)[Slot(p, |data|, |region|) := b]
  {
    hide Slot, Gap;
    var n := |region|;
    var slot := Slot(p, |data|, n);
    GapOfSlot(p, |data|, n);
    forall k | 0 <= k < n
      ensures RingWrite(region, p, data + [b])[k] == RingWrite(region, p, data)[slot := b][k]
    {
      SlotOfGap(k, p, n);
    }
  }

  /** A byte stored k positions behind n pending ones does not disturb them. */
  lemma PokeKeepsPending(region: seq<byte>, p: nat, n: nat, k: nat, b: byte)
    requires n + k < |region|
    ensures RingRead(region[Slot(p, n + k, |region|) := b], p, n) == RingRead(region, p, n)
  {
    hide Slot;
    var poked := region[Slot(p, n + k, |region|) := b];
    forall i | 0 <= i < n
      ensures RingRead(poked, p, n)[i] == RingRead(region, p, n)[i]
    {
      SlotsDiffer(p, i, n + k, |region|);
    }
  }
}
