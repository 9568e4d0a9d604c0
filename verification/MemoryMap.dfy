/** How wizchip_init divides the W5100's 8 KB of TX and of RX memory among its four sockets. */
module MemoryMap {
  import opened Arith
  import opened Ring
  import opened Wrappers

  const SOCKETS := 4
  const TX_BUFFER := 0x4000
  const RX_BUFFER := 0x6000
  const AREA := 0x2000

  /** An int8_t: additions wrap. */
  function Int8(x: int): int { (x + 128) % 256 - 128 }

  lemma Int8Absorbs(a: int, b: int)
    ensures Int8(Int8(a) + b) == Int8(a + b)
  {
    ModAbsorb(a + 128, b, 256);
  }

  // ----- the size registers: two bits a socket -----

  function FieldMask(sn: nat): bv8
    requires sn < SOCKETS
  {
    if sn == 0 then 0x03 else if sn == 1 then 0x0C else if sn == 2 then 0x30 else 0xC0
  }

  function Shifted(v: bv8, sn: nat): bv8
    requires sn < SOCKETS
  {
    if sn == 0 then v else if sn == 1 then v << 2 else if sn == 2 then v << 4 else v << 6
  }

  /** setSn_TXMEM_SIZE: clear the socket's field, then OR the value in. */
  function SetField(reg: bv8, sn: nat, v: bv8): bv8
    requires sn < SOCKETS
  {
    (reg & !FieldMask(sn)) | Shifted(v, sn)
  }

  /** getSn_TXMEM_SIZE */
  function GetField(reg: bv8, sn: nat): bv8
    requires sn < SOCKETS
  {
    var f := reg & FieldMask(sn);
    if sn == 0 then f else if sn == 1 then f >> 2 else if sn == 2 then f >> 4 else f >> 6
  }

  /** Writing a field keeps two bits of the value, and leaves the fields below it alone. */
  lemma FieldWritten(reg: bv8, sn: nat, v: bv8, k: nat)
    requires sn < SOCKETS && k <= sn
    ensures GetField(SetField(reg, sn, v), k) == if k == sn then v & 3 else GetField(reg, k)
  {
    if sn == 0 {
    } else if sn == 1 {
    } else if sn == 2 {
    } else {
      assert sn == 3;
    }
  }

  /** getSn_TxMAX: 1 << field, in KB. */
  function BlockSize(reg: bv8, sn: nat): (n: nat)
    requires sn < SOCKETS
    ensures RingSize(n)
  {
    var f := GetField(reg, sn);
    if f == 0 then 1024 else if f == 1 then 2048 else if f == 2 then 4096 else 8192
  }

  /** Where a socket's block starts when the blocks lie one after the other. */
  function Base(start: nat, reg: bv8, sn: nat): (b: nat)
    requires sn <= SOCKETS
    ensures b >= start
  {
    if sn == 0 then start else Base(start, reg, sn - 1) + BlockSize(reg, sn - 1)
  }

  /** getSn_TxBASE and getSn_RxBASE */
  method GetBase(start: nat, reg: bv8, sn: nat) returns (base: nat)
    requires sn < SOCKETS
    ensures base == Base(start, reg, sn)
  {
    base := start;
    for i := 0 to sn
      invariant base == Base(start, reg, i)
    {
      base := base + BlockSize(reg, i);
    }
  }

  /** A block ends before any later one begins, and all of them before the end of the fourth. */
  lemma {:induction false} BlocksApart(start: nat, reg: bv8, i: nat, j: nat)
    requires i < j <= SOCKETS
    ensures Base(start, reg, i) + BlockSize(reg, i) <= Base(start, reg, j)
  {
    if i < j - 1 {
      BlocksApart(start, reg, i, j - 1);
    }
  }

  lemma FieldsWritten(reg: bv8, sn: nat, v: bv8)
    requires sn < SOCKETS
    ensures forall k :: 0 <= k <= sn ==>
      GetField(SetField(reg, sn, v), k) == if k == sn then v & 3 else GetField(reg, k)
  {
    forall k | 0 <= k <= sn
      ensures GetField(SetField(reg, sn, v), k) == if k == sn then v & 3 else GetField(reg, k)
    {
      FieldWritten(reg, sn, v, k);
    }
  }

  function Kilobytes(n: nat): nat { 1024 * n }

  // ----- what wizchip_init accepts and programs -----

  type Sizes = s: seq<byte> | |s| == SOCKETS witness [2, 2, 2, 2]

  function Sum(sizes: Sizes, k: nat): nat
    requires k <= SOCKETS
  {
    if k == 0 then 0 else Sum(sizes, k - 1) + sizes[k - 1]
  }

  /** The running sum is an int8_t, and is compared with 8 after every socket. */
  ghost predicate Accepted(sizes: Sizes)
  {
    forall k :: 1 <= k <= SOCKETS ==> Int8(Sum(sizes, k)) <= 8
  }

  /** The size code of the largest power of two that is no larger than v. */
  function SizeCode(v: byte): bv8
  {
    if v < 2 then 0 else if v < 4 then 1 else if v < 8 then 2 else if v < 16 then 3
    else if v < 32 then 4 else if v < 64 then 5 else if v < 128 then 6 else 7
  }

  /** A size of 0 whose guard is not 0. */
  predicate Endless(v: byte, guard: byte) { v == 0 && guard != 0 }

  /** The loop's state is a fixed point there: shifting 0 gives 0, which is not 1, and the guard does not change. */
  lemma ShiftedOut(shifted: byte)
    requires shifted == 0
    ensures shifted / 2 == shifted && shifted != 1
  {
  }

  lemma HalfCode(v: byte)
    requires v >= 2
    ensures SizeCode(v) == 1 + SizeCode(v / 2)
  {
  }

  /** The loop is skipped for a socket whose TX size is 0, in the RX half too. */
  predicate Programmed(reg: bv8, sizes: Sizes, txsize: Sizes, n: nat)
    requires n <= SOCKETS
  {
    forall i :: 0 <= i < n ==> GetField(reg, i) == (if txsize[i] == 0 then 0 else SizeCode(sizes[i]) & 3)
  }

  predicate PowerOfTwo(v: byte) { v in {1, 2, 4, 8} }

  /** A result code, or no return at all: an endless loop, or a read through a null pointer. */
  datatype Outcome = Code(code: int) | Hangs | NullRead

  predicate SomeEndless(sizes: Sizes, txsize: Sizes)
  {
    exists i :: 0 <= i < SOCKETS && Endless(sizes[i], txsize[i])
  }

  /** The TX vector the RX loop takes its guards from; without one no guard is read if every size is 1. */
  function Guards(sizes: Sizes, txsize: Option<Sizes>): Sizes { if txsize.Some? then txsize.value else sizes }

  /** What one half of wizchip_init comes to. */
  ghost function Half(sizes: Sizes, txsize: Option<Sizes>): Outcome
  {
    if !Accepted(sizes) then Code(-1)
    else if txsize.None? then (if exists i :: 0 <= i < SOCKETS && sizes[i] != 1 then NullRead else Code(0))
    else if SomeEndless(sizes, txsize.value) then Hangs
    else Code(0)
  }

  class SizeRegisters {
    var tmsr: bv8
    var rmsr: bv8
    /** What a reset of the chip puts into both. */
    const reset: bv8

    /**
     The loops of lines 482 and 518; `shifted` is v >> j. Once everything has been shifted out another shift
     changes nothing, so the loop does not end: None.
     */
    static method Log2(v: byte, guard: byte) returns (j: Option<bv8>)
      ensures j == if Endless(v, guard) then None else Some(if guard == 0 then 0 else SizeCode(v))
    {
      hide SizeCode;
      var count: bv8 := 0;
      var shifted: byte := v;
      CodeOf(1);
      while shifted != 1 && guard != 0
        invariant guard == 0 ==> count == 0
        invariant v == 0 <==> shifted == 0
        invariant guard != 0 && v != 0 ==> count + SizeCode(shifted) == SizeCode(v)
        decreases shifted
      {
        if shifted == 0 {
          ShiftedOut(shifted);
          return None;
        }
        HalfCode(shifted);
        shifted := shifted / 2;
        count := count + 1;
      }
      j := Some(count);
    }

    static method CheckSizes(sizes: Sizes) returns (ok: bool)
      ensures ok <==> Accepted(sizes)
    {
      hide Int8;
      var tmp := Int8(0);
      for i := 0 to SOCKETS
        invariant tmp == Int8(Sum(sizes, i))
        invariant forall k :: 1 <= k <= i ==> Int8(Sum(sizes, k)) <= 8
      {
        Int8Absorbs(Sum(sizes, i), sizes[i]);
        tmp := Int8(tmp + sizes[i]);
        assert tmp == Int8(Sum(sizes, i + 1));
        if tmp > 8 {
          return false;
        }
      }
      ok := true;
    }

    /** One half of wizchip_init: the check, then the size fields in ascending order. */
    static method Program(sizes: Sizes, txsize: Option<Sizes>, reg0: bv8) returns (outcome: Outcome, reg: bv8)
      ensures outcome == Half(sizes, txsize)
      ensures outcome == Code(0) ==> Programmed(reg, sizes, Guards(sizes, txsize), SOCKETS)
      ensures outcome == Code(-1) ==> reg == reg0
    {
      reg := reg0;
      var ok := CheckSizes(sizes);
      if !ok {
        return Code(-1), reg;
      }
      for i := 0 to SOCKETS
        invariant Programmed(reg, sizes, Guards(sizes, txsize), i)
        invariant forall k :: 0 <= k < i ==> if txsize.None? then sizes[k] == 1 else !Endless(sizes[k], txsize.value[k])
      {
        // the guard is read as soon as a shift is not 1
        if txsize.None? && sizes[i] != 1 {
          return NullRead, reg;
        }
        var j := Log2(sizes[i], Guards(sizes, txsize)[i]);
        if j.None? {
          return Hangs, reg;
        }
        FieldsWritten(reg, i, j.value);
        reg := SetField(reg, i, j.value);
      }
      outcome := Code(0);
    }

    constructor (reset: bv8)
      ensures this.reset == reset && tmsr == reset && rmsr == reset
    {
      this.reset, tmsr, rmsr := reset, reset, reset;
    }

    /**
     A vector left out, a null pointer, is `None`. The RX loop reads the TX vector's elements, so an RX vector
     alone is programmed only if it asks for 1 KB everywhere.
     */
    method WizchipInit(txsize: Option<Sizes>, rxsize: Option<Sizes>) returns (outcome: Outcome)
      modifies this
      ensures outcome in {Code(0), Code(-1), Hangs, NullRead}
      ensures outcome == Code(-1) <==>
        (txsize.Some? && !Accepted(txsize.value)) || (rxsize.Some? && !Accepted(rxsize.value))
      ensures outcome == Hangs <==>
        && txsize.Some? && rxsize.Some? && Accepted(txsize.value) && Accepted(rxsize.value)
        && exists i :: 0 <= i < SOCKETS && rxsize.value[i] == 0 && txsize.value[i] != 0
      ensures outcome == NullRead <==>
        && txsize.None? && rxsize.Some? && Accepted(rxsize.value)
        && exists i :: 0 <= i < SOCKETS && rxsize.value[i] != 1
      ensures outcome == Code(0) && rxsize.Some? ==>
        Programmed(rmsr, rxsize.value, Guards(rxsize.value, txsize), SOCKETS)
      // a vector left out or refused leaves its registers as after the reset
      ensures txsize.Some? && Accepted(txsize.value) ==> Programmed(tmsr, txsize.value, txsize.value, SOCKETS)
      ensures txsize.None? || !Accepted(txsize.value) ==> tmsr == reset
      ensures rxsize.None? || outcome == Code(-1) ==> rmsr == reset
    {
      hide Accepted, Programmed;
      tmsr, rmsr := reset, reset;
      if txsize.Some? {
        outcome, tmsr := Program(txsize.value, txsize, tmsr);
        if outcome != Code(0) { return; }
      }
      if rxsize.Some? {
        outcome, rmsr := Program(rxsize.value, txsize, rmsr);
        if outcome != Code(0) { return; }
      }
      outcome := Code(0);
    }
  }

  // ----- when the partition is the one asked for -----

  /** Sizes that are powers of two never wrap the int8_t: they are accepted exactly when they fit in 8 KB. */
  lemma PowersAccepted(sizes: Sizes)
    requires forall i :: 0 <= i < SOCKETS ==> PowerOfTwo(sizes[i])
    ensures Accepted(sizes) <==> Sum(sizes, SOCKETS) <= 8
  {
    assert Sum(sizes, 1) == sizes[0] && Sum(sizes, 2) == sizes[0] + sizes[1];
    assert Sum(sizes, 3) == sizes[0] + sizes[1] + sizes[2];
    assert Sum(sizes, 4) == sizes[0] + sizes[1] + sizes[2] + sizes[3];
    forall k | 1 <= k <= SOCKETS
      ensures Int8(Sum(sizes, k)) == Sum(sizes, k) <= Sum(sizes, SOCKETS)
    {
    }
  }

  /**
   Every socket gets the TX or RX size it was asked for exactly when every size is 1, 2, 4 or 8 and, in the
   RX half, the socket's TX size is not 0 (or the RX size is the 1 KB that a skipped loop leaves).
   */
  lemma SizesAsAsked(reg: bv8, sizes: Sizes, txsize: Sizes)
    requires Programmed(reg, sizes, txsize, SOCKETS)
    ensures (forall i :: 0 <= i < SOCKETS ==> BlockSize(reg, i) == Kilobytes(sizes[i]))
       <==> (forall i :: 0 <= i < SOCKETS ==> PowerOfTwo(sizes[i]) && (txsize[i] != 0 || sizes[i] == 1))
  {
    forall i | 0 <= i < SOCKETS
      ensures BlockSize(reg, i) == Kilobytes(sizes[i]) <==> PowerOfTwo(sizes[i]) && (txsize[i] != 0 || sizes[i] == 1)
    {
      CodeOf(sizes[i]);
    }
  }

  lemma CodeOf(v: byte)
    ensures v in {0, 1} ==> SizeCode(v) == 0
    ensures PowerOfTwo(v) ==> SizeCode(v) <= 3
    ensures v in {2, 4, 8} ==> SizeCode(v) & 3 == (if v == 2 then 1 else if v == 4 then 2 else 3)
    ensures SizeCode(v) & 3 <= 3 && (v >= 128 ==> SizeCode(v) & 3 == 3)
  {
  }

  // ----- when the blocks fit the chip -----

  /** The KB a socket is given: the largest power of two below the size, its exponent modulo 4; 1 for a skipped loop. */
  function Granted(size: byte, guard: byte): nat
  {
    if guard == 0 || size < 2 then 1 else if size < 4 then 2 else if size < 8 then 4 else if size < 16 then 8
    else if size < 32 then 1 else if size < 64 then 2 else if size < 128 then 4 else 8
  }

  function GrantedSum(sizes: Sizes, txsize: Sizes, k: nat): nat
    requires k <= SOCKETS
  {
    if k == 0 then 0 else GrantedSum(sizes, txsize, k - 1) + Granted(sizes[k - 1], txsize[k - 1])
  }

  lemma BlockIsGranted(reg: bv8, sizes: Sizes, txsize: Sizes, i: nat)
    requires Programmed(reg, sizes, txsize, SOCKETS) && i < SOCKETS
    ensures BlockSize(reg, i) == Kilobytes(Granted(sizes[i], txsize[i]))
  {
    assert GetField(reg, i) == (if txsize[i] == 0 then 0 else SizeCode(sizes[i]) & 3);
  }

  lemma {:induction false} BaseIsGranted(start: nat, reg: bv8, sizes: Sizes, txsize: Sizes, k: nat)
    requires Programmed(reg, sizes, txsize, SOCKETS) && k <= SOCKETS
    ensures Base(start, reg, k) == start + Kilobytes(GrantedSum(sizes, txsize, k))
  {
    if k > 0 {
      BaseIsGranted(start, reg, sizes, txsize, k - 1);
      BlockIsGranted(reg, sizes, txsize, k - 1);
    }
  }

  /** Every block lies inside the 8 KB area exactly when the KB granted add up to at most 8. */
  lemma AreaFits(start: nat, reg: bv8, sizes: Sizes, txsize: Sizes)
    requires Programmed(reg, sizes, txsize, SOCKETS)
    ensures (forall i :: 0 <= i < SOCKETS ==> Base(start, reg, i) + BlockSize(reg, i) <= start + AREA)
       <==> GrantedSum(sizes, txsize, SOCKETS) <= 8
    ensures Base(start, reg, SOCKETS) <= start + AREA <==> GrantedSum(sizes, txsize, SOCKETS) <= 8
  {
    BaseIsGranted(start, reg, sizes, txsize, SOCKETS);
    assert Base(start, reg, SOCKETS) == Base(start, reg, 3) + BlockSize(reg, 3);
    forall i | 0 <= i < SOCKETS
      ensures Base(start, reg, i) + BlockSize(reg, i) <= Base(start, reg, SOCKETS)
    {
      BlocksApart(start, reg, i, SOCKETS);
    }
  }

  /** Sizes that are powers of two, none of them 0 in the TX vector, are granted as they are. */
  lemma {:induction false} PowersGranted(sizes: Sizes, txsize: Sizes, k: nat)
    requires k <= SOCKETS && forall i :: 0 <= i < SOCKETS ==> PowerOfTwo(sizes[i]) && txsize[i] != 0
    ensures GrantedSum(sizes, txsize, k) == Sum(sizes, k)
  {
    if k > 0 {
      PowersGranted(sizes, txsize, k - 1);
    }
  }

  /** No size may be granted more than it asks for: so vectors without zeros that truly add up to 8 always fit. */
  lemma {:induction false} NonzeroFits(sizes: Sizes, txsize: Sizes, k: nat)
    requires k <= SOCKETS && forall i :: 0 <= i < SOCKETS ==> sizes[i] != 0
    ensures GrantedSum(sizes, txsize, k) <= Sum(sizes, k)
  {
    if k > 0 {
      NonzeroFits(sizes, txsize, k - 1);
    }
  }

  /** What the rest of the library builds on: disjoint blocks of the sizes asked for, inside the 8 KB area. */
  lemma PartitionIsSound(reg: bv8, sizes: Sizes, txsize: Sizes, start: nat, i: nat, j: nat)
    requires Accepted(sizes) && Programmed(reg, sizes, txsize, SOCKETS)
    requires forall k :: 0 <= k < SOCKETS ==> PowerOfTwo(sizes[k]) && txsize[k] != 0
    requires i < j < SOCKETS
    ensures BlockSize(reg, i) == Kilobytes(sizes[i]) && BlockSize(reg, j) == Kilobytes(sizes[j])
    ensures start <= Base(start, reg, i)
    ensures Base(start, reg, i) + BlockSize(reg, i) <= Base(start, reg, j)
    ensures Base(start, reg, j) + BlockSize(reg, j) <= start + AREA
  {
    SizesAsAsked(reg, sizes, txsize);
    PowersAccepted(sizes);
    BlocksApart(start, reg, i, j);
    PowersGranted(sizes, txsize, SOCKETS);
    AreaFits(start, reg, sizes, txsize);
  }

  // ----- inputs that are accepted although the partition is not the one asked for -----

  /** The int8_t wraps: 512 KB pass the test, and every socket is given 8 KB of the 8 KB. */
  lemma WrapAccepted(reg: bv8)
    ensures Accepted([128, 128, 128, 128])
    ensures Programmed(reg, [128, 128, 128, 128], [128, 128, 128, 128], SOCKETS) ==>
      Base(TX_BUFFER, reg, SOCKETS) == TX_BUFFER + 4 * AREA
  {
    var s: Sizes := [128, 128, 128, 128];
    assert Sum(s, 1) == 128 && Sum(s, 2) == 256 && Sum(s, 3) == 384 && Sum(s, 4) == 512;
    if Programmed(reg, s, s, SOCKETS) {
      forall i | 0 <= i < SOCKETS
        ensures BlockSize(reg, i) == AREA
      {
        CodeOf(128);
        assert GetField(reg, i) == SizeCode(s[i]) & 3;
      }
      assert Base(TX_BUFFER, reg, 1) == Base(TX_BUFFER, reg, 0) + AREA;
      assert Base(TX_BUFFER, reg, 2) == Base(TX_BUFFER, reg, 1) + AREA;
      assert Base(TX_BUFFER, reg, 3) == Base(TX_BUFFER, reg, 2) + AREA;
      assert Base(TX_BUFFER, reg, 2) == TX_BUFFER + 2 * AREA;
    }
  }

  /** A size of 0 is given 1 KB: 8 KB for the first socket leaves the other three outside the area. */
  lemma ZeroIsOneKilobyte(reg: bv8)
    requires Programmed(reg, [8, 0, 0, 0], [8, 0, 0, 0], SOCKETS)
    ensures Accepted([8, 0, 0, 0])
    ensures BlockSize(reg, 0) == AREA && BlockSize(reg, 3) == 1024
    ensures Base(TX_BUFFER, reg, 1) == TX_BUFFER + AREA
  {
    var s: Sizes := [8, 0, 0, 0];
    assert Sum(s, 1) == 8 && Sum(s, 2) == 8 && Sum(s, 3) == 8 && Sum(s, 4) == 8;
    assert s[0] == 8 && s[3] == 0;
    CodeOf(8);
    assert GetField(reg, 0) == SizeCode(8) & 3;
    assert GetField(reg, 3) == 0;
  }
}
