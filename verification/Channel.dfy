/**
 One socket as the host and the chip share it: its registers and its windows into the chip's TX and
 RX memory. Every method that stands for a bus access first lets the chip run for an arbitrary while
 (`Env`), so a contract that holds of a method holds for every interleaving with the chip.
 */
module ChannelModel {
  import opened Arith
  import opened Ring
  import opened Wire

  /** W5100 (and W5100S, W5200) wrap in software; W5500 wraps in hardware. */
  datatype Kind = W5100 | W5500

  // ----- the chip's rules -----

  /** The number of bytes SENT but not yet taken. */
  function TxPending(r: Regs): nat { Dist(r.txRd, r.txEnd) }

  /** The number of bytes received and not yet released by RECV: the register Sn_RX_RSR. */
  function RxPending(r: Regs): nat { Dist(r.rxAck, r.rxWr) }

  /** TX memory from txRd to txEnd holds exactly the accepted bytes the chip has not taken yet. */
  ghost predicate TxInv(r: Regs, h: Hist, region: seq<byte>)
  {
    && |region| > 0
    && TxPending(r) <= |region|
    && h.accepted == h.taken + RingRead(region, r.txRd, TxPending(r))
  }

  /** RX memory from rxAck to rxWr holds exactly the arrived bytes not released yet. */
  ghost predicate RxInv(r: Regs, h: Hist, region: seq<byte>)
  {
    && |region| > 0
    && RxPending(r) <= |region|
    && h.arrived == h.delivered + RingRead(region, r.rxAck, RxPending(r))
  }

  /** A datagram socket receives whole framed packets; a connection starts with empty streams. */
  ghost predicate StreamInv(r: Regs, h: Hist)
  {
    && (forall p :: p in h.packets ==> PacketOk(h.mode, p))
    && (IsDatagram(h.mode) ==> h.arrived == Stream(h.mode, h.packets))
    && (r.sr != CLOSED ==> r.sr == OpenStatus(r.mode) || r.mode == TCP)
    && (r.sr != CLOSED ==> r.mode == h.mode)
    && (Fresh(r.sr) ==> h.accepted == h.taken == h.arrived == h.delivered == [] && h.unacked == 0)
  }

  /** What a socket keeps when it is taken down: its streams, and everything the host has to know of them. */
  ghost predicate Shut(r: Regs, h: Hist, r': Regs, h': Hist)
  {
    && r'.mode == r.mode && (AtRest(r) ==> AtRest(r'))
    && h'.mode == h.mode && h'.accepted == h.accepted && h'.delivered == h.delivered && h'.unacked <= h.unacked
    && h.arrived <= h'.arrived && h.packets <= h'.packets && |h.taken| <= |h'.taken|
    && (Ended(r.sr) ==> h'.arrived == h.arrived)
  }

  lemma ChipRunShut(r: Regs, h: Hist, r': Regs, h': Hist)
    requires ChipRun(r, h, r', h')
    ensures Shut(r, h, r', h')
  {
  }

  lemma ShutFacts(r: Regs, h: Hist, r': Regs, h': Hist)
    requires Shut(r, h, r', h')
    ensures h'.delivered == h.delivered && h'.accepted == h.accepted && |h.taken| <= |h'.taken|
    ensures h.arrived <= h'.arrived && (Ended(r.sr) ==> h'.arrived == h.arrived)
  {
  }

  /** Between host calls nothing is stored that was not SENT, and nothing was read that was not released. */
  predicate AtRest(r: Regs) { r.txWr == r.txEnd && r.rxRd == r.rxAck }

  /** What the chip may do to a socket on its own: (r, h) becomes (r', h'). */
  ghost predicate ChipRun(r: Regs, h: Hist, r': Regs, h': Hist)
  {
    && r'.mode == r.mode && Later(r.sr, r'.sr)
    && (r.sendok ==> r'.sendok) && (r.timeout ==> r'.timeout)
    && h'.mode == h.mode && h'.accepted == h.accepted && h'.delivered == h.delivered && h'.unacked == h.unacked
    && h.arrived <= h'.arrived && h.packets <= h'.packets && |h.taken| <= |h'.taken|
    && (Ended(r.sr) ==> h'.arrived == h.arrived)
    && (AtRest(r) ==> AtRest(r'))
    && (!Fresh(r.sr) ==> r'.txEnd == r.txEnd && r'.txWr == r.txWr && r'.rxAck == r.rxAck && r'.rxRd == r.rxRd)
  }

  /** What clearing SENDOK, or not, does to the number of SENDs not acknowledged. */
  predicate Consumed(clear: bool, raised: bool, before: nat, after: nat)
  {
    && (after == before || (clear && after == before - 1))
    && (clear && raised && before > 0 ==> after == before - 1)
  }

  lemma ChipRunSelf(r: Regs, h: Hist)
    ensures ChipRun(r, h, r, h)
  {
  }

  lemma ChipRunGrows(r: Regs, h: Hist, r': Regs, h': Hist)
    requires ChipRun(r, h, r', h')
    ensures h'.accepted == h.accepted && h'.delivered == h.delivered
    ensures |h.arrived| <= |h'.arrived| && |h.taken| <= |h'.taken|
  {
  }

  /** The chip does not take an interrupt bit back. */
  lemma ChipRunRaises(r: Regs, h: Hist, r': Regs, h': Hist)
    requires ChipRun(r, h, r', h')
    ensures (r.sendok ==> r'.sendok) && (r.timeout ==> r'.timeout)
  {
  }

  lemma ChipRunTwice(r0: Regs, h0: Hist, r1: Regs, h1: Hist, r2: Regs, h2: Hist)
    requires ChipRun(r0, h0, r1, h1) && ChipRun(r1, h1, r2, h2)
    ensures ChipRun(r0, h0, r2, h2)
  {
  }

  /** What a host call under way relies on while the chip runs. */
  lemma ChipRunFacts(r: Regs, h: Hist, r': Regs, h': Hist)
    requires ChipRun(r, h, r', h') && !Fresh(r.sr)
    ensures !Fresh(r'.sr) && r'.txEnd == r.txEnd && r'.txWr == r.txWr && r'.rxAck == r.rxAck && r'.rxRd == r.rxRd
    ensures h'.accepted == h.accepted && h'.delivered == h.delivered && h.arrived <= h'.arrived && h'.mode == h.mode
  {
  }

  /** What SEND adds to the datagrams sent: one with all the bytes stored, unless the socket is a stream. */
  function Formed(mode: Mode, dest: Endpoint, data: seq<byte>): seq<Datagram>
  {
    if IsDatagram(mode) then [Datagram(dest, data)] else []
  }

  lemma DrainKeeps(r: Regs, h: Hist, region: seq<byte>, k: nat)
    requires TxInv(r, h, region) && RingSize(|region|) && k <= TxPending(r)
    ensures TxInv(r.(txRd := Advance(r.txRd, k)), h.(taken := h.taken + RingRead(region, r.txRd, k)), region)
  {
    hide RingRead, RingWrite, Dist, Advance, RingSize, Slot;
    RingSizeDivides(|region|);
    ReadSplit(region, r.txRd, k, TxPending(r) - k);
    DistShrinks(r.txRd, r.txEnd, k);
    AdvanceIs(r.txRd, k);
  }

  lemma ArriveKeeps(r: Regs, h: Hist, region: seq<byte>, data: seq<byte>)
    requires RxInv(r, h, region) && RingSize(|region|) && RxPending(r) + |data| <= |region|
    ensures RxInv(r.(rxWr := Advance(r.rxWr, |data|)), h.(arrived := h.arrived + data),
                  RingWrite(region, r.rxWr, data))
  {
    hide RingRead, RingWrite, Dist, Advance, RingSize, Slot;
    RingSizeDivides(|region|);
    DistEnd(r.rxAck, r.rxWr);
    AppendKeepsPending(region, r.rxAck, RxPending(r), data);
    DistGrows(r.rxAck, r.rxWr, |data|);
  }

  lemma TxCounts(r: Regs, h: Hist, region: seq<byte>)
    requires TxInv(r, h, region)
    ensures TxPending(r) == |h.accepted| - |h.taken| <= |region| && h.taken <= h.accepted && |region| > 0
  {
  }

  lemma RxCounts(r: Regs, h: Hist, region: seq<byte>)
    requires RxInv(r, h, region)
    ensures RxPending(r) == |h.arrived| - |h.delivered| <= |region| && h.delivered <= h.arrived && |region| > 0
  {
  }

  /** The k-th byte pending in RX memory is the k-th arrived and not released. */
  lemma PendingByte(r: Regs, h: Hist, region: seq<byte>, k: nat)
    requires RxInv(r, h, region) && k < RxPending(r)
    ensures |h.delivered| + k < |h.arrived|
    ensures h.arrived[|h.delivered| + k] == region[Slot(r.rxAck, k, |region|)]
  {
    hide Slot;
    assert RingRead(region, r.rxAck, RxPending(r))[k] == region[Slot(r.rxAck, k, |region|)];
  }

  // ----- what the host's register writes keep, beside the ring they act on -----

  lemma IrKeeps(r0: Regs, h0: Hist, r: Regs, h: Hist, tx: seq<byte>, rx: seq<byte>, sendok: bool, timeout: bool)
    requires ChipRun(r0, h0, r, h) && TxInv(r, h, tx) && RxInv(r, h, rx) && StreamInv(r, h)
    ensures
      var h' := h.(unacked := if sendok && r.sendok && h.unacked > 0 then h.unacked - 1 else h.unacked);
      var r' := r.(sendok := r.sendok && !sendok, timeout := r.timeout && !timeout);
      && TxInv(r', h', tx) && RxInv(r', h', rx) && StreamInv(r', h')
      && ChipRun(r0.(sendok := r0.sendok && !sendok, timeout := r0.timeout && !timeout),
                 h0.(unacked := h'.unacked), r', h')
      && Consumed(sendok, r0.sendok, h0.unacked, h'.unacked)
  {
    hide RingRead, Dist, Stream, PacketOk;
  }

  lemma SendKeepsRest(r0: Regs, h0: Hist, r: Regs, h: Hist, tx: seq<byte>, rx: seq<byte>, data: seq<byte>)
    requires ChipRun(r0, h0, r, h) && !Fresh(r0.sr) && RxInv(r, h, rx) && StreamInv(r, h)
    requires TxInv(r.(txEnd := r.txWr), h.(accepted := h.accepted + data), tx)
    ensures
      var h' := h.(accepted := h.accepted + data, unacked := h.unacked + 1);
      var r' := r.(txEnd := r.txWr);
      && TxInv(r', h', tx) && RxInv(r', h', rx) && StreamInv(r', h')
      && ChipRun(r0.(txEnd := r0.txWr), h0.(unacked := h0.unacked + 1, accepted := h0.accepted + data), r', h')
  {
    hide RingRead, Dist, Stream, PacketOk;
  }

  lemma RecvKeepsRest(r0: Regs, h0: Hist, r: Regs, h: Hist, tx: seq<byte>, n: nat)
    requires ChipRun(r0, h0, r, h) && !Fresh(r0.sr) && TxInv(r, h, tx) && StreamInv(r, h)
    requires |h.delivered| + n <= |h0.arrived|
    ensures
      var h' := h.(delivered := h.arrived[..|h.delivered| + n]);
      var r' := r.(rxAck := r.rxRd);
      && TxInv(r', h', tx) && StreamInv(r', h')
      && ChipRun(r0.(rxAck := r0.rxRd), h0.(delivered := h0.arrived[..|h0.delivered| + n]), r', h')
  {
    hide RingRead, Dist, Stream, PacketOk;
    PrefixTake(h0.arrived, h.arrived, |h.delivered| + n);
  }

  /** A command that only moves Sn_SR, towards a state in which no more is demanded of the streams. */
  lemma StatusKeepsInv(r: Regs, h: Hist, tx: seq<byte>, rx: seq<byte>, s: Status)
    requires TxInv(r, h, tx) && RxInv(r, h, rx) && StreamInv(r, h)
    requires s == CLOSED || (r.mode == TCP && r.sr != CLOSED && (Fresh(s) ==> Fresh(r.sr)))
    ensures TxInv(r.(sr := s), h, tx) && RxInv(r.(sr := s), h, rx) && StreamInv(r.(sr := s), h)
  {
    hide RingRead, Dist, Stream, PacketOk;
  }

  lemma StillInit(r: Regs, h: Hist, r': Regs, h': Hist, s: Status)
    requires ChipRun(r, h, r', h') && StreamInv(r', h') && r.sr == INIT && Fresh(s)
    ensures r'.sr == INIT && r'.mode == TCP && ChipRun(r.(sr := s), h, r'.(sr := s), h')
  {
  }

  lemma OpenMode(r: Regs, h: Hist)
    requires StreamInv(r, h)
    ensures r.sr != CLOSED ==> r.mode == TCP || r.sr == OpenStatus(r.mode)
  {
  }

  lemma PrefixTake(a: seq<byte>, b: seq<byte>, n: nat)
    requires a <= b && n <= |a|
    ensures a[..n] == b[..n]
  {
  }

  lemma NothingPending(r: Regs, h: Hist, region: seq<byte>)
    requires RxInv(r, h, region) && RxPending(r) == 0
    ensures h.delivered == h.arrived
  {
    assert h.delivered + [] == h.delivered;
  }

  /** A byte stored beyond what is pending does not disturb it. */
  lemma StoreKeeps(r: Regs, h: Hist, region: seq<byte>, k: nat, b: byte)
    requires TxInv(r, h, region) && RingSize(|region|) && TxPending(r) + k < |region|
    ensures TxInv(r, h, region[Slot(r.txEnd, k, |region|) := b])
  {
    hide RingRead, RingWrite, Dist, Advance, RingSize, Slot;
    RingSizeDivides(|region|);
    DistEnd(r.txRd, r.txEnd);
    PokeKeepsPending(region, r.txRd, TxPending(r), k, b);
    SlotWrap(r.txRd + TxPending(r), k, |region|);
    SlotSum(r.txRd, TxPending(r), k, |region|);
  }

  /** SEND hands over what was stored behind the pending bytes. */
  lemma SendKeeps(r: Regs, h: Hist, region: seq<byte>, n: nat)
    requires TxInv(r, h, region) && RingSize(|region|)
    requires r.txWr == Advance(r.txEnd, n) && TxPending(r) + n <= |region|
    ensures TxInv(r.(txEnd := r.txWr), h.(accepted := h.accepted + RingRead(region, r.txEnd, n)), region)
  {
    hide RingRead, RingWrite, Dist, Advance, RingSize, Slot;
    RingSizeDivides(|region|);
    DistEnd(r.txRd, r.txEnd);
    ReadSplit(region, r.txRd, TxPending(r), n);
    DistGrows(r.txRd, r.txEnd, n);
  }

  lemma EmptyWrite(region: seq<byte>, p: nat)
    requires |region| > 0
    ensures RingWrite(region, p, []) == region
  {
  }

  /** What was stored at p is what is read from p. */
  lemma StoredIsRead(region: seq<byte>, p: u16, data: seq<byte>)
    requires RingSize(|region|) && |data| <= |region|
    ensures RingRead(RingWrite(region, p, data), p, |data|) == data
    ensures Dist(p, Advance(p, |data|)) == |data|
  {
    hide RingRead, RingWrite, Dist, Advance, RingSize, Slot;
    RingSizeDivides(|region|);
    assert (p + 0) % 0x1_0000 == p;
    AppendKeepsPending(region, p, 0, data);
    DistEnd(p, p);
    DistGrows(p, p, |data|);
    assert RingRead(region, p, 0) + data == data;
  }

  /** RECV releases a prefix of the pending bytes. */
  lemma RecvKeeps(r: Regs, h: Hist, region: seq<byte>, n: nat)
    requires RxInv(r, h, region) && RingSize(|region|)
    requires r.rxRd == Advance(r.rxAck, n) && n <= RxPending(r)
    ensures RxInv(r.(rxAck := r.rxRd), h.(delivered := h.arrived[..|h.delivered| + n]), region)
  {
    hide RingRead, RingWrite, Dist, Advance, RingSize, Slot;
    RingSizeDivides(|region|);
    ReadSplit(region, r.rxAck, n, RxPending(r) - n);
    DistShrinks(r.rxAck, r.rxWr, n);
    AdvanceIs(r.rxAck, n);
  }

  /**
   A counter's upper byte is read while it holds v0 (in the 256-page p0), its lower byte while it
   holds v1 (in page p1): this is the value put together.
   */
  predicate Torn(val: int, v0: int, v1: int, p0: int, p1: int)
  {
    0 <= v0 - 256 * p0 < 256 && 0 <= v1 - 256 * p1 < 256 && val == 256 * p0 + (v1 - 256 * p1)
  }

  /** What makes a reading give 0: an upper byte 0 and, later, a lower byte 0 - of 0 itself, or torn. */
  predicate ReadsZero(v0: nat, v1: nat) { v0 < 256 && v1 % 256 == 0 }

  lemma OneReading(val: int, v0: int, v1: int, p0: int, p1: int)
    requires 0 <= v0 <= v1 && Torn(val, v0, v1, p0, p1)
    ensures 0 <= val <= v1 && (v0 == v1 ==> val == v0) && (val == 0 && v0 > 0 ==> v0 < v1)
  {
  }

  lemma ZeroReading(val: int, v0: nat, v1: nat, p0: int, p1: int)
    requires Torn(val, v0, v1, p0, p1)
    ensures val == 0 <==> ReadsZero(v0, v1)
  {
  }

  /**
   Of a counter that grows a zero is torn exactly when its first byte is read of 1 to 255: it then reached a
   multiple of 256 before the second.
   */
  lemma TornZero(v0: nat, v1: nat)
    requires v0 <= v1 && ReadsZero(v0, v1)
    ensures 0 !in [v0, v1] <==> v0 > 0
    ensures v0 > 0 ==> v0 < 256 <= v1
  {
  }

  /** The register was read once, as 0. */
  ghost predicate OneZero(before: seq<nat>, after: seq<nat>)
  {
    && |after| == |before| + 2 && before <= after
    && after[|before|] <= after[|before| + 1] && ReadsZero(after[|before|], after[|before| + 1])
  }

  /** A result is a value the counter held, unless it is a torn zero. */
  lemma HeldOrTorn(before: seq<nat>, after: seq<nat>, val: nat, instant: nat)
    requires before < after
    requires if val == 0 then OneZero(before, after) else |before| <= instant < |after| && after[instant] == val
    ensures val !in after[|before|..] <==> val == 0 && after[|before|] > 0
  {
    if val == 0 {
      assert after[|before|..] == [after[|before|], after[|before| + 1]];
      TornZero(after[|before|], after[|before| + 1]);
    } else {
      assert after[|before|..][instant - |before|] == val;
    }
  }

  /** Two byte-wise readings of a growing counter that agree: the counter really held that value in between. */
  lemma NoTear(first: int, second: int, v0: int, v1: int, v2: int, v3: int, p0: int, p1: int, p2: int, p3: int)
    requires 0 <= v0 <= v1 <= v2 <= v3
    requires Torn(first, v0, v1, p0, p1) && Torn(second, v2, v3, p2, p3)
    ensures 0 <= first <= v1 && 0 <= second <= v3
    ensures first == second ==> first == v1
    ensures first == 0 && v0 > 0 ==> v0 < v1
    ensures v0 == v3 ==> first == v0 == second
  {
  }

  /** The chip cuts the incremented offset to 16 bits and reduces it to the same slot. */
  lemma LinearSlot(ptr: u16, i: nat, n: nat)
    requires RingSize(n)
    ensures Slot(Advance(ptr, i), 0, n) == Slot(ptr, i, n)
  {
    RingSizeDivides(n);
    hide Slot, RingSize;
    SlotWrap(ptr + i, 0, n);
    SlotSum(ptr, i, 0, n);
  }

  /**
   `recv` on a connection with nothing to read and nothing to send reads the received size as 0; data and
   the peer's FIN arrive; it reads CLOSE_WAIT. The chip may run like that, and the CLOSE that follows leaves
   the data among what has arrived but was never delivered.
   */
  lemma TailCanBeLost(r: Regs, h: Hist, region: seq<byte>, data: seq<byte>)
    requires RxInv(r, h, region) && RingSize(|region|) && r.mode == TCP && r.sr == ESTABLISHED
    requires RxPending(r) == 0 && 0 < |data| <= |region|
    ensures
      var r1 := r.(rxWr := Advance(r.rxWr, |data|), sr := CLOSE_WAIT);
      var h1 := h.(arrived := h.arrived + data);
      && ChipRun(r, h, r1, h1) && RxInv(r1, h1, RingWrite(region, r.rxWr, data))
      && Shut(r1, h1, r1.(sr := CLOSED), h1)
      && h1.arrived == h1.delivered + data
  {
    hide RingWrite;
    ArriveKeeps(r, h, region, data);
    assert h.arrived == h.delivered + RingRead(region, r.rxAck, 0);
  }

  /**
   `listen` finds a connection up: a client has connected, and sent data, between LISTEN and the read of the
   status, and the CLOSE that follows leaves that data undelivered.
   */
  lemma ClientCanBeLost(r: Regs, h: Hist, region: seq<byte>, data: seq<byte>)
    requires RxInv(r, h, region) && RingSize(|region|) && r.mode == TCP && r.sr == INIT && StreamInv(r, h)
    requires |data| <= |region|
    ensures
      var r1 := r.(rxWr := Advance(r.rxWr, |data|), sr := ESTABLISHED);
      var h1 := h.(arrived := data);
      && ChipRun(r.(sr := LISTEN), h, r1, h1) && RxInv(r1, h1, RingWrite(region, r.rxWr, data))
      && Shut(r1, h1, r1.(sr := CLOSED), h1)
      && r1.sr != LISTEN && Later(LISTEN, r1.sr) && h1.delivered == []
  {
    hide RingWrite, Stream, PacketOk;
    RxCounts(r, h, region);
    ArriveKeeps(r, h, region, data);
    assert [] + data == data;
  }

  lemma TornSize(n: nat)
    requires n < 256
    ensures Join(Hi(n), Lo(256)) == 0
  {
  }

  class Channel {
    const kind: Kind
    const txmem: array<byte>
    const txBase: nat
    const txSize: nat
    const rxmem: array<byte>
    const rxBase: nat
    const rxSize: nat
    var r: Regs
    ghost var h: Hist
    /** The destination registers of a socket that connects or sends datagrams. */
    var dest: Endpoint
    /** Sn_PORT, the socket's own port. */
    var port: u16
    /** The datagrams a datagram socket was made to send since it was opened. */
    ghost var out: seq<Datagram>
    /** What Sn_IR held each time it was read, oldest first. */
    ghost var irs: seq<Ir>
    /** The value the polled counter register held at each byte read of it, oldest first. */
    ghost var seen: seq<nat>

    ghost predicate Geometry()
    {
      && RingSize(txSize) && txBase + txSize <= txmem.Length
      && RingSize(rxSize) && rxBase + rxSize <= rxmem.Length
      && txmem != rxmem
    }

    ghost function TxRegion(): seq<byte>
      requires Geometry()
      reads txmem
    {
      txmem[txBase..txBase + txSize]
    }

    ghost function RxRegion(): seq<byte>
      requires Geometry()
      reads rxmem
    {
      rxmem[rxBase..rxBase + rxSize]
    }

    ghost predicate Valid()
      reads this, txmem, rxmem
    {
      Geometry() && TxInv(r, h, TxRegion()) && RxInv(r, h, RxRegion()) && StreamInv(r, h)
    }

    /** The free-size register Sn_TX_FSR. */
    function TxFree(): int
      reads this
    {
      txSize - TxPending(r)
    }

    /** TX memory without this socket's window. */
    ghost function TxElsewhere(): seq<byte>
      requires Geometry()
      reads txmem
    {
      txmem[..txBase] + txmem[txBase + txSize..]
    }

    ghost function RxElsewhere(): seq<byte>
      requires Geometry()
      reads rxmem
    {
      rxmem[..rxBase] + rxmem[rxBase + rxSize..]
    }

    // ----- the chip's own steps -----

    /** Bytes leave TX memory for the network. */
    method ChipDrain(k: nat)
      requires Valid() && k <= TxPending(r)
      modifies this`r, this`h
      ensures Valid() && ChipRun(old(r), old(h), r, h)
    {
      DrainKeeps(r, h, TxRegion(), k);
      h := h.(taken := h.taken + RingRead(TxRegion(), r.txRd, k));
      r := r.(txRd := Advance(r.txRd, k));
    }

    /** Bytes from the network enter RX memory. */
    method ChipStore(data: seq<byte>)
      requires Valid() && RxPending(r) + |data| <= rxSize && !Fresh(r.sr)
      modifies this`r, this`h, rxmem
      ensures RxElsewhere() == old(RxElsewhere()) && RxInv(r, h, RxRegion())
      ensures r == old(r).(rxWr := Advance(old(r.rxWr), |data|))
      ensures h == old(h).(arrived := old(h.arrived) + data)
    {
      ghost var after := RingWrite(RxRegion(), r.rxWr, data);
      ArriveKeeps(r, h, RxRegion(), data);
      forall k | 0 <= k < rxSize {
        rxmem[rxBase + k] :=
          if Gap(k, r.rxWr, rxSize) < |data| then data[Gap(k, r.rxWr, rxSize)] else rxmem[rxBase + k];
      }
      assert forall k :: 0 <= k < rxSize ==> RxRegion()[k] == after[k];
      r := r.(rxWr := Advance(r.rxWr, |data|));
      h := h.(arrived := h.arrived + data);
    }

    method ChipArrive(data: seq<byte>)
      requires Valid() && RxPending(r) + |data| <= rxSize
      requires r.mode == TCP && (r.sr == ESTABLISHED || r.sr == FIN_WAIT)
      modifies this`r, this`h, rxmem
      ensures Valid() && ChipRun(old(r), old(h), r, h) && RxElsewhere() == old(RxElsewhere())
      ensures r == old(r).(rxWr := Advance(old(r.rxWr), |data|)) && h == old(h).(arrived := old(h.arrived) + data)
    {
      ChipStore(data);
    }

    /** A datagram is published as a whole, header and payload. */
    method ChipArrivePacket(p: Packet)
      requires Valid() && PacketOk(r.mode, p) && RxPending(r) + |Framed(r.mode, p)| <= rxSize
      requires IsDatagram(r.mode) && r.sr == OpenStatus(r.mode)
      modifies this`r, this`h, rxmem
      ensures Valid() && ChipRun(old(r), old(h), r, h) && RxElsewhere() == old(RxElsewhere())
    {
      hide Stream, PacketOk, Framed, RingRead, RingSize;
      ChipStore(Framed(r.mode, p));
      StreamExtend(h.mode, h.packets, p);
      h := h.(packets := h.packets + [p]);
    }

    /** Sn_SR moves, as connections come up and go down. */
    method ChipStatus(s: Status)
      requires Valid() && Later(r.sr, s)
      modifies this`r
      ensures Valid() && ChipRun(old(r), old(h), r, h) && r == old(r).(sr := s)
    {
      r := r.(sr := s);
    }

    /** Connecting re-initializes the pointers. */
    method ChipReinit(tx: u16, rx: u16)
      requires Valid() && Fresh(r.sr)
      modifies this`r
      ensures Valid() && ChipRun(old(r), old(h), r, h)
    {
      r := r.(txRd := tx, txEnd := tx, txWr := tx, rxAck := rx, rxRd := rx, rxWr := rx);
    }

    /** Any number of chip steps of any kind. */
    method Env()
      requires Valid()
      modifies this`r, this`h, rxmem
      ensures Valid() && ChipRun(old(r), old(h), r, h) && RxElsewhere() == old(RxElsewhere())
      ensures 0 <= old(TxFree()) <= TxFree() <= txSize && old(RxPending(r)) <= RxPending(r) <= rxSize
      ensures RxPending(r) == |h.arrived| - |h.delivered|
    {
      hide TxInv, RxInv, StreamInv, ChipRun, RxElsewhere;
      TxCounts(r, h, TxRegion());
      RxCounts(r, h, RxRegion());
      var steps: nat := *;
      ChipRunSelf(r, h);
      while steps > 0
        invariant Valid() && ChipRun(old(r), old(h), r, h) && RxElsewhere() == old(RxElsewhere())
      {
        ghost var r1, h1 := r, h;
        ChipStep();
        ChipRunTwice(old(r), old(h), r1, h1, r, h);
        steps := steps - 1;
      }
      TxCounts(r, h, TxRegion());
      RxCounts(r, h, RxRegion());
      ChipRunGrows(old(r), old(h), r, h);
    }

    method ChipStep()
      requires Valid()
      modifies this`r, this`h, rxmem
      ensures Valid() && ChipRun(old(r), old(h), r, h) && RxElsewhere() == old(RxElsewhere())
    {
      var which: nat := *;
      var n: nat := *;
      var data: seq<byte> := *;
      var p: Packet := *;
      var s: Status := *;
      var a: u16 := *;
      var b: u16 := *;
      if which == 0 && n <= TxPending(r) {
        ChipDrain(n);
      } else if which == 1 && Later(r.sr, s) {
        ChipStatus(s);
      } else if which == 2 && Fresh(r.sr) {
        ChipReinit(a, b);
      } else if which == 3 {
        r := r.(sendok := true);
      } else if which == 4 {
        r := r.(timeout := true);
      } else if which == 5 && r.mode == TCP && (r.sr == ESTABLISHED || r.sr == FIN_WAIT)
                && RxPending(r) + |data| <= rxSize {
        ChipArrive(data);
      } else if which == 6 && IsDatagram(r.mode) && r.sr == OpenStatus(r.mode) && PacketOk(r.mode, p)
                && RxPending(r) + |Framed(r.mode, p)| <= rxSize {
        ChipArrivePacket(p);
      }
    }

    // ----- register access by the host -----

    method GetSnSr() returns (s: Status)
      requires Valid()
      modifies this`r, this`h, rxmem
      ensures Valid() && ChipRun(old(r), old(h), r, h) && RxElsewhere() == old(RxElsewhere())
      ensures s == r.sr && old(TxFree()) <= TxFree()
    {
      Env();
      s := r.sr;
    }

    method GetSnIr() returns (sendok: bool, timeout: bool)
      requires Valid()
      modifies this`r, this`h, this`irs, rxmem
      ensures Valid() && ChipRun(old(r), old(h), r, h) && RxElsewhere() == old(RxElsewhere())
      ensures sendok == r.sendok && timeout == r.timeout && irs == old(irs) + [Ir(sendok, timeout)]
    {
      Env();
      sendok, timeout := r.sendok, r.timeout;
      irs := irs + [Ir(sendok, timeout)];
    }

    /**
     Writing a one to an interrupt bit clears it. Clearing a SENDOK that is raised consumes it; it may be
     raised while the write is on its way.
     */
    method SetSnIr(sendok: bool, timeout: bool)
      requires Valid()
      modifies this`r, this`h, rxmem
      ensures Valid() && RxElsewhere() == old(RxElsewhere())
      ensures ChipRun(old(r).(sendok := old(r.sendok) && !sendok, timeout := old(r.timeout) && !timeout),
                      old(h).(unacked := h.unacked), r, h)
      ensures Consumed(sendok, old(r.sendok), old(h.unacked), h.unacked)
      ensures if sendok then !r.sendok else old(r.sendok) ==> r.sendok
      ensures if timeout then !r.timeout else old(r.timeout) ==> r.timeout
    {
      hide TxInv, RxInv, StreamInv, ChipRun, RxElsewhere;
      Env();
      ChipRunRaises(old(r), old(h), r, h);
      IrKeeps(old(r), old(h), r, h, TxRegion(), RxRegion(), sendok, timeout);
      h := h.(unacked := if sendok && r.sendok && h.unacked > 0 then h.unacked - 1 else h.unacked);
      r := r.(sendok := r.sendok && !sendok, timeout := r.timeout && !timeout);
    }

    /** The upper byte of Sn_TX_FSR, then its lower byte, the chip running before each. */
    method ReadTxFsr() returns (val: u16, ghost v0: int, ghost v1: int, ghost p0: int, ghost p1: int)
      requires Valid()
      modifies this`r, this`h, this`seen, rxmem
      ensures Valid() && ChipRun(old(r), old(h), r, h) && RxElsewhere() == old(RxElsewhere())
      ensures old(TxFree()) <= v0 <= v1 == TxFree() <= txSize
      ensures seen == old(seen) + [v0, v1] && Torn(val, v0, v1, p0, p1)
    {
      hide TxElsewhere, RxElsewhere, TxInv, RxInv, StreamInv, Dist;
      Env();
      v0, p0 := TxFree(), Hi(TxFree());
      var hi := Hi(TxFree());
      Env();
      v1, p1 := TxFree(), Hi(TxFree());
      val := Join(hi, Lo(TxFree()));
      seen := seen + [v0, v1];
    }

    /** One turn of the loop below: the register is read once and, unless that gave zero, once more. */
    method PollTxFsr(prev: nat) returns (val: nat, val1: nat, ghost instant: nat)
      requires Valid() && prev <= TxFree()
      modifies this`r, this`h, this`seen, rxmem
      ensures Valid() && ChipRun(old(r), old(h), r, h) && RxElsewhere() == old(RxElsewhere())
      ensures val <= TxFree() <= txSize && old(TxFree()) <= TxFree() && old(seen) < seen
      ensures val == val1 != 0 ==> |old(seen)| <= instant < |seen| && seen[instant] == val
      ensures val != val1 ==> old(TxFree()) < TxFree()
      ensures old(TxFree()) == TxFree() ==> val == val1 == TxFree()
      ensures val == val1 == 0 ==> prev == 0 && OneZero(old(seen), seen) && old(TxFree()) <= seen[|old(seen)|]
      ensures val != val1 && val == 0 ==> TxFree() >= 256
    {
      hide TxElsewhere, RxElsewhere, TxInv, RxInv, StreamInv, Dist, ChipRun, Torn;
      ghost var v0, v1, v2, v3, p0, p1, p2, p3;
      val1, v0, v1, p0, p1 := ReadTxFsr();
      ghost var r1, h1 := r, h;
      ZeroReading(val1, v0, v1, p0, p1);
      val, instant := prev, |old(seen)| + 1;
      OneReading(val1, v0, v1, p0, p1);
      if val1 != 0 {
        val, v2, v3, p2, p3 := ReadTxFsr();
        ChipRunTwice(old(r), old(h), r1, h1, r, h);
        ZeroReading(val, v2, v3, p2, p3);
        NoTear(val1, val, v0, v1, v2, v3, p0, p1, p2, p3);
      }
    }

    /**
     The 16-bit counter is read a byte at a time while the chip changes it, until two readings agree; a zero
     is believed at once. The loop ends because every disagreement means that the counter has grown, and a
     nonzero result is a value the counter really held at one instant, never a mixture of two.
     */
    method GetSnTxFsr() returns (val: nat, ghost instant: nat)
      requires Valid()
      modifies this`r, this`h, this`seen, rxmem
      ensures Valid() && ChipRun(old(r), old(h), r, h) && RxElsewhere() == old(RxElsewhere())
      ensures val <= TxFree() && old(TxFree()) <= TxFree()
      ensures old(seen) < seen && (val != 0 ==> |old(seen)| <= instant < |seen| && seen[instant] == val)
      ensures old(TxFree()) == TxFree() ==> val == TxFree()
      // a zero is the first reading's; it is one the register never held exactly if that reading was torn
      ensures val == 0 ==> OneZero(old(seen), seen) && old(TxFree()) <= seen[|old(seen)|] < 256
      ensures val !in seen[|old(seen)|..] <==> val == 0 && seen[|old(seen)|] > 0
    {
      hide TxElsewhere, RxElsewhere, TxInv, RxInv, StreamInv, Dist, ChipRun;
      TxCounts(r, h, TxRegion());
      var val1: nat;
      val, val1, instant := PollTxFsr(0);
      while val != val1
        invariant Valid() && ChipRun(old(r), old(h), r, h) && RxElsewhere() == old(RxElsewhere())
        invariant val <= TxFree() <= txSize && old(TxFree()) <= TxFree() && old(seen) < seen
        invariant val == val1 != 0 ==> |old(seen)| <= instant < |seen| && seen[instant] == val
        invariant old(TxFree()) == TxFree() ==> val == val1 == TxFree()
        invariant val == val1 == 0 ==> OneZero(old(seen), seen) && old(TxFree()) <= seen[|old(seen)|]
        invariant val != val1 && val == 0 ==> TxFree() >= 256
        decreases txSize - TxFree(), val != val1
      {
        ghost var r1, h1 := r, h;
        val, val1, instant := PollTxFsr(val);
        ChipRunTwice(old(r), old(h), r1, h1, r, h);
      }
      HeldOrTorn(old(seen), seen, val, instant);
    }

    /** The upper byte of Sn_RX_RSR, then its lower byte, the chip running before each. */
    method ReadRxRsr() returns (val: u16, ghost v0: int, ghost v1: int, ghost p0: int, ghost p1: int)
      requires Valid()
      modifies this`r, this`h, this`seen, rxmem
      ensures Valid() && ChipRun(old(r), old(h), r, h) && RxElsewhere() == old(RxElsewhere())
      ensures old(RxPending(r)) <= v0 <= v1 == RxPending(r) <= rxSize
      ensures seen == old(seen) + [v0, v1] && Torn(val, v0, v1, p0, p1)
    {
      hide TxElsewhere, RxElsewhere, TxInv, RxInv, StreamInv, Dist;
      Env();
      v0, p0 := RxPending(r), Hi(RxPending(r));
      var hi := Hi(RxPending(r));
      Env();
      v1, p1 := RxPending(r), Hi(RxPending(r));
      val := Join(hi, Lo(RxPending(r)));
      seen := seen + [v0, v1];
    }

    /** One turn of the loop below: the register is read once and, unless that gave zero, once more. */
    method PollRxRsr(prev: nat) returns (val: nat, val1: nat, ghost instant: nat)
      requires Valid() && prev <= RxPending(r)
      modifies this`r, this`h, this`seen, rxmem
      ensures Valid() && ChipRun(old(r), old(h), r, h) && RxElsewhere() == old(RxElsewhere())
      ensures val <= RxPending(r) <= rxSize && old(RxPending(r)) <= RxPending(r) && old(seen) < seen
      ensures val == val1 != 0 ==> |old(seen)| <= instant < |seen| && seen[instant] == val
      ensures val != val1 ==> old(RxPending(r)) < RxPending(r)
      ensures old(RxPending(r)) == RxPending(r) ==> val == val1 == RxPending(r)
      ensures val == val1 == 0 ==> prev == 0 && OneZero(old(seen), seen) && old(RxPending(r)) <= seen[|old(seen)|]
      ensures val != val1 && val == 0 ==> RxPending(r) >= 256
    {
      hide TxElsewhere, RxElsewhere, TxInv, RxInv, StreamInv, Dist, ChipRun, Torn;
      ghost var v0, v1, v2, v3, p0, p1, p2, p3;
      val1, v0, v1, p0, p1 := ReadRxRsr();
      ghost var r1, h1 := r, h;
      ZeroReading(val1, v0, v1, p0, p1);
      val, instant := prev, |old(seen)| + 1;
      OneReading(val1, v0, v1, p0, p1);
      if val1 != 0 {
        val, v2, v3, p2, p3 := ReadRxRsr();
        ChipRunTwice(old(r), old(h), r1, h1, r, h);
        ZeroReading(val, v2, v3, p2, p3);
        NoTear(val1, val, v0, v1, v2, v3, p0, p1, p2, p3);
      }
    }

    /** The same double reading of the received-size register. */
    method GetSnRxRsr() returns (val: nat, ghost instant: nat)
      requires Valid()
      modifies this`r, this`h, this`seen, rxmem
      ensures Valid() && ChipRun(old(r), old(h), r, h) && RxElsewhere() == old(RxElsewhere())
      ensures val <= RxPending(r) && old(RxPending(r)) <= RxPending(r)
      ensures old(seen) < seen && (val != 0 ==> |old(seen)| <= instant < |seen| && seen[instant] == val)
      ensures old(RxPending(r)) == RxPending(r) ==> val == RxPending(r)
      // a zero is the first reading's; it is one the register never held exactly if that reading was torn
      ensures val == 0 ==> OneZero(old(seen), seen) && old(RxPending(r)) <= seen[|old(seen)|] < 256
      ensures val !in seen[|old(seen)|..] <==> val == 0 && seen[|old(seen)|] > 0
    {
      hide TxElsewhere, RxElsewhere, TxInv, RxInv, StreamInv, Dist, ChipRun;
      var val1: nat;
      val, val1, instant := PollRxRsr(0);
      while val != val1
        invariant Valid() && ChipRun(old(r), old(h), r, h) && RxElsewhere() == old(RxElsewhere())
        invariant val <= RxPending(r) <= rxSize && old(RxPending(r)) <= RxPending(r) && old(seen) < seen
        invariant val == val1 != 0 ==> |old(seen)| <= instant < |seen| && seen[instant] == val
        invariant old(RxPending(r)) == RxPending(r) ==> val == val1 == RxPending(r)
        invariant val == val1 == 0 ==> OneZero(old(seen), seen) && old(RxPending(r)) <= seen[|old(seen)|]
        invariant val != val1 && val == 0 ==> RxPending(r) >= 256
        decreases rxSize - RxPending(r), val != val1
      {
        ghost var r1, h1 := r, h;
        val, val1, instant := PollRxRsr(val);
        ChipRunTwice(old(r), old(h), r1, h1, r, h);
      }
      HeldOrTorn(old(seen), seen, val, instant);
    }

    method SetSnTxWr(p: u16)
      requires Valid() && !Fresh(r.sr)
      modifies this`r, this`h, rxmem
      ensures Valid() && RxElsewhere() == old(RxElsewhere()) && ChipRun(old(r).(txWr := p), old(h), r, h)
      ensures old(TxFree()) <= TxFree()
    {
      Env();
      r := r.(txWr := p);
    }

    method SetSnRxRd(p: u16)
      requires Valid() && !Fresh(r.sr)
      modifies this`r, this`h, rxmem
      ensures Valid() && RxElsewhere() == old(RxElsewhere()) && ChipRun(old(r).(rxRd := p), old(h), r, h)
      ensures RxPending(r) == |h.arrived| - |h.delivered|
    {
      Env();
      r := r.(rxRd := p);
    }

    // ----- the copies between host buffers and chip memory -----

    /** One byte of a burst into TX memory, `done` having been stored behind the pending bytes already. */
    method StoreByte(addr: nat, b: byte, ghost done: seq<byte>, ghost before: seq<byte>)
      requires Valid() && !Fresh(r.sr)
      requires |before| == txSize && TxRegion() == RingWrite(before, r.txEnd, done)
      requires |done| < TxFree() && addr == txBase + Slot(r.txEnd, |done|, txSize)
      modifies this`r, this`h, txmem, rxmem
      ensures Valid() && ChipRun(old(r), old(h), r, h)
      ensures RxElsewhere() == old(RxElsewhere()) && TxElsewhere() == old(TxElsewhere())
      ensures TxRegion() == RingWrite(before, r.txEnd, done + [b])
      ensures old(TxFree()) <= TxFree()
    {
      Env();
      StoreKeeps(r, h, TxRegion(), |done|, b);
      WriteOneMore(before, r.txEnd, done, b);
      ghost var after := TxRegion()[Slot(r.txEnd, |done|, txSize) := b];
      txmem[addr] := b;
      assert TxRegion() == after;
    }

    /** WIZCHIP_WRITE_BUF: a burst to consecutive addresses. */
    method WriteBuf(addr: nat, data: seq<byte>, ghost done: seq<byte>, ghost before: seq<byte>)
      requires Valid() && !Fresh(r.sr)
      requires |before| == txSize && TxRegion() == RingWrite(before, r.txEnd, done)
      requires |done| + |data| <= TxFree()
      requires addr == txBase + Slot(r.txEnd, |done|, txSize) && addr + |data| <= txBase + txSize
      modifies this`r, this`h, txmem, rxmem
      ensures Valid() && ChipRun(old(r), old(h), r, h)
      ensures RxElsewhere() == old(RxElsewhere()) && TxElsewhere() == old(TxElsewhere())
      ensures TxRegion() == RingWrite(before, r.txEnd, done + data)
      ensures old(TxFree()) <= TxFree()
    {
      hide TxElsewhere, RxElsewhere, TxInv, RxInv, StreamInv, RingWrite, Slot, ChipRun;
      ghost var sofar := done;
      ChipRunSelf(r, h);
      for i := 0 to |data|
        invariant Valid() && ChipRun(old(r), old(h), r, h)
        invariant RxElsewhere() == old(RxElsewhere()) && TxElsewhere() == old(TxElsewhere())
        invariant sofar == done + data[..i]
        invariant TxRegion() == RingWrite(before, r.txEnd, sofar) && old(TxFree()) <= TxFree()
      {
        ghost var r1, h1 := r, h;
        ChipRunFacts(old(r), old(h), r1, h1);
        NextSlots(r.txEnd, |done|, i, txSize);
        StoreByte(addr + i, data[i], sofar, before);
        ChipRunTwice(old(r), old(h), r1, h1, r, h);
        sofar := sofar + [data[i]];
      }
      assert sofar == done + data;
    }

    /**
     wiz_send_data: the bytes go to the ring slots behind the pending ones and TX_WR moves on. W5100
     masks the pointer and splits the burst at the end of the window; W5500 takes the linear pointer.
     */
    method WizSendData(data: seq<byte>)
      requires Valid() && !Fresh(r.sr) && r.txWr == r.txEnd && |data| <= TxFree()
      modifies this`r, this`h, txmem, rxmem
      ensures Valid() && RxElsewhere() == old(RxElsewhere()) && TxElsewhere() == old(TxElsewhere())
      ensures ChipRun(old(r).(txWr := Advance(old(r.txEnd), |data|)), old(h), r, h)
      ensures TxRegion() == RingWrite(old(TxRegion()), old(r.txEnd), data)
      ensures old(TxFree()) <= TxFree()
    {
      hide TxElsewhere, RxElsewhere, TxInv, RxInv, StreamInv, Dist, RingWrite, Advance, RingSize;
      RingSizeDivides(txSize);
      EmptyWrite(TxRegion(), r.txEnd);
      ghost var before := TxRegion();
      var ptr := r.txWr;
      if kind == W5500 && |data| == 0 {
        AdvanceIs(ptr, 0);
        return;
      }
      if kind == W5100 {
        WriteMasked(ptr, data, before);
      } else {
        WriteLinear(ptr, data, before);
      }
      SetSnTxWr(Advance(ptr, |data|));
    }

    /** A W5100 burst is masked, and split in two where it would leave the window. */
    method WriteMasked(ptr: u16, data: seq<byte>, ghost before: seq<byte>)
      requires Valid() && !Fresh(r.sr) && ptr == r.txEnd && |data| <= TxFree()
      requires |before| == txSize && TxRegion() == before
      modifies this`r, this`h, txmem, rxmem
      ensures Valid() && ChipRun(old(r), old(h), r, h)
      ensures RxElsewhere() == old(RxElsewhere()) && TxElsewhere() == old(TxElsewhere())
      ensures TxRegion() == RingWrite(before, r.txEnd, data)
      ensures old(TxFree()) <= TxFree()
    {
      hide TxElsewhere, RxElsewhere, TxInv, RxInv, StreamInv, Dist, RingWrite, And, Slot, RingSize;
      RingSizeDivides(txSize);
      EmptyWrite(before, ptr);
      MaskSelectsSlot(ptr, txSize);
      TxCounts(r, h, TxRegion());
      var dst_mask := And(ptr, txSize - 1);
      var dst_ptr := txBase + dst_mask;
      if dst_mask + |data| > txSize {
        var size := txSize - dst_mask;
        FirstSlot(ptr, 0, size, txSize);
        assert data == data[..size] + data[size..] && [] + data[..size] == data[..size];
        WriteBuf(dst_ptr, data[..size], [], before);
        WriteBuf(txBase, data[size..], data[..size], before);
      } else {
        assert [] + data == data;
        WriteBuf(dst_ptr, data, [], before);
      }
    }

    /** A W5500 burst starts at a 16-bit offset, which the chip increments and reduces modulo the window. */
    method WriteLinear(ptr: u16, data: seq<byte>, ghost before: seq<byte>)
      requires Valid() && !Fresh(r.sr) && ptr == r.txEnd && |data| <= TxFree()
      requires |before| == txSize && TxRegion() == before
      modifies this`r, this`h, txmem, rxmem
      ensures Valid() && ChipRun(old(r), old(h), r, h)
      ensures RxElsewhere() == old(RxElsewhere()) && TxElsewhere() == old(TxElsewhere())
      ensures TxRegion() == RingWrite(before, r.txEnd, data)
      ensures old(TxFree()) <= TxFree()
    {
      hide TxElsewhere, RxElsewhere, TxInv, RxInv, StreamInv, Dist, RingWrite, Advance, Slot, RingSize;
      RingSizeDivides(txSize);
      EmptyWrite(before, ptr);
      ghost var sofar: seq<byte> := [];
      for i := 0 to |data|
        invariant Valid() && ChipRun(old(r), old(h), r, h)
        invariant RxElsewhere() == old(RxElsewhere()) && TxElsewhere() == old(TxElsewhere())
        invariant sofar == data[..i]
        invariant TxRegion() == RingWrite(before, ptr, sofar) && old(TxFree()) <= TxFree()
      {
        LinearSlot(ptr, i, txSize);
        StoreByte(txBase + Slot(Advance(ptr, i), 0, txSize), data[i], sofar, before);
        sofar := sofar + [data[i]];
      }
      assert sofar == data;
    }

    /** One byte of a burst out of RX memory: the k-th pending byte. */
    method LoadByte(addr: nat, ghost k: nat) returns (b: byte)
      requires Valid() && !Fresh(r.sr)
      requires k < |h.arrived| - |h.delivered| && addr == rxBase + Slot(r.rxAck, k, rxSize)
      modifies this`r, this`h, rxmem
      ensures Valid() && ChipRun(old(r), old(h), r, h) && RxElsewhere() == old(RxElsewhere())
      ensures b == old(h.arrived[|h.delivered| + k])
    {
      hide TxInv, RxInv, StreamInv, ChipRun, RxElsewhere, RingRead, Slot;
      Env();
      ChipRunFacts(old(r), old(h), r, h);
      b := rxmem[addr];
      assert RxRegion()[Slot(r.rxAck, k, rxSize)] == b;
      PendingByte(r, h, RxRegion(), k);
    }

    /** WIZCHIP_READ_BUF: a burst from consecutive addresses, the k-th pending byte first. */
    method ReadBuf(addr: nat, n: nat, ghost k: nat) returns (data: seq<byte>)
      requires Valid() && !Fresh(r.sr) && k + n <= |h.arrived| - |h.delivered|
      requires addr == rxBase + Slot(r.rxAck, k, rxSize) && addr + n <= rxBase + rxSize
      modifies this`r, this`h, rxmem
      ensures Valid() && ChipRun(old(r), old(h), r, h) && RxElsewhere() == old(RxElsewhere())
      ensures |data| == n && forall j :: 0 <= j < n ==> data[j] == old(h.arrived)[|old(h.delivered)| + k + j]
    {
      hide TxElsewhere, RxElsewhere, TxInv, RxInv, StreamInv, Dist, Slot;
      ghost var arrived, d := h.arrived, |h.delivered|;
      data := [];
      for i := 0 to n
        invariant Valid() && ChipRun(old(r), old(h), r, h) && RxElsewhere() == old(RxElsewhere())
        invariant |data| == i && (forall j :: 0 <= j < i ==> data[j] == arrived[d + k + j])
      {
        NextSlots(r.rxAck, k, i, rxSize);
        var b := LoadByte(addr + i, k + i);
        data := data + [b];
      }
    }

    /** The masked copy out of RX memory, in two pieces where the bytes wrap. */
    method ReadMasked(ptr: u16, n: nat) returns (data: seq<byte>)
      requires Valid() && !Fresh(r.sr) && ptr == r.rxAck && n <= |h.arrived| - |h.delivered| <= rxSize
      modifies this`r, this`h, rxmem
      ensures Valid() && ChipRun(old(r), old(h), r, h) && RxElsewhere() == old(RxElsewhere())
      ensures |data| == n && forall j :: 0 <= j < n ==> data[j] == old(h.arrived)[|old(h.delivered)| + j]
    {
      hide TxElsewhere, RxElsewhere, TxInv, RxInv, StreamInv, Dist, ChipRun, And, Slot, RingSize;
      RingSizeDivides(rxSize);
      MaskSelectsSlot(ptr, rxSize);
      var src_mask := And(ptr, rxSize - 1);
      var src_ptr := rxBase + src_mask;
      if src_mask + n > rxSize {
        var size := rxSize - src_mask;
        FirstSlot(ptr, 0, size, rxSize);
        var head := ReadBuf(src_ptr, size, 0);
        ghost var r1, h1 := r, h;
        ChipRunFacts(old(r), old(h), r1, h1);
        var rest := ReadBuf(rxBase, n - size, size);
        ChipRunTwice(old(r), old(h), r1, h1, r, h);
        data := head + rest;
      } else {
        data := ReadBuf(src_ptr, n, 0);
      }
    }

    /** The copy out of RX memory by linear pointer, the chip wrapping. */
    method ReadLinear(ptr: u16, n: nat) returns (data: seq<byte>)
      requires Valid() && !Fresh(r.sr) && ptr == r.rxAck && n <= |h.arrived| - |h.delivered|
      modifies this`r, this`h, rxmem
      ensures Valid() && ChipRun(old(r), old(h), r, h) && RxElsewhere() == old(RxElsewhere())
      ensures |data| == n && forall j :: 0 <= j < n ==> data[j] == old(h.arrived)[|old(h.delivered)| + j]
    {
      hide TxElsewhere, RxElsewhere, TxInv, RxInv, StreamInv, Dist, Advance, Slot, RingSize, ChipRun;
      RingSizeDivides(rxSize);
      ghost var arrived, d := h.arrived, |h.delivered|;
      data := [];
      ChipRunSelf(r, h);
      for i := 0 to n
        invariant Valid() && ChipRun(old(r), old(h), r, h) && RxElsewhere() == old(RxElsewhere())
        invariant |data| == i && (forall j :: 0 <= j < i ==> data[j] == arrived[d + j])
      {
        ghost var r1, h1 := r, h;
        ChipRunFacts(old(r), old(h), r1, h1);
        LinearSlot(ptr, i, rxSize);
        var b := LoadByte(rxBase + Slot(Advance(ptr, i), 0, rxSize), i);
        ChipRunTwice(old(r), old(h), r1, h1, r, h);
        data := data + [b];
      }
    }

    /** wiz_recv_data: the n oldest pending bytes, and RX_RD moves past them. */
    method WizRecvData(n: nat) returns (data: seq<byte>)
      requires Valid() && !Fresh(r.sr) && r.rxRd == r.rxAck && n <= |h.arrived| - |h.delivered|
      modifies this`r, this`h, rxmem
      ensures Valid() && RxElsewhere() == old(RxElsewhere())
      ensures ChipRun(old(r).(rxRd := Advance(old(r.rxAck), n)), old(h), r, h)
      ensures data == old(h.arrived[|h.delivered|..|h.delivered| + n])
    {
      hide TxElsewhere, RxElsewhere, TxInv, RxInv, StreamInv, Dist, Advance, RingSize;
      var ptr := r.rxRd;
      RxCounts(r, h, RxRegion());
      if kind == W5500 && n == 0 {
        AdvanceIs(ptr, 0);
        return [];
      }
      if kind == W5100 {
        data := ReadMasked(ptr, n);
      } else {
        data := ReadLinear(ptr, n);
      }
      SetSnRxRd(Advance(ptr, n));
    }

    // ----- commands; each returns once the chip has accepted it -----

    method CmdSend()
      requires Valid() && !Fresh(r.sr) && Dist(r.txEnd, r.txWr) <= TxFree()
      modifies this`r, this`h, this`out, rxmem
      ensures Valid() && RxElsewhere() == old(RxElsewhere())
      ensures out == old(out) + Formed(old(h.mode), dest, RingRead(old(TxRegion()), old(r.txEnd),
                                                                    Dist(old(r.txEnd), old(r.txWr))))
      ensures ChipRun(old(r).(txEnd := old(r.txWr)),
                      old(h).(unacked := old(h.unacked) + 1,
                              accepted := old(h.accepted)
                                + RingRead(old(TxRegion()), old(r.txEnd), Dist(old(r.txEnd), old(r.txWr)))),
                      r, h)
    {
      hide RingRead, Dist, Advance, RingSize, RxElsewhere, TxInv, RxInv, StreamInv, ChipRun;
      Env();
      ChipRunFacts(old(r), old(h), r, h);
      ghost var n := Dist(r.txEnd, r.txWr);
      DistEnd(r.txEnd, r.txWr);
      TxCounts(r, h, TxRegion());
      SendKeeps(r, h, TxRegion(), n);
      SendKeepsRest(old(r), old(h), r, h, TxRegion(), RxRegion(), RingRead(TxRegion(), r.txEnd, n));
      out := out + Formed(h.mode, dest, RingRead(TxRegion(), r.txEnd, n));
      h := h.(accepted := h.accepted + RingRead(TxRegion(), r.txEnd, n), unacked := h.unacked + 1);
      r := r.(txEnd := r.txWr);
    }

    /** What `send` and `sendto` do with the data: store it and SEND. */
    method Transmit(data: seq<byte>)
      requires Valid() && !Fresh(r.sr) && AtRest(r) && |data| <= TxFree()
      modifies this`r, this`h, this`out, txmem, rxmem
      ensures Valid() && AtRest(r) && RxElsewhere() == old(RxElsewhere()) && TxElsewhere() == old(TxElsewhere())
      ensures out == old(out) + Formed(old(h.mode), dest, data)
      ensures ChipRun(old(r).(txEnd := r.txEnd, txWr := r.txWr),
                      old(h).(unacked := old(h.unacked) + 1, accepted := old(h.accepted) + data), r, h)
    {
      hide TxElsewhere, RxElsewhere, TxInv, RxInv, StreamInv, Dist, Advance, RingRead, RingWrite, RingSize;
      TxCounts(r, h, TxRegion());
      StoredIsRead(TxRegion(), r.txEnd, data);
      WizSendData(data);
      CmdSend();
    }

    method CmdRecv()
      requires Valid() && !Fresh(r.sr) && Dist(r.rxAck, r.rxRd) <= |h.arrived| - |h.delivered|
      modifies this`r, this`h, rxmem
      ensures Valid() && RxElsewhere() == old(RxElsewhere())
      ensures ChipRun(old(r).(rxAck := old(r.rxRd)),
                      old(h).(delivered := old(h.arrived[..|h.delivered| + Dist(r.rxAck, r.rxRd)])), r, h)
    {
      hide RingRead, Dist, Advance, RingSize, RxElsewhere, TxInv, RxInv, StreamInv, ChipRun;
      Env();
      ChipRunFacts(old(r), old(h), r, h);
      ghost var n := Dist(r.rxAck, r.rxRd);
      DistEnd(r.rxAck, r.rxRd);
      RxCounts(r, h, RxRegion());
      RecvKeeps(r, h, RxRegion(), n);
      RecvKeepsRest(old(r), old(h), r, h, TxRegion(), n);
      h := h.(delivered := h.arrived[..|h.delivered| + n]);
      r := r.(rxAck := r.rxRd);
    }

    /** What `recv` and `recvfrom` do to fetch n pending bytes: copy them and release them with RECV. */
    method Fetch(n: nat) returns (data: seq<byte>)
      requires Valid() && !Fresh(r.sr) && AtRest(r) && n <= |h.arrived| - |h.delivered|
      modifies this`r, this`h, rxmem
      ensures Valid() && AtRest(r) && RxElsewhere() == old(RxElsewhere())
      ensures |data| == n && old(h.delivered) + data <= old(h.arrived)
      ensures ChipRun(old(r).(rxAck := r.rxAck, rxRd := r.rxRd),
                      old(h).(delivered := old(h.delivered) + data), r, h)
    {
      hide TxElsewhere, RxElsewhere, TxInv, RxInv, StreamInv, Dist, Advance, RingSize;
      ghost var ack := r.rxAck;
      RingSizeDivides(rxSize);
      RxCounts(r, h, RxRegion());
      DistEnd(ack, ack);
      DistGrows(ack, ack, n);
      assert h.arrived[..|h.delivered| + n] == h.delivered + h.arrived[|h.delivered|..|h.delivered| + n];
      data := WizRecvData(n);
      CmdRecv();
    }

    method CmdOpen()
      requires Valid() && r.sr == CLOSED
      modifies this`r, this`h, this`out, rxmem
      ensures Valid() && AtRest(r) && RxElsewhere() == old(RxElsewhere())
      ensures r.mode == old(r.mode) == h.mode && r.sr == OpenStatus(r.mode)
      ensures h.accepted == h.taken == h.delivered == [] && h.unacked == 0 && out == []
    {
      Env();
      var tx: u16, rx: u16 := *, *;
      r := r.(sr := OpenStatus(r.mode), txRd := tx, txEnd := tx, txWr := tx, rxAck := rx, rxRd := rx, rxWr := rx);
      h, out := Hist(r.mode, [], [], [], [], [], 0), [];
      Env();
    }

    /** The register traffic of `socket` after its close: mode and port, then OPEN. */
    method OpenAs(mode: Mode, p: u16)
      requires Valid() && r.sr == CLOSED
      modifies this`r, this`h, this`out, this`port, rxmem
      ensures Valid() && AtRest(r) && RxElsewhere() == old(RxElsewhere()) && port == p
      ensures r.mode == mode == h.mode && r.sr == OpenStatus(mode)
      ensures h.accepted == h.taken == h.delivered == [] && h.unacked == 0 && out == []
    {
      hide TxInv, RxInv, StreamInv, RxElsewhere;
      SetSnMr(mode);
      SetSnPort(p);
      CmdOpen();
    }

    method CmdClose()
      requires Valid()
      modifies this`r, this`h, rxmem
      ensures Valid() && RxElsewhere() == old(RxElsewhere()) && Shut(old(r), old(h), r, h) && r.sr == CLOSED
    {
      Env();
      r := r.(sr := CLOSED);
    }

    /** The register traffic of `close`: CLOSE, all interrupts cleared, and the wait for SOCK_CLOSED. */
    method TakeDown()
      requires Valid()
      modifies this`r, this`h, rxmem
      ensures Valid() && RxElsewhere() == old(RxElsewhere()) && Shut(old(r), old(h), r, h) && r.sr == CLOSED
    {
      hide TxInv, RxInv, StreamInv, RxElsewhere;
      CmdClose();
      SetSnIr(true, true);
      var tmp := GetSnSr();
      // the wait is over at once: the chip does not leave SOCK_CLOSED by itself
      assert tmp == CLOSED;
    }

    /** DISCON starts the closing handshake: from here on the socket is Refused until it is reopened. */
    method CmdDiscon()
      requires Valid()
      modifies this`r, this`h, rxmem
      ensures Valid() && RxElsewhere() == old(RxElsewhere()) && Shut(old(r), old(h), r, h)
      ensures !Fresh(r.sr) && Refused(r.sr)
    {
      hide TxInv, RxInv, StreamInv, ChipRun, RxElsewhere;
      Env();
      ChipRunShut(old(r), old(h), r, h);
      var s: Status := *;
      var next := if Sendable(r.sr) && s in {FIN_WAIT, CLOSING, TIME_WAIT, LAST_ACK} then s else CLOSED;
      OpenMode(r, h);
      StatusKeepsInv(r, h, TxRegion(), RxRegion(), next);
      r := r.(sr := next);
    }

    /** CONNECT and LISTEN leave SOCK_INIT. */
    method CmdOpenConnection(active: bool)
      requires Valid() && r.sr == INIT
      modifies this`r, this`h, rxmem
      ensures Valid() && RxElsewhere() == old(RxElsewhere())
      ensures ChipRun(old(r).(sr := if active then SYNSENT else LISTEN), old(h), r, h)
    {
      hide TxInv, RxInv, StreamInv, ChipRun, RxElsewhere;
      Env();
      ghost var r1, h1 := r, h;
      var next := if active then SYNSENT else LISTEN;
      OpenMode(r, h);
      StillInit(old(r), old(h), r1, h1, next);
      StatusKeepsInv(r, h, TxRegion(), RxRegion(), next);
      r := r.(sr := next);
      Env();
      ChipRunTwice(old(r).(sr := next), old(h), r1.(sr := next), h1, r, h);
    }

    /** The first part of that run: the two reads of the size, then the arrival and the status. */
    method LateData(data: seq<byte>) returns (size: u16)
      requires Valid() && r.mode == TCP && r.sr == ESTABLISHED && RxPending(r) == 0 && |data| <= rxSize
      modifies this`r, this`h, rxmem
      ensures size == 0 && Valid() && RxElsewhere() == old(RxElsewhere())
      ensures r == old(r).(rxWr := Advance(old(r.rxWr), |data|), sr := CLOSE_WAIT)
      ensures h == old(h).(arrived := old(h.arrived) + data)
    {
      hide TxInv, RxInv, StreamInv, ChipRun, RxElsewhere, Dist, RingSize, Advance, Hi, Lo, Join;
      JoinBack(RxPending(r));
      size := Join(Hi(RxPending(r)), Lo(RxPending(r)));
      ChipArrive(data);
      ChipStatus(CLOSE_WAIT);
    }

    /**
     That run, step by step, up to the close: recv reads the size, the data arrives, recv reads the status and
     the free size, which is all of TX memory.
     */
    method LosingRace(data: seq<byte>) returns (size: u16, status: Status, free: int)
      requires Valid() && r.mode == TCP && r.sr == ESTABLISHED
      requires RxPending(r) == 0 && TxPending(r) == 0 && 0 < |data| <= rxSize
      modifies this`r, this`h, rxmem
      ensures size == 0 && status == CLOSE_WAIT && free == txSize
      ensures Valid() && r.sr == CLOSED
      ensures h.arrived == old(h.arrived) + data && h.delivered == old(h.arrived)
    {
      hide TxInv, RxInv, StreamInv, ChipRun, RxElsewhere, Dist, Shut, RingSize, Advance;
      NothingPending(r, h, RxRegion());
      size := LateData(data);
      status, free := r.sr, TxFree();
      ghost var r1, h1 := r, h;
      TakeDown();
      ShutFacts(r1, h1, r, h);
    }

    /**
     recv counts what is waiting, the status is or becomes one it refuses, and the CLOSE drops what was counted:
     a connection reset, or one this side has ended and the peer has not.
     */
    method CountedRace(s: Status) returns (size: int, status: Status)
      requires Valid() && r.mode == TCP && RxPending(r) > 0 && Later(r.sr, s) && !Sendable(s)
      modifies this`r, this`h, rxmem
      ensures size == old(RxPending(r)) > 0 && status == s && !Sendable(status)
      ensures Valid() && r.sr == CLOSED
      ensures h.delivered == old(h.delivered) && old(h.arrived) <= h.arrived && |h.arrived| >= |h.delivered| + size
    {
      hide TxInv, RxInv, StreamInv, ChipRun, RxElsewhere, Dist, Shut, RingSize, Hi, Lo, Join;
      RxCounts(r, h, RxRegion());
      JoinBack(RxPending(r));
      size := Join(Hi(RxPending(r)), Lo(RxPending(r)));
      ChipStatus(s);
      status := r.sr;
      ghost var r1, h1 := r, h;
      TakeDown();
      ShutFacts(r1, h1, r, h);
    }

    /**
     The read of the size gives a torn 0: fewer than 256 bytes wait when the upper byte is read, and when the lower
     byte is read there are 256. With the peer's FIN behind them they are dropped, those that waited included.
     */
    method TornRace(data: seq<byte>) returns (size: u16, status: Status, free: int)
      requires Valid() && r.mode == TCP && r.sr == ESTABLISHED
      requires 0 < RxPending(r) < 256 == RxPending(r) + |data| && TxPending(r) == 0
      modifies this`r, this`h, rxmem
      ensures size == 0 && status == CLOSE_WAIT && free == txSize
      ensures Valid() && r.sr == CLOSED
      ensures h.arrived == old(h.arrived) + data && h.delivered == old(h.delivered)
      ensures old(|h.arrived| > |h.delivered|)
    {
      hide TxInv, RxInv, StreamInv, ChipRun, RxElsewhere, Shut, Advance, Dist, Hi, Lo, Join;
      RxCounts(r, h, RxRegion());
      TxCounts(r, h, TxRegion());
      TornSize(RxPending(r));
      var hi := Hi(RxPending(r));
      ChipArrive(data);
      RxCounts(r, h, RxRegion());
      size := Join(hi, Lo(RxPending(r)));
      ChipStatus(CLOSE_WAIT);
      status, free := r.sr, TxFree();
      ghost var r1, h1 := r, h;
      TakeDown();
      ShutFacts(r1, h1, r, h);
    }

    /** listen: LISTEN is accepted, a client connects and sends, and the status read is not SOCK_LISTEN: closed. */
    method ListenRace(data: seq<byte>) returns (status: Status)
      requires Valid() && r.mode == TCP && r.sr == INIT && |data| <= rxSize
      modifies this`r, this`h, rxmem
      ensures status == ESTABLISHED
      ensures Valid() && r.sr == CLOSED && data <= h.arrived && h.delivered == []
    {
      hide TxInv, RxInv, ChipRun, RxElsewhere, Shut, RingSize, Advance, Dist, Stream, PacketOk;
      RxCounts(r, h, RxRegion());
      r := r.(sr := LISTEN);
      StatusKeepsInv(old(r), h, TxRegion(), RxRegion(), LISTEN);
      ChipStatus(ESTABLISHED);
      ChipArrive(data);
      assert [] + data == data;
      status := r.sr;
      ghost var r1, h1 := r, h;
      TakeDown();
      ShutFacts(r1, h1, r, h);
    }

    /** setSn_DIPR and setSn_DPORT */
    method SetSnDest(addr: u32, port: u16)
      requires Valid()
      modifies this`r, this`h, this`dest, rxmem
      ensures Valid() && RxElsewhere() == old(RxElsewhere()) && ChipRun(old(r), old(h), r, h)
      ensures dest == Endpoint(addr, port)
    {
      Env();
      dest := Endpoint(addr, port);
    }

    method SetSnPort(p: u16)
      requires Valid()
      modifies this`r, this`h, this`port, rxmem
      ensures Valid() && RxElsewhere() == old(RxElsewhere()) && ChipRun(old(r), old(h), r, h) && port == p
    {
      Env();
      port := p;
    }

    method SetSnMr(mode: Mode)
      requires Valid() && r.sr == CLOSED
      modifies this`r, this`h, rxmem
      ensures Valid() && RxElsewhere() == old(RxElsewhere()) && ChipRun(old(r).(mode := mode), old(h), r, h)
    {
      Env();
      r := r.(mode := mode);
    }

    /** A socket as it is after reset, with its windows of TX and RX memory. */
    constructor (kind: Kind, txmem: array<byte>, txBase: nat, txSize: nat, rxmem: array<byte>, rxBase: nat, rxSize: nat)
      requires RingSize(txSize) && txBase + txSize <= txmem.Length
      requires RingSize(rxSize) && rxBase + rxSize <= rxmem.Length && txmem != rxmem
      ensures Valid() && AtRest(r) && r.sr == CLOSED && r.mode == NoMode
      ensures this.kind == kind && this.txmem == txmem && this.txBase == txBase && this.txSize == txSize
      ensures this.rxmem == rxmem && this.rxBase == rxBase && this.rxSize == rxSize
      ensures h == Hist(NoMode, [], [], [], [], [], 0) && out == []
    {
      this.kind := kind;
      this.txmem, this.txBase, this.txSize := txmem, txBase, txSize;
      this.rxmem, this.rxBase, this.rxSize := rxmem, rxBase, rxSize;
      r := Regs(NoMode, CLOSED, false, false, 0, 0, 0, 0, 0, 0);
      h := Hist(NoMode, [], [], [], [], [], 0);
      port, dest, out, irs, seen := 0, Endpoint(0, 0), [], [], [];
    }
  }
}
