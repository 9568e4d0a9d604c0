/** From wizchip_init to the socket calls: the windows it makes are the ones the sockets work in. */
module PowerUp {
  import opened Arith
  import opened Wrappers
  import opened MemoryMap
  import opened Ring
  import opened Wire
  import opened ChannelModel
  import opened SocketState
  import opened SocketLayer
  import opened SocketEffects
  import opened SocketRuns

  /** Each socket's windows are the blocks that the size registers describe. */
  ghost predicate WindowsAre(api: SocketApi, tmsr: bv8, rmsr: bv8)
  {
    && |api.chan| == SOCKETS
    && forall sn :: 0 <= sn < SOCKETS ==>
         && api.chan[sn].txBase == Base(TX_BUFFER, tmsr, sn) && api.chan[sn].txSize == BlockSize(tmsr, sn)
         && api.chan[sn].rxBase == Base(RX_BUFFER, rmsr, sn) && api.chan[sn].rxSize == BlockSize(rmsr, sn)
  }

  /** Nothing sent, received or opened yet. */
  function Blank(): seq<Record>
  {
    seq(SOCKETS, _ => Record(false, [], [], [], []))
  }

  /** A channel as the chip is after power-up, with its windows where getSn_TxBASE and getSn_RxBASE find them. */
  ghost predicate PoweredUp(c: Channel, txmem: array<byte>, rxmem: array<byte>, tmsr: bv8, rmsr: bv8, sn: nat)
    requires sn < SOCKETS
    reads c, c.txmem, c.rxmem
  {
    && c.Valid() && AtRest(c.r) && c.r.sr == CLOSED && c.r.mode == NoMode
    && c.h == Hist(NoMode, [], [], [], [], [], 0) && c.out == []
    && c.txmem == txmem && c.txBase == Base(TX_BUFFER, tmsr, sn) && c.txSize == BlockSize(tmsr, sn)
    && c.rxmem == rxmem && c.rxBase == Base(RX_BUFFER, rmsr, sn) && c.rxSize == BlockSize(rmsr, sn)
  }

  method MakeChannel(regs: SizeRegisters, txmem: array<byte>, rxmem: array<byte>, sn: nat) returns (c: Channel)
    requires sn < SOCKETS && txmem.Length == TX_BUFFER + AREA && rxmem.Length == RX_BUFFER + AREA && txmem != rxmem
    requires Base(TX_BUFFER, regs.tmsr, SOCKETS) <= TX_BUFFER + AREA
    requires Base(RX_BUFFER, regs.rmsr, SOCKETS) <= RX_BUFFER + AREA
    ensures fresh(c) && PoweredUp(c, txmem, rxmem, regs.tmsr, regs.rmsr, sn)
  {
    hide BlockSize, Base, TxInv, RxInv, StreamInv;
    BlocksApart(TX_BUFFER, regs.tmsr, sn, SOCKETS);
    BlocksApart(RX_BUFFER, regs.rmsr, sn, SOCKETS);
    var txBase := GetBase(TX_BUFFER, regs.tmsr, sn);
    var rxBase := GetBase(RX_BUFFER, regs.rmsr, sn);
    c := new Channel(W5100, txmem, txBase, BlockSize(regs.tmsr, sn), rxmem, rxBase, BlockSize(regs.rmsr, sn));
  }

  method MakeChannels(regs: SizeRegisters, txmem: array<byte>, rxmem: array<byte>) returns (chan: seq<Channel>)
    requires txmem.Length == TX_BUFFER + AREA && rxmem.Length == RX_BUFFER + AREA && txmem != rxmem
    requires Base(TX_BUFFER, regs.tmsr, SOCKETS) <= TX_BUFFER + AREA
    requires Base(RX_BUFFER, regs.rmsr, SOCKETS) <= RX_BUFFER + AREA
    ensures |chan| == SOCKETS
    ensures forall i :: 0 <= i < SOCKETS ==> fresh(chan[i]) && PoweredUp(chan[i], txmem, rxmem, regs.tmsr, regs.rmsr, i)
    ensures forall i, j :: 0 <= i < j < SOCKETS ==> chan[i] != chan[j]
  {
    hide PoweredUp, Base;
    chan := [];
    for sn := 0 to SOCKETS
      invariant |chan| == sn
      invariant forall i :: 0 <= i < sn ==>
        fresh(chan[i]) && PoweredUp(chan[i], txmem, rxmem, regs.tmsr, regs.rmsr, i)
      invariant forall i, j :: 0 <= i < j < sn ==> chan[i] != chan[j]
    {
      var c := MakeChannel(regs, txmem, rxmem, sn);
      chan := chan + [c];
    }
  }

  /** Powered-up channels on blocks that lie one after the other have disjoint windows. */
  lemma WindowsApart(api: SocketApi, tmsr: bv8, rmsr: bv8, i: nat, j: nat)
    requires i < j < SOCKETS == |api.chan| && api.chan[i] != api.chan[j]
    requires PoweredUp(api.chan[i], api.txmem, api.rxmem, tmsr, rmsr, i)
    requires PoweredUp(api.chan[j], api.txmem, api.rxmem, tmsr, rmsr, j)
    ensures api.Apart(i, j) && api.Apart(j, i)
  {
    hide BlockSize, Base, TxInv, RxInv, StreamInv;
    BlocksApart(TX_BUFFER, tmsr, i, j);
    BlocksApart(RX_BUFFER, rmsr, i, j);
  }

  /**
   The sockets of a chip whose size registers describe blocks inside the two areas: every invariant holds, the
   windows are disjoint, and the records start empty.
   */
  method MakeSockets(regs: SizeRegisters, sipr: u32, subr: u32) returns (api: SocketApi)
    requires Base(TX_BUFFER, regs.tmsr, SOCKETS) <= TX_BUFFER + AREA
    requires Base(RX_BUFFER, regs.rmsr, SOCKETS) <= RX_BUFFER + AREA
    ensures fresh(api) && fresh(api.txmem) && fresh(api.rxmem) && fresh(api.chan)
    ensures WindowsAre(api, regs.tmsr, regs.rmsr) && AllOk(api) && AllAgree(api, Blank()) && api.Wired()
  {
    hide BlockSize, Base, TxInv, RxInv, StreamInv, Consistent, FlagsAgree, Reads;
    var txmem := new byte[TX_BUFFER + AREA](_ => 0);
    var rxmem := new byte[RX_BUFFER + AREA](_ => 0);
    var chan := MakeChannels(regs, txmem, rxmem);
    api := new SocketApi(chan, txmem, rxmem, sipr, subr);
    SocketsUp(api, regs.tmsr, regs.rmsr);
  }

  lemma SocketsUp(api: SocketApi, tmsr: bv8, rmsr: bv8)
    requires |api.chan| == |api.got| == SOCKETS
    requires forall i :: 0 <= i < SOCKETS ==> api.SocketOk(i) && api.got[i] == []
    requires forall i :: 0 <= i < SOCKETS ==> PoweredUp(api.chan[i], api.txmem, api.rxmem, tmsr, rmsr, i)
    requires forall i, j :: 0 <= i < j < SOCKETS ==> api.chan[i] != api.chan[j]
    ensures WindowsAre(api, tmsr, rmsr) && AllOk(api) && AllAgree(api, Blank()) && api.Wired()
  {
    hide BlockSize, Base, TxInv, RxInv, StreamInv, Consistent, FlagsAgree, Reads;
    forall i, j | 0 <= i < j < SOCKETS
      ensures api.Apart(i, j) && api.Apart(j, i)
    {
      WindowsApart(api, tmsr, rmsr, i, j);
    }
    assert api.SocketOk(0);
    forall sn | 0 <= sn < SOCKETS
      ensures Agrees(api, sn, Blank()[sn])
    {
      assert api.SocketOk(sn) && PoweredUp(api.chan[sn], api.txmem, api.rxmem, tmsr, rmsr, sn);
      BlankReads(ViewOf(api, sn));
    }
  }

  lemma BlankReads(v: View)
    requires v.r.mode == NoMode && v.h.accepted == [] && v.out == [] && v.got == []
    ensures Reads(v, Record(false, [], [], [], []))
  {
  }

  /**
   wizchip_init with sizes that are powers of two adding up to at most 8, and then any sequence of socket
   calls: it succeeds, every socket has the sizes asked for, and at the end the records say what every socket's
   streams hold - no transfer on one socket has disturbed another's ring.
   */
  method Session(regs: SizeRegisters, txsize: Sizes, rxsize: Sizes, sipr: u32, subr: u32,
                 script: seq<(nat, Call)>, patience: nat)
    returns (outcome: MemoryMap.Outcome, api: SocketApi, blocked: bool,
             ghost results: seq<Result>, ghost trace: seq<seq<View>>)
    requires forall i :: 0 <= i < SOCKETS ==> PowerOfTwo(txsize[i]) && PowerOfTwo(rxsize[i])
    requires Sum(txsize, SOCKETS) <= 8 && Sum(rxsize, SOCKETS) <= 8
    requires forall i :: 0 <= i < |script| ==>
      script[i].0 < SOCKETS && (script[i].1.SendCall? || script[i].1.SendToCall? ==> |script[i].1.buf| < 0x1_0000)
    modifies regs
    ensures outcome == Code(0) && |api.chan| == SOCKETS
    ensures forall sn :: 0 <= sn < SOCKETS ==>
      api.chan[sn].txSize == Kilobytes(txsize[sn]) && api.chan[sn].rxSize == Kilobytes(rxsize[sn])
    ensures AllOk(api) && api.Wired() && Follows(Fits(api), script, results, trace)
    ensures AllRead(trace[0], Blank()) && trace[|results|] == Views(api)
    ensures Returned(results, blocked) && (!blocked ==> |results| == |script|)
    ensures !blocked ==> AllAgree(api, Kept(Fits(api), script, results, trace, Blank()))
  {
    hide AllAgree, AllOk, Base, BlockSize, Accepted, SomeEndless;
    outcome := regs.WizchipInit(Some(txsize), Some(rxsize));
    Granting(txsize, txsize);
    Granting(rxsize, txsize);
    PartitionFits(TX_BUFFER, regs.tmsr, txsize, txsize);
    PartitionFits(RX_BUFFER, regs.rmsr, rxsize, txsize);
    api := MakeSockets(regs, sipr, subr);
    AllAgreeIs(api, Blank());
    blocked, results, trace := SocketRuns.Run(api, script, patience, Blank());
  }

  lemma Granting(sizes: Sizes, txsize: Sizes)
    requires forall i :: 0 <= i < SOCKETS ==> PowerOfTwo(sizes[i]) && PowerOfTwo(txsize[i])
    requires Sum(sizes, SOCKETS) <= 8
    ensures Accepted(sizes) && !SomeEndless(sizes, txsize)
  {
    PowersAccepted(sizes);
    assert forall i :: 0 <= i < SOCKETS ==> PowerOfTwo(sizes[i]) ==> sizes[i] != 0;
  }

  lemma PartitionFits(start: nat, reg: bv8, sizes: Sizes, txsize: Sizes)
    requires Programmed(reg, sizes, txsize, SOCKETS) && Sum(sizes, SOCKETS) <= 8
    requires forall i :: 0 <= i < SOCKETS ==> PowerOfTwo(sizes[i]) && PowerOfTwo(txsize[i])
    ensures Base(start, reg, SOCKETS) <= start + AREA
    ensures forall i :: 0 <= i < SOCKETS ==> BlockSize(reg, i) == Kilobytes(sizes[i])
  {
    assert forall i :: 0 <= i < SOCKETS ==> PowerOfTwo(txsize[i]) ==> txsize[i] != 0;
    SizesAsAsked(reg, sizes, txsize);
    PowersGranted(sizes, txsize, SOCKETS);
    AreaFits(start, reg, sizes, txsize);
  }
}
