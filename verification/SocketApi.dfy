/** The socket calls of socket.c on the ring-buffer chips, interleaved with the chip at every bus access. */
module SocketLayer {
  import opened Arith
  import opened Wire
  import opened Ring
  import opened ChannelModel
  import opened SocketState

  const SOCK_ANY_PORT_NUM := 0xE000
  const SOCK_ANY_PORT_END := 0xFFF0
  const MAX_MAC_FRAME := 1514

  /** The port after this one, of those handed out to sockets opened without one. */
  function NextPort(p: u16): (q: u16)
    requires SOCK_ANY_PORT_NUM <= p < SOCK_ANY_PORT_END
    ensures SOCK_ANY_PORT_NUM <= q < SOCK_ANY_PORT_END && q != p
  {
    if p + 1 == SOCK_ANY_PORT_END then SOCK_ANY_PORT_NUM else p + 1
  }

  /** The packet flags when `remained` bytes of the packet are left: the flags it had, or none. */
  function PackInfo(flags: bv8, remained: nat): bv8
  {
    if remained > 0 then flags | PACK_REMAINED else PACK_COMPLETED
  }

  class SocketApi {
    const chan: seq<Channel>
    /** The chip's TX and RX memory, in which the sockets have their windows. */
    const txmem: array<byte>
    const rxmem: array<byte>
    var sockAnyPort: u16
    var sockIoMode: Mask
    var sockIsSending: Mask
    var sockRemainedSize: seq<u16>
    var sockPackInfo: seq<bv8>
    /** The chip's own address and subnet mask. */
    var sipr: u32
    var subr: u32
    /** For each socket, the payload bytes `recvfrom` has returned, one entry a packet. */
    ghost var got: seq<seq<seq<byte>>>

    ghost function Vars(): Statics
      reads this
    {
      Statics(sockIoMode, sockIsSending, sockRemainedSize, sockPackInfo, got)
    }

    ghost predicate Wired()
      reads this
    {
      && |sockRemainedSize| == |sockPackInfo| == |got| == |chan|
      && SOCK_ANY_PORT_NUM <= sockAnyPort < SOCK_ANY_PORT_END
    }

    /** The heap a call on this socket may touch. */
    function Foot(sn: nat): set<object>
    {
      if sn < |chan| then {chan[sn], chan[sn].txmem, chan[sn].rxmem} else {}
    }

    /** The invariant of one socket, but for its packet flags. */
    ghost predicate CursorOk(sn: nat)
      requires sn < |chan|
      reads this, Foot(sn)
    {
      && Wired()
      && chan[sn].Valid()
      && Consistent(chan[sn].r, chan[sn].h, sn in sockIsSending, sockRemainedSize[sn], got[sn])
    }

    /** The invariant of one socket between calls. */
    ghost predicate SocketOk(sn: nat)
      requires sn < |chan|
      reads this, Foot(sn)
    {
      CursorOk(sn) && FlagsAgree(sockPackInfo[sn], sockRemainedSize[sn])
    }

    /** The chip memory outside this socket's windows. */
    ghost function Elsewhere(sn: nat): (seq<byte>, seq<byte>)
      requires sn < |chan| && chan[sn].Geometry()
      reads Foot(sn)
    {
      (chan[sn].TxElsewhere(), chan[sn].RxElsewhere())
    }

    /** Where the socket sends to, the datagrams it was made to send, and what Sn_IR was each time it was read. */
    ghost function Outward(sn: nat): (Endpoint, seq<Datagram>, seq<Ir>)
      requires sn < |chan|
      reads chan[sn]
    {
      (chan[sn].dest, chan[sn].out, chan[sn].irs)
    }

    ghost function Target(sn: nat): (Endpoint, seq<Datagram>)
      requires sn < |chan|
      reads chan[sn]
    {
      (chan[sn].dest, chan[sn].out)
    }

    /** The room in TX memory, and the number of received bytes waiting, by the streams' account. */
    ghost function Room(sn: nat): int
      requires sn < |chan|
      reads chan[sn]
    {
      chan[sn].txSize - (|chan[sn].h.accepted| - |chan[sn].h.taken|)
    }

    ghost function Waiting(sn: nat): int
      requires sn < |chan|
      reads chan[sn]
    {
      |chan[sn].h.arrived| - |chan[sn].h.delivered|
    }

    /** With the whole of TX memory free nothing accepted is left to send. */
    lemma TakenIsAccepted(sn: nat)
      requires sn < |chan| && chan[sn].Valid()
      ensures |chan[sn].h.taken| <= |chan[sn].h.accepted|
    {
      TxCounts(chan[sn].r, chan[sn].h, chan[sn].TxRegion());
    }

    // ----- register reads, the chip running -----

    method SnSr(sn: nat) returns (s: Status)
      requires sn < |chan| && SocketOk(sn)
      modifies Foot(sn)
      ensures SocketOk(sn) && Elsewhere(sn) == old(Elsewhere(sn))
      ensures chan[sn].r.mode == old(chan[sn].r.mode) && Outward(sn) == old(Outward(sn))
      ensures ChipRun(old(chan[sn].r), old(chan[sn].h), chan[sn].r, chan[sn].h)
      ensures s == chan[sn].r.sr && old(chan[sn].TxFree()) <= chan[sn].TxFree()
    {
      hide Consistent, TxInv, RxInv, StreamInv, ChipRun, FlagsAgree;
      s := chan[sn].GetSnSr();
      ChipRunKeeps(old(chan[sn].r), old(chan[sn].h), chan[sn].r, chan[sn].h);
      ChipKeepsConsistent(old(chan[sn].r), old(chan[sn].h), chan[sn].r, chan[sn].h,
                          sn in sockIsSending, sockRemainedSize[sn], got[sn]);
    }

    method SnIr(sn: nat) returns (sendok: bool, timeout: bool)
      requires sn < |chan| && SocketOk(sn)
      modifies Foot(sn)
      ensures SocketOk(sn) && Elsewhere(sn) == old(Elsewhere(sn))
      ensures chan[sn].r.mode == old(chan[sn].r.mode) && Target(sn) == old(Target(sn))
      ensures ChipRun(old(chan[sn].r), old(chan[sn].h), chan[sn].r, chan[sn].h)
      ensures sendok == chan[sn].r.sendok && timeout == chan[sn].r.timeout
      ensures chan[sn].irs == old(chan[sn].irs) + [Ir(sendok, timeout)]
    {
      hide Consistent, TxInv, RxInv, StreamInv, ChipRun, FlagsAgree;
      sendok, timeout := chan[sn].GetSnIr();
      ChipRunKeeps(old(chan[sn].r), old(chan[sn].h), chan[sn].r, chan[sn].h);
      ChipKeepsConsistent(old(chan[sn].r), old(chan[sn].h), chan[sn].r, chan[sn].h,
                          sn in sockIsSending, sockRemainedSize[sn], got[sn]);
    }

    method SnTxFsr(sn: nat) returns (size: nat)
      requires sn < |chan| && SocketOk(sn)
      modifies Foot(sn)
      ensures SocketOk(sn) && Elsewhere(sn) == old(Elsewhere(sn))
      ensures chan[sn].r.mode == old(chan[sn].r.mode) && Outward(sn) == old(Outward(sn))
      ensures ChipRun(old(chan[sn].r), old(chan[sn].h), chan[sn].r, chan[sn].h)
      ensures size <= chan[sn].TxFree() && size <= Room(sn)
      ensures size < old(Room(sn)) ==> old(|chan[sn].h.taken|) < |chan[sn].h.taken|
    {
      hide Consistent, TxInv, RxInv, StreamInv, ChipRun, FlagsAgree;
      TxCounts(chan[sn].r, chan[sn].h, chan[sn].TxRegion());
      ghost var instant;
      size, instant := chan[sn].GetSnTxFsr();
      ChipRunKeeps(old(chan[sn].r), old(chan[sn].h), chan[sn].r, chan[sn].h);
      ChipKeepsConsistent(old(chan[sn].r), old(chan[sn].h), chan[sn].r, chan[sn].h,
                          sn in sockIsSending, sockRemainedSize[sn], got[sn]);
      TxCounts(chan[sn].r, chan[sn].h, chan[sn].TxRegion());
    }

    method SnRxRsr(sn: nat) returns (size: nat)
      requires sn < |chan| && SocketOk(sn)
      modifies Foot(sn)
      ensures SocketOk(sn) && Elsewhere(sn) == old(Elsewhere(sn))
      ensures chan[sn].r.mode == old(chan[sn].r.mode) && Outward(sn) == old(Outward(sn))
      ensures ChipRun(old(chan[sn].r), old(chan[sn].h), chan[sn].r, chan[sn].h)
      ensures size <= Waiting(sn)
      ensures size < old(Waiting(sn)) ==> old(|chan[sn].h.arrived|) < |chan[sn].h.arrived|
      ensures old(Waiting(sn)) >= 0 && (size == 0 ==> old(Waiting(sn)) < 256)
    {
      hide Consistent, TxInv, RxInv, StreamInv, ChipRun, FlagsAgree;
      RxCounts(chan[sn].r, chan[sn].h, chan[sn].RxRegion());
      ghost var instant;
      size, instant := chan[sn].GetSnRxRsr();
      ChipRunKeeps(old(chan[sn].r), old(chan[sn].h), chan[sn].r, chan[sn].h);
      ChipKeepsConsistent(old(chan[sn].r), old(chan[sn].h), chan[sn].r, chan[sn].h,
                          sn in sockIsSending, sockRemainedSize[sn], got[sn]);
      RxCounts(chan[sn].r, chan[sn].h, chan[sn].RxRegion());
    }

    // ----- close -----

    method Close(sn: nat) returns (code: int)
      requires sn != |chan| && (sn < |chan| ==> CursorOk(sn))
      modifies this`sockIoMode, this`sockIsSending, this`sockRemainedSize, this`sockPackInfo, Foot(sn)
      ensures sn > |chan| ==> code == SOCKERR_SOCKNUM && Vars() == old(Vars())
      ensures sn < |chan| ==> code == SOCK_OK && SocketOk(sn)
      ensures sn < |chan| ==> OnlyOwn(old(Vars()), Vars(), sn) && Elsewhere(sn) == old(Elsewhere(sn))
      ensures sn < |chan| ==> chan[sn].r.mode == old(chan[sn].r.mode) && Outward(sn) == old(Outward(sn))
      ensures sn < |chan| ==> Shut(old(chan[sn].r), old(chan[sn].h), chan[sn].r, chan[sn].h) && chan[sn].r.sr == CLOSED
      ensures sn < |chan| ==> sn !in sockIoMode && sn !in sockIsSending && sockRemainedSize[sn] == 0
    {
      hide TxInv, RxInv, StreamInv, Consistent, Shut, FlagsAgree;
      if sn > |chan| {
        return SOCKERR_SOCKNUM;
      }
      chan[sn].TakeDown();
      ClosingKeepsConsistent(old(chan[sn].r), old(chan[sn].h), chan[sn].r, chan[sn].h,
                             sn in sockIsSending, false, sockRemainedSize[sn], got[sn]);
      CompletedAgrees();
      sockIoMode := sockIoMode - {sn};
      sockIsSending := sockIsSending - {sn};
      sockRemainedSize := sockRemainedSize[sn := 0];
      sockPackInfo := sockPackInfo[sn := PACK_COMPLETED];
      code := SOCK_OK;
    }

    // ----- send -----

    method ConsumeSendok(sn: nat)
      requires sn < |chan| && SocketOk(sn) && chan[sn].r.mode == chan[sn].h.mode == TCP && chan[sn].r.sendok
      modifies this`sockIsSending, Foot(sn)
      ensures SocketOk(sn) && OnlyOwn(old(Vars()), Vars(), sn) && Elsewhere(sn) == old(Elsewhere(sn))
      ensures chan[sn].r.mode == old(chan[sn].r.mode) && Outward(sn) == old(Outward(sn))
      ensures chan[sn].r.mode == TCP && chan[sn].h.mode == TCP && Later(old(chan[sn].r.sr), chan[sn].r.sr)
      ensures chan[sn].h.accepted == old(chan[sn].h.accepted) && chan[sn].h.delivered == old(chan[sn].h.delivered)
      ensures !chan[sn].r.sendok && (old(chan[sn].r.timeout) ==> chan[sn].r.timeout)
      ensures sn !in sockIsSending && chan[sn].h.unacked == 0 && sockIoMode == old(sockIoMode)
      ensures old(|chan[sn].h.taken|) <= |chan[sn].h.taken|
    {
      hide TxInv, RxInv, StreamInv, Consistent, FlagsAgree, Later;
      chan[sn].SetSnIr(true, false);
      SendokKeepsConsistent(old(chan[sn].r), old(chan[sn].h), chan[sn].r, chan[sn].h,
                            sn in sockIsSending, sockRemainedSize[sn], got[sn]);
      sockIsSending := sockIsSending - {sn};
    }

    /**
     The part of `send` that looks after the previous SEND; unless it stops, none is outstanding. Sn_IR is read,
     once, exactly if the connection is up, `seen`, and a SEND is outstanding.
     */
    method AwaitPrevious(sn: nat) returns (stop: bool, code: int, ghost seen: Status)
      requires sn < |chan| && SocketOk(sn) && chan[sn].r.mode == TCP
      modifies this`sockIoMode, this`sockIsSending, this`sockRemainedSize, this`sockPackInfo, Foot(sn)
      ensures SocketOk(sn) && OnlyOwn(old(Vars()), Vars(), sn) && Elsewhere(sn) == old(Elsewhere(sn))
      ensures chan[sn].r.mode == old(chan[sn].r.mode) && Target(sn) == old(Target(sn))
      ensures chan[sn].r.mode == TCP
      ensures chan[sn].h.accepted == old(chan[sn].h.accepted) && chan[sn].h.delivered == old(chan[sn].h.delivered)
      ensures stop && code == SOCKERR_SOCKSTATUS <==> !Sendable(seen)
      ensures Later(old(chan[sn].r.sr), seen) && (!Sendable(seen) ==> chan[sn].r.sr == seen)
      ensures !Sendable(seen) || sn !in old(sockIsSending) ==> chan[sn].irs == old(chan[sn].irs)
      ensures Sendable(seen) && sn !in old(sockIsSending) ==> !stop
      ensures Sendable(seen) && sn in old(sockIsSending) ==>
        && Waited(old(chan[sn].irs), chan[sn].irs) && |chan[sn].irs| == |old(chan[sn].irs)| + 1
        && (!stop <==> LastIr(chan[sn].irs).sendok)
        && (!stop ==> Cleared(chan[sn].irs, chan[sn].r))
        && (stop && code == SOCKERR_TIMEOUT <==> LastIr(chan[sn].irs) == Ir(false, true))
        && (stop && code == SOCK_BUSY <==> LastIr(chan[sn].irs) == Ir(false, false))
      ensures !stop ==> sockIoMode == old(sockIoMode) && sn !in sockIsSending
      ensures stop && code == SOCKERR_TIMEOUT ==> sn !in sockIoMode && sn !in sockIsSending
      ensures stop && code == SOCK_BUSY ==> sn in old(sockIsSending) && Vars() == old(Vars())
      ensures stop && code == SOCKERR_SOCKSTATUS ==> !Sendable(chan[sn].r.sr) && Vars() == old(Vars())
      ensures stop && code == SOCKERR_TIMEOUT ==> sn in old(sockIsSending) && chan[sn].r.sr == CLOSED
      ensures !stop ==> old(|chan[sn].h.taken|) <= |chan[sn].h.taken| && sockIoMode == old(sockIoMode)
      ensures (stop ==> code != SOCKERR_TIMEOUT) ==> Later(old(chan[sn].r.sr), chan[sn].r.sr)
      ensures Refused(old(chan[sn].r.sr)) ==> stop && code == SOCKERR_SOCKSTATUS
      ensures !stop ==>
        !Fresh(chan[sn].r.sr) && sn !in sockIsSending && chan[sn].h.unacked == 0 && chan[sn].h.mode == TCP
    {
      hide TxInv, RxInv, StreamInv, Consistent, FlagsAgree, OnlyOwn, ChipRun, Later, Shut;
      OnlyOwnSelf(Vars(), sn);
      var tmp := SnSr(sn);
      ghost var r1, h1 := chan[sn].r, chan[sn].h;
      ChipRunKeeps(old(chan[sn].r), old(chan[sn].h), r1, h1);
      if Refused(old(chan[sn].r.sr)) {
        StillRefused(old(chan[sn].r.sr), tmp);
      }
      if tmp != ESTABLISHED && tmp != CLOSE_WAIT {
        return true, SOCKERR_SOCKSTATUS, tmp;
      }
      OpenIsTcp(r1, h1);
      if sn in sockIsSending {
        var sendok, timeout := SnIr(sn);
        ghost var r2, h2 := chan[sn].r, chan[sn].h;
        ChipRunKeeps(r1, h1, r2, h2);
        LaterTwice(old(chan[sn].r.sr), tmp, r2.sr);
        StillOpened(tmp, r2.sr);
        if sendok {
          ConsumeSendok(sn);
          LaterTwice(old(chan[sn].r.sr), r2.sr, chan[sn].r.sr);
          StillOpened(r2.sr, chan[sn].r.sr);
        } else if timeout {
          var _ := Close(sn);
          ShutFacts(r2, h2, chan[sn].r, chan[sn].h);
          return true, SOCKERR_TIMEOUT, tmp;
        } else {
          return true, SOCK_BUSY, tmp;
        }
      } else {
        NothingOutstanding(r1, h1, sockRemainedSize[sn], got[sn]);
      }
      return false, 0, tmp;
    }

    /**
     The polling loop of `send`: until the data fits. Each round lets the chip run; after `patience`
     rounds the observation ends.
     */
    method AwaitRoom(sn: nat, len: nat, patience: nat) returns (go: bool, stopped: Outcome, ghost seen: Status)
      requires sn < |chan| && SocketOk(sn) && chan[sn].r.mode == TCP && chan[sn].h.mode == TCP
      requires !Fresh(chan[sn].r.sr) && sn !in sockIsSending && chan[sn].h.unacked == 0
      modifies this`sockIoMode, this`sockIsSending, this`sockRemainedSize, this`sockPackInfo, Foot(sn)
      ensures SocketOk(sn) && OnlyOwn(old(Vars()), Vars(), sn) && Elsewhere(sn) == old(Elsewhere(sn))
      ensures chan[sn].r.mode == old(chan[sn].r.mode) && Outward(sn) == old(Outward(sn))
      ensures chan[sn].h.accepted == old(chan[sn].h.accepted) && chan[sn].h.delivered == old(chan[sn].h.delivered)
      ensures chan[sn].r.mode == TCP
      ensures go ==> chan[sn].h.mode == TCP && sn !in sockIsSending && chan[sn].h.unacked == 0
      ensures go ==> !Fresh(chan[sn].r.sr) && len <= chan[sn].TxFree()
      ensures !go ==> stopped in {Blocked, Done(SOCKERR_SOCKSTATUS), Done(SOCK_BUSY)}
      ensures go || stopped != Done(SOCKERR_SOCKSTATUS) ==> Vars() == old(Vars())
      ensures !go && stopped == Done(SOCKERR_SOCKSTATUS) ==> sn !in sockIoMode && sn !in sockIsSending
      ensures !go && stopped == Done(SOCK_BUSY) ==> sn in old(sockIoMode) && Vars() == old(Vars())
      ensures !go && stopped == Done(SOCK_BUSY) ==> len > old(Room(sn)) || old(|chan[sn].h.taken|) < |chan[sn].h.taken|
      ensures !go && stopped == Blocked ==>
        sn !in old(sockIoMode) && Sendable(seen) && Later(old(chan[sn].r.sr), seen)
        && (len > old(Room(sn)) || old(|chan[sn].h.taken|) < |chan[sn].h.taken|)
      ensures !go && stopped == Done(SOCKERR_SOCKSTATUS) ==>
        chan[sn].r.sr == CLOSED && !Sendable(seen) && Later(old(chan[sn].r.sr), seen)
    {
      hide TxInv, RxInv, StreamInv, Consistent, FlagsAgree, OnlyOwn, ChipRun, Later, Shut;
      OnlyOwnSelf(Vars(), sn);
      LaterSelf(chan[sn].r.sr);
      stopped, seen := Blocked, chan[sn].r.sr;
      var polls := patience;
      while true
        invariant SocketOk(sn) && Vars() == old(Vars()) && Elsewhere(sn) == old(Elsewhere(sn)) && stopped == Blocked
        invariant chan[sn].r.mode == old(chan[sn].r.mode) && Outward(sn) == old(Outward(sn))
        invariant chan[sn].h.accepted == old(chan[sn].h.accepted) && chan[sn].h.delivered == old(chan[sn].h.delivered)
        invariant chan[sn].r.mode == TCP && chan[sn].h.mode == TCP
        invariant chan[sn].h.unacked == 0 && !Fresh(chan[sn].r.sr) && old(|chan[sn].h.taken|) <= |chan[sn].h.taken|
        invariant Later(old(chan[sn].r.sr), chan[sn].r.sr)
        decreases polls
      {
        ghost var r0, h0 := chan[sn].r, chan[sn].h;
        var freesize := SnTxFsr(sn);
        ghost var r1, h1 := chan[sn].r, chan[sn].h;
        ChipRunKeeps(r0, h0, r1, h1);
        var tmp := SnSr(sn);
        seen := tmp;
        ChipRunKeeps(r1, h1, chan[sn].r, chan[sn].h);
        LaterTwice(old(chan[sn].r.sr), r0.sr, r1.sr);
        LaterTwice(old(chan[sn].r.sr), r1.sr, tmp);
        StillOpened(r0.sr, r1.sr);
        StillOpened(r1.sr, tmp);
        if tmp != ESTABLISHED && tmp != CLOSE_WAIT {
          ghost var r2, h2 := chan[sn].r, chan[sn].h;
          var _ := Close(sn);
          ShutFacts(r2, h2, chan[sn].r, chan[sn].h);
          return false, Done(SOCKERR_SOCKSTATUS), seen;
        }
        if sn in sockIoMode && len > freesize {
          return false, Done(SOCK_BUSY), seen;
        }
        if len <= freesize {
          return true, Blocked, seen;
        }
        if polls == 0 {
          return false, Blocked, seen;
        }
        polls := polls - 1;
      }
    }

    /** The SEND itself; the sending bit is raised once the command has been accepted. */
    method SendNow(sn: nat, data: seq<byte>)
      requires sn < |chan| && SocketOk(sn) && chan[sn].h.mode == TCP && sn !in sockIsSending
      requires !Fresh(chan[sn].r.sr) && chan[sn].h.unacked == 0 && |data| <= chan[sn].TxFree()
      modifies this`sockIsSending, Foot(sn)
      ensures SocketOk(sn) && OnlyOwn(old(Vars()), Vars(), sn) && Elsewhere(sn) == old(Elsewhere(sn))
      ensures chan[sn].r.mode == old(chan[sn].r.mode) && Outward(sn) == old(Outward(sn))
      ensures sn in sockIsSending && chan[sn].h.unacked == 1 && sockIoMode == old(sockIoMode)
      ensures chan[sn].h.accepted == old(chan[sn].h.accepted) + data
      ensures chan[sn].h.delivered == old(chan[sn].h.delivered)
    {
      hide TxInv, RxInv, StreamInv, Consistent, FlagsAgree, ChipRun;
      ConsistentAtRest(chan[sn].r, chan[sn].h, false, sockRemainedSize[sn], got[sn]);
      chan[sn].Transmit(data);
      assert chan[sn].out == old(chan[sn].out);
      SendKeepsConsistent(old(chan[sn].r), old(chan[sn].h), chan[sn].r, chan[sn].h, data,
                          sockRemainedSize[sn], got[sn]);
      sockIsSending := sockIsSending + {sn};
    }

    /**
     A positive result n means that exactly the first n bytes of the buffer have been appended to what
     the chip is to transmit; any other result, that nothing has. A second SEND is never issued before
     the SENDOK of the first has been consumed.
     */
    method Send(sn: nat, buf: seq<byte>, patience: nat) returns (ret: Outcome, ghost seen: Status)
      requires sn != |chan| && (sn < |chan| ==> SocketOk(sn)) && |buf| < 0x1_0000
      modifies this`sockIoMode, this`sockIsSending, this`sockRemainedSize, this`sockPackInfo, Foot(sn)
      ensures sn > |chan| <==> ret == Done(SOCKERR_SOCKNUM)
      ensures sn > |chan| ==> Vars() == old(Vars())
      ensures sn < |chan| ==> SocketOk(sn) && OnlyOwn(old(Vars()), Vars(), sn) && Elsewhere(sn) == old(Elsewhere(sn))
      ensures sn < |chan| ==> chan[sn].r.mode == old(chan[sn].r.mode) && Target(sn) == old(Target(sn))
      ensures sn < |chan| ==> chan[sn].h.delivered == old(chan[sn].h.delivered)
      ensures sn < |chan| && ret.Done? && ret.code > 0 ==>
        && ret.code == (if |buf| <= chan[sn].txSize then |buf| else chan[sn].txSize)
        && chan[sn].h.accepted == old(chan[sn].h.accepted) + buf[..ret.code]
        && sn in sockIsSending && chan[sn].h.unacked == 1
      ensures sn < |chan| && (ret.Blocked? || ret.code <= 0) ==> chan[sn].h.accepted == old(chan[sn].h.accepted)
      // Sn_IR is read at most once, and only to learn what became of a previous SEND: a call that goes past it has
      // seen its SENDOK, SOCKERR_TIMEOUT means TIMEOUT without SENDOK, and with neither the call is busy
      ensures sn < |chan| ==> old(chan[sn].irs) <= chan[sn].irs && |chan[sn].irs| <= |old(chan[sn].irs)| + 1
      ensures sn < |chan| && chan[sn].irs == old(chan[sn].irs) ==>
        && ret != Done(SOCKERR_TIMEOUT)
        && (sn in old(sockIsSending) && old(chan[sn].r.mode) == TCP && buf != [] ==> ret == Done(SOCKERR_SOCKSTATUS))
      ensures sn < |chan| && |chan[sn].irs| == |old(chan[sn].irs)| + 1 ==>
        && sn in old(sockIsSending)
        && (ret == Done(SOCKERR_TIMEOUT) <==> LastIr(chan[sn].irs) == Ir(false, true))
        && (LastIr(chan[sn].irs) == Ir(false, false) ==>
             ret == Done(SOCK_BUSY) && Vars() == old(Vars()) && Later(old(chan[sn].r.sr), chan[sn].r.sr))
        && (ret.Done? && ret.code > 0 ==> LastIr(chan[sn].irs).sendok)
      // the sending bit is set by a SEND accepted and cleared by the end of the one before
      ensures sn < |chan| ==>
        (sn in sockIsSending <==>
         || (ret.Done? && ret.code > 0)
         || (sn in old(sockIsSending)
             && (chan[sn].irs == old(chan[sn].irs) || LastIr(chan[sn].irs) == Ir(false, false))))
      ensures sn < |chan| ==>
        || (sn in sockIoMode <==> sn in old(sockIoMode))
        || (sn !in sockIoMode && chan[sn].r.sr == CLOSED && ret in {Done(SOCKERR_SOCKSTATUS), Done(SOCKERR_TIMEOUT)})
      // a busy result means a previous SEND not yet acknowledged, or non-blocking mode and too little room
      ensures sn < |chan| && ret == Done(SOCK_BUSY) ==>
        || (sn in old(sockIsSending) && chan[sn].irs == old(chan[sn].irs) + [Ir(false, false)])
        || (sn in old(sockIoMode)
            && ((if |buf| <= chan[sn].txSize then |buf| else chan[sn].txSize) > old(Room(sn))
                || old(|chan[sn].h.taken|) < |chan[sn].h.taken|))
      // a blocking call goes on polling only while the connection is up and there is too little room
      ensures sn < |chan| && ret.Blocked? ==>
        && sn !in old(sockIoMode) && seen in {ESTABLISHED, CLOSE_WAIT} && Later(old(chan[sn].r.sr), seen)
        && ((if |buf| <= chan[sn].txSize then |buf| else chan[sn].txSize) > old(Room(sn))
            || old(|chan[sn].h.taken|) < |chan[sn].h.taken|)
      // a status error means that Sn_SR was read with the connection gone, `seen`, and is so at the end
      ensures sn < |chan| && ret == Done(SOCKERR_SOCKSTATUS) ==>
        && seen !in {ESTABLISHED, CLOSE_WAIT} && Later(old(chan[sn].r.sr), seen)
        && chan[sn].r.sr !in {ESTABLISHED, CLOSE_WAIT}
      ensures sn < |chan| && old(chan[sn].r.mode) == TCP && buf != [] && Refused(old(chan[sn].r.sr)) ==>
        ret == Done(SOCKERR_SOCKSTATUS)
      ensures sn < |chan| && ret == Done(SOCKERR_TIMEOUT) ==> sn in old(sockIsSending) && chan[sn].r.sr == CLOSED
      ensures ret.Done? && ret.code <= 0 ==>
        ret.code in {SOCK_BUSY, SOCKERR_SOCKSTATUS, SOCKERR_TIMEOUT, SOCKERR_SOCKNUM, SOCKERR_SOCKMODE, SOCKERR_DATALEN}
      ensures sn < |chan| ==> (ret == Done(SOCKERR_DATALEN) <==> old(chan[sn].r.mode) == TCP && buf == [])
      ensures sn < |chan| ==> (ret == Done(SOCKERR_SOCKMODE) <==> old(chan[sn].r.mode) != TCP)
    {
      hide TxInv, RxInv, StreamInv, Consistent, FlagsAgree, OnlyOwn, Later;
      seen := CLOSED;
      if sn > |chan| {
        ret := Done(SOCKERR_SOCKNUM);
        return;
      }
      OnlyOwnSelf(Vars(), sn);
      if chan[sn].r.mode != TCP {
        ret := Done(SOCKERR_SOCKMODE);
        return;
      }
      if |buf| == 0 {
        ret := Done(SOCKERR_DATALEN);
        return;
      }
      var stop, code;
      stop, code, seen := AwaitPrevious(sn);
      ghost var v1, sr1 := Vars(), chan[sn].r.sr;
      if stop {
        ret := Done(code);
        return;
      }
      var len := if |buf| > chan[sn].txSize then chan[sn].txSize else |buf|;
      var go, stopped;
      go, stopped, seen := AwaitRoom(sn, len, patience);
      ghost var v2 := Vars();
      OnlyOwnTwice(old(Vars()), v1, v2, sn);
      if !go {
        if stopped != Done(SOCK_BUSY) {
          LaterTwice(old(chan[sn].r.sr), sr1, seen);
        }
        ret := stopped;
        return;
      }
      SendNow(sn, buf[..len]);
      OnlyOwnTwice(old(Vars()), v2, Vars(), sn);
      ret := Done(len);
    }

    // ----- recv -----

    /** One round of the loop below: the size, then the status. A size read as 0 misses just what arrives meanwhile. */
    method Look(sn: nat) returns (recvsize: nat, tmp: Status, ghost seen: Glimpse)
      requires sn < |chan| && SocketOk(sn)
      modifies Foot(sn)
      ensures SocketOk(sn) && Elsewhere(sn) == old(Elsewhere(sn))
      ensures chan[sn].r.mode == old(chan[sn].r.mode) && Outward(sn) == old(Outward(sn))
      ensures chan[sn].h.accepted == old(chan[sn].h.accepted) && chan[sn].h.delivered == old(chan[sn].h.delivered)
      ensures old(chan[sn].h.arrived) <= chan[sn].h.arrived && tmp == chan[sn].r.sr && Later(old(chan[sn].r.sr), tmp)
      ensures seen == Glimpse(tmp, |old(chan[sn].h.arrived)|, |chan[sn].h.arrived|)
      ensures recvsize <= Waiting(sn) && (recvsize < old(Waiting(sn)) ==> seen.before < seen.now)
      ensures recvsize == 0 ==> (Waiting(sn) > 0 <==> seen.before < seen.now) && old(Waiting(sn)) < 256
      ensures Ended(old(chan[sn].r.sr)) ==> chan[sn].h.arrived == old(chan[sn].h.arrived)
      ensures chan[sn].h.mode == old(chan[sn].h.mode)
    {
      hide TxInv, RxInv, StreamInv, Consistent, FlagsAgree, OnlyOwn, ChipRun, Later;
      ghost var r0, h0 := chan[sn].r, chan[sn].h;
      recvsize := SnRxRsr(sn);
      ghost var r1, h1 := chan[sn].r, chan[sn].h;
      ChipRunKeeps(r0, h0, r1, h1);
      tmp := SnSr(sn);
      ChipRunKeeps(r1, h1, chan[sn].r, chan[sn].h);
      LaterTwice(r0.sr, r1.sr, tmp);
      if Ended(r0.sr) {
        StillEnded(r0.sr, r1.sr);
      }
      seen := Glimpse(tmp, |h0.arrived|, |chan[sn].h.arrived|);
    }

    method AwaitData(sn: nat, patience: nat) returns (recvsize: nat, stopped: Outcome, ghost seen: Glimpse)
      requires sn < |chan| && SocketOk(sn) && chan[sn].r.mode == TCP
      modifies this`sockIoMode, this`sockIsSending, this`sockRemainedSize, this`sockPackInfo, Foot(sn)
      ensures SocketOk(sn) && OnlyOwn(old(Vars()), Vars(), sn) && Elsewhere(sn) == old(Elsewhere(sn))
      ensures chan[sn].r.mode == old(chan[sn].r.mode) && Outward(sn) == old(Outward(sn))
      ensures chan[sn].h.accepted == old(chan[sn].h.accepted) && chan[sn].h.delivered == old(chan[sn].h.delivered)
      ensures recvsize != 0 ==> chan[sn].h.mode == TCP && !Fresh(chan[sn].r.sr)
      ensures recvsize != 0 ==> recvsize <= |chan[sn].h.arrived| - |chan[sn].h.delivered|
      ensures recvsize != 0 || stopped != Done(SOCKERR_SOCKSTATUS) ==> Vars() == old(Vars())
      ensures recvsize == 0 && stopped == Done(SOCKERR_SOCKSTATUS) ==> sn !in sockIoMode && sn !in sockIsSending
      ensures recvsize == 0 ==> stopped in {Blocked, Done(SOCKERR_SOCKSTATUS), Done(SOCK_BUSY)}
      ensures recvsize != 0 ==> recvsize >= old(Waiting(sn)) || old(|chan[sn].h.arrived|) < |chan[sn].h.arrived|
      ensures recvsize == 0 && stopped == Done(SOCK_BUSY) ==> sn in old(sockIoMode)
      ensures recvsize == 0 && stopped == Done(SOCK_BUSY) ==>
        old(Waiting(sn)) <= 0 || old(|chan[sn].h.arrived|) < |chan[sn].h.arrived|
      ensures recvsize == 0 && stopped == Blocked ==>
        sn !in old(sockIoMode) && (old(Waiting(sn)) <= 0 || old(|chan[sn].h.arrived|) < |chan[sn].h.arrived|)
      ensures recvsize == 0 && stopped == Done(SOCKERR_SOCKSTATUS) ==>
        GaveUp(old(chan[sn].r.sr), old(chan[sn].h.arrived), seen, chan[sn].r, chan[sn].h)
      ensures Refused(old(chan[sn].r.sr)) ==> recvsize == 0 && stopped == Done(SOCKERR_SOCKSTATUS)
    {
      hide TxInv, RxInv, StreamInv, Consistent, FlagsAgree, OnlyOwn, ChipRun, Shut, Later, GaveUp;
      OnlyOwnSelf(Vars(), sn);
      stopped := Blocked;
      LaterSelf(chan[sn].r.sr);
      var polls := patience;
      while true
        invariant SocketOk(sn) && Vars() == old(Vars()) && Elsewhere(sn) == old(Elsewhere(sn)) && stopped == Blocked
        invariant chan[sn].r.mode == old(chan[sn].r.mode) && Outward(sn) == old(Outward(sn))
        invariant chan[sn].h.accepted == old(chan[sn].h.accepted) && chan[sn].h.delivered == old(chan[sn].h.delivered)
        invariant chan[sn].r.mode == TCP && old(chan[sn].h.arrived) <= chan[sn].h.arrived
        invariant Ended(old(chan[sn].r.sr)) ==> chan[sn].h.arrived == old(chan[sn].h.arrived)
        invariant Later(old(chan[sn].r.sr), chan[sn].r.sr)
        decreases polls
      {
        ghost var sr1 := chan[sn].r.sr;
        var tmp;
        recvsize, tmp, seen := Look(sn);
        LaterTwice(old(chan[sn].r.sr), sr1, tmp);
        StaysAsItIs(old(chan[sn].r.sr), sr1, tmp);
        if tmp != ESTABLISHED && tmp != CLOSE_WAIT {
          Abandon(sn, old(chan[sn].r.sr), old(chan[sn].h.arrived), seen);
          return 0, Done(SOCKERR_SOCKSTATUS), seen;
        }
        OpenIsTcp(chan[sn].r, chan[sn].h);
        if tmp == CLOSE_WAIT && recvsize == 0 {
          var stop := PeerGone(sn, old(chan[sn].r.sr), old(chan[sn].h.arrived), seen);
          if stop {
            return 0, Done(SOCKERR_SOCKSTATUS), seen;
          }
          LaterTwice(old(chan[sn].r.sr), tmp, chan[sn].r.sr);
        }
        if recvsize != 0 {
          return;
        }
        if sn in sockIoMode {
          return 0, Done(SOCK_BUSY), seen;
        }
        if polls == 0 {
          return 0, Blocked, seen;
        }
        polls := polls - 1;
      }
    }

    /** In a status `recv` refuses the socket is closed, whatever the size. */
    method Abandon(sn: nat, ghost sr0: Status, ghost arrived0: seq<byte>, ghost seen: Glimpse)
      requires sn < |chan| && SocketOk(sn) && chan[sn].r.sr == seen.status && Later(sr0, seen.status)
      requires !Sendable(seen.status) && arrived0 <= chan[sn].h.arrived
      requires |arrived0| <= seen.before <= seen.now == |chan[sn].h.arrived|
      requires Ended(sr0) ==> chan[sn].h.arrived == arrived0
      modifies this`sockIoMode, this`sockIsSending, this`sockRemainedSize, this`sockPackInfo, Foot(sn)
      ensures SocketOk(sn) && OnlyOwn(old(Vars()), Vars(), sn) && Elsewhere(sn) == old(Elsewhere(sn))
      ensures chan[sn].r.mode == old(chan[sn].r.mode) && Outward(sn) == old(Outward(sn))
      ensures chan[sn].h.accepted == old(chan[sn].h.accepted) && chan[sn].h.delivered == old(chan[sn].h.delivered)
      ensures sn !in sockIoMode && sn !in sockIsSending
      ensures GaveUp(sr0, arrived0, seen, chan[sn].r, chan[sn].h)
    {
      hide TxInv, RxInv, StreamInv, Consistent, FlagsAgree, OnlyOwn, Shut, GaveUp, Later;
      ghost var r1, h1 := chan[sn].r, chan[sn].h;
      var _ := Close(sn);
      ShutFacts(r1, h1, chan[sn].r, chan[sn].h);
      if Ended(sr0) {
        StillEnded(sr0, seen.status);
      }
      LostConnection(sr0, arrived0, seen, chan[sn].r, chan[sn].h);
    }

    /** In CLOSE_WAIT, the size read as 0: the socket is closed if all that was to be sent has been taken. */
    method PeerGone(sn: nat, ghost sr0: Status, ghost arrived0: seq<byte>, ghost seen: Glimpse) returns (stop: bool)
      requires sn < |chan| && SocketOk(sn) && chan[sn].r.sr == seen.status == CLOSE_WAIT && Later(sr0, seen.status)
      requires arrived0 <= chan[sn].h.arrived && |arrived0| <= seen.before <= seen.now
      requires seen.before < |chan[sn].h.delivered| + 256 && (Ended(sr0) ==> chan[sn].h.arrived == arrived0)
      requires |chan[sn].h.arrived| == seen.now && (Waiting(sn) > 0 <==> seen.now > seen.before)
      modifies this`sockIoMode, this`sockIsSending, this`sockRemainedSize, this`sockPackInfo, Foot(sn)
      ensures SocketOk(sn) && OnlyOwn(old(Vars()), Vars(), sn) && Elsewhere(sn) == old(Elsewhere(sn))
      ensures chan[sn].r.mode == old(chan[sn].r.mode) && Outward(sn) == old(Outward(sn))
      ensures chan[sn].h.accepted == old(chan[sn].h.accepted) && chan[sn].h.delivered == old(chan[sn].h.delivered)
      ensures stop ==> sn !in sockIoMode && sn !in sockIsSending
      ensures stop ==> GaveUp(sr0, arrived0, seen, chan[sn].r, chan[sn].h)
      ensures !stop ==> Vars() == old(Vars()) && Later(old(chan[sn].r.sr), chan[sn].r.sr)
      ensures !stop ==> chan[sn].h.mode == old(chan[sn].h.mode) && chan[sn].h.arrived == old(chan[sn].h.arrived)
    {
      hide TxInv, RxInv, StreamInv, Consistent, FlagsAgree, OnlyOwn, ChipRun, Shut, GaveUp;
      OnlyOwnSelf(Vars(), sn);
      ghost var r1, h1 := chan[sn].r, chan[sn].h;
      var fsr := SnTxFsr(sn);
      ghost var r2, h2 := chan[sn].r, chan[sn].h;
      ChipRunKeeps(r1, h1, r2, h2);
      stop := fsr == chan[sn].txSize;
      if stop {
        var _ := Close(sn);
        ShutFacts(r2, h2, chan[sn].r, chan[sn].h);
        TakenIsAccepted(sn);
        PeerClosed(sr0, arrived0, seen, chan[sn].r, chan[sn].h);
      }
    }

    /** Fetching from a stream socket. */
    method FetchStream(sn: nat, len: nat) returns (data: seq<byte>)
      requires sn < |chan| && SocketOk(sn) && chan[sn].h.mode == TCP && !Fresh(chan[sn].r.sr)
      requires len <= |chan[sn].h.arrived| - |chan[sn].h.delivered|
      modifies Foot(sn)
      ensures SocketOk(sn) && Elsewhere(sn) == old(Elsewhere(sn)) && |data| == len
      ensures chan[sn].r.mode == old(chan[sn].r.mode) && Outward(sn) == old(Outward(sn))
      ensures chan[sn].h.accepted == old(chan[sn].h.accepted)
      ensures chan[sn].h.delivered == old(chan[sn].h.delivered) + data
      ensures old(chan[sn].h.delivered) + data <= old(chan[sn].h.arrived) <= chan[sn].h.arrived
    {
      hide TxInv, RxInv, StreamInv, Consistent, FlagsAgree, ChipRun;
      ConsistentAtRest(chan[sn].r, chan[sn].h, sn in sockIsSending, sockRemainedSize[sn], got[sn]);
      data := chan[sn].Fetch(len);
      FetchedKeeps(old(chan[sn].r), old(chan[sn].h), data, chan[sn].r, chan[sn].h);
      TcpFetchKeepsConsistent(old(chan[sn].r), old(chan[sn].h), data, chan[sn].r, chan[sn].h,
                              sn in sockIsSending, sockRemainedSize[sn], got[sn]);
    }

    /**
     A positive result n hands out the n oldest received bytes that no earlier call has handed out; any
     other result hands out nothing.
     */
    method Recv(sn: nat, len: nat, patience: nat)
      returns (ret: Outcome, data: seq<byte>, ghost seen: Glimpse)
      requires sn != |chan| && (sn < |chan| ==> SocketOk(sn)) && len < 0x1_0000
      modifies this`sockIoMode, this`sockIsSending, this`sockRemainedSize, this`sockPackInfo, Foot(sn)
      ensures sn > |chan| <==> ret == Done(SOCKERR_SOCKNUM)
      ensures sn > |chan| ==> Vars() == old(Vars())
      ensures sn < |chan| ==> SocketOk(sn) && OnlyOwn(old(Vars()), Vars(), sn) && Elsewhere(sn) == old(Elsewhere(sn))
      ensures sn < |chan| ==> chan[sn].r.mode == old(chan[sn].r.mode) && Outward(sn) == old(Outward(sn))
      ensures sn < |chan| ==> chan[sn].h.accepted == old(chan[sn].h.accepted)
      ensures sn < |chan| ==> chan[sn].h.delivered == old(chan[sn].h.delivered) + data
      ensures ret.Done? && ret.code > 0 ==> |data| == ret.code <= len
      // all that is asked for and fits the ring, or all that was waiting - unless more has arrived meanwhile
      ensures sn < |chan| && ret.Done? && ret.code > 0 ==>
        || ret.code == (if chan[sn].rxSize < len then chan[sn].rxSize else len)
        || ret.code >= old(Waiting(sn))
        || old(|chan[sn].h.arrived|) < |chan[sn].h.arrived|
      ensures ret.Blocked? || ret.code <= 0 ==> data == []
      ensures sn < |chan| && ret == Done(SOCK_BUSY) ==> sn in old(sockIoMode)
      ensures sn < |chan| && ret == Done(SOCK_BUSY) ==>
        old(Waiting(sn)) <= 0 || old(|chan[sn].h.arrived|) < |chan[sn].h.arrived|
      ensures sn < |chan| && ret.Blocked? ==>
        sn !in old(sockIoMode) && (old(Waiting(sn)) <= 0 || old(|chan[sn].h.arrived|) < |chan[sn].h.arrived|)
      ensures ret != Done(SOCKERR_SOCKSTATUS) ==> Vars() == old(Vars())
      ensures sn < |chan| && ret == Done(SOCKERR_SOCKSTATUS) ==> sn !in sockIoMode && sn !in sockIsSending
      // a status error: the socket has been closed, and what is waiting now is dropped
      ensures sn < |chan| && ret == Done(SOCKERR_SOCKSTATUS) ==>
        GaveUp(old(chan[sn].r.sr), old(chan[sn].h.arrived), seen, chan[sn].r, chan[sn].h)
      // certainly so in a state `recv` refuses, with all that was waiting and whatever has joined it
      ensures sn < |chan| && old(chan[sn].r.mode) == TCP && len > 0 && Refused(old(chan[sn].r.sr)) ==>
        ret == Done(SOCKERR_SOCKSTATUS) && seen.status != CLOSE_WAIT
      ensures sn < |chan| && ret == Done(SOCKERR_SOCKSTATUS) ==> old(Waiting(sn)) <= Waiting(sn)
      // once nothing more can arrive, exactly what was waiting, and only if the status was not CLOSE_WAIT
      ensures sn < |chan| && ret == Done(SOCKERR_SOCKSTATUS) && Ended(old(chan[sn].r.sr)) ==>
        (Waiting(sn) > 0 <==> old(Waiting(sn)) > 0 && seen.status != CLOSE_WAIT)
      ensures sn < |chan| && ret == Done(SOCKERR_SOCKSTATUS) && old(Waiting(sn)) >= 256 ==> seen.status != CLOSE_WAIT
      ensures ret.Done? && ret.code <= 0 ==>
        ret.code in {SOCK_BUSY, SOCKERR_SOCKSTATUS, SOCKERR_SOCKNUM, SOCKERR_SOCKMODE, SOCKERR_DATALEN}
      ensures sn < |chan| ==> (ret == Done(SOCKERR_DATALEN) <==> old(chan[sn].r.mode) == TCP && len == 0)
      ensures sn < |chan| ==> (ret == Done(SOCKERR_SOCKMODE) <==> old(chan[sn].r.mode) != TCP)
    {
      hide TxInv, RxInv, StreamInv, Consistent, FlagsAgree, OnlyOwn, GaveUp, Later;
      data, seen := [], Glimpse(CLOSED, 0, 0);
      if sn > |chan| {
        ret := Done(SOCKERR_SOCKNUM);
        return;
      }
      OnlyOwnSelf(Vars(), sn);
      if chan[sn].r.mode != TCP {
        ret := Done(SOCKERR_SOCKMODE);
        return;
      }
      if len == 0 {
        ret := Done(SOCKERR_DATALEN);
        return;
      }
      var size := if chan[sn].rxSize < len then chan[sn].rxSize else len;
      var recvsize;
      recvsize, ret, seen := AwaitData(sn, patience);
      if recvsize == 0 {
        if ret == Done(SOCKERR_SOCKSTATUS) {
          WhatIsDropped(old(chan[sn].r.sr), old(chan[sn].h), seen, chan[sn].r, chan[sn].h);
        }
        return;
      }
      size := if recvsize < size then recvsize else size;
      data := FetchStream(sn, size);
      ret := Done(size);
    }

    // ----- recvfrom -----

    /** Waits, if no packet is in progress, until RX memory holds something. */
    method AwaitPacket(sn: nat, patience: nat) returns (go: bool, stopped: Outcome)
      requires sn < |chan| && SocketOk(sn) && IsDatagram(chan[sn].r.mode) && sockRemainedSize[sn] == 0
      modifies Foot(sn)
      ensures SocketOk(sn) && Elsewhere(sn) == old(Elsewhere(sn))
      ensures chan[sn].r.mode == old(chan[sn].r.mode) && Outward(sn) == old(Outward(sn))
      ensures chan[sn].h.accepted == old(chan[sn].h.accepted) && chan[sn].h.delivered == old(chan[sn].h.delivered)
      ensures go ==> chan[sn].r.sr != CLOSED && |chan[sn].h.delivered| < |chan[sn].h.arrived|
      ensures !go ==> stopped in {Blocked, Done(SOCKERR_SOCKCLOSED), Done(SOCK_BUSY)}
      ensures !go && stopped == Done(SOCKERR_SOCKCLOSED) ==> chan[sn].r.sr == CLOSED
      ensures !go && stopped == Done(SOCK_BUSY) ==> sn in sockIoMode
      ensures !go && stopped == Blocked ==> sn !in sockIoMode
      ensures !go && stopped in {Blocked, Done(SOCK_BUSY)} ==>
        old(Waiting(sn)) <= 0 || old(|chan[sn].h.arrived|) < |chan[sn].h.arrived|
    {
      hide TxInv, RxInv, StreamInv, Consistent, FlagsAgree, ChipRun;
      stopped := Blocked;
      var polls := patience;
      while true
        invariant SocketOk(sn) && Elsewhere(sn) == old(Elsewhere(sn)) && stopped == Blocked
        invariant chan[sn].r.mode == old(chan[sn].r.mode) && Outward(sn) == old(Outward(sn))
        invariant chan[sn].h.accepted == old(chan[sn].h.accepted) && chan[sn].h.delivered == old(chan[sn].h.delivered)
        invariant old(chan[sn].h.arrived) <= chan[sn].h.arrived
        decreases polls
      {
        ghost var r0, h0 := chan[sn].r, chan[sn].h;
        var pack_len := SnRxRsr(sn);
        ghost var r1, h1 := chan[sn].r, chan[sn].h;
        ChipRunKeeps(r0, h0, r1, h1);
        var tmp := SnSr(sn);
        ChipRunKeeps(r1, h1, chan[sn].r, chan[sn].h);
        if tmp == CLOSED {
          return false, Done(SOCKERR_SOCKCLOSED);
        }
        if sn in sockIoMode && pack_len == 0 {
          return false, Done(SOCK_BUSY);
        }
        if pack_len != 0 {
          return true, Blocked;
        }
        if polls == 0 {
          return false, Blocked;
        }
        polls := polls - 1;
      }
    }

    /** Reads the next packet's header: peer address, port and payload length. */
    method TakeHeader(sn: nat) returns (addr: seq<byte>, port: u16)
      requires sn < |chan| && SocketOk(sn) && IsDatagram(chan[sn].r.mode) && sockRemainedSize[sn] == 0
      requires chan[sn].r.sr != CLOSED && |chan[sn].h.delivered| < |chan[sn].h.arrived|
      modifies this`sockRemainedSize, this`sockPackInfo, this`got, Foot(sn)
      ensures CursorOk(sn) && OnlyOwn(old(Vars()), Vars(), sn) && Elsewhere(sn) == old(Elsewhere(sn))
      ensures chan[sn].r.mode == old(chan[sn].r.mode) && Outward(sn) == old(Outward(sn))
      ensures chan[sn].r.sr != CLOSED
      ensures chan[sn].h.accepted == old(chan[sn].h.accepted) && old(chan[sn].h.packets) <= chan[sn].h.packets
      ensures sockPackInfo[sn] == PACK_FIRST && got[sn] == old(got[sn]) + [[]]
      ensures |got[sn]| <= |old(chan[sn].h.packets)|
      ensures var p := old(chan[sn].h.packets)[|old(got[sn])|];
        && sockRemainedSize[sn] == |p.payload|
        && (chan[sn].r.mode == UDP ==> addr == p.addr && port == p.port)
        && (chan[sn].r.mode == IPRAW ==> addr == p.addr)
    {
      hide TxInv, RxInv, StreamInv, Consistent, FlagsAgree, ChipRun, InPacket, Stream, ParseHeader, Header, PacketOk;
      ghost var r0, h0 := chan[sn].r, chan[sn].h;
      OpenDatagram(r0, h0, sn in sockIsSending, 0, got[sn]);
      HeaderArrived(h0, got[sn]);
      ConsistentAtRest(r0, h0, sn in sockIsSending, 0, got[sn]);
      var head := chan[sn].Fetch(HeaderSize(chan[sn].r.mode));
      HeaderKeepsConsistent(r0, h0, head, chan[sn].r, chan[sn].h, sn in sockIsSending, got[sn]);
      FetchedKeeps(r0, h0, head, chan[sn].r, chan[sn].h);
      HeaderParsed(h0.mode, h0.packets[|got[sn]|]);
      var fields := ParseHeader(chan[sn].r.mode, head);
      addr, port := fields.0, fields.1;
      sockRemainedSize := sockRemainedSize[sn := fields.2];
      sockPackInfo := sockPackInfo[sn := PACK_FIRST];
      got := got[sn := got[sn] + [[]]];
    }

    /** Fetches the next n bytes of the packet in progress. */
    method FetchPayload(sn: nat, n: nat) returns (data: seq<byte>)
      requires sn < |chan| && CursorOk(sn) && IsDatagram(chan[sn].r.mode) && |got[sn]| > 0
      requires chan[sn].r.sr != CLOSED && n <= sockRemainedSize[sn]
      modifies this`sockRemainedSize, this`got, Foot(sn)
      ensures CursorOk(sn) && OnlyOwn(old(Vars()), Vars(), sn) && Elsewhere(sn) == old(Elsewhere(sn))
      ensures chan[sn].r.mode == old(chan[sn].r.mode) && Outward(sn) == old(Outward(sn))
      ensures chan[sn].h.accepted == old(chan[sn].h.accepted) && old(chan[sn].h.packets) <= chan[sn].h.packets
      ensures |data| == n && sockRemainedSize[sn] == old(sockRemainedSize[sn]) - n
      ensures got[sn] == Extend(old(got[sn]), data)
    {
      hide TxInv, RxInv, StreamInv, Consistent, FlagsAgree, ChipRun, InPacket, Stream, Rest, Extend;
      ghost var r0, h0 := chan[sn].r, chan[sn].h;
      var remained := sockRemainedSize[sn];
      OpenDatagram(r0, h0, sn in sockIsSending, remained, got[sn]);
      RestArrived(h0, remained, got[sn]);
      ConsistentAtRest(r0, h0, sn in sockIsSending, remained, got[sn]);
      data := chan[sn].Fetch(n);
      FragmentKeepsConsistent(r0, h0, data, chan[sn].r, chan[sn].h, sn in sockIsSending, remained, got[sn]);
      FetchedKeeps(r0, h0, data, chan[sn].r, chan[sn].h);
      sockRemainedSize := sockRemainedSize[sn := remained - n];
      got := got[sn := Extend(got[sn], data)];
    }

    /** Reads up to len bytes of the packet in progress and sets the packet flags. */
    method TakeFragment(sn: nat, len: nat) returns (data: seq<byte>)
      requires sn < |chan| && CursorOk(sn) && IsDatagram(chan[sn].r.mode) && |got[sn]| > 0
      requires chan[sn].r.sr != CLOSED
      modifies this`sockRemainedSize, this`sockPackInfo, this`got, Foot(sn)
      ensures SocketOk(sn) && OnlyOwn(old(Vars()), Vars(), sn) && Elsewhere(sn) == old(Elsewhere(sn))
      ensures chan[sn].r.mode == old(chan[sn].r.mode) && Outward(sn) == old(Outward(sn))
      ensures chan[sn].h.accepted == old(chan[sn].h.accepted) && old(chan[sn].h.packets) <= chan[sn].h.packets
      ensures |data| == if len < old(sockRemainedSize[sn]) then len else old(sockRemainedSize[sn])
      ensures sockRemainedSize[sn] == old(sockRemainedSize[sn]) - |data|
      ensures got[sn] == Extend(old(got[sn]), data)
      ensures sockPackInfo[sn] == PackInfo(old(sockPackInfo[sn]), sockRemainedSize[sn])
      ensures sockIoMode == old(sockIoMode) && sockIsSending == old(sockIsSending)
    {
      hide TxInv, RxInv, StreamInv, Consistent, FlagsAgree, Extend;
      var pack_len := if len < sockRemainedSize[sn] then len else sockRemainedSize[sn];
      data := FetchPayload(sn, pack_len);
      if sockRemainedSize[sn] != 0 {
        RemainedAgrees(sockPackInfo[sn], sockRemainedSize[sn]);
        sockPackInfo := sockPackInfo[sn := sockPackInfo[sn] | PACK_REMAINED];
      } else {
        CompletedAgrees();
        sockPackInfo := sockPackInfo[sn := PACK_COMPLETED];
      }
    }

    /**
     A call that takes a fragment appends it to what was handed out: to the packet in progress if some of
     it was left, else to a new entry, the next packet in order, whose sender it reports. With SocketOk
     this means that every packet's payload is handed out once, in order, never mixed with another's.
     */
    method RecvFrom(sn: nat, len: nat, patience: nat)
      returns (ret: Outcome, data: seq<byte>, addr: seq<byte>, port: u16, ghost taken: bool)
      requires sn != |chan| && (sn < |chan| ==> SocketOk(sn)) && len < 0x1_0000
      modifies this`sockIoMode, this`sockIsSending, this`sockRemainedSize, this`sockPackInfo, this`got, Foot(sn)
      ensures sn > |chan| <==> ret == Done(SOCKERR_SOCKNUM)
      ensures sn > |chan| ==> Vars() == old(Vars()) && !taken
      ensures sn < |chan| ==> SocketOk(sn) && OnlyOwn(old(Vars()), Vars(), sn) && Elsewhere(sn) == old(Elsewhere(sn))
      ensures sn < |chan| ==> chan[sn].r.mode == old(chan[sn].r.mode) && Outward(sn) == old(Outward(sn))
      ensures sn < |chan| ==> chan[sn].h.accepted == old(chan[sn].h.accepted)
      ensures taken ==> sn < |chan| && ret == Done(|data|) && IsDatagram(old(chan[sn].r.mode))
      ensures taken && old(sockRemainedSize[sn]) > 0 ==>
        && got[sn] == Extend(old(got[sn]), data)
        && |data| == (if len < old(sockRemainedSize[sn]) then len else old(sockRemainedSize[sn]))
        && sockRemainedSize[sn] == old(sockRemainedSize[sn]) - |data|
        && sockPackInfo[sn] == PackInfo(old(sockPackInfo[sn]), sockRemainedSize[sn])
      ensures taken && old(sockRemainedSize[sn]) == 0 ==>
        && got[sn] == old(got[sn]) + [data] && |got[sn]| <= |chan[sn].h.packets|
        && var p := chan[sn].h.packets[|old(got[sn])|];
        && |data| == (if len < |p.payload| then len else |p.payload|)
        && sockRemainedSize[sn] == |p.payload| - |data|
        && sockPackInfo[sn] == PackInfo(PACK_FIRST, sockRemainedSize[sn])
        && (old(chan[sn].r.mode) == UDP ==> addr == p.addr && port == p.port)
        && (old(chan[sn].r.mode) == IPRAW ==> addr == p.addr)
        && (old(chan[sn].r.mode) == MACRAW ==> |p.payload| <= MAX_MAC_FRAME)
      ensures !taken ==> data == [] && (ret.Blocked? || ret.code <= 0)
      ensures !taken && ret.Done? ==> ret.code in {SOCK_BUSY, SOCKERR_SOCKCLOSED, SOCKFATAL_PACKLEN,
                                                   SOCKERR_SOCKNUM, SOCKERR_SOCKMODE, SOCKERR_DATALEN}
      ensures sn < |chan| && IsDatagram(old(chan[sn].r.mode)) && len > 0 && old(sockRemainedSize[sn]) > 0 ==> taken
      ensures sn < |chan| && !taken && ret == Done(SOCK_BUSY) ==> sn in old(sockIoMode)
      ensures sn < |chan| && ret.Blocked? ==> sn !in old(sockIoMode)
      ensures sn < |chan| && !taken && ret in {Blocked, Done(SOCK_BUSY)} ==>
        old(Waiting(sn)) <= 0 || old(|chan[sn].h.arrived|) < |chan[sn].h.arrived|
      ensures ret != Done(SOCKFATAL_PACKLEN) ==> sockIoMode == old(sockIoMode) && sockIsSending == old(sockIsSending)
      ensures !taken && ret != Done(SOCKFATAL_PACKLEN) ==> Vars() == old(Vars())
      ensures sn < |chan| && ret == Done(SOCKERR_SOCKCLOSED) ==> chan[sn].r.sr == CLOSED
      ensures sn < |chan| ==> (ret == Done(SOCKERR_SOCKMODE) <==> !IsDatagram(old(chan[sn].r.mode)))
      ensures sn < |chan| ==> (ret == Done(SOCKERR_DATALEN) <==> IsDatagram(old(chan[sn].r.mode)) && len == 0)
      ensures !taken && sn < |chan| && ret != Done(SOCKFATAL_PACKLEN) ==>
        got[sn] == old(got[sn]) && chan[sn].h.delivered == old(chan[sn].h.delivered)
      ensures ret == Done(SOCKFATAL_PACKLEN) ==>
        && sn < |chan| && old(chan[sn].r.mode) == MACRAW && old(sockRemainedSize[sn]) == 0 && chan[sn].r.sr == CLOSED
        && sn !in sockIoMode && sn !in sockIsSending && got[sn] == old(got[sn]) + [[]]
        && |old(got[sn])| < |chan[sn].h.packets| && |chan[sn].h.packets[|old(got[sn])|].payload| > MAX_MAC_FRAME
    {
      hide TxInv, RxInv, StreamInv, Consistent, FlagsAgree, OnlyOwn, Extend;
      taken, data, addr, port := false, [], [], 0;
      if sn > |chan| {
        ret := Done(SOCKERR_SOCKNUM);
        return;
      }
      OnlyOwnSelf(Vars(), sn);
      if !IsDatagram(chan[sn].r.mode) {
        ret := Done(SOCKERR_SOCKMODE);
        return;
      }
      if len == 0 {
        ret := Done(SOCKERR_DATALEN);
        return;
      }
      if sockRemainedSize[sn] == 0 {
        ret, data, addr, port, taken := FirstFragment(sn, len, patience);
      } else {
        InProgress(chan[sn].r, chan[sn].h, sn in sockIsSending, sockRemainedSize[sn], got[sn]);
        data := TakeFragment(sn, len);
        taken, ret := true, Done(|data|);
      }
    }

    /** The call when no packet is in progress. */
    method FirstFragment(sn: nat, len: nat, patience: nat)
      returns (ret: Outcome, data: seq<byte>, addr: seq<byte>, port: u16, ghost taken: bool)
      requires sn < |chan| && SocketOk(sn) && IsDatagram(chan[sn].r.mode) && sockRemainedSize[sn] == 0
      modifies this`sockIoMode, this`sockIsSending, this`sockRemainedSize, this`sockPackInfo, this`got, Foot(sn)
      ensures SocketOk(sn) && OnlyOwn(old(Vars()), Vars(), sn) && Elsewhere(sn) == old(Elsewhere(sn))
      ensures chan[sn].r.mode == old(chan[sn].r.mode) && Outward(sn) == old(Outward(sn))
      ensures chan[sn].h.accepted == old(chan[sn].h.accepted)
      ensures taken ==> ret == Done(|data|)
      ensures taken ==>
        && got[sn] == old(got[sn]) + [data] && |got[sn]| <= |chan[sn].h.packets|
        && var p := chan[sn].h.packets[|old(got[sn])|];
        && |data| == (if len < |p.payload| then len else |p.payload|)
        && sockRemainedSize[sn] == |p.payload| - |data|
        && sockPackInfo[sn] == PackInfo(PACK_FIRST, sockRemainedSize[sn])
        && (old(chan[sn].r.mode) == UDP ==> addr == p.addr && port == p.port)
        && (old(chan[sn].r.mode) == IPRAW ==> addr == p.addr)
        && (old(chan[sn].r.mode) == MACRAW ==> |p.payload| <= MAX_MAC_FRAME)
      ensures !taken ==>
        data == [] && ret in {Blocked, Done(SOCKERR_SOCKCLOSED), Done(SOCK_BUSY), Done(SOCKFATAL_PACKLEN)}
      ensures !taken && ret == Done(SOCK_BUSY) ==> sn in old(sockIoMode)
      ensures ret.Blocked? ==> sn !in old(sockIoMode)
      ensures !taken && ret in {Blocked, Done(SOCK_BUSY)} ==>
        old(Waiting(sn)) <= 0 || old(|chan[sn].h.arrived|) < |chan[sn].h.arrived|
      ensures ret != Done(SOCKFATAL_PACKLEN) ==> sockIoMode == old(sockIoMode) && sockIsSending == old(sockIsSending)
      ensures ret == Done(SOCKERR_SOCKCLOSED) ==> chan[sn].r.sr == CLOSED
      ensures !taken && ret != Done(SOCKFATAL_PACKLEN) ==> Vars() == old(Vars())
      ensures !taken && ret != Done(SOCKFATAL_PACKLEN) ==>
        got[sn] == old(got[sn]) && chan[sn].h.delivered == old(chan[sn].h.delivered)
      ensures ret == Done(SOCKFATAL_PACKLEN) ==>
        && old(chan[sn].r.mode) == MACRAW && chan[sn].r.sr == CLOSED && got[sn] == old(got[sn]) + [[]]
        && sn !in sockIoMode && sn !in sockIsSending
        && |old(got[sn])| < |chan[sn].h.packets| && |chan[sn].h.packets[|old(got[sn])|].payload| > MAX_MAC_FRAME
    {
      hide TxInv, RxInv, StreamInv, Consistent, FlagsAgree, OnlyOwn;
      taken, data, addr, port := false, [], [], 0;
      ghost var v0 := Vars();
      OnlyOwnSelf(v0, sn);
      var go, stopped := AwaitPacket(sn, patience);
      if !go {
        ret := stopped;
        return;
      }
      addr, port := TakeHeader(sn);
      ghost var v1 := Vars();
      if chan[sn].r.mode == MACRAW && sockRemainedSize[sn] > MAX_MAC_FRAME {
        var _ := Close(sn);
        OnlyOwnTwice(v0, v1, Vars(), sn);
        ret := Done(SOCKFATAL_PACKLEN);
        return;
      }
      data := TakeFragment(sn, len);
      OnlyOwnTwice(v0, v1, Vars(), sn);
      assert [] + data == data;
      taken, ret := true, Done(|data|);
    }

    // ----- sendto -----

    /** The destination registers. */
    method SetDest(sn: nat, addr: u32, port: u16)
      requires sn < |chan| && SocketOk(sn)
      modifies Foot(sn)
      ensures SocketOk(sn) && Elsewhere(sn) == old(Elsewhere(sn))
      ensures chan[sn].r.mode == old(chan[sn].r.mode)
      ensures Outward(sn) == (Endpoint(addr, port), old(chan[sn].out), old(chan[sn].irs))
      ensures ChipRun(old(chan[sn].r), old(chan[sn].h), chan[sn].r, chan[sn].h)
    {
      hide Consistent, TxInv, RxInv, StreamInv, ChipRun, FlagsAgree;
      chan[sn].SetSnDest(addr, port);
      ChipRunKeeps(old(chan[sn].r), old(chan[sn].h), chan[sn].r, chan[sn].h);
      ChipKeepsConsistent(old(chan[sn].r), old(chan[sn].h), chan[sn].r, chan[sn].h,
                          sn in sockIsSending, sockRemainedSize[sn], got[sn]);
    }

    method AwaitRoomTo(sn: nat, len: nat, patience: nat) returns (go: bool, stopped: Outcome)
      requires sn < |chan| && SocketOk(sn) && IsDatagram(chan[sn].r.mode) && chan[sn].r.sr != CLOSED
      modifies Foot(sn)
      ensures SocketOk(sn) && Elsewhere(sn) == old(Elsewhere(sn))
      ensures chan[sn].r.mode == old(chan[sn].r.mode) && Outward(sn) == old(Outward(sn))
      ensures chan[sn].h.accepted == old(chan[sn].h.accepted) && chan[sn].h.delivered == old(chan[sn].h.delivered)
      ensures chan[sn].h.unacked == old(chan[sn].h.unacked)
      ensures go ==> IsDatagram(chan[sn].r.mode) && chan[sn].r.sr != CLOSED && len <= chan[sn].TxFree()
      ensures !go ==> stopped in {Blocked, Done(SOCKERR_SOCKCLOSED), Done(SOCK_BUSY)}
      ensures !go && stopped == Done(SOCKERR_SOCKCLOSED) ==> chan[sn].r.sr == CLOSED
      ensures !go && stopped == Done(SOCK_BUSY) ==> sn in sockIoMode
      ensures !go && stopped == Blocked ==> sn !in sockIoMode
      ensures !go && stopped in {Blocked, Done(SOCK_BUSY)} ==>
        len > old(Room(sn)) || old(|chan[sn].h.taken|) < |chan[sn].h.taken|
    {
      hide TxInv, RxInv, StreamInv, Consistent, FlagsAgree, ChipRun;
      stopped := Blocked;
      var polls := patience;
      while true
        invariant SocketOk(sn) && Elsewhere(sn) == old(Elsewhere(sn)) && stopped == Blocked
        invariant chan[sn].r.mode == old(chan[sn].r.mode) && Outward(sn) == old(Outward(sn))
        invariant chan[sn].h.accepted == old(chan[sn].h.accepted) && chan[sn].h.delivered == old(chan[sn].h.delivered)
        invariant IsDatagram(chan[sn].r.mode) && old(|chan[sn].h.taken|) <= |chan[sn].h.taken|
        invariant chan[sn].h.unacked == old(chan[sn].h.unacked)
        decreases polls
      {
        ghost var r0, h0 := chan[sn].r, chan[sn].h;
        var freesize := SnTxFsr(sn);
        ghost var r1, h1 := chan[sn].r, chan[sn].h;
        ChipRunKeeps(r0, h0, r1, h1);
        var tmp := SnSr(sn);
        ChipRunKeeps(r1, h1, chan[sn].r, chan[sn].h);
        if tmp == CLOSED {
          return false, Done(SOCKERR_SOCKCLOSED);
        }
        if sn in sockIoMode && len > freesize {
          return false, Done(SOCK_BUSY);
        }
        if len <= freesize {
          return true, Blocked;
        }
        if polls == 0 {
          return false, Blocked;
        }
        polls := polls - 1;
      }
    }

    /** Clearing an interrupt bit of a datagram socket; a SENDOK that is raised is consumed. */
    method ClearIr(sn: nat, sendok: bool, timeout: bool)
      requires sn < |chan| && SocketOk(sn) && chan[sn].h.mode != TCP
      modifies Foot(sn)
      ensures if sendok then !chan[sn].r.sendok else old(chan[sn].r.sendok) ==> chan[sn].r.sendok
      ensures if timeout then !chan[sn].r.timeout else old(chan[sn].r.timeout) ==> chan[sn].r.timeout
      ensures Consumed(sendok, old(chan[sn].r.sendok), old(chan[sn].h.unacked), chan[sn].h.unacked)
      ensures SocketOk(sn) && Elsewhere(sn) == old(Elsewhere(sn))
      ensures chan[sn].r.mode == old(chan[sn].r.mode) && Outward(sn) == old(Outward(sn))
      ensures chan[sn].h.accepted == old(chan[sn].h.accepted) && chan[sn].h.delivered == old(chan[sn].h.delivered)
    {
      hide TxInv, RxInv, StreamInv, Consistent, FlagsAgree, ChipRun;
      chan[sn].SetSnIr(sendok, timeout);
      IrKeepsConsistent(old(chan[sn].r), old(chan[sn].h), sendok, timeout, chan[sn].r, chan[sn].h,
                        sn in sockIsSending, sockRemainedSize[sn], got[sn]);
    }

    /** SEND on a datagram socket; `mask` is the subnet mask in force. */
    method SendDatagram(sn: nat, data: seq<byte>) returns (ghost mask: u32)
      requires sn < |chan| && SocketOk(sn) && IsDatagram(chan[sn].r.mode) && chan[sn].r.sr != CLOSED
      requires |data| <= chan[sn].TxFree()
      modifies Foot(sn)
      ensures SocketOk(sn) && Elsewhere(sn) == old(Elsewhere(sn)) && chan[sn].h.mode != TCP
      ensures chan[sn].r.mode == old(chan[sn].r.mode)
      ensures mask == subr
      ensures chan[sn].out == old(chan[sn].out) + [Datagram(old(chan[sn].dest), data)]
      ensures chan[sn].irs == old(chan[sn].irs) && chan[sn].h.unacked == old(chan[sn].h.unacked) + 1
      ensures chan[sn].h.accepted == old(chan[sn].h.accepted) + data
      ensures chan[sn].h.delivered == old(chan[sn].h.delivered)
    {
      hide TxInv, RxInv, StreamInv, Consistent, FlagsAgree, ChipRun, InPacket, Stream;
      OpenDatagram(chan[sn].r, chan[sn].h, sn in sockIsSending, sockRemainedSize[sn], got[sn]);
      ConsistentAtRest(chan[sn].r, chan[sn].h, sn in sockIsSending, sockRemainedSize[sn], got[sn]);
      chan[sn].Transmit(data);
      mask := subr;
      DatagramSendKeepsConsistent(old(chan[sn].r), old(chan[sn].h), chan[sn].r, chan[sn].h, data,
                                  sn in sockIsSending, sockRemainedSize[sn], got[sn]);
    }

    /**
     Waits for SENDOK or TIMEOUT and clears it: the first read of Sn_IR that has either decides, SENDOK first. A
     SENDOK is consumed, after a TIMEOUT the SEND stays unacknowledged.
     */
    method AwaitSendok(sn: nat, len: nat, patience: nat) returns (ret: Outcome)
      requires sn < |chan| && SocketOk(sn) && chan[sn].h.mode != TCP
      modifies Foot(sn)
      ensures SocketOk(sn) && Elsewhere(sn) == old(Elsewhere(sn))
      ensures chan[sn].r.mode == old(chan[sn].r.mode) && Target(sn) == old(Target(sn))
      ensures chan[sn].h.accepted == old(chan[sn].h.accepted) && chan[sn].h.delivered == old(chan[sn].h.delivered)
      ensures Waited(old(chan[sn].irs), chan[sn].irs) && ret == Answer(chan[sn].irs, len)
      ensures Cleared(chan[sn].irs, chan[sn].r)
      ensures ret.Blocked? ==> Unanswered(old(chan[sn].irs), chan[sn].irs)
      ensures old(chan[sn].h.unacked) > 0 ==>
        chan[sn].h.unacked == old(chan[sn].h.unacked) - (if LastIr(chan[sn].irs).sendok then 1 else 0)
    {
      hide TxInv, RxInv, StreamInv, Consistent, FlagsAgree, ChipRun;
      var polls := patience;
      while true
        invariant SocketOk(sn) && Elsewhere(sn) == old(Elsewhere(sn)) && chan[sn].h.mode != TCP
        invariant chan[sn].r.mode == old(chan[sn].r.mode) && Target(sn) == old(Target(sn))
        invariant chan[sn].h.accepted == old(chan[sn].h.accepted) && chan[sn].h.delivered == old(chan[sn].h.delivered)
        invariant Unanswered(old(chan[sn].irs), chan[sn].irs) && chan[sn].h.unacked == old(chan[sn].h.unacked)
        decreases polls
      {
        ghost var r0, h0 := chan[sn].r, chan[sn].h;
        var sendok, timeout := SnIr(sn);
        ChipRunKeeps(r0, h0, chan[sn].r, chan[sn].h);
        if sendok {
          ClearIr(sn, true, false);
          return Done(len);
        }
        if timeout {
          ClearIr(sn, false, true);
          return Done(SOCKERR_TIMEOUT);
        }
        if polls == 0 {
          return Blocked;
        }
        polls := polls - 1;
      }
    }

    /**
     A positive result n, and likewise a timeout, means that exactly the first bytes of the buffer were
     appended to what the chip is to transmit. The subnet mask that older chips need cleared while their
     own address is unset - `mask` is the one in force at the SEND - is back when the call returns.
     */
    method SendTo(sn: nat, buf: seq<byte>, addr: u32, port: u16, patience: nat)
      returns (ret: Outcome, ghost mask: u32)
      requires sn != |chan| && (sn < |chan| ==> SocketOk(sn)) && |buf| < 0x1_0000
      modifies this`subr, Foot(sn)
      ensures sn > |chan| <==> ret == Done(SOCKERR_SOCKNUM)
      ensures sn < |chan| ==> SocketOk(sn) && Elsewhere(sn) == old(Elsewhere(sn))
      ensures sn < |chan| ==> chan[sn].r.mode == old(chan[sn].r.mode)
      ensures sn < |chan| ==> chan[sn].h.delivered == old(chan[sn].h.delivered)
      ensures ret.Done? ==> subr == old(subr)
      // one datagram, of these bytes, to this address and port
      ensures sn < |chan| && ret.Done? && (ret.code > 0 || ret.code == SOCKERR_TIMEOUT) ==>
        var n := if |buf| <= chan[sn].txSize then |buf| else chan[sn].txSize;
        && chan[sn].h.accepted == old(chan[sn].h.accepted) + buf[..n] && (ret.code > 0 ==> ret.code == n)
        && chan[sn].out == old(chan[sn].out) + [Datagram(Endpoint(addr, port), buf[..n])]
      // the first read of Sn_IR with SENDOK or TIMEOUT decides: a positive result has consumed the SENDOK of this
      // SEND, SOCKERR_TIMEOUT means TIMEOUT without SENDOK and leaves it unacknowledged
      ensures sn < |chan| && ret.Done? && (ret.code > 0 || ret.code == SOCKERR_TIMEOUT) ==>
        && Waited(old(chan[sn].irs), chan[sn].irs)
        && mask == (if chan[sn].kind == W5100 && sipr == 0 then 0 else old(subr))
        && Cleared(chan[sn].irs, chan[sn].r)
        && (ret.code > 0 <==> LastIr(chan[sn].irs).sendok)
        && (ret.code == SOCKERR_TIMEOUT <==> LastIr(chan[sn].irs) == Ir(false, true))
        && chan[sn].h.unacked == old(chan[sn].h.unacked) + (if ret.code == SOCKERR_TIMEOUT then 1 else 0)
      ensures sn < |chan| && ret.Done? && ret.code <= 0 && ret.code != SOCKERR_TIMEOUT ==>
        && chan[sn].h.accepted == old(chan[sn].h.accepted) && chan[sn].h.unacked == old(chan[sn].h.unacked)
        && chan[sn].out == old(chan[sn].out) && chan[sn].irs == old(chan[sn].irs)
      ensures sn < |chan| ==>
        (ret == Done(SOCKERR_IPINVALID) <==> old(chan[sn].r.mode) in {UDP, IPRAW} && buf != [] && addr == 0)
      ensures sn < |chan| ==>
        (ret == Done(SOCKERR_PORTZERO) <==> old(chan[sn].r.mode) in {UDP, IPRAW} && buf != [] && addr != 0 && port == 0)
      ensures sn < |chan| ==> (ret == Done(SOCKERR_SOCKMODE) <==> !IsDatagram(old(chan[sn].r.mode)))
      ensures sn < |chan| ==> (ret == Done(SOCKERR_DATALEN) <==> IsDatagram(old(chan[sn].r.mode)) && buf == [])
      ensures sn < |chan| && ret == Done(SOCK_BUSY) ==> sn in sockIoMode
      ensures sn < |chan| && ret == Done(SOCK_BUSY) ==>
        || (if |buf| <= chan[sn].txSize then |buf| else chan[sn].txSize) > old(Room(sn))
        || old(|chan[sn].h.taken|) < |chan[sn].h.taken|
      // a call still polling waits for room, or for the first SENDOK or TIMEOUT
      ensures sn < |chan| && ret.Blocked? ==>
        var n := if |buf| <= chan[sn].txSize then |buf| else chan[sn].txSize;
        && Unanswered(old(chan[sn].irs), chan[sn].irs)
        && if chan[sn].out == old(chan[sn].out)
           then sn !in sockIoMode && (n > old(Room(sn)) || old(|chan[sn].h.taken|) < |chan[sn].h.taken|)
           else chan[sn].out == old(chan[sn].out) + [Datagram(Endpoint(addr, port), buf[..n])]
      ensures sn < |chan| && ret == Done(SOCKERR_SOCKCLOSED) ==> chan[sn].r.sr == CLOSED
      ensures sn < |chan| && ret == Done(SOCKERR_SOCKSTATUS) ==> chan[sn].r.sr !in {UDP_OPEN, IPRAW_OPEN, MACRAW_OPEN}
      ensures ret.Done? && ret.code <= 0 ==>
        ret.code in {SOCK_BUSY, SOCKERR_SOCKCLOSED, SOCKERR_SOCKSTATUS, SOCKERR_TIMEOUT, SOCKERR_SOCKNUM,
                     SOCKERR_SOCKMODE, SOCKERR_DATALEN, SOCKERR_IPINVALID, SOCKERR_PORTZERO}
    {
      hide TxInv, RxInv, StreamInv, Consistent, FlagsAgree, ChipRun, Answer, Waited, Cleared, Unanswered, LastIr, Later;
      mask := subr;
      if sn > |chan| {
        return Done(SOCKERR_SOCKNUM), mask;
      }
      if !IsDatagram(chan[sn].r.mode) {
        return Done(SOCKERR_SOCKMODE), mask;
      }
      if |buf| == 0 {
        return Done(SOCKERR_DATALEN), mask;
      }
      if addr == 0 && chan[sn].r.mode != MACRAW {
        return Done(SOCKERR_IPINVALID), mask;
      }
      if port == 0 && chan[sn].r.mode != MACRAW {
        return Done(SOCKERR_PORTZERO), mask;
      }
      var tmp := SnSr(sn);
      ChipRunKeeps(old(chan[sn].r), old(chan[sn].h), chan[sn].r, chan[sn].h);
      if tmp != MACRAW_OPEN && tmp != UDP_OPEN && tmp != IPRAW_OPEN {
        return Done(SOCKERR_SOCKSTATUS), mask;
      }
      var len := if |buf| > chan[sn].txSize then chan[sn].txSize else |buf|;
      ret, mask := SendPiece(sn, buf[..len], addr, port, patience);
      AnswerMeans(chan[sn].irs, len);
    }

    /** `sendto` once its arguments and the status are accepted. */
    method SendPiece(sn: nat, data: seq<byte>, addr: u32, port: u16, patience: nat)
      returns (ret: Outcome, ghost mask: u32)
      requires sn < |chan| && SocketOk(sn) && IsDatagram(chan[sn].r.mode) && data != []
      requires chan[sn].r.sr in {UDP_OPEN, IPRAW_OPEN, MACRAW_OPEN}
      modifies this`subr, Foot(sn)
      ensures SocketOk(sn) && Elsewhere(sn) == old(Elsewhere(sn))
      ensures chan[sn].r.mode == old(chan[sn].r.mode) && chan[sn].h.delivered == old(chan[sn].h.delivered)
      ensures ret in {Done(|data|), Done(SOCKERR_TIMEOUT), Done(SOCKERR_SOCKCLOSED), Done(SOCK_BUSY), Blocked}
      ensures ret in {Done(|data|), Done(SOCKERR_TIMEOUT)} ==>
        && chan[sn].h.accepted == old(chan[sn].h.accepted) + data
        && chan[sn].out == old(chan[sn].out) + [Datagram(Endpoint(addr, port), data)]
        && mask == (if chan[sn].kind == W5100 && sipr == 0 then 0 else old(subr))
        && Waited(old(chan[sn].irs), chan[sn].irs) && ret == Answer(chan[sn].irs, |data|)
        && Cleared(chan[sn].irs, chan[sn].r)
        && chan[sn].h.unacked == old(chan[sn].h.unacked) + (if ret == Done(SOCKERR_TIMEOUT) then 1 else 0)
      ensures ret in {Done(SOCKERR_SOCKCLOSED), Done(SOCK_BUSY)} ==>
        && chan[sn].h.accepted == old(chan[sn].h.accepted) && chan[sn].h.unacked == old(chan[sn].h.unacked)
        && chan[sn].out == old(chan[sn].out) && chan[sn].irs == old(chan[sn].irs)
      ensures ret == Done(SOCK_BUSY) ==> sn in sockIoMode
      ensures ret == Done(SOCK_BUSY) || (ret.Blocked? && chan[sn].out == old(chan[sn].out)) ==>
        |data| > old(Room(sn)) || old(|chan[sn].h.taken|) < |chan[sn].h.taken|
      ensures ret.Blocked? ==> Unanswered(old(chan[sn].irs), chan[sn].irs)
      ensures ret.Blocked? ==>
        if chan[sn].out == old(chan[sn].out) then sn !in sockIoMode
        else chan[sn].out == old(chan[sn].out) + [Datagram(Endpoint(addr, port), data)]
      ensures ret == Done(SOCKERR_SOCKCLOSED) ==> chan[sn].r.sr == CLOSED
      ensures ret.Done? ==> subr == old(subr)
    {
      hide TxInv, RxInv, StreamInv, Consistent, FlagsAgree, ChipRun, Cleared, Waited, Unanswered, Answer, LastIr;
      ghost var r1, h1 := chan[sn].r, chan[sn].h;
      SetDest(sn, addr, port);
      ChipRunKeeps(r1, h1, chan[sn].r, chan[sn].h);
      mask := subr;
      NotRead(chan[sn].irs);
      var go, stopped := AwaitRoomTo(sn, |data|, patience);
      if !go {
        return stopped, mask;
      }
      ret, mask := TransmitTo(sn, data, patience);
      AnswerMeans(chan[sn].irs, |data|);
    }

    /** SEND and its acknowledgement, the subnet mask put aside on the older chips while their address is unset. */
    method TransmitTo(sn: nat, data: seq<byte>, patience: nat) returns (ret: Outcome, ghost mask: u32)
      requires sn < |chan| && SocketOk(sn) && IsDatagram(chan[sn].r.mode) && chan[sn].r.sr != CLOSED
      requires |data| <= chan[sn].TxFree()
      modifies this`subr, Foot(sn)
      ensures SocketOk(sn) && Elsewhere(sn) == old(Elsewhere(sn))
      ensures chan[sn].r.mode == old(chan[sn].r.mode)
      ensures chan[sn].out == old(chan[sn].out) + [Datagram(old(chan[sn].dest), data)]
      ensures chan[sn].h.accepted == old(chan[sn].h.accepted) + data
      ensures chan[sn].h.delivered == old(chan[sn].h.delivered)
      ensures Waited(old(chan[sn].irs), chan[sn].irs) && ret == Answer(chan[sn].irs, |data|)
      ensures Cleared(chan[sn].irs, chan[sn].r)
      ensures ret.Blocked? ==> Unanswered(old(chan[sn].irs), chan[sn].irs)
      ensures mask == if chan[sn].kind == W5100 && sipr == 0 then 0 else old(subr)
      ensures chan[sn].h.unacked == old(chan[sn].h.unacked) + (if LastIr(chan[sn].irs).sendok then 0 else 1)
      ensures ret.Done? ==> subr == old(subr)
    {
      hide TxInv, RxInv, StreamInv, Consistent, FlagsAgree, ChipRun;
      var taddr: u32 := 0;
      if chan[sn].kind == W5100 && sipr == 0 {
        taddr := subr;
        subr := 0;
      }
      mask := SendDatagram(sn, data);
      ret := AwaitSendok(sn, |data|, patience);
      if ret.Done? && taddr != 0 {
        subr := taddr;
      }
    }

    // ----- socket, listen, connect, disconnect -----

    method Socket(sn: nat, protocol: Mode, port: u16, flag: bv8) returns (code: int)
      requires sn != |chan| && (sn < |chan| ==> SocketOk(sn))
      modifies this`sockAnyPort, this`sockIoMode, this`sockIsSending, this`sockRemainedSize, this`sockPackInfo,
                this`got, Foot(sn)
      ensures sn > |chan| ==> code == SOCKERR_SOCKNUM && Vars() == old(Vars())
      ensures sn < |chan| ==> SocketOk(sn) && OnlyOwn(old(Vars()), Vars(), sn) && Elsewhere(sn) == old(Elsewhere(sn))
      ensures sn < |chan| ==> code == if protocol == TCP && sipr == 0 then SOCKERR_SOCKINIT
                              else if protocol == NoMode then SOCKERR_SOCKMODE
                              else if !FlagsOk(protocol, flag, chan[sn].kind == W5500) then SOCKERR_SOCKFLAG
                              else sn
      ensures sn < |chan| && code >= 0 ==>
        && chan[sn].r.mode == chan[sn].h.mode == protocol && chan[sn].r.sr == OpenStatus(protocol)
        && chan[sn].h.accepted == chan[sn].h.delivered == [] && chan[sn].out == [] && got[sn] == []
        && sockRemainedSize[sn] == 0
        && (sn in sockIoMode <==> flag & 0x01 != 0) && sn !in sockIsSending
        && chan[sn].port == (if port != 0 then port else old(sockAnyPort))
        && sockAnyPort == (if port != 0 then old(sockAnyPort) else NextPort(old(sockAnyPort)))
      ensures code < 0 ==> sockAnyPort == old(sockAnyPort)
      ensures sn < |chan| && code < 0 ==>
        && Vars() == old(Vars()) && chan[sn].r == old(chan[sn].r) && chan[sn].h == old(chan[sn].h)
        && Outward(sn) == old(Outward(sn)) && chan[sn].port == old(chan[sn].port)
    {
      hide TxInv, RxInv, StreamInv, Consistent, FlagsAgree, OnlyOwn, FlagsOk;
      if sn > |chan| {
        return SOCKERR_SOCKNUM;
      }
      ghost var v0 := Vars();
      OnlyOwnSelf(v0, sn);
      if protocol == TCP && sipr == 0 {
        return SOCKERR_SOCKINIT;
      }
      if protocol == NoMode {
        return SOCKERR_SOCKMODE;
      }
      if !FlagsOk(protocol, flag, chan[sn].kind == W5500) {
        return SOCKERR_SOCKFLAG;
      }
      Renew(sn, protocol, port, flag);
      return sn;
    }

    /** `socket` once its arguments are accepted: close, then open afresh. */
    method Renew(sn: nat, protocol: Mode, port: u16, flag: bv8)
      requires sn < |chan| && SocketOk(sn) && protocol != NoMode
      modifies this`sockAnyPort, this`sockIoMode, this`sockIsSending, this`sockRemainedSize, this`sockPackInfo,
                this`got, Foot(sn)
      ensures SocketOk(sn) && OnlyOwn(old(Vars()), Vars(), sn) && Elsewhere(sn) == old(Elsewhere(sn))
      ensures chan[sn].r.mode == chan[sn].h.mode == protocol && chan[sn].r.sr == OpenStatus(protocol)
      ensures chan[sn].h.accepted == chan[sn].h.delivered == [] && chan[sn].out == [] && got[sn] == []
      ensures sockRemainedSize[sn] == 0
      ensures (sn in sockIoMode <==> flag & 0x01 != 0) && sn !in sockIsSending
      ensures chan[sn].port == if port != 0 then port else old(sockAnyPort)
      ensures sockAnyPort == if port != 0 then old(sockAnyPort) else NextPort(old(sockAnyPort))
    {
      hide TxInv, RxInv, StreamInv, Consistent, FlagsAgree, OnlyOwn, FlagsOk;
      ghost var v0 := Vars();
      var _ := Close(sn);
      ghost var v1 := Vars();
      var own := port;
      if port == 0 {
        own := AnyPort();
      }
      Reopen(sn, protocol, own);
      sockIoMode := if flag & 0x01 != 0 then sockIoMode + {sn} else sockIoMode - {sn};
      OwnFlags(v1, Vars(), sn);
      OnlyOwnTwice(v0, v1, Vars(), sn);
    }

    /** The port of a socket opened without one. */
    method AnyPort() returns (port: u16)
      requires SOCK_ANY_PORT_NUM <= sockAnyPort < SOCK_ANY_PORT_END
      modifies this`sockAnyPort
      ensures port == old(sockAnyPort) && sockAnyPort == NextPort(port)
    {
      port := sockAnyPort;
      sockAnyPort := sockAnyPort + 1;
      if sockAnyPort == SOCK_ANY_PORT_END {
        sockAnyPort := SOCK_ANY_PORT_NUM;
      }
    }

    /** The part of `socket` after its close: mode, OPEN, and the variables cleared. */
    method Reopen(sn: nat, protocol: Mode, port: u16)
      requires sn < |chan| && SocketOk(sn) && chan[sn].r.sr == CLOSED && protocol != NoMode
      modifies this`sockIsSending, this`sockRemainedSize, this`sockPackInfo, this`got, Foot(sn)
      ensures SocketOk(sn) && Elsewhere(sn) == old(Elsewhere(sn))
      ensures chan[sn].r.mode == chan[sn].h.mode == protocol && chan[sn].r.sr == OpenStatus(protocol)
      ensures chan[sn].h.accepted == chan[sn].h.delivered == [] && chan[sn].out == []
      ensures chan[sn].port == port
      ensures sockIsSending == old(sockIsSending) - {sn}
      ensures sockRemainedSize == old(sockRemainedSize)[sn := 0]
      ensures sockPackInfo == old(sockPackInfo)[sn := PACK_COMPLETED]
      ensures got == old(got)[sn := []]
    {
      hide TxInv, RxInv, StreamInv, Consistent, FlagsAgree, InPacket;
      chan[sn].OpenAs(protocol, port);
      sockIsSending := sockIsSending - {sn};
      sockRemainedSize := sockRemainedSize[sn := 0];
      sockPackInfo := sockPackInfo[sn := PACK_COMPLETED];
      got := got[sn := []];
      OpenedIsConsistent(chan[sn].r, chan[sn].h);
      CompletedAgrees();
    }

    /** LISTEN or CONNECT, accepted in SOCK_INIT. */
    method StartConnection(sn: nat, active: bool)
      requires sn < |chan| && SocketOk(sn) && chan[sn].r.mode == TCP && chan[sn].r.sr == INIT
      modifies Foot(sn)
      ensures SocketOk(sn) && Elsewhere(sn) == old(Elsewhere(sn)) && chan[sn].r.mode == TCP
      ensures chan[sn].r.mode == old(chan[sn].r.mode) && Outward(sn) == old(Outward(sn))
      ensures Later(if active then SYNSENT else LISTEN, chan[sn].r.sr)
      ensures chan[sn].h.accepted == old(chan[sn].h.accepted) && chan[sn].h.delivered == old(chan[sn].h.delivered)
    {
      hide TxInv, RxInv, StreamInv, Consistent, FlagsAgree, ChipRun, Later;
      ghost var r0, h0 := chan[sn].r, chan[sn].h;
      chan[sn].CmdOpenConnection(active);
      StatusSet(r0, h0, if active then SYNSENT else LISTEN, chan[sn].r, chan[sn].h);
      FreshRemains(r0, h0, sn in sockIsSending, sockRemainedSize[sn], got[sn]);
      StatusKeepsConsistent(r0, h0, chan[sn].r, chan[sn].h, sn in sockIsSending, sn in sockIsSending,
                            sockRemainedSize[sn], got[sn]);
    }

    /** `seen` is the status read after LISTEN: any other than SOCK_LISTEN, a connection included, is closed. */
    method Listen(sn: nat) returns (code: int, ghost seen: Status)
      requires sn != |chan| && (sn < |chan| ==> SocketOk(sn))
      modifies this`sockIoMode, this`sockIsSending, this`sockRemainedSize, this`sockPackInfo, Foot(sn)
      ensures sn > |chan| ==> code == SOCKERR_SOCKNUM && Vars() == old(Vars())
      ensures sn < |chan| ==> SocketOk(sn) && OnlyOwn(old(Vars()), Vars(), sn) && Elsewhere(sn) == old(Elsewhere(sn))
      ensures sn < |chan| ==> chan[sn].r.mode == old(chan[sn].r.mode) && Outward(sn) == old(Outward(sn))
      ensures sn < |chan| ==>
        chan[sn].h.accepted == old(chan[sn].h.accepted) && chan[sn].h.delivered == old(chan[sn].h.delivered)
      ensures code in {SOCK_OK, SOCKERR_SOCKNUM, SOCKERR_SOCKMODE, SOCKERR_SOCKINIT, SOCKERR_SOCKCLOSED}
      ensures code == SOCKERR_SOCKNUM <==> sn > |chan|
      ensures code != SOCKERR_SOCKCLOSED ==> Vars() == old(Vars())
      ensures code == SOCKERR_SOCKCLOSED ==> sn !in sockIoMode && sn !in sockIsSending
      ensures sn < |chan| ==> (code == SOCKERR_SOCKMODE <==> old(chan[sn].r.mode) != TCP)
      ensures sn < |chan| && old(chan[sn].r.mode) == TCP ==> (code == SOCKERR_SOCKINIT <==> old(chan[sn].r.sr) != INIT)
      ensures sn < |chan| && old(chan[sn].r.mode) == TCP && old(chan[sn].r.sr) == INIT ==>
        && Later(LISTEN, seen)
        && (code == SOCK_OK <==> seen == LISTEN) && (code == SOCK_OK ==> chan[sn].r.sr == LISTEN)
        && (code == SOCKERR_SOCKCLOSED <==> seen != LISTEN) && (code == SOCKERR_SOCKCLOSED ==> chan[sn].r.sr == CLOSED)
    {
      hide TxInv, RxInv, StreamInv, Consistent, FlagsAgree, OnlyOwn, ChipRun;
      if sn > |chan| {
        return SOCKERR_SOCKNUM, CLOSED;
      }
      OnlyOwnSelf(Vars(), sn);
      if chan[sn].r.mode != TCP {
        return SOCKERR_SOCKMODE, CLOSED;
      }
      var tmp := SnSr(sn);
      ChipRunKeeps(old(chan[sn].r), old(chan[sn].h), chan[sn].r, chan[sn].h);
      if tmp != INIT {
        return SOCKERR_SOCKINIT, tmp;
      }
      code, seen := ListenNow(sn);
    }

    /** LISTEN, and the look at the status after it. */
    method ListenNow(sn: nat) returns (code: int, ghost seen: Status)
      requires sn < |chan| && SocketOk(sn) && chan[sn].r.mode == TCP && chan[sn].r.sr == INIT
      modifies this`sockIoMode, this`sockIsSending, this`sockRemainedSize, this`sockPackInfo, Foot(sn)
      ensures SocketOk(sn) && OnlyOwn(old(Vars()), Vars(), sn) && Elsewhere(sn) == old(Elsewhere(sn))
      ensures chan[sn].r.mode == old(chan[sn].r.mode) && Outward(sn) == old(Outward(sn))
      ensures chan[sn].h.accepted == old(chan[sn].h.accepted) && chan[sn].h.delivered == old(chan[sn].h.delivered)
      ensures Later(LISTEN, seen)
      ensures if seen == LISTEN then code == SOCK_OK && chan[sn].r.sr == LISTEN && Vars() == old(Vars())
              else code == SOCKERR_SOCKCLOSED && chan[sn].r.sr == CLOSED && sn !in sockIoMode && sn !in sockIsSending
    {
      hide TxInv, RxInv, StreamInv, Consistent, FlagsAgree, OnlyOwn, ChipRun, Later, Shut;
      OnlyOwnSelf(Vars(), sn);
      StartConnection(sn, false);
      ghost var r1, h1 := chan[sn].r, chan[sn].h;
      var tmp := SnSr(sn);
      ghost var r2, h2 := chan[sn].r, chan[sn].h;
      ChipRunKeeps(r1, h1, r2, h2);
      LaterTwice(LISTEN, r1.sr, tmp);
      if tmp != LISTEN {
        var _ := Close(sn);
        ShutFacts(r2, h2, chan[sn].r, chan[sn].h);
        return SOCKERR_SOCKCLOSED, tmp;
      }
      return SOCK_OK, tmp;
    }

    method Connect(sn: nat, addr: u32, port: u16, patience: nat) returns (ret: Outcome)
      requires sn != |chan| && (sn < |chan| ==> SocketOk(sn))
      modifies Foot(sn)
      ensures sn > |chan| <==> ret == Done(SOCKERR_SOCKNUM)
      ensures sn < |chan| ==> SocketOk(sn) && Elsewhere(sn) == old(Elsewhere(sn))
      ensures sn < |chan| ==> chan[sn].r.mode == old(chan[sn].r.mode) && chan[sn].out == old(chan[sn].out)
      ensures sn < |chan| ==>
        chan[sn].h.accepted == old(chan[sn].h.accepted) && chan[sn].h.delivered == old(chan[sn].h.delivered)
      ensures ret in {Done(SOCK_OK), Done(SOCK_BUSY), Done(SOCKERR_TIMEOUT), Done(SOCKERR_SOCKCLOSED), Blocked,
                      Done(SOCKERR_SOCKNUM), Done(SOCKERR_SOCKMODE), Done(SOCKERR_SOCKINIT), Done(SOCKERR_IPINVALID),
                      Done(SOCKERR_PORTZERO)}
      ensures ret == Done(SOCK_OK) ==> sn < |chan| && chan[sn].r.sr == ESTABLISHED
      ensures sn < |chan| && old(chan[sn].r.mode) == TCP ==>
        (ret == Done(SOCK_BUSY) <==>
         old(chan[sn].r.sr) == INIT && addr !in {0, 0xFFFF_FFFF} && port != 0 && sn in sockIoMode)
      // with valid arguments the command has been given, and the chip left SOCK_INIT
      ensures sn < |chan| && old(chan[sn].r.mode) == TCP && old(chan[sn].r.sr) == INIT
              && addr !in {0, 0xFFFF_FFFF} && port != 0 ==>
        Later(SYNSENT, chan[sn].r.sr) && chan[sn].dest == Endpoint(addr, port)
      ensures sn < |chan| ==> (ret == Done(SOCKERR_SOCKMODE) <==> old(chan[sn].r.mode) != TCP)
      ensures sn < |chan| && old(chan[sn].r.mode) == TCP ==>
        && (ret == Done(SOCKERR_SOCKINIT) <==> old(chan[sn].r.sr) != INIT)
        && (ret == Done(SOCKERR_IPINVALID) <==> old(chan[sn].r.sr) == INIT && addr in {0, 0xFFFF_FFFF})
        && (ret == Done(SOCKERR_PORTZERO) <==> old(chan[sn].r.sr) == INIT && addr !in {0, 0xFFFF_FFFF} && port == 0)
      ensures sn < |chan| && ret == Done(SOCKERR_TIMEOUT) ==> !chan[sn].r.timeout
      ensures sn < |chan| && ret.Blocked? ==> chan[sn].r.sr != CLOSED && sn !in sockIoMode
      ensures ret == Done(SOCKERR_SOCKCLOSED) ==> sn < |chan| && chan[sn].r.sr == CLOSED
      ensures sn < |chan| ==> TimedOut(old(chan[sn].irs), chan[sn].irs, ret == Done(SOCKERR_TIMEOUT))
    {
      hide TxInv, RxInv, StreamInv, Consistent, FlagsAgree, ChipRun;
      if sn > |chan| {
        return Done(SOCKERR_SOCKNUM);
      }
      if chan[sn].r.mode != TCP {
        return Done(SOCKERR_SOCKMODE);
      }
      var tmp := SnSr(sn);
      ChipRunKeeps(old(chan[sn].r), old(chan[sn].h), chan[sn].r, chan[sn].h);
      if tmp != INIT {
        return Done(SOCKERR_SOCKINIT);
      }
      if addr == 0xFFFF_FFFF || addr == 0 {
        return Done(SOCKERR_IPINVALID);
      }
      if port == 0 {
        return Done(SOCKERR_PORTZERO);
      }
      ret := ConnectNow(sn, addr, port, patience);
    }

    /** `connect` once its arguments and the status are accepted. */
    method ConnectNow(sn: nat, addr: u32, port: u16, patience: nat) returns (ret: Outcome)
      requires sn < |chan| && SocketOk(sn) && chan[sn].r.mode == TCP && chan[sn].r.sr == INIT
      modifies Foot(sn)
      ensures SocketOk(sn) && Elsewhere(sn) == old(Elsewhere(sn))
      ensures chan[sn].r.mode == TCP && Target(sn) == (Endpoint(addr, port), old(chan[sn].out))
      ensures chan[sn].h.accepted == old(chan[sn].h.accepted) && chan[sn].h.delivered == old(chan[sn].h.delivered)
      ensures ret in {Done(SOCK_OK), Done(SOCK_BUSY), Done(SOCKERR_TIMEOUT), Done(SOCKERR_SOCKCLOSED), Blocked}
      ensures ret == Done(SOCK_BUSY) <==> sn in sockIoMode
      ensures Later(SYNSENT, chan[sn].r.sr) && (ret == Done(SOCK_OK) ==> chan[sn].r.sr == ESTABLISHED)
      ensures ret == Done(SOCKERR_TIMEOUT) ==> !chan[sn].r.timeout
      ensures ret == Done(SOCKERR_SOCKCLOSED) ==> chan[sn].r.sr == CLOSED
      ensures ret == Blocked ==> chan[sn].r.sr != CLOSED
      ensures TimedOut(old(chan[sn].irs), chan[sn].irs, ret == Done(SOCKERR_TIMEOUT))
    {
      hide TxInv, RxInv, StreamInv, Consistent, FlagsAgree, ChipRun;
      ghost var r1, h1 := chan[sn].r, chan[sn].h;
      SetDest(sn, addr, port);
      ChipRunKeeps(r1, h1, chan[sn].r, chan[sn].h);
      StartConnection(sn, true);
      if sn in sockIoMode {
        return Done(SOCK_BUSY);
      }
      ghost var sr1 := chan[sn].r.sr;
      ret := AwaitConnection(sn, patience);
      LaterTwice(SYNSENT, sr1, chan[sn].r.sr);
    }

    /** One turn of the loop below: the status, the TIMEOUT bit, the status again. */
    method LookForConnection(sn: nat) returns (ret: Outcome)
      requires sn < |chan| && SocketOk(sn) && chan[sn].r.mode == TCP
      modifies Foot(sn)
      ensures SocketOk(sn) && Elsewhere(sn) == old(Elsewhere(sn))
      ensures chan[sn].r.mode == old(chan[sn].r.mode) && Target(sn) == old(Target(sn))
      ensures chan[sn].h.accepted == old(chan[sn].h.accepted) && chan[sn].h.delivered == old(chan[sn].h.delivered)
      ensures ret in {Done(SOCK_OK), Done(SOCKERR_TIMEOUT), Done(SOCKERR_SOCKCLOSED), Blocked}
      ensures Later(old(chan[sn].r.sr), chan[sn].r.sr) && (ret == Done(SOCK_OK) ==> chan[sn].r.sr == ESTABLISHED)
      ensures ret == Done(SOCKERR_TIMEOUT) ==> !chan[sn].r.timeout
      ensures ret == Done(SOCKERR_SOCKCLOSED) ==> chan[sn].r.sr == CLOSED
      ensures ret == Blocked ==> chan[sn].r.sr != CLOSED && !(old(chan[sn].r.sr) == ESTABLISHED == chan[sn].r.sr)
      ensures TimedOut(old(chan[sn].irs), chan[sn].irs, ret == Done(SOCKERR_TIMEOUT))
    {
      hide TxInv, RxInv, StreamInv, Consistent, FlagsAgree, ChipRun, Later;
      ghost var sr0, r0, h0 := chan[sn].r.sr, chan[sn].r, chan[sn].h;
      var tmp := SnSr(sn);
      ghost var r1, h1 := chan[sn].r, chan[sn].h;
      ChipRunKeeps(r0, h0, r1, h1);
      if tmp == ESTABLISHED {
        return Done(SOCK_OK);
      }
      var sendok, timeout := SnIr(sn);
      ghost var r2, h2 := chan[sn].r, chan[sn].h;
      ChipRunKeeps(r1, h1, r2, h2);
      LaterTwice(sr0, r1.sr, r2.sr);
      if timeout {
        ClearTimeout(sn);
        LaterTwice(sr0, r2.sr, chan[sn].r.sr);
        return Done(SOCKERR_TIMEOUT);
      }
      ghost var sr1 := tmp;
      tmp := SnSr(sn);
      ChipRunKeeps(r2, h2, chan[sn].r, chan[sn].h);
      LaterTwice(r1.sr, r2.sr, tmp);
      LaterTwice(sr0, r2.sr, tmp);
      UpThroughout(sr0, sr1, tmp);
      ret := if tmp == CLOSED then Done(SOCKERR_SOCKCLOSED) else Blocked;
    }

    /** The waiting loop of `connect`: a connection that the peer has ended before the loop looks is not reported. */
    method AwaitConnection(sn: nat, patience: nat) returns (ret: Outcome)
      requires sn < |chan| && SocketOk(sn) && chan[sn].r.mode == TCP
      modifies Foot(sn)
      ensures SocketOk(sn) && Elsewhere(sn) == old(Elsewhere(sn))
      ensures chan[sn].r.mode == old(chan[sn].r.mode) && Target(sn) == old(Target(sn))
      ensures chan[sn].h.accepted == old(chan[sn].h.accepted) && chan[sn].h.delivered == old(chan[sn].h.delivered)
      ensures ret in {Done(SOCK_OK), Done(SOCKERR_TIMEOUT), Done(SOCKERR_SOCKCLOSED), Blocked}
      ensures Later(old(chan[sn].r.sr), chan[sn].r.sr) && (ret == Done(SOCK_OK) ==> chan[sn].r.sr == ESTABLISHED)
      ensures Ended(old(chan[sn].r.sr)) ==> ret != Done(SOCK_OK)
      ensures ret == Done(SOCKERR_TIMEOUT) ==> !chan[sn].r.timeout
      ensures ret == Done(SOCKERR_SOCKCLOSED) ==> chan[sn].r.sr == CLOSED
      ensures ret == Blocked ==> chan[sn].r.sr != CLOSED && !(old(chan[sn].r.sr) == ESTABLISHED == chan[sn].r.sr)
      ensures TimedOut(old(chan[sn].irs), chan[sn].irs, ret == Done(SOCKERR_TIMEOUT))
    {
      hide TxInv, RxInv, StreamInv, Consistent, FlagsAgree, ChipRun, Later;
      LaterSelf(chan[sn].r.sr);
      var polls := patience;
      while true
        invariant SocketOk(sn) && Elsewhere(sn) == old(Elsewhere(sn)) && chan[sn].r.mode == TCP
        invariant chan[sn].r.mode == old(chan[sn].r.mode) && Target(sn) == old(Target(sn))
        invariant chan[sn].h.accepted == old(chan[sn].h.accepted) && chan[sn].h.delivered == old(chan[sn].h.delivered)
        invariant Later(old(chan[sn].r.sr), chan[sn].r.sr) && TimedOut(old(chan[sn].irs), chan[sn].irs, false)
        decreases polls
      {
        ghost var sr1 := chan[sn].r.sr;
        ret := LookForConnection(sn);
        LaterTwice(old(chan[sn].r.sr), sr1, chan[sn].r.sr);
        UpThroughout(old(chan[sn].r.sr), sr1, chan[sn].r.sr);
        if Ended(old(chan[sn].r.sr)) {
          StillEnded(old(chan[sn].r.sr), chan[sn].r.sr);
        }
        if ret != Blocked || polls == 0 {
          return;
        }
        polls := polls - 1;
      }
    }

    method ClearTimeout(sn: nat)
      requires sn < |chan| && SocketOk(sn)
      modifies Foot(sn)
      ensures SocketOk(sn) && Elsewhere(sn) == old(Elsewhere(sn))
      ensures chan[sn].r.mode == old(chan[sn].r.mode) && Outward(sn) == old(Outward(sn))
      ensures !chan[sn].r.timeout && Later(old(chan[sn].r.sr), chan[sn].r.sr)
      ensures chan[sn].h.accepted == old(chan[sn].h.accepted) && chan[sn].h.delivered == old(chan[sn].h.delivered)
    {
      hide TxInv, RxInv, StreamInv, Consistent, FlagsAgree, ChipRun, Later;
      chan[sn].SetSnIr(false, true);
      IrKeepsConsistent(old(chan[sn].r), old(chan[sn].h), false, true, chan[sn].r, chan[sn].h,
                        sn in sockIsSending, sockRemainedSize[sn], got[sn]);
    }

    /** DISCON ends transmission, so the sending bit may be released although its SENDOK was never consumed. */
    method Disconnect(sn: nat, patience: nat) returns (ret: Outcome)
      requires sn != |chan| && (sn < |chan| ==> SocketOk(sn))
      modifies this`sockIoMode, this`sockIsSending, this`sockRemainedSize, this`sockPackInfo, Foot(sn)
      ensures sn > |chan| <==> ret == Done(SOCKERR_SOCKNUM)
      ensures sn > |chan| ==> Vars() == old(Vars())
      ensures sn < |chan| ==> SocketOk(sn) && OnlyOwn(old(Vars()), Vars(), sn) && Elsewhere(sn) == old(Elsewhere(sn))
      ensures sn < |chan| ==> chan[sn].r.mode == old(chan[sn].r.mode) && Target(sn) == old(Target(sn))
      ensures sn < |chan| ==>
        chan[sn].h.accepted == old(chan[sn].h.accepted) && chan[sn].h.delivered == old(chan[sn].h.delivered)
      ensures sn < |chan| && old(chan[sn].r.mode) == TCP ==> sn !in sockIsSending && Refused(chan[sn].r.sr)
      ensures ret in {Done(SOCK_OK), Done(SOCKERR_TIMEOUT)} ==> sn < |chan| && chan[sn].r.sr == CLOSED
      ensures sn < |chan| ==> (ret == Done(SOCKERR_SOCKMODE) <==> old(chan[sn].r.mode) != TCP)
      ensures ret != Done(SOCKERR_TIMEOUT) ==> sockIoMode == old(sockIoMode)
      ensures ret == Done(SOCKERR_TIMEOUT) ==> sn !in sockIoMode
      ensures sn < |chan| && ret == Done(SOCKERR_SOCKMODE) ==> Vars() == old(Vars())
      ensures sn < |chan| ==> (ret == Done(SOCK_BUSY) <==> old(chan[sn].r.mode) == TCP && sn in old(sockIoMode))
      ensures ret in {Done(SOCK_OK), Done(SOCK_BUSY), Done(SOCKERR_TIMEOUT), Done(SOCKERR_SOCKMODE),
                      Done(SOCKERR_SOCKNUM), Blocked}
      ensures sn < |chan| ==> TimedOut(old(chan[sn].irs), chan[sn].irs, ret == Done(SOCKERR_TIMEOUT))
    {
      hide TxInv, RxInv, StreamInv, Consistent, FlagsAgree, OnlyOwn, ChipRun, Later;
      if sn > |chan| {
        return Done(SOCKERR_SOCKNUM);
      }
      OnlyOwnSelf(Vars(), sn);
      if chan[sn].r.mode != TCP {
        return Done(SOCKERR_SOCKMODE);
      }
      StartDisconnect(sn);
      ghost var v1 := Vars();
      if sn in sockIoMode {
        return Done(SOCK_BUSY);
      }
      ret := AwaitClosed(sn, patience);
      OnlyOwnTwice(old(Vars()), v1, Vars(), sn);
    }

    method StartDisconnect(sn: nat)
      requires sn < |chan| && SocketOk(sn) && chan[sn].r.mode == TCP
      modifies this`sockIsSending, Foot(sn)
      ensures SocketOk(sn) && OnlyOwn(old(Vars()), Vars(), sn) && Elsewhere(sn) == old(Elsewhere(sn))
      ensures chan[sn].r.mode == old(chan[sn].r.mode) && Outward(sn) == old(Outward(sn))
      ensures chan[sn].h.accepted == old(chan[sn].h.accepted) && chan[sn].h.delivered == old(chan[sn].h.delivered)
      ensures sockIsSending == old(sockIsSending) - {sn}
      ensures chan[sn].r.mode == TCP && sn !in sockIsSending && !Fresh(chan[sn].r.sr) && Refused(chan[sn].r.sr)
    {
      hide TxInv, RxInv, StreamInv, Consistent, FlagsAgree, ChipRun, Later;
      ghost var r0, h0 := chan[sn].r, chan[sn].h;
      chan[sn].CmdDiscon();
      TcpRemains(r0, h0, sn in sockIsSending, sockRemainedSize[sn], got[sn]);
      StatusKeepsConsistent(r0, h0, chan[sn].r, chan[sn].h, sn in sockIsSending, false, sockRemainedSize[sn], got[sn]);
      sockIsSending := sockIsSending - {sn};
    }

    method AwaitClosed(sn: nat, patience: nat) returns (ret: Outcome)
      requires sn < |chan| && SocketOk(sn) && chan[sn].r.mode == TCP && sn !in sockIsSending
      requires !Fresh(chan[sn].r.sr) && Refused(chan[sn].r.sr)
      modifies this`sockIoMode, this`sockIsSending, this`sockRemainedSize, this`sockPackInfo, Foot(sn)
      ensures SocketOk(sn) && OnlyOwn(old(Vars()), Vars(), sn) && Elsewhere(sn) == old(Elsewhere(sn))
      ensures chan[sn].r.mode == old(chan[sn].r.mode) && Target(sn) == old(Target(sn))
      ensures chan[sn].h.accepted == old(chan[sn].h.accepted) && chan[sn].h.delivered == old(chan[sn].h.delivered)
      ensures sn !in sockIsSending && Refused(chan[sn].r.sr)
      ensures ret != Done(SOCKERR_TIMEOUT) ==> Vars() == old(Vars())
      ensures ret == Done(SOCKERR_TIMEOUT) ==> sn !in sockIoMode
      ensures ret == Blocked ==> old(chan[sn].r.sr) != CLOSED
      ensures ret in {Done(SOCK_OK), Done(SOCKERR_TIMEOUT), Blocked}
      ensures ret != Blocked ==> chan[sn].r.sr == CLOSED
      ensures TimedOut(old(chan[sn].irs), chan[sn].irs, ret == Done(SOCKERR_TIMEOUT))
    {
      hide TxInv, RxInv, StreamInv, Consistent, FlagsAgree, OnlyOwn, ChipRun;
      OnlyOwnSelf(Vars(), sn);
      var polls := patience;
      while true
        invariant SocketOk(sn) && Vars() == old(Vars()) && Elsewhere(sn) == old(Elsewhere(sn)) && chan[sn].r.mode == TCP
        invariant chan[sn].r.mode == old(chan[sn].r.mode) && Target(sn) == old(Target(sn))
        invariant chan[sn].h.accepted == old(chan[sn].h.accepted) && chan[sn].h.delivered == old(chan[sn].h.delivered)
        invariant !Fresh(chan[sn].r.sr) && Refused(chan[sn].r.sr)
        invariant TimedOut(old(chan[sn].irs), chan[sn].irs, false)
        invariant old(chan[sn].r.sr) == CLOSED ==> chan[sn].r.sr == CLOSED
        decreases polls
      {
        ghost var r0, h0 := chan[sn].r, chan[sn].h;
        var tmp := SnSr(sn);
        ghost var r1, h1 := chan[sn].r, chan[sn].h;
        ChipRunKeeps(r0, h0, r1, h1);
        if tmp == CLOSED {
          return Done(SOCK_OK);
        }
        var sendok, timeout := SnIr(sn);
        ChipRunKeeps(r1, h1, chan[sn].r, chan[sn].h);
        if timeout {
          var _ := Close(sn);
          return Done(SOCKERR_TIMEOUT);
        }
        if polls == 0 {
          return Blocked;
        }
        polls := polls - 1;
      }
    }

    /** ctlsocket(CS_SET_IOMODE): blocking calls for 0, non-blocking for 1, and no other argument. */
    method SetIoMode(sn: nat, arg: byte) returns (code: int)
      requires sn != |chan| && (sn < |chan| ==> SocketOk(sn))
      modifies this`sockIoMode
      ensures code == if sn > |chan| then SOCKERR_SOCKNUM else if arg > SOCK_IO_NONBLOCK then SOCKERR_ARG else SOCK_OK
      ensures code != SOCK_OK ==> Vars() == old(Vars())
      ensures sn < |chan| ==> SocketOk(sn) && OnlyOwn(old(Vars()), Vars(), sn)
      ensures code == SOCK_OK ==> (sn in sockIoMode <==> arg == SOCK_IO_NONBLOCK)
    {
      hide Consistent, FlagsAgree, TxInv, RxInv, StreamInv;
      if sn > |chan| {
        return SOCKERR_SOCKNUM;
      }
      if arg == SOCK_IO_NONBLOCK {
        sockIoMode := sockIoMode + {sn};
      } else if arg == SOCK_IO_BLOCK {
        sockIoMode := sockIoMode - {sn};
      } else {
        return SOCKERR_ARG;
      }
      return SOCK_OK;
    }

    /** All sockets closed, as at power-up. */
    constructor (chan: seq<Channel>, txmem: array<byte>, rxmem: array<byte>, sipr: u32, subr: u32)
      requires forall sn :: 0 <= sn < |chan| ==>
                 (chan[sn].Valid() && AtRest(chan[sn].r) && chan[sn].r.sr == CLOSED && chan[sn].h.unacked == 0)
      ensures this.chan == chan && this.txmem == txmem && this.rxmem == rxmem && this.sipr == sipr && this.subr == subr
      ensures forall sn :: 0 <= sn < |chan| ==> SocketOk(sn)
      ensures |got| == |chan| && forall sn :: 0 <= sn < |chan| ==> got[sn] == []
    {
      this.chan, this.txmem, this.rxmem, this.sipr, this.subr := chan, txmem, rxmem, sipr, subr;
      sockAnyPort := SOCK_ANY_PORT_NUM;
      sockIoMode, sockIsSending := {}, {};
      sockRemainedSize := seq(|chan|, _ => 0);
      sockPackInfo := seq(|chan|, _ => PACK_COMPLETED);
      got := seq(|chan|, _ => []);
      new;
      CompletedAgrees();
    }

    // ----- all sockets together -----

    /** The sockets share the chip's TX and RX memory, each with windows of its own. */
    ghost predicate Apart(i: nat, j: nat)
      requires i < |chan| && j < |chan|
    {
      && chan[i] != chan[j]
      && chan[i].Geometry() && chan[j].Geometry()
      && chan[i].txmem == chan[j].txmem == txmem && chan[i].rxmem == chan[j].rxmem == rxmem
      && (chan[i].txBase + chan[i].txSize <= chan[j].txBase || chan[j].txBase + chan[j].txSize <= chan[i].txBase)
      && (chan[i].rxBase + chan[i].rxSize <= chan[j].rxBase || chan[j].rxBase + chan[j].rxSize <= chan[i].rxBase)
    }
  }
}
