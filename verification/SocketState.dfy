/** The host's per-socket variables of socket.c as values: the bit masks, the packet flags and what they mean. */
module SocketState {
  import opened Arith
  import opened Wire
  import opened Ring
  import opened ChannelModel

  /** A bit mask with one bit a socket, as the set of the sockets whose bit is one. */
  type Mask = set<nat>

  /** If memory outside one window is as it was, so is every window disjoint from it. */
  lemma WindowKept(m: seq<byte>, m': seq<byte>, base: nat, size: nat, base': nat, size': nat)
    requires |m| == |m'| && base + size <= |m| && base' + size' <= |m|
    requires base + size <= base' || base' + size' <= base
    requires m[..base] + m[base + size..] == m'[..base] + m'[base + size..]
    ensures m[base'..base' + size'] == m'[base'..base' + size']
  {
    var e, e' := m[..base] + m[base + size..], m'[..base] + m'[base + size..];
    forall k | base' <= k < base' + size'
      ensures m[k] == m'[k]
    {
      var i := if k < base then k else k - size;
      assert m[k] == e[i] && m'[k] == e'[i];
    }
  }

  /** The two masks agree on every bit but sn's. */
  predicate SameBut(m: Mask, m': Mask, sn: nat) { m - {sn} == m' - {sn} }

  /** The static variables of socket.c, and for each socket the payloads `recvfrom` has returned so far. */
  datatype Statics = Statics(
    ioMode: Mask, isSending: Mask, remained: seq<u16>, packInfo: seq<bv8>, got: seq<seq<seq<byte>>>)

  /** Nothing but socket sn's entries differs. */
  ghost predicate OnlyOwn(a: Statics, b: Statics, sn: nat)
  {
    && SameBut(a.ioMode, b.ioMode, sn) && SameBut(a.isSending, b.isSending, sn)
    && |a.remained| == |b.remained| && (forall j :: 0 <= j < |a.remained| && j != sn ==> a.remained[j] == b.remained[j])
    && |a.packInfo| == |b.packInfo| && (forall j :: 0 <= j < |a.packInfo| && j != sn ==> a.packInfo[j] == b.packInfo[j])
    && |a.got| == |b.got| && (forall j :: 0 <= j < |a.got| && j != sn ==> a.got[j] == b.got[j])
  }

  lemma OnlyOwnSelf(a: Statics, sn: nat)
    ensures OnlyOwn(a, a, sn)
  {
  }

  lemma OnlyOwnTwice(a: Statics, b: Statics, c: Statics, sn: nat)
    requires OnlyOwn(a, b, sn) && OnlyOwn(b, c, sn)
    ensures OnlyOwn(a, c, sn)
  {
  }

  /** Another socket's entries are what they were. */
  lemma OwnRest(a: Statics, b: Statics, sn: nat, j: nat)
    requires OnlyOwn(a, b, sn) && j != sn && j < |a.remained| == |a.packInfo| == |a.got|
    ensures (j in a.ioMode <==> j in b.ioMode) && (j in a.isSending <==> j in b.isSending)
    ensures |b.remained| == |b.packInfo| == |b.got| == |a.got|
    ensures a.remained[j] == b.remained[j] && a.packInfo[j] == b.packInfo[j] && a.got[j] == b.got[j]
  {
    assert j in a.ioMode - {sn} <==> j in b.ioMode - {sn};
    assert j in a.isSending - {sn} <==> j in b.isSending - {sn};
  }

  /** Setting one socket's variables is a change of its own. */
  lemma OwnFlags(a: Statics, b: Statics, sn: nat)
    requires sn < |a.remained| == |a.packInfo| == |a.got|
    requires SameBut(a.ioMode, b.ioMode, sn) && SameBut(a.isSending, b.isSending, sn)
    requires |b.remained| == |b.packInfo| == |b.got| == |a.got|
    requires b.remained == a.remained[sn := b.remained[sn]] && b.packInfo == a.packInfo[sn := b.packInfo[sn]]
    requires b.got == a.got[sn := b.got[sn]]
    ensures OnlyOwn(a, b, sn)
  {
  }

  // ----- packet flags -----

  const PACK_FIRST: bv8 := 0x80
  const PACK_REMAINED: bv8 := 0x01
  const PACK_COMPLETED: bv8 := 0x00

  /** The packet flags agree with the number of payload bytes still in RX memory. */
  predicate FlagsAgree(flags: bv8, remained: nat)
  {
    (flags & PACK_REMAINED != 0 <==> remained > 0) && (flags == PACK_COMPLETED <==> remained == 0)
  }

  lemma CompletedAgrees()
    ensures FlagsAgree(PACK_COMPLETED, 0)
  {
  }

  lemma RemainedAgrees(flags: bv8, remained: nat)
    requires remained > 0
    ensures FlagsAgree(flags | PACK_REMAINED, remained)
  {
  }

  // ----- the result codes -----

  const SOCK_IO_BLOCK: byte := 0
  const SOCK_IO_NONBLOCK: byte := 1

  const SOCK_OK := 1
  const SOCK_BUSY := 0
  const SOCKERR_SOCKNUM := -1
  const SOCKERR_SOCKINIT := -3
  const SOCKERR_SOCKCLOSED := -4
  const SOCKERR_SOCKMODE := -5
  const SOCKERR_SOCKFLAG := -6
  const SOCKERR_SOCKSTATUS := -7
  const SOCKERR_ARG := -10
  const SOCKERR_PORTZERO := -11
  const SOCKERR_IPINVALID := -12
  const SOCKERR_TIMEOUT := -13
  const SOCKERR_DATALEN := -14
  const SOCKFATAL_PACKLEN := -1001

  /** CHECK_SOCKNUM */
  predicate PassesGuard(sn: nat, count: nat) { !(sn > count) }

  /** It lets exactly one number through that names no socket: their count. */
  lemma GuardIsLoose(sn: nat, count: nat)
    ensures PassesGuard(sn, count) && !(sn < count) <==> sn == count
  {
  }

  /** A call returns a code, or the observation ends while it still polls the chip. */
  datatype Outcome = Done(code: int) | Blocked

  // ----- what the reads of Sn_IR decide -----

  function LastIr(irs: seq<Ir>): Ir { if irs == [] then Ir(false, false) else irs[|irs| - 1] }

  /** Sn_IR was read any number of times since, and was clear each time. */
  ghost predicate Unanswered(before: seq<Ir>, after: seq<Ir>)
  {
    before <= after && forall i :: |before| <= i < |after| ==> after[i] == Ir(false, false)
  }

  /** It was read at least once since, and clear each time but perhaps the last. */
  ghost predicate Waited(before: seq<Ir>, after: seq<Ir>)
  {
    before < after && forall i :: |before| <= i < |after| - 1 ==> after[i] == Ir(false, false)
  }

  /** What the last read says of the SEND of n bytes before it. */
  function Answer(irs: seq<Ir>, n: nat): Outcome
  {
    if LastIr(irs).sendok then Done(n) else if LastIr(irs).timeout then Done(SOCKERR_TIMEOUT) else Blocked
  }

  lemma NotRead(irs: seq<Ir>)
    ensures Unanswered(irs, irs)
  {
  }

  lemma AnswerMeans(irs: seq<Ir>, n: nat)
    requires n > 0
    ensures Answer(irs, n) == Done(n) <==> LastIr(irs).sendok
    ensures Answer(irs, n) == Done(SOCKERR_TIMEOUT) <==> LastIr(irs) == Ir(false, true)
    ensures Answer(irs, n) in {Done(n), Done(SOCKERR_TIMEOUT), Blocked}
  {
  }

  /** Of the two bits only the one that decided the last read is cleared, SENDOK first. */
  predicate Cleared(irs: seq<Ir>, r: Regs)
  {
    && (LastIr(irs).sendok ==> !r.sendok && (LastIr(irs).timeout ==> r.timeout))
    && (LastIr(irs) == Ir(false, true) ==> !r.timeout)
  }

  /** A timeout is reported exactly if the last read had TIMEOUT; no read before it had. */
  ghost predicate TimedOut(before: seq<Ir>, after: seq<Ir>, reported: bool)
  {
    && before <= after && (reported ==> before < after && LastIr(after).timeout)
    && forall i :: |before| <= i < |after| - (if reported then 1 else 0) ==> !after[i].timeout
  }

  // ----- how recv gives up -----

  /** The status recv read last, and how many bytes had arrived when it began to read the size and when it had it. */
  datatype Glimpse = Glimpse(status: Status, before: nat, now: nat)

  /**
   `recv`, called with `arrived0` received so far, has closed the socket because the connection was gone. What is
   received and not delivered then is dropped. Where the peer had only finished sending, everything accepted had
   been taken and the size had been read as 0, with fewer than 256 bytes waiting: something is dropped exactly
   when bytes arrived between the reads of the size and of the status. In any other status all that is waiting
   is dropped, also what the size had just counted.
   */
  ghost predicate GaveUp(sr0: Status, arrived0: seq<byte>, seen: Glimpse, r: Regs, h: Hist)
  {
    && r.sr == CLOSED && Later(sr0, seen.status) && seen.status != ESTABLISHED
    && arrived0 <= h.arrived && |arrived0| <= seen.before <= seen.now <= |h.arrived|
    && (Ended(seen.status) ==> seen.now == |h.arrived|) && (Ended(sr0) ==> h.arrived == arrived0)
    && (seen.status == CLOSE_WAIT ==>
         && |h.taken| == |h.accepted| && seen.before < |h.delivered| + 256
         && (|h.arrived| > |h.delivered| <==> seen.now > seen.before))
  }

  lemma LostConnection(sr0: Status, arrived0: seq<byte>, seen: Glimpse, r: Regs, h: Hist)
    requires r.sr == CLOSED && Later(sr0, seen.status) && !Sendable(seen.status)
    requires arrived0 <= h.arrived && |arrived0| <= seen.before <= seen.now <= |h.arrived|
    requires (Ended(seen.status) ==> seen.now == |h.arrived|) && (Ended(sr0) ==> h.arrived == arrived0)
    ensures GaveUp(sr0, arrived0, seen, r, h)
  {
  }

  lemma PeerClosed(sr0: Status, arrived0: seq<byte>, seen: Glimpse, r: Regs, h: Hist)
    requires r.sr == CLOSED && Later(sr0, seen.status) && seen.status == CLOSE_WAIT
    requires arrived0 <= h.arrived && |arrived0| <= seen.before <= seen.now == |h.arrived|
    requires Ended(sr0) ==> h.arrived == arrived0
    requires |h.taken| == |h.accepted| && seen.before < |h.delivered| + 256
    requires |h.arrived| > |h.delivered| <==> seen.now > seen.before
    ensures GaveUp(sr0, arrived0, seen, r, h)
  {
  }

  /** What a status, its successor and a later one have in common. */
  lemma StaysAsItIs(a: Status, b: Status, c: Status)
    requires Later(a, b) && Later(b, c)
    ensures Ended(a) ==> Ended(b) && Ended(c)
    ensures Refused(a) ==> !Sendable(c)
  {
  }

  /** What of it a caller can tell from the state before the call. */
  lemma WhatIsDropped(sr0: Status, h0: Hist, seen: Glimpse, r: Regs, h: Hist)
    requires GaveUp(sr0, h0.arrived, seen, r, h) && h.delivered == h0.delivered
    ensures |h.arrived| >= |h0.arrived|
    ensures Refused(sr0) ==> seen.status != CLOSE_WAIT
    ensures |h0.arrived| - |h0.delivered| >= 256 ==> seen.status != CLOSE_WAIT
    ensures Ended(sr0) ==>
      (|h.arrived| > |h.delivered| <==> |h0.arrived| > |h0.delivered| && seen.status != CLOSE_WAIT)
  {
  }

  /**
   Bytes the size has just counted can be dropped: in any state in which some wait - a reset, a connection this
   side has ended - the status read may be one that `recv` refuses.
   */
  lemma CountedCanBeLost(r: Regs, h: Hist, region: seq<byte>, s: Status)
    requires RxInv(r, h, region) && r.mode == TCP && RxPending(r) > 0 && Later(r.sr, s) && !Sendable(s)
    ensures
      var n := |h.arrived|;
      && ChipRun(r, h, r.(sr := s), h) && Shut(r.(sr := s), h, r.(sr := CLOSED), h)
      && GaveUp(r.sr, h.arrived, Glimpse(s, n, n), r.(sr := CLOSED), h)
      && |h.arrived| == |h.delivered| + RxPending(r)
  {
    RxCounts(r, h, region);
  }

  /**
   Bytes can be dropped exactly when some are waiting or some can still arrive: this direction; the other is in
   `WhatIsDropped`. SOCK_INIT, which no byte follows without a command, is left aside.
   */
  lemma RecvCanDrop(r: Regs, h: Hist, region: seq<byte>, data: seq<byte>)
      returns (seen: Glimpse, r': Regs, h': Hist, region': seq<byte>)
    requires RxInv(r, h, region) && RingSize(|region|) && r.mode == TCP && StreamInv(r, h)
    requires 0 < |data| <= |region|
    requires RxPending(r) > 0 || r.sr in {LISTEN, SYNSENT, SYNRECV, ESTABLISHED, FIN_WAIT}
    requires !(r.sr in {UDP_OPEN, IPRAW_OPEN, MACRAW_OPEN})
    ensures ChipRun(r, h, r', h') && RxInv(r', h', region')
    ensures GaveUp(r.sr, h.arrived, seen, r'.(sr := CLOSED), h') && h'.delivered == h.delivered
    ensures |h'.arrived| > |h'.delivered|
  {
    hide RingRead, Stream, PacketOk, RingWrite, Dist;
    RxCounts(r, h, region);
    if RxPending(r) > 0 {
      r', h', region' := r.(sr := CLOSED), h, region;
    } else {
      ArriveKeeps(r, h, region, data);
      r', h' := r.(sr := CLOSED, rxWr := Advance(r.rxWr, |data|)), h.(arrived := h.arrived + data);
      region' := RingWrite(region, r.rxWr, data);
    }
    seen := Glimpse(CLOSED, |h'.arrived|, |h'.arrived|);
  }

  /** A socket that is refused stays so. */
  lemma StillRefused(a: Status, b: Status)
    requires Later(a, b) && Refused(a)
    ensures Refused(b) && !Sendable(b)
  {
  }

  /** A connection that is up at the end was up all the time if it was at the beginning. */
  lemma UpThroughout(a: Status, b: Status, c: Status)
    requires Later(a, b) && Later(b, c)
    ensures a == ESTABLISHED == c ==> b == ESTABLISHED
  {
  }

  lemma StillEnded(a: Status, b: Status)
    requires Later(a, b) && Ended(a)
    ensures Ended(b)
  {
  }

  lemma LaterSelf(s: Status)
    ensures Later(s, s)
  {
  }

  /** A connection once up, or given up, is not set up again by the chip alone. */
  lemma StillOpened(a: Status, b: Status)
    requires Later(a, b) && !Fresh(a)
    ensures !Fresh(b)
  {
  }

  lemma LaterTwice(a: Status, b: Status, c: Status)
    requires Later(a, b) && Later(b, c)
    ensures Later(a, c)
  {
  }

  // ----- what the variables of one socket say -----

  /** The payload bytes of the packet in progress that recvfrom has not handed out. */
  function Rest(h: Hist, remained: nat, got: seq<seq<byte>>): seq<byte>
    requires remained > 0 ==> 0 < |got| <= |h.packets| && remained <= |h.packets[|got| - 1].payload|
  {
    if remained == 0 then [] else h.packets[|got| - 1].Tail(remained)
  }

  /**
   `got` lists, a header consumed an entry, the payload bytes handed out: whole payloads, in order,
   except that the last still misses `remained` bytes. RX memory starts exactly there.
   */
  ghost predicate InPacket(h: Hist, remained: nat, got: seq<seq<byte>>)
  {
    && (forall p :: p in h.packets ==> PacketOk(h.mode, p))
    && |got| <= |h.packets|
    && (remained > 0 ==> |got| > 0 && remained <= |h.packets[|got| - 1].payload|)
    && (forall k :: 0 <= k < |got| - 1 ==> got[k] == h.packets[k].payload)
    && (|got| > 0 ==> got[|got| - 1] + Rest(h, remained, got) == h.packets[|got| - 1].payload)
    && h.delivered + Rest(h, remained, got) == Stream(h.mode, h.packets[..|got|])
  }

  /**
   What holds of a socket between host calls: on TCP at most one SEND is unacknowledged, and while
   there is one the sending bit is set; on a datagram socket the cursor stands where `remained` says.
   */
  ghost predicate Consistent(r: Regs, h: Hist, sending: bool, remained: nat, got: seq<seq<byte>>)
  {
    && AtRest(r)
    && (h.mode == TCP ==> h.unacked <= 1 && (h.unacked == 1 && Sendable(r.sr) ==> sending))
    && (r.sr == CLOSED || !IsDatagram(h.mode) ==> remained == 0)
    && (r.sr != CLOSED && IsDatagram(h.mode) ==> InPacket(h, remained, got))
  }

  /** More packets arriving do not move the cursor. */
  lemma InPacketGrows(h: Hist, h': Hist, remained: nat, got: seq<seq<byte>>)
    requires InPacket(h, remained, got)
    requires h'.mode == h.mode && h'.delivered == h.delivered && h.packets <= h'.packets
    requires forall p :: p in h'.packets ==> PacketOk(h'.mode, p)
    ensures InPacket(h', remained, got)
  {
    assert h'.packets[..|got|] == h.packets[..|got|];
  }

  /** Whatever the chip does on its own keeps the socket consistent. */
  lemma ChipKeepsConsistent(r: Regs, h: Hist, r': Regs, h': Hist, sending: bool, remained: nat, got: seq<seq<byte>>)
    requires Consistent(r, h, sending, remained, got) && ChipRun(r, h, r', h')
    requires StreamInv(r, h) && StreamInv(r', h')
    ensures Consistent(r', h', sending, remained, got)
  {
    hide InPacket, Stream, PacketOk;
    if r.sr != CLOSED && IsDatagram(h.mode) {
      InPacketGrows(h, h', remained, got);
    }
  }

  lemma PrefixSlice(a: seq<byte>, b: seq<byte>, c: seq<byte>)
    requires a + b <= c
    ensures |a| + |b| <= |c| && c[|a|..|a| + |b|] == b
  {
    forall i | 0 <= i < |b|
      ensures c[|a|..|a| + |b|][i] == b[i]
    {
      assert (a + b)[|a| + i] == c[|a| + i];
    }
  }

  lemma PrefixTrans(a: seq<byte>, b: seq<byte>, c: seq<byte>)
    requires a <= b <= c
    ensures a <= c
  {
  }

  /** What the host has to know of a stretch in which only the chip ran. */
  lemma ChipRunKeeps(r: Regs, h: Hist, r': Regs, h': Hist)
    requires ChipRun(r, h, r', h')
    ensures r'.mode == r.mode && h'.mode == h.mode && Later(r.sr, r'.sr)
    ensures h'.accepted == h.accepted && h'.delivered == h.delivered && h'.unacked == h.unacked
    ensures h.arrived <= h'.arrived && |h.taken| <= |h'.taken|
    ensures Ended(r.sr) ==> h'.arrived == h.arrived
  {
  }

  /** Consuming SENDOK acknowledges the one outstanding SEND, so the sending bit may be released. */
  lemma SendokKeepsConsistent(r: Regs, h: Hist, r': Regs, h': Hist, sending: bool, remained: nat, got: seq<seq<byte>>)
    requires Consistent(r, h, sending, remained, got) && h.mode == TCP && r.sendok
    requires ChipRun(r.(sendok := false), h.(unacked := h'.unacked), r', h')
    requires Consumed(true, true, h.unacked, h'.unacked)
    ensures Consistent(r', h', false, remained, got) && h'.unacked == 0
    ensures r'.mode == r.mode && Later(r.sr, r'.sr) && h'.accepted == h.accepted && h'.delivered == h.delivered
    ensures |h.taken| <= |h'.taken|
  {
  }

  /** A SEND issued while none is outstanding is the only one outstanding. */
  lemma SendKeepsConsistent(r: Regs, h: Hist, r': Regs, h': Hist, data: seq<byte>, remained: nat, got: seq<seq<byte>>)
    requires Consistent(r, h, false, remained, got) && h.mode == TCP && h.unacked == 0 && AtRest(r')
    requires ChipRun(r.(txEnd := r'.txEnd, txWr := r'.txWr),
                     h.(unacked := h.unacked + 1, accepted := h.accepted + data), r', h')
    ensures Consistent(r', h', true, remained, got) && h'.unacked == 1
    ensures r'.mode == r.mode && h'.accepted == h.accepted + data && h'.delivered == h.delivered
  {
  }

  /** A SENDing state without a raised sending bit has no SEND outstanding. */
  lemma NothingOutstanding(r: Regs, h: Hist, remained: nat, got: seq<seq<byte>>)
    requires Consistent(r, h, false, remained, got) && StreamInv(r, h)
    requires r.mode == TCP && Sendable(r.sr)
    ensures h.mode == TCP && h.unacked == 0
  {
  }

  lemma ConsistentAtRest(r: Regs, h: Hist, sending: bool, remained: nat, got: seq<seq<byte>>)
    requires Consistent(r, h, sending, remained, got)
    ensures AtRest(r)
  {
  }

  lemma FreshRemains(r: Regs, h: Hist, sending: bool, remained: nat, got: seq<seq<byte>>)
    requires Consistent(r, h, sending, remained, got) && StreamInv(r, h) && r.sr == INIT && r.mode == TCP
    ensures remained == 0
  {
  }

  lemma TcpRemains(r: Regs, h: Hist, sending: bool, remained: nat, got: seq<seq<byte>>)
    requires Consistent(r, h, sending, remained, got) && StreamInv(r, h) && r.mode == TCP
    ensures remained == 0
  {
  }

  lemma InProgress(r: Regs, h: Hist, sending: bool, remained: nat, got: seq<seq<byte>>)
    requires Consistent(r, h, sending, remained, got) && remained > 0
    ensures r.sr != CLOSED && |got| > 0
  {
  }

  lemma OpenIsTcp(r: Regs, h: Hist)
    requires StreamInv(r, h) && r.mode == TCP && r.sr != CLOSED
    ensures h.mode == TCP
  {
  }

  /** So does taking it down, with nothing remaining. */
  lemma ClosingKeepsConsistent(r: Regs, h: Hist, r': Regs, h': Hist, sending: bool, sending': bool,
          remained: nat, got: seq<seq<byte>>)
    requires Consistent(r, h, sending, remained, got) && Shut(r, h, r', h') && r'.sr == CLOSED
    ensures Consistent(r', h', sending', 0, got) && r'.mode == r.mode
  {
  }

  /** With nothing left of the last packet, a nonempty ring starts with the next packet's header and payload. */
  lemma NextHeader(h: Hist, got: seq<seq<byte>>)
    requires InPacket(h, 0, got) && h.arrived == Stream(h.mode, h.packets)
    requires |h.delivered| < |h.arrived|
    ensures |got| < |h.packets| && PacketOk(h.mode, h.packets[|got|])
    ensures h.delivered + Header(h.mode, h.packets[|got|]) + h.packets[|got|].payload
         == Stream(h.mode, h.packets[..|got| + 1])
    ensures Stream(h.mode, h.packets[..|got| + 1]) <= h.arrived
  {
    hide Stream, Header, PacketOk;
    assert h.delivered + [] == h.delivered && h.packets[..|h.packets|] == h.packets;
    if |got| == |h.packets| {
      assert false;
    } else {
      var p := h.packets[|got|];
      assert p in h.packets;
      assert h.packets[..|got| + 1] == h.packets[..|got|] + [p];
      StreamExtend(h.mode, h.packets[..|got|], p);
      StreamPrefix(h.mode, h.packets, |got| + 1);
      FramedIs(h.mode, p, h.delivered);
    }
  }

  lemma FramedIs(mode: Mode, p: Packet, before: seq<byte>)
    requires PacketOk(mode, p)
    ensures before + Framed(mode, p) == before + Header(mode, p) + p.payload
  {
  }

  lemma HeaderIs(h: Hist, got: seq<seq<byte>>, head: seq<byte>)
    requires InPacket(h, 0, got) && h.arrived == Stream(h.mode, h.packets)
    requires |head| == HeaderSize(h.mode) && h.delivered + head <= h.arrived && |h.delivered| < |h.arrived|
    requires IsDatagram(h.mode)
    ensures |got| < |h.packets| && PacketOk(h.mode, h.packets[|got|]) && head == Header(h.mode, h.packets[|got|])
  {
    hide Stream, Header, PacketOk;
    NextHeader(h, got);
    var p := h.packets[|got|];
    var header, upTo := Header(h.mode, p), Stream(h.mode, h.packets[..|got| + 1]);
    HeaderLength(h.mode, p);
    assert h.delivered + header <= upTo;
    PrefixTrans(h.delivered + header, upTo, h.arrived);
    PrefixSlice(h.delivered, header, h.arrived);
    PrefixSlice(h.delivered, head, h.arrived);
  }

  lemma HeaderLength(mode: Mode, p: Packet)
    requires PacketOk(mode, p) && IsDatagram(mode)
    ensures |Header(mode, p)| == HeaderSize(mode)
  {
  }

  /** Consuming the header moves the cursor to the start of the next payload. */
  lemma HeaderTaken(h: Hist, h': Hist, got: seq<seq<byte>>)
    requires InPacket(h, 0, got) && h.arrived == Stream(h.mode, h.packets) && |h.delivered| < |h.arrived|
    requires |got| < |h.packets| && PacketOk(h.mode, h.packets[|got|])
    requires h'.mode == h.mode && h'.delivered == h.delivered + Header(h.mode, h.packets[|got|])
    requires h.packets <= h'.packets && forall p :: p in h'.packets ==> PacketOk(h'.mode, p)
    ensures InPacket(h', |h.packets[|got|].payload|, got + [[]])
  {
    hide Stream, Header, PacketOk, Rest;
    NextHeader(h, got);
    WholePayloads(h, got);
    assert h'.packets[..|got| + 1] == h.packets[..|got| + 1];
    NothingTakenYet(h', got + [[]]);
  }

  /** All of a payload is left of it when its entry is empty. */
  lemma NothingTakenYet(h: Hist, got: seq<seq<byte>>)
    requires 0 < |got| <= |h.packets|
    ensures var payload := h.packets[|got| - 1].payload;
            Rest(h, |payload|, got) == payload && [] + payload == payload
  {
  }

  /** With nothing left of the last packet, every payload has been handed out whole. */
  lemma WholePayloads(h: Hist, got: seq<seq<byte>>)
    requires InPacket(h, 0, got)
    ensures forall k :: 0 <= k < |got| ==> got[k] == h.packets[k].payload
  {
    if |got| > 0 {
      assert got[|got| - 1] + [] == got[|got| - 1];
    }
  }

  lemma FragmentIs(h: Hist, remained: nat, n: nat, got: seq<seq<byte>>, data: seq<byte>)
    requires InPacket(h, remained, got) && h.arrived == Stream(h.mode, h.packets)
    requires n <= remained && |data| == n && h.delivered + data <= h.arrived
    ensures data == Rest(h, remained, got)[..n]
  {
    hide Stream, PacketOk;
    RestArrived(h, remained, got);
    var rest := Rest(h, remained, got);
    assert h.delivered + rest[..n] <= h.delivered + rest;
    PrefixTrans(h.delivered + rest[..n], h.delivered + rest, h.arrived);
    PrefixSlice(h.delivered, rest[..n], h.arrived);
    PrefixSlice(h.delivered, data, h.arrived);
  }

  /** What the fragment changes of InPacket, clause by clause: the entries before the last, */
  lemma EarlierEntries(got: seq<seq<byte>>, data: seq<byte>, k: nat)
    requires k < |got| - 1
    ensures Extend(got, data)[k] == got[k]
  {
  }

  /** the last entry and what is left of its packet, */
  lemma LastEntry(got: seq<seq<byte>>, rest: seq<byte>, payload: seq<byte>, n: nat)
    requires got != [] && n <= |rest| && got[|got| - 1] + rest == payload
    ensures Extend(got, rest[..n])[|got| - 1] + rest[n..] == payload
  {
    Regroup(got[|got| - 1], rest, n);
  }

  /** and what is left as such. */
  lemma RestAfter(h: Hist, h': Hist, remained: nat, n: nat, got: seq<seq<byte>>, got': seq<seq<byte>>)
    requires 0 < |got| == |got'| <= |h.packets|
    requires n <= remained <= |h.packets[|got| - 1].payload| && h.packets <= h'.packets
    ensures Rest(h', remained - n, got') == Rest(h, remained, got)[n..]
  {
  }

  lemma Regroup(a: seq<byte>, rest: seq<byte>, n: nat)
    requires n <= |rest|
    ensures a + rest[..n] + rest[n..] == a + rest
  {
  }

  /** Handing out the next n payload bytes. */
  lemma FragmentTaken(h: Hist, h': Hist, remained: nat, n: nat, got: seq<seq<byte>>)
    requires InPacket(h, remained, got) && 0 < |got| && n <= remained
    requires h'.mode == h.mode && h'.delivered == h.delivered + Rest(h, remained, got)[..n]
    requires h.packets <= h'.packets && forall p :: p in h'.packets ==> PacketOk(h'.mode, p)
    ensures InPacket(h', remained - n, Extend(got, Rest(h, remained, got)[..n]))
  {
    hide Stream, PacketOk, Extend, Rest;
    RemainedBound(h, remained, got);
    var rest := Rest(h, remained, got);
    var got' := Extend(got, rest[..n]);
    assert h'.packets[..|got|] == h.packets[..|got|];
    RestAfter(h, h', remained, n, got, got');
    LastEntry(got, rest, h.packets[|got| - 1].payload, n);
    Regroup(h.delivered, rest, n);
    forall k | 0 <= k < |got| - 1
      ensures got'[k] == h'.packets[k].payload
    {
      EarlierEntries(got, rest[..n], k);
    }
  }

  /** RX memory is known to hold what is left of the packet in progress. */
  lemma RestArrived(h: Hist, remained: nat, got: seq<seq<byte>>)
    requires InPacket(h, remained, got) && h.arrived == Stream(h.mode, h.packets)
    ensures |Rest(h, remained, got)| == remained && h.delivered + Rest(h, remained, got) <= h.arrived
  {
    hide Stream, PacketOk;
    StreamPrefix(h.mode, h.packets, |got|);
  }

  // ----- what fetching bytes does to a consistent socket -----

  /** Registers and history right after n bytes were fetched, before the chip ran on. */
  ghost predicate Fetched(r: Regs, h: Hist, data: seq<byte>, r': Regs, h': Hist)
  {
    && AtRest(r') && h.delivered + data <= h.arrived
    && ChipRun(r.(rxAck := r'.rxAck, rxRd := r'.rxRd), h.(delivered := h.delivered + data), r', h')
  }

  lemma FetchedKeeps(r: Regs, h: Hist, data: seq<byte>, r': Regs, h': Hist)
    requires Fetched(r, h, data, r', h')
    ensures r'.mode == r.mode && h'.mode == h.mode && Later(r.sr, r'.sr)
    ensures h'.accepted == h.accepted && h'.delivered == h.delivered + data && h'.unacked == h.unacked
    ensures h.arrived <= h'.arrived && h.packets <= h'.packets
  {
  }

  lemma TcpFetchKeepsConsistent(r: Regs, h: Hist, data: seq<byte>, r': Regs, h': Hist, sending: bool,
          remained: nat, got: seq<seq<byte>>)
    requires Consistent(r, h, sending, remained, got) && !IsDatagram(h.mode) && StreamInv(r, h)
    requires Fetched(r, h, data, r', h')
    ensures Consistent(r', h', sending, remained, got)
  {
  }

  /** A datagram socket that is open is one in its open state, and RX memory starts where its cursor stands. */
  lemma OpenDatagram(r: Regs, h: Hist, sending: bool, remained: nat, got: seq<seq<byte>>)
    requires Consistent(r, h, sending, remained, got) && StreamInv(r, h)
    requires IsDatagram(r.mode) && (r.sr != CLOSED || remained > 0)
    ensures r.sr == OpenStatus(r.mode) && h.mode == r.mode && InPacket(h, remained, got)
    ensures h.arrived == Stream(h.mode, h.packets)
  {
    hide InPacket, Stream;
  }

  lemma HeaderKeepsConsistent(r: Regs, h: Hist, head: seq<byte>, r': Regs, h': Hist, sending: bool, got: seq<seq<byte>>)
    requires Consistent(r, h, sending, 0, got) && StreamInv(r, h) && StreamInv(r', h')
    requires IsDatagram(r.mode) && r.sr != CLOSED
    requires |h.delivered| < |h.arrived| && |head| == HeaderSize(h.mode) && Fetched(r, h, head, r', h')
    ensures |got| < |h.packets| && PacketOk(h.mode, h.packets[|got|]) && head == Header(h.mode, h.packets[|got|])
    ensures Consistent(r', h', sending, |h.packets[|got|].payload|, got + [[]])
    ensures r'.sr == r.sr && r'.mode == r.mode == h'.mode && h.packets <= h'.packets
  {
    hide InPacket, Stream, Header, PacketOk;
    OpenDatagram(r, h, sending, 0, got);
    HeaderIs(h, got, head);
    HeaderTaken(h, h', got);
  }

  lemma FragmentKeepsConsistent(r: Regs, h: Hist, data: seq<byte>, r': Regs, h': Hist, sending: bool,
          remained: nat, got: seq<seq<byte>>)
    requires Consistent(r, h, sending, remained, got) && StreamInv(r, h) && StreamInv(r', h')
    requires IsDatagram(r.mode) && r.sr != CLOSED && 0 < |got|
    requires |data| <= remained && Fetched(r, h, data, r', h')
    ensures Consistent(r', h', sending, remained - |data|, Extend(got, data))
  {
    hide InPacket, Stream, PacketOk;
    OpenDatagram(r, h, sending, remained, got);
    RemainedBound(h, remained, got);
    FragmentIs(h, remained, |data|, got, data);
    FragmentTaken(h, h', remained, |data|, got);
  }

  lemma RemainedBound(h: Hist, remained: nat, got: seq<seq<byte>>)
    requires InPacket(h, remained, got)
    ensures remained > 0 ==> 0 < |got| <= |h.packets| && remained <= |h.packets[|got| - 1].payload|
    ensures |Rest(h, remained, got)| == remained
  {
  }

  /** RX memory holds at least a header when it holds anything and no packet is in progress. */
  lemma HeaderArrived(h: Hist, got: seq<seq<byte>>)
    requires InPacket(h, 0, got) && IsDatagram(h.mode) && h.arrived == Stream(h.mode, h.packets)
    requires |h.delivered| < |h.arrived|
    ensures |h.delivered| + HeaderSize(h.mode) <= |h.arrived|
  {
    hide InPacket, Stream, Header, PacketOk;
    NextHeader(h, got);
    HeaderLength(h.mode, h.packets[|got|]);
  }

  // ----- opening, connecting, disconnecting, sending datagrams -----

  /** A socket just opened starts with empty streams. */
  lemma OpenedIsConsistent(r: Regs, h: Hist)
    requires AtRest(r) && StreamInv(r, h) && h.delivered == [] && h.unacked == 0
    ensures Consistent(r, h, false, 0, [])
  {
    if IsDatagram(h.mode) {
      assert h.packets[..0] == [];
    }
  }

  /** LISTEN, CONNECT and DISCON move a TCP socket to a state in which the invariant demands no more than before. */
  lemma StatusKeepsConsistent(r: Regs, h: Hist, r': Regs, h': Hist, sending: bool, sending': bool,
          remained: nat, got: seq<seq<byte>>)
    requires Consistent(r, h, sending, remained, got) && StreamInv(r, h) && StreamInv(r', h')
    requires r.mode == TCP && Shut(r, h, r', h') && (sending' == sending || !Sendable(r'.sr))
    requires Sendable(r'.sr) ==> Fresh(r.sr)
    ensures Consistent(r', h', sending', 0, got)
  {
  }

  lemma StatusSet(r: Regs, h: Hist, s: Status, r': Regs, h': Hist)
    requires ChipRun(r.(sr := s), h, r', h') && !Ended(r.sr)
    ensures Shut(r, h, r', h') && Later(s, r'.sr)
  {
  }

  lemma IrKeepsConsistent(r: Regs, h: Hist, sendok: bool, timeout: bool, r': Regs, h': Hist, sending: bool,
          remained: nat, got: seq<seq<byte>>)
    requires Consistent(r, h, sending, remained, got) && StreamInv(r, h) && StreamInv(r', h')
    requires ChipRun(r.(sendok := r.sendok && !sendok, timeout := r.timeout && !timeout),
                     h.(unacked := h'.unacked), r', h')
    requires Consumed(sendok, r.sendok, h.unacked, h'.unacked) && (h.mode == TCP ==> !sendok)
    ensures Consistent(r', h', sending, remained, got)
    ensures r'.mode == r.mode && h'.mode == h.mode && Later(r.sr, r'.sr)
    ensures h'.accepted == h.accepted && h'.delivered == h.delivered
  {
    hide InPacket, Stream, PacketOk;
    if r.sr != CLOSED && IsDatagram(h.mode) {
      InPacketGrows(h, h', remained, got);
    }
  }

  lemma DatagramSendKeepsConsistent(r: Regs, h: Hist, r': Regs, h': Hist, data: seq<byte>, sending: bool,
          remained: nat, got: seq<seq<byte>>)
    requires Consistent(r, h, sending, remained, got) && StreamInv(r, h) && StreamInv(r', h')
    requires h.mode != TCP && AtRest(r')
    requires ChipRun(r.(txEnd := r'.txEnd, txWr := r'.txWr),
                     h.(unacked := h.unacked + 1, accepted := h.accepted + data), r', h')
    ensures Consistent(r', h', sending, remained, got) && h'.unacked == h.unacked + 1
    ensures r'.mode == r.mode && h'.mode == h.mode && h'.accepted == h.accepted + data && h'.delivered == h.delivered
  {
    hide InPacket, Stream, PacketOk;
    if r.sr != CLOSED && IsDatagram(h.mode) {
      InPacketGrows(h, h', remained, got);
    }
  }

  /** Which flags `socket` accepts. */
  predicate FlagsOk(protocol: Mode, flag: bv8, hardwareWrapped: bool)
  {
    && flag & 0x04 == 0
    && (flag != 0 && protocol == TCP ==> flag & 0x21 != 0)
    && (protocol == UDP && flag & 0x20 != 0 ==> flag & 0x80 != 0)
    && (protocol == UDP && hardwareWrapped && flag & 0x10 != 0 ==> flag & 0x80 != 0)
  }

  /** SF_MULTI_ENABLE, SF_TCP_NODELAY and SF_IGMP_VER2, SF_UNI_BLOCK, SF_IO_NONBLOCK, and a bit that has no meaning. */
  const MULTI: bv8 := 0x80
  const NODELAY: bv8 := 0x20
  const IGMP_VER2: bv8 := 0x20
  const UNI_BLOCK: bv8 := 0x10
  const NONBLOCK: bv8 := 0x01
  const UNUSED: bv8 := 0x04

  /**
   The flags by protocol: TCP knows two, and any others only beside them; UDP wants multicast enabled for those that
   belong to it; raw sockets take any.
   */
  lemma FlagsByProtocol(p: Mode, f: bv8, wrapped: bool)
    requires f & UNUSED == 0
    ensures !FlagsOk(p, f | UNUSED, wrapped)
    ensures FlagsOk(TCP, f | NODELAY, wrapped) && FlagsOk(TCP, f | NONBLOCK, wrapped)
    ensures f & NODELAY == 0 && f & NONBLOCK == 0 ==> (FlagsOk(TCP, f, wrapped) <==> f == 0)
    ensures FlagsOk(UDP, f | MULTI, wrapped)
    ensures f & MULTI == 0 ==> (FlagsOk(UDP, f, true) <==> f & IGMP_VER2 == 0 && f & UNI_BLOCK == 0)
    ensures f & MULTI == 0 ==> (FlagsOk(UDP, f, false) <==> f & IGMP_VER2 == 0)
    ensures FlagsOk(IPRAW, f, wrapped) && FlagsOk(MACRAW, f, wrapped)
  {
  }

  /** How `recvfrom` reads a header: peer address, port, and payload length. */
  function ParseHeader(mode: Mode, head: seq<byte>): (seq<byte>, u16, u16)
    requires IsDatagram(mode) && |head| == HeaderSize(mode)
  {
    if mode == UDP then (head[..4], Join(head[4], head[5]), Join(head[6], head[7]))
    else if mode == IPRAW then (head[..4], 0, Join(head[4], head[5]))
    else ([], 0, (Join(head[0], head[1]) - 2) % 0x1_0000)
  }

  /** The header read back is the packet's. */
  lemma HeaderParsed(mode: Mode, p: Packet)
    requires PacketOk(mode, p) && IsDatagram(mode)
    ensures |Header(mode, p)| == HeaderSize(mode)
    ensures ParseHeader(mode, Header(mode, p)).2 == |p.payload|
    ensures mode != MACRAW ==> ParseHeader(mode, Header(mode, p)).0 == p.addr
    ensures mode == UDP ==> ParseHeader(mode, Header(mode, p)).1 == p.port
  {
    hide Join, Hi, Lo;
    JoinBack(LengthField(mode, p));
    JoinBack(p.port);
    var len := [Hi(LengthField(mode, p)), Lo(LengthField(mode, p))];
    if mode == UDP {
      Cut(p.addr, [Hi(p.port), Lo(p.port)], len);
    } else if mode == IPRAW {
      Cut(p.addr, len, []);
    }
  }

  lemma Cut(addr: seq<byte>, a: seq<byte>, b: seq<byte>)
    requires |addr| == 4 && |a| == 2
    ensures (addr + a + b)[..4] == addr && (addr + a + b)[4] == a[0] && (addr + a + b)[5] == a[1]
    ensures |b| == 2 ==> (addr + a + b)[6] == b[0] && (addr + a + b)[7] == b[1]
    ensures b == [] ==> addr + a + b == addr + a
  {
  }
}
