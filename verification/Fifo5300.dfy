/**
 Reading on the W5300: RX memory is a FIFO of 16-bit words, so a read of odd length leaves a byte behind
 that the host carries over to the next read (`sock_remained_byte`, flagged by PACK_FIFOBYTE).
 */
module Fifo5300 {
  import opened Arith
  import opened Wire
  import opened SocketState

  const PACK_FIFOBYTE: bv8 := 0x02

  type Word = (byte, byte)

  /** A packet as it arrived, with the byte the chip padded an odd payload with. */
  datatype Arrival = Arrival(packet: Packet, pad: byte)

  // ----- bytes as words -----

  function Words(bytes: seq<byte>, pad: byte): seq<Word>
  {
    if bytes == [] then []
    else if |bytes| == 1 then [(bytes[0], pad)]
    else [(bytes[0], bytes[1])] + Words(bytes[2..], pad)
  }

  lemma FirstWord(bytes: seq<byte>, pad: byte, rest: seq<Word>)
    requires bytes != []
    ensures
      var words := Words(bytes, pad) + rest;
      && words != [] && words[0] == (bytes[0], if |bytes| < 2 then pad else bytes[1])
      && words[1..] == Words(if |bytes| < 2 then [] else bytes[2..], pad) + rest
  {
  }

  // ----- packets in the FIFO -----

  /** A TCP segment is preceded by its length, a UDP datagram by the sender's address and port as well. */
  predicate FifoMode(mode: Mode) { mode == TCP || mode == UDP }

  predicate Sound(a: Arrival) { |a.packet.addr| == 4 && |a.packet.payload| < 0x1_0000 }

  function Head(mode: Mode, a: Arrival): seq<byte>
    requires Sound(a)
  {
    var len := [Hi(|a.packet.payload|), Lo(|a.packet.payload|)];
    if mode == UDP then a.packet.addr + [Hi(a.packet.port), Lo(a.packet.port)] + len else len
  }

  function HeadSize(mode: Mode): nat { if mode == UDP then 8 else 2 }

  function PacketWords(mode: Mode, a: Arrival): seq<Word>
    requires Sound(a)
  {
    Words(Head(mode, a) + a.packet.payload, a.pad)
  }

  function QueueWords(mode: Mode, queue: seq<Arrival>): seq<Word>
    requires forall a :: a in queue ==> Sound(a)
  {
    if queue == [] then [] else PacketWords(mode, queue[0]) + QueueWords(mode, queue[1..])
  }

  lemma {:induction false} QueueAppend(mode: Mode, queue: seq<Arrival>, a: Arrival)
    requires Sound(a) && forall q :: q in queue ==> Sound(q)
    ensures forall q :: q in queue + [a] ==> Sound(q)
    ensures QueueWords(mode, queue + [a]) == QueueWords(mode, queue) + PacketWords(mode, a)
  {
    hide PacketWords, Sound;
    if queue == [] {
      assert [a][1..] == [] && queue + [a] == [a];
    } else {
      QueueAppend(mode, queue[1..], a);
      assert (queue + [a])[0] == queue[0] && (queue + [a])[1..] == queue[1..] + [a];
      Associate(PacketWords(mode, queue[0]), QueueWords(mode, queue[1..]), PacketWords(mode, a));
    }
  }

  // ----- what the host's variables mean -----

  /** The bytes of the current payload not handed out. */
  function ToCome(arrivals: seq<Arrival>, taken: nat, remained: nat): seq<byte>
    requires remained > 0 ==> 0 < taken <= |arrivals| && remained <= |arrivals[taken - 1].packet.payload|
  {
    if remained == 0 then [] else arrivals[taken - 1].packet.Tail(remained)
  }

  /**
   `taken` headers have been read and `remained` bytes of the last payload are to come. The carried byte
   is the first of them exactly when the flag is set; the rest are in the FIFO, then the packets to come.
   */
  ghost predicate FifoInv(mode: Mode, words: seq<Word>, arrivals: seq<Arrival>, taken: nat, remained: nat,
                          carried: bool, carry: byte)
  {
    && FifoMode(mode) && taken <= |arrivals|
    && (forall a :: a in arrivals ==> Sound(a))
    && (remained > 0 ==> 0 < taken && remained <= |arrivals[taken - 1].packet.payload|)
    && (carried ==> remained > 0 && carry == ToCome(arrivals, taken, remained)[0])
    && words == Words(if carried then ToCome(arrivals, taken, remained)[1..] else ToCome(arrivals, taken, remained),
                      if taken > 0 then arrivals[taken - 1].pad else 0)
              + QueueWords(mode, arrivals[taken..])
  }

  /** The payload bytes handed out so far, an entry a header read, against the payloads that arrived. */
  ghost predicate GotOk(arrivals: seq<Arrival>, got: seq<seq<byte>>, remained: nat)
  {
    && |got| <= |arrivals|
    && (remained > 0 ==> 0 < |got| && remained <= |arrivals[|got| - 1].packet.payload|)
    && (forall k :: 0 <= k < |got| - 1 ==> got[k] == arrivals[k].packet.payload)
    && (|got| > 0 ==> got[|got| - 1] + ToCome(arrivals, |got|, remained) == arrivals[|got| - 1].packet.payload)
  }

  lemma GotBound(arrivals: seq<Arrival>, got: seq<seq<byte>>, remained: nat)
    requires GotOk(arrivals, got, remained)
    ensures |got| <= |arrivals|
    ensures remained > 0 ==> got != []
  {
  }

  lemma HeadIs(mode: Mode, a: Arrival)
    requires Sound(a) && FifoMode(mode)
    ensures var head := Head(mode, a);
      && |head| == HeadSize(mode) >= 2
      && Join(head[HeadSize(mode) - 2], head[HeadSize(mode) - 1]) == |a.packet.payload|
      && (mode == UDP ==> head[..4] == a.packet.addr && Join(head[4], head[5]) == a.packet.port)
  {
  }

  /** With no packet in progress, a nonempty FIFO starts with a packet. */
  lemma NextArrival(mode: Mode, arrivals: seq<Arrival>, n: nat)
    requires n <= |arrivals| && (forall a :: a in arrivals ==> Sound(a)) && QueueWords(mode, arrivals[n..]) != []
    ensures n < |arrivals| && Sound(arrivals[n])
    ensures QueueWords(mode, arrivals[n..])
         == Words(Head(mode, arrivals[n]) + arrivals[n].packet.payload, arrivals[n].pad)
            + QueueWords(mode, arrivals[n + 1..])
  {
    assert arrivals[n..][0] in arrivals;
    assert arrivals[n..][1..] == arrivals[n + 1..];
  }

  /** With nothing of a packet left, no byte is carried and the FIFO holds just the packets to come. */
  lemma Idle(mode: Mode, words: seq<Word>, arrivals: seq<Arrival>, taken: nat, carried: bool, carry: byte)
    requires FifoInv(mode, words, arrivals, taken, 0, carried, carry)
    ensures !carried && taken <= |arrivals| && FifoMode(mode) && (forall a :: a in arrivals ==> Sound(a))
    ensures words == QueueWords(mode, arrivals[taken..])
  {
    hide QueueWords;
    assert [] + QueueWords(mode, arrivals[taken..]) == QueueWords(mode, arrivals[taken..]);
  }

  /** Right after a header the whole payload is in the FIFO. */
  lemma Uncarried(mode: Mode, words: seq<Word>, arrivals: seq<Arrival>, taken: nat, remained: nat, carry: byte)
    requires FifoMode(mode) && 0 < taken <= |arrivals| && (forall a :: a in arrivals ==> Sound(a))
    requires remained <= |arrivals[taken - 1].packet.payload|
    requires words == Words(ToCome(arrivals, taken, remained), arrivals[taken - 1].pad)
                      + QueueWords(mode, arrivals[taken..])
    ensures FifoInv(mode, words, arrivals, taken, remained, false, carry)
  {
  }

  /** The bytes in the FIFO in front of the packets to come. */
  lemma Opened(mode: Mode, words: seq<Word>, arrivals: seq<Arrival>, taken: nat, remained: nat, carried: bool,
          carry: byte)
    returns (front: seq<byte>)
    requires FifoInv(mode, words, arrivals, taken, remained, carried, carry) && taken > 0
    ensures taken <= |arrivals|
    ensures remained <= |arrivals[taken - 1].packet.payload| && |ToCome(arrivals, taken, remained)| == remained
    ensures FifoMode(mode) && forall a :: a in arrivals ==> Sound(a)
    ensures words == Words(front, arrivals[taken - 1].pad) + QueueWords(mode, arrivals[taken..])
    ensures carried ==> remained > 0 && [carry] + front == ToCome(arrivals, taken, remained)
    ensures !carried ==> front == ToCome(arrivals, taken, remained)
  {
    hide Words, QueueWords;
    front := if carried then ToCome(arrivals, taken, remained)[1..] else ToCome(arrivals, taken, remained);
  }

  /** The bytes returned are the next ones, and what is left starts where they end. */
  lemma Progress(arrivals: seq<Arrival>, arrivals': seq<Arrival>, taken: nat, remained: nat, n: nat,
                 rest: seq<byte>, carried: bool, data: seq<byte>, front: seq<byte>, copied: nat)
    requires 0 < taken <= |arrivals| && arrivals <= arrivals' && n <= remained <= |arrivals[taken - 1].packet.payload|
    requires rest == ToCome(arrivals, taken, remained) && |rest| == remained
    requires if carried then n > 0 && copied == n - 1 && front == rest[1..] && data == [rest[0]] + front[..copied]
             else copied == n && front == rest && data == front[..copied]
    ensures data == rest[..n] && ToCome(arrivals', taken, remained - n) == rest[n..] == front[copied..]
  {
  }

  /** The entry of the packet in progress grows by the bytes handed out. */
  lemma ExtendKeeps(arrivals: seq<Arrival>, arrivals': seq<Arrival>, got: seq<seq<byte>>, remained: nat, n: nat,
          rest: seq<byte>)
    requires GotOk(arrivals, got, remained) && got != [] && arrivals <= arrivals' && n <= remained == |rest|
    requires rest == ToCome(arrivals, |got|, remained) && ToCome(arrivals', |got|, remained - n) == rest[n..]
    ensures GotOk(arrivals', Extend(got, rest[..n]), remained - n)
  {
    hide ToCome, Extend;
    var got' := Extend(got, rest[..n]);
    LastEntry(got, rest, arrivals[|got| - 1].packet.payload, n);
    forall k | 0 <= k < |got| - 1
      ensures got'[k] == arrivals'[k].packet.payload
    {
      EarlierEntries(got, rest[..n], k);
    }
  }

  /** What the FIFO still holds of `bytes` when i of them have been handed out: whole words only. */
  function Behind(bytes: seq<byte>, i: nat): seq<byte>
    requires i <= |bytes|
  {
    if i % 2 == 0 then bytes[i..] else if i < |bytes| then bytes[i + 1..] else []
  }

  lemma BehindStart(bytes: seq<byte>)
    ensures Behind(bytes, 0) == bytes
  {
  }

  lemma BehindNext(bytes: seq<byte>, i: nat)
    requires i < |bytes|
    ensures i % 2 == 1 ==> Behind(bytes, i + 1) == Behind(bytes, i)
    ensures i % 2 == 0 ==>
      var left := Behind(bytes, i);
      && left != [] && left[0] == bytes[i] && (|left| >= 2 <==> i + 1 < |bytes|)
      && (i + 1 < |bytes| ==> left[1] == bytes[i + 1])
      && Behind(bytes, i + 1) == if |left| < 2 then [] else left[2..]
  {
  }

  /** After an odd copy that leaves something, the next byte is in the host's hand. */
  lemma Reclosed(mode: Mode, words: seq<Word>, arrivals: seq<Arrival>, taken: nat, left: nat, copied: nat,
          carry: byte, front: seq<byte>)
    requires FifoMode(mode) && 0 < taken <= |arrivals| && (forall a :: a in arrivals ==> Sound(a))
    requires left <= |arrivals[taken - 1].packet.payload| && copied + left == |front|
    requires ToCome(arrivals, taken, left) == front[copied..]
    requires copied <= |front| && words == Words(Behind(front, copied),
                            arrivals[taken - 1].pad) + QueueWords(mode, arrivals[taken..])
    requires copied % 2 == 1 && copied < |front| ==> carry == front[copied]
    ensures FifoInv(mode, words, arrivals, taken, left, left > 0 && copied % 2 == 1, carry)
  {
    hide Words, QueueWords;
  }

  /** Arrivals behind an idle cursor leave it idle. */
  lemma IdleAgain(mode: Mode, words: seq<Word>, arrivals: seq<Arrival>, arrivals': seq<Arrival>, got: seq<seq<byte>>,
          carry: byte)
    requires FifoMode(mode) && GotOk(arrivals, got, 0) && arrivals <= arrivals' && |got| <= |arrivals'|
    requires (forall a :: a in arrivals' ==> Sound(a)) && words == Words([], 0) + QueueWords(mode, arrivals'[|got|..])
    ensures FifoInv(mode, words, arrivals', |got|, 0, false, carry) && GotOk(arrivals', got, 0)
  {
    hide QueueWords;
  }

  /**
   `recv`, called with `words0` in the FIFO, has closed the socket, and the words left there are dropped. If the
   status it read was CLOSE_WAIT these are just those that arrived after the read of the size, which was 0; in
   any other status all of them, those the size had counted included.
   */
  ghost predicate LetGo(sr0: Status, words0: seq<Word>, seen: Glimpse, sr: Status, words: seq<Word>)
  {
    && sr == CLOSED && Later(sr0, seen.status) && seen.status != ESTABLISHED
    && words0 <= words && |words0| <= seen.before <= seen.now == |words| && (Ended(sr0) ==> words == words0)
    && (seen.status == CLOSE_WAIT ==> seen.before == 0)
  }

  /** What a caller can tell from the state before the call. */
  lemma WhatIsLetGo(sr0: Status, words0: seq<Word>, seen: Glimpse, sr: Status, words: seq<Word>)
    requires LetGo(sr0, words0, seen, sr, words)
    ensures words0 != [] || Refused(sr0) ==> seen.status != CLOSE_WAIT
    ensures Ended(sr0) ==> words == words0
    ensures |words| >= |words0|
  {
  }

  lemma ExtendNew(got: seq<seq<byte>>, data: seq<byte>)
    ensures Extend(got + [[]], data) == got + [data]
  {
    assert [] + data == data;
  }

  lemma CursorFacts(mode: Mode, words: seq<Word>, arrivals: seq<Arrival>, taken: nat, remained: nat,
          carried: bool, carry: byte)
    requires FifoInv(mode, words, arrivals, taken, remained, carried, carry)
    ensures FifoMode(mode) && (remained > 0 ==> taken > 0) && (carried ==> remained > 0)
  {
  }

  function Flat(pieces: seq<seq<byte>>): seq<byte>
  {
    if pieces == [] then [] else Flat(pieces[..|pieces| - 1]) + pieces[|pieces| - 1]
  }

  function Payloads(arrivals: seq<Arrival>): seq<seq<byte>>
  {
    seq(|arrivals|, i requires 0 <= i < |arrivals| => arrivals[i].packet.payload)
  }

  lemma FlatGrows(got: seq<seq<byte>>, data: seq<byte>)
    ensures Flat(got + [data]) == Flat(got) + data
    ensures got != [] ==> Flat(Extend(got, data)) == Flat(got) + data
  {
    assert (got + [data])[..|got|] == got;
    if got != [] {
      var last := |got| - 1;
      assert Extend(got, data)[..last] == got[..last];
      assert Flat(got[..last]) + (got[last] + data) == Flat(got[..last]) + got[last] + data;
    }
  }

  /** All that was returned is a prefix of all the payload that arrived, and what is missing of it is to come. */
  lemma FlatIsPrefix(arrivals: seq<Arrival>, got: seq<seq<byte>>, remained: nat)
    requires GotOk(arrivals, got, remained)
    ensures Flat(got) + ToCome(arrivals, |got|, remained) == Flat(Payloads(arrivals[..|got|]))
  {
    hide ToCome, Flat;
    if got != [] {
      LastPiece(got, Payloads(arrivals[..|got|]), ToCome(arrivals, |got|, remained));
    } else {
      assert Payloads(arrivals[..0]) == [];
      NothingTaken(arrivals, remained);
    }
  }

  lemma LastPiece(got: seq<seq<byte>>, whole: seq<seq<byte>>, tail: seq<byte>)
    requires got != [] && |got| == |whole| && got[|got| - 1] + tail == whole[|got| - 1]
    requires forall k :: 0 <= k < |got| - 1 ==> got[k] == whole[k]
    ensures Flat(got) + tail == Flat(whole)
  {
    var last := |got| - 1;
    assert got[..last] == whole[..last];
    Associate(Flat(got[..last]), got[last], tail);
  }

  lemma Associate<T>(a: seq<T>, b: seq<T>, c: seq<T>)
    ensures a + b + c == a + (b + c)
  {
  }

  lemma NothingTaken(arrivals: seq<Arrival>, remained: nat)
    requires GotOk(arrivals, [], remained)
    ensures ToCome(arrivals, 0, remained) == []
  {
  }

  lemma HeadOff(head: seq<byte>, payload: seq<byte>)
    ensures (head + payload)[..|head|] == head && (head + payload)[|head|..] == payload
  {
  }

  /** Reading a header starts a new entry, all of whose payload is to come. */
  lemma HeaderKeeps(arrivals: seq<Arrival>, arrivals': seq<Arrival>, got: seq<seq<byte>>)
    requires GotOk(arrivals, got, 0) && |got| < |arrivals| && arrivals <= arrivals'
    ensures GotOk(arrivals', got + [[]], |arrivals[|got|].packet.payload|)
    ensures ToCome(arrivals', |got| + 1, |arrivals[|got|].packet.payload|) == arrivals[|got|].packet.payload
  {
    var payload := arrivals[|got|].packet.payload;
    assert [] + payload == payload;
    if |got| > 0 {
      assert got[|got| - 1] + [] == got[|got| - 1];
    }
  }

  class Fifo {
    const mode: Mode
    /** The chip's RX FIFO. */
    var words: seq<Word>
    var sockRemainedSize: u16
    var sockPackInfo: bv8
    var sockRemainedByte: byte
    /** Sn_SR, and the socket's I/O mode bit. */
    var sr: Status
    var nonblock: bool
    ghost var arrivals: seq<Arrival>
    ghost var got: seq<seq<byte>>

    /** The first n entries of `arrivals` are accounted for; the FIFO holds these bytes and then the others. */
    ghost predicate Front(bytes: seq<byte>, pad: byte, n: nat)
      reads `words, `arrivals
    {
      && FifoMode(mode) && n <= |arrivals| && (forall a :: a in arrivals ==> Sound(a))
      && words == Words(bytes, pad) + QueueWords(mode, arrivals[n..])
    }

    ghost predicate Valid()
      reads this
    {
      && FifoInv(mode, words, arrivals, |got|, sockRemainedSize, sockPackInfo & PACK_FIFOBYTE != 0, sockRemainedByte)
      && GotOk(arrivals, got, sockRemainedSize)
      && (sockPackInfo & PACK_REMAINED != 0 <==> sockRemainedSize > 0)
      && (sockPackInfo == PACK_COMPLETED <==> sockRemainedSize == 0)
    }

    constructor (mode: Mode, sr: Status, nonblock: bool)
      requires mode == TCP || mode == UDP
      ensures Valid() && this.mode == mode && got == [] && arrivals == []
      ensures this.sr == sr && this.nonblock == nonblock
    {
      this.mode, this.sr, this.nonblock := mode, sr, nonblock;
      words, sockRemainedSize, sockPackInfo, sockRemainedByte := [], 0, PACK_COMPLETED, 0;
      arrivals, got := [], [];
    }

    /** Packets arrive at any time, behind what is in the FIFO. */
    method Env(ghost bytes: seq<byte>, ghost pad: byte, ghost n: nat)
      requires Front(bytes, pad, n)
      modifies this`words, this`arrivals
      ensures Front(bytes, pad, n) && old(arrivals) <= arrivals && old(words) <= words
      ensures Ended(sr) ==> words == old(words)
    {
      hide Words, QueueWords, PacketWords, Sound;
      var count: nat := *;
      while count > 0
        invariant Front(bytes, pad, n) && old(arrivals) <= arrivals && old(words) <= words
        invariant Ended(sr) ==> words == old(words)
      {
        var a: Arrival := *;
        if Sound(a) && !Ended(sr) {
          QueueAppend(mode, arrivals[n..], a);
          assert (arrivals + [a])[n..] == arrivals[n..] + [a];
          words := words + PacketWords(mode, a);
          arrivals := arrivals + [a];
        }
        count := count - 1;
      }
    }

    /** Sn_RX_RSR while no packet is in progress: nonzero exactly when the FIFO holds something. */
    method Size() returns (some: bool)
      requires Valid() && sockRemainedSize == 0
      modifies this`words, this`arrivals
      ensures Valid() && old(words) <= words && old(arrivals) <= arrivals
      ensures (some <==> words != []) && (Ended(sr) ==> words == old(words))
    {
      hide FifoInv, GotOk, QueueWords;
      Idle(mode, words, arrivals, |got|, sockPackInfo & PACK_FIFOBYTE != 0, sockRemainedByte);
      GotBound(arrivals, got, 0);
      assert Words([], 0) + QueueWords(mode, arrivals[|got|..]) == QueueWords(mode, arrivals[|got|..]);
      Env([], 0, |got|);
      IdleAgain(mode, words, old(arrivals), arrivals, got, sockRemainedByte);
      some := words != [];
    }

    /** Sn_SR: packets may arrive first, then the chip may move it on. */
    method SnSr() returns (s: Status)
      requires Valid() && sockRemainedSize == 0
      modifies this`words, this`arrivals, this`sr
      ensures Valid() && old(words) <= words && old(arrivals) <= arrivals && (Ended(old(sr)) ==> words == old(words))
      ensures s == sr && Later(old(sr), sr)
    {
      hide FifoInv, GotOk;
      var some := Size();
      LaterSelf(sr);
      s :| Later(sr, s);
      sr := s;
    }

    /** close, for a socket with no packet in progress. */
    method Close()
      requires Valid() && sockRemainedSize == 0
      modifies this`sr, this`nonblock, this`sockPackInfo
      ensures Valid() && sr == CLOSED && !nonblock
    {
      hide FifoInv, GotOk;
      sr, nonblock, sockPackInfo := CLOSED, false, PACK_COMPLETED;
    }

    /**
     The waiting loop of `recv`: until the FIFO holds something, the connection is gone, or the mode is
     non-blocking. `drained` is what the read of the free TX size shows, round by round.
     */
    method AwaitSegment(drained: seq<bool>) returns (go: bool, stopped: SocketState.Outcome, ghost seen: Glimpse)
      requires Valid() && sockRemainedSize == 0
      modifies this`words, this`arrivals, this`sr, this`nonblock, this`sockPackInfo
      ensures Valid() && old(words) <= words && old(arrivals) <= arrivals
      ensures go ==> words != []
      ensures go || stopped != Done(SOCKERR_SOCKSTATUS) ==> nonblock == old(nonblock)
      ensures !go && stopped == Done(SOCKERR_SOCKSTATUS) ==> sr == CLOSED && !nonblock
      ensures !go && stopped == Blocked && drained != [] ==> !old(nonblock) && old(words) == []
      ensures !go ==> stopped in {Blocked, Done(SOCK_BUSY), Done(SOCKERR_SOCKSTATUS)}
      ensures !go && stopped == Done(SOCK_BUSY) ==> old(nonblock) && old(words) == []
      ensures !go && stopped == Done(SOCKERR_SOCKSTATUS) ==> LetGo(old(sr), old(words), seen, sr, words)
      ensures drained != [] && Refused(old(sr)) ==> !go && stopped == Done(SOCKERR_SOCKSTATUS)
    {
      hide FifoInv, GotOk, Later;
      stopped := Blocked;
      LaterSelf(sr);
      for i := 0 to |drained|
        invariant Valid() && sockRemainedSize == 0 && nonblock == old(nonblock) && stopped == Blocked
        invariant old(words) <= words && old(arrivals) <= arrivals && Later(old(sr), sr)
        invariant (Ended(old(sr)) ==> words == old(words)) && (Refused(old(sr)) ==> i == 0)
        invariant i > 0 ==> !nonblock && old(words) == []
      {
        ghost var sr1 := sr;
        var some := Size();
        ghost var before := |words|;
        var tmp := SnSr();
        LaterTwice(old(sr), sr1, sr);
        StaysAsItIs(old(sr), sr1, sr);
        seen := Glimpse(tmp, before, |words|);
        if tmp != ESTABLISHED {
          if tmp != CLOSE_WAIT || (!some && drained[i]) {
            Close();
            return false, Done(SOCKERR_SOCKSTATUS), seen;
          }
        }
        if nonblock && !some {
          return false, Done(SOCK_BUSY), seen;
        }
        if some {
          return true, Blocked, seen;
        }
      }
      go, seen := false, Glimpse(CLOSED, 0, 0);
    }

    /** The waiting loop of `recvfrom`: a closed socket is reported, not closed again. */
    method AwaitDatagram(patience: nat) returns (go: bool, stopped: SocketState.Outcome)
      requires Valid() && sockRemainedSize == 0
      modifies this`words, this`arrivals, this`sr
      ensures Valid() && old(words) <= words && old(arrivals) <= arrivals
      ensures go ==> words != []
      ensures !go && stopped == Blocked && patience > 0 ==> !nonblock && old(words) == []
      ensures !go ==> stopped in {Blocked, Done(SOCK_BUSY), Done(SOCKERR_SOCKCLOSED)}
      ensures !go && stopped == Done(SOCK_BUSY) ==> nonblock && old(words) == []
      ensures !go && stopped == Done(SOCKERR_SOCKCLOSED) ==> sr == CLOSED
    {
      hide FifoInv, GotOk, Later;
      stopped := Blocked;
      for i := 0 to patience
        invariant Valid() && sockRemainedSize == 0 && stopped == Blocked
        invariant old(words) <= words && old(arrivals) <= arrivals
        invariant i > 0 ==> !nonblock && old(words) == []
      {
        var some := Size();
        var tmp := SnSr();
        if tmp == CLOSED {
          return false, Done(SOCKERR_SOCKCLOSED);
        }
        if nonblock && !some {
          return false, Done(SOCK_BUSY);
        }
        if some {
          return true, Blocked;
        }
      }
      go := false;
    }

    /** One read of Sn_RX_FIFOR. */
    method PopWord(ghost bytes: seq<byte>, ghost pad: byte, ghost n: nat) returns (w: Word)
      requires Front(bytes, pad, n) && bytes != []
      modifies this`words, this`arrivals
      ensures Front(if |bytes| < 2 then [] else bytes[2..], pad, n) && old(arrivals) <= arrivals
      ensures w == (bytes[0], if |bytes| < 2 then pad else bytes[1])
    {
      hide Words, QueueWords, Sound;
      Env(bytes, pad, n);
      FirstWord(bytes, pad, QueueWords(mode, arrivals[n..]));
      w := words[0];
      words := words[1..];
    }

    /**
     wiz_recv_data: two bytes from each word, and the low byte of the last word kept. After an odd length
     that byte is the next one, if there is a next one.
     */
    method WizRecvData(len: nat, ghost bytes: seq<byte>, ghost pad: byte, ghost n: nat) returns (data: seq<byte>)
      requires Front(bytes, pad, n) && len <= |bytes|
      modifies this`words, this`arrivals, this`sockRemainedByte
      ensures data == bytes[..len] && old(arrivals) <= arrivals
      ensures Front(Behind(bytes, len), pad, n)
      ensures len % 2 == 1 && len < |bytes| ==> sockRemainedByte == bytes[len]
    {
      hide Front, Words, QueueWords, Behind;
      BehindStart(bytes);
      data := [];
      if len == 0 {
        return;
      }
      var rd: Word := (0, 0);
      ghost var left := bytes;
      for i := 0 to len
        invariant data == bytes[..i] && old(arrivals) <= arrivals && Front(left, pad, n)
        invariant left == Behind(bytes, i)
        invariant i % 2 == 1 ==> rd.0 == bytes[i - 1] && (i < |bytes| ==> rd.1 == bytes[i])
      {
        BehindNext(bytes, i);
        if i % 2 == 0 {
          rd := PopWord(left, pad, n);
          left := if |left| < 2 then [] else left[2..];
          data := data + [rd.0];
        } else {
          data := data + [rd.1];
        }
      }
      sockRemainedByte := rd.1;
    }

    /** Everything Valid says, but for the REMAINED and COMPLETED flags. */
    ghost predicate CursorOk()
      reads this
    {
      && FifoInv(mode, words, arrivals, |got|, sockRemainedSize, sockPackInfo & PACK_FIFOBYTE != 0, sockRemainedByte)
      && GotOk(arrivals, got, sockRemainedSize)
    }

    /** The header's words, up to the payload. */
    method PopHead(ghost a: Arrival, ghost n: nat) returns (head: seq<byte>)
      requires Sound(a) && FifoMode(mode) && Front(Head(mode, a) + a.packet.payload, a.pad, n)
      modifies this`words, this`arrivals, this`sockRemainedByte
      ensures head == Head(mode, a) && |head| == HeadSize(mode) && old(arrivals) <= arrivals
      ensures Front(a.packet.payload, a.pad, n)
    {
      hide Front, Head, Join, Sound;
      HeadIs(mode, a);
      HeadOff(Head(mode, a), a.packet.payload);
      assert HeadSize(mode) % 2 == 0;
      head := WizRecvData(HeadSize(mode), Head(mode, a) + a.packet.payload, a.pad, n);
    }

    /** Reads the header of the next packet. */
    method TakeHeader() returns (head: seq<byte>)
      requires Valid() && sockRemainedSize == 0 && words != []
      modifies this
      ensures CursorOk() && old(arrivals) <= arrivals && got == old(got) + [[]]
      ensures sockPackInfo == PACK_FIRST && sr == old(sr) && nonblock == old(nonblock)
      ensures |got| <= |old(arrivals)| && sockRemainedSize == |arrivals[|old(got)|].packet.payload|
      ensures Sound(arrivals[|old(got)|]) && head == Head(mode, arrivals[|old(got)|])
    {
      hide Words, QueueWords, Head, HeadSize, ToCome, GotOk, FifoInv, PacketWords, Sound, Join;
      ghost var n, before := |got|, got;
      Idle(mode, words, arrivals, n, sockPackInfo & PACK_FIFOBYTE != 0, sockRemainedByte);
      NextArrival(mode, arrivals, n);
      ghost var a := arrivals[n];
      HeadIs(mode, a);
      head := PopHead(a, n + 1);
      sockRemainedSize := Join(head[HeadSize(mode) - 2], head[HeadSize(mode) - 1]);
      sockPackInfo := PACK_FIRST;
      got := got + [[]];
      HeaderKeeps(old(arrivals), arrivals, before);
      Uncarried(mode, words, arrivals, n + 1, sockRemainedSize, sockRemainedByte);
    }

    /**
     The copy both `recv` and `recvfrom` make: a carried byte first, then words; and the flags for what is
     left. It hands out the next `len` payload bytes, or all that are left if those are fewer.
     */
    method Fragment(len: nat) returns (data: seq<byte>)
      requires CursorOk() && got != [] && (sockPackInfo & PACK_FIFOBYTE != 0 ==> len > 0)
      modifies this
      ensures Valid() && old(arrivals) <= arrivals
      ensures |data| == if len < old(sockRemainedSize) then len else old(sockRemainedSize)
      ensures sr == old(sr) && nonblock == old(nonblock)
      ensures sockRemainedSize > 0 ==> (sockPackInfo & PACK_FIRST != 0 <==> old(sockPackInfo) & PACK_FIRST != 0)
      ensures got == Extend(old(got), data) && sockRemainedSize == old(sockRemainedSize) - |data|
    {
      hide Words, QueueWords, ToCome, GotOk, FifoInv, Extend;
      ghost var n, before, remained := |got|, got, sockRemainedSize;
      var len' := if len > sockRemainedSize then sockRemainedSize else len;
      var recvsize := len';
      ghost var carried := sockPackInfo & PACK_FIFOBYTE != 0;
      ghost var front := Opened(mode, words, arrivals, n, remained, carried, sockRemainedByte);
      ghost var rest := ToCome(arrivals, n, remained);
      data := [];
      if sockPackInfo & PACK_FIFOBYTE != 0 {
        data := [sockRemainedByte];
        sockPackInfo := sockPackInfo & !PACK_FIFOBYTE;
        recvsize := recvsize - 1;
      }
      var copied := WizRecvData(recvsize, front, arrivals[n - 1].pad, n);
      data := data + copied;
      var left := sockRemainedSize - len';
      Progress(old(arrivals), arrivals, n, remained, len', rest, carried, data, front, recvsize);
      sockRemainedSize := left;
      got := Extend(got, data);
      ExtendKeeps(old(arrivals), arrivals, before, remained, len', rest);
      Reclosed(mode, words, arrivals, n, left, recvsize, sockRemainedByte, front);
      SetFlags(left, recvsize % 2 == 1);
    }

    /** PACK_REMAINED iff payload is left, PACK_FIFOBYTE iff a byte of it is in the host's hand. */
    method SetFlags(left: nat, odd: bool)
      requires sockPackInfo & PACK_FIFOBYTE == 0
      modifies this`sockPackInfo
      ensures sockPackInfo & PACK_REMAINED != 0 <==> left > 0
      ensures sockPackInfo == PACK_COMPLETED <==> left == 0
      ensures sockPackInfo & PACK_FIFOBYTE != 0 <==> left > 0 && odd
      ensures left > 0 ==> (sockPackInfo & PACK_FIRST != 0 <==> old(sockPackInfo) & PACK_FIRST != 0)
    {
      if left != 0 {
        sockPackInfo := sockPackInfo | PACK_REMAINED;
        if odd {
          sockPackInfo := sockPackInfo | PACK_FIFOBYTE;
        }
      } else {
        sockPackInfo := PACK_COMPLETED;
      }
    }

    /**
     `recv` on a TCP socket without alignment or byte swap. It hands out the next bytes of the segment in
     progress, else of the next segment; `taken` tells whether it got that far.
     */
    method Recv(len: nat, rxMax: nat, drained: seq<bool>)
      returns (ret: SocketState.Outcome, data: seq<byte>, ghost taken: bool, ghost seen: Glimpse)
      requires Valid() && rxMax > 0
      modifies this
      ensures Valid() && old(arrivals) <= arrivals && |got| <= |arrivals|
      ensures ret == Done(SOCKERR_SOCKMODE) <==> mode != TCP
      ensures ret == Done(SOCKERR_DATALEN) <==> mode == TCP && len == 0
      ensures mode == TCP && len > 0 && old(sockRemainedSize) > 0 ==> taken
      ensures taken && old(sockRemainedSize) == 0 ==> |old(got)| < |arrivals|
      ensures taken ==>
        var first := old(sockRemainedSize) == 0;
        var next := if first then |arrivals[|old(got)|].packet.payload| else old(sockRemainedSize) as int;
        var most := if rxMax < len then rxMax else len;
        && got == (if first then old(got) + [data] else Extend(old(got), data))
        && (sockRemainedSize > 0 ==>
             (sockPackInfo & PACK_FIRST != 0 <==> first || old(sockPackInfo) & PACK_FIRST != 0))
        && ret == Done(|data|) && |data| == if most < next then most else next
      ensures !taken ==> data == [] && got == old(got)
      ensures ret != Done(SOCKERR_SOCKSTATUS) ==> nonblock == old(nonblock)
      ensures ret == Done(SOCKERR_SOCKSTATUS) ==> sr == CLOSED && !nonblock
      ensures ret == Blocked && drained != [] ==> !old(nonblock) && old(words) == []
      ensures !taken && ret.Done? ==> ret.code in {SOCK_BUSY, SOCKERR_SOCKSTATUS, SOCKERR_SOCKMODE, SOCKERR_DATALEN}
      ensures !taken && ret == Done(SOCK_BUSY) ==> old(nonblock) && old(words) == []
      ensures ret == Done(SOCKERR_SOCKSTATUS) ==> LetGo(old(sr), old(words), seen, sr, words)
      // with no segment in progress a socket `recv` refuses is given up, and all that is in the FIFO is dropped
      ensures mode == TCP && len > 0 && old(sockRemainedSize) == 0 && Refused(old(sr)) && drained != [] ==>
        ret == Done(SOCKERR_SOCKSTATUS) && seen.status != CLOSE_WAIT
      ensures ret == Done(SOCKERR_SOCKSTATUS) && old(words) != [] ==> seen.status != CLOSE_WAIT
      ensures ret == Done(SOCKERR_SOCKSTATUS) ==> |words| >= |old(words)| && (Ended(old(sr)) ==> words == old(words))
    {
      hide FifoInv, GotOk, Words, QueueWords, ToCome, Extend, Head, LetGo;
      CursorFacts(mode, words, arrivals, |got|, sockRemainedSize, sockPackInfo & PACK_FIFOBYTE != 0, sockRemainedByte);
      GotBound(arrivals, got, sockRemainedSize);
      taken, data, seen := false, [], Glimpse(CLOSED, 0, 0);
      if mode != TCP {
        ret := Done(SOCKERR_SOCKMODE);
        return;
      }
      if len == 0 {
        ret := Done(SOCKERR_DATALEN);
        return;
      }
      var size := if rxMax < len then rxMax else len;
      if sockRemainedSize == 0 {
        var go;
        go, ret, seen := AwaitSegment(drained);
        GotBound(arrivals, got, sockRemainedSize);
        if !go {
          if ret == Done(SOCKERR_SOCKSTATUS) {
            WhatIsLetGo(old(sr), old(words), seen, sr, words);
          }
          return;
        }
        var head := TakeHeader();
      }
      data := Fragment(size);
      ExtendNew(old(got), data);
      GotBound(arrivals, got, sockRemainedSize);
      taken, ret := true, Done(|data|);
    }

    /** `recvfrom` on a UDP socket: the same, the first fragment of a datagram naming its sender. */
    method RecvFrom(len: nat, patience: nat)
      returns (ret: SocketState.Outcome, data: seq<byte>, addr: seq<byte>, port: u16, ghost taken: bool)
      requires Valid()
      modifies this
      ensures Valid() && old(arrivals) <= arrivals && |got| <= |arrivals|
      ensures ret == Done(SOCKERR_SOCKMODE) <==> mode != UDP
      ensures ret == Done(SOCKERR_DATALEN) <==> mode == UDP && len == 0
      ensures mode == UDP && len > 0 && old(sockRemainedSize) > 0 ==> taken
      ensures taken && old(sockRemainedSize) == 0 ==> |old(got)| < |arrivals|
      ensures taken ==>
        var first := old(sockRemainedSize) == 0;
        var next := if first then |arrivals[|old(got)|].packet.payload| else old(sockRemainedSize) as int;
        && got == (if first then old(got) + [data] else Extend(old(got), data))
        && (first ==> addr == arrivals[|old(got)|].packet.addr && port == arrivals[|old(got)|].packet.port)
        && (sockRemainedSize > 0 ==>
             (sockPackInfo & PACK_FIRST != 0 <==> first || old(sockPackInfo) & PACK_FIRST != 0))
        && ret == Done(|data|) && |data| == if len < next then len else next
      ensures !taken ==> data == [] && got == old(got)
      ensures nonblock == old(nonblock)
      ensures ret == Blocked && patience > 0 ==> !old(nonblock) && old(words) == []
      ensures !taken && ret.Done? ==> ret.code in {SOCK_BUSY, SOCKERR_SOCKCLOSED, SOCKERR_SOCKMODE, SOCKERR_DATALEN}
      ensures !taken && ret == Done(SOCK_BUSY) ==> old(nonblock) && old(words) == []
      ensures ret == Done(SOCKERR_SOCKCLOSED) ==> sr == CLOSED
    {
      hide FifoInv, GotOk, Words, QueueWords, ToCome, Extend, Head;
      CursorFacts(mode, words, arrivals, |got|, sockRemainedSize, sockPackInfo & PACK_FIFOBYTE != 0, sockRemainedByte);
      GotBound(arrivals, got, sockRemainedSize);
      taken, data, addr, port := false, [], [], 0;
      if mode != UDP {
        ret := Done(SOCKERR_SOCKMODE);
        return;
      }
      if len == 0 {
        ret := Done(SOCKERR_DATALEN);
        return;
      }
      if sockRemainedSize == 0 {
        var go;
        go, ret := AwaitDatagram(patience);
        GotBound(arrivals, got, sockRemainedSize);
        if !go { return; }
        var head := TakeHeader();
        HeadIs(mode, arrivals[|old(got)|]);
        addr, port := head[..4], Join(head[4], head[5]);
      }
      data := Fragment(len);
      ExtendNew(old(got), data);
      GotBound(arrivals, got, sockRemainedSize);
      taken, ret := true, Done(|data|);
    }

    /**
     For every sequence of read lengths, what the reads return, put together, is the payload bytes in the
     order of their arrival, from where the reads began: `Flat(got)` is all that was ever returned, and
     FlatIsPrefix relates it to what arrived.
     */
    method ReadMany(lens: seq<nat>, rxMax: nat, drained: seq<bool>) returns (out: seq<byte>)
      requires Valid() && rxMax > 0
      modifies this
      ensures Valid() && Flat(got) == old(Flat(got)) + out
    {
      hide FifoInv, GotOk, Words, QueueWords, ToCome, Extend, Flat, LetGo;
      out := [];
      CursorFacts(mode, words, arrivals, |got|, sockRemainedSize, sockPackInfo & PACK_FIFOBYTE != 0, sockRemainedByte);
      for i := 0 to |lens|
        invariant Valid() && FifoMode(mode) && (sockRemainedSize > 0 ==> got != [])
        invariant Flat(got) == old(Flat(got)) + out
      {
        ghost var before := got;
        var ret, data;
        ghost var taken;
        if mode == TCP {
          ghost var seen;
          ret, data, taken, seen := Recv(lens[i], rxMax, drained);
        } else {
          var addr, port;
          ret, data, addr, port, taken := RecvFrom(lens[i], |drained|);
        }
        FlatGrows(before, data);
        CursorFacts(mode, words, arrivals, |got|, sockRemainedSize, sockPackInfo & PACK_FIFOBYTE != 0,
                    sockRemainedByte);
        out := out + data;
      }
    }
  }
}
