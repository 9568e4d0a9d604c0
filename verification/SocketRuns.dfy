/**
 Whole runs: any sequence of socket calls on any sockets, the chip running between and within them.
 A caller who only keeps a record of what the calls returned knows exactly what the chip has been given
 and what it has given back.
 */
module SocketRuns {
  import opened Arith
  import opened Wire
  import opened ChannelModel
  import opened SocketState
  import opened SocketLayer
  import opened SocketEffects

  /**
   What the calls on one socket have returned since it was last opened: the bytes `send` or `sendto`
   reported accepted, for `sendto` also an entry a call with the address and port given to it, the bytes `recv`
   returned, and the payload bytes `recvfrom` returned, an entry a packet.
   */
  datatype Record = Record(
    stream: bool, sent: seq<byte>, sentTo: seq<Datagram>, received: seq<byte>, datagrams: seq<seq<byte>>)

  function Payloads(ds: seq<Datagram>): seq<byte>
  {
    if ds == [] then [] else Payloads(ds[..|ds| - 1]) + ds[|ds| - 1].payload
  }

  lemma PayloadsMore(ds: seq<Datagram>, d: Datagram)
    ensures Payloads(ds + [d]) == Payloads(ds) + d.payload
  {
    assert (ds + [d])[..|ds|] == ds;
  }

  /** The record says what the socket's streams hold. */
  predicate Reads(v: View, record: Record)
  {
    && record.sent == v.h.accepted && record.datagrams == v.got
    && (record.stream <==> v.r.mode == TCP)
    && (record.stream ==> record.received == v.h.delivered)
    && record.sentTo == v.out && (!record.stream ==> Payloads(record.sentTo) == record.sent)
  }

  ghost predicate Agrees(api: SocketApi, sn: nat, record: Record)
    requires sn < |api.chan|
    reads api, api.chan[sn]
  {
    api.Wired() && Reads(ViewOf(api, sn), record)
  }

  /** The record after a call, from what the call handed back; `first` tells that no packet was in progress. */
  function Noted(record: Record, f: Fit, first: bool, call: Call, res: Result): Record
  {
    var code := if res.ret.Done? then res.ret.code else SOCK_BUSY;
    match call
    case OpenCall(protocol, port, flag) =>
      if res.ret.Done? && code >= 0 then Record(protocol == TCP, [], [], [], []) else record
    case SendCall(buf) => if 0 < code <= |buf| then record.(sent := record.sent + buf[..code]) else record
    case RecvCall(len) => record.(received := record.received + res.data)
    case SendToCall(buf, addr, port) =>
      if code > 0 || code == SOCKERR_TIMEOUT then
        var data := buf[..Least(|buf|, f.txSize)];
        record.(sent := record.sent + data, sentTo := record.sentTo + [Datagram(Endpoint(addr, port), data)])
      else record
    case RecvFromCall(len) =>
      if res.taken then
        record.(datagrams := if first then record.datagrams + [res.data] else Extend(record.datagrams, res.data))
      else if code == SOCKFATAL_PACKLEN then record.(datagrams := record.datagrams + [[]])
      else record
    case _ => record
  }

  /** A record kept that way goes on saying what the streams hold. */
  lemma NotedReads(f: Fit, v: View, w: View, call: Call, res: Result, record: Record)
    requires Effect(f, v, w, call, res) && Reads(v, record) && !(call.SendToCall? && res.ret.Blocked?)
    ensures Reads(w, Noted(record, f, v.remained == 0, call, res))
  {
    hide Payloads, Extend, GaveUp, Later, Answer, Waited, FlagsOk;
    if call.SendToCall? {
      PayloadsMore(record.sentTo,
                   Datagram(Endpoint(call.addr, call.destPort), call.buf[..Least(|call.buf|, f.txSize)]));
    } else if call.OpenCall? {
      assert Payloads([]) == [] by { NoPayloads(); }
    }
  }

  lemma NoPayloads()
    ensures Payloads([]) == []
  {
  }

  /** The record read against the chip's own history. */
  lemma RecordMeaning(api: SocketApi, sn: nat, record: Record)
    requires sn < |api.chan| && api.SocketOk(sn) && Agrees(api, sn, record)
    // the bytes the chip has taken for transmission are the first of those reported accepted
    ensures api.chan[sn].h.taken <= record.sent
    // the datagrams the chip was made to send are those of the calls, one each, in order, to the addresses given
    ensures api.chan[sn].out == record.sentTo && (!record.stream ==> record.sent == Payloads(record.sentTo))
    // the bytes returned by recv are the first of those the chip has received
    ensures record.stream ==> record.received <= api.chan[sn].h.arrived
    // while a datagram socket is open, every packet but the last was returned whole and in order, and of the
    // last what is missing is as long as the host believes
    ensures IsDatagram(api.chan[sn].r.mode) && api.chan[sn].r.sr != CLOSED ==>
      var packets, n := api.chan[sn].h.packets, |record.datagrams|;
      && n <= |packets|
      && (forall k :: 0 <= k < n - 1 ==> record.datagrams[k] == packets[k].payload)
      && (n > 0 ==> record.datagrams[n - 1] <= packets[n - 1].payload
                    && |record.datagrams[n - 1]| + api.sockRemainedSize[sn] == |packets[n - 1].payload|)
  {
    hide Stream, PacketOk;
    var c := api.chan[sn];
    TxCounts(c.r, c.h, c.TxRegion());
    RxCounts(c.r, c.h, c.RxRegion());
    if IsDatagram(c.r.mode) && c.r.sr != CLOSED {
      OpenDatagram(c.r, c.h, sn in api.sockIsSending, api.sockRemainedSize[sn], api.got[sn]);
      RemainedBound(c.h, api.sockRemainedSize[sn], api.got[sn]);
    }
  }

  // ----- all sockets together -----

  /** Every socket's invariant holds, and the sockets' windows are disjoint. */
  ghost predicate AllOk(api: SocketApi)
    reads api, api.chan, api.txmem, api.rxmem
  {
    && (forall sn :: 0 <= sn < |api.chan| ==> api.chan[sn].txmem == api.txmem && api.chan[sn].rxmem == api.rxmem)
    && (forall i, j :: 0 <= i < |api.chan| && 0 <= j < |api.chan| && i != j ==> api.Apart(i, j))
    && (forall sn :: 0 <= sn < |api.chan| ==> api.SocketOk(sn))
  }

  ghost predicate AllAgree(api: SocketApi, records: seq<Record>)
    reads api, api.chan
  {
    |records| == |api.chan| && forall sn :: 0 <= sn < |api.chan| ==> Agrees(api, sn, records[sn])
  }

  predicate CallOk(api: SocketApi, sn: nat, call: Call)
  {
    && sn < |api.chan|
    && (call.SendCall? ==> |call.buf| < 0x1_0000)
    && (call.SendToCall? ==> |call.buf| < 0x1_0000)
  }

  /** Any one call. */
  method Perform(api: SocketApi, sn: nat, call: Call, patience: nat) returns (ret: Outcome, ghost res: Result)
    requires CallOk(api, sn, call) && api.SocketOk(sn)
    modifies api, api.Foot(sn)
    ensures api.SocketOk(sn) && OnlyOwn(old(api.Vars()), api.Vars(), sn) && api.Elsewhere(sn) == old(api.Elsewhere(sn))
    ensures res.ret == ret && Effect(FitOf(api, sn), old(ViewOf(api, sn)), ViewOf(api, sn), call, res)
  {
    hide TxInv, RxInv, StreamInv, Consistent, FlagsAgree, OnlyOwn, Effect;
    if call.SendCall? || call.RecvCall? {
      ret, res := Transfer(api, sn, call, patience);
    } else if call.SendToCall? || call.RecvFromCall? {
      ret, res := Exchange(api, sn, call, patience);
    } else if call.ConnectCall? || call.DisconnectCall? {
      ret := Handshake(api, sn, call, patience);
      res := Coded(ret);
    } else {
      var code := Manage(api, sn, call);
      ret := Done(code);
      res := Coded(ret);
    }
  }

  /** The socket's registers and its TX and RX rings are what they were. */
  twostate predicate Untouched(c: Channel)
    reads c, c.txmem, c.rxmem
  {
    && c.Geometry() && c.r == old(c.r) && c.h == old(c.h)
    && c.TxRegion() == old(c.TxRegion()) && c.RxRegion() == old(c.RxRegion())
  }

  /** All sockets. */
  ghost function Views(api: SocketApi): (vs: seq<View>)
    requires api.Wired()
    reads api, api.chan
    ensures |vs| == |api.chan|
  {
    seq(|api.chan|, sn requires 0 <= sn < |api.chan| && api.Wired() reads api, api.chan => ViewOf(api, sn))
  }

  function Fits(api: SocketApi): (fs: seq<Fit>)
    ensures |fs| == |api.chan| && forall sn :: 0 <= sn < |fs| ==> fs[sn] == FitOf(api, sn)
  {
    seq(|api.chan|, sn requires 0 <= sn < |api.chan| => FitOf(api, sn))
  }

  /** One call moves one socket as it should, and no other at all. */
  ghost predicate Moves(fs: seq<Fit>, vs: seq<View>, ws: seq<View>, sn: nat, call: Call, res: Result)
  {
    && sn < |fs| == |vs| == |ws| && Effect(fs[sn], vs[sn], ws[sn], call, res)
    && forall j :: 0 <= j < |vs| && j != sn ==> ws[j] == vs[j]
  }

  /** One call on one socket keeps every socket's invariant, and every other socket's streams and variables. */
  method Step(api: SocketApi, sn: nat, call: Call, patience: nat) returns (ret: Outcome, ghost res: Result)
    requires CallOk(api, sn, call) && AllOk(api)
    modifies api, api.Foot(sn)
    ensures AllOk(api) && OnlyOwn(old(api.Vars()), api.Vars(), sn)
    ensures forall j :: 0 <= j < |api.chan| && j != sn ==> Untouched(api.chan[j])
    ensures old(api.Wired()) && api.Wired() && res.ret == ret
    ensures Moves(Fits(api), old(Views(api)), Views(api), sn, call, res)
  {
    hide TxInv, RxInv, StreamInv, Consistent, FlagsAgree, OnlyOwn, Effect;
    assert api.SocketOk(sn) && api.Wired();
    ret, res := Perform(api, sn, call, patience);
    forall j | 0 <= j < |api.chan| && j != sn
      ensures api.SocketOk(j) && ViewOf(api, j) == old(ViewOf(api, j)) && Untouched(api.chan[j])
    {
      var c, o := api.chan[sn], api.chan[j];
      assert api.Apart(sn, j);
      WindowKept(old(c.txmem[..]), c.txmem[..], c.txBase, c.txSize, o.txBase, o.txSize);
      WindowKept(old(c.rxmem[..]), c.rxmem[..], c.rxBase, c.rxSize, o.rxBase, o.rxSize);
      OwnRest(old(api.Vars()), api.Vars(), sn, j);
      assert old(api.SocketOk(j));
      assert o.TxRegion() == old(o.TxRegion()) && o.RxRegion() == old(o.RxRegion());
      assert o.Valid() && api.CursorOk(j);
    }
  }

  /** The states a run goes through: each call in turn moves its socket as it should. */
  ghost predicate Follows(fs: seq<Fit>, script: seq<(nat, Call)>, results: seq<Result>, trace: seq<seq<View>>)
  {
    && |results| <= |script| && |trace| == |results| + 1
    && forall i :: 0 <= i < |results| ==> Moves(fs, trace[i], trace[i + 1], script[i].0, script[i].1, results[i])
  }

  /** The calls have all returned, but perhaps the last. */
  predicate Returned(results: seq<Result>, blocked: bool)
  {
    && (blocked ==> results != [] && results[|results| - 1].ret.Blocked?)
    && forall i :: 0 <= i < |results| - (if blocked then 1 else 0) ==> results[i].ret.Done?
  }

  /** The records a caller has kept along such a run. */
  ghost function Kept(fs: seq<Fit>, script: seq<(nat, Call)>, results: seq<Result>, trace: seq<seq<View>>,
          records: seq<Record>): (r: seq<Record>)
    requires Follows(fs, script, results, trace) && |records| == |fs|
    ensures |r| == |fs|
    decreases |results|
  {
    if results == [] then records else
    var n := |results| - 1;
    var before := Kept(fs, script, results[..n], trace[..n + 1], records);
    var (sn, call) := script[n];
    assert Moves(fs, trace[n], trace[n + 1], sn, call, results[n]);
    before[sn := Noted(before[sn], fs[sn], trace[n][sn].remained == 0, call, results[n])]
  }

  ghost predicate AllRead(vs: seq<View>, records: seq<Record>)
  {
    |vs| == |records| && forall sn :: 0 <= sn < |vs| ==> Reads(vs[sn], records[sn])
  }

  /** Along every run the records go on saying what every socket's streams hold. */
  lemma {:induction false} KeptReads(fs: seq<Fit>, script: seq<(nat, Call)>, results: seq<Result>,
          trace: seq<seq<View>>, records: seq<Record>)
    requires Follows(fs, script, results, trace) && |records| == |fs| && AllRead(trace[0], records)
    requires forall i :: 0 <= i < |results| ==> !(script[i].1.SendToCall? && results[i].ret.Blocked?)
    ensures AllRead(trace[|results|], Kept(fs, script, results, trace, records))
    decreases |results|
  {
    hide Effect, Reads, Noted;
    if results == [] {
    } else {
      var n := |results| - 1;
      KeptReads(fs, script, results[..n], trace[..n + 1], records);
      var before := Kept(fs, script, results[..n], trace[..n + 1], records);
      var (sn, call) := script[n];
      assert Moves(fs, trace[n], trace[n + 1], sn, call, results[n]);
      NotedReads(fs[sn], trace[n][sn], trace[n + 1][sn], call, results[n], before[sn]);
    }
  }

  /**
   Any sequence of calls on any sockets. It runs to its end or to a call that is still polling the chip when the
   observation ends. Every call in it has moved its socket as it should and left the others alone, and the records
   kept from what the calls returned say what every socket's streams hold.
   */
  method Run(api: SocketApi, script: seq<(nat, Call)>, patience: nat, ghost records: seq<Record>)
    returns (blocked: bool, ghost results: seq<Result>, ghost trace: seq<seq<View>>)
    requires forall i :: 0 <= i < |script| ==> CallOk(api, script[i].0, script[i].1)
    requires AllOk(api) && AllAgree(api, records) && api.Wired()
    modifies api, api.chan, api.txmem, api.rxmem
    ensures AllOk(api) && api.Wired() && Follows(Fits(api), script, results, trace)
    ensures trace[0] == old(Views(api)) && trace[|results|] == Views(api)
    ensures Returned(results, blocked) && (!blocked ==> |results| == |script|)
    // unless it is a sendto that is still waiting for its SENDOK
    ensures !blocked || !script[|results| - 1].1.SendToCall? ==>
      AllAgree(api, Kept(Fits(api), script, results, trace, records))
  {
    hide TxInv, RxInv, StreamInv, Consistent, FlagsAgree, OnlyOwn, Reads, Effect,
         SocketApi.CursorOk, SocketApi.SocketOk, SocketApi.Apart;
    blocked, results, trace := false, [], [Views(api)];
    assert AllRead(trace[0], records);
    var i := 0;
    while i < |script| && !blocked
      invariant AllOk(api) && api.Wired() && |results| == i <= |script|
      invariant Follows(Fits(api), script, results, trace) && Returned(results, blocked)
      invariant trace[0] == old(Views(api)) && trace[i] == Views(api)
    {
      var (sn, call) := script[i];
      ghost var results0, trace0 := results, trace;
      ghost var res;
      var ret;
      ret, res := Step(api, sn, call, patience);
      results, trace := results + [res], trace + [Views(api)];
      Followed(Fits(api), script, results0, trace0, res, Views(api));
      blocked := ret.Blocked?;
      i := i + 1;
    }
    if !blocked || !script[i - 1].1.SendToCall? {
      KeptReads(Fits(api), script, results, trace, records);
      AllAgreeIs(api, Kept(Fits(api), script, results, trace, records));
    }
  }

  lemma Followed(fs: seq<Fit>, script: seq<(nat, Call)>, results: seq<Result>, trace: seq<seq<View>>,
          res: Result, vs: seq<View>)
    requires Follows(fs, script, results, trace) && |results| < |script|
    requires var (sn, call) := script[|results|]; Moves(fs, trace[|results|], vs, sn, call, res)
    ensures Follows(fs, script, results + [res], trace + [vs])
  {
    hide Moves;
  }

  lemma AllAgreeIs(api: SocketApi, records: seq<Record>)
    requires api.Wired()
    ensures AllAgree(api, records) <==> AllRead(Views(api), records)
  {
    hide Reads;
    assert forall sn :: 0 <= sn < |api.chan| ==> Views(api)[sn] == ViewOf(api, sn);
  }
}
