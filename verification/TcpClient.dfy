/** The TCP client of usr_tcpc.c on top of the socket calls. */
module TcpClientModel {
  import opened Arith
  import opened Wire
  import opened ChannelModel
  import opened SocketState
  import opened SocketLayer
  import opened SocketEffects

  class TcpClient {
    const api: SocketApi
    const sn: nat
    const destIp: u32
    const destPort: u16
    const localPort: u16
    var isEstablished: bool
    var resumeTcpClient: bool

    constructor (api: SocketApi, sn: nat, destIp: u32, destPort: u16, localPort: u16)
      ensures this.api == api && this.sn == sn && !isEstablished && !resumeTcpClient
    {
      this.api, this.sn, this.destIp, this.destPort, this.localPort := api, sn, destIp, destPort, localPort;
      isEstablished, resumeTcpClient := false, false;
    }

    /**
     Sends a buffer of any length in as many pieces as it takes. The result 0 means that exactly the whole
     buffer, in order, has been appended to what the chip is to transmit; in every other case it is the
     first k bytes.
     */
    method Send(buff: seq<byte>, patience: nat) returns (ret: Outcome, ghost k: nat)
      requires sn < |api.chan| && api.SocketOk(sn) && |buff| < 0x1_0000
      modifies api, api.Foot(sn)
      ensures api.SocketOk(sn) && k <= |buff|
      ensures OnlyOwn(old(api.Vars()), api.Vars(), sn) && api.Elsewhere(sn) == old(api.Elsewhere(sn))
      ensures ret == Done(0) ==> api.chan[sn].h.accepted == old(api.chan[sn].h.accepted) + buff
      ensures api.chan[sn].h.accepted == old(api.chan[sn].h.accepted) + buff[..k]
      ensures ret.Done? ==> ret.code <= 0 && (ret.code < 0 ==> api.chan[sn].r.sr == CLOSED)
    {
      hide TxInv, RxInv, StreamInv, Consistent, FlagsAgree, OnlyOwn;
      ghost var v0 := api.Vars();
      OnlyOwnSelf(v0, sn);
      k := 0;
      var sentsize := 0;
      var polls := patience;
      assert api.chan[sn].h.accepted + buff[..0] == api.chan[sn].h.accepted;
      while |buff| != sentsize
        invariant k == sentsize <= |buff|
        invariant api.SocketOk(sn) && OnlyOwn(v0, api.Vars(), sn) && api.Elsewhere(sn) == old(api.Elsewhere(sn))
        invariant api.chan[sn].h.accepted == old(api.chan[sn].h.accepted) + buff[..sentsize]
        decreases |buff| - sentsize, polls
      {
        ghost var v1, accepted := api.Vars(), api.chan[sn].h.accepted;
        var got, seen := api.Send(sn, buff[sentsize..], patience);
        ghost var v2 := api.Vars();
        OnlyOwnTwice(v0, v1, v2, sn);
        if got.Blocked? {
          return Blocked, k;
        }
        if got.code < 0 {
          var _ := api.Close(sn);
          OnlyOwnTwice(v0, v2, api.Vars(), sn);
          return got, k;
        }
        NextPiece(old(api.chan[sn].h.accepted), buff, sentsize, got.code);
        sentsize := sentsize + got.code;
        k := sentsize;
        if got.code == 0 {
          if polls == 0 {
            return Blocked, k;
          }
          polls := polls - 1;
        }
      }
      assert buff[..|buff|] == buff;
      ret := Done(0);
    }

    /**
     One turn of the client's loop: what it does next depends on Sn_SR alone. `con` is the CON interrupt
     bit; received data is only announced, so the streams stay as they are unless a new socket is opened.
     A client that was told to stay closed does stay closed. `announced` is what the callback for received data
     is passed, 0 if it is not called: in CLOSE_WAIT the size is not looked at.
     */
    method Loop(con: bool, patience: nat) returns (ret: Outcome, announced: nat)
      requires sn < |api.chan| && api.SocketOk(sn)
      modifies this, api, api.Foot(sn)
      ensures api.SocketOk(sn) && resumeTcpClient == old(resumeTcpClient)
      ensures OnlyOwn(old(api.Vars()), api.Vars(), sn) && api.Elsewhere(sn) == old(api.Elsewhere(sn))
      ensures !old(resumeTcpClient) && old(api.chan[sn].r.sr) == CLOSED ==>
        ret == Done(1) && !isEstablished && api.chan[sn].r.sr == CLOSED
      ensures isEstablished && !old(isEstablished) ==> Later(ESTABLISHED, api.chan[sn].r.sr)
      ensures con && old(api.chan[sn].r.mode) == TCP && old(api.chan[sn].r.sr) == ESTABLISHED == api.chan[sn].r.sr ==>
        isEstablished
      ensures old(api.chan[sn].r.mode) == TCP && old(api.chan[sn].r.sr) == INIT && ret == Done(1) ==>
        api.chan[sn].r.sr == ESTABLISHED
      ensures old(api.chan[sn].r.mode) == TCP && old(api.chan[sn].r.sr) == CLOSE_WAIT ==>
        && announced == 0 && Refused(api.chan[sn].r.sr)
        && (!old(resumeTcpClient) && ret == Done(1) ==> api.chan[sn].r.sr == CLOSED)
        && (ret == Done(SOCK_BUSY) ==> sn in old(api.sockIoMode))
        && (ret == Blocked ==> sn !in old(api.sockIoMode))
      ensures !old(resumeTcpClient) && old(api.chan[sn].r.mode) == TCP ==>
        && ret in {Done(1), Done(SOCK_BUSY), Done(SOCKERR_TIMEOUT), Done(SOCKERR_SOCKCLOSED), Done(SOCKERR_IPINVALID),
                   Done(SOCKERR_PORTZERO), Blocked}
        && TimedOut(old(api.chan[sn].irs), api.chan[sn].irs, ret == Done(SOCKERR_TIMEOUT))
      // of a connection that stays up all that waits is announced, unless more arrives meanwhile
      ensures old(api.chan[sn].r.mode) == TCP && old(api.chan[sn].r.sr) == ESTABLISHED == api.chan[sn].r.sr ==>
        && ret == Done(1)
        && (announced >= old(api.Waiting(sn)) || old(|api.chan[sn].h.arrived|) < |api.chan[sn].h.arrived|)
      ensures announced > 0 ==> Later(ESTABLISHED, api.chan[sn].r.sr) && announced <= api.Waiting(sn)
      ensures old(api.chan[sn].r.mode) == TCP ==> api.chan[sn].r.mode == TCP
      ensures old(resumeTcpClient) && old(api.chan[sn].r.sr) == CLOSED ==>
        && !isEstablished
        && (ret == Done(1) ==> api.chan[sn].r.sr == INIT && api.chan[sn].r.mode == TCP
                               && api.chan[sn].h.accepted == api.chan[sn].h.delivered == []
                               && sn !in api.sockIoMode && (localPort != 0 ==> api.chan[sn].port == localPort))
      ensures !old(resumeTcpClient) ==>
        && api.chan[sn].h.accepted == old(api.chan[sn].h.accepted)
        && api.chan[sn].h.delivered == old(api.chan[sn].h.delivered)
    {
      hide TxInv, RxInv, StreamInv, Consistent, FlagsAgree, OnlyOwn, ChipRun, FlagsOk, ConnectEffect, TimedOut;
      var sr := api.SnSr(sn);
      ChipRunKeeps(old(api.chan[sn].r), old(api.chan[sn].h), api.chan[sn].r, api.chan[sn].h);
      ghost var v := ViewOf(api, sn);
      ret, announced := Switch(sr, con, patience);
      NoTimeout(v.irs);
      if sr == INIT {
        Connected(v, ViewOf(api, sn), destIp, destPort, ret);
      }
    }

    /**
     What it does in each status: where it calls `connect` or `disconnect`, with the effect and the result of that
     call, SOCK_OK being the 1 it returns otherwise.
     */
    method Switch(sr: Status, con: bool, patience: nat) returns (ret: Outcome, announced: nat)
      requires sn < |api.chan| && api.SocketOk(sn) && sr == api.chan[sn].r.sr
      modifies this, api, api.Foot(sn)
      ensures api.SocketOk(sn) && resumeTcpClient == old(resumeTcpClient)
      ensures OnlyOwn(old(api.Vars()), api.Vars(), sn) && api.Elsewhere(sn) == old(api.Elsewhere(sn))
      ensures isEstablished == (if sr == ESTABLISHED then old(isEstablished) || con
                                else if sr == CLOSED then false else old(isEstablished))
      ensures sr != ESTABLISHED ==> announced == 0
      ensures sr == ESTABLISHED ==>
        && ret == Done(1) && Later(ESTABLISHED, api.chan[sn].r.sr) && announced <= api.Waiting(sn)
        && (announced >= old(api.Waiting(sn)) || old(|api.chan[sn].h.arrived|) < |api.chan[sn].h.arrived|)
        && StreamsKept(old(ViewOf(api, sn)), ViewOf(api, sn)) && api.chan[sn].irs == old(api.chan[sn].irs)
        && api.chan[sn].r.mode == old(api.chan[sn].r.mode)
      ensures sr == CLOSE_WAIT ==>
        Effect(FitOf(api, sn), old(ViewOf(api, sn)), ViewOf(api, sn), DisconnectCall, Coded(ret))
      ensures sr == INIT ==>
        Effect(FitOf(api, sn), old(ViewOf(api, sn)), ViewOf(api, sn), ConnectCall(destIp, destPort), Coded(ret))
      ensures sr == CLOSED && old(resumeTcpClient) ==>
        && ret in {Done(1), Done(SOCKERR_SOCKINIT)}
        && (ret == Done(1) ==> api.chan[sn].r.sr == INIT && api.chan[sn].r.mode == TCP
                               && api.chan[sn].h.accepted == api.chan[sn].h.delivered == []
                               && sn !in api.sockIoMode && (localPort != 0 ==> api.chan[sn].port == localPort))
        && (ret != Done(1) ==> api.chan[sn].r.sr == CLOSED && api.chan[sn].r.mode == old(api.chan[sn].r.mode))
      ensures sr !in {ESTABLISHED, CLOSE_WAIT, INIT, CLOSED} || (sr == CLOSED && !old(resumeTcpClient)) ==>
        ret == Done(1) && ViewOf(api, sn) == old(ViewOf(api, sn))
    {
      hide TxInv, RxInv, StreamInv, Consistent, FlagsAgree, OnlyOwn, ChipRun, FlagsOk, Effect, TimedOut;
      OnlyOwnSelf(api.Vars(), sn);
      ret, announced := Done(1), 0;
      match sr {
        case ESTABLISHED =>
          if con {
            isEstablished := true;
          }
          announced := Announce();
        case CLOSE_WAIT =>
          var code := Handshake(api, sn, DisconnectCall, patience);
          if code != Done(SOCK_OK) {
            return code, 0;
          }
        case INIT =>
          var code := Handshake(api, sn, ConnectCall(destIp, destPort), patience);
          if code != Done(SOCK_OK) {
            return code, 0;
          }
        case CLOSED =>
          isEstablished := false;
          if resumeTcpClient {
            ret := Restart();
          }
        case _ =>
      }
    }

    /** The number of bytes received, which is passed to the user's callback. */
    method Announce() returns (size: nat)
      requires sn < |api.chan| && api.SocketOk(sn)
      modifies api.Foot(sn)
      ensures api.SocketOk(sn) && api.Elsewhere(sn) == old(api.Elsewhere(sn))
      ensures api.chan[sn].r.mode == old(api.chan[sn].r.mode) && Later(old(api.chan[sn].r.sr), api.chan[sn].r.sr)
      ensures api.chan[sn].h.accepted == old(api.chan[sn].h.accepted)
      ensures api.chan[sn].h.delivered == old(api.chan[sn].h.delivered)
      ensures StreamsKept(old(ViewOf(api, sn)), ViewOf(api, sn))
      ensures size <= api.Waiting(sn) && api.chan[sn].irs == old(api.chan[sn].irs)
      ensures size >= old(api.Waiting(sn)) || old(|api.chan[sn].h.arrived|) < |api.chan[sn].h.arrived|
    {
      hide TxInv, RxInv, StreamInv, Consistent, FlagsAgree, ChipRun;
      size := api.SnRxRsr(sn);
      ChipRunKeeps(old(api.chan[sn].r), old(api.chan[sn].h), api.chan[sn].r, api.chan[sn].h);
    }

    /** A client that may resume opens its socket again; it is then in SOCK_INIT with fresh streams. */
    method Restart() returns (ret: Outcome)
      requires sn < |api.chan| && api.SocketOk(sn)
      modifies api, api.Foot(sn)
      ensures api.SocketOk(sn)
      ensures OnlyOwn(old(api.Vars()), api.Vars(), sn) && api.Elsewhere(sn) == old(api.Elsewhere(sn))
      ensures ret == Done(1) ==>
        && api.chan[sn].r.sr == INIT && api.chan[sn].r.mode == TCP
        && api.chan[sn].h.accepted == api.chan[sn].h.delivered == []
        && sn !in api.sockIoMode && (localPort != 0 ==> api.chan[sn].port == localPort)
      ensures ret in {Done(1), Done(SOCKERR_SOCKINIT)}
      ensures ret != Done(1) ==> api.chan[sn].r.sr == CLOSED && api.chan[sn].r.mode == old(api.chan[sn].r.mode)
    {
      hide TxInv, RxInv, StreamInv, Consistent, FlagsAgree, OnlyOwn, FlagsOk;
      ghost var v0 := api.Vars();
      FlagsByProtocol(TCP, 0, api.chan[sn].kind == W5500);
      var _ := api.Close(sn);
      ghost var v1 := api.Vars();
      var code := api.Socket(sn, TCP, localPort, 0x20);
      OnlyOwnTwice(v0, v1, api.Vars(), sn);
      if code != sn {
        return Done(code);
      }
      return Done(1);
    }

    /** TcpClientTakeRcv */
    method TakeRcv(len: nat, patience: nat) returns (ret: Outcome, data: seq<byte>, ghost seen: Glimpse)
      requires sn < |api.chan| && api.SocketOk(sn) && len < 0x1_0000
      modifies api, api.Foot(sn)
      ensures api.SocketOk(sn) && OnlyOwn(old(api.Vars()), api.Vars(), sn)
      ensures api.chan[sn].h.delivered == old(api.chan[sn].h.delivered) + data
      ensures old(api.chan[sn].r.mode) == TCP && len > 0 && Refused(old(api.chan[sn].r.sr)) ==>
        ret == Done(SOCKERR_SOCKSTATUS) && data == []
    {
      hide TxInv, RxInv, StreamInv, Consistent, FlagsAgree, OnlyOwn, GaveUp;
      ret, data, seen := api.Recv(sn, len, patience);
    }

    /**
     A peer that sends and closes before the loop looks: the client is not told of the data, and once the loop has
     returned it cannot be read any more, whatever the chip does meanwhile.
     */
    method TailIsLost(con: bool, len: nat, patience: nat)
      returns (ret: Outcome, announced: nat, taken: Outcome, data: seq<byte>)
      requires sn < |api.chan| && api.SocketOk(sn) && 0 < len < 0x1_0000
      requires api.chan[sn].r.mode == TCP && api.chan[sn].r.sr == CLOSE_WAIT
      modifies this, api, api.Foot(sn)
      ensures api.SocketOk(sn) && announced == 0 && data == []
      ensures ret.Done? ==> taken == Done(SOCKERR_SOCKSTATUS)
      ensures !old(resumeTcpClient) ==> api.chan[sn].h.delivered == old(api.chan[sn].h.delivered)
    {
      hide TxInv, RxInv, StreamInv, Consistent, FlagsAgree, OnlyOwn, Later;
      ret, announced := Loop(con, patience);
      taken, data := Blocked, [];
      if ret.Done? {
        ghost var seen;
        taken, data, seen := TakeRcv(len, patience);
      }
    }

    method CloseSession() returns (code: int)
      requires sn < |api.chan| && api.SocketOk(sn)
      modifies this`resumeTcpClient, api, api.Foot(sn)
      ensures api.SocketOk(sn) && !resumeTcpClient && api.chan[sn].r.sr == CLOSED
      ensures OnlyOwn(old(api.Vars()), api.Vars(), sn)
    {
      code := api.Close(sn);
      resumeTcpClient := false;
    }
  }

  lemma Connected(v: View, w: View, addr: u32, port: u16, ret: Outcome)
    requires ConnectEffect(v, w, addr, port, ret) && v.r.sr == INIT
    ensures v.r.mode == TCP && ret == Done(1) ==> w.r.sr == ESTABLISHED
    ensures v.r.mode == TCP ==>
      ret in {Done(SOCK_OK), Done(SOCK_BUSY), Done(SOCKERR_TIMEOUT), Done(SOCKERR_SOCKCLOSED), Blocked,
              Done(SOCKERR_IPINVALID), Done(SOCKERR_PORTZERO)}
    ensures StreamsKept(v, w) && TimedOut(v.irs, w.irs, ret == Done(SOCKERR_TIMEOUT))
  {
    hide TimedOut;
  }

  lemma NoTimeout(irs: seq<Ir>)
    ensures TimedOut(irs, irs, false)
  {
  }

  lemma NextPiece(before: seq<byte>, buff: seq<byte>, i: nat, n: nat)
    requires i + n <= |buff|
    ensures before + buff[..i] + buff[i..][..n] == before + buff[..i + n]
  {
    assert buff[..i] + buff[i..][..n] == buff[..i + n];
  }
}
