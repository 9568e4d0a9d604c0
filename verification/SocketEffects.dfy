/** What each socket call does to its socket, as a relation between the states before and after it. */
module SocketEffects {
  import opened Arith
  import opened Wire
  import opened ChannelModel
  import opened SocketState
  import opened SocketLayer

  datatype Call =
    | OpenCall(protocol: Mode, port: u16, flag: bv8)
    | CloseCall
    | ListenCall
    | ConnectCall(addr: u32, destPort: u16)
    | DisconnectCall
    | IoModeCall(arg: byte)
    | SendCall(buf: seq<byte>)
    | RecvCall(len: u16)
    | SendToCall(buf: seq<byte>, addr: u32, destPort: u16)
    | RecvFromCall(len: u16)

  /** What a call hands back; `taken` tells a packet of no bytes from none. */
  datatype Result = Result(ret: Outcome, data: seq<byte>, addr: seq<byte>, port: u16, taken: bool)

  function Coded(ret: Outcome): Result { Result(ret, [], [], 0, false) }

  /** One socket, as far as the calls can tell: its registers and history, and the host's variables. */
  datatype View = View(r: Regs, h: Hist, dest: Endpoint, port: u16, out: seq<Datagram>, irs: seq<Ir>,
                       nonblock: bool, sending: bool, remained: u16, info: bv8, got: seq<seq<byte>>)

  ghost function ViewOf(api: SocketApi, sn: nat): View
    requires sn < |api.chan| && api.Wired()
    reads api, api.chan[sn]
  {
    var c := api.chan[sn];
    View(c.r, c.h, c.dest, c.port, c.out, c.irs, sn in api.sockIoMode, sn in api.sockIsSending,
         api.sockRemainedSize[sn], api.sockPackInfo[sn], api.got[sn])
  }

  /** What does not change: the socket's number, its ring sizes, and whether its rings wrap in hardware. */
  datatype Fit = Fit(sn: nat, txSize: nat, rxSize: nat, wrapped: bool)

  function FitOf(api: SocketApi, sn: nat): Fit
    requires sn < |api.chan|
  {
    var c := api.chan[sn];
    Fit(sn, c.txSize, c.rxSize, c.kind == W5500)
  }

  function Least(a: nat, b: nat): nat { if a <= b then a else b }

  function Free(f: Fit, v: View): int { f.txSize - (|v.h.accepted| - |v.h.taken|) }

  function Pending(v: View): int { |v.h.arrived| - |v.h.delivered| }

  /** No byte has moved between the host and the streams, and no datagram was sent. */
  predicate StreamsKept(v: View, w: View)
  {
    w.h.accepted == v.h.accepted && w.h.delivered == v.h.delivered && w.out == v.out && w.got == v.got
  }

  predicate VarsKept(v: View, w: View)
  {
    w.nonblock == v.nonblock && w.sending == v.sending && w.remained == v.remained && w.info == v.info
  }

  /** As `close` leaves the host's two bits. */
  predicate Dropped(w: View) { !w.nonblock && !w.sending }

  ghost predicate OpenEffect(f: Fit, v: View, w: View, protocol: Mode, port: u16, flag: bv8, code: int)
  {
    && code in {f.sn, SOCKERR_SOCKINIT, SOCKERR_SOCKMODE, SOCKERR_SOCKFLAG}
    && (code == SOCKERR_SOCKINIT ==> protocol == TCP)
    && (code == SOCKERR_SOCKMODE <==> protocol == NoMode)
    && (code == SOCKERR_SOCKFLAG ==> !FlagsOk(protocol, flag, f.wrapped))
    && (code >= 0 ==>
         && FlagsOk(protocol, flag, f.wrapped)
         && w.r.mode == w.h.mode == protocol && w.r.sr == OpenStatus(protocol)
         && w.h.accepted == w.h.delivered == [] && w.out == [] && w.got == [] && w.remained == 0
         && (w.nonblock <==> flag & 0x01 != 0) && !w.sending && (port != 0 ==> w.port == port))
    && (code < 0 ==> w == v)
  }

  predicate CloseEffect(v: View, w: View, code: int)
  {
    code == SOCK_OK && w.r.sr == CLOSED && Dropped(w) && w.remained == 0 && StreamsKept(v, w)
  }

  predicate ListenEffect(v: View, w: View, code: int)
  {
    && StreamsKept(v, w)
    && (if code == SOCKERR_SOCKCLOSED then Dropped(w) else VarsKept(v, w))
    && (if v.r.mode != TCP then code == SOCKERR_SOCKMODE
        else if v.r.sr != INIT then code == SOCKERR_SOCKINIT
        else (code == SOCK_OK && w.r.sr == LISTEN) || (code == SOCKERR_SOCKCLOSED && w.r.sr == CLOSED))
  }

  ghost predicate ConnectEffect(v: View, w: View, addr: u32, port: u16, ret: Outcome)
  {
    && StreamsKept(v, w) && w.sending == v.sending && w.nonblock == v.nonblock
    && (if v.r.mode != TCP then ret == Done(SOCKERR_SOCKMODE)
        else if v.r.sr != INIT then ret == Done(SOCKERR_SOCKINIT)
        else if addr in {0, 0xFFFF_FFFF} then ret == Done(SOCKERR_IPINVALID)
        else if port == 0 then ret == Done(SOCKERR_PORTZERO)
        else
          && Later(SYNSENT, w.r.sr) && w.dest == Endpoint(addr, port)
          && (ret == Done(SOCK_BUSY) <==> v.nonblock)
          && (ret == Done(SOCK_OK) ==> w.r.sr == ESTABLISHED)
          && (ret == Done(SOCKERR_SOCKCLOSED) ==> w.r.sr == CLOSED)
          && (ret == Blocked ==> w.r.sr != CLOSED)
          && ret in {Done(SOCK_OK), Done(SOCK_BUSY), Done(SOCKERR_TIMEOUT), Done(SOCKERR_SOCKCLOSED), Blocked})
    && TimedOut(v.irs, w.irs, ret == Done(SOCKERR_TIMEOUT))
  }

  ghost predicate DisconnectEffect(v: View, w: View, ret: Outcome)
  {
    && StreamsKept(v, w)
    && (if ret == Done(SOCKERR_TIMEOUT) then Dropped(w) else w.nonblock == v.nonblock)
    && (ret == Done(SOCKERR_SOCKMODE) ==> VarsKept(v, w))
    && (if v.r.mode != TCP then ret == Done(SOCKERR_SOCKMODE)
        else
          && Refused(w.r.sr) && !w.sending
          && (ret == Done(SOCK_BUSY) <==> v.nonblock)
          && (ret in {Done(SOCK_OK), Done(SOCKERR_TIMEOUT)} ==> w.r.sr == CLOSED)
          && ret in {Done(SOCK_OK), Done(SOCK_BUSY), Done(SOCKERR_TIMEOUT), Blocked})
    && TimedOut(v.irs, w.irs, ret == Done(SOCKERR_TIMEOUT))
  }

  predicate IoModeEffect(v: View, w: View, arg: byte, code: int)
  {
    && code == (if arg > SOCK_IO_NONBLOCK then SOCKERR_ARG else SOCK_OK)
    && w == (if arg > SOCK_IO_NONBLOCK then v else v.(nonblock := arg == SOCK_IO_NONBLOCK))
  }

  predicate SendEffect(f: Fit, v: View, w: View, buf: seq<byte>, ret: Outcome)
  {
    var n := Least(|buf|, f.txSize);
    && w.h.delivered == v.h.delivered && w.out == v.out && w.got == v.got
    && w.h.accepted == v.h.accepted + (if ret.Done? && ret.code > 0 then buf[..n] else [])
    && (ret.Done? && ret.code > 0 ==> ret.code == n)
    && (w.sending <==>
         || (ret.Done? && ret.code > 0)
         || (v.sending && (w.irs == v.irs || LastIr(w.irs) == Ir(false, false))))
    && (w.nonblock == v.nonblock
        || (!w.nonblock && w.r.sr == CLOSED && ret in {Done(SOCKERR_SOCKSTATUS), Done(SOCKERR_TIMEOUT)}))
    && if v.r.mode != TCP then ret == Done(SOCKERR_SOCKMODE)
       else if buf == [] then ret == Done(SOCKERR_DATALEN)
       else if Refused(v.r.sr) then ret == Done(SOCKERR_SOCKSTATUS)
       else
         && (ret.Done? ==> ret.code in {n, SOCK_BUSY, SOCKERR_SOCKSTATUS, SOCKERR_TIMEOUT})
         && (ret == Done(SOCKERR_SOCKSTATUS) ==> w.r.sr !in {ESTABLISHED, CLOSE_WAIT})
         && (ret == Done(SOCKERR_TIMEOUT) ==>
              v.sending && w.irs == v.irs + [Ir(false, true)] && w.r.sr == CLOSED)
         && (ret == Done(SOCK_BUSY) ==>
              || (v.sending && w.irs == v.irs + [Ir(false, false)])
              || (v.nonblock && (n > Free(f, v) || |v.h.taken| < |w.h.taken|)))
         && (ret == Blocked ==> !v.nonblock && (n > Free(f, v) || |v.h.taken| < |w.h.taken|))
  }

  ghost predicate RecvEffect(f: Fit, v: View, w: View, len: u16, res: Result)
  {
    var ret := res.ret;
    && w.h.accepted == v.h.accepted && w.out == v.out && w.got == v.got && !res.taken
    && w.h.delivered == v.h.delivered + res.data
    && (if ret.Done? && ret.code > 0 then |res.data| == ret.code <= len else res.data == [])
    && (if ret == Done(SOCKERR_SOCKSTATUS) then Dropped(w) else VarsKept(v, w))
    && if v.r.mode != TCP then ret == Done(SOCKERR_SOCKMODE)
       else if len == 0 then ret == Done(SOCKERR_DATALEN)
       else if Refused(v.r.sr) then ret == Done(SOCKERR_SOCKSTATUS)
       else
         && (ret.Done? && ret.code > 0 ==>
              ret.code == Least(len, f.rxSize) || ret.code >= Pending(v) || |v.h.arrived| < |w.h.arrived|)
         && (ret.Done? && ret.code <= 0 ==> ret.code in {SOCK_BUSY, SOCKERR_SOCKSTATUS})
         && (ret == Done(SOCKERR_SOCKSTATUS) ==> exists seen :: GaveUp(v.r.sr, v.h.arrived, seen, w.r, w.h))
         && (ret == Done(SOCK_BUSY) ==> v.nonblock) && (ret == Blocked ==> !v.nonblock)
         && (ret in {Done(SOCK_BUSY), Blocked} ==> Pending(v) <= 0 || |v.h.arrived| < |w.h.arrived|)
  }

  ghost predicate SendToEffect(f: Fit, v: View, w: View, buf: seq<byte>, addr: u32, port: u16, ret: Outcome)
  {
    var n := Least(|buf|, f.txSize);
    var sent := ret.Done? && (ret.code > 0 || ret.code == SOCKERR_TIMEOUT);
    && w.h.delivered == v.h.delivered && w.got == v.got && VarsKept(v, w)
    && (sent ==>
         && w.h.accepted == v.h.accepted + buf[..n] && w.out == v.out + [Datagram(Endpoint(addr, port), buf[..n])]
         && Waited(v.irs, w.irs) && ret == Answer(w.irs, n))
    && (ret.Done? && !sent ==> w.h.accepted == v.h.accepted && w.out == v.out && w.irs == v.irs)
    && if !IsDatagram(v.r.mode) then ret == Done(SOCKERR_SOCKMODE)
       else if buf == [] then ret == Done(SOCKERR_DATALEN)
       else if addr == 0 && v.r.mode != MACRAW then ret == Done(SOCKERR_IPINVALID)
       else if port == 0 && v.r.mode != MACRAW then ret == Done(SOCKERR_PORTZERO)
       else
         && (ret.Done? ==> sent || ret.code in {SOCK_BUSY, SOCKERR_SOCKCLOSED, SOCKERR_SOCKSTATUS})
         && (ret == Done(SOCKERR_SOCKCLOSED) ==> w.r.sr == CLOSED)
         && (ret == Done(SOCKERR_SOCKSTATUS) ==> w.r.sr !in {UDP_OPEN, IPRAW_OPEN, MACRAW_OPEN})
         && (ret == Done(SOCK_BUSY) ==> v.nonblock && (n > Free(f, v) || |v.h.taken| < |w.h.taken|))
         && (ret == Blocked ==>
              if w.out == v.out then !v.nonblock && (n > Free(f, v) || |v.h.taken| < |w.h.taken|)
              else w.out == v.out + [Datagram(Endpoint(addr, port), buf[..n])] && Unanswered(v.irs, w.irs))
  }

  ghost predicate RecvFromEffect(v: View, w: View, len: u16, res: Result)
  {
    var ret := res.ret;
    && w.h.accepted == v.h.accepted && w.out == v.out
    && (if res.taken then ret == Done(|res.data|) else res.data == [] && (ret.Done? ==> ret.code <= 0))
    && (if ret == Done(SOCKFATAL_PACKLEN) then Dropped(w) else w.nonblock == v.nonblock && w.sending == v.sending)
    && (!res.taken && ret != Done(SOCKFATAL_PACKLEN) ==> VarsKept(v, w))
    && (!IsDatagram(v.r.mode) || len == 0 ==> !res.taken && w.got == v.got && w.h.delivered == v.h.delivered)
    && if !IsDatagram(v.r.mode) then ret == Done(SOCKERR_SOCKMODE)
       else if len == 0 then ret == Done(SOCKERR_DATALEN)
       else if v.remained > 0 then
         && res.taken && |res.data| == Least(len, v.remained) && w.remained == v.remained - |res.data|
         && w.info == PackInfo(v.info, w.remained)
         && w.got == Extend(v.got, res.data)
       else if res.taken then
         && w.got == v.got + [res.data] && |w.got| <= |w.h.packets|
         && var p := w.h.packets[|v.got|];
            && |res.data| == Least(len, |p.payload|) && w.remained == |p.payload| - |res.data|
            && w.info == PackInfo(PACK_FIRST, w.remained)
            && (v.r.mode == UDP ==> res.addr == p.addr && res.port == p.port)
            && (v.r.mode == IPRAW ==> res.addr == p.addr)
       else if ret == Done(SOCKFATAL_PACKLEN) then
         && v.r.mode == MACRAW && w.r.sr == CLOSED && w.got == v.got + [[]] && |v.got| < |w.h.packets|
         && |w.h.packets[|v.got|].payload| > MAX_MAC_FRAME
       else
         && w.got == v.got && w.h.delivered == v.h.delivered
         && ret in {Blocked, Done(SOCK_BUSY), Done(SOCKERR_SOCKCLOSED)}
         && (ret == Done(SOCKERR_SOCKCLOSED) ==> w.r.sr == CLOSED)
         && (ret == Done(SOCK_BUSY) ==> v.nonblock) && (ret == Blocked ==> !v.nonblock)
         && (ret in {Done(SOCK_BUSY), Blocked} ==> Pending(v) <= 0 || |v.h.arrived| < |w.h.arrived|)
  }

  ghost predicate Effect(f: Fit, v: View, w: View, call: Call, res: Result)
  {
    && (call.OpenCall? || w.r.mode == v.r.mode)
    && match call
    case OpenCall(protocol, port, flag) => res.ret.Done? && OpenEffect(f, v, w, protocol, port, flag, res.ret.code)
    case CloseCall => res.ret.Done? && CloseEffect(v, w, res.ret.code)
    case ListenCall => res.ret.Done? && ListenEffect(v, w, res.ret.code)
    case ConnectCall(addr, port) => ConnectEffect(v, w, addr, port, res.ret)
    case DisconnectCall => DisconnectEffect(v, w, res.ret)
    case IoModeCall(arg) => res.ret.Done? && IoModeEffect(v, w, arg, res.ret.code)
    case SendCall(buf) => SendEffect(f, v, w, buf, res.ret)
    case RecvCall(len) => RecvEffect(f, v, w, len, res)
    case SendToCall(buf, addr, port) => SendToEffect(f, v, w, buf, addr, port, res.ret)
    case RecvFromCall(len) => RecvFromEffect(v, w, len, res)
  }

  // ----- the calls -----

  /** socket, close, listen and ctlsocket: they return at once. */
  method Manage(api: SocketApi, sn: nat, call: Call) returns (code: int)
    requires sn < |api.chan| && api.SocketOk(sn)
    requires call.OpenCall? || call.CloseCall? || call.ListenCall? || call.IoModeCall?
    modifies api, api.Foot(sn)
    ensures api.SocketOk(sn) && OnlyOwn(old(api.Vars()), api.Vars(), sn) && api.Elsewhere(sn) == old(api.Elsewhere(sn))
    ensures Effect(FitOf(api, sn), old(ViewOf(api, sn)), ViewOf(api, sn), call, Coded(Done(code)))
  {
    hide TxInv, RxInv, StreamInv, Consistent, FlagsAgree, OnlyOwn, FlagsOk, Later, GaveUp, Extend;
    match call {
      case OpenCall(protocol, port, flag) => code := api.Socket(sn, protocol, port, flag);
      case CloseCall => code := api.Close(sn);
      case ListenCall =>
        ghost var seen;
        code, seen := api.Listen(sn);
      case IoModeCall(arg) => code := api.SetIoMode(sn, arg);
    }
  }

  /** connect and disconnect. */
  method Handshake(api: SocketApi, sn: nat, call: Call, patience: nat) returns (ret: Outcome)
    requires sn < |api.chan| && api.SocketOk(sn) && (call.ConnectCall? || call.DisconnectCall?)
    modifies api, api.Foot(sn)
    ensures api.SocketOk(sn) && OnlyOwn(old(api.Vars()), api.Vars(), sn) && api.Elsewhere(sn) == old(api.Elsewhere(sn))
    ensures Effect(FitOf(api, sn), old(ViewOf(api, sn)), ViewOf(api, sn), call, Coded(ret))
  {
    hide TxInv, RxInv, StreamInv, Consistent, FlagsAgree, OnlyOwn, FlagsOk, Later, GaveUp, Extend;
    OnlyOwnSelf(api.Vars(), sn);
    if call.ConnectCall? {
      ret := api.Connect(sn, call.addr, call.destPort, patience);
    } else {
      ret := api.Disconnect(sn, patience);
    }
  }

  method Transfer(api: SocketApi, sn: nat, call: Call, patience: nat) returns (ret: Outcome, ghost res: Result)
    requires sn < |api.chan| && api.SocketOk(sn)
    requires (call.SendCall? && |call.buf| < 0x1_0000) || call.RecvCall?
    modifies api, api.Foot(sn)
    ensures api.SocketOk(sn) && OnlyOwn(old(api.Vars()), api.Vars(), sn) && api.Elsewhere(sn) == old(api.Elsewhere(sn))
    ensures res.ret == ret && Effect(FitOf(api, sn), old(ViewOf(api, sn)), ViewOf(api, sn), call, res)
  {
    hide TxInv, RxInv, StreamInv, Consistent, FlagsAgree, OnlyOwn, FlagsOk, Later, GaveUp, Extend;
    if call.SendCall? {
      ghost var seen;
      ret, seen := api.Send(sn, call.buf, patience);
      res := Coded(ret);
    } else {
      var data;
      ghost var seen;
      ret, data, seen := api.Recv(sn, call.len, patience);
      if ret == Done(SOCKERR_SOCKSTATUS) {
        assert GaveUp(old(api.chan[sn].r.sr), old(api.chan[sn].h.arrived), seen, api.chan[sn].r, api.chan[sn].h);
      }
      res := Result(ret, data, [], 0, false);
    }
  }

  method Exchange(api: SocketApi, sn: nat, call: Call, patience: nat) returns (ret: Outcome, ghost res: Result)
    requires sn < |api.chan| && api.SocketOk(sn)
    requires (call.SendToCall? && |call.buf| < 0x1_0000) || call.RecvFromCall?
    modifies api, api.Foot(sn)
    ensures api.SocketOk(sn) && OnlyOwn(old(api.Vars()), api.Vars(), sn) && api.Elsewhere(sn) == old(api.Elsewhere(sn))
    ensures res.ret == ret && Effect(FitOf(api, sn), old(ViewOf(api, sn)), ViewOf(api, sn), call, res)
  {
    hide TxInv, RxInv, StreamInv, Consistent, FlagsAgree, OnlyOwn, FlagsOk, Later, GaveUp, Extend, PackInfo,
         Waited, Unanswered, TimedOut;
    OnlyOwnSelf(api.Vars(), sn);
    if call.SendToCall? {
      ghost var mask;
      ret, mask := api.SendTo(sn, call.buf, call.addr, call.destPort, patience);
      res := Coded(ret);
    } else {
      var data, addr, port;
      ghost var taken;
      ret, data, addr, port, taken := api.RecvFrom(sn, call.len, patience);
      res := Result(ret, data, addr, port, taken);
    }
  }
}
