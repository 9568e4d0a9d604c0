/** The DHCP client as dhcp.c has it: global variables updated in place, one message buffer, calls by the user. */
module DhcpClient {
  import opened Arith
  import opened Bytes
  import opened Wrappers
  import opened DhcpOptions
  import opened DhcpMessage
  import opened DhcpState

  class Dhcp {
    var phase: Phase
    var retry: int
    var tick: u32
    var next: u32
    var xid: u32
    var mac: Mac
    var host: HostName
    var leased: Ip
    var old_: Ip
    const parser: Parser
    const msg: array<byte>
    /** What has been handed to sendto so far. */
    ghost var sent: seq<Sent>

    ghost predicate Valid()
      reads this
    {
      IsMessageBuffer(msg)
    }

    ghost function View(): Client
      reads this, parser
    {
      Client(phase, retry, tick, next, xid, mac, host, parser.net, leased, old_)
    }

    constructor (host: HostName)
      ensures Valid() && fresh(msg) && fresh(parser) && sent == []
      ensures View() == Client(Init, 0, 0, DHCP_WAIT_TIME, 0, [0, 0, 0, 0, 0, 0], host,
                               Net(ZERO_IP, ZERO_IP, ZERO_IP, INFINITE, ZERO_IP, ZERO_IP), ZERO_IP, ZERO_IP)
    {
      msg := new byte[MSG_SIZE];
      parser := new Parser(Net(ZERO_IP, ZERO_IP, ZERO_IP, INFINITE, ZERO_IP, ZERO_IP));
      phase, retry, tick, next, xid := Init, 0, 0, DHCP_WAIT_TIME, 0;
      mac, this.host, leased, old_ := [0, 0, 0, 0, 0, 0], host, ZERO_IP, ZERO_IP;
      sent := [];
    }

    /** parseDHCPMSG */
    method Parse(input: Option<Datagram>) returns (kind: byte)
      modifies parser
      ensures Reading(kind, parser.net) == Read(old(View()), input)
    {
      hide Walk;
      parser.kind := 0;
      if input.Some? && input.value.len > 0 {
        var d := input.value;
        if d.port == SERVER_PORT {
          if Slice(d.mem, 28, 6) != mac {
            return 0;
          }
          if parser.net.sip != ZERO_IP {
            if d.addr != parser.net.sip && d.addr != parser.net.realSip {
              return 0;
            }
          }
          parser.ParseOptions(d.mem, OPT_AT + 4, d.len, d.addr);
        }
      }
      kind := parser.kind;
    }

    /** send_DHCP_DISCOVER */
    method SendDiscover()
      requires Valid()
      modifies this`sent, parser, msg
      ensures View() == NoServer(old(View())) && sent == old(sent) + [DiscoverSent(old(View()))]
    {
      WriteDiscover(msg, xid, mac, host);
      parser.net := parser.net.(sip := ZERO_IP, realSip := ZERO_IP);
      sent := sent + [Sent(DISCOVER, msg[..], BROADCAST_IP)];
    }

    /** send_DHCP_REQUEST */
    method SendRequest()
      requires Valid()
      modifies this`sent, msg
      ensures sent == old(sent) + [RequestSent(View())]
    {
      var renewing := phase == Leased || phase == Rerequest;
      var dest := if renewing then parser.net.sip else BROADCAST_IP;
      WriteRequest(msg, xid, mac, host, if renewing then Some(leased) else None, dest, leased, parser.net.sip);
      sent := sent + [Sent(REQUEST, msg[..], dest)];
    }

    /** send_DHCP_DECLINE */
    method SendDecline()
      requires Valid()
      modifies this`sent, msg
      ensures sent == old(sent) + [DeclineSent(View())]
    {
      WriteDecline(msg, xid, mac, leased, parser.net.sip);
      sent := sent + [Sent(DECLINE, msg[..], BROADCAST_IP)];
    }

    /** reset_DHCP_timeout */
    method ResetTimeout()
      modifies this`tick, this`next, this`retry
      ensures View() == Fresh(old(View()))
    {
      tick, next, retry := 0, DHCP_WAIT_TIME, 0;
    }

    /** check_DHCP_timeout */
    method CheckTimeout() returns (ret: Ret)
      requires Valid()
      modifies this, parser, msg
      ensures ghost var step := Timeout(old(View()));
              View() == step.c && ret == step.ret && sent == old(sent) + step.sent && step.call == NoCall
    {
      hide DiscoverSent, RequestSent;
      ret := RUNNING;
      if retry < MAX_DHCP_RETRY {
        if next < tick {
          match phase {
            case Discover => SendDiscover();
            case Request => SendRequest();
            case Rerequest => SendRequest();
            case _ =>
          }
          tick := 0;
          next := tick + DHCP_WAIT_TIME;
          retry := retry + 1;
        }
      } else {
        match phase {
          case Discover =>
            phase := Init;
            ret := FAILED;
          case Request =>
            SendDiscover();
            phase := Discover;
          case Rerequest =>
            SendDiscover();
            phase := Discover;
          case _ =>
        }
        ResetTimeout();
      }
    }

    /** DHCP_run; `unique` is the outcome of the conflict check, which sends a DECLINE when it fails. */
    method DhcpRun(input: Option<Datagram>, unique: bool) returns (ret: Ret, call: Callback)
      requires Valid()
      modifies this, parser, msg
      ensures ghost var step := Run(old(View()), input, unique);
              View() == step.c && ret == step.ret && sent == old(sent) + step.sent && call == step.call
    {
      hide DiscoverSent, RequestSent, DeclineSent, Timeout, Read, InRequest, InLeased, InRerequest;
      ret, call := STOPPED, NoCall;
      if phase == Stopped { return; }
      ret := RUNNING;
      var kind := Parse(input);
      match phase {
        case Init =>
          leased := ZERO_IP;
          SendDiscover();
          phase := Discover;
        case Discover =>
          if kind == OFFER {
            leased := Slice(input.value.mem, 16, 4);
            SendRequest();
            phase := Request;
          } else {
            ret := CheckTimeout();
          }
        case Request => ret, call := AwaitAck(kind, unique);
        case Leased => ret := Maintain();
        case Rerequest => ret, call := AwaitRenewal(kind);
      }
    }

    /** The REQUEST case of DHCP_run. */
    method AwaitAck(kind: byte, unique: bool) returns (ret: Ret, call: Callback)
      requires Valid() && phase == Request
      modifies this, parser, msg
      ensures ghost var step := InRequest(old(View()), kind, unique);
              View() == step.c && ret == step.ret && sent == old(sent) + step.sent && call == step.call
    {
      hide DiscoverSent, RequestSent, DeclineSent, Timeout;
      ret, call := RUNNING, NoCall;
      if kind == ACK {
        if unique {
          call := IpAssign;
          ResetTimeout();
          phase := Leased;
        } else {
          SendDecline();
          ResetTimeout();
          call := IpConflict;
          phase := Init;
        }
      } else if kind == NAK {
        ResetTimeout();
        phase := Discover;
      } else {
        ret := CheckTimeout();
      }
    }

    /** The LEASED case. */
    method Maintain() returns (ret: Ret)
      requires Valid() && phase == Leased
      modifies this, parser, msg
      ensures ghost var step := InLeased(old(View()));
              View() == step.c && ret == step.ret && sent == old(sent) + step.sent && step.call == NoCall
    {
      hide RequestSent;
      ret := IP_LEASED;
      if parser.net.lease != INFINITE && parser.net.lease / 2 < tick {
        old_ := leased;
        xid := (xid + 1) % 0x1_0000_0000;
        SendRequest();
        ResetTimeout();
        phase := Rerequest;
      }
    }

    /** The REREQUEST case. */
    method AwaitRenewal(kind: byte) returns (ret: Ret, call: Callback)
      requires Valid() && phase == Rerequest
      modifies this, parser, msg
      ensures ghost var step := InRerequest(old(View()), kind);
              View() == step.c && ret == step.ret && sent == old(sent) + step.sent && call == step.call
    {
      hide DiscoverSent, RequestSent, Timeout;
      ret, call := IP_LEASED, NoCall;
      if kind == ACK {
        retry := 0;
        if old_ != leased {
          ret := IP_CHANGED;
          call := IpUpdate;
        }
        ResetTimeout();
        phase := Leased;
      } else if kind == NAK {
        ResetTimeout();
        phase := Discover;
      } else {
        ret := CheckTimeout();
      }
    }

    /** DHCP_time_handler */
    method TimeHandler()
      modifies this`tick
      ensures View() == Second(old(View()))
    {
      tick := (tick + 1) % 0x1_0000_0000;
    }

    /** DHCP_stop, without closing the socket */
    method DhcpStop()
      modifies this`phase
      ensures View() == Stop(old(View()))
    {
      phase := Stopped;
    }

    /** DHCP_init */
    method DhcpInit(shar: Mac)
      modifies this
      ensures View() == Initialised(old(View()), shar) && sent == old(sent)
    {
      hide Xor;
      mac := shar;
      if mac == [0, 0, 0, 0, 0, 0] {
        mac := OWN_MAC;
      }
      XorByte(mac);
      var id: nat := XID;
      id := id + mac[3];
      id := id + mac[4];
      id := id + mac[5];
      id := id + Xor(Xor(mac[3], mac[4]), mac[5]);
      xid := id;
      ResetTimeout();
      phase := Init;
    }
  }
}
