/** What one socket's registers hold, what has passed through its rings, and how datagrams are framed in RX memory. */
module Wire {
  import opened Arith

  datatype Mode = NoMode | TCP | UDP | IPRAW | MACRAW

  /** The values of the socket status register Sn_SR. */
  datatype Status =
    | CLOSED | INIT | LISTEN | SYNSENT | SYNRECV | ESTABLISHED | FIN_WAIT | CLOSING | TIME_WAIT
    | CLOSE_WAIT | LAST_ACK | UDP_OPEN | IPRAW_OPEN | MACRAW_OPEN

  /** A datagram socket's chip prefixes each packet with a header, which names its payload's length last. */
  datatype Packet = Packet(addr: seq<byte>, port: u16, payload: seq<byte>)
  {
    /** The last n bytes of the payload. */
    function Tail(n: nat): (t: seq<byte>)
      requires n <= |payload|
      ensures |t| == n
    {
      payload[|payload| - n..]
    }
  }

  /** Bytes handed out are added to the last entry, that of the packet in progress. */
  function Extend(got: seq<seq<byte>>, data: seq<byte>): (r: seq<seq<byte>>)
    ensures |r| == |got|
  {
    if got == [] then got else got[|got| - 1 := got[|got| - 1] + data]
  }

  predicate IsDatagram(mode: Mode) { mode == UDP || mode == IPRAW || mode == MACRAW }

  /** The length field: MACRAW counts its own two bytes. */
  function LengthField(mode: Mode, p: Packet): int { if mode == MACRAW then |p.payload| + 2 else |p.payload| }

  predicate PacketOk(mode: Mode, p: Packet) { |p.addr| == 4 && LengthField(mode, p) < 0x1_0000 }

  function Header(mode: Mode, p: Packet): seq<byte>
    requires PacketOk(mode, p)
  {
    var len := [Hi(LengthField(mode, p)), Lo(LengthField(mode, p))];
    if mode == UDP then p.addr + [Hi(p.port), Lo(p.port)] + len
    else if mode == IPRAW then p.addr + len
    else len
  }

  /** Where the fields stand: UDP has 8 bytes of header, IPRAW 6, MACRAW the 2 of the length alone. */
  lemma HeaderLayout(mode: Mode, p: Packet)
    requires PacketOk(mode, p) && IsDatagram(mode)
    ensures |Header(mode, p)| == HeaderSize(mode) == (match mode case UDP => 8 case IPRAW => 6 case _ => 2)
    ensures mode != MACRAW ==> Header(mode, p)[..4] == p.addr
    ensures mode == UDP ==> Join(Header(mode, p)[4], Header(mode, p)[5]) == p.port
    ensures var n := HeaderSize(mode);
            Join(Header(mode, p)[n - 2], Header(mode, p)[n - 1]) ==
              (if mode == MACRAW then |p.payload| + 2 else |p.payload|)
  {
    hide Hi, Lo;
    JoinBack(p.port);
    JoinBack(LengthField(mode, p));
  }

  function HeaderSize(mode: Mode): nat { if mode == UDP then 8 else if mode == IPRAW then 6 else 2 }

  function Framed(mode: Mode, p: Packet): seq<byte>
    requires PacketOk(mode, p)
  {
    Header(mode, p) + p.payload
  }

  /** The bytes a datagram socket's RX ring receives for these packets. */
  function Stream(mode: Mode, ps: seq<Packet>): seq<byte>
    requires forall p :: p in ps ==> PacketOk(mode, p)
  {
    if ps == [] then [] else Stream(mode, ps[..|ps| - 1]) + Framed(mode, ps[|ps| - 1])
  }

  lemma StreamExtend(mode: Mode, ps: seq<Packet>, p: Packet)
    requires forall q :: q in ps + [p] ==> PacketOk(mode, q)
    ensures (forall q :: q in ps ==> PacketOk(mode, q)) && PacketOk(mode, p)
    ensures Stream(mode, ps + [p]) == Stream(mode, ps) + Framed(mode, p)
  {
    assert p in ps + [p];
    assert forall q :: q in ps ==> q in ps + [p];
    assert (ps + [p])[..|ps + [p]| - 1] == ps;
  }

  /** Earlier packets come first. */
  lemma {:induction false} StreamPrefix(mode: Mode, ps: seq<Packet>, i: nat)
    requires i <= |ps| && forall p :: p in ps ==> PacketOk(mode, p)
    ensures Stream(mode, ps[..i]) <= Stream(mode, ps)
  {
    if i == |ps| {
      assert ps[..i] == ps;
    } else {
      var front := ps[..|ps| - 1];
      StreamPrefix(mode, front, i);
      assert front[..i] == ps[..i];
    }
  }

  /** An address and a port: the registers Sn_DIPR and Sn_DPORT. */
  datatype Endpoint = Endpoint(addr: u32, port: u16)

  /** What one SEND of a datagram socket sends; IPRAW has no use for the port, MACRAW for neither. */
  datatype Datagram = Datagram(to: Endpoint, payload: seq<byte>)

  /** The two bits of the interrupt register Sn_IR that tell what became of a SEND or of a command. */
  datatype Ir = Ir(sendok: bool, timeout: bool)

  /** The socket's registers; the txEnd and rxAck pointers are the chip's own, latched by SEND and RECV. */
  datatype Regs = Regs(
    mode: Mode, sr: Status, sendok: bool, timeout: bool,
    txRd: u16, txEnd: u16, txWr: u16, rxAck: u16, rxRd: u16, rxWr: u16)

  /**
   What has happened since OPEN: the bytes handed to the chip by SEND and those it has taken from TX
   memory, the bytes it has put into RX memory and those RECV has released, the datagrams among the
   former, and the number of SENDs whose SENDOK the host has not consumed.
   */
  datatype Hist = Hist(
    mode: Mode, accepted: seq<byte>, taken: seq<byte>, arrived: seq<byte>, delivered: seq<byte>,
    packets: seq<Packet>, unacked: nat)

  /** Before a connection is up nothing flows. */
  predicate Fresh(sr: Status) { sr in {INIT, LISTEN, SYNSENT, SYNRECV} }

  /** The states in which `send` transmits. */
  predicate Sendable(sr: Status) { sr == ESTABLISHED || sr == CLOSE_WAIT }

  /** The peer has sent all it had, or there is no peer: nothing more arrives. */
  predicate Ended(sr: Status) { sr in {CLOSE_WAIT, CLOSING, LAST_ACK, TIME_WAIT, CLOSED} }

  /** `send` and `recv` give such a socket up, and the chip alone does not make it Sendable. */
  predicate Refused(sr: Status) { sr in {INIT, FIN_WAIT, CLOSING, LAST_ACK, TIME_WAIT, CLOSED} }

  function OpenStatus(mode: Mode): Status
  {
    match mode
    case TCP => INIT
    case UDP => UDP_OPEN
    case IPRAW => IPRAW_OPEN
    case MACRAW => MACRAW_OPEN
    case NoMode => CLOSED
  }

  /** Where the chip may move Sn_SR with no command from the host. */
  predicate Later(a: Status, b: Status)
  {
    || a == b
    || (b == CLOSED && !(a in {INIT, UDP_OPEN, IPRAW_OPEN, MACRAW_OPEN}))
    || (a == LISTEN && b in {SYNRECV, ESTABLISHED, CLOSE_WAIT})
    || (a == SYNSENT && b in {SYNRECV, ESTABLISHED, CLOSE_WAIT})
    || (a == SYNRECV && b in {ESTABLISHED, CLOSE_WAIT})
    || (a == ESTABLISHED && b == CLOSE_WAIT)
    || (a == FIN_WAIT && b in {CLOSING, TIME_WAIT})
    || (a == CLOSING && b == TIME_WAIT)
  }
}
