/** One call of the DHCP client as a function of its state and of what it receives, and what any run keeps. */
module DhcpState {
  import opened Arith
  import opened Bytes
  import opened Wrappers
  import opened DhcpOptions
  import opened DhcpMessage

  const SERVER_PORT := 67
  const MAX_DHCP_RETRY := 2
  const DHCP_WAIT_TIME := 10
  const INFINITE: u32 := 0xFFFF_FFFF

  datatype Phase = Init | Discover | Request | Leased | Rerequest | Stopped

  datatype Ret = FAILED | RUNNING | IP_ASSIGN | IP_CHANGED | IP_LEASED | STOPPED

  datatype Callback = NoCall | IpAssign | IpUpdate | IpConflict

  /** The globals of dhcp.c. */
  datatype Client = Client(phase: Phase, retry: int, tick: u32, next: u32, xid: u32, mac: Mac, host: HostName,
                           net: Net, leased: Ip, old_: Ip)

  /** What the receive buffer holds after recvfrom, and recvfrom's results. */
  datatype Datagram = Datagram(mem: Memory, len: u16, addr: Ip, port: u16)

  datatype Sent = Sent(kind: byte, bytes: seq<byte>, dest: Ip)

  datatype Step = Step(c: Client, ret: Ret, sent: seq<Sent>, call: Callback)

  // ----- parseDHCPMSG -----

  predicate Accepts(c: Client, d: Datagram)
  {
    && d.port == SERVER_PORT
    && Slice(d.mem, 28, 6) == c.mac
    && (c.net.sip != ZERO_IP ==> d.addr == c.net.sip || d.addr == c.net.realSip)
  }

  function Read(c: Client, input: Option<Datagram>): (r: Reading)
    ensures input.None? ==> r.kind == 0
  {
    if input.Some? && input.value.len > 0 && Accepts(c, input.value) then
      Walk(input.value.mem, OPT_AT + 4, input.value.len, input.value.addr, Reading(0, c.net))
    else Reading(0, c.net)
  }

  function Offered(input: Option<Datagram>): Ip
  {
    if input.Some? then Slice(input.value.mem, 16, 4) else ZERO_IP
  }

  // ----- sending -----

  predicate Renewing(c: Client) { c.phase == Leased || c.phase == Rerequest }

  function RequestDest(c: Client): Ip { if Renewing(c) then c.net.sip else BROADCAST_IP }

  function DiscoverSent(c: Client): Sent
  {
    ListsFit(c.mac, c.host, ZERO_IP, ZERO_IP, ZERO_IP);
    Sent(DISCOVER, Head(c.xid, BROADCAST_FLAG, ZERO_IP, c.mac) + OptionField(DiscoverList(c.mac, c.host)), BROADCAST_IP)
  }

  function RequestSent(c: Client): Sent
  {
    var dest := RequestDest(c);
    ListsFit(c.mac, c.host, dest, c.leased, c.net.sip);
    Sent(REQUEST,
         RequestHead(c.xid, c.mac, if Renewing(c) then Some(c.leased) else None)
         + OptionField(RequestList(c.mac, c.host, dest, c.leased, c.net.sip)),
         dest)
  }

  function DeclineSent(c: Client): Sent
  {
    ListsFit(c.mac, [], ZERO_IP, c.leased, c.net.sip);
    Sent(DECLINE, Head(c.xid, 0, ZERO_IP, c.mac) + OptionField(DeclineList(c.mac, c.leased, c.net.sip)), BROADCAST_IP)
  }

  /** send_DHCP_DISCOVER forgets the server. */
  function NoServer(c: Client): Client { c.(net := c.net.(sip := ZERO_IP, realSip := ZERO_IP)) }

  /** reset_DHCP_timeout */
  function Fresh(c: Client): Client { c.(tick := 0, next := DHCP_WAIT_TIME, retry := 0) }

  // ----- check_DHCP_timeout -----

  function Timeout(c: Client): Step
  {
    if c.retry < MAX_DHCP_RETRY then
      if c.next < c.tick then
        var again := c.(tick := 0, next := DHCP_WAIT_TIME, retry := c.retry + 1);
        if c.phase == Discover then Step(NoServer(again), RUNNING, [DiscoverSent(c)], NoCall)
        else if c.phase == Request || c.phase == Rerequest then Step(again, RUNNING, [RequestSent(c)], NoCall)
        else Step(again, RUNNING, [], NoCall)
      else Step(c, RUNNING, [], NoCall)
    else if c.phase == Discover then Step(Fresh(c).(phase := Init), FAILED, [], NoCall)
    else if c.phase == Request || c.phase == Rerequest then
      Step(Fresh(NoServer(c)).(phase := Discover), RUNNING, [DiscoverSent(c)], NoCall)
    else Step(Fresh(c), RUNNING, [], NoCall)
  }

  // ----- DHCP_run -----

  /** `unique`: the conflict check found nobody else using the address. */
  function InRequest(c: Client, kind: byte, unique: bool): Step
  {
    if kind == ACK then
      if unique then Step(Fresh(c).(phase := Leased), RUNNING, [], IpAssign)
      else Step(Fresh(c).(phase := Init), RUNNING, [DeclineSent(c)], IpConflict)
    else if kind == NAK then Step(Fresh(c).(phase := Discover), RUNNING, [], NoCall)
    else Timeout(c)
  }

  function InLeased(c: Client): Step
  {
    if c.net.lease != INFINITE && c.net.lease / 2 < c.tick then
      var renewing := c.(old_ := c.leased, xid := (c.xid + 1) % 0x1_0000_0000);
      Step(Fresh(renewing).(phase := Rerequest), IP_LEASED, [RequestSent(renewing)], NoCall)
    else Step(c, IP_LEASED, [], NoCall)
  }

  function InRerequest(c: Client, kind: byte): Step
  {
    if kind == ACK then
      var changed := c.old_ != c.leased;
      Step(Fresh(c).(phase := Leased), if changed then IP_CHANGED else IP_LEASED, [],
           if changed then IpUpdate else NoCall)
    else if kind == NAK then Step(Fresh(c).(phase := Discover), IP_LEASED, [], NoCall)
    else Timeout(c)
  }

  function Run(c0: Client, input: Option<Datagram>, unique: bool): Step
  {
    var r := Read(c0, input);
    var c := c0.(net := r.net);
    match c.phase
    case Stopped => Step(c0, STOPPED, [], NoCall)
    case Init =>
      var cleared := c.(leased := ZERO_IP);
      Step(NoServer(cleared).(phase := Discover), RUNNING, [DiscoverSent(cleared)], NoCall)
    case Discover =>
      if r.kind == OFFER then
        var offered := c.(leased := Offered(input));
        Step(offered.(phase := Request), RUNNING, [RequestSent(offered)], NoCall)
      else Timeout(c)
    case Request => InRequest(c, r.kind, unique)
    case Leased => InLeased(c)
    case Rerequest => InRerequest(c, r.kind)
  }

  // ----- the other steps -----

  function Second(c: Client): Client { c.(tick := (c.tick + 1) % 0x1_0000_0000) }

  function Stop(c: Client): Client { c.(phase := Stopped) }

  const OWN_MAC: Mac := [0x00, 0x08, 0xDC, 0x00, 0x00, 0x00]

  const XID: u32 := 0x1234_5678

  /** The first transaction id: the constant, the last three bytes of the MAC address, and their exclusive or. */
  function FirstXid(mac: Mac): u32
  {
    (XID + mac[3] + mac[4] + mac[5] + Xor(Xor(mac[3], mac[4]), mac[5])) % 0x1_0000_0000
  }

  lemma XorByte(mac: Mac)
    ensures Xor(Xor(mac[3], mac[4]), mac[5]) < 256
  {
    assert Pow2(4) == 16 && Pow2(8) == 16 * Pow2(4);
    XorBound(mac[3], mac[4], 8);
    XorBound(Xor(mac[3], mac[4]), mac[5], 8);
  }

  /** DHCP_init */
  function Initialised(c: Client, shar: Mac): Client
  {
    var mac := if shar == [0, 0, 0, 0, 0, 0] then OWN_MAC else shar;
    Fresh(c).(mac := mac, xid := FirstXid(mac), phase := Init)
  }
}
