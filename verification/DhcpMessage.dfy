/** makeDHCPMSG and the option writers of send_DHCP_DISCOVER, send_DHCP_REQUEST and send_DHCP_DECLINE. */
module DhcpMessage {
  import opened Arith
  import opened Bytes
  import opened Wrappers
  import opened DhcpOptions

  const MSG_SIZE := 548
  const OPT_AT := 236
  const OPT_SIZE := 312
  const BROADCAST_FLAG: u16 := 0x8000

  const DISCOVER: byte := 1
  const OFFER: byte := 2
  const REQUEST: byte := 3
  const DECLINE: byte := 4
  const ACK: byte := 5
  const NAK: byte := 6

  const ZERO_IP: Ip := [0, 0, 0, 0]
  const BROADCAST_IP: Ip := [255, 255, 255, 255]
  const COOKIE: Ip := [0x63, 0x82, 0x53, 0x63]

  type Mac = s: seq<byte> | |s| == 6 witness [0, 0, 0, 0, 0, 0]

  /** The host name in front of the six hexadecimal digits; with them its length still fits a byte. */
  type HostName = s: seq<byte> | |s| <= 249 && 0 !in s witness []

  function Zeros(n: nat): (s: seq<byte>)
    ensures |s| == n && forall i :: 0 <= i < n ==> s[i] == 0
  {
    seq(n, i => 0)
  }

  function WordBytes(v: u32): Ip { [v / 0x100_0000, v / 0x1_0000 % 256, v / 256 % 256, v % 256] }

  function NibbleToHex(n: byte): byte
  {
    if n % 16 <= 9 then 48 + n % 16 else 65 + (n % 16 - 10)
  }

  /** The last three bytes of the MAC address in hexadecimal. */
  function HexTail(mac: Mac): (s: seq<byte>)
    ensures |s| == 6
  {
    [NibbleToHex(mac[3] / 16), NibbleToHex(mac[3]),
     NibbleToHex(mac[4] / 16), NibbleToHex(mac[4]),
     NibbleToHex(mac[5] / 16), NibbleToHex(mac[5])]
  }

  /** Everything before the options; xid is the only multi-byte field that varies. */
  function Head(xid: u32, flags: u16, ciaddr: Ip, mac: Mac): (s: seq<byte>)
    ensures |s| == OPT_AT
  {
    [1, 1, 6, 0] + WordBytes(xid) + [0, 0] + [Hi(flags), Lo(flags)] + ciaddr + Zeros(12) + mac + Zeros(202)
  }

  // ----- the layout of section 2 of RFC 2131 -----

  /** The fixed fields of a DHCP message, in their order. */
  datatype Fixed = Fixed(op: byte, htype: byte, hlen: byte, hops: byte, xid: u32, secs: u16, flags: u16,
                         ciaddr: Ip, yiaddr: Ip, siaddr: Ip, giaddr: Ip,
                         chaddr: seq<byte>, sname: seq<byte>, file: seq<byte>)
  {
    predicate Sized() { |chaddr| == 16 && |sname| == 64 && |file| == 128 }
  }

  /** They take 236 bytes, multi-byte numbers most significant byte first. */
  function Layout(m: Fixed): (s: seq<byte>)
    requires m.Sized()
    ensures |s| == OPT_AT
  {
    [m.op, m.htype, m.hlen, m.hops]
    + [m.xid / 0x100_0000, m.xid / 0x1_0000 % 256, m.xid / 256 % 256, m.xid % 256]
    + [m.secs / 256, m.secs % 256, m.flags / 256, m.flags % 256]
    + m.ciaddr + m.yiaddr + m.siaddr + m.giaddr + m.chaddr + m.sname + m.file
  }

  /** What makeDHCPMSG and its callers leave in them. */
  function Requested(xid: u32, flags: u16, ciaddr: Ip, mac: Mac): (m: Fixed)
    ensures m.Sized()
  {
    Fixed(1, 1, 6, 0, xid, 0, flags, ciaddr, [0, 0, 0, 0], [0, 0, 0, 0], [0, 0, 0, 0],
          mac + Zeros(10), Zeros(64), Zeros(128))
  }

  /** The bytes in front of the options are those of a BOOTREQUEST with the client's addresses in their fields. */
  lemma HeadIsLayout(xid: u32, flags: u16, ciaddr: Ip, mac: Mac)
    ensures Head(xid, flags, ciaddr, mac) == Layout(Requested(xid, flags, ciaddr, mac))
  {
    var zeros: Ip := [0, 0, 0, 0];
    assert Zeros(12) == zeros + zeros + zeros && Zeros(202) == Zeros(10) + Zeros(64) + Zeros(128);
    var front := [1, 1, 6, 0] + WordBytes(xid) + [0, 0] + [Hi(flags), Lo(flags)] + ciaddr;
    Reassociate(front, zeros, mac);
    var m := Requested(xid, flags, ciaddr, mac);
    assert [m.secs / 256, m.secs % 256, m.flags / 256, m.flags % 256] == [0, 0] + [Hi(flags), Lo(flags)];
    assert Layout(m) == front + zeros + zeros + zeros + (mac + Zeros(10)) + Zeros(64) + Zeros(128);
  }

  lemma Reassociate(front: seq<byte>, zeros: Ip, mac: Mac)
    ensures front + (zeros + zeros + zeros) + mac + (Zeros(10) + Zeros(64) + Zeros(128))
         == front + zeros + zeros + zeros + (mac + Zeros(10)) + Zeros(64) + Zeros(128)
  {
    hide Zeros;
  }

  // ----- the three lists -----

  /** The host name and the parameters asked for. */
  function Tail(mac: Mac, host: HostName, more: seq<byte>): (opts: seq<Entry>)
    requires |more| <= 2
    ensures AllWellFormed(opts)
  {
    [Opt(HOST_NAME, host + HexTail(mac)),
     Opt(PARAM_REQUEST, [SUBNET_MASK, ROUTERS, DNS_SERVERS, DOMAIN_NAME, T1_VALUE, T2_VALUE] + more)]
  }

  function Front(kind: byte, mac: Mac): (opts: seq<Entry>)
    ensures AllWellFormed(opts)
  {
    [Opt(MESSAGE_TYPE, [kind]), Opt(CLIENT_ID, [1] + mac)]
  }

  function AddressOptions(leased: Ip, sip: Ip): (opts: seq<Entry>)
    ensures AllWellFormed(opts)
  {
    [Opt(REQUESTED_IP, leased), Opt(SERVER_ID, sip)]
  }

  function DiscoverList(mac: Mac, host: HostName): (opts: seq<Entry>)
    ensures AllWellFormed(opts)
  {
    Front(DISCOVER, mac) + Tail(mac, host, [])
  }

  /** The two address options go in when the destination's last byte is 255. */
  function RequestList(mac: Mac, host: HostName, dest: Ip, leased: Ip, sip: Ip): (opts: seq<Entry>)
    ensures AllWellFormed(opts)
  {
    Front(REQUEST, mac)
    + (if dest[3] == 255 then AddressOptions(leased, sip) else [])
    + Tail(mac, host, [ROUTER_DISCOVERY, STATIC_ROUTE])
  }

  function DeclineList(mac: Mac, leased: Ip, sip: Ip): (opts: seq<Entry>)
    ensures AllWellFormed(opts)
  {
    Front(DECLINE, mac) + AddressOptions(leased, sip)
  }

  /** The OPT field: the magic cookie, the list, the end option, and zeros up to its size. */
  function OptionField(opts: seq<Entry>): (s: seq<byte>)
    requires AllWellFormed(opts) && |Wire(opts)| + 5 <= OPT_SIZE
    ensures |s| == OPT_SIZE
  {
    COOKIE + Wire(opts) + [END] + Zeros(OPT_SIZE - 5 - |Wire(opts)|)
  }

  lemma {:induction false} WireConcat(a: seq<Entry>, b: seq<Entry>)
    requires AllWellFormed(a) && AllWellFormed(b)
    ensures AllWellFormed(a + b) && Wire(a + b) == Wire(a) + Wire(b)
    decreases |a|
  {
    hide Encode, WellFormed;
    if a == [] {
      assert a + b == b;
    } else {
      var first, rest := a[0], a[1..];
      WireConcat(rest, b);
      assert (a + b)[0] == first && (a + b)[1..] == rest + b;
      assert Wire(a + b) == Encode(first) + Wire(rest + b);
    }
  }

  lemma WirePair(o: Entry, o': Entry)
    requires WellFormed(o) && WellFormed(o')
    ensures Wire([o, o']) == Encode(o) + Encode(o')
  {
    assert [o, o'][1..] == [o'] && [o'][1..] == [];
    assert Wire([o']) == Encode(o') + Wire([]);
  }

  lemma PieceLengths(kind: byte, mac: Mac, host: HostName, more: seq<byte>, leased: Ip, sip: Ip)
    requires |more| <= 2
    ensures |Wire(Front(kind, mac))| == 12
    ensures |Wire(AddressOptions(leased, sip))| == 12
    ensures |Wire(Tail(mac, host, more))| == |host| + 16 + |more|
  {
    hide Wire;
    WirePair(Front(kind, mac)[0], Front(kind, mac)[1]);
    WirePair(AddressOptions(leased, sip)[0], AddressOptions(leased, sip)[1]);
    WirePair(Tail(mac, host, more)[0], Tail(mac, host, more)[1]);
  }

  /** The lists, and with them the cookie and the end option, fit the OPT field for every host name. */
  lemma ListsFit(mac: Mac, host: HostName, dest: Ip, leased: Ip, sip: Ip)
    ensures |Wire(DiscoverList(mac, host))| == |host| + 28
    ensures |Wire(RequestList(mac, host, dest, leased, sip))| == |host| + (if dest[3] == 255 then 42 else 30)
    ensures |Wire(DeclineList(mac, leased, sip))| == 24
  {
    hide Wire, Front, Tail, AddressOptions;
    var more := [ROUTER_DISCOVERY, STATIC_ROUTE];
    PieceLengths(DISCOVER, mac, host, [], leased, sip);
    PieceLengths(REQUEST, mac, host, more, leased, sip);
    PieceLengths(DECLINE, mac, host, [], leased, sip);
    WireConcat(Front(DISCOVER, mac), Tail(mac, host, []));
    WireConcat(Front(DECLINE, mac), AddressOptions(leased, sip));
    if dest[3] == 255 {
      WireConcat(Front(REQUEST, mac), AddressOptions(leased, sip));
      WireConcat(Front(REQUEST, mac) + AddressOptions(leased, sip), Tail(mac, host, more));
    } else {
      WireConcat(Front(REQUEST, mac), Tail(mac, host, more));
      assert Front(REQUEST, mac) + [] == Front(REQUEST, mac);
    }
  }

  // ----- the writers -----

  predicate IsMessageBuffer(buf: array<byte>) { buf.Length == MSG_SIZE }

  /** makeDHCPMSG */
  method MakeMsg(buf: array<byte>, xid: u32, mac: Mac)
    requires IsMessageBuffer(buf)
    modifies buf
    ensures buf[..OPT_AT + 4] == Head(xid, BROADCAST_FLAG, ZERO_IP, mac) + COOKIE
  {
    hide Zeros, WordBytes;
    var k := Put(buf, 0, [1, 1, 6, 0]);
    k := Put(buf, k, WordBytes(xid));
    k := Put(buf, k, [0, 0]);
    k := Put(buf, k, [Hi(BROADCAST_FLAG), Lo(BROADCAST_FLAG)]);
    k := Put(buf, k, ZERO_IP);
    k := Put(buf, k, Zeros(12));
    k := Put(buf, k, mac);
    k := Put(buf, k, Zeros(202));
    k := Put(buf, k, COOKIE);
  }

  /** The unicast flags, and the client address of a renewal, are written over those of makeDHCPMSG. */
  method PatchHead(buf: array<byte>, ghost xid: u32, ghost mac: Mac, ciaddr: Ip)
    requires IsMessageBuffer(buf)
    requires buf[..OPT_AT + 4] == Head(xid, BROADCAST_FLAG, ZERO_IP, mac) + COOKIE
    modifies buf
    ensures buf[..OPT_AT + 4] == Head(xid, 0, ciaddr, mac) + COOKIE
  {
    hide Head;
    ghost var before := buf[..OPT_AT + 4];
    buf[10], buf[11] := 0, 0;
    buf[12], buf[13], buf[14], buf[15] := ciaddr[0], ciaddr[1], ciaddr[2], ciaddr[3];
    assert buf[..OPT_AT + 4] == before[..10] + [0, 0] + ciaddr + before[16..];
    HeadPatched(xid, mac, ciaddr);
  }

  lemma HeadPatched(xid: u32, mac: Mac, ciaddr: Ip)
    ensures var h := Head(xid, BROADCAST_FLAG, ZERO_IP, mac) + COOKIE;
            h[..10] + [0, 0] + ciaddr + h[16..] == Head(xid, 0, ciaddr, mac) + COOKIE
  {
    hide Zeros, WordBytes;
    var front, back := [1, 1, 6, 0] + WordBytes(xid) + [0, 0], Zeros(12) + mac + Zeros(202) + COOKIE;
    var h := Head(xid, BROADCAST_FLAG, ZERO_IP, mac) + COOKIE;
    assert h == front + [Hi(BROADCAST_FLAG), Lo(BROADCAST_FLAG)] + ZERO_IP + back;
    assert h[..10] == front && h[16..] == back;
    assert Head(xid, 0, ciaddr, mac) + COOKIE == front + [Hi(0), Lo(0)] + ciaddr + back;
  }

  method PutFront(buf: array<byte>, start: nat, kind: byte, mac: Mac) returns (k: nat)
    requires start + 12 <= buf.Length
    modifies buf
    ensures k == start + 12 && buf[..k] == old(buf[..start]) + Wire(Front(kind, mac))
  {
    WirePair(Front(kind, mac)[0], Front(kind, mac)[1]);
    k := Put(buf, start, [MESSAGE_TYPE, 1, kind]);
    k := Put(buf, k, [CLIENT_ID, 7, 1] + mac);
  }

  method PutAddresses(buf: array<byte>, start: nat, leased: Ip, sip: Ip) returns (k: nat)
    requires start + 12 <= buf.Length
    modifies buf
    ensures k == start + 12 && buf[..k] == old(buf[..start]) + Wire(AddressOptions(leased, sip))
  {
    WirePair(AddressOptions(leased, sip)[0], AddressOptions(leased, sip)[1]);
    k := Put(buf, start, [REQUESTED_IP, 4] + leased);
    k := Put(buf, k, [SERVER_ID, 4] + sip);
  }

  /** The host name goes in with length 0, which is then patched. */
  method PutHost(buf: array<byte>, start: nat, host: HostName, mac: Mac) returns (k: nat)
    requires start + |host| + 8 <= buf.Length
    modifies buf
    ensures k == start + |host| + 8
    ensures buf[..k] == old(buf[..start]) + [HOST_NAME, (|host| + 6) as byte] + host + HexTail(mac)
  {
    hide HexTail, NibbleToHex;
    k := Put(buf, start, [HOST_NAME, 0]);
    var i := 0;
    while i < |host|
      invariant i <= |host| && k == start + 2 + i
      invariant buf[..k] == old(buf[..start]) + [HOST_NAME, 0] + host[..i]
    {
      k := Put(buf, k, [host[i]]);
      assert host[..i + 1] == host[..i] + [host[i]];
      i := i + 1;
    }
    k := Put(buf, k, HexTail(mac));
    ghost var before := buf[..k];
    buf[k - (i + 6 + 1)] := (i + 6) as byte;
    assert buf[..k] == before[..start + 1] + [(|host| + 6) as byte] + before[start + 2..];
  }

  method PutTail(buf: array<byte>, start: nat, host: HostName, mac: Mac, more: seq<byte>) returns (k: nat)
    requires |more| <= 2 && start + |host| + 16 + |more| <= buf.Length
    modifies buf
    ensures k == start + |host| + 16 + |more|
    ensures buf[..k] == old(buf[..start]) + Wire(Tail(mac, host, more))
  {
    WirePair(Tail(mac, host, more)[0], Tail(mac, host, more)[1]);
    k := PutHost(buf, start, host, mac);
    k := Put(buf, k, [PARAM_REQUEST, (6 + |more|) as byte]);
    k := Put(buf, k, [SUBNET_MASK, ROUTERS, DNS_SERVERS, DOMAIN_NAME, T1_VALUE, T2_VALUE] + more);
  }

  /** The end option, and zeros in the rest of the field. */
  method Finish(buf: array<byte>, start: nat)
    requires IsMessageBuffer(buf) && start < MSG_SIZE
    modifies buf
    ensures buf[..] == old(buf[..start]) + [END] + Zeros(MSG_SIZE - 1 - start)
  {
    buf[start] := END;
    for i := start + 1 to MSG_SIZE
      invariant buf[..i] == old(buf[..start]) + [END] + Zeros(i - 1 - start)
    {
      buf[i] := 0;
      assert Zeros(i - start) == Zeros(i - 1 - start) + [0];
      assert buf[..i + 1] == buf[..i] + [0];
    }
    assert buf[..MSG_SIZE] == buf[..];
  }

  lemma FieldAssembled(head: seq<byte>, opts: seq<Entry>)
    requires AllWellFormed(opts) && |Wire(opts)| + 5 <= OPT_SIZE && |head| == OPT_AT
    ensures head + COOKIE + Wire(opts) + [END] + Zeros(MSG_SIZE - 1 - (OPT_AT + 4 + |Wire(opts)|))
         == head + OptionField(opts)
  {
    hide Wire, Zeros;
    var wire, zeros := Wire(opts), Zeros(OPT_SIZE - 5 - |Wire(opts)|);
    assert head + COOKIE + wire + [END] + zeros == head + (COOKIE + wire + [END] + zeros);
  }

  method WriteDiscover(buf: array<byte>, xid: u32, mac: Mac, host: HostName)
    requires IsMessageBuffer(buf)
    modifies buf
    ensures |Wire(DiscoverList(mac, host))| + 5 <= OPT_SIZE
    ensures buf[..] == Head(xid, BROADCAST_FLAG, ZERO_IP, mac) + OptionField(DiscoverList(mac, host))
  {
    hide Wire, Front, Tail, Head, Zeros, OptionField;
    ListsFit(mac, host, ZERO_IP, ZERO_IP, ZERO_IP);
    WireConcat(Front(DISCOVER, mac), Tail(mac, host, []));
    MakeMsg(buf, xid, mac);
    var k := PutFront(buf, OPT_AT + 4, DISCOVER, mac);
    k := PutTail(buf, k, host, mac, []);
    Finish(buf, k);
    FieldAssembled(Head(xid, BROADCAST_FLAG, ZERO_IP, mac), DiscoverList(mac, host));
  }

  /** A renewal - `ciaddr` present - is unicast to the server and names the client's address. */
  method WriteRequest(buf: array<byte>, xid: u32, mac: Mac, host: HostName, ciaddr: Option<Ip>, dest: Ip,
                      leased: Ip, sip: Ip)
    requires IsMessageBuffer(buf)
    modifies buf
    ensures |Wire(RequestList(mac, host, dest, leased, sip))| + 5 <= OPT_SIZE
    ensures buf[..] == RequestHead(xid, mac, ciaddr) + OptionField(RequestList(mac, host, dest, leased, sip))
  {
    hide Wire, Front, Tail, AddressOptions, Head, Zeros, OptionField;
    var more := [ROUTER_DISCOVERY, STATIC_ROUTE];
    ListsFit(mac, host, dest, leased, sip);
    MakeMsg(buf, xid, mac);
    if ciaddr.Some? {
      PatchHead(buf, xid, mac, ciaddr.value);
    }
    var k := PutFront(buf, OPT_AT + 4, REQUEST, mac);
    if dest[3] == 255 {
      WireConcat(Front(REQUEST, mac), AddressOptions(leased, sip));
      WireConcat(Front(REQUEST, mac) + AddressOptions(leased, sip), Tail(mac, host, more));
      k := PutAddresses(buf, k, leased, sip);
    } else {
      assert Front(REQUEST, mac) + [] == Front(REQUEST, mac);
      WireConcat(Front(REQUEST, mac), Tail(mac, host, more));
    }
    k := PutTail(buf, k, host, mac, more);
    Finish(buf, k);
    FieldAssembled(RequestHead(xid, mac, ciaddr), RequestList(mac, host, dest, leased, sip));
  }

  function RequestHead(xid: u32, mac: Mac, ciaddr: Option<Ip>): (s: seq<byte>)
    ensures |s| == OPT_AT
  {
    match ciaddr
    case None => Head(xid, BROADCAST_FLAG, ZERO_IP, mac)
    case Some(ip) => Head(xid, 0, ip, mac)
  }

  method WriteDecline(buf: array<byte>, xid: u32, mac: Mac, leased: Ip, sip: Ip)
    requires IsMessageBuffer(buf)
    modifies buf
    ensures |Wire(DeclineList(mac, leased, sip))| + 5 <= OPT_SIZE
    ensures buf[..] == Head(xid, 0, ZERO_IP, mac) + OptionField(DeclineList(mac, leased, sip))
  {
    hide Wire, Front, AddressOptions, Head, Zeros, OptionField;
    ListsFit(mac, [], ZERO_IP, leased, sip);
    WireConcat(Front(DECLINE, mac), AddressOptions(leased, sip));
    MakeMsg(buf, xid, mac);
    PatchHead(buf, xid, mac, ZERO_IP);
    var k := PutFront(buf, OPT_AT + 4, DECLINE, mac);
    k := PutAddresses(buf, k, leased, sip);
    Finish(buf, k);
    FieldAssembled(Head(xid, 0, ZERO_IP, mac), DeclineList(mac, leased, sip));
  }

  // ----- reading back what was written -----

  /** parseDHCPMSG's loop, run over a message the client wrote, sees exactly its option list. */
  lemma WrittenIsRead(mem: Memory, head: seq<byte>, opts: seq<Entry>, svr: Ip, r: Reading)
    requires AllWellFormed(opts) && |Wire(opts)| + 5 <= OPT_SIZE && |head| == OPT_AT
    requires Holds(mem, 0, head + OptionField(opts))
    ensures Walk(mem, OPT_AT + 4, MSG_SIZE, svr, r) == Meaning(opts, svr, r)
  {
    hide Walk, Meaning, Wire, Zeros, Holds;
    var zeros := Zeros(OPT_SIZE - 5 - |Wire(opts)|);
    HoldsParts(mem, 0, head, OptionField(opts));
    assert OptionField(opts) == COOKIE + (Wire(opts) + ([END] + zeros));
    HoldsParts(mem, OPT_AT, COOKIE, Wire(opts) + ([END] + zeros));
    HoldsParts(mem, OPT_AT + 4, Wire(opts), [END] + zeros);
    HeldAt(mem, OPT_AT + 4 + |Wire(opts)|, [END] + zeros, 0);
    WalkReadsMeaning(mem, OPT_AT + 4, MSG_SIZE, opts, svr, r);
  }

  lemma {:induction false} LastConcat(a: seq<Entry>, b: seq<Entry>, code: byte)
    ensures Last(a + b, code) == if Last(b, code).Some? then Last(b, code) else Last(a, code)
    decreases |b|
  {
    if b == [] {
      assert a + b == a;
    } else {
      var n := |b| - 1;
      assert (a + b)[|a + b| - 1] == b[n] && (a + b)[..|a + b| - 1] == a + b[..n];
      LastConcat(a, b[..n], code);
    }
  }

  /**
   What a DHCP agent reads from the three messages: the message type, the host name of the stated length, the
   requested address and the server - in a REQUEST exactly when the destination ends in 255, so in every
   broadcast, and in a renewal only by the accident of the server's address.
   */
  lemma ListsSay(mac: Mac, host: HostName, dest: Ip, leased: Ip, sip: Ip)
    ensures var d := DiscoverList(mac, host);
            && Last(d, MESSAGE_TYPE) == Some([DISCOVER]) && Last(d, HOST_NAME) == Some(host + HexTail(mac))
            && Last(d, REQUESTED_IP) == None && Last(d, SERVER_ID) == None && Last(d, CLIENT_ID) == Some([1] + mac)
            && Last(d, PARAM_REQUEST) == Some([SUBNET_MASK, ROUTERS, DNS_SERVERS, DOMAIN_NAME, T1_VALUE, T2_VALUE])
    ensures var q := RequestList(mac, host, dest, leased, sip);
            && Last(q, MESSAGE_TYPE) == Some([REQUEST]) && Last(q, HOST_NAME) == Some(host + HexTail(mac))
            && Last(q, REQUESTED_IP) == (if dest[3] == 255 then Some(leased) else None)
            && Last(q, SERVER_ID) == (if dest[3] == 255 then Some(sip) else None)
            && Last(q, CLIENT_ID) == Some([1] + mac)
            && Last(q, PARAM_REQUEST) == Some([SUBNET_MASK, ROUTERS, DNS_SERVERS, DOMAIN_NAME, T1_VALUE, T2_VALUE,
                                               ROUTER_DISCOVERY, STATIC_ROUTE])
    ensures var x := DeclineList(mac, leased, sip);
            && Last(x, MESSAGE_TYPE) == Some([DECLINE]) && Last(x, HOST_NAME) == None
            && Last(x, REQUESTED_IP) == Some(leased) && Last(x, SERVER_ID) == Some(sip)
            && Last(x, CLIENT_ID) == Some([1] + mac) && Last(x, PARAM_REQUEST) == None
  {
    hide HexTail, Last;
    var more := [ROUTER_DISCOVERY, STATIC_ROUTE];
    forall code: byte
      ensures Last(DiscoverList(mac, host), code) == Either(Tail(mac, host, []), Front(DISCOVER, mac), code)
      ensures Last(DeclineList(mac, leased, sip), code) ==
        Either(AddressOptions(leased, sip), Front(DECLINE, mac), code)
      ensures Last(Front(REQUEST, mac) + AddressOptions(leased, sip) + Tail(mac, host, more), code) ==
        (if Last(Tail(mac, host, more), code).Some? then Last(Tail(mac, host, more), code)
         else Either(AddressOptions(leased, sip), Front(REQUEST, mac), code))
      ensures Last(Front(REQUEST, mac) + [] + Tail(mac, host, more), code) ==
        Either(Tail(mac, host, more), Front(REQUEST, mac), code)
    {
      LastConcat(Front(DISCOVER, mac), Tail(mac, host, []), code);
      LastConcat(Front(DECLINE, mac), AddressOptions(leased, sip), code);
      LastConcat(Front(REQUEST, mac), AddressOptions(leased, sip), code);
      LastConcat(Front(REQUEST, mac) + AddressOptions(leased, sip), Tail(mac, host, more), code);
      assert Front(REQUEST, mac) + [] == Front(REQUEST, mac);
      LastConcat(Front(REQUEST, mac), Tail(mac, host, more), code);
    }
    var asked := [SUBNET_MASK, ROUTERS, DNS_SERVERS, DOMAIN_NAME, T1_VALUE, T2_VALUE];
    assert asked + [] == asked && asked + more == [1, 3, 6, 15, 58, 59, 31, 33];
    PairLast(Front(DISCOVER, mac));
    PairLast(Front(REQUEST, mac));
    PairLast(Front(DECLINE, mac));
    PairLast(AddressOptions(leased, sip));
    PairLast(Tail(mac, host, []));
    PairLast(Tail(mac, host, more));
  }

  function Either(later: seq<Entry>, earlier: seq<Entry>, code: byte): Option<seq<byte>>
  {
    if Last(later, code).Some? then Last(later, code) else Last(earlier, code)
  }

  function OfPair(opts: seq<Entry>, code: byte): Option<seq<byte>>
    requires |opts| == 2
  {
    if Has(opts[1], code) then Some(opts[1].data) else if Has(opts[0], code) then Some(opts[0].data) else None
  }

  lemma PairLast(opts: seq<Entry>)
    requires |opts| == 2
    ensures forall code :: Last(opts, code) == OfPair(opts, code)
  {
    forall code: byte
      ensures Last(opts, code) == OfPair(opts, code)
    {
      assert opts[..1][..0] == [];
      assert Last(opts[..1], code) == if Has(opts[0], code) then Some(opts[0].data) else None;
    }
  }

  /** So the client's own reader finds in each message its type, and the server identifier where one was written. */
  lemma OwnMessagesReadBack(mem: Memory, head: seq<byte>, opts: seq<Entry>, mac: Mac, host: HostName,
                            dest: Ip, leased: Ip, sip: Ip, svr: Ip, r: Reading)
    requires opts == DiscoverList(mac, host) || opts == RequestList(mac, host, dest, leased, sip)
             || opts == DeclineList(mac, leased, sip)
    requires |head| == OPT_AT && |Wire(opts)| + 5 <= OPT_SIZE && Holds(mem, 0, head + OptionField(opts))
    ensures var read := Walk(mem, OPT_AT + 4, MSG_SIZE, svr, r);
      && (opts == DiscoverList(mac, host) ==> read.kind == DISCOVER && read.net.sip == r.net.sip)
      && (opts == RequestList(mac, host, dest, leased, sip) ==>
           read.kind == REQUEST && read.net.sip == if dest[3] == 255 then sip else r.net.sip)
      && (opts == DeclineList(mac, leased, sip) ==> read.kind == DECLINE && read.net.sip == sip)
  {
    hide Last, Walk, Wire, OptionField, Word, DiscoverList, RequestList, DeclineList;
    WrittenIsRead(mem, head, opts, svr, r);
    ListsSay(mac, host, dest, leased, sip);
    assert sip[..4] == sip;
  }
}
