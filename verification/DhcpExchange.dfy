/**
 What the client does with messages in the format of RFC 2131 and RFC 2132, and what it sends in that format. The
 lemmas speak of the fields of the messages: positions, codes and values are those of the two documents.
 */
module DhcpExchange {
  import opened Arith
  import opened Bytes
  import opened Wrappers
  import opened DhcpOptions
  import opened DhcpMessage
  import opened DhcpState

  /** A received message: the fixed fields, the magic cookie, and an option list that ends with it or before. */
  ghost predicate Carries(d: Datagram, m: Fixed, opts: seq<Entry>)
  {
    && m.Sized() && AllWellFormed(opts)
    && Holds(d.mem, 0, Layout(m) + ([0x63, 0x82, 0x53, 0x63] + Wire(opts)))
    && ListEnds(d.mem, 240 + |Wire(opts)|, d.len)
  }

  /** A sent message: the same, an end option, and zeros up to 548 bytes. */
  ghost predicate Contains(bytes: seq<byte>, m: Fixed, opts: seq<Entry>)
  {
    && m.Sized() && AllWellFormed(opts) && |Wire(opts)| <= 307
    && bytes == Layout(m) + ([0x63, 0x82, 0x53, 0x63] + Wire(opts) + [255] + Zeros(307 - |Wire(opts)|))
  }

  /** From the server port, to this client, and from its server if it has one. */
  predicate Addressed(c: Client, d: Datagram, m: Fixed)
  {
    && d.port == 67 && |m.chaddr| == 16 && m.chaddr[..6] == c.mac
    && (c.net.sip == [0, 0, 0, 0] || d.addr == c.net.sip || d.addr == c.net.realSip)
  }

  // ----- where the fields are -----

  lemma LayoutFields(mem: Memory, m: Fixed, rest: seq<byte>)
    requires m.Sized() && Holds(mem, 0, Layout(m) + rest)
    ensures Slice(mem, 16, 4) == m.yiaddr && Slice(mem, 28, 6) == m.chaddr[..6]
    ensures Holds(mem, 236, rest)
  {
    var front := [m.op, m.htype, m.hlen, m.hops]
      + [m.xid / 0x100_0000, m.xid / 0x1_0000 % 256, m.xid / 256 % 256, m.xid % 256]
      + [m.secs / 256, m.secs % 256, m.flags / 256, m.flags % 256] + m.ciaddr;
    var middle, back := m.siaddr + m.giaddr, m.sname + m.file;
    HoldsParts(mem, 0, Layout(m), rest);
    FieldsApart(mem, front, m.yiaddr, middle, m.chaddr, back, Layout(m));
  }

  lemma FieldsApart(mem: Memory, front: seq<byte>, yiaddr: Ip, middle: seq<byte>, chaddr: seq<byte>, back: seq<byte>,
          whole: seq<byte>)
    requires |front| == 16 && |middle| == 8 && |chaddr| == 16
    requires whole == front + (yiaddr + (middle + (chaddr + back))) && Holds(mem, 0, whole)
    ensures Slice(mem, 16, 4) == yiaddr && Slice(mem, 28, 6) == chaddr[..6]
  {
    HoldsParts(mem, 0, front, yiaddr + (middle + (chaddr + back)));
    HoldsParts(mem, 16, yiaddr, middle + (chaddr + back));
    HoldsParts(mem, 20, middle, chaddr + back);
    HoldsParts(mem, 28, chaddr, back);
  }

  // ----- what is read -----

  /** A message that is addressed to the client is read for what its options mean, any other not at all. */
  lemma ReplyRead(c: Client, d: Datagram, m: Fixed, opts: seq<Entry>)
    requires Carries(d, m, opts)
    ensures Read(c, Some(d)) ==
      if Addressed(c, d, m) then Meaning(opts, d.addr, Reading(0, c.net)) else Reading(0, c.net)
    ensures Offered(Some(d)) == m.yiaddr
  {
    hide Walk, Meaning, Wire, Layout, Holds, AllWellFormed;
    LayoutFields(d.mem, m, [0x63, 0x82, 0x53, 0x63] + Wire(opts));
    HoldsParts(d.mem, 236, [0x63, 0x82, 0x53, 0x63], Wire(opts));
    if Addressed(c, d, m) {
      WalkReadsMeaning(d.mem, 240, d.len, opts, d.addr, Reading(0, c.net));
    }
  }

  /** What is not addressed to the client is as good as not received. */
  lemma OthersIgnored(c: Client, d: Datagram, m: Fixed, opts: seq<Entry>, unique: bool)
    requires Carries(d, m, opts) && !Addressed(c, d, m)
    ensures Run(c, Some(d), unique) == Run(c, None, unique)
  {
    hide Walk, Meaning, Wire, Layout, Holds, AllWellFormed, Read, DiscoverSent, RequestSent, DeclineSent, Carries,
         Addressed;
    ReplyRead(c, d, m, opts);
    NothingRead(c);
  }

  lemma NothingRead(c: Client)
    ensures Read(c, None) == Reading(0, c.net)
    ensures forall d: Datagram :: d.len == 0 ==> Read(c, Some(d)) == Reading(0, c.net)
  {
  }

  /** Four bytes as a number, most significant first. */
  function Number(v: seq<int>): int
    requires |v| == 4
  {
    0x100_0000 * v[0] + 0x1_0000 * v[1] + 0x100 * v[2] + v[3]
  }

  /** The network settings that an option list gives, the last of each option counting. */
  ghost predicate Settings(n: Net, opts: seq<Entry>, svr: Ip, before: Net)
  {
    && (match Last(opts, 1) case Some(v) => |v| == 4 && n.sn == v case None => n.sn == before.sn)
    && (match Last(opts, 3) case Some(v) => |v| >= 4 && n.gw == v[..4] case None => n.gw == before.gw)
    && (match Last(opts, 6) case Some(v) => |v| >= 4 && n.dns == v[..4] case None => n.dns == before.dns)
    && (match Last(opts, 51)
        case Some(v) => |v| == 4 && n.lease == Number(v)
        case None => n.lease == before.lease)
    && (match Last(opts, 54)
        case Some(v) => |v| == 4 && n.sip == v && n.realSip == svr
        case None => n.sip == before.sip && n.realSip == before.realSip)
  }

  lemma MeaningIsSettings(opts: seq<Entry>, svr: Ip, r: Reading)
    requires AllWellFormed(opts)
    ensures Settings(Meaning(opts, svr, r).net, opts, svr, r.net)
    ensures Meaning(opts, svr, r).kind == 
      match Last(opts, 53) case Some(v) => (if v == [] then 0 else v[0]) case None => r.kind
  {
    hide Last, AllWellFormed;
    forall code: byte | Last(opts, code).Some?
      ensures WellFormed(Opt(code, Last(opts, code).value))
    {
      LastWellFormed(opts, code);
    }
  }

  // ----- what is sent -----

  lemma SentContains(head: seq<byte>, m: Fixed, opts: seq<Entry>)
    requires m.Sized() && AllWellFormed(opts) && |Wire(opts)| + 5 <= OPT_SIZE && head == Layout(m)
    ensures Contains(head + OptionField(opts), m, opts)
  {
    hide Wire, Zeros, Layout;
  }

  /** A DISCOVER: broadcast, naming the client's hardware address and nothing else it might have. */
  lemma DiscoverIs(c: Client)
    ensures
      var s, q := DiscoverSent(c), DiscoverList(c.mac, c.host);
      && s.kind == 1 && s.dest == [255, 255, 255, 255]
      && Contains(s.bytes, Requested(c.xid, 0x8000, [0, 0, 0, 0], c.mac), q)
      && Last(q, 53) == Some([1]) && Last(q, 50) == None && Last(q, 54) == None
      && Last(q, 61) == Some([1] + c.mac) && Last(q, 55) == Some([1, 3, 6, 15, 58, 59])
      && Last(q, 12) == Some(c.host + HexTail(c.mac))
  {
    hide Wire, Zeros, Layout, Head, Last, OptionField, DiscoverList, Contains;
    ListsFit(c.mac, c.host, ZERO_IP, ZERO_IP, ZERO_IP);
    ListsSay(c.mac, c.host, ZERO_IP, ZERO_IP, ZERO_IP);
    HeadIsLayout(c.xid, BROADCAST_FLAG, ZERO_IP, c.mac);
    SentContains(Head(c.xid, BROADCAST_FLAG, ZERO_IP, c.mac), Requested(c.xid, 0x8000, [0, 0, 0, 0], c.mac),
                 DiscoverList(c.mac, c.host));
  }

  /**
   A REQUEST. After an OFFER it is broadcast and names the address and the server; in a renewal it goes to the
   server with the address in ciaddr, and the options are there only if the server's address ends in 255.
   */
  lemma RequestIs(c: Client)
    ensures
      var renewing := c.phase == Leased || c.phase == Rerequest;
      var s := RequestSent(c);
      var q := RequestList(c.mac, c.host, s.dest, c.leased, c.net.sip);
      && s.kind == 3 && s.dest == (if renewing then c.net.sip else [255, 255, 255, 255])
      && Contains(s.bytes, Requested(c.xid, if renewing then 0 else 0x8000, if renewing then c.leased else [0, 0, 0, 0],
                                     c.mac), q)
      && Last(q, 53) == Some([3])
      && Last(q, 50) == (if s.dest[3] == 255 then Some(c.leased) else None)
      && Last(q, 54) == (if s.dest[3] == 255 then Some(c.net.sip) else None)
      && Last(q, 61) == Some([1] + c.mac) && Last(q, 55) == Some([1, 3, 6, 15, 58, 59, 31, 33])
      && Last(q, 12) == Some(c.host + HexTail(c.mac))
  {
    hide Wire, Zeros, Layout, Head, Last, OptionField, RequestList, Contains;
    var dest := RequestDest(c);
    var ciaddr: Option<Ip> := if Renewing(c) then Some(c.leased) else None;
    ListsFit(c.mac, c.host, dest, c.leased, c.net.sip);
    ListsSay(c.mac, c.host, dest, c.leased, c.net.sip);
    HeadIsLayout(c.xid, BROADCAST_FLAG, ZERO_IP, c.mac);
    HeadIsLayout(c.xid, 0, c.leased, c.mac);
    SentContains(RequestHead(c.xid, c.mac, ciaddr),
                 Requested(c.xid, if Renewing(c) then 0 else 0x8000, if Renewing(c) then c.leased else [0, 0, 0, 0],
                           c.mac),
                 RequestList(c.mac, c.host, dest, c.leased, c.net.sip));
  }

  /** A DECLINE: broadcast, naming the address and the server. */
  lemma DeclineIs(c: Client)
    ensures
      var s, q := DeclineSent(c), DeclineList(c.mac, c.leased, c.net.sip);
      && s.kind == 4 && s.dest == [255, 255, 255, 255]
      && Contains(s.bytes, Requested(c.xid, 0, [0, 0, 0, 0], c.mac), q)
      && Last(q, 53) == Some([4]) && Last(q, 50) == Some(c.leased) && Last(q, 54) == Some(c.net.sip)
      && Last(q, 61) == Some([1] + c.mac) && Last(q, 12) == None
  {
    hide Wire, Zeros, Layout, Head, Last, OptionField, DeclineList, Contains;
    ListsFit(c.mac, [], ZERO_IP, c.leased, c.net.sip);
    ListsSay(c.mac, [], ZERO_IP, c.leased, c.net.sip);
    HeadIsLayout(c.xid, 0, ZERO_IP, c.mac);
    SentContains(Head(c.xid, 0, ZERO_IP, c.mac), Requested(c.xid, 0, [0, 0, 0, 0], c.mac),
                 DeclineList(c.mac, c.leased, c.net.sip));
  }

  /** The digits behind the host name: the last three bytes of the hardware address, upper-case hexadecimal. */
  lemma HexTailIs(mac: Mac, i: nat)
    requires i < 6
    ensures
      var n := if i % 2 == 0 then mac[3 + i / 2] / 16 else mac[3 + i / 2] % 16;
      HexTail(mac)[i] == HexDigit(n)
  {
    hide NibbleToHex, HexDigit;
    var b := mac[3 + i / 2];
    assert i == 2 * (i / 2) + i % 2;
    DigitIs(b / 16);
    DigitIs(b);
  }

  function HexDigit(n: nat): byte
    requires n < 16
  {
    [48, 49, 50, 51, 52, 53, 54, 55, 56, 57, 65, 66, 67, 68, 69, 70][n]
  }

  lemma DigitIs(n: byte)
    ensures NibbleToHex(n) == HexDigit(n % 16)
  {
  }

  // ----- the steps -----

  /** The first call: the address is forgotten, and so is the server; a DISCOVER goes out. */
  lemma Begins(c: Client, unique: bool)
    requires c.phase == Init
    ensures
      var s := Run(c, None, unique);
      && s.c == c.(phase := Discover, leased := [0, 0, 0, 0],
                   net := c.net.(sip := [0, 0, 0, 0], realSip := [0, 0, 0, 0]))
      && |s.sent| == 1 && s.sent[0].kind == 1 && s.ret == RUNNING && s.call == NoCall
      && Contains(s.sent[0].bytes, Requested(c.xid, 0x8000, [0, 0, 0, 0], c.mac), DiscoverList(c.mac, c.host))
      && s.sent[0].dest == [255, 255, 255, 255]
  {
    hide Contains, DiscoverSent, Last;
    NothingRead(c);
    DiscoverIs(c.(leased := ZERO_IP));
  }

  /**
   An OFFER received in DISCOVER: its yiaddr is the address asked for, its server identifier the server, in one
   broadcast REQUEST that names both.
   */
  lemma OfferIsTaken(c: Client, d: Datagram, m: Fixed, opts: seq<Entry>, unique: bool)
    requires c.phase == Discover && Carries(d, m, opts) && Addressed(c, d, m) && Last(opts, 53) == Some([2])
    ensures
      var s := Run(c, Some(d), unique);
      var q := RequestList(c.mac, c.host, [255, 255, 255, 255], m.yiaddr, s.c.net.sip);
      && s.c.phase == Request && s.c.leased == m.yiaddr && Settings(s.c.net, opts, d.addr, c.net)
      && s.c == c.(phase := Request, leased := m.yiaddr, net := s.c.net)
      && |s.sent| == 1 && s.sent[0].kind == 3 && s.sent[0].dest == [255, 255, 255, 255]
      && s.ret == RUNNING && s.call == NoCall
      && Contains(s.sent[0].bytes, Requested(c.xid, 0x8000, [0, 0, 0, 0], c.mac), q)
      && Last(q, 53) == Some([3]) && Last(q, 50) == Some(m.yiaddr) && Last(q, 54) == Some(s.c.net.sip)
  {
    hide Contains, RequestSent, Last, Meaning, Read, Carries, Addressed, Settings, RequestList, Offered;
    ReplyRead(c, d, m, opts);
    CarriesWellFormed(d, m, opts);
    MeaningIsSettings(opts, d.addr, Reading(0, c.net));
    RequestIs(c.(net := Read(c, Some(d)).net, leased := m.yiaddr));
  }

  lemma CarriesWellFormed(d: Datagram, m: Fixed, opts: seq<Entry>)
    requires Carries(d, m, opts)
    ensures AllWellFormed(opts)
  {
  }

  /**
   An ACK received in REQUEST: with the address unique the lease begins, with the settings of its options;
   otherwise the address is declined at the server that offered it, and the client starts afresh.
   */
  lemma AckIsTaken(c: Client, d: Datagram, m: Fixed, opts: seq<Entry>, unique: bool)
    requires c.phase == Request && Carries(d, m, opts) && Addressed(c, d, m) && Last(opts, 53) == Some([5])
    ensures
      var s := Run(c, Some(d), unique);
      var q := DeclineList(c.mac, c.leased, s.c.net.sip);
      && Settings(s.c.net, opts, d.addr, c.net) && s.ret == RUNNING
      && s.c == c.(phase := if unique then Leased else Init, tick := 0, next := 10, retry := 0, net := s.c.net)
      && s.call == (if unique then IpAssign else IpConflict)
      && (unique ==> s.sent == [])
      && (!unique ==>
           && |s.sent| == 1 && s.sent[0].kind == 4 && s.sent[0].dest == [255, 255, 255, 255]
           && Contains(s.sent[0].bytes, Requested(c.xid, 0, [0, 0, 0, 0], c.mac), q)
           && Last(q, 53) == Some([4]) && Last(q, 50) == Some(c.leased) && Last(q, 54) == Some(s.c.net.sip))
  {
    hide Contains, DeclineSent, Last, Meaning, Read, Carries, Addressed, Settings, DeclineList, Timeout;
    ReplyRead(c, d, m, opts);
    CarriesWellFormed(d, m, opts);
    MeaningIsSettings(opts, d.addr, Reading(0, c.net));
    DeclineIs(c.(net := Read(c, Some(d)).net));
  }

  /** An ACK received while renewing: the same address for another lease, with the settings of its options. */
  lemma RenewalIsTaken(c: Client, d: Datagram, m: Fixed, opts: seq<Entry>, unique: bool)
    requires c.phase == Rerequest && c.old_ == c.leased
    requires Carries(d, m, opts) && Addressed(c, d, m) && Last(opts, 53) == Some([5])
    ensures
      var s := Run(c, Some(d), unique);
      && s.c == c.(phase := Leased, tick := 0, next := 10, retry := 0, net := s.c.net)
      && Settings(s.c.net, opts, d.addr, c.net) && s.sent == [] && s.ret == IP_LEASED && s.call == NoCall
  {
    hide Last, Meaning, Read, Carries, Addressed, Settings, Timeout;
    ReplyRead(c, d, m, opts);
    CarriesWellFormed(d, m, opts);
    MeaningIsSettings(opts, d.addr, Reading(0, c.net));
  }

  /** A NAK received in REQUEST or while renewing: back to waiting for an OFFER, with nothing sent. */
  lemma NakIsTaken(c: Client, d: Datagram, m: Fixed, opts: seq<Entry>, unique: bool)
    requires c.phase == Request || c.phase == Rerequest
    requires Carries(d, m, opts) && Addressed(c, d, m) && Last(opts, 53) == Some([6])
    ensures
      var s := Run(c, Some(d), unique);
      && s.c == c.(phase := Discover, tick := 0, next := 10, retry := 0, net := s.c.net) && s.sent == []
      && Settings(s.c.net, opts, d.addr, c.net) && s.call == NoCall
      && s.ret == (if c.phase == Request then RUNNING else IP_LEASED)
  {
    hide Last, Meaning, Read, Carries, Addressed, Settings, Timeout;
    ReplyRead(c, d, m, opts);
    CarriesWellFormed(d, m, opts);
    MeaningIsSettings(opts, d.addr, Reading(0, c.net));
  }

  /**
   Nothing received while an answer is awaited. Not more than ten seconds after the last message nothing happens,
   later the same message goes out again, twice at most; then the client gives up, or begins again with a DISCOVER.
   */
  lemma Unanswered(c: Client, unique: bool)
    requires c.phase in {Discover, Request, Rerequest} && 0 <= c.retry <= 2 && c.next == 10
    ensures
      var s := Run(c, None, unique);
      && s.call == NoCall && |s.sent| <= 1
      && (c.retry < 2 && c.tick <= 10 ==> s.c == c && s.sent == [] && s.ret == RUNNING)
      && (c.retry < 2 && c.tick > 10 ==>
           && s.c == c.(tick := 0, retry := c.retry + 1, net := s.c.net) && s.ret == RUNNING
           && s.sent == [if c.phase == Discover then DiscoverSent(c) else RequestSent(c)])
      && (c.retry == 2 ==>
           && s.c.retry == 0 && s.c.tick == 0 && s.ret == (if c.phase == Discover then FAILED else RUNNING)
           && s.c.phase == (if c.phase == Discover then Init else Discover)
           && s.sent == (if c.phase == Discover then [] else [DiscoverSent(c)]))
      && (s.c.net == if s.c.phase == Discover && s.sent != [] then c.net.(sip := [0, 0, 0, 0], realSip := [0, 0, 0, 0])
                     else c.net)
  {
    hide DiscoverSent, RequestSent;
    NothingRead(c);
  }

  /** From nothing to a lease: three calls, a DISCOVER, the REQUEST for what was offered, and the ACK's settings. */
  lemma LeaseObtained(c: Client, offer: Datagram, m: Fixed, opts: seq<Entry>,
          ack: Datagram, m': Fixed, opts': seq<Entry>)
    requires c.phase == Init && Carries(offer, m, opts) && Carries(ack, m', opts')
    requires offer.port == ack.port == 67 && m.chaddr[..6] == m'.chaddr[..6] == c.mac && offer.addr == ack.addr
    requires Last(opts, 53) == Some([2]) && Last(opts, 54).Some? && Last(opts', 53) == Some([5])
    ensures
      var a := Run(c, None, true);
      var b := Run(a.c, Some(offer), true);
      var l := Run(b.c, Some(ack), true);
      && l.c.phase == Leased && l.c.leased == m.yiaddr && Settings(l.c.net, opts', ack.addr, b.c.net)
      && |a.sent| == |b.sent| == 1 && a.sent[0].kind == 1 && b.sent[0].kind == 3 && l.sent == [] && l.call == IpAssign
      && b.c.net.sip == Last(opts, 54).value
  {
    hide Contains, Run, Last, DiscoverList, RequestList, DeclineList;
    Begins(c, true);
    var a := Run(c, None, true).c;
    OfferIsTaken(a, offer, m, opts, true);
    var b := Run(a, Some(offer), true).c;
    AckIsTaken(b, ack, m', opts', true);
  }
}
