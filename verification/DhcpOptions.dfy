/** The DHCP option field: the list format of RFC 2132, and the loop of parseDHCPMSG that reads it. */
module DhcpOptions {
  import opened Arith
  import opened Bytes
  import opened Wrappers

  const PAD: byte := 0
  const SUBNET_MASK: byte := 1
  const ROUTERS: byte := 3
  const DNS_SERVERS: byte := 6
  const HOST_NAME: byte := 12
  const DOMAIN_NAME: byte := 15
  const ROUTER_DISCOVERY: byte := 31
  const STATIC_ROUTE: byte := 33
  const REQUESTED_IP: byte := 50
  const LEASE_TIME: byte := 51
  const MESSAGE_TYPE: byte := 53
  const SERVER_ID: byte := 54
  const PARAM_REQUEST: byte := 55
  const T1_VALUE: byte := 58
  const T2_VALUE: byte := 59
  const CLIENT_ID: byte := 61
  const END: byte := 255

  type Ip = s: seq<byte> | |s| == 4 witness [0, 0, 0, 0]

  /** What the client remembers from the options it has read. */
  datatype Net = Net(sn: Ip, gw: Ip, dns: Ip, lease: u32, sip: Ip, realSip: Ip)

  datatype Reading = Reading(kind: byte, net: Net)

  function Word(b: Ip): u32
  {
    var hi: nat, lo: nat := Join(b[0], b[1]), Join(b[2], b[3]);
    hi * 0x1_0000 + lo
  }

  // ----- the loop -----

  datatype Visit = Visit(next: nat, r: Reading)

  /** One round: the option at p, and where the next one is looked for. */
  function VisitOption(mem: Memory, p: nat, e: int, svr: Ip, r: Reading): (v: Visit)
    requires p < e
    ensures v.next > p
  {
    var code := mem(p);
    var after := p + 2 + mem(p + 1);
    if code == END then Visit(e, r)
    else if code == PAD then Visit(p + 1, r)
    else if code == MESSAGE_TYPE then Visit(p + 3, r.(kind := mem(p + 2)))
    else if code == SUBNET_MASK then Visit(p + 6, r.(net := r.net.(sn := Slice(mem, p + 2, 4))))
    else if code == ROUTERS then Visit(after, r.(net := r.net.(gw := Slice(mem, p + 2, 4))))
    else if code == DNS_SERVERS then Visit(after, r.(net := r.net.(dns := Slice(mem, p + 2, 4))))
    else if code == LEASE_TIME then Visit(p + 6, r.(net := r.net.(lease := Word(Slice(mem, p + 2, 4)))))
    else if code == SERVER_ID then
      Visit(p + 6, r.(net := r.net.(sip := Slice(mem, p + 2, 4), realSip := svr)))
    else Visit(after, r)
  }

  function Walk(mem: Memory, p: nat, e: int, svr: Ip, r: Reading): Reading
    decreases e - p
  {
    if p >= e then r else
    var v := VisitOption(mem, p, e, svr, r);
    Walk(mem, v.next, e, svr, v.r)
  }

  class Parser {
    var kind: byte
    var net: Net

    constructor (net: Net)
      ensures this.net == net && kind == 0
    {
      this.net, kind := net, 0;
    }

    /**
     The loop over the options from start to e. It ends on every content: each round moves p on, also where
     the correction by opt_len - 4 moves it back again.
     */
    method ParseOptions(mem: Memory, start: nat, e: int, svr: Ip)
      modifies this
      ensures Reading(kind, net) == Walk(mem, start, e, svr, Reading(old(kind), old(net)))
    {
      hide VisitOption;
      var p: nat := start;
      while p < e
        invariant Walk(mem, start, e, svr, Reading(old(kind), old(net))) == Walk(mem, p, e, svr, Reading(kind, net))
        decreases e - p
      {
        p := Switch(mem, p, e, svr);
      }
    }

    /** The switch in the loop's body. */
    method Switch(mem: Memory, start: nat, e: int, svr: Ip) returns (p: int)
      requires start < e
      modifies this
      ensures p > start && VisitOption(mem, start, e, svr, Reading(old(kind), old(net))) == Visit(p, Reading(kind, net))
    {
      hide Slice, Word;
      p := start;
      var code := mem(p);
      if code == END {
        p := e;
      } else if code == PAD {
        p := p + 1;
      } else if code == MESSAGE_TYPE {
        p := p + 2;
        kind := mem(p);
        p := p + 1;
      } else if code == SUBNET_MASK {
        p := p + 2;
        net := net.(sn := Slice(mem, p, 4));
        p := p + 4;
      } else if code == ROUTERS {
        p := p + 1;
        var optLen: int := mem(p);
        p := p + 1;
        net := net.(gw := Slice(mem, p, 4));
        p := p + 4;
        p := p + (optLen - 4);
      } else if code == DNS_SERVERS {
        p := p + 1;
        var optLen: int := mem(p);
        p := p + 1;
        net := net.(dns := Slice(mem, p, 4));
        p := p + 4;
        p := p + (optLen - 4);
      } else if code == LEASE_TIME {
        p := p + 2;
        net := net.(lease := Word(Slice(mem, p, 4)));
        p := p + 4;
      } else if code == SERVER_ID {
        p := p + 2;
        net := net.(sip := Slice(mem, p, 4), realSip := svr);
        p := p + 4;
      } else {
        p := p + 1;
        var optLen: int := mem(p);
        p := p + 1;
        p := p + optLen;
      }
    }
  }

  // ----- option lists -----

  datatype Entry = Pad | Opt(code: byte, data: seq<byte>)

  /** RFC 2132: the fixed lengths of the options the client reads, and a length that fits its byte. */
  predicate WellFormed(o: Entry)
  {
    match o
    case Pad => true
    case Opt(code, data) =>
      && code != PAD && code != END && |data| < 256
      && (code == MESSAGE_TYPE ==> |data| == 1)
      && (code in {SUBNET_MASK, LEASE_TIME, SERVER_ID} ==> |data| == 4)
      && (code in {ROUTERS, DNS_SERVERS} ==> |data| >= 4)
  }

  predicate AllWellFormed(opts: seq<Entry>)
  {
    forall i :: 0 <= i < |opts| ==> WellFormed(opts[i])
  }

  function Encode(o: Entry): seq<byte>
    requires WellFormed(o)
  {
    match o
    case Pad => [PAD]
    case Opt(code, data) => [code, |data| as byte] + data
  }

  function Wire(opts: seq<Entry>): seq<byte>
    requires AllWellFormed(opts)
  {
    if opts == [] then [] else Encode(opts[0]) + Wire(opts[1..])
  }

  predicate Has(o: Entry, code: byte) { o.Opt? && o.code == code }

  /** The data of the last option with this code. */
  function Last(opts: seq<Entry>, code: byte): Option<seq<byte>>
  {
    if opts == [] then None
    else if Has(opts[|opts| - 1], code) then Some(opts[|opts| - 1].data)
    else Last(opts[..|opts| - 1], code)
  }

  /** Four bytes of it, or what was known before. */
  function Address(opts: seq<Entry>, code: byte, before: Ip): Ip
  {
    match Last(opts, code)
    case None => before
    case Some(data) => if |data| < 4 then before else data[..4]
  }

  /** What a list means: of each option the client reads, the last occurrence counts. */
  function Meaning(opts: seq<Entry>, svr: Ip, r: Reading): Reading
  {
    var lease := Last(opts, LEASE_TIME);
    var kind := Last(opts, MESSAGE_TYPE);
    Reading(
      if kind.Some? && kind.value != [] then kind.value[0] else r.kind,
      Net(Address(opts, SUBNET_MASK, r.net.sn),
          Address(opts, ROUTERS, r.net.gw),
          Address(opts, DNS_SERVERS, r.net.dns),
          if lease.Some? && |lease.value| == 4 then Word(lease.value) else r.net.lease,
          Address(opts, SERVER_ID, r.net.sip),
          if Last(opts, SERVER_ID).Some? then svr else r.net.realSip))
  }

  lemma {:induction false} LastFront(opts: seq<Entry>, code: byte)
    requires opts != []
    ensures Last(opts, code) ==
      if Last(opts[1..], code).Some? then Last(opts[1..], code)
      else if Has(opts[0], code) then Some(opts[0].data) else None
  {
    var n := |opts| - 1;
    if n == 0 {
      assert opts[..n] == [];
    } else {
      LastFront(opts[..n], code);
      assert opts[..n][1..] == opts[1..][..n - 1];
      assert opts[1..][n - 1] == opts[n];
    }
  }

  lemma {:induction false} LastWellFormed(opts: seq<Entry>, code: byte)
    requires AllWellFormed(opts) && Last(opts, code).Some?
    ensures WellFormed(Opt(code, Last(opts, code).value))
  {
    if !Has(opts[|opts| - 1], code) {
      LastWellFormed(opts[..|opts| - 1], code);
    }
  }

  lemma LastFronts(opts: seq<Entry>)
    requires AllWellFormed(opts) && opts != []
    ensures forall code :: code in {SUBNET_MASK, ROUTERS, DNS_SERVERS, LEASE_TIME, MESSAGE_TYPE, SERVER_ID} ==>
      && Last(opts, code) == (if Last(opts[1..], code).Some? then Last(opts[1..], code)
                              else if Has(opts[0], code) then Some(opts[0].data) else None)
      && (Last(opts[1..], code).Some? ==> WellFormed(Opt(code, Last(opts[1..], code).value)))
  {
    forall code: byte
      ensures Last(opts, code) == if Last(opts[1..], code).Some? then Last(opts[1..], code)
                                  else if Has(opts[0], code) then Some(opts[0].data) else None
      ensures Last(opts[1..], code).Some? ==> WellFormed(Opt(code, Last(opts[1..], code).value))
    {
      LastFront(opts, code);
      if Last(opts[1..], code).Some? {
        LastWellFormed(opts[1..], code);
      }
    }
  }

  /** What one option changes. */
  function Effect(o: Entry, svr: Ip, r: Reading): Reading
    requires WellFormed(o)
  {
    if Has(o, MESSAGE_TYPE) then r.(kind := o.data[0])
    else if Has(o, SUBNET_MASK) then r.(net := r.net.(sn := o.data))
    else if Has(o, ROUTERS) then r.(net := r.net.(gw := o.data[..4]))
    else if Has(o, DNS_SERVERS) then r.(net := r.net.(dns := o.data[..4]))
    else if Has(o, LEASE_TIME) then r.(net := r.net.(lease := Word(o.data)))
    else if Has(o, SERVER_ID) then r.(net := r.net.(sip := o.data, realSip := svr))
    else r
  }

  lemma MeaningFront(opts: seq<Entry>, svr: Ip, r: Reading)
    requires AllWellFormed(opts) && opts != []
    ensures Meaning(opts, svr, r) == Meaning(opts[1..], svr, Effect(opts[0], svr, r))
  {
    hide Last, Word;
    LastFronts(opts);
    assert WellFormed(opts[0]);
  }

  lemma VisitIsEffect(mem: Memory, p: nat, e: int, o: Entry, svr: Ip, r: Reading)
    requires WellFormed(o) && Holds(mem, p, Encode(o)) && p < e
    ensures VisitOption(mem, p, e, svr, r) == Visit(p + |Encode(o)|, Effect(o, svr, r))
  {
    hide Word, Slice, Holds;
    if o.Opt? {
      HoldsParts(mem, p, [o.code, |o.data| as byte], o.data);
      HeldAt(mem, p, [o.code, |o.data| as byte], 0);
      HeldAt(mem, p, [o.code, |o.data| as byte], 1);
      SliceHeld(mem, p + 2, o.data);
    } else {
      HeldAt(mem, p, [PAD], 0);
    }
  }

  lemma HeldAt(mem: Memory, p: nat, data: seq<byte>, i: nat)
    requires Holds(mem, p, data) && i < |data|
    ensures mem(p + i) == data[i]
  {
  }

  lemma SliceHeld(mem: Memory, p: nat, data: seq<byte>)
    requires Holds(mem, p, data)
    ensures |data| >= 4 ==> Slice(mem, p, 4) == data[..4]
    ensures |data| >= 1 ==> mem(p) == data[0]
  {
    if |data| >= 1 { assert mem(p + 0) == data[0]; }
  }

  /** The list ends here: at the end of the message, or at an end option inside it. */
  ghost predicate ListEnds(mem: Memory, p: nat, e: int)
  {
    p == e || (p < e && mem(p) == END)
  }

  lemma EmptyMeaning(svr: Ip, r: Reading)
    ensures Meaning([], svr, r) == r
  {
  }

  lemma EndStops(mem: Memory, p: nat, e: int, svr: Ip, r: Reading)
    ensures p < e && mem(p) == END ==> VisitOption(mem, p, e, svr, r) == Visit(e, r)
  {
  }

  /**
   On a list that RFC 2132 allows the loop stops at its end and has read, of each option, the last occurrence.
   */
  lemma {:induction false} WalkReadsMeaning(mem: Memory, p: nat, e: int, opts: seq<Entry>, svr: Ip, r: Reading)
    requires AllWellFormed(opts) && Holds(mem, p, Wire(opts)) && ListEnds(mem, p + |Wire(opts)|, e)
    ensures Walk(mem, p, e, svr, r) == Meaning(opts, svr, r)
    decreases |opts|
  {
    hide VisitOption, Holds, Effect, Last;
    if opts == [] {
      EmptyMeaning(svr, r);
      EndStops(mem, p, e, svr, r);
      if p < e {
        assert Walk(mem, e, e, svr, r) == r;
      }
    } else {
      HoldsParts(mem, p, Encode(opts[0]), Wire(opts[1..]));
      MeaningFront(opts, svr, r);
      VisitIsEffect(mem, p, e, opts[0], svr, r);
      var v := VisitOption(mem, p, e, svr, r);
      WalkReadsMeaning(mem, v.next, e, opts[1..], svr, v.r);
    }
  }
}
