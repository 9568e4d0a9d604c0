/** dns_question, dns_answer and parseDNSMSG, against the record format of sections 4.1.1 to 4.1.3 of RFC 1035. */
module DnsMessage {
  import opened Arith
  import opened Bytes
  import opened Wrappers
  import opened DnsName
  import opened DnsQuery

  const TYPE_A := 1
  const TYPE_NS := 2
  const TYPE_CNAME := 5
  const TYPE_SOA := 6
  const TYPE_MB := 7
  const TYPE_MG := 8
  const TYPE_MR := 9
  const TYPE_PTR := 12
  const TYPE_HINFO := 13
  const TYPE_MX := 15

  const CLASS_IN := 1

  function Get16(mem: Memory, p: nat): u16 { Join(mem(p), mem(p + 1)) }

  /** The types whose data is a single domain name. */
  predicate NameType(t: u16) { t in {TYPE_CNAME, TYPE_MB, TYPE_MG, TYPE_MR, TYPE_NS, TYPE_PTR} }

  predicate SkippedType(t: u16) { NameType(t) || t in {TYPE_A, TYPE_HINFO, TYPE_MX, TYPE_SOA} }

  // ----- what the parser does, as functions of the message -----

  /** Where the parser goes on, or why it does not: a name is too long, or was written past the end of its buffer. */
  datatype Next = At(p: nat) | TooLong | Overrun

  function SkipName(mem: Memory, cp: nat): Next
  {
    match Decode(mem, cp, MAXCNAME)
    case None => TooLong
    case Some(name) => if |Shown(name.text)| <= MAXCNAME then At(cp + name.length) else Overrun
  }

  function QuestionEnd(mem: Memory, cp: nat): Next
  {
    match SkipName(mem, cp)
    case At(p) => At(p + 4)
    case stop => stop
  }

  /** Where the parser thinks the data at p of a record of type t ends. */
  function RdataEnd(mem: Memory, t: u16, p: nat): Next
  {
    if t == TYPE_A then At(p + 4)
    else if NameType(t) then SkipName(mem, p)
    else if t == TYPE_HINFO then
      var q := p + 1 + mem(p);
      At(q + 1 + mem(q))
    else if t == TYPE_MX then SkipName(mem, p + 2)
    else if t == TYPE_SOA then
      match SkipName(mem, p)
      case At(q) => (match SkipName(mem, q)
                     case At(r) => At(r + 20)
                     case stop => stop)
      case stop => stop
    else At(p)
  }

  function AnswerEnd(mem: Memory, cp: nat): Next
  {
    match SkipName(mem, cp)
    case At(p) => RdataEnd(mem, Get16(mem, p), p + 10)
    case stop => stop
  }

  /** The address buffer after the answer at cp. */
  function Address(mem: Memory, cp: nat, ip: seq<byte>): seq<byte>
  {
    match SkipName(mem, cp)
    case At(p) => if Get16(mem, p) == TYPE_A then Slice(mem, p + 10, 4) else ip
    case _ => ip
  }

  lemma FailureKeepsAddress(mem: Memory, cp: nat, ip: seq<byte>)
    requires !AnswerEnd(mem, cp).At?
    ensures Address(mem, cp, ip) == ip
  {
  }

  function Questions(mem: Memory, cp: nat, n: nat): Next
    decreases n
  {
    if n == 0 then At(cp) else
    match QuestionEnd(mem, cp)
    case At(next) => Questions(mem, next, n - 1)
    case stop => stop
  }

  datatype Walk = Walk(next: Next, ip: seq<byte>)

  function Answers(mem: Memory, cp: nat, n: nat, ip: seq<byte>): Walk
    decreases n
  {
    if n == 0 then Walk(At(cp), ip) else
    match AnswerEnd(mem, cp)
    case At(next) => Answers(mem, next, n - 1, Address(mem, cp, ip))
    case stop => Walk(stop, ip)
  }

  datatype Header = Header(id: u16, qr: byte, opcode: byte, aa: byte, tc: byte, rd: byte, ra: byte, rcode: byte,
                           qdcount: u16, ancount: u16, nscount: u16, arcount: u16)

  function HeaderOf(mem: Memory): Header
  {
    var tmp := Get16(mem, 2);
    Header(Get16(mem, 0),
           tmp / 0x8000, tmp / 0x800 % 16, tmp / 0x400 % 2, tmp / 0x200 % 2, tmp / 0x100 % 2, tmp / 0x80 % 2, tmp % 16,
           Get16(mem, 4), Get16(mem, 6), Get16(mem, 8), Get16(mem, 10))
  }

  /** The 16-bit word at p, most significant byte first. */
  ghost predicate WordIs(mem: Memory, p: nat, v: int) { 256 * mem(p) + mem(p + 1) == v }

  lemma WordRead(mem: Memory, p: nat, v: int)
    ensures WordIs(mem, p, v) <==> Get16(mem, p) == v
  {
  }

  /** Section 4.1.1 of RFC 1035: the header's six words; the second has one bit a flag, four for opcode and rcode. */
  ghost predicate HeaderHeld(mem: Memory, h: Header, z: nat)
  {
    && h.qr < 2 && h.opcode < 16 && h.aa < 2 && h.tc < 2 && h.rd < 2 && h.ra < 2 && z < 8 && h.rcode < 16
    && WordIs(mem, 0, h.id)
    && WordIs(mem, 2, h.qr * 0x8000 + h.opcode * 0x800 + h.aa * 0x400 + h.tc * 0x200 + h.rd * 0x100 + h.ra * 0x80
                      + z * 0x10 + h.rcode)
    && WordIs(mem, 4, h.qdcount) && WordIs(mem, 6, h.ancount) && WordIs(mem, 8, h.nscount) && WordIs(mem, 10, h.arcount)
  }

  /** What a message's header holds is what is read of it, field by field. */
  lemma HeaderRead(mem: Memory, h: Header, z: nat)
    requires HeaderHeld(mem, h, z)
    ensures HeaderOf(mem) == h
  {
    hide Get16, WordIs;
    WordRead(mem, 0, h.id);
    WordRead(mem, 2, Get16(mem, 2));
    WordRead(mem, 4, h.qdcount);
    WordRead(mem, 6, h.ancount);
    WordRead(mem, 8, h.nscount);
    WordRead(mem, 10, h.arcount);
    FlagsTaken(mem, h, z);
  }

  /** The flag word taken apart. */
  lemma FlagsTaken(mem: Memory, h: Header, z: nat)
    requires HeaderHeld(mem, h, z)
    ensures
      var w := Get16(mem, 2);
      && w / 0x8000 == h.qr && w / 0x800 % 16 == h.opcode && w / 0x400 % 2 == h.aa && w / 0x200 % 2 == h.tc
      && w / 0x100 % 2 == h.rd && w / 0x80 % 2 == h.ra && w % 16 == h.rcode
  {
    hide Get16, WordIs;
    var w := h.qr * 0x8000 + h.opcode * 0x800 + h.aa * 0x400 + h.tc * 0x200 + h.rd * 0x100 + h.ra * 0x80 + z * 0x10
             + h.rcode;
    WordRead(mem, 2, w);
    Quotient(w, 0x80, h.qr * 0x100 + h.opcode * 0x10 + h.aa * 8 + h.tc * 4 + h.rd * 2 + h.ra, z * 0x10 + h.rcode);
    Quotient(w / 0x80, 2, h.qr * 0x80 + h.opcode * 8 + h.aa * 4 + h.tc * 2 + h.rd, h.ra);
    Quotient(w / 0x100, 2, h.qr * 0x40 + h.opcode * 4 + h.aa * 2 + h.tc, h.rd);
    Quotient(w / 0x200, 2, h.qr * 0x20 + h.opcode * 2 + h.aa, h.tc);
    Quotient(w / 0x400, 2, h.qr * 0x10 + h.opcode, h.aa);
    Quotient(w / 0x800, 16, h.qr, h.opcode);
  }

  lemma Quotient(w: int, d: int, q: int, r: int)
    requires d > 0 && w == q * d + r && 0 <= r < d
    ensures w / d == q && w % d == r
  {
    DivModUnique(w, d, q, r);
  }

  /** parseDNSMSG's result; after a write past the end of a buffer there is no result to speak of. */
  datatype Reply = Code(code: int) | Undefined

  function ReplyOf(next: Next, rcode: byte): Reply
  {
    match next
    case TooLong => Code(-1)
    case Overrun => Undefined
    case At(_) => Code(if rcode == 0 then 1 else 0)
  }

  function Parsed(mem: Memory, ip: seq<byte>): (r: (Reply, seq<byte>))
  {
    var h := HeaderOf(mem);
    match Questions(mem, 12, h.qdcount)
    case At(cp) =>
      var walk := Answers(mem, cp, h.ancount, ip);
      (ReplyOf(walk.next, h.rcode), walk.ip)
    case stop => (ReplyOf(stop, h.rcode), ip)
  }

  // ----- the parser -----

  /** A call of parse_name as the parser makes it, with a buffer of MAXCNAME bytes. */
  method SkipNameAt(mem: Memory, cp: nat) returns (next: Next)
    ensures next == SkipName(mem, cp)
  {
    var name := new byte[MAXCNAME];
    var len, inside := ParseName(mem, cp, name, MAXCNAME);
    next := if len == -1 then TooLong else if inside then At(cp + len) else Overrun;
  }

  method DnsQuestion(mem: Memory, cp: nat) returns (next: Next)
    ensures next == QuestionEnd(mem, cp)
  {
    next := SkipNameAt(mem, cp);
    if next.At? {
      next := At(next.p + 4);
    }
  }

  method DnsAnswer(mem: Memory, start: nat, ip: array<byte>) returns (next: Next)
    requires ip.Length == 4
    modifies ip
    ensures next == AnswerEnd(mem, start)
    ensures ip[..] == Address(mem, start, old(ip[..]))
  {
    hide SkipName;
    next := SkipNameAt(mem, start);
    if !next.At? { return; }
    var cp: nat := next.p;
    var t := Get16(mem, cp);
    cp := cp + 10;
    if t == TYPE_A {
      for i := 0 to 4
        invariant forall k :: 0 <= k < i ==> ip[k] == mem(cp + k)
      {
        ip[i] := mem(cp + i);
      }
      next := At(cp + 4);
    } else if NameType(t) {
      next := SkipNameAt(mem, cp);
    } else if t == TYPE_HINFO {
      var len: nat := mem(cp);
      cp := cp + 1 + len;
      len := mem(cp);
      cp := cp + 1 + len;
      next := At(cp);
    } else if t == TYPE_MX {
      next := SkipNameAt(mem, cp + 2);
    } else if t == TYPE_SOA {
      next := SkipNameAt(mem, cp);
      if !next.At? { return; }
      next := SkipNameAt(mem, next.p);
      if !next.At? { return; }
      next := At(next.p + 20);
    } else {
      next := At(cp);
    }
  }

  /** parseDNSMSG: -1 when a name does not fit its buffer, otherwise whether the response code is 0. */
  method ParseDnsMsg(mem: Memory, ip: array<byte>) returns (reply: Reply, h: Header)
    requires ip.Length == 4
    modifies ip
    ensures h == HeaderOf(mem)
    ensures (reply, ip[..]) == Parsed(mem, old(ip[..]))
  {
    hide AnswerEnd, Address, QuestionEnd, HeaderOf, Answers, Questions;
    h := HeaderOf(mem);
    var next := SkipQuestions(mem, h.qdcount);
    if next.At? {
      next := ReadAnswers(mem, next.p, h.ancount, ip);
    }
    reply := match next
      case TooLong => Code(-1)
      case Overrun => Undefined
      case At(_) => Code(if h.rcode == 0 then 1 else 0);
  }

  /** The loop over the question section. */
  method SkipQuestions(mem: Memory, n: nat) returns (next: Next)
    ensures next == Questions(mem, 12, n)
  {
    hide QuestionEnd;
    var cp: nat := 12;
    for i := 0 to n
      invariant Questions(mem, 12, n) == Questions(mem, cp, n - i)
    {
      next := DnsQuestion(mem, cp);
      if !next.At? { return; }
      cp := next.p;
    }
    next := At(cp);
  }

  /** The loop over the answer section. */
  method ReadAnswers(mem: Memory, start: nat, n: nat, ip: array<byte>) returns (next: Next)
    requires ip.Length == 4
    modifies ip
    ensures Answers(mem, start, n, old(ip[..])) == Walk(next, ip[..])
  {
    hide AnswerEnd, Address;
    var cp := start;
    for i := 0 to n
      invariant Answers(mem, start, n, old(ip[..])) == Answers(mem, cp, n - i, ip[..])
    {
      ghost var before := ip[..];
      next := DnsAnswer(mem, cp, ip);
      if !next.At? {
        FailureKeepsAddress(mem, cp, before);
        return;
      }
      cp := next.p;
    }
    next := At(cp);
  }

  // ----- the record format -----

  /** Sections 3.3 and 3.4.1: the n bytes of data at p have the layout of their type. */
  ghost predicate Rdata(mem: Memory, t: u16, p: nat, n: nat)
  {
    if t == TYPE_A then n == 4
    else if NameType(t) then NameField(mem, p, n)
    else if t == TYPE_HINFO then n == 1 + mem(p) + 1 + mem(p + 1 + mem(p))
    else if t == TYPE_MX then n >= 2 && NameField(mem, p + 2, n - 2)
    else if t == TYPE_SOA then
      exists k: nat :: NameField(mem, p, k) && k + 20 <= n && NameField(mem, p + k, n - k - 20)
    else true
  }

  // ----- which names can be read -----

  /**
   A name is read when its text is shorter than the buffer; one that is exactly as long is decoded, but its
   terminator lands outside; a longer one, or one without an expansion, is refused.
   */
  datatype Verdict = Fits | Full | Refused

  ghost function NameVerdict(mem: Memory, p: nat): Verdict
  {
    if HasShortExpansion(mem, p, MAXCNAME - 1) then Fits
    else if HasShortExpansion(mem, p, MAXCNAME) then Full
    else Refused
  }

  /** The parser stops at the first name it cannot read. */
  function First(a: Verdict, b: Verdict): Verdict { if a == Fits then b else a }

  ghost function RdataVerdict(mem: Memory, t: u16, p: nat): Verdict
  {
    if NameType(t) then NameVerdict(mem, p)
    else if t == TYPE_MX then NameVerdict(mem, p + 2)
    else if t == TYPE_SOA then
      First(NameVerdict(mem, p),
            if exists k :: NameField(mem, p, k) then
              (var k: nat :| NameField(mem, p, k); NameVerdict(mem, p + k))
            else Fits)
    else Fits
  }

  /** A resource record from `start` to `end` whose owner name takes `owner` bytes. */
  datatype Record = Record(start: nat, owner: nat, end: nat)
  {
    function Type(mem: Memory): u16 { Get16(mem, start + owner) }

    function Length(mem: Memory): u16 { Get16(mem, start + owner + 8) }

    function Data(): nat { start + owner + 10 }

    ghost predicate WellFormed(mem: Memory)
    {
      && NameField(mem, start, owner)
      && end == Data() + Length(mem)
      && Rdata(mem, Type(mem), Data(), Length(mem))
    }

    ghost function Verdict(mem: Memory): Verdict
    {
      First(NameVerdict(mem, start), RdataVerdict(mem, Type(mem), Data()))
    }
  }

  lemma SkipNameIs(mem: Memory, cp: nat, n: nat)
    requires NameField(mem, cp, n)
    ensures SkipName(mem, cp) == Outcome(NameVerdict(mem, cp), cp + n)
  {
    DecodeIsExpansion(mem, cp, MAXCNAME);
    StaysInside(mem, cp, MAXCNAME);
    if Decode(mem, cp, MAXCNAME).Some? {
      OneLength(mem, cp, n, Decode(mem, cp, MAXCNAME).value.length);
    } else {
      ShorterFits(mem, cp, MAXCNAME - 1, MAXCNAME);
    }
  }

  lemma ShorterFits(mem: Memory, cp: nat, a: nat, b: nat)
    requires a <= b
    ensures HasShortExpansion(mem, cp, a) ==> HasShortExpansion(mem, cp, b)
  {
  }

  function Outcome(v: Verdict, end: nat): Next
  {
    match v
    case Fits => At(end)
    case Full => Overrun
    case Refused => TooLong
  }

  lemma RdataEndIs(mem: Memory, t: u16, p: nat, n: nat)
    requires Rdata(mem, t, p, n)
    ensures SkippedType(t) ==> RdataEnd(mem, t, p) == Outcome(RdataVerdict(mem, t, p), p + n)
    ensures !SkippedType(t) ==> RdataEnd(mem, t, p) == At(p) && RdataVerdict(mem, t, p) == Fits
  {
    hide SkipName, NameVerdict, NameField;
    if NameType(t) {
      SkipNameIs(mem, p, n);
    } else if t == TYPE_MX {
      SkipNameIs(mem, p + 2, n - 2);
    } else if t == TYPE_SOA {
      var k: nat :| NameField(mem, p, k) && k + 20 <= n && NameField(mem, p + k, n - k - 20);
      SkipNameIs(mem, p, k);
      SkipNameIs(mem, p + k, n - k - 20);
      forall k' | NameField(mem, p, k')
        ensures k' == k
      {
        OneLength(mem, p, k, k');
      }
    }
  }

  /**
   On a well-formed record dns_answer fails at the first name it cannot read, and otherwise stops at the
   record's declared end - except that for TXT and every type it does not know it stops at the start of the
   data, which is the end only if RDLENGTH is 0.
   */
  lemma AnswerEndsAtRecord(mem: Memory, rec: Record)
    requires rec.WellFormed(mem)
    ensures AnswerEnd(mem, rec.start) ==
      Outcome(rec.Verdict(mem), if SkippedType(rec.Type(mem)) then rec.end else rec.Data())
    ensures rec.Verdict(mem) == Fits ==>
      (AnswerEnd(mem, rec.start) == At(rec.end) <==> SkippedType(rec.Type(mem)) || rec.Length(mem) == 0)
    ensures rec.Verdict(mem) == Fits ==>
      forall ip :: Address(mem, rec.start, ip) ==
        if rec.Type(mem) == TYPE_A then Slice(mem, rec.Data(), 4) else ip
  {
    hide SkipName, NameVerdict, NameField, Rdata, RdataVerdict, RdataEnd, Slice;
    SkipNameIs(mem, rec.start, rec.owner);
    RdataEndIs(mem, rec.Type(mem), rec.Data(), rec.Length(mem));
  }

  // ----- whole messages -----

  /** Well-formed records one after the other, of types the parser can skip. */
  ghost predicate Chain(mem: Memory, cp: nat, recs: seq<Record>)
  {
    && (forall i :: 0 <= i < |recs| ==> recs[i].WellFormed(mem))
    && (forall i :: 0 <= i < |recs| ==> SkippedType(recs[i].Type(mem)) || recs[i].Length(mem) == 0)
    && (recs != [] ==> recs[0].start == cp)
    && (forall i :: 0 < i < |recs| ==> recs[i].start == recs[i - 1].end)
  }

  /** The records before the first one with a name that cannot be read. */
  ghost function Readable(mem: Memory, recs: seq<Record>): (n: nat)
    ensures n <= |recs| && forall i :: 0 <= i < n ==> recs[i].Verdict(mem) == Fits
    ensures n < |recs| ==> recs[n].Verdict(mem) != Fits
  {
    if recs == [] || recs[0].Verdict(mem) != Fits then 0 else 1 + Readable(mem, recs[1..])
  }

  /** Whether all of them can be read, and if not what becomes of the first that cannot. */
  ghost function AnswerVerdict(mem: Memory, recs: seq<Record>): Verdict
  {
    if recs == [] then Fits else First(recs[0].Verdict(mem), AnswerVerdict(mem, recs[1..]))
  }

  /** The address in the last A record, if there is one. */
  function LastAddress(mem: Memory, recs: seq<Record>, ip: seq<byte>): seq<byte>
  {
    if recs == [] then ip
    else if recs[|recs| - 1].Type(mem) == TYPE_A then Slice(mem, recs[|recs| - 1].Data(), 4)
    else LastAddress(mem, recs[..|recs| - 1], ip)
  }

  lemma {:induction false} LastAddressFront(mem: Memory, recs: seq<Record>, ip: seq<byte>)
    requires recs != []
    ensures LastAddress(mem, recs, ip) ==
      LastAddress(mem, recs[1..], if recs[0].Type(mem) == TYPE_A then Slice(mem, recs[0].Data(), 4) else ip)
  {
    var n := |recs| - 1;
    if n == 0 {
      assert recs[..n] == [];
    } else {
      LastAddressFront(mem, recs[..n], ip);
      assert recs[..n][1..] == recs[1..][..n - 1];
      assert recs[1..][n - 1] == recs[n];
    }
  }

  lemma ChainTail(mem: Memory, cp: nat, recs: seq<Record>)
    requires Chain(mem, cp, recs) && recs != []
    ensures Chain(mem, recs[0].end, recs[1..])
    ensures recs[0].start == cp && recs[0].WellFormed(mem)
    ensures SkippedType(recs[0].Type(mem)) || recs[0].Length(mem) == 0
  {
    var rest := recs[1..];
    forall i | 0 <= i < |rest|
      ensures rest[i].WellFormed(mem) && (SkippedType(rest[i].Type(mem)) || rest[i].Length(mem) == 0)
      ensures i > 0 ==> rest[i].start == rest[i - 1].end
    {
      assert rest[i] == recs[i + 1];
    }
  }

  lemma AnswersStep(mem: Memory, cp: nat, n: nat, ip: seq<byte>)
    requires n > 0
    ensures Answers(mem, cp, n, ip) ==
      match AnswerEnd(mem, cp)
      case At(next) => Answers(mem, next, n - 1, Address(mem, cp, ip))
      case stop => Walk(stop, ip)
  {
  }

  lemma ReadableStep(mem: Memory, recs: seq<Record>)
    requires recs != []
    ensures Readable(mem, recs) == if recs[0].Verdict(mem) == Fits then 1 + Readable(mem, recs[1..]) else 0
  {
  }

  /** The answer section: read up to the first name that cannot be read, keeping the last address. */
  lemma {:induction false} AnswersAre(mem: Memory, cp: nat, recs: seq<Record>, ip: seq<byte>)
    requires Chain(mem, cp, recs)
    ensures Answers(mem, cp, |recs|, ip) ==
      Walk(Outcome(AnswerVerdict(mem, recs), if recs == [] then cp else recs[|recs| - 1].end),
           LastAddress(mem, recs[..Readable(mem, recs)], ip))
    decreases |recs|
  {
    hide Chain, AnswerEnd, Address, SkippedType, Record.WellFormed, Record.Verdict, Slice;
    assert recs[..0] == [];
    if recs == [] {
      assert LastAddress(mem, [], ip) == ip;
    } else {
      ChainTail(mem, cp, recs);
      AnswersStep(mem, cp, |recs|, ip);
      ReadableStep(mem, recs);
      AnswerEndsAtRecord(mem, recs[0]);
      if recs[0].Verdict(mem) == Fits {
        var rest := recs[1..];
        var n := Readable(mem, rest);
        AnswersAre(mem, recs[0].end, rest, Address(mem, cp, ip));
        assert recs[..n + 1][1..] == rest[..n];
        LastAddressFront(mem, recs[..n + 1], ip);
      }
    }
  }

  /** Question entries one after the other: name fields of the given lengths, four bytes after each. */
  ghost predicate QuestionChain(mem: Memory, cp: nat, lengths: seq<nat>, end: nat)
    decreases |lengths|
  {
    if lengths == [] then end == cp
    else NameField(mem, cp, lengths[0]) && QuestionChain(mem, cp + lengths[0] + 4, lengths[1..], end)
  }

  ghost function QuestionVerdict(mem: Memory, cp: nat, lengths: seq<nat>): Verdict
    decreases |lengths|
  {
    if lengths == [] then Fits
    else First(NameVerdict(mem, cp), QuestionVerdict(mem, cp + lengths[0] + 4, lengths[1..]))
  }

  lemma {:induction false} QuestionsAre(mem: Memory, cp: nat, lengths: seq<nat>, end: nat)
    requires QuestionChain(mem, cp, lengths, end)
    ensures Questions(mem, cp, |lengths|) == Outcome(QuestionVerdict(mem, cp, lengths), end)
    decreases |lengths|
  {
    hide SkipName, NameField, NameVerdict;
    if lengths != [] {
      SkipNameIs(mem, cp, lengths[0]);
      QuestionsAre(mem, cp + lengths[0] + 4, lengths[1..], end);
    }
  }

  /**
   parseDNSMSG on a reply whose sections are well formed: the first name that cannot be read decides - refused
   names give -1, a name that just fills its buffer leaves the code undefined - and if there is none the result
   is 1 exactly when the response code is 0. The address buffer holds the last A record's address among the
   answers that could be read.
   */
  lemma ReplyIsParsed(mem: Memory, h: Header, z: nat, lengths: seq<nat>, mid: nat, recs: seq<Record>, ip: seq<byte>)
    requires HeaderHeld(mem, h, z)
    requires |lengths| == h.qdcount && QuestionChain(mem, 12, lengths, mid)
    requires |recs| == h.ancount && Chain(mem, mid, recs)
    ensures
      var questions, answers := QuestionVerdict(mem, 12, lengths), AnswerVerdict(mem, recs);
      var reply := match First(questions, answers)
                   case Refused => Code(-1)
                   case Full => Undefined
                   case Fits => Code(if h.rcode == 0 then 1 else 0);
      Parsed(mem, ip) ==
      (reply, if questions == Fits then LastAddress(mem, recs[..Readable(mem, recs)], ip) else ip)
  {
    hide Questions, Answers, QuestionChain, Chain, Readable, LastAddress, QuestionVerdict, AnswerVerdict, HeaderOf,
         HeaderHeld;
    HeaderRead(mem, h, z);
    QuestionsAre(mem, 12, lengths, mid);
    AnswersAre(mem, mid, recs, ip);
  }

  /**
   The ordinary case, byte by byte: one question whose name takes n bytes, then one record whose name takes m bytes,
   of type A with four bytes of data. The result is that of the response code, and the address is those four bytes.
   */
  lemma AddressIsRead(mem: Memory, h: Header, z: nat, n: nat, m: nat, ip: seq<byte>)
    requires HeaderHeld(mem, h, z) && h.qdcount == 1 && h.ancount == 1
    requires NameField(mem, 12, n) && NameVerdict(mem, 12) == Fits
    requires NameField(mem, 12 + n + 4, m) && NameVerdict(mem, 12 + n + 4) == Fits
    requires var p := 12 + n + 4 + m; WordIs(mem, p, 1) && WordIs(mem, p + 8, 4)
    ensures var p := 12 + n + 4 + m + 10;
            Parsed(mem, ip) == (Code(if h.rcode == 0 then 1 else 0), [mem(p), mem(p + 1), mem(p + 2), mem(p + 3)])
  {
    hide NameField, NameVerdict, HeaderHeld, HeaderOf;
    var start := 12 + n + 4;
    var rec := Record(start, m, start + m + 14);
    WordRead(mem, start + m, 1);
    WordRead(mem, start + m + 8, 4);
    var p := start + m + 10;
    assert [n][1..] == [] && [rec][1..] == [] && [rec][..1] == [rec];
    assert Slice(mem, p, 4) == [mem(p), mem(p + 1), mem(p + 2), mem(p + 3)];
    ReadableStep(mem, [rec]);
    assert Readable(mem, [rec]) == 1;
    ReplyIsParsed(mem, h, z, [n], start, [rec], ip);
  }

  /** The header fields together are the second word of the message, apart from its three unused bits. */
  lemma FlagsRecombine(mem: Memory)
    ensures
      var h := HeaderOf(mem);
      Get16(mem, 2) == h.qr * 0x8000 + h.opcode * 0x800 + h.aa * 0x400 + h.tc * 0x200 + h.rd * 0x100 + h.ra * 0x80
                       + (Get16(mem, 2) / 16 % 8) * 16 + h.rcode
    ensures
      var h := HeaderOf(mem);
      h.qr < 2 && h.opcode < 16 && h.aa < 2 && h.tc < 2 && h.rd < 2 && h.ra < 2 && h.rcode < 16
  {
    var w := Get16(mem, 2);
    assert w / 16 / 8 == w / 0x80;
    assert w / 0x80 / 2 == w / 0x100 && w / 0x100 / 2 == w / 0x200 && w / 0x200 / 2 == w / 0x400;
    assert w / 0x400 / 2 == w / 0x800 && w / 0x800 / 16 == w / 0x8000;
  }

  lemma WordHeld(mem: Memory, p: nat, v: u16, rest: seq<byte>)
    requires Holds(mem, p, Put16(v) + rest)
    ensures Get16(mem, p) == v && Holds(mem, p + 2, rest)
  {
    HoldsParts(mem, p, Put16(v), rest);
    assert Put16(v)[0] == Hi(v) && Put16(v)[1] == Lo(v);
  }

  lemma QueryWords(mem: Memory, id: u16, flags: u16)
    requires Holds(mem, 0, Put16(id) + (Put16(flags) + (Put16(1) + (Put16(0) + (Put16(0) + Put16(0))))))
    ensures Get16(mem, 0) == id && Get16(mem, 2) == flags && Get16(mem, 4) == 1
    ensures Get16(mem, 6) == 0 && Get16(mem, 8) == 0 && Get16(mem, 10) == 0
  {
    hide Put16, Holds, Get16;
    WordHeld(mem, 0, id, Put16(flags) + (Put16(1) + (Put16(0) + (Put16(0) + Put16(0)))));
    WordHeld(mem, 2, flags, Put16(1) + (Put16(0) + (Put16(0) + Put16(0))));
    WordHeld(mem, 4, 1, Put16(0) + (Put16(0) + Put16(0)));
    WordHeld(mem, 6, 0, Put16(0) + Put16(0));
    assert Put16(0) + [] == Put16(0);
    WordHeld(mem, 8, 0, Put16(0));
    WordHeld(mem, 10, 0, []);
  }

  lemma QueryHeader(mem: Memory, id: u16, op: u16)
    requires op < 16 && Holds(mem, 0, DnsQuery.Header(id, op))
    ensures HeaderHeld(mem, Header(id, 0, op, 0, 0, 1, 0, 0, 1, 0, 0, 0), 0)
    ensures HeaderOf(mem) == Header(id, 0, op, 0, 0, 1, 0, 0, 1, 0, 0, 0)
  {
    hide Put16, Holds, Get16;
    var flags: u16 := (op * 0x800) % 0x1_0000 + 0x100;
    assert DnsQuery.Header(id, op) ==
      Put16(id) + (Put16(flags) + (Put16(1) + (Put16(0) + (Put16(0) + Put16(0)))));
    QueryWords(mem, id, flags);
    HeldWords(mem, Header(id, 0, op, 0, 0, 1, 0, 0, 1, 0, 0, 0), 0);
    HeaderRead(mem, Header(id, 0, op, 0, 0, 1, 0, 0, 1, 0, 0, 0), 0);
  }

  lemma HeldWords(mem: Memory, h: Header, z: nat)
    requires h.qr < 2 && h.opcode < 16 && h.aa < 2 && h.tc < 2 && h.rd < 2 && h.ra < 2 && z < 8 && h.rcode < 16
    requires Get16(mem, 0) == h.id && Get16(mem, 4) == h.qdcount && Get16(mem, 6) == h.ancount
    requires Get16(mem, 8) == h.nscount && Get16(mem, 10) == h.arcount
    requires Get16(mem, 2) == h.qr * 0x8000 + h.opcode * 0x800 + h.aa * 0x400 + h.tc * 0x200 + h.rd * 0x100
                              + h.ra * 0x80 + z * 0x10 + h.rcode
    ensures HeaderHeld(mem, h, z)
  {
    hide Get16, WordIs;
    WordRead(mem, 0, h.id);
    WordRead(mem, 2, Get16(mem, 2));
    WordRead(mem, 4, h.qdcount);
    WordRead(mem, 6, h.ancount);
    WordRead(mem, 8, h.nscount);
    WordRead(mem, 10, h.arcount);
  }

  lemma QuestionWords(mem: Memory, cp: nat, field: seq<byte>)
    requires Holds(mem, cp, field + Put16(1) + Put16(1))
    ensures WordIs(mem, cp + |field|, TYPE_A) && WordIs(mem, cp + |field| + 2, CLASS_IN)
  {
    hide Put16, Holds, Get16, WordIs;
    var p := cp + |field|;
    assert field + Put16(1) + Put16(1) == field + (Put16(1) + Put16(1));
    HoldsParts(mem, cp, field, Put16(1) + Put16(1));
    assert Put16(1) + [] == Put16(1);
    WordHeld(mem, p, 1, Put16(1));
    WordHeld(mem, p + 2, 1, []);
    WordRead(mem, p, TYPE_A);
    WordRead(mem, p + 2, CLASS_IN);
  }

  /**
   The client's own query is a message the parser accepts: one question, no answer, no error - unless the name
   fills the buffer it is read back into.
   */
  lemma OwnQueryParses(mem: Memory, id: u16, op: u16, name: seq<byte>, ip: seq<byte>)
    requires |name| < MAXCNAME && op < 16 && Holds(mem, 0, Message(id, op, name))
    ensures HeaderHeld(mem, Header(id, 0, op, 0, 0, 1, 0, 0, 1, 0, 0, 0), 0)
    ensures HeaderOf(mem) == Header(id, 0, op, 0, 0, 1, 0, 0, 1, 0, 0, 0)
    ensures Questions(mem, 12, 1) == if FillsBuffer(name) then Overrun else At(|Message(id, op, name)|)
    // behind the name, which ends at p, the question asks for an address (A) on the Internet (IN), and is over
    ensures
      var field := Decode(mem, 12, MAXCNAME);
      && field.Some?
      && var p := 12 + field.value.length;
         WordIs(mem, p, TYPE_A) && WordIs(mem, p + 2, CLASS_IN) && p + 4 == |Message(id, op, name)|
    ensures Parsed(mem, ip) == (if FillsBuffer(name) then Undefined else Code(1), ip)
  {
    hide HeaderOf, HeaderHeld, DnsQuery.Header, EncodeName, FillsBuffer, WordIs;
    QueryRoundTrip(mem, id, op, name);
    var tail := EncodeName(name) + Put16(1) + Put16(1);
    assert Message(id, op, name) == DnsQuery.Header(id, op) + tail;
    HoldsParts(mem, 0, DnsQuery.Header(id, op), tail);
    QueryHeader(mem, id, op);
    QuestionWords(mem, 12, EncodeName(name));
  }
}
