/** dns_makequery: the query message, and why parse_name and dns_question read it back. */
module DnsQuery {
  import opened Arith
  import opened Bytes
  import opened Wrappers
  import opened DnsName

  /** The size of the name buffers in dns.c, for MAX_DOMAIN_NAME 16. */
  const MAXCNAME := 24

  function Put16(v: u16): (s: seq<byte>)
    ensures |s| == 2
  {
    [Hi(v), Lo(v)]
  }

  /** A count stored through a uint8_t. */
  function Byte(n: nat): byte { n % 256 }

  /** strchr(s, '.'): the first dot, or the end. */
  function DotAt(s: seq<byte>): (i: nat)
    ensures i <= |s| && forall k :: 0 <= k < i ==> s[k] != DOT
    ensures i < |s| ==> s[i] == DOT
  {
    if s == [] || s[0] == DOT then 0 else 1 + DotAt(s[1..])
  }

  method StrChr(s: seq<byte>) returns (i: nat)
    ensures i == DotAt(s)
  {
    i := 0;
    while i < |s| && s[i] != DOT
      invariant i <= |s| && forall k :: 0 <= k < i ==> s[k] != DOT
    {
      i := i + 1;
    }
  }

  /** The name field the loop writes; the length goes through a uint8_t. */
  function EncodeName(s: seq<byte>): (r: seq<byte>)
    ensures 0 < |r| <= |s| + 2
  {
    var i := DotAt(s);
    if i == 0 then [0]
    else if i == |s| then [Byte(i)] + s + [0]
    else [Byte(i)] + s[..i] + EncodeName(s[i + 1..])
  }

  function Header(id: u16, op: u16): seq<byte>
  {
    Put16(id) + Put16((op * 0x800) % 0x1_0000 + 0x100) + Put16(1) + Put16(0) + Put16(0) + Put16(0)
  }

  function Message(id: u16, op: u16, name: seq<byte>): seq<byte>
  {
    Header(id, op) + EncodeName(name) + Put16(1) + Put16(1)
  }

  class Query {
    var msgId: u16

    /** dns_makequery; strcpy needs the name and its terminator to fit MAXCNAME bytes. */
    method MakeQuery(op: u16, name: seq<byte>, buf: array<byte>) returns (length: nat)
      requires |name| < MAXCNAME && 0 !in name && buf.Length >= |name| + 18
      modifies this, buf
      ensures msgId == Advance(old(msgId), 1)
      ensures length == |Message(msgId, op, name)| <= buf.Length
      ensures buf[..length] == Message(msgId, op, name)
    {
      hide EncodeName, DotAt, Header, Advance, Put16;
      msgId := Advance(msgId, 1);
      var cp: nat := PutHeader(op, buf);
      cp := PutName(name, buf, cp);
      cp := Put(buf, cp, Put16(1));
      cp := Put(buf, cp, Put16(1));
      length := cp;
    }

    /** The loop over the labels. */
    static method PutName(name: seq<byte>, buf: array<byte>, start: nat) returns (cp: nat)
      requires start + |name| + 2 <= buf.Length
      modifies buf
      ensures cp == start + |EncodeName(name)|
      ensures buf[..cp] == old(buf[..start]) + EncodeName(name)
    {
      hide EncodeName, DotAt;
      var dname, dlen: nat := name, |name|;
      cp := start;
      while true
        invariant dlen == |dname| && start <= cp && cp + dlen + 2 <= buf.Length
        invariant old(buf[..start]) + EncodeName(name) == buf[..cp] + EncodeName(dname)
        decreases dlen
      {
        EncodeStep(buf[..cp], dname);
        var cp1 := StrChr(dname);
        cp := Put(buf, cp, [Byte(cp1)]);
        if cp1 == 0 { break; }
        cp := Put(buf, cp, dname[..cp1]);
        if cp1 == |dname| {
          cp := Put(buf, cp, [0]);
          break;
        }
        dname := dname[cp1 + 1..];
        dlen := dlen - (cp1 + 1);
      }
    }

    method PutHeader(op: u16, buf: array<byte>) returns (cp: nat)
      requires buf.Length >= 12
      modifies buf
      ensures cp == 12 && buf[..12] == Header(msgId, op)
    {
      hide Put16;
      cp := Put(buf, 0, Put16(msgId));
      cp := Put(buf, cp, Put16((op * 0x800) % 0x1_0000 + 0x100));
      cp := Put(buf, cp, Put16(1));
      cp := Put(buf, cp, Put16(0));
      cp := Put(buf, cp, Put16(0));
      cp := Put(buf, cp, Put16(0));
    }
  }

  lemma Assoc(a: seq<byte>, b: seq<byte>, c: seq<byte>, d: seq<byte>)
    ensures a + (b + c + d) == a + b + c + d
  {
  }

  /** The encoding by its first label. */
  lemma EncodeFirst(s: seq<byte>)
    ensures DotAt(s) == 0 ==> EncodeName(s) == [0]
    ensures 0 < DotAt(s) < |s| ==> EncodeName(s) == [Byte(DotAt(s))] + s[..DotAt(s)] + EncodeName(s[DotAt(s) + 1..])
    ensures 0 < DotAt(s) == |s| ==> EncodeName(s) == [Byte(DotAt(s))] + s[..DotAt(s)] + [0]
  {
    hide DotAt;
    if 0 < DotAt(s) == |s| {
      assert s[..|s|] == s;
    }
  }

  lemma EncodeStep(done: seq<byte>, s: seq<byte>)
    ensures DotAt(s) == 0 ==> done + EncodeName(s) == done + [0]
    ensures 0 < DotAt(s) < |s| ==>
      done + EncodeName(s) == done + [Byte(DotAt(s))] + s[..DotAt(s)] + EncodeName(s[DotAt(s) + 1..])
    ensures 0 < DotAt(s) == |s| ==>
      done + EncodeName(s) == done + [Byte(DotAt(s))] + s[..DotAt(s)] + [0]
  {
    hide DotAt, EncodeName;
    EncodeFirst(s);
    var i := DotAt(s);
    if 0 < i < |s| {
      Assoc(done, [Byte(i)], s[..i], EncodeName(s[i + 1..]));
    } else if i == |s| {
      Assoc(done, [Byte(i)], s[..i], [0]);
    }
  }

  // ----- the round trip -----

  /** A dotted name as its labels. */
  function Split(s: seq<byte>): (labels: seq<seq<byte>>)
    ensures labels != []
  {
    var i := DotAt(s);
    if i == |s| then [s] else [s[..i]] + Split(s[i + 1..])
  }

  /** The labels before the first empty one. */
  function Kept(labels: seq<seq<byte>>): seq<seq<byte>>
  {
    if labels == [] || labels[0] == [] then [] else [labels[0]] + Kept(labels[1..])
  }

  predicate LabelLengths(labels: seq<seq<byte>>)
  {
    forall i :: 0 <= i < |labels| ==> 0 < |labels[i]| < 64
  }

  /** Section 3.1 of RFC 1035: each label after its length, and a zero at the end. */
  function Wire(labels: seq<seq<byte>>): seq<byte>
    requires LabelLengths(labels)
  {
    if labels == [] then [0] else [|labels[0]| as byte] + labels[0] + Wire(labels[1..])
  }

  /** What the loop writes is the section 3.1 form of the labels before the first empty one. */
  lemma {:induction false} EncodeIsWire(s: seq<byte>)
    requires LabelLengths(Kept(Split(s)))
    ensures EncodeName(s) == Wire(Kept(Split(s)))
  {
    var i := DotAt(s);
    var labels := Split(s);
    if i == 0 {
    } else if i == |s| {
      assert labels[1..] == [];
      assert Kept(labels) == [s];
    } else {
      assert labels[1..] == Split(s[i + 1..]);
      assert Kept(labels)[1..] == Kept(labels[1..]);
      EncodeIsWire(s[i + 1..]);
    }
  }

  /** A field in that form expands, without pointers, to its labels. */
  lemma {:induction false} WireExpands(mem: Memory, cp: nat, labels: seq<seq<byte>>)
    requires LabelLengths(labels) && Holds(mem, cp, Wire(labels))
    ensures Expands(mem, cp, labels, 0, true)
    ensures NameField(mem, cp, |Wire(labels)|)
    decreases |labels|
  {
    if labels == [] {
      assert Wire(labels)[0] == 0;
    } else {
      var n: byte := |labels[0]|;
      assert Wire(labels) == [n] + (labels[0] + Wire(labels[1..]));
      HoldsParts(mem, cp, [n], labels[0] + Wire(labels[1..]));
      HoldsParts(mem, cp + 1, labels[0], Wire(labels[1..]));
      assert mem(cp) == [n][0] == n;
      assert labels[0] == Slice(mem, cp + 1, n);
      WireExpands(mem, cp + 1 + n, labels[1..]);
    }
  }

  /** Reading back a name that dns_makequery wrote: the labels before the first empty one, each with a dot. */
  lemma NameRoundTrip(mem: Memory, cp: nat, name: seq<byte>, room: nat)
    requires Holds(mem, cp, EncodeName(name)) && LabelLengths(Kept(Split(name)))
    requires |Text(Kept(Split(name)))| <= room
    ensures Decode(mem, cp, room) == Some(Name(Text(Kept(Split(name))), |EncodeName(name)|))
  {
    var labels := Kept(Split(name));
    EncodeIsWire(name);
    WireExpands(mem, cp, labels);
    DecodeIsComplete(mem, cp, room, labels, 0);
    OneLength(mem, cp, Decode(mem, cp, room).value.length, |Wire(labels)|);
  }

  predicate NoEmptyLabel(s: seq<byte>) { AllNonempty(Split(s)) }

  /** The first label and the others. */
  lemma SplitStep(s: seq<byte>)
    ensures var i := DotAt(s);
      if i == |s| then Split(s) == [s] && (NoEmptyLabel(s) <==> s != [])
      else Split(s) == [s[..i]] + Split(s[i + 1..]) && (NoEmptyLabel(s) <==> i > 0 && NoEmptyLabel(s[i + 1..]))
  {
    hide DotAt, AllNonempty;
    var i := DotAt(s);
    AllOfNothing();
    if i < |s| {
      NoneEmpty(s[..i], Split(s[i + 1..]));
    } else {
      assert [s] == [s] + [];
      NoneEmpty(s, []);
    }
  }

  predicate AllNonempty(labels: seq<seq<byte>>)
  {
    forall k :: 0 <= k < |labels| ==> labels[k] != []
  }

  lemma AllOfNothing()
    ensures AllNonempty([])
  {
  }

  lemma NoneEmpty(first: seq<byte>, rest: seq<seq<byte>>)
    ensures AllNonempty([first] + rest) <==> first != [] && AllNonempty(rest)
  {
    var labels := [first] + rest;
    assert labels[0] == first;
    assert forall k :: 0 <= k < |rest| ==> labels[k + 1] == rest[k];
  }

  lemma KeptStep(first: seq<byte>, rest: seq<seq<byte>>)
    ensures Kept([first] + rest) == if first == [] then [] else [first] + Kept(rest)
    ensures Text([first] + rest) == first + [DOT] + Text(rest)
  {
    assert ([first] + rest)[1..] == rest;
  }

  /** The text is one byte longer than the name if no label is empty, and at most as long as it otherwise. */
  lemma {:induction false} KeptIsShort(s: seq<byte>)
    ensures |Text(Kept(Split(s)))| <= |s| + 1
    ensures |Text(Kept(Split(s)))| == |s| + 1 <==> NoEmptyLabel(s)
    ensures |s| < 64 ==> LabelLengths(Kept(Split(s)))
  {
    hide DotAt, Split, Kept, Text, NoEmptyLabel;
    var i := DotAt(s);
    SplitStep(s);
    NothingKept();
    if i == |s| {
      assert [s] == [s] + [];
      KeptStep(s, []);
    } else {
      KeptIsShort(s[i + 1..]);
      KeptStep(s[..i], Split(s[i + 1..]));
      if i > 0 {
        KeptStep(s[..i], Kept(Split(s[i + 1..])));
      }
    }
  }

  lemma NothingKept()
    ensures Kept([]) == [] && Text([]) == []
  {
  }

  /** With no empty label the text is the name itself and a trailing dot. */
  lemma {:induction false} TextOfName(s: seq<byte>)
    requires NoEmptyLabel(s)
    ensures Kept(Split(s)) == Split(s) && Text(Split(s)) == s + [DOT]
  {
    hide DotAt, Split, Kept, Text, NoEmptyLabel;
    var i := DotAt(s);
    SplitStep(s);
    NothingKept();
    if i == |s| {
      assert [s] == [s] + [];
      KeptStep(s, []);
    } else {
      TextOfName(s[i + 1..]);
      KeptStep(s[..i], Split(s[i + 1..]));
      assert s == s[..i] + [DOT] + s[i + 1..];
      assert s + [DOT] == s[..i] + [DOT] + (s[i + 1..] + [DOT]);
    }
  }

  /** A name that dns_makequery can copy, but whose text and terminator parse_name cannot put into MAXCNAME bytes. */
  predicate FillsBuffer(name: seq<byte>)
  {
    |name| == MAXCNAME - 1 && NoEmptyLabel(name)
  }

  /**
   For every name that dns_makequery can copy: parse_name at offset 12 of the message decodes the labels before
   the first empty one - the whole name with a trailing dot when none is empty - and the field's length, so that
   dns_question, which skips four bytes more, ends where the message ends. It does so inside its buffer exactly
   when the name does not fill it: a name of 23 bytes without an empty label has its terminator written outside.
   */
  lemma QueryRoundTrip(mem: Memory, id: u16, op: u16, name: seq<byte>)
    requires |name| < MAXCNAME && Holds(mem, 0, Message(id, op, name))
    ensures Decode(mem, 12, MAXCNAME) == Some(Name(Text(Kept(Split(name))), |EncodeName(name)|))
    ensures |Shown(Text(Kept(Split(name))))| <= MAXCNAME <==> !FillsBuffer(name)
    ensures 12 + |EncodeName(name)| + 4 == |Message(id, op, name)|
    ensures NoEmptyLabel(name) ==> Decode(mem, 12, MAXCNAME).value.text == name + [DOT]
  {
    hide EncodeName, Split, Kept, Text, Decode, Put16, NoEmptyLabel;
    var tail := Put16(1) + Put16(1);
    assert Message(id, op, name) == Header(id, op) + (EncodeName(name) + tail);
    HoldsParts(mem, 0, Header(id, op), EncodeName(name) + tail);
    HoldsParts(mem, 12, EncodeName(name), tail);
    KeptIsShort(name);
    NameRoundTrip(mem, 12, name, MAXCNAME);
    if NoEmptyLabel(name) {
      TextOfName(name);
    }
  }

  /** Such a name: 23 times the letter a. Its text and the terminator take 25 bytes. */
  lemma LongestNameOverruns(mem: Memory, id: u16, op: u16)
    requires Holds(mem, 0, Message(id, op, seq(23, _ => 97)))
    ensures Decode(mem, 12, MAXCNAME).Some? && |Shown(Decode(mem, 12, MAXCNAME).value.text)| == MAXCNAME + 1
  {
    var name: seq<byte> := seq(23, _ => 97);
    assert DotAt(name) == 23 && Split(name) == [name];
    assert NoEmptyLabel(name);
    QueryRoundTrip(mem, id, op, name);
  }
}
