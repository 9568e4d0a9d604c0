/**
 Domain names inside a DNS message: parse_name and the meaning that sections 3.1 and 4.1.4 of RFC 1035
 give to the bytes it reads.
 */
module DnsName {
  import opened Arith
  import opened Bytes
  import opened Wrappers

  const DOT: byte := 46

  predicate IsPointer(b: byte) { b >= 0xC0 }

  /** The offset held by a two-byte pointer. */
  function Target(mem: Memory, cp: nat): nat { (mem(cp) % 0x40) * 256 + mem(cp + 1) }

  // ----- section 4.1.4: what a name field means -----

  /**
   The labels the field at cp stands for, after following `hops` pointers in all. With `single` set, no
   pointer may lead straight to another pointer.
   */
  ghost predicate Expands(mem: Memory, cp: nat, labels: seq<seq<byte>>, hops: nat, single: bool)
    decreases |labels|, hops
  {
    if mem(cp) == 0 then
      labels == [] && hops == 0
    else if IsPointer(mem(cp)) then
      && hops > 0
      && (single ==> !IsPointer(mem(Target(mem, cp))))
      && Expands(mem, Target(mem, cp), labels, hops - 1, single)
    else
      && mem(cp) < 64 && labels != []
      && labels[0] == Slice(mem, cp + 1, mem(cp))
      && Expands(mem, cp + 1 + mem(cp), labels[1..], hops, single)
  }

  /** The field at cp occupies n bytes: labels up to the zero, or up to and including the first pointer. */
  ghost predicate NameField(mem: Memory, cp: nat, n: nat)
    decreases n
  {
    if mem(cp) == 0 then n == 1
    else if IsPointer(mem(cp)) then n == 2
    else n > mem(cp) + 1 && NameField(mem, cp + 1 + mem(cp), n - mem(cp) - 1)
  }

  /** The human-readable form: a dot after each label. */
  function Text(labels: seq<seq<byte>>): seq<byte>
  {
    if labels == [] then [] else labels[0] + [DOT] + Text(labels[1..])
  }

  /**
   A pointer is two bytes, the top two bits set and then 14 bits of offset; it stands for the name at that
   offset. The two other values of the top bits are reserved: no name has them.
   */
  lemma PointerStandsFor(mem: Memory, cp: nat, offset: nat, labels: seq<seq<byte>>, hops: nat, single: bool)
    ensures offset < 0x4000 && Join(mem(cp), mem(cp + 1)) == 0xC000 + offset ==>
      && (Expands(mem, cp, labels, hops + 1, single) <==>
           Expands(mem, offset, labels, hops, single) && (single ==> mem(offset) < 0xC0))
      && !Expands(mem, cp, labels, 0, single) && NameField(mem, cp, 2)
    ensures 0x40 <= mem(cp) < 0xC0 ==> !Expands(mem, cp, labels, hops, single)
  {
    if offset < 0x4000 && Join(mem(cp), mem(cp + 1)) == 0xC000 + offset {
      assert Target(mem, cp) == offset;
    }
  }

  /** A field has one expansion at most. */
  lemma {:induction false} OneExpansion(mem: Memory, cp: nat, l: seq<seq<byte>>, h: nat, s: bool,
                                        l': seq<seq<byte>>, h': nat, s': bool)
    requires Expands(mem, cp, l, h, s) && Expands(mem, cp, l', h', s')
    ensures l == l' && h == h'
    decreases |l|, h
  {
    if mem(cp) == 0 {
    } else if IsPointer(mem(cp)) {
      OneExpansion(mem, Target(mem, cp), l, h - 1, s, l', h' - 1, s');
    } else {
      OneExpansion(mem, cp + 1 + mem(cp), l[1..], h, s, l'[1..], h', s');
      assert l == [l[0]] + l[1..] && l' == [l'[0]] + l'[1..];
    }
  }

  /** And one length. */
  lemma {:induction false} OneLength(mem: Memory, cp: nat, n: nat, n': nat)
    requires NameField(mem, cp, n) && NameField(mem, cp, n')
    ensures n == n'
    decreases n
  {
    if mem(cp) != 0 && !IsPointer(mem(cp)) {
      OneLength(mem, cp + 1 + mem(cp), n - mem(cp) - 1, n' - mem(cp) - 1);
    }
  }

  // ----- parse_name -----

  /** Where one round of the loop finds a segment: its length byte, after at most one pointer. */
  function Segment(mem: Memory, cp: nat): nat
  {
    if IsPointer(mem(cp)) then Target(mem, cp) else cp
  }

  datatype Name = Name(text: seq<byte>, length: nat)

  /** What the loop makes of the field at cp with `room` bytes left in the buffer. */
  function Decode(mem: Memory, cp: nat, room: int): Option<Name>
    decreases room
  {
    var at := Segment(mem, cp);
    var slen: nat := mem(at);
    if slen == 0 then
      Some(Name([], if IsPointer(mem(cp)) then 2 else 1))
    else if room - (slen + 1) < 0 then
      None
    else
      match Decode(mem, at + 1 + slen, room - (slen + 1))
      case None => None
      case Some(rest) =>
        Some(Name(Slice(mem, at + 1, slen) + [DOT] + rest.text,
                  if IsPointer(mem(cp)) then 2 else 1 + slen + rest.length))
  }

  /** One round of the loop, for whatever the rounds before it have put in front. */
  lemma DecodeRound(mem: Memory, cp: nat, room: nat, done: seq<byte>, clen: nat, indirect: bool)
    ensures
      var at := Segment(mem, cp);
      var slen: nat := mem(at);
      var clen' := if indirect then clen else if IsPointer(mem(cp)) then clen + 2 else clen + 1 + slen;
      var indirect' := indirect || IsPointer(mem(cp));
      if slen == 0 then
        Prepend(done, clen, indirect, Decode(mem, cp, room)) == Some(Name(done, clen'))
      else if room - (slen + 1) < 0 then
        Prepend(done, clen, indirect, Decode(mem, cp, room)) == None
      else
        Prepend(done, clen, indirect, Decode(mem, cp, room)) ==
        Prepend(done + Slice(mem, at + 1, slen) + [DOT], clen', indirect',
                Decode(mem, at + 1 + slen, room - (slen + 1)))
  {
    hide Slice;
    var at := Segment(mem, cp);
    var slen: nat := mem(at);
    if slen == 0 {
      assert done + [] == done;
    } else if room - (slen + 1) >= 0 {
      var rest := Decode(mem, at + 1 + slen, room - (slen + 1));
      var piece := Slice(mem, at + 1, slen);
      if rest.None? {
      } else {
        assert done + (piece + [DOT] + rest.value.text) == done + piece + [DOT] + rest.value.text;
      }
    }
  }

  function Prepend(done: seq<byte>, clen: nat, indirect: bool, rest: Option<Name>): Option<Name>
  {
    match rest
    case None => None
    case Some(name) => Some(Name(done + name.text, if indirect then clen else clen + name.length))
  }

  lemma PrependNothing(name: Option<Name>)
    ensures Prepend([], 0, false, name) == name
  {
    assert name.Some? ==> [] + name.value.text == name.value.text;
  }

  /** What parse_name leaves in the buffer for a decoded name; the root is a single dot. */
  function Shown(text: seq<byte>): seq<byte>
  {
    (if text == [] then [DOT] else text) + [0]
  }

  /** The inner loop: one segment and a dot. */
  method CopySegment(mem: Memory, cp: nat, slen: nat, buf: array<byte>, at: nat)
    requires at + slen < buf.Length
    modifies buf
    ensures buf[..at + slen + 1] == old(buf[..at]) + Slice(mem, cp, slen) + [DOT]
  {
    hide Slice;
    SliceMore(mem, cp, 0);
    for i := 0 to slen
      invariant buf[..at + i] == old(buf[..at]) + Slice(mem, cp, i)
    {
      SliceMore(mem, cp, i);
      buf[at + i] := mem(cp + i);
      assert buf[..at + i + 1] == buf[..at + i] + [mem(cp + i)];
    }
    buf[at + slen] := DOT;
  }

  /** A write at an index the buffer may not have; outside it, what the code does is undefined. */
  method Poke(buf: array<byte>, at: nat, b: byte) returns (inside: bool)
    modifies buf
    ensures inside <==> at < buf.Length
    ensures buf[..] == if inside then old(buf[..])[at := b] else old(buf[..])
  {
    inside := at < buf.Length;
    if inside {
      buf[at] := b;
    }
  }

  /**
   parse_name, given the length of its buffer as every caller does. `inside` tells whether it wrote inside the
   buffer: the loop always does, but the root's dot and the terminator need not.
   */
  method ParseName(mem: Memory, compressed: nat, buf: array<byte>, len: nat) returns (clen: int, inside: bool)
    requires buf.Length == len
    modifies buf
    ensures match Decode(mem, compressed, len)
            case None => clen == -1 && inside
            case Some(name) =>
              && clen == name.length
              && (inside <==> |Shown(name.text)| <= len)
              && (if inside then buf[..|Shown(name.text)|] == Shown(name.text) else buf[..] == Shown(name.text)[..len])
  {
    hide Decode, Slice, Prepend;
    var cp: nat, room: int, at: nat := compressed, len, 0;
    clen := 0;
    var indirect := false;
    ghost var whole := Decode(mem, compressed, len);
    PrependNothing(whole);
    while true
      invariant 0 <= room && at + room == len && clen >= 0
      invariant whole == Prepend(buf[..at], clen, indirect, Decode(mem, cp, room))
      decreases room
    {
      DecodeRound(mem, cp, room, buf[..at], clen, indirect);
      var slen: nat := mem(cp);
      cp := cp + 1;
      if !indirect { clen := clen + 1; }
      if IsPointer(slen) {
        if !indirect { clen := clen + 1; }
        indirect := true;
        cp := (slen % 0x40) * 256 + mem(cp);
        slen := mem(cp);
        cp := cp + 1;
      }
      if slen == 0 { break; }
      room := room - (slen + 1);
      if room < 0 { return -1, true; }
      if !indirect { clen := clen + slen; }
      CopySegment(mem, cp, slen, buf, at);
      at := at + slen + 1;
      cp := cp + slen;
    }
    inside := true;
    if at == 0 {
      inside := Poke(buf, at, DOT);
      at := at + 1;
    }
    var ended := Poke(buf, at, 0);
    inside := inside && ended;
  }

  // ----- parse_name against section 4.1.4 -----

  lemma {:induction false} DecodeIsSound(mem: Memory, cp: nat, room: int)
      returns (labels: seq<seq<byte>>, hops: nat)
    requires room <= 64 && Decode(mem, cp, room).Some?
    ensures Expands(mem, cp, labels, hops, true)
    ensures Decode(mem, cp, room).value.text == Text(labels) && (|Text(labels)| <= room || labels == [])
    ensures NameField(mem, cp, Decode(mem, cp, room).value.length)
    decreases room
  {
    var at := Segment(mem, cp);
    var slen: nat := mem(at);
    if slen == 0 {
      labels, hops := [], 0;
    } else {
      labels, hops := DecodeIsSound(mem, at + 1 + slen, room - (slen + 1));
      labels := [Slice(mem, at + 1, slen)] + labels;
      assert Expands(mem, at, labels, hops, true);
    }
    hops := if IsPointer(mem(cp)) then hops + 1 else hops;
  }

  /** A pointer is worth what it points to. */
  lemma DecodePointer(mem: Memory, cp: nat, room: int)
    requires IsPointer(mem(cp)) && !IsPointer(mem(Target(mem, cp)))
    ensures match Decode(mem, Target(mem, cp), room)
            case None => Decode(mem, cp, room).None?
            case Some(name) => Decode(mem, cp, room) == Some(Name(name.text, 2))
  {
  }

  lemma {:induction false} DecodeIsComplete(mem: Memory, cp: nat, room: int, labels: seq<seq<byte>>, hops: nat)
    requires Expands(mem, cp, labels, hops, true) && |Text(labels)| <= room
    ensures Decode(mem, cp, room).Some? && Decode(mem, cp, room).value.text == Text(labels)
    ensures NameField(mem, cp, Decode(mem, cp, room).value.length)
    decreases |labels|, hops
  {
    hide Slice;
    if mem(cp) == 0 {
    } else if IsPointer(mem(cp)) {
      DecodeIsComplete(mem, Target(mem, cp), room, labels, hops - 1);
      DecodePointer(mem, cp, room);
    } else {
      DecodeIsComplete(mem, cp + 1 + mem(cp), room - (mem(cp) as int + 1), labels[1..], hops);
    }
  }

  ghost predicate HasShortExpansion(mem: Memory, cp: nat, room: nat)
  {
    exists labels, hops :: Expands(mem, cp, labels, hops, true) && |Text(labels)| <= room
  }

  /**
   With a buffer of at most 64 bytes - the callers pass 24 - parse_name succeeds exactly when the field has
   an expansion that fits and in which no pointer leads straight to a pointer; the text is then the
   expansion's and the result the in-place length. In particular it fails on every cyclic field.
   */
  lemma DecodeIsExpansion(mem: Memory, cp: nat, room: nat)
    requires room <= 64
    ensures Decode(mem, cp, room).Some? <==> HasShortExpansion(mem, cp, room)
    ensures Decode(mem, cp, room).Some? ==> NameField(mem, cp, Decode(mem, cp, room).value.length)
    ensures forall labels, hops, single :: Decode(mem, cp, room).Some? && Expands(mem, cp, labels, hops, single) ==>
      Decode(mem, cp, room).value.text == Text(labels)
  {
    if Decode(mem, cp, room).Some? {
      var labels, hops := DecodeIsSound(mem, cp, room);
      forall l, h, s | Expands(mem, cp, l, h, s)
        ensures Decode(mem, cp, room).value.text == Text(l)
      {
        OneExpansion(mem, cp, labels, hops, true, l, h, s);
      }
    }
    if HasShortExpansion(mem, cp, room) {
      var labels, hops :| Expands(mem, cp, labels, hops, true) && |Text(labels)| <= room;
      DecodeIsComplete(mem, cp, room, labels, hops);
    }
  }

  /** And a parse that succeeds has stayed inside its buffer exactly when the expansion's text is shorter than it. */
  lemma StaysInside(mem: Memory, cp: nat, room: nat)
    requires 2 <= room <= 64
    ensures Decode(mem, cp, room).Some? ==>
      (|Shown(Decode(mem, cp, room).value.text)| <= room <==> HasShortExpansion(mem, cp, room - 1))
  {
    if Decode(mem, cp, room).Some? {
      var labels, hops := DecodeIsSound(mem, cp, room);
      if HasShortExpansion(mem, cp, room - 1) {
        var l, h :| Expands(mem, cp, l, h, true) && |Text(l)| <= room - 1;
        OneExpansion(mem, cp, labels, hops, true, l, h, true);
      }
    }
  }

  /** From 65 bytes on it also accepts a length byte of 64, which section 4.1.4 reserves. */
  lemma LongBufferTakesReserved(mem: Memory, room: nat, labels: seq<seq<byte>>, hops: nat, single: bool)
    requires room >= 65 && mem(0) == 64 && mem(65) == 0
    ensures Decode(mem, 0, room).Some? && !Expands(mem, 0, labels, hops, single)
  {
    assert Decode(mem, 65, room - 65).Some?;
  }

  /** A pointer to a pointer is a legal expansion that parse_name rejects. */
  lemma PointerToPointerRejected(mem: Memory, room: nat)
    requires room <= 64
    requires mem(12) == 0xC0 && mem(13) == 14 && mem(14) == 0xC0 && mem(15) == 16 && mem(16) == 0
    ensures Expands(mem, 12, [], 2, false) && Decode(mem, 12, room).None?
  {
    assert Expands(mem, 16, [], 0, false);
    assert Expands(mem, 14, [], 1, false);
  }
}
