/** Bytes in memory: what a buffer holds, and copying into one. */
module Bytes {
  import opened Arith

  /** mem(i) is the byte i bytes after the start of a message; what lies past the message is arbitrary. */
  type Memory = nat -> byte

  function Slice(mem: Memory, from: nat, n: nat): (s: seq<byte>)
    ensures |s| == n
  {
    seq(n, i requires 0 <= i < n => mem(from + i))
  }

  lemma SliceMore(mem: Memory, from: nat, n: nat)
    ensures Slice(mem, from, 0) == []
    ensures Slice(mem, from, n + 1) == Slice(mem, from, n) + [mem(from + n)]
  {
  }

  /** mem holds data from position p on. */
  ghost predicate Holds(mem: Memory, p: nat, data: seq<byte>)
  {
    forall i :: 0 <= i < |data| ==> mem(p + i) == data[i]
  }

  lemma HoldsParts(mem: Memory, p: nat, a: seq<byte>, b: seq<byte>)
    requires Holds(mem, p, a + b)
    ensures Holds(mem, p, a) && Holds(mem, p + |a|, b)
  {
    forall i | 0 <= i < |b|
      ensures mem(p + |a| + i) == b[i]
    {
      assert (a + b)[|a| + i] == b[i];
    }
    forall i | 0 <= i < |a|
      ensures mem(p + i) == a[i]
    {
      assert (a + b)[i] == a[i];
    }
  }

  /** Writes bytes one after the other. */
  method Put(buf: array<byte>, cp: nat, data: seq<byte>) returns (next: nat)
    requires cp + |data| <= buf.Length
    modifies buf
    ensures next == cp + |data| && buf[..next] == old(buf[..cp]) + data
  {
    for i := 0 to |data|
      invariant buf[..cp + i] == old(buf[..cp]) + data[..i]
    {
      buf[cp + i] := data[i];
      assert buf[..cp + i + 1] == buf[..cp + i] + [data[i]];
      assert data[..i + 1] == data[..i] + [data[i]];
    }
    next := cp + |data|;
  }
}
