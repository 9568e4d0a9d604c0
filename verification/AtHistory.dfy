/** The AT command terminal of atcmd.c: the line editor of atc_run, and the ring of previous lines. */
module AtHistory {
  import opened Arith
  import opened Wrappers

  const ATCMD_BUF_SIZE := 100
  const PREVBUF_MAX_SIZE := 250
  const PREVBUF_MAX_NUM := 2

  const BS: byte := 0x08
  const LF: byte := 0x0A

  type Line = seq<byte>

  /** isgraph */
  predicate Graphic(ch: byte) { 0x21 <= ch <= 0x7E }

  // ----- the meaning of a character stream -----

  /** One character on the line being edited: other control characters and a full line change nothing. */
  function Edit(line: Line, ch: byte): Line
  {
    if Graphic(ch) then (if |line| < ATCMD_BUF_SIZE - 1 then line + [ch] else line)
    else if ch == BS && line != [] then line[..|line| - 1]
    else line
  }

  /** The line in progress after a stream of characters. */
  function Current(stream: seq<byte>): (line: Line)
    ensures |line| < ATCMD_BUF_SIZE
  {
    if stream == [] then [] else
    var line := Current(stream[..|stream| - 1]);
    var ch := stream[|stream| - 1];
    if ch == LF then [] else Edit(line, ch)
  }

  /** The lines entered in it: whatever is in progress at a line feed, unless it is empty. */
  function Entered(stream: seq<byte>): seq<Line>
  {
    if stream == [] then [] else
    var front := stream[..|stream| - 1];
    if stream[|stream| - 1] == LF && Current(front) != [] then Entered(front) + [Current(front)] else Entered(front)
  }

  /** The lines that stay while a new one is being entered. */
  function Staying(hist: seq<Line>): seq<Line>
  {
    if |hist| >= PREVBUF_MAX_NUM then hist[|hist| - PREVBUF_MAX_NUM + 1..] else hist
  }

  /** The history after a line, when the first `failures` allocations fail. */
  function Recorded(hist: seq<Line>, line: Line, failures: nat): seq<Line>
  {
    if failures <= |Staying(hist)| then Staying(hist)[failures..] + [line] else []
  }

  predicate Suffix(s: seq<Line>, whole: seq<Line>)
  {
    |s| <= |whole| && s == whole[|whole| - |s|..]
  }

  /** Nothing but characters the editor puts into a line, so no zero byte. */
  predicate Clean(line: Line) { forall i :: 0 <= i < |line| ==> Graphic(line[i]) }

  predicate LineOk(line: Line) { 0 < |line| < ATCMD_BUF_SIZE && Clean(line) }

  /** The C string at the start of a buffer: what strcpy copies and strlen counts. */
  function Text(buf: seq<byte>): Line
  {
    if buf == [] || buf[0] == 0 then [] else [buf[0]] + Text(buf[1..])
  }

  /** An edited line with its terminator is the string that was typed. */
  lemma {:induction false} TextIs(buf: seq<byte>, n: nat)
    requires n < |buf| && Clean(buf[..n]) && buf[n] == 0
    ensures Text(buf) == buf[..n]
  {
    if n > 0 {
      assert buf[..n][0] == buf[0];
      assert buf[1..][..n - 1] == buf[..n][1..];
      TextIs(buf[1..], n - 1);
    }
  }

  /** strlen + 1 over the lines. */
  function Bytes(hist: seq<Line>): nat
  {
    if hist == [] then 0 else |hist[0]| + 1 + Bytes(hist[1..])
  }

  lemma BytesOfOne(line: Line)
    ensures Bytes([line]) == |line| + 1
  {
    assert [line][1..] == [];
  }

  lemma {:induction false} BytesMore(hist: seq<Line>, line: Line)
    ensures Bytes(hist + [line]) == Bytes(hist) + |line| + 1
  {
    if hist == [] {
      BytesOfOne(line);
      assert hist + [line] == [line];
    } else {
      BytesMore(hist[1..], line);
      assert (hist + [line])[1..] == hist[1..] + [line];
    }
  }

  // ----- the answer to AT? -----

  const NOTHING: seq<byte> := [91, 68, 44, 44, 48, 93, 13, 10]

  /** The longest line whose answer and terminator fit the 100 bytes of tmpbuf. */
  const LONGEST_ANSWERED := 88

  function Decimal(n: nat): seq<byte>
    requires n < 100
  {
    if n < 10 then [48 + n] else [48 + n / 10, 48 + n % 10]
  }

  /** "[D,,%d]\r\n%s\r\n" */
  function Response(line: Line): seq<byte>
    requires LineOk(line)
  {
    [91, 68, 44, 44] + Decimal(|line|) + [93, 13, 10] + line + [13, 10]
  }

  /** Of the lines the editor lets through, those of 89 bytes and more are answered past the end of tmpbuf. */
  lemma ResponseFits(line: Line)
    requires LineOk(line)
    ensures |Response(line)| + 1 <= ATCMD_BUF_SIZE <==> |line| <= LONGEST_ANSWERED
  {
  }

  function Ascii(text: string): seq<byte>
    requires forall i :: 0 <= i < |text| ==> 0 as char < text[i] < 128 as char
  {
    seq(|text|, i requires 0 <= i < |text| => text[i] as byte)
  }

  /** What the terminal's user reads: the line and, in decimal without a leading zero, its length; or a length of 0. */
  lemma LengthShown(line: Line)
    requires LineOk(line)
    ensures Response(line) == Ascii("[D,,") + Decimal(|line|) + Ascii("]\r\n") + line + Ascii("\r\n")
    ensures NOTHING == Ascii("[D,,0]\r\n")
    ensures var d := Decimal(|line|);
            && (forall i :: 0 <= i < |d| ==> 48 <= d[i] <= 57) && d[0] != 48
            && |line| == (if |d| == 1 then d[0] - 48 else 10 * (d[0] - 48) + (d[1] - 48)) && |d| <= 2
  {
    assert Ascii("[D,,") == [91, 68, 44, 44] && Ascii("]\r\n") == [93, 13, 10] && Ascii("\r\n") == [13, 10];
  }

  /** Printable characters are the line; a backspace takes back the last one, if any; nothing else shows. */
  lemma Typed(stream: seq<byte>, ch: byte)
    ensures 0x21 <= ch <= 0x7E && |Current(stream)| < ATCMD_BUF_SIZE - 1 ==>
      Current(stream + [ch]) == Current(stream) + [ch] && Current(stream + [ch] + [BS]) == Current(stream)
    ensures 0x21 <= ch <= 0x7E && |Current(stream)| == ATCMD_BUF_SIZE - 1 ==> Current(stream + [ch]) == Current(stream)
    ensures Current(stream) == [] ==> Current(stream + [BS]) == []
    ensures !(0x21 <= ch <= 0x7E) && ch != LF && ch != BS ==> Current(stream + [ch]) == Current(stream)
    ensures Current(stream + [LF]) == []
    ensures Entered(stream + [LF]) == Entered(stream) + (if Current(stream) == [] then [] else [Current(stream)])
    ensures ch != LF ==> Entered(stream + [ch]) == Entered(stream)
  {
    forall c: byte
      ensures (stream + [c])[..|stream + [c]| - 1] == stream && (stream + [c])[|stream + [c]| - 1] == c
    {
    }
    var typed := stream + [ch];
    assert (typed + [BS])[..|typed + [BS]| - 1] == typed && (typed + [BS])[|typed + [BS]| - 1] == BS;
  }

  class Terminal {
    const termbuf: array<byte>
    var buflen: nat
    /** The allocated copies; None is NULL. */
    const prevbuf: array<Option<Line>>
    var previdx: nat
    var prevcnt: nat
    var prevlen: int
    /** CRITICAL_ERR has been reached, which never returns. */
    var halted: bool

    /** The slot before previdx holds the newest line, the one before that the older: a slot is NULL otherwise. */
    ghost predicate Ring()
      reads `previdx, `prevcnt, prevbuf
    {
      && prevbuf.Length == PREVBUF_MAX_NUM && previdx < PREVBUF_MAX_NUM && prevcnt <= PREVBUF_MAX_NUM
      && (prevbuf[1 - previdx].Some? <==> prevcnt >= 1)
      && (prevbuf[previdx].Some? <==> prevcnt >= 2)
    }

    /** The lines in the ring, oldest first. */
    ghost function History(): (h: seq<Line>)
      requires Ring()
      reads `previdx, `prevcnt, prevbuf
      ensures |h| == prevcnt
    {
      if prevcnt == 0 then []
      else if prevcnt == 1 then [prevbuf[1 - previdx].value]
      else [prevbuf[previdx].value, prevbuf[1 - previdx].value]
    }

    ghost predicate RingValid()
      reads `previdx, `prevcnt, `prevlen, prevbuf
    {
      && Ring() && prevlen == Bytes(History())
      && (prevcnt >= 1 ==> LineOk(History()[0]))
      && (prevcnt >= 2 ==> LineOk(History()[1]))
    }

    ghost predicate Valid()
      reads this, termbuf, prevbuf
    {
      RingValid() && termbuf.Length == ATCMD_BUF_SIZE && buflen < ATCMD_BUF_SIZE && Clean(termbuf[..buflen])
    }

    constructor ()
      ensures Valid() && fresh(termbuf) && fresh(prevbuf)
      ensures buflen == 0 && History() == [] && !halted
    {
      termbuf := new byte[ATCMD_BUF_SIZE](i => 0);
      prevbuf := new Option<Line>[PREVBUF_MAX_NUM](i => None);
      buflen, previdx, prevcnt, prevlen, halted := 0, 0, 0, 0, false;
    }

    /** Frees the oldest line. */
    method Evict()
      requires Valid() && prevcnt > 0
      modifies this`prevlen, this`prevcnt, prevbuf
      ensures Valid() && History() == old(History())[1..]
    {
      var idx := (previdx + PREVBUF_MAX_NUM - prevcnt) % PREVBUF_MAX_NUM;
      assert idx == if prevcnt == 1 then 1 - previdx else previdx;
      assert prevbuf[idx].value == History()[0];
      prevlen := prevlen - (|prevbuf[idx].value| + 1);
      prevbuf[idx] := None;
      prevcnt := prevcnt - 1;
      assert History() == old(History())[1..];
    }

    /** The first loop: at most one line stays; the 250-byte limit never makes a difference. */
    method MakeRoom()
      requires Valid()
      modifies this`prevlen, this`prevcnt, prevbuf
      ensures Valid() && prevcnt < PREVBUF_MAX_NUM
      ensures History() == if old(prevcnt) == 2 then old(History())[1..] else old(History())
    {
      while prevcnt >= PREVBUF_MAX_NUM || (prevcnt > 0 && prevlen + buflen > PREVBUF_MAX_SIZE - 1)
        invariant Valid()
        invariant History() == old(History()) || (old(prevcnt) == 2 && History() == old(History())[1..])
        decreases prevcnt
      {
        if prevcnt == 1 {
          assert History() == [History()[0]];
          BytesOfOne(History()[0]);
        }
        Evict();
      }
    }

    /** The last part: the copy - strcpy stops at the first zero byte -, the index, the counts. */
    method Store()
      requires Valid() && buflen > 0 && termbuf[buflen] == 0 && prevcnt < PREVBUF_MAX_NUM
      modifies this`prevlen, this`prevcnt, this`previdx, prevbuf
      ensures Valid() && History() == old(History()) + [termbuf[..buflen]]
    {
      BytesMore(History(), termbuf[..buflen]);
      assert termbuf[..][..buflen] == termbuf[..buflen];
      TextIs(termbuf[..], buflen);
      prevbuf[previdx] := Some(Text(termbuf[..]));
      if previdx == PREVBUF_MAX_NUM - 1 {
        previdx := 0;
      } else {
        previdx := previdx + 1;
      }
      prevcnt := prevcnt + 1;
      prevlen := prevlen + buflen + 1;
      assert History() == old(History()) + [termbuf[..buflen]];
    }

    /** The second loop, for the one line that may be left: malloc fails `failures` times. */
    method Allocate(failures: nat) returns (ok: bool)
      requires Valid() && prevcnt < PREVBUF_MAX_NUM
      modifies this`prevlen, this`prevcnt, prevbuf
      ensures Valid() && prevcnt < PREVBUF_MAX_NUM
      ensures ok <==> failures <= old(prevcnt)
      ensures failures == 0 || old(prevcnt) == 0 ==> History() == old(History())
      ensures failures > 0 ==> prevcnt == 0
    {
      hide Bytes, History;
      var calls := 1;
      while prevcnt > 0 && calls <= failures
        invariant Valid() && 1 <= calls <= failures + 1
        invariant if calls == 1 then prevcnt == old(prevcnt) && History() == old(History())
                  else old(prevcnt) == 1 && prevcnt == 0 && calls == 2
        decreases prevcnt
      {
        Evict();
        calls := calls + 1;
      }
      ok := calls > failures;
    }

    /** cmd_set_prev, when the first `failures` calls of malloc return NULL; with nothing left to evict it halts. */
    method SetPrev(failures: nat)
      requires Valid() && buflen > 0 && termbuf[buflen] == 0 && !halted
      modifies this`prevlen, this`prevcnt, this`previdx, this`halted, prevbuf
      ensures Valid() && History() == Recorded(old(History()), termbuf[..buflen], failures)
      ensures halted <==> failures > |Staying(old(History()))|
    {
      hide Bytes, History;
      MakeRoom();
      ghost var room := History();
      var ok := Allocate(failures);
      if !ok {
        halted := true;
      } else {
        assert History() == room[failures..];
        Store();
      }
    }

    /** The answer to `AT?`: the line two slots back, formatted into tmpbuf if it is long enough for it. */
    method Recall() returns (answer: seq<byte>, inside: bool)
      requires Valid()
      ensures answer == if prevcnt < 2 then NOTHING else Response(History()[prevcnt - 2])
      ensures inside <==> prevcnt < 2 || |History()[prevcnt - 2]| <= LONGEST_ANSWERED
    {
      if prevcnt < 2 {
        return NOTHING, true;
      }
      var idx := if previdx < 2 then previdx + (PREVBUF_MAX_NUM - 2) else previdx - 2;
      ResponseFits(History()[prevcnt - 2]);
      answer := Response(prevbuf[idx].value);
      inside := |answer| + 1 <= ATCMD_BUF_SIZE;
    }

    /**
     atc_run for one character; `scratch` is what cmd_divide and the command handlers leave in termbuf after a
     line has been entered.
     */
    method AtcRun(ch: byte, failures: nat, scratch: seq<byte>) returns (entered: bool)
      requires Valid() && |scratch| == ATCMD_BUF_SIZE && !halted
      modifies this, termbuf, prevbuf
      ensures Valid()
      ensures entered <==> ch == LF && old(buflen) > 0
      ensures !entered ==> History() == old(History())
      ensures entered ==> History() == Recorded(old(History()), old(termbuf[..buflen]), failures)
      ensures halted <==> entered && failures > |Staying(old(History()))|
      ensures !halted && ch == LF ==> buflen == 0
      ensures ch != LF ==> termbuf[..buflen] == Edit(old(termbuf[..buflen]), ch)
    {
      hide Bytes, History, Recorded, Edit, RingValid;
      TypeChar(ch);
      entered := ch == LF && buflen != 0;
      if !entered { return; }
      SetPrev(failures);
      if halted { return; }
      buflen := 0;
      forall i | 0 <= i < ATCMD_BUF_SIZE { termbuf[i] := scratch[i]; }
    }

    /** What one character does to termbuf; a line feed only terminates it. */
    method TypeChar(ch: byte)
      requires termbuf.Length == ATCMD_BUF_SIZE && buflen < ATCMD_BUF_SIZE && Clean(termbuf[..buflen])
      modifies this`buflen, termbuf
      ensures buflen < ATCMD_BUF_SIZE && termbuf[..buflen] == Edit(old(termbuf[..buflen]), ch)
      ensures Clean(termbuf[..buflen])
      ensures ch == LF ==> buflen == old(buflen) && termbuf[..buflen] == old(termbuf[..buflen]) && termbuf[buflen] == 0
      ensures ch == BS && old(buflen) > 0 ==> termbuf[buflen] == 0
    {
      if !Graphic(ch) {
        if ch == LF {
          termbuf[buflen] := 0;
        } else if ch == BS {
          if buflen != 0 {
            buflen := buflen - 1;
            termbuf[buflen] := 0;
          }
        }
      } else if buflen < ATCMD_BUF_SIZE - 1 {
        termbuf[buflen] := ch;
        buflen := buflen + 1;
      }
    }
  }

  // ----- every character stream -----

  /** The history after a stream; `fails(i)` allocations fail at character i. */
  function Kept(stream: seq<byte>, fails: nat -> nat): seq<Line>
  {
    if stream == [] then [] else
    var front := stream[..|stream| - 1];
    if stream[|stream| - 1] == LF && Current(front) != [] then
      Recorded(Kept(front, fails), Current(front), fails(|front|))
    else Kept(front, fails)
  }

  /** The last character of the stream is one at which the terminal halts: no allocation for its line succeeds. */
  predicate Halts(stream: seq<byte>, fails: nat -> nat)
  {
    && stream != []
    && var front := stream[..|stream| - 1];
       && stream[|stream| - 1] == LF && Current(front) != []
       && fails(|front|) > |Staying(Kept(front, fails))|
  }

  /**
   Any stream typed into a fresh terminal, with memory failing in any way, up to the character that halts it.
   `scratch(i)` is what the command entered by character i leaves in the terminal buffer.
   */
  method Feed(t: Terminal, stream: seq<byte>, fails: nat -> nat, scratch: nat -> seq<byte>) returns (n: nat)
    requires t.Valid() && t.buflen == 0 && t.History() == [] && !t.halted
    requires forall i :: |scratch(i)| == ATCMD_BUF_SIZE
    modifies t, t.termbuf, t.prevbuf
    ensures t.Valid() && n <= |stream| && t.History() == Kept(stream[..n], fails)
    ensures t.halted <==> Halts(stream[..n], fails)
    ensures forall i :: 0 <= i < n ==> !Halts(stream[..i], fails)
    ensures !t.halted ==> n == |stream| && t.termbuf[..t.buflen] == Current(stream)
  {
    hide Edit, Recorded, Staying;
    n := 0;
    while n < |stream| && !t.halted
      invariant t.Valid() && n <= |stream| && t.History() == Kept(stream[..n], fails)
      invariant t.halted <==> Halts(stream[..n], fails)
      invariant forall i :: 0 <= i < n ==> !Halts(stream[..i], fails)
      invariant !t.halted ==> t.termbuf[..t.buflen] == Current(stream[..n])
    {
      assert stream[..n + 1][..n] == stream[..n];
      var entered := t.AtcRun(stream[n], fails(n), scratch(n));
      n := n + 1;
    }
    assert stream[..|stream|] == stream;
  }

  lemma RecordedIsSuffix(hist: seq<Line>, all: seq<Line>, line: Line, failures: nat)
    requires Suffix(hist, all) && |hist| <= PREVBUF_MAX_NUM
    ensures Suffix(Recorded(hist, line, failures), all + [line])
    ensures |Recorded(hist, line, failures)| <= PREVBUF_MAX_NUM
    ensures failures == 0 ==>
      |Recorded(hist, line, failures)| == if |hist| < PREVBUF_MAX_NUM then |hist| + 1 else PREVBUF_MAX_NUM
  {
  }

  /** The ring always holds the most recent lines in order, two at most; all of them when memory never fails. */
  lemma {:induction false} HistoryIsRecent(stream: seq<byte>, fails: nat -> nat)
    ensures Suffix(Kept(stream, fails), Entered(stream)) && |Kept(stream, fails)| <= PREVBUF_MAX_NUM
    ensures (forall i :: fails(i) == 0) ==>
      |Kept(stream, fails)| == if |Entered(stream)| < PREVBUF_MAX_NUM then |Entered(stream)| else PREVBUF_MAX_NUM
  {
    hide Recorded, Suffix;
    if stream == [] {
      assert Suffix([], []) by { NothingIsSuffix(); }
    } else {
      var front := stream[..|stream| - 1];
      HistoryIsRecent(front, fails);
      RecordedIsSuffix(Kept(front, fails), Entered(front), Current(front), fails(|front|));
    }
  }

  lemma NothingIsSuffix()
    ensures Suffix([], [])
  {
  }

  /** While memory never fails the terminal never halts. */
  lemma NeverHalts(stream: seq<byte>, fails: nat -> nat)
    requires forall i :: fails(i) == 0
    ensures !Halts(stream, fails)
  {
  }

  /**
   `AT?` - itself a line, and in the ring when it is looked at - recalls the line before it, provided that
   memory never fails and there is such a line; the answer is written inside its buffer exactly when that line
   has at most 88 bytes.
   */
  method RecallAfter(t: Terminal, stream: seq<byte>, fails: nat -> nat, scratch: nat -> seq<byte>)
    returns (answer: seq<byte>, inside: bool)
    requires t.Valid() && t.buflen == 0 && t.History() == [] && !t.halted
    requires (forall i :: fails(i) == 0) && forall i :: |scratch(i)| == ATCMD_BUF_SIZE
    modifies t, t.termbuf, t.prevbuf
    ensures var all := Entered(stream);
            if |all| < 2 then answer == NOTHING && inside
            else LineOk(all[|all| - 2]) && answer == Response(all[|all| - 2])
                 && (inside <==> |all[|all| - 2]| <= LONGEST_ANSWERED)
  {
    var n := Feed(t, stream, fails, scratch);
    NeverHalts(stream[..n], fails);
    assert stream[..n] == stream;
    HistoryIsRecent(stream, fails);
    answer, inside := t.Recall();
  }
}
