/** What every run of the DHCP client keeps, where a leased address comes from, and how long silence lasts. */
module DhcpRuns {
  import opened Arith
  import opened Bytes
  import opened Wrappers
  import opened DhcpOptions
  import opened DhcpMessage
  import opened DhcpState

  datatype Event = Tick | Call(input: Option<Datagram>, unique: bool) | Boot(mac: Mac) | Halt

  function Apply(c: Client, e: Event): Client
  {
    match e
    case Tick => Second(c)
    case Call(input, unique) => Run(c, input, unique).c
    case Boot(mac) => Initialised(c, mac)
    case Halt => Stop(c)
  }

  function After(c: Client, events: seq<Event>): Client
  {
    if events == [] then c else Apply(After(c, events[..|events| - 1]), events[|events| - 1])
  }

  // ----- the invariant -----

  predicate Inv(c: Client)
  {
    && 0 <= c.retry <= MAX_DHCP_RETRY
    && c.next == DHCP_WAIT_TIME
    && (c.phase == Init || c.phase == Leased ==> c.retry == 0)
    && (c.phase == Rerequest ==> c.old_ == c.leased)
  }

  lemma InvKept(c: Client, e: Event)
    requires Inv(c)
    ensures Inv(Apply(c, e))
  {
    hide Read, DiscoverSent, RequestSent, DeclineSent;
  }

  lemma {:induction false} InvAlways(c: Client, events: seq<Event>)
    requires Inv(c)
    ensures Inv(After(c, events))
  {
    if events == [] {
    } else {
      InvAlways(c, events[..|events| - 1]);
      InvKept(After(c, events[..|events| - 1]), events[|events| - 1]);
    }
  }

  /**
   In every run, whatever is received: LEASED is entered exactly by an ACK in REQUEST that passes the
   conflict check or by an ACK in REREQUEST; a leased address is never changed by a call, so the IP_CHANGED
   result and its callback are never produced, and neither is IP_ASSIGN.
   */
  lemma LeaseIsEnteredByAck(c: Client, events: seq<Event>, input: Option<Datagram>, unique: bool)
    requires Inv(c)
    ensures
      var before := After(c, events);
      var step := Run(before, input, unique);
      var kind := Read(before, input).kind;
      && (step.c.phase == Leased && before.phase != Leased <==>
          kind == ACK && ((before.phase == Request && unique) || before.phase == Rerequest))
      && (Renewing(before) ==> step.c.leased == before.leased)
      && step.ret != IP_CHANGED && step.ret != IP_ASSIGN && step.call != IpUpdate
      && (step.call == IpAssign <==> step.c.phase == Leased && before.phase == Request)
  {
    hide Read, DiscoverSent, RequestSent, DeclineSent;
    InvAlways(c, events);
  }

  // ----- where a leased address comes from -----

  predicate HasAddress(c: Client) { c.phase == Request || Renewing(c) }

  predicate TakesOffer(c: Client, e: Event)
  {
    e.Call? && c.phase == Discover && Read(c, e.input).kind == OFFER
  }

  predicate Confirms(c: Client, e: Event)
  {
    e.Call? && e.unique && c.phase == Request && Read(c, e.input).kind == ACK
  }

  /** Event i took the offer of the address the client holds after the events: bytes 16 to 19 of the message. */
  ghost predicate OfferedAt(c: Client, events: seq<Event>, i: nat)
  {
    && i < |events| && TakesOffer(After(c, events[..i]), events[i]) && events[i].input.Some?
    && var m := events[i].input.value.mem;
       After(c, events).leased == [m(16), m(17), m(18), m(19)]
  }

  ghost predicate ConfirmedAt(c: Client, events: seq<Event>, i: nat, j: nat)
  {
    i < j < |events| && OfferedAt(c, events, i) && Confirms(After(c, events[..j]), events[j])
  }

  lemma StepCases(c: Client, e: Event)
    ensures HasAddress(Apply(c, e)) ==> HasAddress(c) || TakesOffer(c, e)
    ensures HasAddress(Apply(c, e)) && HasAddress(c) && !TakesOffer(c, e) ==> Apply(c, e).leased == c.leased
    ensures TakesOffer(c, e) ==>
      && e.input.Some? && Apply(c, e).phase == Request
      && var m := e.input.value.mem; Apply(c, e).leased == [m(16), m(17), m(18), m(19)]
    ensures Renewing(Apply(c, e)) ==> Renewing(c) || Confirms(c, e)
    ensures HasAddress(c) ==> !TakesOffer(c, e)
    ensures Confirms(c, e) ==> HasAddress(c)
  {
    hide Read, DiscoverSent, RequestSent, DeclineSent;
    if TakesOffer(c, e) {
      var m := e.input.value.mem;
      assert Slice(m, 16, 4) == [m(16), m(17), m(18), m(19)];
    }
  }

  lemma {:induction false} AddressWasOffered(c: Client, events: seq<Event>)
    requires !HasAddress(c)
    ensures HasAddress(After(c, events)) ==> exists i :: OfferedAt(c, events, i)
    ensures Renewing(After(c, events)) ==> exists i, j :: ConfirmedAt(c, events, i, j)
  {
    hide TakesOffer, Confirms, Apply, HasAddress, Renewing;
    if events == [] {
      Apart(c);
    } else {
      var n := |events| - 1;
      var past, e := events[..n], events[n];
      AddressWasOffered(c, past);
      StepCases(After(c, past), e);
      Apart(After(c, events));
      if HasAddress(After(c, events)) {
        if TakesOffer(After(c, past), e) {
          assert OfferedAt(c, events, n);
        } else {
          var i: nat :| OfferedAt(c, past, i);
          Extended(c, events, i);
        }
      }
      if Renewing(After(c, events)) {
        if Renewing(After(c, past)) {
          Apart(After(c, past));
          var i: nat, j: nat :| ConfirmedAt(c, past, i, j);
          assert past[..j] == events[..j];
          Extended(c, events, i);
          assert ConfirmedAt(c, events, i, j);
        } else {
          var i: nat :| OfferedAt(c, past, i);
          Extended(c, events, i);
          assert ConfirmedAt(c, events, i, n);
        }
      }
    }
  }

  lemma Apart(c: Client)
    ensures Renewing(c) ==> HasAddress(c)
  {
  }

  lemma Extended(c: Client, events: seq<Event>, i: nat)
    requires events != [] && OfferedAt(c, events[..|events| - 1], i)
    requires After(c, events).leased == After(c, events[..|events| - 1]).leased
    ensures OfferedAt(c, events, i)
  {
    assert events[..|events| - 1][..i] == events[..i];
  }

  // ----- silence -----

  /** Any number of seconds pass, then DHCP_run is called. */
  datatype Round = Round(seconds: nat, input: Option<Datagram>, unique: bool)

  function Pass(c: Client, n: nat): Client { c.(tick := (c.tick + n) % 0x1_0000_0000) }

  function Ticks(n: nat): seq<Event> { seq(n, _ => Tick) }

  /** The seconds of a round are so many ticks of the timer. */
  lemma {:induction false} PassIsTicks(c: Client, n: nat)
    ensures After(c, Ticks(n)) == Pass(c, n)
  {
    if n > 0 {
      assert Ticks(n)[..n - 1] == Ticks(n - 1);
      PassIsTicks(c, n - 1);
      ModAbsorb(c.tick + n - 1, 1, 0x1_0000_0000);
    }
  }

  function Turn(c: Client, r: Round): Step { Run(Pass(c, r.seconds), r.input, r.unique) }

  /** A round is a stretch of a run in the sense of the events above. */
  lemma TurnIsEvents(c: Client, r: Round)
    ensures After(c, Ticks(r.seconds) + [Call(r.input, r.unique)]) == Turn(c, r).c
  {
    var events := Ticks(r.seconds) + [Call(r.input, r.unique)];
    assert events[..|events| - 1] == Ticks(r.seconds);
    PassIsTicks(c, r.seconds);
  }

  function Play(c: Client, rounds: seq<Round>): Client
    decreases |rounds|
  {
    if rounds == [] then c else Play(Turn(c, rounds[0]).c, rounds[1..])
  }

  function SentIn(c: Client, rounds: seq<Round>): seq<Sent>
    decreases |rounds|
  {
    if rounds == [] then [] else Turn(c, rounds[0]).sent + SentIn(Turn(c, rounds[0]).c, rounds[1..])
  }

  predicate Fails(c: Client, rounds: seq<Round>)
    decreases |rounds|
  {
    rounds != [] && (Turn(c, rounds[0]).ret == FAILED || Fails(Turn(c, rounds[0]).c, rounds[1..]))
  }

  /** Nothing that is read is an OFFER, an ACK or a NAK. */
  predicate Quiet(c: Client, rounds: seq<Round>)
    decreases |rounds|
  {
    rounds != [] ==>
      && Read(Pass(c, rounds[0].seconds), rounds[0].input).kind !in {OFFER, ACK, NAK}
      && Quiet(Turn(c, rounds[0]).c, rounds[1..])
  }

  /** The 32-bit second counter does not wrap between two calls: 136 years. */
  predicate InTime(c: Client, rounds: seq<Round>)
  {
    && (rounds != [] ==> c.tick + rounds[0].seconds <= 0xFFFF_FFFF)
    && (forall i :: 0 < i < |rounds| ==> rounds[i].seconds <= 0xFFFF_FFFF - DHCP_WAIT_TIME)
  }

  function Seconds(rounds: seq<Round>): nat
  {
    if rounds == [] then 0 else rounds[0].seconds + Seconds(rounds[1..])
  }

  /** The rounds in which time passes at all. */
  function Late(rounds: seq<Round>): nat
  {
    if rounds == [] then 0 else (if rounds[0].seconds > 0 then 1 else 0) + Late(rounds[1..])
  }

  predicate Seeking(c: Client) { c.phase in {Discover, Request, Rerequest} }

  /** The seconds left: to the next resend, through the resends left, and through the DISCOVER phase. */
  function Left(c: Client): nat
    requires Inv(c)
  {
    var wait := if c.tick >= DHCP_WAIT_TIME then 1 else DHCP_WAIT_TIME + 1 - c.tick;
    (if c.retry == 0 then wait + 11 else if c.retry == 1 then wait else 0) + (if c.phase == Discover then 0 else 23)
  }

  /** The messages left: the resends of this phase, and the DISCOVER phase's first message and resends. */
  function SendsLeft(c: Client): nat
    requires Inv(c)
  {
    MAX_DHCP_RETRY - c.retry + (if c.phase == Discover then 0 else 1 + MAX_DHCP_RETRY)
  }

  /** What an unanswered call leaves, however many seconds have passed before it. */
  lemma QuietTurn(c: Client, r: Round)
    requires Inv(c) && Seeking(c) && c.tick + r.seconds <= 0xFFFF_FFFF
    requires Read(Pass(c, r.seconds), r.input).kind !in {OFFER, ACK, NAK}
    ensures var s := Turn(c, r);
            && Inv(s.c) && (s.ret == FAILED <==> c.phase == Discover && c.retry == MAX_DHCP_RETRY)
            && (s.ret == FAILED ==> s.sent == [] && s.c.phase == Init && Left(c) == SendsLeft(c) == 0)
            && (s.ret != FAILED ==>
                 && Seeking(s.c) && s.c.tick <= DHCP_WAIT_TIME
                 && |s.sent| + SendsLeft(s.c) == SendsLeft(c)
                 && Left(s.c) <= Left(c) && (r.seconds > 0 ==> Left(s.c) + 1 <= Left(c))
                 && (r.seconds == 1 ==> Left(s.c) + 1 == Left(c)))
  {
    hide Read, DiscoverSent, RequestSent, DeclineSent;
  }

  /**
   Without answers every run gives up, however irregularly the client is called: as long as it has not returned
   DHCP_FAILED there have been no more than Left(c) calls before which any time passed, and no more than
   SendsLeft(c) messages have gone out. Called once a second it fails exactly at call Left(c) + 1.
   */
  lemma {:induction false} SilenceEnds(c: Client, rounds: seq<Round>)
    requires Inv(c) && Seeking(c) && InTime(c, rounds) && Quiet(c, rounds)
    ensures !Fails(c, rounds) ==>
      && Inv(Play(c, rounds)) && Seeking(Play(c, rounds))
      && Late(rounds) + Left(Play(c, rounds)) <= Left(c)
      && |SentIn(c, rounds)| + SendsLeft(Play(c, rounds)) == SendsLeft(c)
    ensures (forall i :: 0 <= i < |rounds| ==> rounds[i].seconds == 1) ==> (Fails(c, rounds) <==> |rounds| > Left(c))
    decreases |rounds|
  {
    hide Read, Turn, Left, SendsLeft, Inv, Seeking;
    if rounds == [] {
    } else {
      QuietTurn(c, rounds[0]);
      var s := Turn(c, rounds[0]);
      if s.ret != FAILED {
        SilenceEnds(s.c, rounds[1..]);
      }
    }
  }

  /** With calls at most g seconds apart, no more than g * Left(c) seconds pass before DHCP_FAILED. */
  lemma {:induction false} SecondsBounded(rounds: seq<Round>, g: nat)
    requires forall i :: 0 <= i < |rounds| ==> rounds[i].seconds <= g
    ensures Seconds(rounds) <= g * Late(rounds)
  {
    if rounds == [] {
    } else {
      SecondsBounded(rounds[1..], g);
      if rounds[0].seconds > 0 {
        assert g * Late(rounds) == g + g * Late(rounds[1..]);
      }
    }
  }

  lemma SilenceBounded(c: Client, rounds: seq<Round>, g: nat)
    requires Inv(c) && Seeking(c) && InTime(c, rounds) && Quiet(c, rounds) && !Fails(c, rounds)
    requires forall i :: 0 <= i < |rounds| ==> rounds[i].seconds <= g
    ensures Seconds(rounds) <= g * Left(c)
  {
    SilenceEnds(c, rounds);
    SecondsBounded(rounds, g);
    TimesGrows(g, Late(rounds), Left(c));
  }

  lemma TimesGrows(g: nat, a: nat, b: nat)
    requires a <= b
    ensures g * a <= g * b
  {
  }

  /** At most two resends in a phase; 22 seconds for a fresh DISCOVER, 45 for a fresh REQUEST or renewal. */
  lemma Bounds(c: Client)
    requires Inv(c) && Seeking(c)
    ensures SendsLeft(c) <= 5 && (c.phase == Discover ==> SendsLeft(c) <= 2)
    ensures Left(c) <= (if c.phase == Discover then 22 else 45)
    ensures Left(Fresh(c)) == (if c.phase == Discover then 22 else 45)
  {
  }

  /**
   An OFFER does not reset the retry count, so an accepted one is dropped at the next unanswered call, however
   soon that comes, exactly if DISCOVER had been resent twice before; otherwise the client goes on waiting.
   */
  lemma LateOfferDropped(c: Client, offer: Option<Datagram>, u: bool, r: Round)
    requires Inv(c) && c.phase == Discover && Read(c, offer).kind == OFFER
    requires Read(Pass(Run(c, offer, u).c, r.seconds), r.input).kind !in {ACK, NAK}
    ensures Run(c, offer, u).c.phase == Request
    ensures Turn(Run(c, offer, u).c, r).c.phase == Discover <==> c.retry == MAX_DHCP_RETRY
    ensures c.retry < MAX_DHCP_RETRY ==> Turn(Run(c, offer, u).c, r).c.phase == Request
  {
    hide Read, DiscoverSent, RequestSent, DeclineSent;
  }

  // ----- keeping a lease -----

  /** What is received leaves the client's knowledge of the network, and with it the lease, as it is. */
  predicate Undisturbed(c: Client, rounds: seq<Round>)
  {
    forall i :: 0 <= i < |rounds| ==> Read(c, rounds[i].input).net == c.net
  }

  lemma ReadIgnoresTick(c: Client, tick: u32, input: Option<Datagram>)
    ensures Read(c.(tick := tick), input) == Read(c, input)
  {
  }

  /** The first REQUEST of a renewal: a new transaction, sent to the server that gave the lease. */
  function Renewal(c: Client): Sent
  {
    RequestSent(c.(phase := Leased, xid := (c.xid + 1) % 0x1_0000_0000))
  }

  lemma LeasedTurn(c: Client, r: Round)
    requires c.phase == Leased && c.tick + r.seconds <= 0xFFFF_FFFF
    requires Read(c, r.input).net == c.net
    ensures var s := Turn(c, r);
            if c.net.lease != INFINITE && c.net.lease / 2 < c.tick + r.seconds then
              && s.c.phase == Rerequest && s.c.leased == c.leased == s.c.old_ && s.c.tick == 0 && s.c.retry == 0
              && s.sent == [Renewal(c)] && s.sent[0].dest == c.net.sip
            else s.c == c.(tick := c.tick + r.seconds) && s.sent == []
  {
    hide Read;
    assert Pass(c, r.seconds) == c.(tick := c.tick + r.seconds);
    ReadIgnoresTick(c, c.tick + r.seconds, r.input);
  }

  /**
   Section 4.4.5 of RFC 2131: a lease is used in silence for half its length, and at the first call after that
   the client asks its server for a renewal, once; an infinite lease is never renewed.
   */
  lemma {:induction false} RenewedAtHalf(c: Client, rounds: seq<Round>)
    requires c.phase == Leased && Undisturbed(c, rounds) && c.tick + Seconds(rounds) <= 0xFFFF_FFFF
    ensures c.net.lease == INFINITE || c.tick + Seconds(rounds) <= c.net.lease / 2 ==>
      Play(c, rounds) == c.(tick := c.tick + Seconds(rounds)) && SentIn(c, rounds) == []
    ensures c.net.lease != INFINITE && rounds != [] && c.tick + Seconds(rounds) > c.net.lease / 2
            && c.tick + Seconds(rounds) - rounds[|rounds| - 1].seconds <= c.net.lease / 2 ==>
      Play(c, rounds).phase == Rerequest && SentIn(c, rounds) == [Renewal(c)]
    decreases |rounds|
  {
    hide Turn, Renewal, Read;
    if rounds == [] {
    } else {
      var next, rest := c.(tick := c.tick + rounds[0].seconds), rounds[1..];
      assert Pass(c, rounds[0].seconds) == next;
      LeasedTurn(c, rounds[0]);
      assert Undisturbed(next, rest) by {
        forall i | 0 <= i < |rest|
          ensures Read(next, rest[i].input).net == next.net
        {
          ReadIgnoresTick(c, next.tick, rounds[i + 1].input);
        }
      }
      RenewedAtHalf(next, rest);
      SameRenewal(c, next.tick);
      LastSeconds(rounds);
    }
  }

  lemma {:induction false} LastSeconds(rounds: seq<Round>)
    requires rounds != []
    ensures rounds[|rounds| - 1].seconds <= Seconds(rounds)
    ensures |rounds| > 1 ==> rounds[|rounds| - 1].seconds + rounds[0].seconds <= Seconds(rounds)
  {
    if |rounds| > 1 {
      LastSeconds(rounds[1..]);
    }
  }

  lemma SameRenewal(c: Client, tick: u32)
    ensures Renewal(c.(tick := tick)) == Renewal(c)
  {
  }
}
