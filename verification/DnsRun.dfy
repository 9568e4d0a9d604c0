/** The waiting loop of DNS_run and check_DNS_timeout: how often the query is sent and for how long. */
module DnsRun {
  import opened Arith

  const MAX_DNS_RETRY := 2
  const DNS_WAIT_TIME := 3

  /** One round of the loop: the seconds that passed before it, and whether a reply has arrived. */
  datatype Poll = Poll(seconds: nat, replied: bool)

  datatype Outcome = Replied | TimedOut | Waiting

  function Elapsed(polls: seq<Poll>): nat
  {
    if polls == [] then 0 else Elapsed(polls[..|polls| - 1]) + polls[|polls| - 1].seconds
  }

  /** The loop comes round at least once a second. */
  predicate Prompt(polls: seq<Poll>)
  {
    forall i :: 0 <= i < |polls| ==> polls[i].seconds <= 1
  }

  class Resolver {
    var tick: u32
    var retryCount: byte

    /** DNS_time_handler, once a second */
    method Seconds(n: nat)
      modifies this
      ensures tick == (old(tick) + n) % 0x1_0000_0000 && retryCount == old(retryCount)
    {
      tick := (tick + n) % 0x1_0000_0000;
    }

    /** check_DNS_timeout: -1 timeout, 0 resend, 1 keep waiting. */
    method Check() returns (code: int)
      requires retryCount <= MAX_DNS_RETRY
      modifies this
      ensures code == if old(tick) < DNS_WAIT_TIME then 1 else if old(retryCount) == MAX_DNS_RETRY then -1 else 0
      ensures tick == if code == 1 then old(tick) else 0
      ensures retryCount == if code == -1 then 0 else if code == 0 then old(retryCount) + 1 else old(retryCount)
    {
      if tick >= DNS_WAIT_TIME {
        tick := 0;
        if retryCount >= MAX_DNS_RETRY {
          retryCount := 0;
          return -1;
        }
        retryCount := retryCount + 1;
        return 0;
      }
      return 1;
    }

    /**
     The loop of DNS_run over any sequence of rounds, `used` of which it gets to. The query goes out at most
     three times; giving up takes three waits of three seconds, so never less than 9 seconds, and - when the
     loop comes round every second - exactly 9, with the two resends after 3 and 6 seconds.
     */
    method Run(polls: seq<Poll>) returns (r: Outcome, sends: nat, used: nat)
      modifies this
      ensures used <= |polls| && 1 <= sends <= 1 + MAX_DNS_RETRY
      ensures DNS_WAIT_TIME * (sends - 1) <= Elapsed(polls[..used])
      ensures r == Replied <==> used > 0 && polls[used - 1].replied
      ensures forall i :: 0 <= i < used - 1 ==> !polls[i].replied
      ensures r == Waiting ==> used == |polls|
      ensures r == TimedOut ==> sends == 1 + MAX_DNS_RETRY
      ensures r == TimedOut ==> Elapsed(polls[..used]) >= DNS_WAIT_TIME * (1 + MAX_DNS_RETRY)
      ensures Prompt(polls) && r == TimedOut ==> Elapsed(polls[..used]) == DNS_WAIT_TIME * (1 + MAX_DNS_RETRY)
      ensures Prompt(polls) && r == Waiting ==>
        && Elapsed(polls[..used]) < DNS_WAIT_TIME * (1 + MAX_DNS_RETRY)
        && sends == 1 + Elapsed(polls[..used]) / DNS_WAIT_TIME
    {
      retryCount, tick := 0, 0;
      sends, used := 1, 0;
      while used < |polls|
        invariant used <= |polls| && retryCount <= MAX_DNS_RETRY && sends == 1 + retryCount
        invariant forall i :: 0 <= i < used ==> !polls[i].replied
        invariant DNS_WAIT_TIME * retryCount + tick <= Elapsed(polls[..used]) && tick < DNS_WAIT_TIME
        invariant Prompt(polls) ==> Elapsed(polls[..used]) == DNS_WAIT_TIME * retryCount + tick
      {
        Seconds(polls[used].seconds);
        assert polls[..used + 1][..used] == polls[..used];
        used := used + 1;
        if polls[used - 1].replied {
          return Replied, sends, used;
        }
        var check := Check();
        if check < 0 {
          return TimedOut, sends, used;
        } else if check == 0 {
          sends := sends + 1;
        }
      }
      r := Waiting;
    }
  }
}
