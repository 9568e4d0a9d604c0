/** check_DHCP_leasedIP: a datagram sent to the leased address itself, which nobody should answer for. */
module DhcpConflict {
  import opened Arith
  import opened Wire
  import opened Ring
  import opened ChannelModel
  import opened SocketState
  import opened SocketLayer
  import DhcpOptions

  /** "CHECK_IP_CONFLICT" */
  const PROBE: seq<byte> := [67, 72, 69, 67, 75, 95, 73, 80, 95, 67, 79, 78, 70, 76, 73, 67, 84]

  const PROBE_PORT := 5000

  /**
   The address counts as unique exactly if the SEND timed out: the first read of Sn_IR that had SENDOK or TIMEOUT
   had TIMEOUT alone, so the address could not be resolved. In every other case there is a conflict, also when the
   socket could not be used.
   */
  method CheckLeasedIp(api: SocketApi, sn: nat, leased: DhcpOptions.Ip, patience: nat)
    returns (blocked: bool, unique: bool)
    requires sn < |api.chan| && api.SocketOk(sn)
    modifies api`subr, api.Foot(sn)
    ensures api.SocketOk(sn) && api.Elsewhere(sn) == old(api.Elsewhere(sn))
    ensures unique ==>
      && Waited(old(api.chan[sn].irs), api.chan[sn].irs) && LastIr(api.chan[sn].irs) == Ir(false, true)
      && api.chan[sn].out == old(api.chan[sn].out) + [Probe(leased)]
    ensures !blocked && api.chan[sn].irs != old(api.chan[sn].irs) ==>
      (unique <==> LastIr(api.chan[sn].irs) == Ir(false, true))
  {
    hide TxInv, RxInv, StreamInv, Consistent, FlagsAgree;
    assert RingSize(api.chan[sn].txSize);
    var ret, mask := api.SendTo(sn, PROBE, DhcpOptions.Word(leased), PROBE_PORT, patience);
    blocked := ret.Blocked?;
    unique := ret == Done(SOCKERR_TIMEOUT);
    assert PROBE[..|PROBE|] == PROBE;
  }

  function Probe(leased: DhcpOptions.Ip): Datagram
  {
    Datagram(Endpoint(DhcpOptions.Word(leased), PROBE_PORT), PROBE)
  }
}
