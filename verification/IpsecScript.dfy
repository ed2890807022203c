/** docker/supervisor_content/ipsec.sh: what it sets up when a VRF starts and what its
    SIGTERM handler takes down. */
module IpsecScript {
  import opened Text
  import opened SupervisorEnv
  import opened Kernel

  /** printf %02d. */
  function TwoDigits(i: nat): string { if i < 10 then "0" + Decimal(i) else Decimal(i) }

  function VrfName(env: Environment): string { "vrf-" + env.vrfId }

  function InterfaceName(vrfId: string, i: nat): string { "ipsec-" + vrfId + TwoDigits(i) }

  function IpsecName(env: Environment, i: nat): string { InterfaceName(env.vrfId, i) }

  function VlanName(env: Environment, vlan: string): string { env.physIf + "." + vlan }

  function RawChain(env: Environment): string { "VRF" + env.vrfId + "-raw" }

  function NatChain(env: Environment): string { "VRF" + env.vrfId + "-nat" }

  function VlanList(env: Environment): seq<(string, string)> { Pairs(ShellWords(env.vlansIps)) }

  function EndpointCount(env: Environment): nat { |ShellWords(env.xfrmIp)| }

  function AddressText(env: Environment, i: nat): string {
    var localIp, peerIp := AwkField(env.xfrmIp, i), AwkField(env.xfrmPeer, i);
    if env.disablePeerIps == "true" || peerIp == "empty" then localIp + "/32"
    else localIp + " peer " + peerIp
  }

  function IpsecNames(env: Environment, n: nat): (names: seq<string>)
    ensures |names| == n && forall i :: 0 <= i < n ==> names[i] == IpsecName(env, i + 1)
  {
    seq(n, i requires 0 <= i < n => IpsecName(env, i + 1))
  }

  /** Links and routes, as the start-up part leaves them. */
  function SetupVlan(env: Environment, net: Net, v: (string, string)): Net {
    var name := VlanName(env, v.0);
    var net1 := AddLink(net, name, env.physIf, "vlan", v.0);
    var net2 := SetMaster(net1, name, VrfName(env));
    AddAddr(SetUp(net2, name), name, v.1)
  }

  function SetupVlans(env: Environment, net: Net, vs: seq<(string, string)>): Net {
    if vs == [] then net
    else SetupVlan(env, SetupVlans(env, net, vs[..|vs| - 1]), vs[|vs| - 1])
  }

  function SetupEndpoint(env: Environment, net: Net, i: nat): Net {
    var name := IpsecName(env, i);
    var net1 := AddLink(net, name, "lo", "xfrm", AwkField(env.endpointIds, i));
    var net2 := SetMaster(net1, name, VrfName(env));
    AddAddr(SetUp(net2, name), name, AddressText(env, i))
  }

  function SetupEndpoints(env: Environment, net: Net, n: nat): Net {
    if n == 0 then net else SetupEndpoint(env, SetupEndpoints(env, net, n - 1), n)
  }

  /** PEER_IP still holds the last endpoint's word after the loop. */
  predicate WantsRoute(env: Environment) {
    env.disablePeerIps == "true" || (EndpointCount(env) > 0 && AwkField(env.xfrmPeer, EndpointCount(env)) == "empty")
  }

  function SetupNet(env: Environment, net: Net): Net {
    var n := EndpointCount(env);
    var net1 := SetUp(AddLink(net, VrfName(env), "", "vrf", env.vrfId), VrfName(env));
    var net2 := SetupEndpoints(env, SetupVlans(env, net1, VlanList(env)), n);
    if WantsRoute(env) then AddRoute(net2, VrfName(env), IpsecNames(env, n)) else net2
  }

  function DelLinks(net: Net, names: seq<string>): Net {
    if names == [] then net else DelLink(DelLinks(net, names[..|names| - 1]), names[|names| - 1])
  }

  function VlanNames(env: Environment, vs: seq<(string, string)>): (names: seq<string>)
    ensures |names| == |vs| && forall i :: 0 <= i < |vs| ==> names[i] == VlanName(env, vs[i].0)
  {
    seq(|vs|, i requires 0 <= i < |vs| => VlanName(env, vs[i].0))
  }

  function TeardownNet(env: Environment, net: Net): Net {
    var net1 := DelLinks(net, IpsecNames(env, EndpointCount(env)));
    var net2 := DelLinks(net1, VlanNames(env, VlanList(env)));
    DelLink(net2, VrfName(env))
  }

  /** The raw table. */
  function RawJump(env: Environment): Rule { Rule("", "", Jump(RawChain(env))) }

  function ZoneRule(env: Environment, iface: string): Rule { Rule("-i", iface, Zone(env.vrfId)) }

  function ZoneRules(env: Environment, t: Table, vs: seq<(string, string)>): Table {
    if vs == [] then t
    else Append(ZoneRules(env, t, vs[..|vs| - 1]), RawChain(env), ZoneRule(env, VlanName(env, vs[|vs| - 1].0)))
  }

  function SetupRaw(env: Environment, t: Table): Table {
    var t1 := Append(NewChain(t, RawChain(env)), "PREROUTING", RawJump(env));
    ZoneRules(env, Append(t1, RawChain(env), ZoneRule(env, "ipsec-" + env.vrfId + "+")), VlanList(env))
  }

  function TeardownRaw(env: Environment, t: Table): Table {
    DeleteChain(Flush(DeleteRule(t, "PREROUTING", RawJump(env)), RawChain(env)), RawChain(env))
  }

  /** The nat table. The handler has no flush here. */
  function NatJump(env: Environment): Rule { Rule("", "", Jump(NatChain(env))) }

  function NatRules(env: Environment, n: nat): seq<Rule> {
    if n == 0 then []
    else if AwkField(env.nat_, n) == "YES" then NatRules(env, n - 1) + [Rule("-o", IpsecName(env, n), Masquerade)]
    else NatRules(env, n - 1)
  }

  function SetupMasquerade(env: Environment, t: Table, n: nat): Table {
    if n == 0 then t
    else
      var t1 := SetupMasquerade(env, t, n - 1);
      if AwkField(env.nat_, n) == "YES" then Append(t1, NatChain(env), Rule("-o", IpsecName(env, n), Masquerade)) else t1
  }

  function SetupNat(env: Environment, t: Table): Table {
    SetupMasquerade(env, Append(NewChain(t, NatChain(env)), "POSTROUTING", NatJump(env)), EndpointCount(env))
  }

  function TeardownNat(env: Environment, t: Table): Table {
    DeleteChain(DeleteRule(t, "POSTROUTING", NatJump(env)), NatChain(env))
  }

  /** The machine the script runs on. */
  class Machine {
    var net: Net
    var raw: Table
    var nat_: Table

    constructor (net: Net, raw: Table, nat_: Table)
      ensures this.net == net && this.raw == raw && this.nat_ == nat_
    {
      this.net, this.raw, this.nat_ := net, raw, nat_;
    }

    /** _term. */
    method Term(env: Environment)
      modifies this
      ensures net == TeardownNet(env, old(net))
      ensures raw == TeardownRaw(env, old(raw))
      ensures nat_ == TeardownNat(env, old(nat_))
    {
      var n := EndpointCount(env);
      var iter := 1;
      while iter <= n
        invariant 1 <= iter <= n + 1
        invariant net == DelLinks(old(net), IpsecNames(env, iter - 1))
        invariant raw == old(raw) && nat_ == old(nat_)
      {
        net := DelLink(net, IpsecName(env, iter));
        assert IpsecNames(env, iter)[..iter - 1] == IpsecNames(env, iter - 1);
        iter := iter + 1;
      }
      ghost var net1 := net;
      var vs := VlanList(env);
      for i := 0 to |vs|
        invariant net == DelLinks(net1, VlanNames(env, vs[..i]))
        invariant raw == old(raw) && nat_ == old(nat_)
      {
        net := DelLink(net, VlanName(env, vs[i].0));
        assert VlanNames(env, vs[..i + 1])[..i] == VlanNames(env, vs[..i]);
      }
      assert vs[..|vs|] == vs;
      net := DelLink(net, VrfName(env));
      raw := DeleteRule(raw, "PREROUTING", RawJump(env));
      raw := Flush(raw, RawChain(env));
      raw := DeleteChain(raw, RawChain(env));
      nat_ := DeleteRule(nat_, "POSTROUTING", NatJump(env));
      nat_ := DeleteChain(nat_, NatChain(env));
    }

    /** The part of the script that follows the clean-up. */
    method SetUpVrf(env: Environment)
      modifies this
      ensures net == SetupNet(env, old(net))
      ensures raw == SetupRaw(env, old(raw))
      ensures nat_ == SetupNat(env, old(nat_))
    {
      SetUpVlans(env);
      SetUpTables(env);
      SetUpEndpoints(env);
      if WantsRoute(env) {
        net := AddRoute(net, VrfName(env), IpsecNames(env, EndpointCount(env)));
      }
    }

    method SetUpVlans(env: Environment)
      modifies this`net
      ensures net == SetupVlans(env, SetUp(AddLink(old(net), VrfName(env), "", "vrf", env.vrfId), VrfName(env)), VlanList(env))
    {
      var vrf, vs := VrfName(env), VlanList(env);
      net := AddLink(net, vrf, "", "vrf", env.vrfId);
      net := SetUp(net, vrf);
      ghost var net1 := net;
      for i := 0 to |vs|
        invariant net == SetupVlans(env, net1, vs[..i])
      {
        var name := VlanName(env, vs[i].0);
        net := AddLink(net, name, env.physIf, "vlan", vs[i].0);
        net := SetMaster(net, name, vrf);
        net := SetUp(net, name);
        net := AddAddr(net, name, vs[i].1);
        assert vs[..i + 1][..i] == vs[..i];
      }
      assert vs[..|vs|] == vs;
    }

    method SetUpEndpoints(env: Environment)
      modifies this`net, this`nat_
      ensures net == SetupEndpoints(env, old(net), EndpointCount(env))
      ensures nat_ == SetupMasquerade(env, old(nat_), EndpointCount(env))
    {
      var n, iter := EndpointCount(env), 1;
      while iter <= n
        invariant 1 <= iter <= n + 1
        invariant net == SetupEndpoints(env, old(net), iter - 1)
        invariant nat_ == SetupMasquerade(env, old(nat_), iter - 1)
      {
        var name := IpsecName(env, iter);
        net := AddLink(net, name, "lo", "xfrm", AwkField(env.endpointIds, iter));
        net := SetMaster(net, name, VrfName(env));
        net := SetUp(net, name);
        net := AddAddr(net, name, AddressText(env, iter));
        if AwkField(env.nat_, iter) == "YES" {
          nat_ := Append(nat_, NatChain(env), Rule("-o", name, Masquerade));
        }
        iter := iter + 1;
      }
    }

    method SetUpTables(env: Environment)
      modifies this`raw, this`nat_
      ensures raw == SetupRaw(env, old(raw))
      ensures nat_ == Append(NewChain(old(nat_), NatChain(env)), "POSTROUTING", NatJump(env))
    {
      var vs := VlanList(env);
      raw := NewChain(raw, RawChain(env));
      raw := Append(raw, "PREROUTING", RawJump(env));
      raw := Append(raw, RawChain(env), ZoneRule(env, "ipsec-" + env.vrfId + "+"));
      ghost var raw1 := raw;
      for i := 0 to |vs|
        invariant raw == ZoneRules(env, raw1, vs[..i]) && nat_ == old(nat_)
      {
        raw := Append(raw, RawChain(env), ZoneRule(env, VlanName(env, vs[i].0)));
        assert vs[..i + 1][..i] == vs[..i];
      }
      assert vs[..|vs|] == vs;
      nat_ := NewChain(nat_, NatChain(env));
      nat_ := Append(nat_, "POSTROUTING", NatJump(env));
    }

    /** From the start of the script to the end of its signal handler. */
    method Cycle(env: Environment)
      modifies this
      ensures net == CycleNet(env, old(net)) && raw == CycleRaw(env, old(raw)) && nat_ == CycleNat(env, old(nat_))
    {
      Term(env);
      SetUpVrf(env);
      Term(env);
    }
  }

  function CycleNet(env: Environment, net: Net): Net { TeardownNet(env, SetupNet(env, TeardownNet(env, net))) }

  function CycleRaw(env: Environment, t: Table): Table { TeardownRaw(env, SetupRaw(env, TeardownRaw(env, t))) }

  function CycleNat(env: Environment, t: Table): Table { TeardownNat(env, SetupNat(env, TeardownNat(env, t))) }
}
