/** What ipsec.sh leaves on a clean machine when it has started, told from the VRF: links,
    addresses, routes and rules. */
module StartedScript {
  import opened Text
  import opened Types
  import opened SupervisorEnv
  import opened Kernel
  import opened IpsecScript
  import opened IpsecCycles
  import InterfaceNames

  function VrfIf(vrf: Vrf): string { "vrf-" + Decimal(vrf.id) }

  function VlanIf(vrf: Vrf, v: Vlan): string { vrf.physicalInterface + "." + Decimal(v.vlan) }

  /** The endpoints are numbered from 1, with two digits. */
  function IpsecIf(vrf: Vrf, i: nat): string { "ipsec-" + Decimal(vrf.id) + (if i < 10 then "0" else "") + Decimal(i) }

  lemma NamesAre(vrf: Vrf, env: Environment, i: nat)
    requires DescribesVrf(env, vrf)
    ensures VrfName(env) == VrfIf(vrf) && IpsecName(env, i) == IpsecIf(vrf, i)
    ensures forall j :: 0 <= j < |vrf.vlans| ==> VlanName(env, VlanList(env)[j].0) == VlanIf(vrf, vrf.vlans[j])
  {
    var a, d := "ipsec-" + Decimal(vrf.id), Decimal(i);
    assert a + ("0" + d) == a + "0" + d;
    assert a + "" + d == a + d;
  }

  function VlanLink(env: Environment, v: (string, string)): Link { Link("vlan", v.0, VrfName(env), true, {v.1}) }

  /** The links after the VLAN loop. */
  function VlansAfter(env: Environment, links: map<string, Link>, vs: seq<(string, string)>): map<string, Link> {
    if vs == [] then links
    else VlansAfter(env, links, vs[..|vs| - 1])[VlanName(env, vs[|vs| - 1].0) := VlanLink(env, vs[|vs| - 1])]
  }

  lemma OneVlan(env: Environment, net: Net, v: (string, string))
    requires env.physIf in net.links && VrfName(env) in net.links && VlanName(env, v.0) !in net.links && env.physIf != ""
    ensures SetupVlan(env, net, v).links == net.links[VlanName(env, v.0) := VlanLink(env, v)]
  {
    var name := VlanName(env, v.0);
    var link := Link("vlan", v.0, VrfName(env), true, {});
    var net1 := SetUp(SetMaster(AddLink(net, name, env.physIf, "vlan", v.0), name, VrfName(env)), name);
    assert net1.links == net.links[name := link];
    assert link.(addrs := link.addrs + {v.1}) == VlanLink(env, v);
    assert net1.links[name := VlanLink(env, v)] == net.links[name := VlanLink(env, v)];
  }

  predicate NamesFreeIn(env: Environment, links: map<string, Link>, vs: seq<(string, string)>) {
    && (forall i :: 0 <= i < |vs| ==> VlanName(env, vs[i].0) !in links)
    && (forall i, j :: 0 <= i < j < |vs| ==> vs[i].0 != vs[j].0)
  }

  lemma VlanNameInjective(env: Environment, a: string, b: string)
    requires VlanName(env, a) == VlanName(env, b)
    ensures a == b
  {
    var prefix := env.physIf + ".";
    assert VlanName(env, a)[|prefix|..] == a && VlanName(env, b)[|prefix|..] == b;
  }

  lemma {:induction false} VlansAfterAt(env: Environment, links: map<string, Link>, vs: seq<(string, string)>, name: string)
    ensures name in VlansAfter(env, links, vs) <==> name in links || exists i :: 0 <= i < |vs| && VlanName(env, vs[i].0) == name
    ensures name in links && (forall i :: 0 <= i < |vs| ==> VlanName(env, vs[i].0) != name) ==>
      VlansAfter(env, links, vs)[name] == links[name]
  {
    if vs != [] {
      var front := vs[..|vs| - 1];
      VlansAfterAt(env, links, front, name);
      assert forall i :: 0 <= i < |front| ==> front[i] == vs[i];
    }
  }

  lemma {:induction false} VlansAfterHas(env: Environment, links: map<string, Link>, vs: seq<(string, string)>, i: nat)
    requires i < |vs| && forall i, j :: 0 <= i < j < |vs| ==> vs[i].0 != vs[j].0
    ensures VlanName(env, vs[i].0) in VlansAfter(env, links, vs)
    ensures VlansAfter(env, links, vs)[VlanName(env, vs[i].0)] == VlanLink(env, vs[i])
    decreases |vs|
  {
    var n := |vs| - 1;
    if i < n {
      VlansAfterHas(env, links, vs[..n], i);
      if VlanName(env, vs[i].0) == VlanName(env, vs[n].0) { VlanNameInjective(env, vs[i].0, vs[n].0); }
    }
  }

  /** Each turn of the VLAN loop completes one link and leaves the others. */
  lemma {:induction false} VlanLoop(env: Environment, net: Net, vs: seq<(string, string)>)
    requires env.physIf != "" && env.physIf in net.links && VrfName(env) in net.links && NamesFreeIn(env, net.links, vs)
    ensures SetupVlans(env, net, vs).links == VlansAfter(env, net.links, vs)
    ensures SetupVlans(env, net, vs).routes == net.routes
  {
    if vs != [] {
      var n := |vs| - 1;
      var front, last := vs[..n], vs[n];
      VlanLoop(env, net, front);
      VlansAfterAt(env, net.links, front, VlanName(env, last.0));
      VlansAfterAt(env, net.links, front, env.physIf);
      VlansAfterAt(env, net.links, front, VrfName(env));
      forall i | 0 <= i < n ensures VlanName(env, vs[i].0) != VlanName(env, last.0) {
        if VlanName(env, vs[i].0) == VlanName(env, last.0) { VlanNameInjective(env, vs[i].0, last.0); }
      }
      OneVlan(env, SetupVlans(env, net, front), last);
    }
  }

  lemma {:induction false} LinksAfterKeep(env: Environment, links: map<string, Link>, n: nat, name: string)
    requires forall k :: IpsecName(env, k) != name
    ensures name in LinksAfter(env, links, n) <==> name in links
    ensures name in links ==> LinksAfter(env, links, n)[name] == links[name]
  {
    if n > 0 { LinksAfterKeep(env, links, n - 1, name); }
  }

  lemma OneEndpointRoutes(env: Environment, net: Net, i: nat)
    ensures SetupEndpoint(env, net, i).routes == net.routes
  {
  }

  lemma {:induction false} EndpointRoutes(env: Environment, net: Net, n: nat)
    ensures SetupEndpoints(env, net, n).routes == net.routes
  {
    if n > 0 {
      EndpointRoutes(env, net, n - 1);
      OneEndpointRoutes(env, SetupEndpoints(env, net, n - 1), n);
    }
  }

  predicate DistinctVlans(vrf: Vrf) {
    forall i, j :: 0 <= i < j < |vrf.vlans| ==> vrf.vlans[i].vlan != vrf.vlans[j].vlan
  }

  /** The interface and the loopback link are there, and nothing of this VRF is. */
  ghost predicate Ready(vrf: Vrf, net: Net) {
    && ValidAddresses(vrf) && DistinctVlans(vrf) && Environ(vrf).Some? && CleanNet(Environ(vrf).value, net)
    && vrf.physicalInterface != "" && vrf.physicalInterface in net.links && "lo" in net.links
  }

  /** The links of a machine on which the script has just made the VRF link. */
  function WithVrf(env: Environment, net: Net): map<string, Link> {
    net.links[VrfName(env) := Link("vrf", env.vrfId, "", true, {})]
  }

  lemma VrfLinkFirst(env: Environment, net: Net)
    requires VrfName(env) !in net.links
    ensures SetUp(AddLink(net, VrfName(env), "", "vrf", env.vrfId), VrfName(env)) == net.(links := WithVrf(env, net))
  {
    var name := VrfName(env);
    var net1 := AddLink(net, name, "", "vrf", env.vrfId);
    assert net1.links[name := net1.links[name].(up := true)] == WithVrf(env, net);
  }

  lemma DistinctNames(vrf: Vrf, env: Environment)
    requires DescribesVrf(env, vrf) && DistinctVlans(vrf)
    ensures forall i, j :: 0 <= i < j < |VlanList(env)| ==> VlanList(env)[i].0 != VlanList(env)[j].0
  {
    var vs := VlanList(env);
    forall i, j | 0 <= i < j < |vs| ensures vs[i].0 != vs[j].0 {
      if vs[i].0 == vs[j].0 { InterfaceNames.DecimalValue(vrf.vlans[i].vlan); InterfaceNames.DecimalValue(vrf.vlans[j].vlan); }
    }
  }

  /** All links after the start: three loops one after the other. */
  lemma AllLinks(vrf: Vrf, env: Environment, net: Net)
    requires Ready(vrf, net) && env == Environ(vrf).value
    ensures DescribesVrf(env, vrf) && AllDigits(env.vrfId)
    ensures SetupNet(env, net).links == LinksAfter(env, VlansAfter(env, WithVrf(env, net), VlanList(env)), |vrf.endpoints|)
    ensures SetupNet(env, net).routes == if WantsRoute(env) && vrf.endpoints != [] then
      net.routes + set i | 1 <= i <= |vrf.endpoints| :: (VrfName(env), IpsecName(env, i)) else net.routes
  {
    EnvironmentRoundTrip(vrf);
    DecimalDigits(vrf.id);
    DistinctNames(vrf, env);
    OwnVlanNames(env);
    VrfLinkFirst(env, net);
    var net1, vs, n := net.(links := WithVrf(env, net)), VlanList(env), |vrf.endpoints|;
    forall i | 0 <= i < |vs| ensures VlanName(env, vs[i].0) !in net1.links { VlanNotVrf(env, vs[i].0); }
    VlanLoop(env, net1, vs);
    VlansAfterAt(env, net1.links, vs, VrfName(env));
    VlansAfterAt(env, net1.links, vs, "lo");
    var net2 := SetupVlans(env, net1, vs);
    FreeForEndpoints(env, net, net1, net2, n);
    EndpointLinks(env, net2, n);
    EndpointRoutes(env, net2, n);
    RouteAdded(env, net, SetupEndpoints(env, net2, n), net2, n);
  }

  lemma VlanNotVrf(env: Environment, vlan: string)
    requires AllDigits(env.vrfId)
    ensures VlanName(env, vlan) != VrfName(env)
  {
    assert VlanName(env, vlan)[|env.physIf|] == '.';
    assert forall k :: 0 <= k < |VrfName(env)| ==> VrfName(env)[k] != '.';
  }

  lemma FreeForEndpoints(env: Environment, net: Net, net1: Net, net2: Net, n: nat)
    requires AllDigits(env.vrfId) && CleanNet(env, net) && n == EndpointCount(env)
    requires net1.links == WithVrf(env, net) && net2 == SetupVlans(env, net1, VlanList(env))
    ensures NamesFree(env, net2, n)
  {
    VlanLinks(env, net1, VlanList(env));
    forall k | 1 <= k <= n ensures IpsecName(env, k) !in net1.links {
      NamesApart(env, k, "");
      OwnIpsecName(env, k);
    }
  }

  /** The one route has all the endpoint links as next hops. */
  lemma RouteAdded(env: Environment, net: Net, net3: Net, net2: Net, n: nat)
    requires CleanNet(env, net) && n == EndpointCount(env) && net3.routes == net.routes
    requires VrfName(env) in net2.links && net3.links == LinksAfter(env, net2.links, n) && AllDigits(env.vrfId)
    ensures AddRoute(net3, VrfName(env), IpsecNames(env, n)).routes ==
      if n == 0 then net.routes else net.routes + set i | 1 <= i <= n :: (VrfName(env), IpsecName(env, i))
    ensures AddRoute(net3, VrfName(env), IpsecNames(env, n)).links == net3.links
  {
    var devs := IpsecNames(env, n);
    forall k ensures IpsecName(env, k) != VrfName(env) { NamesApart(env, k, ""); }
    LinksAfterKeep(env, net2.links, n, VrfName(env));
    forall d | d in devs ensures d in net3.links {
      var i :| 0 <= i < n && devs[i] == d;
      LinksHave(env, net2.links, n, i + 1);
    }
    assert !(exists r :: r in net3.routes && r.0 == VrfName(env)) by { assert VrfName(env) in OwnNames(env); }
    var a, b := set d | d in devs :: (VrfName(env), d), set i | 1 <= i <= n :: (VrfName(env), IpsecName(env, i));
    forall r | r in a ensures r in b {
      var i :| 0 <= i < n && devs[i] == r.1;
      assert r == (VrfName(env), IpsecName(env, i + 1));
    }
    forall r | r in b ensures r in a {
      var i :| 1 <= i <= n && r == (VrfName(env), IpsecName(env, i));
      assert devs[i - 1] == r.1;
    }
    assert a == b;
  }

  /** The links of a started VRF, told from its row: its own, one per VLAN with the LAN
      address, one per endpoint with the tunnel addresses, all up and in the VRF. */
  lemma StartedVrf(vrf: Vrf, net: Net)
    requires Ready(vrf, net)
    ensures var links := SetupNet(Environ(vrf).value, net).links;
      && HasLink(links, VrfIf(vrf), Link("vrf", Decimal(vrf.id), "", true, {}))
      && (forall i :: 0 <= i < |vrf.vlans| ==>
            HasLink(links, VlanIf(vrf, vrf.vlans[i]),
              Link("vlan", Decimal(vrf.vlans[i].vlan), VrfIf(vrf), true, {vrf.vlans[i].lanIp})))
      && (forall i :: 1 <= i <= |vrf.endpoints| ==>
            HasLink(links, IpsecIf(vrf, i),
              Link("xfrm", Decimal(vrf.endpoints[i - 1].id), VrfIf(vrf), true, {TunnelAddress(vrf, vrf.endpoints[i - 1])})))
  {
    var env := Environ(vrf).value;
    AllLinks(vrf, env, net);
    NamesAre(vrf, env, 0);
    DistinctNames(vrf, env);
    var vs, n := VlanList(env), |vrf.endpoints|;
    var links1 := VlansAfter(env, WithVrf(env, net), vs);
    forall k ensures IpsecName(env, k) != VrfName(env) { NamesApart(env, k, ""); }
    forall i | 0 <= i < |vs| ensures VlanName(env, vs[i].0) != VrfName(env) { VlanNotVrf(env, vs[i].0); }
    VlansAfterAt(env, WithVrf(env, net), vs, VrfName(env));
    LinksAfterKeep(env, links1, n, VrfName(env));
    forall i | 0 <= i < |vrf.vlans|
      ensures HasLink(LinksAfter(env, links1, n), VlanIf(vrf, vrf.vlans[i]), VlanLink(env, vs[i]))
    {
      forall k ensures IpsecName(env, k) != VlanName(env, vs[i].0) { NamesApart(env, k, vs[i].0); }
      VlansAfterHas(env, WithVrf(env, net), vs, i);
      LinksAfterKeep(env, links1, n, VlanName(env, vs[i].0));
    }
    forall i | 1 <= i <= n
      ensures HasLink(LinksAfter(env, links1, n), IpsecIf(vrf, i),
        Link("xfrm", Decimal(vrf.endpoints[i - 1].id), VrfIf(vrf), true, {TunnelAddress(vrf, vrf.endpoints[i - 1])}))
    {
      NamesAre(vrf, env, i);
      LinksHave(env, links1, n, i);
      AddressTexts(vrf, env, i);
    }
  }

  predicate HasLink(links: map<string, Link>, name: string, link: Link) { name in links && links[name] == link }

  function TunnelAddress(vrf: Vrf, e: Endpoint): string {
    if vrf.disablePeerIps == Some(true) || e.peerIp == "" then e.localIp + "/32" else e.localIp + " peer " + e.peerIp
  }

  /** A default route over all endpoint links when peer addresses are disabled or the last
      endpoint has none; no other route is touched. */
  lemma StartedRoutes(vrf: Vrf, net: Net)
    requires Ready(vrf, net)
    ensures var es, routes := vrf.endpoints, SetupNet(Environ(vrf).value, net).routes;
      routes == if es != [] && (vrf.disablePeerIps == Some(true) || es[|es| - 1].peerIp == "")
        then net.routes + set i | 1 <= i <= |es| :: (VrfIf(vrf), IpsecIf(vrf, i)) else net.routes
  {
    var env, es := Environ(vrf).value, vrf.endpoints;
    AllLinks(vrf, env, net);
    forall i ensures VrfName(env) == VrfIf(vrf) && IpsecName(env, i) == IpsecIf(vrf, i) { NamesAre(vrf, env, i); }
    assert (set i | 1 <= i <= |es| :: (VrfName(env), IpsecName(env, i))) == set i | 1 <= i <= |es| :: (VrfIf(vrf), IpsecIf(vrf, i));
    if es != [] { WantedRoute(vrf, env); }
  }

  lemma WantedRoute(vrf: Vrf, env: Environment)
    requires ValidAddresses(vrf) && DescribesVrf(env, vrf) && vrf.endpoints != []
    ensures WantsRoute(env) <==> vrf.disablePeerIps == Some(true) || vrf.endpoints[|vrf.endpoints| - 1].peerIp == ""
  {
    var last := vrf.endpoints[|vrf.endpoints| - 1];
    if last.peerIp != "" {
      assert IsAddress(last.peerIp);
      assert "empty"[1] == 'm' && !IsAddressChar('m');
    }
    assert "true"[0] == 't' && "false"[0] == 'f' && "<nil>"[0] == '<';
  }

  /** The raw table of a started VRF: one zone rule for the endpoint links together, then
      one for each VLAN, in a chain that the base chain jumps to. */
  lemma StartedZones(vrf: Vrf, t: Table) returns (rules: seq<Rule>)
    requires ValidAddresses(vrf) && Environ(vrf).Some? && CleanTable(t, "VRF" + Decimal(vrf.id) + "-raw")
    ensures var chain := "VRF" + Decimal(vrf.id) + "-raw";
      Jumped(t, SetupRaw(Environ(vrf).value, t), "PREROUTING", chain, rules)
    ensures |rules| == 1 + |vrf.vlans|
    ensures rules[0] == Rule("-i", "ipsec-" + Decimal(vrf.id) + "+", Zone(Decimal(vrf.id)))
    ensures forall i :: 0 <= i < |vrf.vlans| ==> rules[1 + i] == Rule("-i", VlanIf(vrf, vrf.vlans[i]), Zone(Decimal(vrf.id)))
  {
    var env := Environ(vrf).value;
    EnvironmentRoundTrip(vrf);
    ChainNames(env);
    NamesAre(vrf, env, 0);
    rules := SetupRawHooks(env, t);
    HookedJumped(t, "PREROUTING", RawChain(env), rules);
  }

  /** The chain holds these rules, the base chain ends in a jump to it, and no other chain
      has changed. */
  ghost predicate Jumped(t: Table, t': Table, base: string, chain: string, rules: seq<Rule>) {
    && t'.Keys == t.Keys + {chain} && t'[chain] == rules
    && (base in t ==> t'[base] == t[base] + [Rule("", "", Jump(chain))])
    && forall c :: c in t && c != base && c != chain ==> t'[c] == t[c]
  }

  /** The nat table: one masquerading rule for each endpoint that asks for it, in the
      order of the endpoints. */
  lemma StartedNat(vrf: Vrf, t: Table) returns (asking: seq<nat>, rules: seq<Rule>)
    requires ValidAddresses(vrf) && Environ(vrf).Some? && CleanTable(t, "VRF" + Decimal(vrf.id) + "-nat")
    ensures Jumped(t, SetupNat(Environ(vrf).value, t), "POSTROUTING", "VRF" + Decimal(vrf.id) + "-nat", rules)
    ensures |rules| == |asking| && forall j :: 0 <= j < |rules| ==> rules[j] == Rule("-o", IpsecIf(vrf, asking[j]), Masquerade)
    ensures Increasing(asking) && forall i :: i in asking <==> 1 <= i <= |vrf.endpoints| && vrf.endpoints[i - 1].nat_
  {
    var env := Environ(vrf).value;
    NatHooked(vrf, env, t);
    forall i | 1 <= i <= |vrf.endpoints| ensures AsksAs(env, vrf, i) { NatAsked(vrf, env, i); }
    asking := AskingFor(vrf, env, |vrf.endpoints|);
    rules := NatRules(env, |vrf.endpoints|);
  }

  lemma HookedJumped(t: Table, base: string, chain: string, rules: seq<Rule>)
    requires CleanTable(t, chain) && base != chain
    ensures Jumped(t, Hooked(t, base, chain, rules), base, chain, rules)
  {
  }

  lemma SetupNatHooks(env: Environment, t: Table)
    requires CleanTable(t, NatChain(env))
    ensures SetupNat(env, t) == Hooked(t, "POSTROUTING", NatChain(env), NatRules(env, EndpointCount(env)))
  {
    var rules := NatRules(env, EndpointCount(env));
    ChainNames(env);
    HookChain(t, "POSTROUTING", NatChain(env), []);
    MasqueradeHooked(env, t, [], EndpointCount(env));
    assert [] + rules == rules;
  }

  lemma NatHooked(vrf: Vrf, env: Environment, t: Table)
    requires ValidAddresses(vrf) && Environ(vrf) == Some(env) && CleanTable(t, NatChain(env))
    ensures DescribesVrf(env, vrf) && NatChain(env) == "VRF" + Decimal(vrf.id) + "-nat"
    ensures Jumped(t, SetupNat(env, t), "POSTROUTING", NatChain(env), NatRules(env, |vrf.endpoints|))
  {
    EnvironmentRoundTrip(vrf);
    ChainNames(env);
    SetupNatHooks(env, t);
    HookedJumped(t, "POSTROUTING", NatChain(env), NatRules(env, |vrf.endpoints|));
  }

  predicate Increasing(s: seq<nat>) { forall i, j :: 0 <= i < j < |s| ==> s[i] < s[j] }

  predicate Asks(vrf: Vrf, i: int) { 1 <= i <= |vrf.endpoints| && vrf.endpoints[i - 1].nat_ }

  /** The script gives endpoint i a rule when the row asks for it, under the name it has here. */
  predicate AsksAs(env: Environment, vrf: Vrf, i: nat) {
    (AwkField(env.nat_, i) == "YES" <==> Asks(vrf, i)) && IpsecName(env, i) == IpsecIf(vrf, i)
  }

  lemma NatAsked(vrf: Vrf, env: Environment, i: nat)
    requires DescribesVrf(env, vrf) && 1 <= i <= |vrf.endpoints|
    ensures AsksAs(env, vrf, i)
  {
    NamesAre(vrf, env, i);
    assert "YES"[0] != "NO"[0];
  }

  /** The increasing list of those among the first n that ask. */
  ghost predicate Lists(asking: seq<nat>, vrf: Vrf, n: nat) {
    Increasing(asking) && forall i :: i in asking <==> i <= n && Asks(vrf, i)
  }

  lemma ListsNext(asking: seq<nat>, vrf: Vrf, n: nat)
    requires n > 0 && Lists(asking, vrf, n - 1)
    ensures Lists(if Asks(vrf, n) then asking + [n] else asking, vrf, n)
  {
    assert forall j :: 0 <= j < |asking| ==> asking[j] in asking;
  }

  ghost predicate RuleEach(rules: seq<Rule>, vrf: Vrf, asking: seq<nat>) {
    |rules| == |asking| && forall j :: 0 <= j < |rules| ==> rules[j] == Rule("-o", IpsecIf(vrf, asking[j]), Masquerade)
  }

  lemma {:induction false} AskingFor(vrf: Vrf, env: Environment, n: nat) returns (asking: seq<nat>)
    requires forall i :: 1 <= i <= n ==> AsksAs(env, vrf, i)
    ensures RuleEach(NatRules(env, n), vrf, asking) && Lists(asking, vrf, n)
  {
    asking := [];
    if n > 0 {
      asking := AskingFor(vrf, env, n - 1);
      ListsNext(asking, vrf, n);
      assert AsksAs(env, vrf, n);
      if Asks(vrf, n) {
        asking := asking + [n];
        assert NatRules(env, n) == NatRules(env, n - 1) + [Rule("-o", IpsecIf(vrf, n), Masquerade)];
      }
    }
  }
}
