/** What start/stop cycles of ipsec.sh leave behind on the machine. */
module IpsecCycles {
  import opened Text
  import opened Types
  import opened SupervisorEnv
  import opened Kernel
  import opened IpsecScript
  import InterfaceNames

  datatype State = State(net: Net, raw: Table, nat_: Table)

  function Cycle(env: Environment): State -> State {
    (s: State) => State(CycleNet(env, s.net), CycleRaw(env, s.raw), CycleNat(env, s.nat_))
  }

  function Iterate(f: State -> State, s: State, n: nat): State {
    if n == 0 then s else f(Iterate(f, s, n - 1))
  }

  /** n runs of the script, each stopped before the next one starts. */
  function Cycles(env: Environment, s: State, n: nat): State { Iterate(Cycle(env), s, n) }

  /** The state with this in a nat chain. */
  function WithNat(s: State, chain: string, rules: seq<Rule>): State {
    s.(nat_ := WithChain(s.nat_, chain, rules))
  }

  /** The names of the links that the script creates. */
  function OwnNames(env: Environment): set<string> {
    {VrfName(env)}
    + (set n | n in IpsecNames(env, EndpointCount(env)))
    + (set n | n in VlanNames(env, VlanList(env)))
  }

  /** Nothing of this VRF is on the machine. */
  ghost predicate CleanNet(env: Environment, net: Net) {
    && net.links.Keys !! OwnNames(env)
    && (forall n :: n in net.links ==> net.links[n].master !in OwnNames(env))
    && (forall r :: r in net.routes ==> r.0 !in OwnNames(env) && r.1 !in OwnNames(env))
  }

  ghost predicate CleanTable(t: Table, chain: string) {
    chain !in t && !Referenced(t, chain)
  }

  ghost predicate Clean(env: Environment, s: State) {
    CleanNet(env, s.net) && CleanTable(s.raw, RawChain(env)) && CleanTable(s.nat_, NatChain(env))
  }

  /** `net` is `net0` and, around it, links and routes of this VRF only. */
  ghost predicate Around(env: Environment, net0: Net, net: Net) {
    && (forall n :: n in net0.links ==> n in net.links && net.links[n] == net0.links[n])
    && net.links.Keys <= net0.links.Keys + OwnNames(env)
    && net0.routes <= net.routes
    && (forall r :: r in net.routes ==> r in net0.routes || r.0 == VrfName(env))
    && (VrfName(env) !in net.links ==> net.routes == net0.routes)
  }

  lemma SetupVlanAround(env: Environment, net0: Net, net: Net, v: (string, string))
    requires CleanNet(env, net0) && Around(env, net0, net) && VlanName(env, v.0) in OwnNames(env)
    ensures Around(env, net0, SetupVlan(env, net, v))
  {
  }

  lemma {:induction false} SetupVlansAround(env: Environment, net0: Net, net: Net, vs: seq<(string, string)>)
    requires CleanNet(env, net0) && Around(env, net0, net)
    requires forall i :: 0 <= i < |vs| ==> VlanName(env, vs[i].0) in OwnNames(env)
    ensures Around(env, net0, SetupVlans(env, net, vs))
  {
    if vs != [] {
      SetupVlansAround(env, net0, net, vs[..|vs| - 1]);
      SetupVlanAround(env, net0, SetupVlans(env, net, vs[..|vs| - 1]), vs[|vs| - 1]);
    }
  }

  lemma SetupEndpointAround(env: Environment, net0: Net, net: Net, next: Net, i: nat)
    requires CleanNet(env, net0) && Around(env, net0, net) && IpsecName(env, i) in OwnNames(env)
    requires next == SetupEndpoint(env, net, i)
    ensures Around(env, net0, next)
  {
  }

  lemma OwnIpsecName(env: Environment, i: nat)
    requires 1 <= i <= EndpointCount(env)
    ensures IpsecName(env, i) in OwnNames(env)
  {
    assert IpsecNames(env, EndpointCount(env))[i - 1] == IpsecName(env, i);
  }

  lemma {:induction false} SetupEndpointsAround(env: Environment, net0: Net, net: Net, n: nat, next: Net)
    requires CleanNet(env, net0) && Around(env, net0, net) && n <= EndpointCount(env)
    requires next == SetupEndpoints(env, net, n)
    ensures Around(env, net0, next)
  {
    if n > 0 {
      var last := SetupEndpoints(env, net, n - 1);
      SetupEndpointsAround(env, net0, net, n - 1, last);
      OwnIpsecName(env, n);
      SetupEndpointAround(env, net0, last, next, n);
    }
  }

  lemma OwnVlanNames(env: Environment)
    ensures forall i :: 0 <= i < |VlanList(env)| ==> VlanName(env, VlanList(env)[i].0) in OwnNames(env)
  {
    var names := VlanNames(env, VlanList(env));
    forall i | 0 <= i < |names| ensures names[i] in OwnNames(env) {}
  }

  lemma SetupNetAround(env: Environment, net0: Net)
    requires CleanNet(env, net0)
    ensures Around(env, net0, SetupNet(env, net0))
  {
    var net1 := SetUp(AddLink(net0, VrfName(env), "", "vrf", env.vrfId), VrfName(env));
    OwnVlanNames(env);
    SetupVlansAround(env, net0, net1, VlanList(env));
    var net2 := SetupVlans(env, net1, VlanList(env));
    SetupEndpointsAround(env, net0, net2, EndpointCount(env), SetupEndpoints(env, net2, EndpointCount(env)));
  }

  lemma DelLinkAround(env: Environment, net0: Net, net: Net, name: string)
    requires CleanNet(env, net0) && Around(env, net0, net) && name in OwnNames(env)
    ensures Around(env, net0, DelLink(net, name))
    ensures DelLink(net, name).links.Keys == net.links.Keys - {name}
  {
  }

  lemma {:induction false} DelLinksAround(env: Environment, net0: Net, net: Net, names: seq<string>)
    requires CleanNet(env, net0) && Around(env, net0, net)
    requires forall i :: 0 <= i < |names| ==> names[i] in OwnNames(env)
    ensures Around(env, net0, DelLinks(net, names))
  {
    if names != [] {
      DelLinksAround(env, net0, net, names[..|names| - 1]);
      DelLinkAround(env, net0, DelLinks(net, names[..|names| - 1]), names[|names| - 1]);
    }
  }

  lemma DelLinkKeys(net: Net, name: string)
    ensures DelLink(net, name).links.Keys == net.links.Keys - {name}
  {
  }

  lemma {:induction false} DelLinksKeys(net: Net, names: seq<string>)
    ensures DelLinks(net, names).links.Keys == net.links.Keys - set n | n in names
  {
    if names != [] {
      var front, name := names[..|names| - 1], names[|names| - 1];
      DelLinksKeys(net, front);
      DelLinkKeys(DelLinks(net, front), name);
      assert (set n | n in names) == (set n | n in front) + {name};
    } else {
      assert net.links.Keys == net.links.Keys - {};
    }
  }

  /** The handler removes whatever the script may have added, and nothing else. */
  lemma TeardownNetRestores(env: Environment, net0: Net, net: Net)
    requires CleanNet(env, net0) && Around(env, net0, net)
    ensures TeardownNet(env, net) == net0
  {
    var ipsec, vlans := IpsecNames(env, EndpointCount(env)), VlanNames(env, VlanList(env));
    DelLinksAround(env, net0, net, ipsec);
    DelLinksKeys(net, ipsec);
    var net1 := DelLinks(net, ipsec);
    DelLinksAround(env, net0, net1, vlans);
    DelLinksKeys(net1, vlans);
    var net2 := DelLinks(net1, vlans);
    DelLinkAround(env, net0, net2, VrfName(env));
    DelLinkKeys(net2, VrfName(env));
    NothingOwnLeft(env, net0, DelLink(net2, VrfName(env)));
  }

  /** Around the old state and without links of this VRF: the old state. */
  lemma NothingOwnLeft(env: Environment, net0: Net, net: Net)
    requires CleanNet(env, net0) && Around(env, net0, net) && net.links.Keys !! OwnNames(env)
    requires forall r :: r in net.routes ==> r.0 != VrfName(env)
    ensures net == net0
  {
    assert net.links.Keys == net0.links.Keys;
    assert net.links == net0.links;
    assert net.routes == net0.routes;
  }

  /** One run of the script does not change links or routes of the machine. */
  lemma CycleNetRestores(env: Environment, net: Net)
    requires CleanNet(env, net)
    ensures CycleNet(env, net) == net
  {
    TeardownNetRestores(env, net, net);
    SetupNetAround(env, net);
    TeardownNetRestores(env, net, SetupNet(env, net));
  }

  /** `t` with this chain's rules in it, as a stopped script may have left it. */
  function WithChain(t: Table, chain: string, rules: seq<Rule>): Table {
    if rules == [] then t else t[chain := rules]
  }

  lemma ChainNames(env: Environment)
    ensures RawChain(env) != "PREROUTING" && NatChain(env) != "POSTROUTING"
  {
    assert RawChain(env)[0] == 'V' && NatChain(env)[0] == 'V';
  }

  /** Without the jump there is nothing to take out of the base chain. */
  lemma DeleteAbsentJump(t: Table, base: string, chain: string)
    requires !Referenced(t, chain)
    ensures DeleteRule(t, base, Rule("", "", Jump(chain))) == t
  {
    var jump := Rule("", "", Jump(chain));
    if base in t {
      assert jump !in t[base];
      RemoveAbsent(t[base], jump);
      assert t[base := t[base]] == t;
    }
  }

  /** `t` with the chain and, where there is a base chain, the jump to it. */
  function Hooked(t: Table, base: string, chain: string, rules: seq<Rule>): Table {
    var t1: Table := t[chain := rules];
    if base in t then t1[base := t[base] + [Rule("", "", Jump(chain))]] else t1
  }

  predicate NoJumps(rules: seq<Rule>) {
    forall i :: 0 <= i < |rules| ==> !rules[i].target.Jump?
  }

  lemma UnhookJump(t: Table, base: string, chain: string, rules: seq<Rule>)
    requires CleanTable(t, chain) && base != chain
    ensures DeleteRule(Hooked(t, base, chain, rules), base, Rule("", "", Jump(chain))) == t[chain := rules]
  {
    var jump := Rule("", "", Jump(chain));
    if base in t {
      assert jump !in t[base];
      RemoveAppended(t[base], jump);
      assert t[chain := rules][base := t[base]] == t[chain := rules];
    }
  }

  lemma StillUnreferenced(t: Table, chain: string, rules: seq<Rule>)
    requires CleanTable(t, chain) && NoJumps(rules)
    ensures !Referenced(t[chain := rules], chain)
  {
    var t1: Table := t[chain := rules];
    forall c, i | c in t1 && 0 <= i < |t1[c]| ensures t1[c][i].target != Jump(chain) {
      if c != chain { assert t1[c] == t[c]; }
    }
  }

  lemma DeleteEmptyChain(t: Table, chain: string)
    requires CleanTable(t, chain)
    ensures DeleteChain(t[chain := []], chain) == t
  {
    StillUnreferenced(t, chain, []);
    assert t[chain := []] - {chain} == t;
  }

  lemma HookChain(t: Table, base: string, chain: string, rules: seq<Rule>)
    requires CleanTable(t, chain) && base != chain
    ensures Append(NewChain(WithChain(t, chain, rules), chain), base, Rule("", "", Jump(chain))) == Hooked(t, base, chain, rules)
  {
    assert NewChain(WithChain(t, chain, rules), chain) == t[chain := rules];
    if base !in t { assert base !in t[chain := rules]; }
  }

  lemma AppendHooked(t: Table, base: string, chain: string, rules: seq<Rule>, rule: Rule)
    requires CleanTable(t, chain) && base != chain && !rule.target.Jump?
    ensures Append(Hooked(t, base, chain, rules), chain, rule) == Hooked(t, base, chain, rules + [rule])
  {
    var h := Hooked(t, base, chain, rules);
    assert h[chain] == rules;
    assert h[chain := rules + [rule]] == Hooked(t, base, chain, rules + [rule]);
  }

  /** The zone rules go into the VRF's own chain. */
  lemma {:induction false} ZoneRulesHooked(env: Environment, t: Table, rules: seq<Rule>, vs: seq<(string, string)>)
    returns (rules': seq<Rule>)
    requires CleanTable(t, RawChain(env))
    ensures ZoneRules(env, Hooked(t, "PREROUTING", RawChain(env), rules), vs) == Hooked(t, "PREROUTING", RawChain(env), rules')
    ensures |rules'| == |rules| + |vs| && rules <= rules'
    ensures forall i :: 0 <= i < |vs| ==> rules'[|rules| + i] == ZoneRule(env, VlanName(env, vs[i].0))
  {
    ChainNames(env);
    if vs == [] {
      rules' := rules;
    } else {
      var front := ZoneRulesHooked(env, t, rules, vs[..|vs| - 1]);
      var rule := ZoneRule(env, VlanName(env, vs[|vs| - 1].0));
      AppendHooked(t, "PREROUTING", RawChain(env), front, rule);
      rules' := front + [rule];
    }
  }

  /** The raw chain of a started script: one zone rule for all ipsec links, and one per
      VLAN. */
  lemma SetupRawHooks(env: Environment, t: Table) returns (rules: seq<Rule>)
    requires CleanTable(t, RawChain(env))
    ensures SetupRaw(env, t) == Hooked(t, "PREROUTING", RawChain(env), rules)
    ensures |rules| == 1 + |VlanList(env)| && rules[0] == ZoneRule(env, "ipsec-" + env.vrfId + "+")
    ensures forall i :: 0 <= i < |VlanList(env)| ==> rules[1 + i] == ZoneRule(env, VlanName(env, VlanList(env)[i].0))
  {
    var chain, zone := RawChain(env), ZoneRule(env, "ipsec-" + env.vrfId + "+");
    ChainNames(env);
    HookChain(t, "PREROUTING", chain, []);
    AppendHooked(t, "PREROUTING", chain, [], zone);
    rules := ZoneRulesHooked(env, t, [] + [zone], VlanList(env));
  }

  /** The raw table is flushed, so a cycle leaves it alone. */
  lemma CycleRawRestores(env: Environment, t: Table)
    requires CleanTable(t, RawChain(env))
    ensures CycleRaw(env, t) == t
  {
    var chain := RawChain(env);
    ChainNames(env);
    DeleteAbsentJump(t, "PREROUTING", chain);
    assert TeardownRaw(env, t) == t;
    var rules := SetupRawHooks(env, t);
    UnhookJump(t, "PREROUTING", chain, rules);
    assert t[chain := rules][chain := []] == t[chain := []];
    DeleteEmptyChain(t, chain);
  }

  lemma NatRulesNoJumps(env: Environment, n: nat)
    ensures NoJumps(NatRules(env, n))
  {
  }

  lemma {:induction false} MasqueradeHooked(env: Environment, t: Table, rules: seq<Rule>, n: nat)
    requires CleanTable(t, NatChain(env))
    ensures SetupMasquerade(env, Hooked(t, "POSTROUTING", NatChain(env), rules), n) ==
      Hooked(t, "POSTROUTING", NatChain(env), rules + NatRules(env, n))
  {
    ChainNames(env);
    if n == 0 {
      assert rules + [] == rules;
    } else {
      MasqueradeHooked(env, t, rules, n - 1);
      var rule := Rule("-o", IpsecName(env, n), Masquerade);
      AppendHooked(t, "POSTROUTING", NatChain(env), rules + NatRules(env, n - 1), rule);
      assert rules + (NatRules(env, n - 1) + [rule]) == rules + NatRules(env, n - 1) + [rule];
    }
  }

  lemma TeardownNatWith(env: Environment, t: Table, rules: seq<Rule>)
    requires CleanTable(t, NatChain(env)) && NoJumps(rules)
    ensures TeardownNat(env, WithChain(t, NatChain(env), rules)) == WithChain(t, NatChain(env), rules)
    ensures TeardownNat(env, Hooked(t, "POSTROUTING", NatChain(env), rules)) == WithChain(t, NatChain(env), rules)
  {
    var chain := NatChain(env);
    ChainNames(env);
    StillUnreferenced(t, chain, rules);
    DeleteAbsentJump(WithChain(t, chain, rules), "POSTROUTING", chain);
    UnhookJump(t, "POSTROUTING", chain, rules);
    if rules == [] {
      DeleteEmptyChain(t, chain);
    }
  }

  /** The nat chain is not flushed and cannot be deleted once it holds a rule: every
      cycle adds its rules to those of the cycles before. */
  lemma CycleNatAdds(env: Environment, t: Table, rules: seq<Rule>)
    requires CleanTable(t, NatChain(env)) && NoJumps(rules)
    ensures CycleNat(env, WithChain(t, NatChain(env), rules)) ==
      WithChain(t, NatChain(env), rules + NatRules(env, EndpointCount(env)))
  {
    var n := EndpointCount(env);
    ChainNames(env);
    NatRulesNoJumps(env, n);
    TeardownNatWith(env, t, rules);
    HookChain(t, "POSTROUTING", NatChain(env), rules);
    MasqueradeHooked(env, t, rules, n);
    TeardownNatWith(env, t, rules + NatRules(env, n));
  }

  function Repeat(rules: seq<Rule>, n: nat): seq<Rule> {
    if n == 0 then [] else Repeat(rules, n - 1) + rules
  }

  lemma {:induction false} RepeatLength(rules: seq<Rule>, n: nat)
    ensures |Repeat(rules, n)| == n * |rules|
    ensures Repeat(rules, n) == [] <==> n == 0 || rules == []
  {
    if n > 0 {
      RepeatLength(rules, n - 1);
      assert n * |rules| == (n - 1) * |rules| + |rules|;
    }
  }

  lemma {:induction false} RepeatNoJumps(rules: seq<Rule>, n: nat)
    requires NoJumps(rules)
    ensures NoJumps(Repeat(rules, n))
  {
    if n > 0 { RepeatNoJumps(rules, n - 1); }
  }

  /** These rules are added to the chain, whatever it holds, and nothing else changes. */
  ghost predicate Adds(f: State -> State, s: State, chain: string, added: seq<Rule>) {
    forall rules {:trigger f(WithNat(s, chain, rules))} ::
      NoJumps(rules) ==> f(WithNat(s, chain, rules)) == WithNat(s, chain, rules + added)
  }

  lemma {:induction false} IterateAdds(f: State -> State, s: State, chain: string, added: seq<Rule>, n: nat)
    requires Adds(f, s, chain, added) && NoJumps(added)
    ensures Iterate(f, s, n) == WithNat(s, chain, Repeat(added, n))
  {
    if n > 0 {
      IterateAdds(f, s, chain, added, n - 1);
      RepeatNoJumps(added, n - 1);
      assert f(WithNat(s, chain, Repeat(added, n - 1))) == WithNat(s, chain, Repeat(added, n - 1) + added);
    }
  }

  /** After n cycles on a clean machine everything is as before, except for the nat
      chain: detached, with n copies of the masquerading rules, and gone if there
      are none. */
  lemma CyclesLeave(env: Environment, s: State, n: nat)
    requires Clean(env, s)
    ensures Cycles(env, s, n) == WithNat(s, NatChain(env), Repeat(NatRules(env, EndpointCount(env)), n))
  {
    var added := NatRules(env, EndpointCount(env));
    NatRulesNoJumps(env, EndpointCount(env));
    CycleAdds(env, s);
    IterateAdds(Cycle(env), s, NatChain(env), added, n);
  }

  lemma CycleAdds(env: Environment, s: State)
    requires Clean(env, s)
    ensures Adds(Cycle(env), s, NatChain(env), NatRules(env, EndpointCount(env)))
  {
    forall rules | NoJumps(rules)
      ensures Cycle(env)(WithNat(s, NatChain(env), rules)) == WithNat(s, NatChain(env), rules + NatRules(env, EndpointCount(env)))
    {
      CycleNetRestores(env, s.net);
      CycleRawRestores(env, s.raw);
      CycleNatAdds(env, s.nat_, rules);
    }
  }

  function NatCount(es: seq<Endpoint>): nat {
    if es == [] then 0 else NatCount(es[..|es| - 1]) + if es[|es| - 1].nat_ then 1 else 0
  }

  lemma {:induction false} NatRulesCount(es: seq<Endpoint>, env: Environment, n: nat)
    requires n <= |es| && forall k :: 1 <= k <= n ==> AwkField(env.nat_, k) == NatWord(es[k - 1])
    ensures |NatRules(env, n)| == NatCount(es[..n])
  {
    if n > 0 {
      NatRulesCount(es, env, n - 1);
      assert es[..n][..n - 1] == es[..n - 1] && es[..n][n - 1] == es[n - 1];
      assert AwkField(env.nat_, n) == NatWord(es[n - 1]);
      assert "YES"[0] != "NO"[0];
    }
  }

  /** What a left-over chain looks like. */
  lemma LeftOverChain(t: Table, chain: string, rules: seq<Rule>)
    requires CleanTable(t, chain) && NoJumps(rules) && rules != []
    ensures var t1 := WithChain(t, chain, rules);
      t1.Keys == t.Keys + {chain} && t1[chain] == rules && !Referenced(t1, chain) && t1 - {chain} == t
  {
    StillUnreferenced(t, chain, rules);
    assert t[chain := rules] - {chain} == t;
  }

  /** For a VRF with k NAT endpoints n start/stop cycles are undone completely when k is
      0, and leave one detached chain of n * k masquerading rules otherwise. */
  lemma VrfCyclesLeave(vrf: Vrf, s: State, n: nat)
    requires ValidAddresses(vrf) && Environ(vrf).Some? && Clean(Environ(vrf).value, s)
    ensures var env, k, t := Environ(vrf).value, NatCount(vrf.endpoints), Cycles(Environ(vrf).value, s, n);
      && t.net == s.net && t.raw == s.raw
      && (n == 0 || k == 0 ==> t == s)
      && (n > 0 && k > 0 ==>
            && t.nat_.Keys == s.nat_.Keys + {NatChain(env)} && !Referenced(t.nat_, NatChain(env))
            && |t.nat_[NatChain(env)]| == n * k
            && (forall r :: r in t.nat_[NatChain(env)] ==> r.target == Masquerade)
            && t.nat_ - {NatChain(env)} == s.nat_)
  {
    var env, es := Environ(vrf).value, vrf.endpoints;
    var rules := NatRules(env, EndpointCount(env));
    NatRulesOf(vrf);
    CyclesLeave(env, s, n);
    NatRulesNoJumps(env, |es|);
    AllMasquerade(env, |es|, n);
    RepeatLength(rules, n);
    RepeatNoJumps(rules, n);
    if n > 0 && NatCount(es) > 0 { LeftOverChain(s.nat_, NatChain(env), Repeat(rules, n)); }
  }

  lemma NatRulesOf(vrf: Vrf)
    requires ValidAddresses(vrf) && Environ(vrf).Some?
    ensures var env := Environ(vrf).value;
      EndpointCount(env) == |vrf.endpoints| && |NatRules(env, EndpointCount(env))| == NatCount(vrf.endpoints)
  {
    EnvironmentRoundTrip(vrf);
    NatRulesCount(vrf.endpoints, Environ(vrf).value, |vrf.endpoints|);
    assert vrf.endpoints[..|vrf.endpoints|] == vrf.endpoints;
  }

  lemma {:induction false} AllMasquerade(env: Environment, m: nat, n: nat)
    ensures forall r :: r in Repeat(NatRules(env, m), n) ==> r.target == Masquerade
  {
    MasqueradeRules(env, m);
    if n > 0 { AllMasquerade(env, m, n - 1); }
  }

  lemma MasqueradeRules(env: Environment, m: nat)
    ensures forall r :: r in NatRules(env, m) ==> r.target == Masquerade
  {
  }

  function AddressOf(vrf: Vrf, e: Endpoint): string {
    if vrf.disablePeerIps == Some(true) || e.peerIp == "" then e.localIp + "/32" else e.localIp + " peer " + e.peerIp
  }

  /** A started script has an up link for every endpoint, with the endpoint's id and
      addresses, inside the VRF. */
  lemma StartedLinks(vrf: Vrf, net: Net, i: nat)
    requires ValidAddresses(vrf) && Environ(vrf).Some? && CleanNet(Environ(vrf).value, net) && "lo" in net.links
    requires 1 <= i <= |vrf.endpoints|
    ensures var env, e := Environ(vrf).value, vrf.endpoints[i - 1];
      var links := SetupNet(env, net).links;
      && IpsecName(env, i) in links
      && links[IpsecName(env, i)] == Link("xfrm", Decimal(e.id), VrfName(env), true, {AddressOf(vrf, e)})
  {
    var env, e := Environ(vrf).value, vrf.endpoints[i - 1];
    DecimalDigits(vrf.id);
    EnvironmentRoundTrip(vrf);
    EnvLinks(env, net, i);
    AddressTexts(vrf, env, i);
  }

  lemma AddressTexts(vrf: Vrf, env: Environment, i: nat)
    requires ValidAddresses(vrf) && 1 <= i <= |vrf.endpoints| && env.disablePeerIps == PrintFlag(vrf.disablePeerIps)
    requires AwkField(env.xfrmIp, i) == vrf.endpoints[i - 1].localIp
    requires AwkField(env.xfrmPeer, i) == PeerWord(vrf.endpoints[i - 1])
    ensures AddressText(env, i) == AddressOf(vrf, vrf.endpoints[i - 1])
  {
    var e := vrf.endpoints[i - 1];
    if e.peerIp != "" {
      assert IsAddress(e.peerIp);
      assert "empty"[1] == 'm' && !IsAddressChar('m');
    }
    assert "true"[0] == 't' && "false"[0] == 'f' && "<nil>"[0] == '<';
  }

  lemma EnvLinks(env: Environment, net: Net, i: nat)
    requires AllDigits(env.vrfId) && CleanNet(env, net) && "lo" in net.links && 1 <= i <= EndpointCount(env)
    ensures var links := SetupNet(env, net).links;
      IpsecName(env, i) in links && links[IpsecName(env, i)] == StartedLink(env, i)
  {
    var n := EndpointCount(env);
    var net1 := SetUp(AddLink(net, VrfName(env), "", "vrf", env.vrfId), VrfName(env));
    forall k | 1 <= k <= n ensures IpsecName(env, k) !in net1.links {
      NamesApart(env, k, "");
      assert IpsecNames(env, n)[k - 1] == IpsecName(env, k);
      assert IpsecName(env, k) in OwnNames(env);
    }
    VlanLinks(env, net1, VlanList(env));
    EndpointLinks(env, SetupVlans(env, net1, VlanList(env)), n);
    LinksHave(env, SetupVlans(env, net1, VlanList(env)).links, n, i);
  }

  lemma DecimalDigits(n: nat)
    ensures AllDigits(Decimal(n))
  {
  }

  /** The VLAN loop makes no ipsec link and keeps what is there. */
  lemma {:induction false} VlanLinks(env: Environment, net: Net, vs: seq<(string, string)>)
    requires AllDigits(env.vrfId)
    ensures net.links.Keys <= SetupVlans(env, net, vs).links.Keys
    ensures forall k :: IpsecName(env, k) !in net.links ==> IpsecName(env, k) !in SetupVlans(env, net, vs).links
  {
    if vs != [] {
      var v := vs[|vs| - 1];
      VlanLinks(env, net, vs[..|vs| - 1]);
      forall k ensures IpsecName(env, k) != VlanName(env, v.0) { NamesApart(env, k, v.0); }
    }
  }

  function StartedLink(env: Environment, i: nat): Link {
    Link("xfrm", AwkField(env.endpointIds, i), VrfName(env), true, {AddressText(env, i)})
  }

  lemma EndpointLink(env: Environment, net: Net, k: nat)
    requires VrfName(env) in net.links && "lo" in net.links && IpsecName(env, k) !in net.links
    ensures SetupEndpoint(env, net, k).links == net.links[IpsecName(env, k) := StartedLink(env, k)]
  {
    var name, link := IpsecName(env, k), Link("xfrm", AwkField(env.endpointIds, k), VrfName(env), true, {});
    var net1 := SetUp(SetMaster(AddLink(net, name, "lo", "xfrm", link.ifId), name, VrfName(env)), name);
    assert net1.links == net.links[name := link];
    assert link.(addrs := link.addrs + {AddressText(env, k)}) == StartedLink(env, k);
    assert net1.links[name := StartedLink(env, k)] == net.links[name := StartedLink(env, k)];
  }

  lemma IpsecNameInjective(env: Environment, i: nat, j: nat)
    requires IpsecName(env, i) == IpsecName(env, j)
    ensures i == j
  {
    var prefix := "ipsec-" + env.vrfId;
    assert IpsecName(env, i)[|prefix|..] == TwoDigits(i) && IpsecName(env, j)[|prefix|..] == TwoDigits(j);
    InterfaceNames.TwoDigitsInjective(i, j);
  }

  ghost predicate NamesFree(env: Environment, net: Net, n: nat) {
    forall k :: 1 <= k <= n ==> IpsecName(env, k) !in net.links
  }

  /** The links that the first n turns of the endpoint loop leave. */
  function LinksAfter(env: Environment, links: map<string, Link>, n: nat): map<string, Link> {
    if n == 0 then links else LinksAfter(env, links, n - 1)[IpsecName(env, n) := StartedLink(env, n)]
  }

  lemma {:induction false} LinksNotYet(env: Environment, links: map<string, Link>, n: nat, i: nat)
    requires n < i && IpsecName(env, i) !in links
    ensures links.Keys <= LinksAfter(env, links, n).Keys && IpsecName(env, i) !in LinksAfter(env, links, n)
  {
    if n > 0 {
      LinksNotYet(env, links, n - 1, i);
      if IpsecName(env, i) == IpsecName(env, n) { IpsecNameInjective(env, i, n); }
    }
  }

  lemma {:induction false} LinksHave(env: Environment, links: map<string, Link>, n: nat, i: nat)
    requires 1 <= i <= n
    ensures IpsecName(env, i) in LinksAfter(env, links, n) && LinksAfter(env, links, n)[IpsecName(env, i)] == StartedLink(env, i)
    decreases n
  {
    if i < n {
      LinksHave(env, links, n - 1, i);
      if IpsecName(env, i) == IpsecName(env, n) { IpsecNameInjective(env, i, n); }
    }
  }

  /** Each turn of the endpoint loop completes one link and leaves the others. */
  lemma {:induction false} EndpointLinks(env: Environment, net: Net, n: nat)
    requires VrfName(env) in net.links && "lo" in net.links && NamesFree(env, net, n)
    ensures SetupEndpoints(env, net, n).links == LinksAfter(env, net.links, n)
  {
    if n > 0 {
      EndpointLinks(env, net, n - 1);
      LinksNotYet(env, net.links, n - 1, n);
      EndpointLink(env, SetupEndpoints(env, net, n - 1), n);
    }
  }

  lemma NamesApart(env: Environment, i: nat, vlan: string)
    requires AllDigits(env.vrfId)
    ensures IpsecName(env, i) != VlanName(env, vlan) && IpsecName(env, i) != VrfName(env)
  {
    var name := IpsecName(env, i);
    InterfaceNames.TwoDigitsValue(i);
    assert forall k :: 0 <= k < |name| ==> name[k] != '.';
    assert VlanName(env, vlan)[|env.physIf|] == '.';
    assert name[0] == 'i' && VrfName(env)[0] == 'v';
  }
}
