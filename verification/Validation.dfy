/** What a request has to look like, app.go: first the raw JSON, then the decoded VRF. */
module Validation {
  import opened Text
  import opened Crypto
  import opened Types

  datatype Json =
    | JNull
    | JBool(b: bool)
    | JNum(n: real)
    | JStr(s: string)
    | JArr(items: seq<Json>)
    | JObj(fields: map<string, Json>)

  predicate StringField(fields: map<string, Json>, name: string, c: char) {
    name in fields && fields[name].JStr? && c in fields[name].s
  }

  predicate TrueField(fields: map<string, Json>, name: string) {
    name in fields && fields[name] == JBool(true)
  }

  /** An endpoint whose tunnel addresses, as far as they are texts, hold no colon. */
  predicate EndpointOk(e: Json) {
    e.JObj? && !StringField(e.fields, "local_ip", ':') && !StringField(e.fields, "peer_ip", ':')
  }

  predicate IsBgp(e: Json) { e.JObj? && TrueField(e.fields, "bgp") }

  predicate EndpointsOk(vrf: map<string, Json>) {
    "endpoint" in vrf ==>
      vrf["endpoint"].JArr? && forall i :: 0 <= i < |vrf["endpoint"].items| ==> EndpointOk(vrf["endpoint"].items[i])
  }

  predicate AnyBgp(vrf: map<string, Json>) {
    "endpoint" in vrf && vrf["endpoint"].JArr?
    && exists i :: 0 <= i < |vrf["endpoint"].items| && IsBgp(vrf["endpoint"].items[i])
  }

  /** The loop keeps a flag and leaves at the first endpoint it does not like. */
  method VerifyEndpoints(vrf: map<string, Json>) returns (r: Result<bool>)
    ensures EndpointsOk(vrf) ==> r == Ok(AnyBgp(vrf))
    ensures !EndpointsOk(vrf) ==> r == Err
  {
    if "endpoint" !in vrf { return Ok(false); }
    if !vrf["endpoint"].JArr? { return Err; }
    var endpoints := vrf["endpoint"].items;
    var isBGP := false;
    for i := 0 to |endpoints|
      invariant forall j :: 0 <= j < i ==> EndpointOk(endpoints[j])
      invariant isBGP <==> exists j :: 0 <= j < i && IsBgp(endpoints[j])
    {
      var e := endpoints[i];
      if !e.JObj? { return Err; }
      if "local_ip" in e.fields && e.fields["local_ip"].JStr? && ':' in e.fields["local_ip"].s { return Err; }
      if "peer_ip" in e.fields && e.fields["peer_ip"].JStr? && ':' in e.fields["peer_ip"].s { return Err; }
      if "bgp" in e.fields && e.fields["bgp"].JBool? {
        isBGP := isBGP || e.fields["bgp"].b;
      }
    }
    return Ok(isBGP);
  }

  predicate VlanIdOk(v: Json) { v.JObj? && "vlan" in v.fields && v.fields["vlan"].JNum? }

  function VlanId(v: Json): real
    requires VlanIdOk(v)
  {
    v.fields["vlan"].n
  }

  /** The first n VLANs carry numeric and pairwise distinct ids. */
  predicate VlansOk(vlans: seq<Json>, n: nat)
    requires n <= |vlans|
  {
    && (forall i :: 0 <= i < n ==> VlanIdOk(vlans[i]))
    && (forall i, j :: 0 <= i < j < n ==> VlanId(vlans[i]) != VlanId(vlans[j]))
  }

  predicate LocalAsOk(vrf: map<string, Json>) {
    AnyBgp(vrf) ==> "local_as" in vrf && vrf["local_as"].JNum? && vrf["local_as"].n != 0.0
  }

  /** Everything before the VLAN loop is in order. */
  predicate HeadOk(json: Json) {
    json.JObj? && EndpointsOk(json.fields) && LocalAsOk(json.fields) && "vlan" in json.fields && json.fields["vlan"].JArr?
  }

  predicate AcceptedSW(json: Json) {
    HeadOk(json) && VlansOk(json.fields["vlan"].items, |json.fields["vlan"].items|)
  }

  /** The VLAN that the loop trips over: it is reached and is no JSON object, so the
      unchecked type assertion panics. */
  predicate CrashesAt(json: Json, i: nat)
    requires HeadOk(json) && i < |json.fields["vlan"].items|
  {
    VlansOk(json.fields["vlan"].items, i) && !json.fields["vlan"].items[i].JObj?
  }

  predicate Crashes(json: Json) {
    HeadOk(json) && exists i :: 0 <= i < |json.fields["vlan"].items| && CrashesAt(json, i)
  }

  method VrfSubJsonValidSW(json: Json) returns (r: Result<()>)
    ensures r.Ok? <==> AcceptedSW(json)
    ensures r.Panic? <==> Crashes(json)
  {
    if !json.JObj? { return Err; }
    var vrf := json.fields;
    var isBGP := VerifyEndpoints(vrf);
    if !isBGP.Ok? { return Err; }
    if isBGP.value {
      if "local_as" !in vrf || !vrf["local_as"].JNum? { return Err; }
      if vrf["local_as"].n == 0.0 { return Err; }
    }
    if "vlan" !in vrf { return Err; }
    if !vrf["vlan"].JArr? { return Err; }
    r := CheckVlans(vrf["vlan"].items);
    assert forall i :: 0 <= i < |vrf["vlan"].items| ==>
      (CrashesAt(json, i) <==> VlansOk(vrf["vlan"].items, i) && !vrf["vlan"].items[i].JObj?);
  }

  /** Counting the ids in a map. */
  method CheckVlans(vlans: seq<Json>) returns (r: Result<()>)
    ensures r.Ok? <==> VlansOk(vlans, |vlans|)
    ensures r.Panic? <==> exists i :: 0 <= i < |vlans| && VlansOk(vlans, i) && !vlans[i].JObj?
  {
    var vlanIds: map<real, nat> := map[];
    for i := 0 to |vlans|
      invariant VlansOk(vlans, i)
      invariant forall k :: k in vlanIds <==> exists j :: 0 <= j < i && VlanId(vlans[j]) == k
      invariant forall k :: k in vlanIds ==> vlanIds[k] == 1
    {
      var v := vlans[i];
      if !v.JObj? { return Panic; }
      assert forall n :: i < n <= |vlans| && VlansOk(vlans, n) ==> VlanIdOk(vlans[i]);
      if "vlan" !in v.fields { return Err; }
      if !v.fields["vlan"].JNum? { return Err; }
      var vlanId := v.fields["vlan"].n;
      vlanIds := vlanIds[vlanId := if vlanId in vlanIds then vlanIds[vlanId] + 1 else 1];
      if vlanIds[vlanId] > 1 {
        ghost var j :| 0 <= j < i && VlanId(vlans[j]) == vlanId;
        assert forall n :: i < n <= |vlans| && VlansOk(vlans, n) ==> VlanId(vlans[j]) != VlanId(vlans[i]);
        return Err;
      }
    }
    return Ok(());
  }

  method VrfSubJsonValidHW(json: Json) returns (r: Result<()>)
    ensures r.Ok? <==> json.JObj? && EndpointsOk(json.fields)
    ensures !r.Panic?
  {
    if !json.JObj? { return Err; }
    var isBGP := VerifyEndpoints(json.fields);
    r := if isBGP.Ok? then Ok(()) else Err;
  }

  /** vrfValid, on the decoded VRF. */
  predicate VrfOk(v: Vrf) {
    && v.physicalInterface != ""
    && (forall i :: 0 <= i < |v.vlans| ==> v.vlans[i].vlan > 0)
    && (v.disablePeerIps == Some(true) ==> forall i :: 0 <= i < |v.endpoints| ==> !v.endpoints[i].bgp)
  }

  method VrfValid(v: Vrf) returns (r: bool)
    ensures r == VrfOk(v)
  {
    if v.physicalInterface == "" { return false; }
    for i := 0 to |v.vlans|
      invariant forall j :: 0 <= j < i ==> v.vlans[j].vlan > 0
    {
      if v.vlans[i].vlan <= 0 { return false; }
    }
    for i := 0 to |v.endpoints|
      invariant v.disablePeerIps == Some(true) ==> forall j :: 0 <= j < i ==> !v.endpoints[j].bgp
    {
      if v.disablePeerIps.Some? && v.disablePeerIps.value && v.endpoints[i].bgp { return false; }
    }
    return true;
  }

  method VrfCreateValid(v: Vrf) returns (r: bool)
    ensures r == (v.id != HARDWARE_VRF_ID && VrfOk(v))
  {
    if v.id == HARDWARE_VRF_ID { return false; }
    r := VrfValid(v);
  }

  method VrfUpdateValid(v: Vrf) returns (r: bool)
    ensures r == (v.id == HARDWARE_VRF_ID || VrfOk(v))
  {
    if v.id == HARDWARE_VRF_ID { return true; }
    r := VrfValid(v);
  }

  /** A well-typed request body for a VRF, as far as validation looks at it. */
  function EndpointJson(e: Endpoint): Json {
    JObj(map["local_ip" := JStr(e.localIp), "peer_ip" := JStr(e.peerIp), "bgp" := JBool(e.bgp)])
  }

  function VlanJson(v: Vlan): Json {
    JObj(map["vlan" := JNum(v.vlan as real), "lan_ip" := JStr(v.lanIp)])
  }

  function VrfJson(v: Vrf): Json {
    JObj(map[
      "local_as" := JNum(v.localAs as real),
      "vlan" := JArr(seq(|v.vlans|, i requires 0 <= i < |v.vlans| => VlanJson(v.vlans[i]))),
      "endpoint" := JArr(seq(|v.endpoints|, i requires 0 <= i < |v.endpoints| => EndpointJson(v.endpoints[i])))])
  }

  predicate HasBgp(v: Vrf) { exists i :: 0 <= i < |v.endpoints| && v.endpoints[i].bgp }

  predicate IPv4Only(es: seq<Endpoint>) {
    forall i :: 0 <= i < |es| ==> ':' !in es[i].localIp && ':' !in es[i].peerIp
  }

  predicate VlanIdsGood(vlans: seq<Vlan>) {
    && (forall i :: 0 <= i < |vlans| ==> vlans[i].vlan > 0)
    && (forall i, j :: 0 <= i < j < |vlans| ==> vlans[i].vlan != vlans[j].vlan)
  }

  lemma EndpointsOfJson(v: Vrf)
    ensures EndpointsOk(VrfJson(v).fields) <==> IPv4Only(v.endpoints)
    ensures AnyBgp(VrfJson(v).fields) <==> HasBgp(v)
  {
    var items := VrfJson(v).fields["endpoint"].items;
    assert |items| == |v.endpoints|;
    forall i | 0 <= i < |items|
      ensures EndpointOk(items[i]) <==> ':' !in v.endpoints[i].localIp && ':' !in v.endpoints[i].peerIp
      ensures IsBgp(items[i]) <==> v.endpoints[i].bgp
    {
      var e := v.endpoints[i];
      assert items[i] == EndpointJson(e);
      assert items[i].fields["local_ip"] == JStr(e.localIp) && items[i].fields["peer_ip"] == JStr(e.peerIp);
    }
    if HasBgp(v) {
      var i :| 0 <= i < |v.endpoints| && v.endpoints[i].bgp;
      assert IsBgp(items[i]);
    }
  }

  lemma VlansOfJson(v: Vrf)
    ensures var items := VrfJson(v).fields["vlan"].items;
      VlansOk(items, |items|) <==> forall i, j :: 0 <= i < j < |v.vlans| ==> v.vlans[i].vlan != v.vlans[j].vlan
  {
    var items := VrfJson(v).fields["vlan"].items;
    forall i | 0 <= i < |items| ensures VlanIdOk(items[i]) && VlanId(items[i]) == v.vlans[i].vlan as real {
      assert items[i] == VlanJson(v.vlans[i]);
    }
  }

  /** A software create or update passes both checks exactly when VLAN ids are positive
      and pairwise distinct, no tunnel address holds a colon, a BGP endpoint comes with
      a local AS and with peer addresses, and the interface is named. */
  lemma AcceptedExactly(v: Vrf)
    ensures AcceptedSW(VrfJson(v)) && VrfOk(v) <==>
      && VlanIdsGood(v.vlans)
      && IPv4Only(v.endpoints)
      && (HasBgp(v) ==> v.localAs != 0 && v.disablePeerIps != Some(true))
      && v.physicalInterface != ""
    ensures !Crashes(VrfJson(v))
  {
    var json := VrfJson(v);
    EndpointsOfJson(v);
    VlansOfJson(v);
    var items := json.fields["vlan"].items;
    assert forall i :: 0 <= i < |items| ==> items[i] == VlanJson(v.vlans[i]);
    assert json.fields["local_as"] == JNum(v.localAs as real);
  }

  /** bgpEndpointSubset. */
  function BgpSubset(es: seq<Endpoint>, ipv6: bool): seq<Endpoint> {
    if es == [] then []
    else
      var front, e := BgpSubset(es[..|es| - 1], ipv6), es[|es| - 1];
      if e.bgp && ipv6 == e.IsIpv6() then front + [e] else front
  }

  method BgpEndpointSubset(es: seq<Endpoint>, ipv6: bool) returns (r: seq<Endpoint>)
    ensures r == BgpSubset(es, ipv6)
  {
    r := [];
    for i := 0 to |es|
      invariant r == BgpSubset(es[..i], ipv6)
    {
      assert es[..i + 1][..i] == es[..i];
      if es[i].bgp && ipv6 == es[i].IsIpv6() { r := r + [es[i]]; }
    }
    assert es[..|es|] == es;
  }

  function AllBgp(es: seq<Endpoint>): seq<Endpoint> {
    if es == [] then []
    else AllBgp(es[..|es| - 1]) + if es[|es| - 1].bgp then [es[|es| - 1]] else []
  }

  /** Once validated, the IPv6 half is empty and the IPv4 half is every BGP endpoint, in
      the order of the row. */
  lemma {:induction false} BgpHalves(es: seq<Endpoint>)
    requires IPv4Only(es)
    ensures BgpSubset(es, true) == [] && BgpSubset(es, false) == AllBgp(es)
  {
    if es != [] {
      BgpHalves(es[..|es| - 1]);
    }
  }

  predicate InHalf(e: Endpoint, ipv6: bool) { e.bgp && (ipv6 <==> ':' in e.localIp && ':' in e.peerIp) }

  /** Which endpoints a half holds: the BGP ones whose two tunnel addresses both are of
      the IPv6 family, or the other BGP ones, each as often as the row does. */
  lemma {:induction false} BgpSubsetExactly(es: seq<Endpoint>, ipv6: bool)
    ensures forall e :: multiset(BgpSubset(es, ipv6))[e] == if InHalf(e, ipv6) then multiset(es)[e] else 0
  {
    if es != [] {
      BgpSubsetExactly(es[..|es| - 1], ipv6);
      assert es == es[..|es| - 1] + [es[|es| - 1]];
    }
  }
}
