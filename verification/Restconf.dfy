/** Between the generated YANG structures and the database rows, db/restconf.go. The
    YANG lists are maps by key; every leaf may be nil. */
module Restconf {
  import opened Text
  import opened Base64
  import opened Crypto
  import opened Types

  datatype YangVlan = YangVlan(vlan: Option<nat>, lanIp: Option<string>)

  datatype YangAuth = YangAuth(
    kind: Option<string>, psk: Option<GoString>, localId: Option<string>, localCert: Option<string>,
    remoteCert: Option<string>, privateKey: Option<string>, pkcs12: Option<string>)

  datatype YangEndpoint = YangEndpoint(
    id: Option<nat>, vrfId: Option<nat>, remoteIpSec: Option<string>, localIp: Option<string>, peerIp: Option<string>,
    remoteAs: Option<nat>, nat_: Option<bool>, bgp: Option<bool>, sourceInterface: Option<string>, auth: Option<YangAuth>)

  datatype YangVrf = YangVrf(
    id: Option<nat>, clientName: Option<string>, cryptoPh1: Option<string>, cryptoPh2: Option<string>,
    physicalInterface: Option<string>, active: Option<bool>, localAs: Option<nat>, disablePeerIps: Option<bool>,
    ospf: Option<bool>, vlan: map<nat, YangVlan>, endpoint: map<string, YangEndpoint>)

  function OrEmpty(s: Option<string>): string { if s.None? then "" else s.value }

  function OrNoBytes(s: Option<GoString>): GoString { if s.None? then "" else s.value }

  /** BoolPointer: nil becomes a pointer to false. */
  function BoolPointer(b: Option<bool>): Option<bool> { if b.None? then Some(false) else b }

  /** The leaves FromYang dereferences without asking. */
  predicate EndpointComplete(y: YangEndpoint) {
    y.remoteIpSec.Some? && y.localIp.Some? && y.peerIp.Some? && y.remoteAs.Some? && y.nat_.Some? && y.bgp.Some?
    && y.sourceInterface.Some? && y.auth.Some?
  }

  predicate VlanComplete(y: YangVlan) { y.vlan.Some? && y.lanIp.Some? }

  predicate Complete(y: YangVrf) {
    && y.clientName.Some? && y.cryptoPh1.Some? && y.cryptoPh2.Some? && y.physicalInterface.Some? && y.localAs.Some?
    && (forall k :: k in y.vlan ==> VlanComplete(y.vlan[k]))
    && (forall k :: k in y.endpoint ==> EndpointComplete(y.endpoint[k]))
  }

  function EndpointFromYang(y: YangEndpoint): Result<Endpoint> {
    if !EndpointComplete(y) then Panic
    else
      var a := y.auth.value;
      Ok(Endpoint(0, 0, y.remoteIpSec.value, y.localIp.value, y.peerIp.value, y.remoteAs.value, y.nat_.value,
        y.bgp.value, y.sourceInterface.value,
        Auth(OrEmpty(a.kind), OrNoBytes(a.psk), OrEmpty(a.localId), OrEmpty(a.localCert), OrEmpty(a.remoteCert),
          OrEmpty(a.privateKey), OrEmpty(a.pkcs12))))
  }

  function EndpointToYang(e: Endpoint): YangEndpoint {
    YangEndpoint(Some(e.id), Some(e.vrfId), Some(e.remoteIpSec), Some(e.localIp), Some(e.peerIp), Some(e.remoteAs),
      Some(e.nat_), Some(e.bgp), Some(e.sourceInterface),
      Some(YangAuth(Some(e.auth.kind), Some(e.auth.psk), Some(e.auth.localId), Some(e.auth.localCert),
        Some(e.auth.remoteCert), Some(e.auth.privateKey), Some(e.auth.pkcs12))))
  }

  /** Go walks a map in any order, every key once. */
  ghost predicate IsOrder<K, V>(m: map<K, V>, order: seq<K>) {
    && (forall i :: 0 <= i < |order| ==> order[i] in m)
    && (forall i, j :: 0 <= i < j < |order| ==> order[i] != order[j])
    && (forall k :: k in m ==> k in order)
  }

  function VlansFromYang(m: map<nat, YangVlan>, order: seq<nat>): (r: Result<seq<Vlan>>)
    requires forall i :: 0 <= i < |order| ==> order[i] in m
    ensures r.Ok? ==> |r.value| == |order|
  {
    if order == [] then Ok([])
    else
      var front :- VlansFromYang(m, order[..|order| - 1]);
      var v := m[order[|order| - 1]];
      if VlanComplete(v) then Ok(front + [Vlan(v.vlan.value, v.lanIp.value)]) else Panic
  }

  function EndpointsFromYang(m: map<string, YangEndpoint>, order: seq<string>): (r: Result<seq<Endpoint>>)
    requires forall i :: 0 <= i < |order| ==> order[i] in m
    ensures r.Ok? ==> |r.value| == |order|
  {
    if order == [] then Ok([])
    else
      var front :- EndpointsFromYang(m, order[..|order| - 1]);
      var e :- EndpointFromYang(m[order[|order| - 1]]);
      Ok(front + [e])
  }

  function SplitDots(s: string): seq<string> { Split(s, '.') }

  function VrfFromYang(y: YangVrf, id: nat, vlanOrder: seq<nat>, endpointOrder: seq<string>): Result<Vrf>
    requires forall i :: 0 <= i < |vlanOrder| ==> vlanOrder[i] in y.vlan
    requires forall i :: 0 <= i < |endpointOrder| ==> endpointOrder[i] in y.endpoint
  {
    if y.clientName.None? then Panic
    else
      var vlans :- VlansFromYang(y.vlan, vlanOrder);
      if y.cryptoPh1.None? || y.cryptoPh2.None? || y.physicalInterface.None? || y.localAs.None? then Panic
      else
        var endpoints :- EndpointsFromYang(y.endpoint, endpointOrder);
        Ok(Vrf(id, y.clientName.value, vlans, SplitDots(y.cryptoPh1.value), SplitDots(y.cryptoPh2.value),
          y.physicalInterface.value, y.active, y.localAs.value, y.disablePeerIps, y.ospf, endpoints))
  }

  /** FromYang as written: fields of the receiver set one by one, lists appended to. */
  class Receiver {
    var v: Vrf

    constructor (id: nat)
      ensures v == Vrf(id, "", [], [], [], "", None, 0, None, None, [])
    {
      v := Vrf(id, "", [], [], [], "", None, 0, None, None, []);
    }

    method FromYang(y: YangVrf, vlanOrder: seq<nat>, endpointOrder: seq<string>) returns (r: Result<()>)
      requires forall i :: 0 <= i < |vlanOrder| ==> vlanOrder[i] in y.vlan
      requires forall i :: 0 <= i < |endpointOrder| ==> endpointOrder[i] in y.endpoint
      requires v.vlans == [] && v.endpoints == []
      modifies this
      ensures VrfFromYang(y, old(v.id), vlanOrder, endpointOrder) == if r.Ok? then Ok(v) else Panic
    {
      if y.clientName.None? { return Panic; }
      v := v.(clientName := y.clientName.value);
      var vlans := AppendVlans(y.vlan, vlanOrder);
      if vlans.None? { return Panic; }
      v := v.(vlans := vlans.value);
      if y.cryptoPh1.None? { return Panic; }
      v := v.(cryptoPh1 := SplitDots(y.cryptoPh1.value));
      if y.cryptoPh2.None? { return Panic; }
      v := v.(cryptoPh2 := SplitDots(y.cryptoPh2.value));
      if y.physicalInterface.None? { return Panic; }
      v := v.(physicalInterface := y.physicalInterface.value);
      v := v.(active := y.active);
      if y.localAs.None? { return Panic; }
      v := v.(localAs := y.localAs.value);
      v := v.(disablePeerIps := y.disablePeerIps);
      var endpoints := AppendEndpoints(y.endpoint, endpointOrder);
      if endpoints.None? { return Panic; }
      v := v.(endpoints := endpoints.value);
      v := v.(ospf := y.ospf);
      r := Ok(());
    }
  }

  method AppendVlans(m: map<nat, YangVlan>, order: seq<nat>) returns (r: Option<seq<Vlan>>)
    requires forall i :: 0 <= i < |order| ==> order[i] in m
    ensures VlansFromYang(m, order) == if r.Some? then Ok(r.value) else Panic
  {
    var vlans: seq<Vlan> := [];
    for i := 0 to |order|
      invariant VlansFromYang(m, order[..i]) == Ok(vlans)
    {
      assert order[..i + 1][..i] == order[..i];
      var v := m[order[i]];
      if v.vlan.None? || v.lanIp.None? {
        VlansStop(m, order, i + 1);
        return None;
      }
      vlans := vlans + [Vlan(v.vlan.value, v.lanIp.value)];
    }
    assert order[..|order|] == order;
    r := Some(vlans);
  }

  method AppendEndpoints(m: map<string, YangEndpoint>, order: seq<string>) returns (r: Option<seq<Endpoint>>)
    requires forall i :: 0 <= i < |order| ==> order[i] in m
    ensures EndpointsFromYang(m, order) == if r.Some? then Ok(r.value) else Panic
  {
    var endpoints: seq<Endpoint> := [];
    for i := 0 to |order|
      invariant EndpointsFromYang(m, order[..i]) == Ok(endpoints)
    {
      assert order[..i + 1][..i] == order[..i];
      var e := EndpointFromYang(m[order[i]]);
      if !e.Ok? {
        EndpointsStop(m, order, i + 1);
        return None;
      }
      endpoints := endpoints + [e.value];
    }
    assert order[..|order|] == order;
    r := Some(endpoints);
  }

  lemma {:induction false} VlansStop(m: map<nat, YangVlan>, order: seq<nat>, k: nat)
    requires forall i :: 0 <= i < |order| ==> order[i] in m
    requires k <= |order| && VlansFromYang(m, order[..k]) == Panic
    ensures VlansFromYang(m, order) == Panic
  {
    if k == |order| {
      assert order[..k] == order;
    } else {
      assert order[..|order| - 1][..k] == order[..k];
      VlansStop(m, order[..|order| - 1], k);
    }
  }

  lemma {:induction false} EndpointsStop(m: map<string, YangEndpoint>, order: seq<string>, k: nat)
    requires forall i :: 0 <= i < |order| ==> order[i] in m
    requires k <= |order| && EndpointsFromYang(m, order[..k]) == Panic
    ensures EndpointsFromYang(m, order) == Panic
  {
    if k == |order| {
      assert order[..k] == order;
    } else {
      assert order[..|order| - 1][..k] == order[..k];
      EndpointsStop(m, order[..|order| - 1], k);
    }
  }

  function EndpointsToYang(es: seq<Endpoint>): map<string, YangEndpoint> {
    if es == [] then map[]
    else EndpointsToYang(es[..|es| - 1])[es[|es| - 1].remoteIpSec := EndpointToYang(es[|es| - 1])]
  }

  function VlansToYang(vs: seq<Vlan>): map<nat, YangVlan> {
    if vs == [] then map[]
    else VlansToYang(vs[..|vs| - 1])[vs[|vs| - 1].vlan := YangVlan(Some(vs[|vs| - 1].vlan), Some(vs[|vs| - 1].lanIp))]
  }

  function VrfToYang(v: Vrf): YangVrf {
    YangVrf(Some(v.id), Some(v.clientName), Some(Join(v.cryptoPh1, ".")), Some(Join(v.cryptoPh2, ".")),
      Some(v.physicalInterface), BoolPointer(v.active), Some(v.localAs), BoolPointer(v.disablePeerIps),
      BoolPointer(v.ospf), VlansToYang(v.vlans), EndpointsToYang(v.endpoints))
  }

  /** ToYang fills its two maps in loops. */
  method ToYang(v: Vrf) returns (y: YangVrf)
    ensures y == VrfToYang(v)
  {
    var endpoints: map<string, YangEndpoint> := map[];
    for i := 0 to |v.endpoints|
      invariant endpoints == EndpointsToYang(v.endpoints[..i])
    {
      assert v.endpoints[..i + 1][..i] == v.endpoints[..i];
      endpoints := endpoints[v.endpoints[i].remoteIpSec := EndpointToYang(v.endpoints[i])];
    }
    var vlans: map<nat, YangVlan> := map[];
    for i := 0 to |v.vlans|
      invariant vlans == VlansToYang(v.vlans[..i])
    {
      assert v.vlans[..i + 1][..i] == v.vlans[..i];
      vlans := vlans[v.vlans[i].vlan := YangVlan(Some(v.vlans[i].vlan), Some(v.vlans[i].lanIp))];
    }
    assert v.endpoints[..|v.endpoints|] == v.endpoints && v.vlans[..|v.vlans|] == v.vlans;
    y := YangVrf(Some(v.id), Some(v.clientName), Some(Join(v.cryptoPh1, ".")), Some(Join(v.cryptoPh2, ".")),
      Some(v.physicalInterface), BoolPointer(v.active), Some(v.localAs), BoolPointer(v.disablePeerIps),
      BoolPointer(v.ospf), vlans, endpoints);
  }

  lemma {:induction false} VlansFromYangOutcome(m: map<nat, YangVlan>, order: seq<nat>)
    requires forall i :: 0 <= i < |order| ==> order[i] in m
    ensures VlansFromYang(m, order).Ok? <==> forall i :: 0 <= i < |order| ==> VlanComplete(m[order[i]])
    ensures !VlansFromYang(m, order).Ok? ==> VlansFromYang(m, order) == Panic
  {
    if order != [] {
      VlansFromYangOutcome(m, order[..|order| - 1]);
    }
  }

  lemma {:induction false} EndpointsFromYangOutcome(m: map<string, YangEndpoint>, order: seq<string>)
    requires forall i :: 0 <= i < |order| ==> order[i] in m
    ensures EndpointsFromYang(m, order).Ok? <==> forall i :: 0 <= i < |order| ==> EndpointComplete(m[order[i]])
    ensures !EndpointsFromYang(m, order).Ok? ==> EndpointsFromYang(m, order) == Panic
  {
    if order != [] {
      EndpointsFromYangOutcome(m, order[..|order| - 1]);
    }
  }

  /** FromYang goes through exactly when no leaf it dereferences is nil; otherwise it
      panics. `remote_as`, `source_interface` and `authentication` are the leaves the
      YANG model lets a client omit. */
  lemma FromYangOutcome(y: YangVrf, id: nat, vlanOrder: seq<nat>, endpointOrder: seq<string>)
    requires IsOrder(y.vlan, vlanOrder) && IsOrder(y.endpoint, endpointOrder)
    ensures VrfFromYang(y, id, vlanOrder, endpointOrder).Ok? <==> Complete(y)
    ensures !Complete(y) ==> VrfFromYang(y, id, vlanOrder, endpointOrder) == Panic
  {
    VlansFromYangOutcome(y.vlan, vlanOrder);
    EndpointsFromYangOutcome(y.endpoint, endpointOrder);
    forall k | k in y.vlan ensures exists i :: 0 <= i < |vlanOrder| && vlanOrder[i] == k {}
    forall k | k in y.endpoint ensures exists i :: 0 <= i < |endpointOrder| && endpointOrder[i] == k {}
  }

  /** ygot's validation: the entry stored under a key carries that key. */
  predicate WellKeyed(y: YangVrf) {
    && (forall k :: k in y.vlan ==> y.vlan[k].vlan == Some(k))
    && (forall k :: k in y.endpoint ==> y.endpoint[k].remoteIpSec == Some(k))
  }

  /** What is left of an endpoint after the way through the database row: its ids are
      the server's, absent texts are empty. */
  function NormalEndpoint(y: YangEndpoint): YangEndpoint
    requires EndpointComplete(y)
  {
    var a := y.auth.value;
    y.(id := Some(0), vrfId := Some(0), auth := Some(YangAuth(Some(OrEmpty(a.kind)), Some(OrNoBytes(a.psk)),
      Some(OrEmpty(a.localId)), Some(OrEmpty(a.localCert)), Some(OrEmpty(a.remoteCert)), Some(OrEmpty(a.privateKey)),
      Some(OrEmpty(a.pkcs12)))))
  }

  function Normal(y: YangVrf, id: nat): YangVrf
    requires Complete(y)
  {
    y.(id := Some(id), active := BoolPointer(y.active), disablePeerIps := BoolPointer(y.disablePeerIps),
       ospf := BoolPointer(y.ospf),
       endpoint := map k | k in y.endpoint :: NormalEndpoint(y.endpoint[k]))
  }

  lemma {:induction false} VlansRoundTrip(m: map<nat, YangVlan>, order: seq<nat>)
    requires forall i :: 0 <= i < |order| ==> order[i] in m && VlanComplete(m[order[i]]) && m[order[i]].vlan == Some(order[i])
    ensures VlansFromYang(m, order).Ok?
    ensures var r := VlansToYang(VlansFromYang(m, order).value);
      (forall k :: k in r <==> k in order) && (forall k :: k in r ==> k in m && r[k] == m[k])
  {
    if order != [] {
      var front, k := order[..|order| - 1], order[|order| - 1];
      VlansRoundTrip(m, front);
      var vs := VlansFromYang(m, front).value;
      var v := Vlan(m[k].vlan.value, m[k].lanIp.value);
      assert VlansFromYang(m, order) == Ok(vs + [v]);
      assert (vs + [v])[..|vs|] == vs;
    }
  }

  lemma {:induction false} EndpointsRoundTrip(m: map<string, YangEndpoint>, order: seq<string>)
    requires forall i :: 0 <= i < |order| ==>
      order[i] in m && EndpointComplete(m[order[i]]) && m[order[i]].remoteIpSec == Some(order[i])
    ensures EndpointsFromYang(m, order).Ok?
    ensures var r := EndpointsToYang(EndpointsFromYang(m, order).value);
      && (forall k :: k in r <==> k in order)
      && (forall k :: k in r ==> k in m && EndpointComplete(m[k]) && r[k] == NormalEndpoint(m[k]))
  {
    if order != [] {
      var front, k := order[..|order| - 1], order[|order| - 1];
      EndpointsRoundTrip(m, front);
      var es := EndpointsFromYang(m, front).value;
      var e := EndpointFromYang(m[k]).value;
      assert EndpointsFromYang(m, order) == Ok(es + [e]);
      assert (es + [e])[..|es|] == es;
      assert EndpointToYang(e) == NormalEndpoint(m[k]);
    }
  }

  lemma VlansBack(y: YangVrf, order: seq<nat>)
    requires Complete(y) && WellKeyed(y) && IsOrder(y.vlan, order)
    ensures VlansFromYang(y.vlan, order).Ok?
    ensures VlansToYang(VlansFromYang(y.vlan, order).value) == y.vlan
  {
    VlansRoundTrip(y.vlan, order);
  }

  lemma EndpointsBack(y: YangVrf, id: nat, order: seq<string>)
    requires Complete(y) && WellKeyed(y) && IsOrder(y.endpoint, order)
    ensures EndpointsFromYang(y.endpoint, order).Ok?
    ensures EndpointsToYang(EndpointsFromYang(y.endpoint, order).value) == Normal(y, id).endpoint
  {
    EndpointsRoundTrip(y.endpoint, order);
  }

  /** ToYang after FromYang gives a validated VRF back, whatever order the maps were
      walked in: no VLAN and no endpoint is lost, and only server-assigned ids and
      absent optional leaves differ. */
  lemma YangRoundTrip(y: YangVrf, id: nat, vlanOrder: seq<nat>, endpointOrder: seq<string>)
    requires Complete(y) && WellKeyed(y)
    requires IsOrder(y.vlan, vlanOrder) && IsOrder(y.endpoint, endpointOrder)
    ensures VrfFromYang(y, id, vlanOrder, endpointOrder).Ok?
    ensures VrfToYang(VrfFromYang(y, id, vlanOrder, endpointOrder).value) == Normal(y, id)
  {
    VlansBack(y, vlanOrder);
    EndpointsBack(y, id, endpointOrder);
    JoinOfSplit(y.cryptoPh1.value, '.');
    JoinOfSplit(y.cryptoPh2.value, '.');
  }

  predicate DistinctRemotes(es: seq<Endpoint>) {
    forall i, j :: 0 <= i < j < |es| ==> es[i].remoteIpSec != es[j].remoteIpSec
  }

  predicate HasRemote(es: seq<Endpoint>, k: string) {
    exists i :: 0 <= i < |es| && es[i].remoteIpSec == k
  }

  lemma {:induction false} EndpointsToYangKeys(es: seq<Endpoint>)
    ensures forall k :: k in EndpointsToYang(es) <==> HasRemote(es, k)
  {
    if es != [] {
      var front := es[..|es| - 1];
      EndpointsToYangKeys(front);
      forall k: string ensures HasRemote(es, k) <==> k == es[|es| - 1].remoteIpSec || HasRemote(front, k) {
        assert forall i :: 0 <= i < |front| ==> front[i] == es[i];
      }
    }
  }

  /** On the way out an endpoint is lost exactly when two rows share a remote address. */
  lemma {:induction false} EndpointsKept(es: seq<Endpoint>)
    ensures |EndpointsToYang(es)| <= |es|
    ensures |EndpointsToYang(es)| == |es| <==> DistinctRemotes(es)
  {
    if es != [] {
      var front, e := es[..|es| - 1], es[|es| - 1];
      EndpointsKept(front);
      EndpointsToYangKeys(front);
      var m := EndpointsToYang(front);
      EntriesCount(m, e.remoteIpSec, EndpointToYang(e));
      assert DistinctRemotes(es) <==> DistinctRemotes(front) && !HasRemote(front, e.remoteIpSec) by {
        assert forall i :: 0 <= i < |front| ==> front[i] == es[i];
      }
    }
  }

  lemma EntriesCount(m: map<string, YangEndpoint>, k: string, v: YangEndpoint)
    ensures |m[k := v]| == if k in m then |m| else |m| + 1
  {
    assert m[k := v].Keys == m.Keys + {k};
    if k in m { assert m.Keys + {k} == m.Keys; }
  }

  /** The other way round: walking the maps in the order of the row's lists, which is one
      that Go may take, gives the row back, ids and nil flags aside. */
  lemma RowRoundTrip(v: Vrf)
    requires DistinctKeys(v)
    requires NoDots(v.cryptoPh1) && NoDots(v.cryptoPh2)
    ensures var y := VrfToYang(v);
      var vlanOrder, endpointOrder := VlanKeys(v.vlans), EndpointKeys(v.endpoints);
      && IsOrder(y.vlan, vlanOrder) && IsOrder(y.endpoint, endpointOrder)
      && VrfFromYang(y, v.id, vlanOrder, endpointOrder) == Ok(v.(active := BoolPointer(v.active),
           disablePeerIps := BoolPointer(v.disablePeerIps), ospf := BoolPointer(v.ospf),
           endpoints := WithoutIds(v.endpoints)))
  {
    ListOrders(v);
    SplitOfJoin(v.cryptoPh1, '.');
    SplitOfJoin(v.cryptoPh2, '.');
    VlansForth(v.vlans);
    EndpointsForth(v.endpoints);
    VlanRows(VlansToYang(v.vlans), v.vlans);
    EndpointRows(EndpointsToYang(v.endpoints), v.endpoints);
  }

  /** The lists' own orders are among those Go may walk the maps in. */
  lemma ListOrders(v: Vrf)
    requires DistinctKeys(v)
    ensures IsOrder(VlansToYang(v.vlans), VlanKeys(v.vlans))
    ensures IsOrder(EndpointsToYang(v.endpoints), EndpointKeys(v.endpoints))
  {
    VlansForth(v.vlans);
    EndpointsForth(v.endpoints);
    EndpointsToYangKeys(v.endpoints);
    forall k | k in EndpointsToYang(v.endpoints) ensures k in EndpointKeys(v.endpoints) {
      var i :| 0 <= i < |v.endpoints| && v.endpoints[i].remoteIpSec == k;
      assert EndpointKeys(v.endpoints)[i] == k;
    }
    forall k | k in VlansToYang(v.vlans) ensures k in VlanKeys(v.vlans) {
      var i :| 0 <= i < |v.vlans| && v.vlans[i].vlan == k;
      assert VlanKeys(v.vlans)[i] == k;
    }
  }

  predicate DistinctKeys(v: Vrf) {
    && (forall i, j :: 0 <= i < j < |v.vlans| ==> v.vlans[i].vlan != v.vlans[j].vlan)
    && DistinctRemotes(v.endpoints)
  }

  predicate NoDots(parts: seq<string>) {
    |parts| >= 1 && forall p :: p in parts ==> '.' !in p
  }

  function VlanKeys(vs: seq<Vlan>): (r: seq<nat>)
    ensures |r| == |vs| && forall i :: 0 <= i < |vs| ==> r[i] == vs[i].vlan
  {
    seq(|vs|, i requires 0 <= i < |vs| => vs[i].vlan)
  }

  function EndpointKeys(es: seq<Endpoint>): (r: seq<string>)
    ensures |r| == |es| && forall i :: 0 <= i < |es| ==> r[i] == es[i].remoteIpSec
  {
    seq(|es|, i requires 0 <= i < |es| => es[i].remoteIpSec)
  }

  function WithoutIds(es: seq<Endpoint>): (r: seq<Endpoint>)
    ensures |r| == |es| && forall i :: 0 <= i < |es| ==> r[i] == es[i].(id := 0, vrfId := 0)
  {
    seq(|es|, i requires 0 <= i < |es| => es[i].(id := 0, vrfId := 0))
  }

  function VlanEntry(v: Vlan): YangVlan { YangVlan(Some(v.vlan), Some(v.lanIp)) }

  lemma {:induction false} VlansForth(vs: seq<Vlan>)
    requires forall i, j :: 0 <= i < j < |vs| ==> vs[i].vlan != vs[j].vlan
    ensures forall i :: 0 <= i < |vs| ==> vs[i].vlan in VlansToYang(vs) && VlansToYang(vs)[vs[i].vlan] == VlanEntry(vs[i])
    ensures forall k :: k in VlansToYang(vs) ==> exists i :: 0 <= i < |vs| && vs[i].vlan == k
  {
    if vs != [] {
      var front := vs[..|vs| - 1];
      VlansForth(front);
      assert forall i :: 0 <= i < |front| ==> front[i] == vs[i];
    }
  }

  lemma {:induction false} EndpointsForth(es: seq<Endpoint>)
    requires DistinctRemotes(es)
    ensures forall i :: 0 <= i < |es| ==>
      es[i].remoteIpSec in EndpointsToYang(es) && EndpointsToYang(es)[es[i].remoteIpSec] == EndpointToYang(es[i])
  {
    EndpointsToYangKeys(es);
    if es != [] {
      var front := es[..|es| - 1];
      EndpointsForth(front);
      assert forall i :: 0 <= i < |front| ==> front[i] == es[i];
    }
  }

  lemma {:induction false} VlanRows(m: map<nat, YangVlan>, vs: seq<Vlan>)
    requires forall i :: 0 <= i < |vs| ==> vs[i].vlan in m && m[vs[i].vlan] == VlanEntry(vs[i])
    ensures VlansFromYang(m, VlanKeys(vs)) == Ok(vs)
  {
    if vs != [] {
      VlanRows(m, vs[..|vs| - 1]);
      assert VlanKeys(vs)[..|vs| - 1] == VlanKeys(vs[..|vs| - 1]);
      assert vs == vs[..|vs| - 1] + [vs[|vs| - 1]];
    }
  }

  lemma {:induction false} EndpointRows(m: map<string, YangEndpoint>, es: seq<Endpoint>)
    requires forall i :: 0 <= i < |es| ==> es[i].remoteIpSec in m && m[es[i].remoteIpSec] == EndpointToYang(es[i])
    ensures EndpointsFromYang(m, EndpointKeys(es)) == Ok(WithoutIds(es))
  {
    if es != [] {
      var front, e := es[..|es| - 1], es[|es| - 1];
      EndpointRows(m, front);
      assert EndpointKeys(es)[..|es| - 1] == EndpointKeys(front);
      assert EndpointFromYang(m[e.remoteIpSec]) == Ok(e.(id := 0, vrfId := 0));
      assert WithoutIds(es) == WithoutIds(front) + [e.(id := 0, vrfId := 0)];
    }
  }

  /** A text that may be absent stands for the empty one. */
  predicate Says(y: Option<string>, s: string) { y == Some(s) || (y == None && s == "") }

  /** An absent flag reads as false. */
  predicate Flags(b: Option<bool>, y: Option<bool>) { y == Some(b.Some? && b.value) }

  predicate SameAuth(y: YangAuth, a: Auth) {
    && Says(y.kind, a.kind) && (y.psk == Some(a.psk) || (y.psk == None && a.psk == "")) && Says(y.localId, a.localId)
    && Says(y.localCert, a.localCert) && Says(y.remoteCert, a.remoteCert) && Says(y.privateKey, a.privateKey)
    && Says(y.pkcs12, a.pkcs12)
  }

  predicate SameEndpoint(y: YangEndpoint, e: Endpoint) {
    && y.remoteIpSec == Some(e.remoteIpSec) && y.localIp == Some(e.localIp) && y.peerIp == Some(e.peerIp)
    && y.remoteAs == Some(e.remoteAs) && y.nat_ == Some(e.nat_) && y.bgp == Some(e.bgp)
    && y.sourceInterface == Some(e.sourceInterface) && y.auth.Some? && SameAuth(y.auth.value, e.auth)
  }

  predicate SameVlan(y: YangVlan, v: Vlan) { y.vlan == Some(v.vlan) && y.lanIp == Some(v.lanIp) }

  /** Pieces without dots that give the text when dots are put between them. */
  predicate DotPieces(pieces: seq<string>, text: string) {
    && |pieces| >= 1 && (forall i :: 0 <= i < |pieces| ==> '.' !in pieces[i]) && Join(pieces, ".") == text
  }

  lemma {:induction false} VlansSame(m: map<nat, YangVlan>, order: seq<nat>)
    requires (forall i :: 0 <= i < |order| ==> order[i] in m) && VlansFromYang(m, order).Ok?
    ensures forall i :: 0 <= i < |order| ==> SameVlan(m[order[i]], VlansFromYang(m, order).value[i])
  {
    if order != [] { VlansSame(m, order[..|order| - 1]); }
  }

  lemma EndpointSame(y: YangEndpoint)
    requires EndpointComplete(y)
    ensures EndpointFromYang(y).Ok? && SameEndpoint(y, EndpointFromYang(y).value)
    ensures EndpointFromYang(y).value.id == 0 && EndpointFromYang(y).value.vrfId == 0
  {
  }

  lemma {:induction false} EndpointsSame(m: map<string, YangEndpoint>, order: seq<string>)
    requires (forall i :: 0 <= i < |order| ==> order[i] in m) && EndpointsFromYang(m, order).Ok?
    ensures forall i :: 0 <= i < |order| ==> SameEndpoint(m[order[i]], EndpointsFromYang(m, order).value[i])
    ensures forall i :: 0 <= i < |order| ==>
      EndpointsFromYang(m, order).value[i].id == 0 && EndpointsFromYang(m, order).value[i].vrfId == 0
  {
    if order != [] {
      EndpointsSame(m, order[..|order| - 1]);
      EndpointSame(m[order[|order| - 1]]);
    }
  }

  /** What FromYang makes of a request, leaf by leaf: nothing changes its place or its
      value, an absent text of the authentication is empty, and flags stay absent. */
  lemma RowFields(y: YangVrf, id: nat, vlanOrder: seq<nat>, endpointOrder: seq<string>)
    requires Complete(y) && IsOrder(y.vlan, vlanOrder) && IsOrder(y.endpoint, endpointOrder)
    ensures VrfFromYang(y, id, vlanOrder, endpointOrder).Ok?
    ensures var v := VrfFromYang(y, id, vlanOrder, endpointOrder).value;
      && v.id == id && y.clientName == Some(v.clientName) && y.physicalInterface == Some(v.physicalInterface)
      && y.localAs == Some(v.localAs) && v.active == y.active && v.disablePeerIps == y.disablePeerIps && v.ospf == y.ospf
      && DotPieces(v.cryptoPh1, y.cryptoPh1.value) && DotPieces(v.cryptoPh2, y.cryptoPh2.value)
      && |v.vlans| == |vlanOrder| && |v.endpoints| == |endpointOrder|
      && (forall i :: 0 <= i < |vlanOrder| ==> SameVlan(y.vlan[vlanOrder[i]], v.vlans[i]))
      && (forall i :: 0 <= i < |endpointOrder| ==> SameEndpoint(y.endpoint[endpointOrder[i]], v.endpoints[i]))
      && (forall i :: 0 <= i < |endpointOrder| ==> v.endpoints[i].id == 0 && v.endpoints[i].vrfId == 0)
  {
    FromYangOutcome(y, id, vlanOrder, endpointOrder);
    VlansSame(y.vlan, vlanOrder);
    EndpointsSame(y.endpoint, endpointOrder);
    DotsSplit(y.cryptoPh1.value);
    DotsSplit(y.cryptoPh2.value);
  }

  lemma DotsSplit(s: string)
    ensures DotPieces(SplitDots(s), s)
  {
    JoinOfSplit(s, '.');
  }

  /** What ToYang shows of a row, leaf by leaf: an absent flag as false, and every VLAN and
      endpoint under its own key when no two share one. */
  lemma YangFields(v: Vrf)
    requires DistinctKeys(v)
    ensures var y := VrfToYang(v);
      && y.id == Some(v.id) && y.clientName == Some(v.clientName) && y.physicalInterface == Some(v.physicalInterface)
      && y.localAs == Some(v.localAs) && Flags(v.active, y.active) && Flags(v.disablePeerIps, y.disablePeerIps)
      && Flags(v.ospf, y.ospf)
      && y.cryptoPh1 == Some(Join(v.cryptoPh1, ".")) && y.cryptoPh2 == Some(Join(v.cryptoPh2, "."))
      && (forall i :: 0 <= i < |v.vlans| ==>
            v.vlans[i].vlan in y.vlan && SameVlan(y.vlan[v.vlans[i].vlan], v.vlans[i]))
      && (forall i :: 0 <= i < |v.endpoints| ==>
            var e := v.endpoints[i];
            && e.remoteIpSec in y.endpoint && SameEndpoint(y.endpoint[e.remoteIpSec], e)
            && y.endpoint[e.remoteIpSec].id == Some(e.id) && y.endpoint[e.remoteIpSec].vrfId == Some(e.vrfId))
  {
    VlansForth(v.vlans);
    EndpointsForth(v.endpoints);
  }
}
