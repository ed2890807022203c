/** What a deployment of the hardware VRF leaves on the switch and what taking it down
    removes, told from the VRF's endpoints. */
module HardwareResult {
  import opened Text
  import opened Types
  import opened Validation
  import opened Switch
  import opened HardwareGenerator
  import opened HardwareProofs
  import Lifecycle
  import HardwareRuns

  /** Which folder an endpoint belongs to, if any. */
  predicate IsA(e: Endpoint, kind: Kind) { e.auth.kind == if kind == Psk then "psk" else "certs" }

  predicate Has(vrf: Vrf, kind: Kind) { exists e :: e in vrf.endpoints && IsA(e, kind) }

  predicate HasId(vrf: Vrf, kind: Kind, id: nat) { exists e :: e in vrf.endpoints && IsA(e, kind) && e.id == id }

  predicate SpeaksBgp(vrf: Vrf, kind: Kind) { exists e :: e in vrf.endpoints && IsA(e, kind) && e.bgp }

  /** The resources of a complete deployment. Certificates are imported for all endpoints
      as soon as one needs them, and the BGP process comes with the first endpoint that
      speaks BGP. */
  predicate Placed(vrf: Vrf, r: Resource) {
    match r
    case Proposal(kind) => Has(vrf, kind)
    case Policy(kind) => Has(vrf, kind)
    case TransformSet(kind) => Has(vrf, kind)
    case Keyring(kind) => kind == Psk && Has(vrf, Psk)
    case Trustpoint(id) => Has(vrf, Certs) && exists e :: e in vrf.endpoints && e.id == id
    case Ikev2Profile(kind, id) => HasId(vrf, kind, id)
    case IpsecProfile(kind, id) => HasId(vrf, kind, id)
    case Tunnel(id) => HasId(vrf, Psk, id) || HasId(vrf, Certs, id)
    case Ipv6Routing => Has(vrf, Psk) || Has(vrf, Certs)
    case Bgp(localAs) => localAs == vrf.localAs && (SpeaksBgp(vrf, Psk) || SpeaksBgp(vrf, Certs))
  }

  /** What they refer to: tunnel to IPsec profile, that to IKEv2 profile and transform set,
      the IKEv2 profile to the keyring or its trustpoint, and the policy to the proposal. */
  predicate PlacedRef(vrf: Vrf, r: Resource, y: Resource) {
    match r
    case Policy(kind) => Has(vrf, kind) && y == Proposal(kind)
    case Ikev2Profile(kind, id) => HasId(vrf, kind, id) && y == if kind == Psk then Keyring(Psk) else Trustpoint(id)
    case IpsecProfile(kind, id) => HasId(vrf, kind, id) && (y == Ikev2Profile(kind, id) || y == TransformSet(kind))
    case Tunnel(id) => (HasId(vrf, Psk, id) && y == IpsecProfile(Psk, id)) || (HasId(vrf, Certs, id) && y == IpsecProfile(Certs, id))
    case _ => false
  }

  /** What a take-down asks the switch to delete: the BGP process in any case, and only the
      trustpoints of endpoints with certificates. */
  predicate Removed(vrf: Vrf, r: Resource) {
    match r
    case Trustpoint(id) => HasId(vrf, Certs, id)
    case Bgp(localAs) => localAs == vrf.localAs && (Has(vrf, Psk) || Has(vrf, Certs))
    case _ => Placed(vrf, r)
  }

  lemma SubsetIs(vrf: Vrf, kind: Kind)
    ensures Subset(vrf.endpoints, kind) != [] <==> Has(vrf, kind)
    ensures forall id :: id in Ids(Subset(vrf.endpoints, kind)) <==> HasId(vrf, kind, id)
  {
    var es := Subset(vrf.endpoints, kind);
    if es != [] { assert es[0] in es; }
    forall id ensures id in Ids(es) <==> HasId(vrf, kind, id) {}
  }

  lemma {:induction false} BgpSubsetIs(es: seq<Endpoint>)
    ensures BgpSubset(es, false) + BgpSubset(es, true) != [] <==> exists i :: 0 <= i < |es| && es[i].bgp
  {
    if es != [] {
      var front := es[..|es| - 1];
      BgpSubsetIs(front);
      assert forall i :: 0 <= i < |front| ==> front[i] == es[i];
    }
  }

  lemma FolderBgp(vrf: Vrf, kind: Kind)
    ensures FileCount(Subset(vrf.endpoints, kind)) == if SpeaksBgp(vrf, kind) then 9 else 8
  {
    var es := Subset(vrf.endpoints, kind);
    BgpSubsetIs(es);
    if SpeaksBgp(vrf, kind) {
      var e :| e in vrf.endpoints && IsA(e, kind) && e.bgp;
      assert e in es;
      var i :| 0 <= i < |es| && es[i] == e;
    }
    if i :| 0 <= i < |es| && es[i].bgp { assert es[i] in es; }
  }

  /** What the folder of one kind creates. */
  predicate PlacedOf(vrf: Vrf, kind: Kind, r: Resource) {
    match r
    case Proposal(k) => k == kind
    case Policy(k) => k == kind
    case TransformSet(k) => k == kind
    case Keyring(k) => k == kind == Psk
    case Trustpoint(id) => kind == Certs && HasId(vrf, Certs, id)
    case Ikev2Profile(k, id) => k == kind && HasId(vrf, kind, id)
    case IpsecProfile(k, id) => k == kind && HasId(vrf, kind, id)
    case Tunnel(id) => HasId(vrf, kind, id)
    case Ipv6Routing => true
    case Bgp(localAs) => localAs == vrf.localAs
  }

  lemma OwnIs(vrf: Vrf, kind: Kind, r: Resource)
    ensures OwnOf(kind, vrf, Subset(vrf.endpoints, kind), r) <==> PlacedOf(vrf, kind, r)
  {
    SubsetIs(vrf, kind);
  }

  lemma FolderTouched(vrf: Vrf, kind: Kind, r: Resource)
    ensures Touched(FolderPatches(kind, vrf, Subset(vrf.endpoints, kind)), r) <==>
      PlacedOf(vrf, kind, r) && (r.Bgp? ==> SpeaksBgp(vrf, kind))
  {
    var es := Subset(vrf.endpoints, kind);
    var qs := FolderPatches(kind, vrf, es);
    OwnIs(vrf, kind, r);
    FolderBgp(vrf, kind);
    RankBelowBgp(r);
    if i :| 0 <= i < |qs| && Touches(qs[i], r) { UrlsMatchBody(kind, i, vrf, es, r); }
    if Rank(r) < |qs| && OwnOf(kind, vrf, es, r) { assert Touches(qs[Rank(r)], r); }
  }

  lemma TouchedTwo(a: seq<Request>, b: seq<Request>, r: Resource)
    ensures Touched(a + b, r) <==> Touched(a, r) || Touched(b, r)
  {
    var qs := a + b;
    if i :| 0 <= i < |a| && Touches(a[i], r) { assert Touches(qs[i], r); }
    if i :| 0 <= i < |b| && Touches(b[i], r) { assert Touches(qs[|a| + i], r); }
  }

  lemma ImportsTouched(vrf: Vrf, r: Resource)
    ensures Touched(Imports(vrf.endpoints), r) <==> r.Trustpoint? && exists e :: e in vrf.endpoints && e.id == r.id
  {
    var es, qs := vrf.endpoints, Imports(vrf.endpoints);
    if i :| 0 <= i < |qs| && Touches(qs[i], r) { assert es[i] in es; }
    if r.Trustpoint? && exists e :: e in es && e.id == r.id {
      var e :| e in es && e.id == r.id;
      var i :| 0 <= i < |es| && es[i] == e;
      assert Touches(qs[i], r);
    }
  }

  lemma PskTouches(vrf: Vrf, r: Resource)
    ensures Touched(PskRequests(vrf), r) <==> Has(vrf, Psk) && PlacedOf(vrf, Psk, r) && (r.Bgp? ==> SpeaksBgp(vrf, Psk))
  {
    SubsetIs(vrf, Psk);
    if Has(vrf, Psk) { FolderTouched(vrf, Psk, r); }
  }

  predicate ImportedId(vrf: Vrf, r: Resource) { r.Trustpoint? && exists e :: e in vrf.endpoints && e.id == r.id }

  lemma CertsTouches(vrf: Vrf, r: Resource)
    ensures Touched(CertsRequests(vrf), r) <==>
      Has(vrf, Certs) && (ImportedId(vrf, r) || (PlacedOf(vrf, Certs, r) && (r.Bgp? ==> SpeaksBgp(vrf, Certs))))
  {
    SubsetIs(vrf, Certs);
    if Has(vrf, Certs) {
      FolderTouched(vrf, Certs, r);
      ImportsTouched(vrf, r);
      TouchedTwo(Imports(vrf.endpoints), FolderPatches(Certs, vrf, Subset(vrf.endpoints, Certs)), r);
    }
  }

  lemma IdImplies(vrf: Vrf, kind: Kind)
    ensures forall id :: HasId(vrf, kind, id) ==> Has(vrf, kind) && exists e :: e in vrf.endpoints && e.id == id
    ensures SpeaksBgp(vrf, kind) ==> Has(vrf, kind)
  {
  }

  /** The requests of a deployment create what is placed. */
  lemma CreateTouches(vrf: Vrf, r: Resource)
    ensures Touched(CreateRequests(vrf), r) <==> Placed(vrf, r)
  {
    TouchedTwo(PskRequests(vrf), CertsRequests(vrf), r);
    PskTouches(vrf, r);
    CertsTouches(vrf, r);
    PlacedByFolder(vrf, r);
  }

  lemma PlacedByFolder(vrf: Vrf, r: Resource)
    ensures Placed(vrf, r) <==>
      || (Has(vrf, Psk) && PlacedOf(vrf, Psk, r) && (r.Bgp? ==> SpeaksBgp(vrf, Psk)))
      || (Has(vrf, Certs) && (ImportedId(vrf, r) || (PlacedOf(vrf, Certs, r) && (r.Bgp? ==> SpeaksBgp(vrf, Certs)))))
  {
    IdImplies(vrf, Psk);
    IdImplies(vrf, Certs);
  }

  predicate Referred(qs: seq<Request>, r: Resource, y: Resource) {
    exists i :: 0 <= i < |qs| && Refers(qs[i], r, y)
  }

  lemma ReferredTwo(a: seq<Request>, b: seq<Request>, r: Resource, y: Resource)
    ensures Referred(a + b, r, y) <==> Referred(a, r, y) || Referred(b, r, y)
  {
    var qs := a + b;
    if i :| 0 <= i < |a| && Refers(a[i], r, y) { assert Refers(qs[i], r, y); }
    if i :| 0 <= i < |b| && Refers(b[i], r, y) { assert Refers(qs[|a| + i], r, y); }
  }

  predicate PlacedRefOf(vrf: Vrf, kind: Kind, r: Resource, y: Resource) {
    match r
    case Policy(k) => k == kind && y == Proposal(kind)
    case Ikev2Profile(k, id) => k == kind && HasId(vrf, kind, id) && y == if kind == Psk then Keyring(Psk) else Trustpoint(id)
    case IpsecProfile(k, id) => k == kind && HasId(vrf, kind, id) && (y == Ikev2Profile(kind, id) || y == TransformSet(kind))
    case Tunnel(id) => HasId(vrf, kind, id) && y == IpsecProfile(kind, id)
    case _ => false
  }

  lemma BodyReferences(vrf: Vrf, kind: Kind, r: Resource, y: Resource)
    ensures var body := Body(kind, Rank(r), vrf, Subset(vrf.endpoints, kind));
      (r in body && y in body[r]) <==> PlacedRefOf(vrf, kind, r, y)
  {
    match r
    case Ikev2Profile(k, id) => IkeReferences(vrf, kind, k, id, y);
    case IpsecProfile(k, id) => IpsecReferences(vrf, kind, k, id, y);
    case Tunnel(_) => SubsetIs(vrf, kind);
    case _ =>
  }

  lemma IkeReferences(vrf: Vrf, kind: Kind, k: Kind, id: nat, y: Resource)
    ensures var body, r := Body(kind, 3, vrf, Subset(vrf.endpoints, kind)), Ikev2Profile(k, id);
      (r in body && y in body[r]) <==> PlacedRefOf(vrf, kind, r, y)
  {
    SubsetIs(vrf, kind);
  }

  lemma IpsecReferences(vrf: Vrf, kind: Kind, k: Kind, id: nat, y: Resource)
    ensures var body, r := Body(kind, 5, vrf, Subset(vrf.endpoints, kind)), IpsecProfile(k, id);
      (r in body && y in body[r]) <==> PlacedRefOf(vrf, kind, r, y)
  {
    SubsetIs(vrf, kind);
  }

  lemma FolderReferred(vrf: Vrf, kind: Kind, r: Resource, y: Resource)
    ensures Referred(FolderPatches(kind, vrf, Subset(vrf.endpoints, kind)), r, y) <==> PlacedRefOf(vrf, kind, r, y)
  {
    var es := Subset(vrf.endpoints, kind);
    var qs := FolderPatches(kind, vrf, es);
    BodyReferences(vrf, kind, r, y);
    FolderBgp(vrf, kind);
    RankBelowBgp(r);
    if i :| 0 <= i < |qs| && Refers(qs[i], r, y) { UrlsMatchBody(kind, i, vrf, es, r); }
    if PlacedRefOf(vrf, kind, r, y) { assert Rank(r) < 8 && Refers(qs[Rank(r)], r, y); }
  }

  lemma PskReferences(vrf: Vrf, r: Resource, y: Resource)
    ensures Referred(PskRequests(vrf), r, y) <==> Has(vrf, Psk) && PlacedRefOf(vrf, Psk, r, y)
  {
    SubsetIs(vrf, Psk);
    if Has(vrf, Psk) { FolderReferred(vrf, Psk, r, y); }
  }

  lemma CertsReferences(vrf: Vrf, r: Resource, y: Resource)
    ensures Referred(CertsRequests(vrf), r, y) <==> Has(vrf, Certs) && PlacedRefOf(vrf, Certs, r, y)
  {
    SubsetIs(vrf, Certs);
    if Has(vrf, Certs) {
      FolderReferred(vrf, Certs, r, y);
      ReferredTwo(Imports(vrf.endpoints), FolderPatches(Certs, vrf, Subset(vrf.endpoints, Certs)), r, y);
      assert !Referred(Imports(vrf.endpoints), r, y);
    }
  }

  lemma CreateReferences(vrf: Vrf, r: Resource, y: Resource)
    ensures Referred(CreateRequests(vrf), r, y) <==> PlacedRef(vrf, r, y)
  {
    ReferredTwo(PskRequests(vrf), CertsRequests(vrf), r, y);
    PskReferences(vrf, r, y);
    CertsReferences(vrf, r, y);
    RefByFolder(vrf, r, y);
  }

  lemma RefByFolder(vrf: Vrf, r: Resource, y: Resource)
    ensures PlacedRef(vrf, r, y) <==> (Has(vrf, Psk) && PlacedRefOf(vrf, Psk, r, y)) || (Has(vrf, Certs) && PlacedRefOf(vrf, Certs, r, y))
  {
    IdImplies(vrf, Psk);
    IdImplies(vrf, Certs);
  }

  /** References are merged: the old ones stay and the new ones are added. */
  lemma {:induction false} AppliedReferences(c: Config, qs: seq<Request>, r: Resource, y: Resource)
    requires Creating(qs) && r in ApplyAll(c, qs)
    ensures y in ApplyAll(c, qs)[r] <==> (r in c && y in c[r]) || Referred(qs, r, y)
  {
    if qs != [] {
      var front, q := qs[..|qs| - 1], qs[|qs| - 1];
      assert forall i :: 0 <= i < |front| ==> front[i] == qs[i];
      ApplyAllEffect(c, front, r);
      if r in ApplyAll(c, front) { AppliedReferences(c, front, r, y); }
      assert Referred(qs, r, y) <==> Referred(front, r, y) || Refers(q, r, y);
      if Referred(front, r, y) { ReferredTouched(front, r, y); }
    }
  }

  lemma ReferredTouched(qs: seq<Request>, r: Resource, y: Resource)
    requires Referred(qs, r, y)
    ensures Touched(qs, r)
  {
    var i :| 0 <= i < |qs| && Refers(qs[i], r, y);
    assert Touches(qs[i], r);
  }

  /** At this resource `after` is what was there before and what is placed, with the
      references from before and those of the templates. */
  predicate Leaves(before: Config, after: Config, vrf: Vrf, r: Resource, y: Resource) {
    && (r in after <==> r in before || Placed(vrf, r))
    && (r in after ==> (y in after[r] <==> (r in before && y in before[r]) || PlacedRef(vrf, r, y)))
  }

  /** A deployment that reports success leaves exactly that, of every resource. */
  lemma DeploymentLeaves(replies: nat -> Reply, d: Device, vrf: Vrf, r: Resource, y: Resource)
    requires Generate(replies, d, vrf).1
    ensures Leaves(d.config, Generate(replies, d, vrf).0.config, vrf, r, y)
  {
    var k := GenerateSent(replies, d, vrf);
    assert CreateRequests(vrf)[..k] == CreateRequests(vrf);
    CreateRequestsCreate(vrf);
    ApplyAllEffect(d.config, CreateRequests(vrf), r);
    CreateTouches(vrf, r);
    CreateReferences(vrf, r, y);
    if r in Generate(replies, d, vrf).0.config { AppliedReferences(d.config, CreateRequests(vrf), r, y); }
  }

  /** The endpoint has its tunnel and all that the tunnel hangs on. */
  predicate Complete(c: Config, vrf: Vrf, e: Endpoint, kind: Kind) {
    var credential := if kind == Psk then Keyring(Psk) else Trustpoint(e.id);
    && Linked(c, Tunnel(e.id), IpsecProfile(kind, e.id))
    && Linked(c, IpsecProfile(kind, e.id), Ikev2Profile(kind, e.id)) && Linked(c, IpsecProfile(kind, e.id), TransformSet(kind))
    && Linked(c, Ikev2Profile(kind, e.id), credential) && Linked(c, Policy(kind), Proposal(kind))
    && Ipv6Routing in c && (e.bgp ==> Bgp(vrf.localAs) in c)
  }

  predicate Linked(c: Config, r: Resource, y: Resource) { r in c && y in c[r] && y in c }

  lemma LinkLeft(before: Config, after: Config, vrf: Vrf, r: Resource, y: Resource)
    requires Leaves(before, after, vrf, r, y) && Leaves(before, after, vrf, y, r)
    requires Placed(vrf, r) && PlacedRef(vrf, r, y) && Placed(vrf, y)
    ensures Linked(after, r, y)
  {
  }

  lemma CompleteLeft(before: Config, after: Config, vrf: Vrf, e: Endpoint, kind: Kind)
    requires (forall r, y :: Leaves(before, after, vrf, r, y)) && e in vrf.endpoints && IsA(e, kind)
    ensures Complete(after, vrf, e, kind)
  {
    assert HasId(vrf, kind, e.id) && Has(vrf, kind) && (e.bgp ==> SpeaksBgp(vrf, kind));
    ChainLeft(before, after, vrf, e, kind);
    var credential := if kind == Psk then Keyring(Psk) else Trustpoint(e.id);
    LinkLeft(before, after, vrf, Ikev2Profile(kind, e.id), credential);
    LinkLeft(before, after, vrf, Policy(kind), Proposal(kind));
    assert Leaves(before, after, vrf, Bgp(vrf.localAs), Ipv6Routing) && Leaves(before, after, vrf, Ipv6Routing, Ipv6Routing);
  }

  lemma ChainLeft(before: Config, after: Config, vrf: Vrf, e: Endpoint, kind: Kind)
    requires (forall r, y :: Leaves(before, after, vrf, r, y)) && HasId(vrf, kind, e.id) && Has(vrf, kind)
    ensures Linked(after, Tunnel(e.id), IpsecProfile(kind, e.id))
    ensures Linked(after, IpsecProfile(kind, e.id), Ikev2Profile(kind, e.id))
    ensures Linked(after, IpsecProfile(kind, e.id), TransformSet(kind))
  {
    LinkLeft(before, after, vrf, Tunnel(e.id), IpsecProfile(kind, e.id));
    LinkLeft(before, after, vrf, IpsecProfile(kind, e.id), Ikev2Profile(kind, e.id));
    LinkLeft(before, after, vrf, IpsecProfile(kind, e.id), TransformSet(kind));
  }

  /** After a deployment that reports success every endpoint with a pre-shared key or
      certificates is complete. */
  lemma EndpointDeployed(replies: nat -> Reply, d: Device, vrf: Vrf, e: Endpoint, kind: Kind)
    requires Generate(replies, d, vrf).1 && e in vrf.endpoints && IsA(e, kind)
    ensures Complete(Generate(replies, d, vrf).0.config, vrf, e, kind)
  {
    forall r, y ensures Leaves(d.config, Generate(replies, d, vrf).0.config, vrf, r, y) {
      DeploymentLeaves(replies, d, vrf, r, y);
    }
    CompleteLeft(d.config, Generate(replies, d, vrf).0.config, vrf, e, kind);
  }

  /** A take-down on a switch that refuses nothing removes exactly what it asks for, and
      what stays refers to what it did. */
  lemma TakeDownRemoves(replies: nat -> Reply, d: Device, vrf: Vrf, r: Resource)
    requires Willing(replies)
    ensures var c := TakeDown(replies, d, vrf).config;
      (r in c <==> r in d.config && !Removed(vrf, r)) && (r in c ==> c[r] == d.config[r])
  {
    DeleteAllWilling(replies, d, DeleteUrls(vrf));
    DeleteUrlsOwn(vrf, r);
    SubsetIs(vrf, Psk);
    SubsetIs(vrf, Certs);
    OwnIs(vrf, Psk, r);
    OwnIs(vrf, Certs, r);
  }

  /** A request that leaves row 1 active, to a switch that accepts what is created: every
      endpoint of the new row is complete, whatever was there before and whatever deletes
      were refused. */
  lemma PatchDeploys(s: HardwareRuns.State, op: HardwareRuns.Op, e: Endpoint, kind: Kind)
    requires op.PatchRow? && op.reached && op.row.active == Some(true) && Willing(op.create) && Deployable(op.row)
    requires e in op.row.endpoints && IsA(e, kind)
    ensures var s' := HardwareRuns.Step(s, op);
      s'.row == op.row && Complete(s'.dev.config, op.row, e, kind)
  {
    var before := if Lifecycle.IsActive(s.row) then TakeDown(op.delete, s.dev, s.row) else s.dev;
    GenerateSucceeds(op.create, before, op.row);
    EndpointDeployed(op.create, before, op.row, e, kind);
  }

  /** What row 1 loses when it is made inactive, or deleted, active or not, and the switch
      accepts the deletes. */
  lemma StepTakesDown(s: HardwareRuns.State, op: HardwareRuns.Op, r: Resource)
    requires op.reached && Willing(op.delete)
    requires op.PatchRow? ==> s.row.active == Some(true) && op.row.active != Some(true)
    ensures var c := HardwareRuns.Step(s, op).dev.config;
      (r in c <==> r in s.dev.config && !Removed(s.row, r)) && (r in c ==> c[r] == s.dev.config[r])
  {
    TakeDownRemoves(op.delete, s.dev, s.row, r);
  }

  /** The switch is not touched when it is not reached, or when the row is inactive before
      and after a patch. The row follows the request in any case. */
  lemma StepLeavesAlone(s: HardwareRuns.State, op: HardwareRuns.Op)
    ensures !op.reached || (op.PatchRow? && s.row.active != Some(true) && op.row.active != Some(true)) ==>
      HardwareRuns.Step(s, op).dev == s.dev
    ensures op.PatchRow? ==> HardwareRuns.Step(s, op).row == op.row
    ensures op.RemoveRow? ==> HardwareRuns.Step(s, op).row == HardwareRuns.Run(s.dev.config, []).row
  {
  }
}
