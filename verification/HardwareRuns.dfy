/** The hardware VRF over whole runs of its requests: what accumulates on the switch. */
module HardwareRuns {
  import opened Types
  import opened Switch
  import opened HardwareGenerator
  import opened HardwareProofs
  import opened HardwareRemoval
  import Lifecycle

  /** Patching row 1 and deleting it. `reached` is false when the stored credentials or
      algorithms cannot be read, so that nothing is sent; otherwise the switch gives these
      replies to what is created and to what is deleted. */
  datatype Op =
    | PatchRow(row: Vrf, reached: bool, create: nat -> Reply, delete: nat -> Reply)
    | RemoveRow(reached: bool, delete: nat -> Reply)

  /** Row 1 and the switch; and for the account of it: the creating requests accepted since
      the last take-down, the shared resources that take-downs named so far, the ids of
      trustpoints left so far, and what take-downs named and did not take away. */
  datatype State = State(row: Vrf, dev: Device, sent: seq<Request>, gone: set<Resource>, left: set<nat>, kept: Config)

  function CertIds(vrf: Vrf): set<nat> { Ids(Subset(vrf.endpoints, Certs)) }

  function ImportedIds(vrf: Vrf, qs: seq<Request>): set<nat> {
    set id | id in Ids(vrf.endpoints) && Import(id) in qs
  }

  function Kept(c: Config, urls: seq<Resource>): Config { map r | r in c && r in urls :: c[r] }

  /** Deleting the configuration of row 1. */
  function TakenDown(s: State, reached: bool, delete: nat -> Reply): State {
    var dev, urls := if reached then TakeDown(delete, s.dev, s.row) else s.dev, DeleteUrls(s.row);
    s.(dev := dev, sent := [], gone := s.gone + Shared(s.row),
       left := s.left + ImportedIds(s.row, s.sent) - CertIds(s.row),
       kept := Without(s.kept, urls) + Kept(dev.config, urls))
  }

  function Put(s: State, row: Vrf, reached: bool, create: nat -> Reply): State {
    var dev := if reached then Generate(create, s.dev, row).0 else s.dev;
    s.(row := row, dev := dev, sent := AcceptedBetween(s.dev, dev))
  }

  /** _updateBackends and deleteVrf for the hardware VRF; deleting takes down whatever the
      row's flag is. A take-down that does not reach the switch is an error, and then
      nothing is put. */
  function Step(s: State, op: Op): State {
    match op
    case PatchRow(row, reached, create, delete) =>
      if !Lifecycle.IsActive(s.row) && !Lifecycle.IsActive(row) then s.(row := row)
      else if !Lifecycle.IsActive(s.row) then Put(s, row, reached, create)
      else if !Lifecycle.IsActive(row) || !reached then TakenDown(s, reached, delete).(row := row)
      else Put(TakenDown(s, reached, delete), row, reached, create)
    case RemoveRow(reached, delete) => TakenDown(s, reached, delete).(row := Lifecycle.HARDWARE_ROW)
  }

  function Run(c: Config, ops: seq<Op>): State {
    if ops == [] then State(Lifecycle.HARDWARE_ROW, Device(c, 0, []), [], {}, {}, map[])
    else Step(Run(c, ops[..|ops| - 1]), ops[|ops| - 1])
  }

  function Trustpoints(ids: set<nat>): Config { map id | id in ids :: Trustpoint(id) := {} }

  /** The switch as it was, without the shared resources, with the trustpoints and with
      what was not taken away. */
  function Rest(c: Config, gone: set<Resource>, left: set<nat>, kept: Config): Config {
    (c - gone) + Trustpoints(left) + kept
  }

  lemma RestAtOne(c: Config, gone: set<Resource>, left: set<nat>, kept: Config, r: Resource)
    ensures r in Rest(c, gone, left, kept) <==> r in kept || (r in c && r !in gone) || (r.Trustpoint? && r.id in left)
    ensures r in Rest(c, gone, left, kept) ==>
      Rest(c, gone, left, kept)[r] == if r in kept then kept[r] else if r.Trustpoint? && r.id in left then {} else c[r]
  {
  }

  /** Trustpoints refer to nothing. */
  predicate PlainTrustpoints(c: Config) {
    forall r :: r in c && r.Trustpoint? ==> c[r] == {}
  }

  lemma WithoutOne(c: Config, urls: seq<Resource>, r: Resource)
    ensures r in Without(c, urls) <==> r in c && r !in urls
    ensures r in Without(c, urls) ==> Without(c, urls)[r] == c[r]
  {
  }

  /** `after` is what a take-down, complete or not, makes of `before`. */
  ghost predicate Reduces(before: Config, after: Config, urls: seq<Resource>) {
    && (forall r :: r in after ==> r in before && after[r] == before[r])
    && (forall r :: r in before && r !in urls ==> r in after)
  }

  lemma TakeDownReduces(replies: nat -> Reply, d: Device, urls: seq<Resource>)
    ensures Reduces(d.config, DeleteAll(replies, d, urls).config, urls)
  {
    forall r: Resource ensures var d' := DeleteAll(replies, d, urls);
      && (r in d'.config ==> r in d.config && d'.config[r] == d.config[r])
      && (r in d.config && r !in urls ==> r in d'.config)
    {
      DeleteAllEffect(replies, d, urls, r);
    }
  }

  /** A take-down after the first m requests, one resource at a time. */
  lemma RestDeleteOne(c: Config, s: State, vrf: Vrf, m: nat, after: Config, r: Resource)
    requires Unused(c, vrf) && m <= |CreateRequests(vrf)| && PlainTrustpoints(s.kept)
    requires Reduces(ApplyAll(Rest(c, s.gone, s.left, s.kept), CreateRequests(vrf)[..m]), after, DeleteUrls(vrf))
    ensures var qs, urls := CreateRequests(vrf)[..m], DeleteUrls(vrf);
      SameThere(after, Rest(c, s.gone + Shared(vrf), s.left + ImportedIds(vrf, qs) - CertIds(vrf),
                            Without(s.kept, urls) + Kept(after, urls)), r)
  {
    var qs, urls := CreateRequests(vrf)[..m], DeleteUrls(vrf);
    var base, kept := Rest(c, s.gone, s.left, s.kept), Without(s.kept, urls) + Kept(after, urls);
    WithoutOne(s.kept, urls, r);
    DeleteUrlsOwn(vrf, r);
    SharedIsOwn(vrf, r);
    RestAtOne(c, s.gone, s.left, s.kept, r);
    RestAtOne(c, s.gone + Shared(vrf), s.left + ImportedIds(vrf, qs) - CertIds(vrf), kept, r);
    if r.Trustpoint? {
      TrustpointUnused(c, vrf, m, r);
      TrustpointAfter(base, vrf, m, r);
    } else if r !in urls {
      OtherAfter(base, vrf, m, r);
    }
  }

  /** A trustpoint is on the switch when it was or has been imported or created. */
  lemma TrustpointAfter(base: Config, vrf: Vrf, m: nat, r: Resource)
    requires m <= |CreateRequests(vrf)| && r.Trustpoint? && (r in base && r.id in ImportedIds(vrf, CreateRequests(vrf)[..m]) ==> base[r] == {})
    ensures var qs := CreateRequests(vrf)[..m];
      var c' := ApplyAll(base, qs);
      && OwnTrustpoint(vrf, r.id)
      && (r.id !in CertIds(vrf) ==>
            && (r in c' <==> r in base || r.id in ImportedIds(vrf, qs))
            && (r in c' ==> c'[r] == if r in base then base[r] else {}))
  {
    var qs := CreateRequests(vrf)[..m];
    CreateRequestsCreate(vrf);
    assert Creating(qs);
    OwnTrustpoints(vrf, r.id);
    ApplyAllEffect(base, qs, r);
    if r.id !in CertIds(vrf) {
      PrefixTouches(vrf, m, r);
      forall y ensures r in ApplyAll(base, qs) && y in ApplyAll(base, qs)[r] ==> r in base && y in base[r] {
        if i :| 0 <= i < |qs| && Refers(qs[i], r, y) { var _ := CreateRefers(vrf, i, r, y); }
      }
    }
  }

  predicate OwnTrustpoint(vrf: Vrf, id: nat) {
    (Own(vrf, Psk, Trustpoint(id)) || Own(vrf, Certs, Trustpoint(id))) <==> id in CertIds(vrf)
  }

  /** What else is there is created and deleted by name. */
  lemma OtherAfter(base: Config, vrf: Vrf, m: nat, r: Resource)
    requires m <= |CreateRequests(vrf)| && !r.Trustpoint? && !Own(vrf, Psk, r) && !Own(vrf, Certs, r)
    ensures var c' := ApplyAll(base, CreateRequests(vrf)[..m]);
      (r in c' <==> r in base) && (r in c' ==> c'[r] == base[r])
  {
    var qs := CreateRequests(vrf)[..m];
    CreateRequestsCreate(vrf);
    assert Creating(qs);
    ApplyAllEffect(base, qs, r);
    PrefixTouches(vrf, m, r);
  }

  /** A trustpoint that the VRF owns or imports is not the machine's own. */
  lemma TrustpointUnused(c: Config, vrf: Vrf, m: nat, r: Resource)
    requires Unused(c, vrf) && r.Trustpoint? && m <= |CreateRequests(vrf)|
    ensures r.id in CertIds(vrf) || r.id in ImportedIds(vrf, CreateRequests(vrf)[..m]) ==> r !in c
  {
    OwnTrustpoints(vrf, r.id);
    if r.id in ImportedIds(vrf, CreateRequests(vrf)[..m]) {
      var i :| 0 <= i < m && CreateRequests(vrf)[..m][i] == Import(r.id);
      assert CreateRequests(vrf)[i] == Import(r.id);
      ImportSent(vrf, r.id);
    }
  }

  predicate SameThere(a: Config, b: Config, r: Resource) {
    (r in a <==> r in b) && (r in a ==> a[r] == b[r])
  }

  lemma SameEverywhere(a: Config, b: Config)
    requires forall r :: SameThere(a, b, r)
    ensures a == b
  {
    forall r: Resource ensures (r in a <==> r in b) && (r in a ==> a[r] == b[r]) { assert SameThere(a, b, r); }
  }

  /** Neither kept nor created trustpoints refer to anything. */
  lemma KeptPlain(c: Config, s: State, vrf: Vrf, m: nat, after: Config)
    requires Unused(c, vrf) && m <= |CreateRequests(vrf)| && PlainTrustpoints(s.kept)
    requires Reduces(ApplyAll(Rest(c, s.gone, s.left, s.kept), CreateRequests(vrf)[..m]), after, DeleteUrls(vrf))
    ensures PlainTrustpoints(Without(s.kept, DeleteUrls(vrf)) + Kept(after, DeleteUrls(vrf)))
  {
    var base, qs, urls := Rest(c, s.gone, s.left, s.kept), CreateRequests(vrf)[..m], DeleteUrls(vrf);
    forall r | r in Kept(after, urls) && r.Trustpoint? ensures after[r] == {} {
      DeleteUrlsOwn(vrf, r);
      TrustpointUnused(c, vrf, m, r);
      OwnTrustpoints(vrf, r.id);
      RestAtOne(c, s.gone, s.left, s.kept, r);
      PlainAfter(base, vrf, m, r);
    }
  }

  lemma PlainAfter(base: Config, vrf: Vrf, m: nat, r: Resource)
    requires m <= |CreateRequests(vrf)| && r.Trustpoint? && (r in base ==> base[r] == {})
    ensures var c' := ApplyAll(base, CreateRequests(vrf)[..m]); r in c' ==> c'[r] == {}
  {
    var qs := CreateRequests(vrf)[..m];
    CreateRequestsCreate(vrf);
    assert Creating(qs);
    ApplyAllEffect(base, qs, r);
    forall y ensures r in ApplyAll(base, qs) ==> y !in ApplyAll(base, qs)[r] {
      if i :| 0 <= i < |qs| && Refers(qs[i], r, y) { var _ := CreateRefers(vrf, i, r, y); }
    }
  }

  /** The switch is what is left of before, and on it the accepted part of the current
      deployment. */
  ghost predicate Accounted(c: Config, s: State) {
    && |s.sent| <= |CreateRequests(s.row)| && s.sent == CreateRequests(s.row)[..|s.sent|]
    && s.dev.config == ApplyAll(Rest(c, s.gone, s.left, s.kept), s.sent)
    && PlainTrustpoints(s.kept)
    && (!Lifecycle.IsActive(s.row) ==> s.sent == [])
  }

  lemma TakenDownAccounted(c: Config, s: State, reached: bool, delete: nat -> Reply)
    requires Accounted(c, s) && Unused(c, s.row)
    ensures var s' := TakenDown(s, reached, delete);
      s'.sent == [] && s'.dev.config == Rest(c, s'.gone, s'.left, s'.kept) && PlainTrustpoints(s'.kept)
  {
    var s', m := TakenDown(s, reached, delete), |s.sent|;
    TakeDownReduces(delete, s.dev, DeleteUrls(s.row));
    var rest := Rest(c, s'.gone, s'.left, s'.kept);
    KeptPlain(c, s, s.row, m, s'.dev.config);
    forall r: Resource ensures SameThere(s'.dev.config, rest, r) { RestDeleteOne(c, s, s.row, m, s'.dev.config, r); }
    SameEverywhere(s'.dev.config, rest);
  }

  lemma PutAccounted(c: Config, s: State, row: Vrf, reached: bool, create: nat -> Reply)
    requires s.dev.config == Rest(c, s.gone, s.left, s.kept) && PlainTrustpoints(s.kept) && Lifecycle.IsActive(row)
    ensures Accounted(c, Put(s, row, reached, create))
  {
    if reached {
      var k := GenerateSent(create, s.dev, row);
      assert Put(s, row, reached, create).sent == CreateRequests(row)[..k];
    }
  }

  lemma StepAccounted(c: Config, s: State, op: Op)
    requires Accounted(c, s) && Unused(c, s.row)
    ensures Accounted(c, Step(s, op))
  {
    var s' := TakenDown(s, op.reached, op.delete);
    TakenDownAccounted(c, s, op.reached, op.delete);
    match op
    case PatchRow(row, reached, create, delete) =>
      if !Lifecycle.IsActive(s.row) {
        if Lifecycle.IsActive(row) { PutAccounted(c, s, row, reached, create); } else { NothingSent(c, s, row); }
      } else if !Lifecycle.IsActive(row) || !reached {
        NothingSent(c, s', row);
      } else {
        PutAccounted(c, s', row, reached, create);
      }
    case RemoveRow(reached, delete) => NothingSent(c, s', Lifecycle.HARDWARE_ROW);
  }

  lemma NothingSent(c: Config, s: State, row: Vrf)
    requires s.sent == [] && s.dev.config == Rest(c, s.gone, s.left, s.kept) && PlainTrustpoints(s.kept)
    ensures Accounted(c, s.(row := row))
  {
  }

  /** Over every run of patches and deletes of row 1, whether they reach the switch or not
      and whatever it answers: the switch is as it was, without the shared resources that
      take-downs named, with exactly the trustpoints that were imported in some deployment
      and not named by a take-down since, with what a take-down named and did not take away,
      and with what was accepted of the current deployment. */
  lemma {:induction false} RunAccounted(c: Config, ops: seq<Op>)
    requires forall op :: op in ops && op.PatchRow? ==> Unused(c, op.row)
    ensures var s := Run(c, ops);
      && Accounted(c, s) && Unused(c, s.row)
      && (!Lifecycle.IsActive(s.row) ==> s.dev.config == Rest(c, s.gone, s.left, s.kept))
  {
    if ops == [] {
      NothingGone(c);
      DefaultUnused(c);
    } else {
      var op := ops[|ops| - 1];
      assert op in ops;
      RunAccounted(c, ops[..|ops| - 1]);
      DefaultUnused(c);
      StepAccounted(c, Run(c, ops[..|ops| - 1]), op);
    }
  }

  /** When every take-down reaches the switch and no delete is refused, nothing is kept. */
  lemma {:induction false} WillingKeepsNothing(c: Config, ops: seq<Op>)
    requires forall op :: op in ops ==> op.reached && Willing(op.delete)
    ensures Run(c, ops).kept == map[]
  {
    if ops != [] {
      var op, s := ops[|ops| - 1], Run(c, ops[..|ops| - 1]);
      assert op in ops;
      WillingKeepsNothing(c, ops[..|ops| - 1]);
      DeleteAllWilling(op.delete, s.dev, DeleteUrls(s.row));
      assert TakenDown(s, true, op.delete).kept == map[];
    }
  }

  /** A patch of an active row that does not reach the switch: what was there of the row's
      own resources is kept. */
  lemma UnreachedKeeps(s: State, op: Op, r: Resource)
    requires op.PatchRow? && !op.reached && Lifecycle.IsActive(s.row) && r in s.dev.config && r in DeleteUrls(s.row)
    ensures var s' := Step(s, op); r in s'.dev.config && r in s'.kept && s'.row == op.row && s'.sent == []
  {
  }

  /** The row that ensureHWVRF makes has no endpoints. */
  lemma DefaultUnused(c: Config)
    ensures Unused(c, Lifecycle.HARDWARE_ROW)
  {
  }

  lemma NothingGone(c: Config)
    ensures Rest(c, {}, {}, map[]) == c
  {
    forall r: Resource ensures SameThere(Rest(c, {}, {}, map[]), c, r) { RestAtOne(c, {}, {}, map[], r); }
    SameEverywhere(Rest(c, {}, {}, map[]), c);
  }
}
