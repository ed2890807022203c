/** FRR's BGP and OSPF instances over whole runs. */
module FrrRuns {
  import opened Text
  import opened Crypto
  import opened Types
  import opened Validation
  import opened SupervisorEnv
  import opened SoftwareGenerator
  import opened DeploymentProofs
  import opened Lifecycle
  import opened LifecycleProofs
  import opened LifecycleRuns

  /** A VRF needs BGP when it has OSPF to redistribute or an endpoint that speaks BGP, and
      an AS number to do it with. */
  predicate NeedsBgp(row: Vrf) { (row.ospf == Some(true) || HasBgp(row)) && row.localAs != 0 }

  /** BGP instances are exactly those of the active software rows that need one, with the
      rows' AS numbers. */
  ghost predicate BgpAsNeeded(rows: map<nat, Vrf>, bgp: map<nat, nat>) {
    && (forall id :: id in bgp <==> IsDeployed(rows, id) && NeedsBgp(rows[id]))
    && (forall id :: id in bgp ==> bgp[id] == rows[id].localAs)
  }

  /** The code gets to its decision about FRR only when the OSPF flag is there. */
  predicate GetsBgp(row: Vrf) { NeedsBgp(row) && row.ospf.Some? }

  predicate RunsBgp(rows: map<nat, Vrf>, id: nat) { IsDeployed(rows, id) && GetsBgp(rows[id]) }

  /** BGP instances are exactly those of the active software rows that need one and have
      an OSPF flag; `but` has none. */
  ghost predicate BgpAgreesBut(rows: map<nat, Vrf>, bgp: map<nat, nat>, but: nat) {
    && (forall id :: id in bgp <==> id != but && RunsBgp(rows, id))
    && (forall id :: id in bgp ==> bgp[id] == rows[id].localAs)
  }

  ghost predicate BgpAgrees(rows: map<nat, Vrf>, bgp: map<nat, nat>) {
    && (forall id :: id in bgp <==> RunsBgp(rows, id))
    && (forall id :: id in bgp ==> bgp[id] == rows[id].localAs)
  }

  /** An active VRF that needs BGP, and deploying it tripped over the missing OSPF flag. */
  predicate MissesBgp(rows: map<nat, Vrf>, id: nat) {
    IsDeployed(rows, id) && NeedsBgp(rows[id]) && rows[id].ospf.None?
  }

  lemma AgreesIsNeeded(rows: map<nat, Vrf>, bgp: map<nat, nat>)
    requires BgpAgrees(rows, bgp)
    ensures BgpAsNeeded(rows, bgp) <==> forall id :: !MissesBgp(rows, id)
  {
    if BgpAsNeeded(rows, bgp) {
      forall id ensures !MissesBgp(rows, id) { assert id in bgp <==> RunsBgp(rows, id); }
    }
    if forall id :: !MissesBgp(rows, id) {
      forall id ensures id in bgp <==> IsDeployed(rows, id) && NeedsBgp(rows[id]) {
        assert !MissesBgp(rows, id);
        assert id in bgp <==> RunsBgp(rows, id);
      }
    }
  }

  lemma RunFrrCommands(frr: Frr, v: Vrf)
    ensures RunCommands(frr, FrrCommands(v)) ==
      var frr1 := RunCommand(frr, RouterBgp(v.localAs, v.id, PeerIps(v.endpoints)));
      if v.ospf == Some(true) then frr1.(ospf := frr1.ospf + {v.id}) else frr1
  {
    var c := RouterBgp(v.localAs, v.id, PeerIps(v.endpoints));
    assert [c][..0] == [];
    assert RunCommands(frr, [c]) == RunCommand(frr, c);
    if v.ospf == Some(true) {
      assert FrrCommands(v)[..1] == [c];
    } else {
      assert FrrCommands(v) == [c];
    }
  }

  lemma {:induction false} WriteAllFrr(o: Faults, w: World, ws: seq<(string, Content)>)
    ensures WriteAll(o, w, ws).0.frr == w.frr
  {
    if ws != [] { WriteAllFrr(o, w, ws[..|ws| - 1]); }
  }

  /** What a deployment without faults does to FRR, also one that crashes. */
  lemma GenerateFrr(o: Faults, w: World, v: Vrf)
    requires NoFaults(o) && Environ(v).Some?
    ensures var frr := GenerateConfigs(o, w, v).0.frr;
      && frr.bgp == (if GetsBgp(v) && v.id !in w.frr.bgp then w.frr.bgp[v.id := v.localAs] else w.frr.bgp)
      && frr.ospf == (if v.ospf == Some(true) then w.frr.ospf + {v.id} else w.frr.ospf)
  {
    WriteAllNoFaults(o, w, CertWrites(v.clientName, v.endpoints));
    WriteAllFrr(o, w, CertWrites(v.clientName, v.endpoints));
    RunFrrCommands(w.frr, v);
  }

  lemma BgpTakenDown(rows: map<nat, Vrf>, frr: Frr, id: nat)
    requires BgpAgrees(rows, frr.bgp) && id in rows
    ensures BgpAgreesBut(rows, RunCommand(frr, NoRouterBgp(rows[id].localAs, id)).bgp, id)
  {
  }

  /** Taking down an instance needs the AS number it runs with, and the stored row has it. */
  lemma ClearedBgp(k: Keys, o: Faults, s: App, id: nat, old_: Vrf)
    requires Consistent(k, s) && NoFaults(o) && id != HARDWARE_VRF_ID && BgpAgrees(s.rows, s.world.frr.bgp)
    requires if id in s.rows then old_ == s.rows[id] else !IsActive(old_)
    ensures BgpAgreesBut(s.rows, Cleared(o, s.world, old_).frr.bgp, id)
    ensures Cleared(o, s.world, old_).frr.ospf == s.world.frr.ospf
  {
    if IsActive(old_) {
      DeleteStored(k, o, s, id);
      BgpTakenDown(s.rows, s.world.frr, id);
    }
  }

  lemma DeployClears(o: Faults, w: World, v: Vrf, old_: Vrf, hwOk: bool)
    requires v.id != HARDWARE_VRF_ID && (IsActive(old_) ==> DeleteConfigs(o, w, old_).1)
    ensures Deploy(o, w, v, old_, hwOk).0 ==
      if IsActive(v) then GenerateConfigs(o, Cleared(o, w, old_), v).0 else Cleared(o, w, old_)
  {
  }

  lemma BgpDeployed(rows: map<nat, Vrf>, bgp: map<nat, nat>, id: nat, row: Vrf)
    requires BgpAgreesBut(rows, bgp, id) && id != HARDWARE_VRF_ID && IsActive(row)
    ensures BgpAgrees(rows[id := row], if GetsBgp(row) && id !in bgp then bgp[id := row.localAs] else bgp)
  {
  }

  lemma BgpInactive(rows: map<nat, Vrf>, bgp: map<nat, nat>, id: nat, row: Vrf)
    requires BgpAgreesBut(rows, bgp, id) && !IsActive(row)
    ensures BgpAgrees(rows[id := row], bgp)
  {
  }

  lemma BgpDeleted(rows: map<nat, Vrf>, bgp: map<nat, nat>, id: nat)
    requires BgpAgreesBut(rows, bgp, id)
    ensures BgpAgrees(rows - {id}, bgp)
  {
  }

  lemma BgpIdle(rows: map<nat, Vrf>, rows': map<nat, Vrf>, bgp: map<nat, nat>)
    requires BgpAgrees(rows, bgp) && SameSoftware(rows, rows')
    ensures BgpAgrees(rows', bgp)
  {
    forall id ensures RunsBgp(rows, id) <==> RunsBgp(rows', id) {}
  }

  /** Sealing does not touch what the decision about FRR looks at. */
  lemma PlainNeeds(k: Keys, row: Vrf)
    requires Unseal(k, row).Ok?
    ensures var plain := Unseal(k, row).value;
      && plain.id == row.id && plain.localAs == row.localAs && plain.ospf == row.ospf && plain.active == row.active
      && HasBgp(plain) == HasBgp(row)
  {
    PlainShape(k, row);
    var es, es' := row.endpoints, Unseal(k, row).value.endpoints;
    assert forall i :: 0 <= i < |es| ==> es'[i].bgp == es[i].bgp;
  }

  lemma RowsFrr(k: Keys, o: Faults, w: World, row: Vrf)
    requires NoFaults(o) && Unseal(k, row).Ok? && ValidAddresses(row)
    ensures var frr := GenerateConfigs(o, w, Unseal(k, row).value).0.frr;
      && frr.bgp == (if GetsBgp(row) && row.id !in w.frr.bgp then w.frr.bgp[row.id := row.localAs] else w.frr.bgp)
      && frr.ospf == (if row.ospf == Some(true) then w.frr.ospf + {row.id} else w.frr.ospf)
  {
    PlainNeeds(k, row);
    PlainPaths(k, row);
    GenerateFrr(o, w, Unseal(k, row).value);
  }

  /** A software row is replaced and deployed: BGP follows, also when the AS changed and
      when the handler panics, and OSPF grows by the row's id if the row wants it. */
  lemma DeployBgp(k: Keys, o: Faults, s: App, id: nat, row: Vrf, old_: Vrf, hwOk: bool)
    requires Consistent(k, s) && NoFaults(o) && RowFits(k, s.rows, id, row) && BgpAgrees(s.rows, s.world.frr.bgp)
    requires if id in s.rows then old_ == s.rows[id] else !IsActive(old_)
    ensures var w := Deploy(o, s.world, Unseal(k, row).value, old_, hwOk).0;
      && BgpAgrees(s.rows[id := row], w.frr.bgp)
      && w.frr.ospf == s.world.frr.ospf + if IsActive(row) && row.ospf == Some(true) then {id} else {}
  {
    var plain, w1 := Unseal(k, row).value, Cleared(o, s.world, old_);
    PlainNeeds(k, row);
    ClearedAgrees(k, o, s, id, old_);
    ClearedBgp(k, o, s, id, old_);
    DeployClears(o, s.world, plain, old_, hwOk);
    if IsActive(row) {
      RowsFrr(k, o, w1, row);
      BgpDeployed(s.rows, w1.frr.bgp, id, row);
    } else {
      BgpInactive(s.rows, w1.frr.bgp, id, row);
    }
  }

  predicate OspfActive(rows: map<nat, Vrf>, id: nat) { IsDeployed(rows, id) && rows[id].ospf == Some(true) }

  /** Every active row with the OSPF flag has its instance. */
  ghost predicate OspfStarted(s: App) { forall id :: OspfActive(s.rows, id) ==> id in s.world.frr.ospf }

  ghost predicate FrrInvariant(s: App) { BgpAgrees(s.rows, s.world.frr.bgp) && OspfStarted(s) }

  /** The instances after a request: those before, and those of the rows that want one now. */
  ghost predicate OspfGrows(s: App, s': App) {
    forall id :: id in s'.world.frr.ospf <==> id in s.world.frr.ospf || OspfActive(s'.rows, id)
  }

  lemma EffectFrr(k: Keys, o: Faults, s: App, s': App, answer: Answer, e: Effect)
    requires GoodKeys(k) && Consistent(k, s) && NoFaults(o) && HasEffect(k, o, s, s', answer, e) && FrrInvariant(s)
    ensures FrrInvariant(s') && OspfGrows(s, s')
  {
    match e
    case Idle =>
      BgpIdle(s.rows, s'.rows, s.world.frr.bgp);
      forall id ensures OspfActive(s.rows, id) <==> OspfActive(s'.rows, id) {}
    case Replaced(id, row, old_) =>
      DeployBgp(k, o, s, id, row, old_, true);
      OspfReplaced(s, s', id, row);
    case Removed(id) =>
      DeleteStored(k, o, s, id);
      BgpTakenDown(s.rows, s.world.frr, id);
      BgpDeleted(s.rows, s'.world.frr.bgp, id);
      forall id' | OspfActive(s'.rows, id') ensures OspfActive(s.rows, id') {}
  }

  lemma OspfReplaced(s: App, s': App, id: nat, row: Vrf)
    requires OspfStarted(s) && id != HARDWARE_VRF_ID && s'.rows == s.rows[id := row]
    requires s'.world.frr.ospf == s.world.frr.ospf + if IsActive(row) && row.ospf == Some(true) then {id} else {}
    ensures OspfStarted(s') && OspfGrows(s, s')
  {
    forall id' ensures OspfActive(s'.rows, id') <==>
      if id' == id then IsActive(row) && row.ospf == Some(true) else OspfActive(s.rows, id') {}
  }

  lemma StepFrr(k: Keys, o: Faults, s: App, op: Op)
    requires GoodKeys(k) && Consistent(k, s) && NoFaults(o) && OpGood(s, op) && FrrInvariant(s)
    ensures FrrInvariant(Step(k, o, s, op).0) && OspfGrows(s, Step(k, o, s, op).0)
  {
    var e := StepEffect(k, o, s, op);
    EffectFrr(k, o, s, Step(k, o, s, op).0, Step(k, o, s, op).1, e);
  }

  /** Instances that are as needed stay so through a request if and only if it is not one
      that panics on a VRF with BGP. */
  lemma StepBgp(k: Keys, o: Faults, s: App, op: Op)
    requires GoodKeys(k) && Consistent(k, s) && NoFaults(o) && OpGood(s, op) && FrrInvariant(s)
    requires BgpAsNeeded(s.rows, s.world.frr.bgp)
    ensures var s' := Step(k, o, s, op).0;
      BgpAsNeeded(s'.rows, s'.world.frr.bgp) <==> !(Panics(s, op) && HasBgp(op.req))
  {
    var (s', answer) := Step(k, o, s, op);
    var e := StepEffect(k, o, s, op);
    EffectConsistent(k, o, s, s', answer, e);
    EffectFrr(k, o, s, s', answer, e);
    AgreesIsNeeded(s.rows, s.world.frr.bgp);
    AgreesIsNeeded(s'.rows, s'.world.frr.bgp);
    MissesAfter(s, s', e);
    PanicsAsWanted(k, s, op, e);
    if e.Replaced? && Panics(s, op) { PanickedNeeds(k, s, op, e); }
  }

  lemma WantedBgp(s: App, op: Op)
    requires Replaces(s, op)
    ensures HasBgp(Wanted(s, op)) == HasBgp(op.req)
  {
    var es, wanted := op.req.endpoints, Wanted(s, op).endpoints;
    assert |wanted| == |es| && forall i :: 0 <= i < |es| ==> wanted[i].bgp == es[i].bgp;
  }

  /** The raw JSON check sees to it that BGP comes with an AS number. */
  lemma PanickedNeeds(k: Keys, s: App, op: Op, e: Effect)
    requires AsRequested(k, s, op, e) && e.Replaced? && Panics(s, op)
    ensures NeedsBgp(e.row) <==> HasBgp(op.req)
  {
    PlainNeeds(k, e.row);
    WantedBgp(s, op);
  }

  lemma MissesAfter(s: App, s': App, e: Effect)
    requires forall id :: !MissesBgp(s.rows, id)
    requires match e
             case Idle => SameSoftware(s.rows, s'.rows)
             case Replaced(id, row, _) => id != HARDWARE_VRF_ID && s'.rows == s.rows[id := row]
             case Removed(id) => s'.rows == s.rows - {id}
    ensures (exists id :: MissesBgp(s'.rows, id)) <==> Crashing(e) && NeedsBgp(e.row)
  {
    if Crashing(e) && NeedsBgp(e.row) { assert MissesBgp(s'.rows, e.id); }
    forall id | MissesBgp(s'.rows, id) ensures Crashing(e) && NeedsBgp(e.row) {
      assert !MissesBgp(s.rows, id);
      assert e.Replaced? && id == e.id;
    }
  }

  /** The invariant over every run without faults, panics included. */
  lemma {:induction false} RunFrr(k: Keys, o: Faults, ops: seq<Op>)
    requires GoodKeys(k) && NoFaults(o) && RunGood(k, o, ops)
    ensures FrrInvariant(Run(k, o, ops))
  {
    if ops != [] {
      RunGoodFront(k, o, ops);
      RunFrr(k, o, ops[..|ops| - 1]);
      RunConsistent(k, o, ops[..|ops| - 1]);
      StepFrr(k, o, Run(k, o, ops[..|ops| - 1]), ops[|ops| - 1]);
    }
  }

  /** After every run without faults BGP instances are exactly those of the active software
      rows that need one and have an OSPF flag. So they are as needed if and only if no
      active row that needs one lacks the flag. */
  lemma RunBgp(k: Keys, o: Faults, ops: seq<Op>)
    requires GoodKeys(k) && NoFaults(o) && RunGood(k, o, ops)
    ensures var s := Run(k, o, ops);
      && BgpAgrees(s.rows, s.world.frr.bgp)
      && (BgpAsNeeded(s.rows, s.world.frr.bgp) <==> forall id :: !MissesBgp(s.rows, id))
  {
    RunFrr(k, o, ops);
    AgreesIsNeeded(Run(k, o, ops).rows, Run(k, o, ops).world.frr.bgp);
  }

  lemma OspfActiveOnce(k: Keys, o: Faults, ops: seq<Op>, id: nat)
    requires ops != []
    ensures var front := ops[..|ops| - 1];
      (exists i :: 0 <= i <= |ops| && OspfActiveAfter(k, o, ops, i, id)) <==>
        (exists i :: 0 <= i <= |front| && OspfActiveAfter(k, o, front, i, id)) || OspfActive(Run(k, o, ops).rows, id)
  {
    var front := ops[..|ops| - 1];
    forall i | 0 <= i <= |front| ensures OspfActiveAfter(k, o, front, i, id) <==> OspfActiveAfter(k, o, ops, i, id) {
      assert front[..i] == ops[..i];
    }
    assert ops[..|ops|] == ops;
    assert OspfActiveAfter(k, o, ops, |ops|, id) <==> OspfActive(Run(k, o, ops).rows, id);
  }

  /** After every run without faults the OSPF instances are exactly those of the VRFs that
      were active with the OSPF flag on at some time. */
  lemma {:induction false} RunOspf(k: Keys, o: Faults, ops: seq<Op>, id: nat)
    requires GoodKeys(k) && NoFaults(o) && RunGood(k, o, ops)
    ensures id in Run(k, o, ops).world.frr.ospf <==> exists i :: 0 <= i <= |ops| && OspfActiveAfter(k, o, ops, i, id)
  {
    if ops == [] {
      assert !OspfActiveAfter(k, o, ops, 0, id);
    } else {
      var front := ops[..|ops| - 1];
      RunGoodFront(k, o, ops);
      RunOspf(k, o, front, id);
      RunFrr(k, o, front);
      RunConsistent(k, o, front);
      StepFrr(k, o, Run(k, o, front), ops[|ops| - 1]);
      OspfActiveOnce(k, o, ops, id);
    }
  }

  /** The VRF is active with the OSPF flag on after the first i requests. */
  predicate OspfActiveAfter(k: Keys, o: Faults, ops: seq<Op>, i: nat, id: nat)
    requires i <= |ops|
  {
    OspfActive(Run(k, o, ops[..i]).rows, id)
  }

  const PEER := Endpoint(0, 0, "192.0.2.1", "10.0.0.1", "10.0.0.2", 65001, false, true, "eth0",
    Auth(PSK, "secret", "", "", "", "", ""))

  /** An active VRF with a BGP endpoint and no OSPF flag. */
  const UNFLAGGED := Vrf(0, "client", [], ["aes128"], ["aes128"], "eth0", Some(true), 65000, None, None, [PEER])

  /** Creating it, as the first request, is accepted, panics, and leaves it without the BGP
      instance it needs. */
  lemma PanicMissesBgp(k: Keys, o: Faults, ids: nat -> nat, nonces: nat -> Nonce, nonces': nat -> Nonce)
    requires GoodKeys(k) && NoFaults(o)
    ensures var (s', answer) := Step(k, o, INITIAL, CreateOp(true, UNFLAGGED, 2, ids, nonces, nonces', true));
      answer == Panicked && MissesBgp(s'.rows, 2) && !BgpAsNeeded(s'.rows, s'.world.frr.bgp)
  {
    var op := CreateOp(true, UNFLAGGED, 2, ids, nonces, nonces', true);
    var v, s := CreatedVrf(op), INITIAL;
    UnflaggedAccepted();
    InitialConsistent(k);
    var sealed := CreateIsBackends(k, o, s, op);
    CreatedRowFits(k, s, op, sealed);
    var e := SoftwareEffect(k, o, s, s.(rows := s.rows[2 := sealed]), v, Blank(2), nonces', true);
    var (s', answer) := Step(k, o, s, op);
    EffectConsistent(k, o, s, s', answer, e);
    StoredRow(k, sealed, v, nonces');
    PlainNeeds(k, e.row);
    assert v.endpoints[0].bgp;
    assert MissesBgp(s'.rows, 2);
    NotAsNeeded(k, o, s, s', answer, e);
  }

  lemma UnflaggedGood()
    ensures RequestGood(INITIAL.rows, 2, UNFLAGGED)
  {
    assert UNFLAGGED.endpoints[..0] == [] && CertIps([]) == [];
    assert CertIps(UNFLAGGED.endpoints) == [];
  }

  lemma UnflaggedAccepted()
    ensures JsonOk(UNFLAGGED) && VrfOk(UNFLAGGED) && RequestGood(INITIAL.rows, 2, UNFLAGGED)
  {
    UnflaggedGood();
  }

  lemma NotAsNeeded(k: Keys, o: Faults, s: App, s': App, answer: Answer, e: Effect)
    requires GoodKeys(k) && Consistent(k, s) && NoFaults(o) && HasEffect(k, o, s, s', answer, e) && FrrInvariant(s)
    requires exists id :: MissesBgp(s'.rows, id)
    ensures !BgpAsNeeded(s'.rows, s'.world.frr.bgp)
  {
    EffectFrr(k, o, s, s', answer, e);
    AgreesIsNeeded(s'.rows, s'.world.frr.bgp);
  }

  lemma {:induction false} RunCommandsOspf(frr: Frr, cs: seq<FrrCommand>)
    ensures frr.ospf <= RunCommands(frr, cs).ospf
  {
    if cs != [] { RunCommandsOspf(frr, cs[..|cs| - 1]); }
  }

  lemma StoreFrrOspf(o: Faults, w: World, cs: seq<FrrCommand>)
    ensures w.frr.ospf <= StoreFrrConfig(o, w, cs).0.frr.ospf
  {
    RunCommandsOspf(w.frr, cs);
  }

  lemma {:induction false} RemoveSeqFrr(o: Faults, w: World, paths: seq<string>)
    ensures RemoveSeq(o, w, paths).0.frr == w.frr
  {
    if paths != [] { RemoveSeqFrr(o, w, paths[..|paths| - 1]); }
  }

  lemma GenerateOspf(o: Faults, w: World, v: Vrf)
    ensures w.frr.ospf <= GenerateConfigs(o, w, v).0.frr.ospf
  {
    var w1 := WriteAll(o, w, CertWrites(v.clientName, v.endpoints)).0;
    WriteAllFrr(o, w, CertWrites(v.clientName, v.endpoints));
    GenerateRestOspf(o, WriteFile(o, w1, ConfPath(v.id), ConfContent(v)).0, v);
  }

  lemma GenerateRestOspf(o: Faults, w: World, v: Vrf)
    ensures w.frr.ospf <= GenerateRest(o, w, v).0.frr.ospf
  {
    if Environ(v).Some? {
      StoreFrrOspf(o, WriteFile(o, w, IniPath(v.id), Ini(v.clientName, Environ(v).value)).0, FrrCommands(v));
    }
  }

  lemma BeforeCertsOspf(o: Faults, w: World, v: Vrf)
    ensures w.frr.ospf <= DeleteBeforeCerts(o, w, v).0.frr.ospf
  {
    var (w1, _) := RemoveAll(o, w, IniPath(v.id));
    var (w2, _) := RemoveAll(o, w1, ConfPath(v.id));
    StoreFrrOspf(o, w2, [NoRouterBgp(v.localAs, v.id)]);
  }

  lemma DeleteOspf(o: Faults, w: World, v: Vrf)
    ensures w.frr.ospf <= DeleteConfigs(o, w, v).0.frr.ospf
  {
    BeforeCertsOspf(o, w, v);
    RemoveSeqFrr(o, DeleteBeforeCerts(o, w, v).0, CertPaths(v.clientName, v.endpoints));
  }

  lemma DeployOspf(o: Faults, w: World, v: Vrf, old_: Vrf, hwOk: bool)
    ensures w.frr.ospf <= Deploy(o, w, v, old_, hwOk).0.frr.ospf
  {
    GenerateOspf(o, w, v);
    DeleteOspf(o, w, old_);
    GenerateOspf(o, DeleteConfigs(o, w, old_).0, v);
  }

  lemma UpdateBackendsOspf(k: Keys, o: Faults, s: App, v: Vrf, old_: Vrf, nonces: nat -> Nonce, hwOk: bool)
    requires v.id in s.rows
    ensures s.world.frr.ospf <= UpdateBackends(k, o, s, v, old_, nonces, hwOk).0.world.frr.ospf
  {
    if Seal(k, v, nonces).Ok? {
      var row := MergeRow(s.rows[v.id], Seal(k, v, nonces).value);
      if Unseal(k, row).Ok? { DeployOspf(o, s.world, Unseal(k, row).value, old_, hwOk); }
    }
  }

  /** No request ever withdraws an OSPF instance, whatever fails: the text that takes a
      VRF down names BGP only. */
  lemma StepOspf(k: Keys, o: Faults, s: App, op: Op)
    ensures s.world.frr.ospf <= Step(k, o, s, op).0.world.frr.ospf
  {
    match op
    case CreateOp(_, _, _, _, _, _, _) =>
      var vrf := CreatedVrf(op);
      if Seal(k, vrf, op.nonces).Ok? && Unseal(k, Seal(k, vrf, op.nonces).value).Ok? {
        var sealed := Seal(k, vrf, op.nonces).value;
        UpdateBackendsOspf(k, o, s.(rows := s.rows[op.newId := sealed]), Unseal(k, sealed).value, Blank(op.newId), op.nonces', op.hwOk);
      }
    case UpdateOp(_, _, _, _, _, _) =>
      UpdateIsBackends(k, o, s, op);
      if UpdateAccepted(s, op) {
        UpdateBackendsOspf(k, o, s, UpdatedVrf(s, op), s.rows[RowId(op.number)], op.nonces, op.hwOk);
      }
    case DeleteOp(_, _) =>
      if RowId(op.number) in s.rows { DeleteOspf(o, s.world, s.rows[RowId(op.number)]); }
  }

  /** So an OSPF instance outlives every later request. */
  lemma {:induction false} OspfOutlives(k: Keys, o: Faults, ops: seq<Op>, i: nat, id: nat)
    requires i <= |ops| && id in Run(k, o, ops[..i]).world.frr.ospf
    ensures id in Run(k, o, ops).world.frr.ospf
    decreases |ops|
  {
    if i == |ops| {
      assert ops[..i] == ops;
    } else {
      var front := ops[..|ops| - 1];
      assert front[..i] == ops[..i];
      OspfOutlives(k, o, front, i, id);
      StepOspf(k, o, Run(k, o, front), ops[|ops| - 1]);
    }
  }

}
