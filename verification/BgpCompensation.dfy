/** BGP after a failed patch and the patch that takes it back: the text that takes an
    instance down names its AS, and the stored row may name another one by then. */
module BgpCompensation {
  import opened Types
  import opened Crypto
  import opened SoftwareGenerator
  import opened DeploymentProofs
  import opened Lifecycle
  import opened LifecycleProofs
  import opened LifecycleRuns
  import opened FrrRuns
  import opened Removals
  import opened Compensation

  /** Writing vtysh's file, the third call of a deletion, or the reload after it fails. */
  predicate VtyshFails(o: Faults, w: World) { o(w.tick + 2) || o(w.tick + 3) }

  /** What a deletion does to FRR, whatever else fails. */
  lemma DeleteFrr(o: Faults, w: World, v: Vrf)
    ensures var (w', ok) := DeleteConfigs(o, w, v);
      && w'.frr == (if VtyshFails(o, w) then w.frr else RunCommand(w.frr, NoRouterBgp(v.localAs, v.id)))
      && (VtyshFails(o, w) ==> !ok)
  {
    var (w1, _) := RemoveAll(o, w, IniPath(v.id));
    var (w2, _) := RemoveAll(o, w1, ConfPath(v.id));
    StoreNoRouter(o, w2, v);
    RemoveSeqFrr(o, DeleteBeforeCerts(o, w, v).0, CertPaths(v.clientName, v.endpoints));
  }

  lemma StoreNoRouter(o: Faults, w: World, v: Vrf)
    ensures var (w', ok) := StoreFrrConfig(o, w, [NoRouterBgp(v.localAs, v.id)]);
      && ok == (!o(w.tick) && !o(w.tick + 1))
      && w'.frr == if ok then RunCommand(w.frr, NoRouterBgp(v.localAs, v.id)) else w.frr
  {
    RunNoRouter(w.frr, v.localAs, v.id);
  }

  /** The old row's instance is still there after the patch: it had one, and taking it down
      failed. */
  predicate Survives(o: Faults, s: App, id: nat) {
    RunsBgp(s.rows, id) && VtyshFails(o, s.world)
  }

  lemma ClearedFrr(o: Faults, s: App, id: nat)
    requires id in s.rows && id != HARDWARE_VRF_ID && s.rows[id].id == id && BgpAgrees(s.rows, s.world.frr.bgp)
    ensures var bgp := Cleared(o, s.world, s.rows[id]).frr.bgp;
      bgp == if Survives(o, s, id) then s.world.frr.bgp else s.world.frr.bgp - {id}
  {
    DeleteFrr(o, s.world, s.rows[id]);
    if id !in s.world.frr.bgp { assert s.world.frr.bgp - {id} == s.world.frr.bgp; }
  }

  /** The patch itself: a new instance is started only when the old one is gone. */
  lemma PatchedBgp(k: Keys, o: Faults, s: App, id: nat, row: Vrf)
    requires GoodKeys(k) && Consistent(k, s) && BgpAgrees(s.rows, s.world.frr.bgp) && id in s.rows && RowFits(k, s.rows, id, row)
    ensures var bgp, bgp' := s.world.frr.bgp, Deploy(o, s.world, Unseal(k, row).value, s.rows[id], true).0.frr.bgp;
      if Survives(o, s, id) then bgp' == bgp
      else bgp' == bgp - {id} || (IsActive(row) && bgp' == (bgp - {id})[id := row.localAs])
  {
    var plain, old_ := Unseal(k, row).value, s.rows[id];
    StoredFits(k, s, id);
    PlainNeeds(k, row);
    ClearedFrr(o, s, id);
    DeleteFrr(o, s.world, old_);
    DeployBgpSteps(o, s.world, plain, old_);
    if IsActive(row) && !Survives(o, s, id) { GenerateBgp(o, Cleared(o, s.world, old_), plain); }
  }

  lemma DeployBgpSteps(o: Faults, w: World, v: Vrf, old_: Vrf)
    requires v.id != HARDWARE_VRF_ID
    ensures Deploy(o, w, v, old_, true).0 ==
      if IsActive(v) && (IsActive(old_) ==> DeleteConfigs(o, w, old_).1) then GenerateConfigs(o, Cleared(o, w, old_), v).0
      else Cleared(o, w, old_)
  {
  }

  lemma TakenDownBgp(o: Faults, w: World, row: Vrf)
    requires NoFaults(o)
    ensures Cleared(o, w, row).frr.bgp ==
      if IsActive(row) && row.id in w.frr.bgp && w.frr.bgp[row.id] == row.localAs then w.frr.bgp - {row.id} else w.frr.bgp
  {
    DeleteFrr(o, w, row);
  }

  lemma StartedAndTaken(bgp: map<nat, nat>, id: nat, localAs: nat)
    ensures (bgp - {id})[id := localAs] - {id} == bgp - {id}
  {
  }

  /** After the compensation, which has no faults. */
  lemma CompensatedBgp(k: Keys, o: Faults, o': Faults, s: App, id: nat, row: Vrf)
    requires GoodKeys(k) && Consistent(k, s) && BgpAgrees(s.rows, s.world.frr.bgp) && id in s.rows && RowFits(k, s.rows, id, row)
    requires NoFaults(o')
    ensures var bgp, w := s.world.frr.bgp, Deploy(o, s.world, Unseal(k, row).value, s.rows[id], true).0;
      Cleared(o', w, row).frr.bgp ==
        if Survives(o, s, id) && (IsActive(row) ==> row.localAs != s.rows[id].localAs) then bgp else bgp - {id}
  {
    var bgp, w := s.world.frr.bgp, Deploy(o, s.world, Unseal(k, row).value, s.rows[id], true).0;
    PatchedBgp(k, o, s, id, row);
    TakenDownBgp(o', w, row);
    StartedAndTaken(bgp, id, row.localAs);
    assert Survives(o, s, id) ==> bgp[id] == s.rows[id].localAs;
  }

  /** With the row inactive, instances agree exactly when it has none. */
  lemma AgreesWithoutBgp(rows: map<nat, Vrf>, bgp: map<nat, nat>, id: nat, row2: Vrf, bgp': map<nat, nat>)
    requires BgpAgrees(rows, bgp) && !IsActive(row2) && bgp' in {bgp, bgp - {id}}
    ensures BgpAgrees(rows[id := row2], bgp') <==> id !in bgp'
  {
    var rows' := rows[id := row2];
    assert !RunsBgp(rows', id);
    assert forall id' :: id' != id ==> (RunsBgp(rows', id') <==> RunsBgp(rows, id'));
  }

  lemma CompensatedState(k: Keys, o: Faults, o': Faults, s: App, op: Op, ids: nat -> nat, nonces: nat -> Nonce, hwOk: bool)
    returns (row2: Vrf)
    requires GoodKeys(k) && Consistent(k, s) && BgpAgrees(s.rows, s.world.frr.bgp) && NoFaults(o')
    requires op.UpdateOp? && OpGood(s, op) && UpdateAccepted(s, op) && RowId(op.number) != HARDWARE_VRF_ID
    ensures row2.id == RowId(op.number) && !IsActive(row2) && row2.localAs == RequestedAs(s, op)
    ensures var id, bgp := RowId(op.number), s.world.frr.bgp;
      var s2 := UpdateVrf(k, o', UpdateVrf(k, o, s, op).0, Inactivated(op, ids, nonces, hwOk)).0;
      && s2.rows == s.rows[id := row2]
      && s2.world.frr.bgp ==
         if Survives(o, s, id) && (IsActive(UpdatedVrf(s, op)) ==> RequestedAs(s, op) != s.rows[id].localAs) then bgp else bgp - {id}
  {
    var row, r := TwoPatches(k, o, o', s, op, ids, nonces, hwOk);
    row2 := r;
    CompensatedBgp(k, o, o', s, RowId(op.number), row);
  }

  /** Any patch of a software VRF under any failures, and its compensation: instances and
      rows agree again if and only if the old row had no instance, or no call that takes it
      down failed, or the patch is to an active VRF and leaves the AS number as it was. */
  lemma BgpCompensationExactly(k: Keys, o: Faults, o': Faults, s: App, op: Op, ids: nat -> nat, nonces: nat -> Nonce, hwOk: bool)
    requires GoodKeys(k) && Consistent(k, s) && BgpAgrees(s.rows, s.world.frr.bgp) && NoFaults(o')
    requires op.UpdateOp? && OpGood(s, op) && UpdateAccepted(s, op) && RowId(op.number) != HARDWARE_VRF_ID
    ensures var id := RowId(op.number);
      var s2 := UpdateVrf(k, o', UpdateVrf(k, o, s, op).0, Inactivated(op, ids, nonces, hwOk)).0;
      BgpAgrees(s2.rows, s2.world.frr.bgp) <==>
        || !RunsBgp(s.rows, id) || !VtyshFails(o, s.world)
        || (IsActive(UpdatedVrf(s, op)) && op.req.localAs in {0, s.rows[id].localAs})
  {
    var row2 := CompensatedState(k, o, o', s, op, ids, nonces, hwOk);
    var s2 := UpdateVrf(k, o', UpdateVrf(k, o, s, op).0, Inactivated(op, ids, nonces, hwOk)).0;
    AgreesWithoutBgp(s.rows, s.world.frr.bgp, RowId(op.number), row2, s2.world.frr.bgp);
  }

  /** No deletion under another AS number takes such an instance down. */
  lemma StrayStays(o: Faults, w: World, v: Vrf)
    requires v.id in w.frr.bgp && w.frr.bgp[v.id] != v.localAs
    ensures DeleteConfigs(o, w, v).0.frr.bgp == w.frr.bgp
  {
    DeleteFrr(o, w, v);
  }

  lemma StrayDeleted(o: Faults, s: App, op: Op)
    requires op.DeleteOp? && DeletesSoftware(s, op)
    requires var id := RowId(op.number);
      s.rows[id].id == id && id in s.world.frr.bgp && s.world.frr.bgp[id] != s.rows[id].localAs
    ensures var s' := DeleteVrf(o, s, op).0; RowId(op.number) !in s'.rows && s'.world.frr.bgp == s.world.frr.bgp
  {
    SoftwareDelete(o, s, op);
    StrayStays(o, s.world, s.rows[RowId(op.number)]);
  }

  /** A patch that changes the AS number while the reload that takes the old instance down
      fails, and its compensation: the row has the new number, the instance the old one. */
  lemma ChangedAsLeft(k: Keys, o: Faults, o': Faults, s: App, op: Op, ids: nat -> nat, nonces: nat -> Nonce, hwOk: bool)
    requires GoodKeys(k) && Consistent(k, s) && BgpAgrees(s.rows, s.world.frr.bgp) && NoFaults(o') && o(s.world.tick + 3)
    requires op.UpdateOp? && OpGood(s, op) && UpdateAccepted(s, op) && RowId(op.number) != HARDWARE_VRF_ID
    requires RunsBgp(s.rows, RowId(op.number)) && op.req.localAs !in {0, s.rows[RowId(op.number)].localAs}
    ensures var id := RowId(op.number);
      var s2 := UpdateVrf(k, o', UpdateVrf(k, o, s, op).0, Inactivated(op, ids, nonces, hwOk)).0;
      && id in s2.rows && s2.rows[id].id == id && s2.rows[id].localAs == op.req.localAs
      && s2.world.frr.bgp == s.world.frr.bgp
  {
    var row2 := CompensatedState(k, o, o', s, op, ids, nonces, hwOk);
    assert Survives(o, s, RowId(op.number));
  }

  /** Such an instance outlives the VRF, whatever fails when that is deleted. */
  lemma ChangedAsStays(k: Keys, o: Faults, o': Faults, o'': Faults, s: App, op: Op, ids: nat -> nat, nonces: nat -> Nonce, hwOk: bool)
    requires GoodKeys(k) && Consistent(k, s) && BgpAgrees(s.rows, s.world.frr.bgp) && NoFaults(o') && o(s.world.tick + 3)
    requires op.UpdateOp? && OpGood(s, op) && UpdateAccepted(s, op) && RowId(op.number) != HARDWARE_VRF_ID
    requires RunsBgp(s.rows, RowId(op.number)) && op.req.localAs !in {0, s.rows[RowId(op.number)].localAs}
    ensures var id := RowId(op.number);
      var s2 := UpdateVrf(k, o', UpdateVrf(k, o, s, op).0, Inactivated(op, ids, nonces, hwOk)).0;
      var s3 := DeleteVrf(o'', s2, DeleteOp(op.number, hwOk)).0;
      && !BgpAgrees(s2.rows, s2.world.frr.bgp)
      && id !in s3.rows && id in s3.world.frr.bgp && s3.world.frr.bgp[id] == s.rows[id].localAs
  {
    var s2 := UpdateVrf(k, o', UpdateVrf(k, o, s, op).0, Inactivated(op, ids, nonces, hwOk)).0;
    ChangedAsLeft(k, o, o', s, op, ids, nonces, hwOk);
    StrayDeleted(o'', s2, DeleteOp(op.number, hwOk));
  }
}
