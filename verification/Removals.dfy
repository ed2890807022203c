/** Taking a VRF's configuration down while calls fail: exactly when files of it stay. */
module Removals {
  import opened Types
  import opened SoftwareGenerator
  import opened DeploymentProofs
  import opened Lifecycle
  import opened LifecycleProofs
  import opened LifecycleRuns

  /** Some path of the VRF is in use. */
  predicate Uses(files: map<string, Content>, v: Vrf) {
    exists p :: IsPathOf(v, p) && p in files
  }

  lemma RowUnused(k: Keys, rows: map<nat, Vrf>, files: map<string, Content>, id: nat, row: Vrf)
    requires RowsGood(k, rows) && RowFits(k, rows, id, row) && FilesAgreeBut(k, rows, files, id)
    ensures !Uses(files, row) && NoDup(CertPaths(row.clientName, row.endpoints))
  {
    AddressesDashFree(row);
    DistinctPaths(row.clientName, row.endpoints);
    forall p | IsPathOf(row, p) ensures p !in files { PathsFree(k, rows, files, id, row, p); }
  }

  /** Files of the row `id`, old or new, and files of the other deployed rows, which are
      complete. */
  ghost predicate OthersComplete(k: Keys, rows: map<nat, Vrf>, files: map<string, Content>, id: nat, old_: Vrf, row: Vrf) {
    && (forall p :: p in files && p != VTYSH ==> IsPathOf(old_, p) || IsPathOf(row, p) || OwnedByOther(rows, id, p))
    && (forall id' :: id' != id && IsDeployed(rows, id') ==> HasFiles(k, rows[id'], files))
  }

  lemma ConsistentOthers(k: Keys, s: App, id: nat)
    requires Consistent(k, s) && id in s.rows
    ensures OthersComplete(k, s.rows, s.world.files, id, s.rows[id], s.rows[id])
  {
    forall p | p in s.world.files && p != VTYSH && !IsPathOf(s.rows[id], p) ensures OwnedByOther(s.rows, id, p) {
      var id' :| OwnedBy(s.rows, id', p);
    }
  }

  /** Taking down the row's configuration, under any faults, leaves the others complete. */
  lemma StillOthers(k: Keys, o: Faults, rows: map<nat, Vrf>, w: World, id: nat, old_: Vrf, row: Vrf)
    requires RowsGood(k, rows) && RowFits(k, rows, id, row) && OthersComplete(k, rows, w.files, id, old_, row)
    ensures OthersComplete(k, rows, DeleteConfigs(o, w, row).0.files, id, old_, row)
  {
    var files' := DeleteConfigs(o, w, row).0.files;
    forall p | p in files' && p != VTYSH ensures IsPathOf(old_, p) || IsPathOf(row, p) || OwnedByOther(rows, id, p) {
      if !IsPathOf(row, p) { DeleteTouchesOnlyOwn(o, w, row, p); }
    }
    forall id' | id' != id && IsDeployed(rows, id') ensures HasFiles(k, rows[id'], files') {
      NotVtysh(rows[id']);
      forall p | IsPathOf(rows[id'], p) ensures p in files' && SameAt(w.files, files', p) {
        OtherPaths(k, rows, id, row, id', p);
        DeleteTouchesOnlyOwn(o, w, row, p);
        assert HasFiles(k, rows[id'], w.files);
      }
    }
  }

  lemma ClearedOthers(k: Keys, o: Faults, s: App, id: nat)
    requires Consistent(k, s) && id in s.rows && id != HARDWARE_VRF_ID
    ensures OthersComplete(k, s.rows, Cleared(o, s.world, s.rows[id]).files, id, s.rows[id], s.rows[id])
  {
    ConsistentOthers(k, s, id);
    StoredFits(k, s, id);
    StillOthers(k, o, s.rows, s.world, id, s.rows[id], s.rows[id]);
  }

  lemma StoredFits(k: Keys, s: App, id: nat)
    requires RowsGood(k, s.rows) && id in s.rows && id != HARDWARE_VRF_ID
    ensures RowFits(k, s.rows, id, s.rows[id])
  {
    assert RowGood(k, id, s.rows[id]);
  }

  /** Beside complete others, files agree exactly when none of the row's is left. */
  lemma AgreesUnlessUsed(k: Keys, rows: map<nat, Vrf>, files: map<string, Content>, id: nat, row: Vrf)
    requires RowsGood(k, rows) && RowFits(k, rows, id, row) && OthersComplete(k, rows, files, id, row, row)
    ensures FilesAgreeBut(k, rows, files, id) <==> !Uses(files, row)
  {
    if FilesAgreeBut(k, rows, files, id) { RowUnused(k, rows, files, id, row); }
  }

  /** A row that is inactive or gone has no files. */
  lemma AgreesWithout(k: Keys, rows: map<nat, Vrf>, rows': map<nat, Vrf>, files: map<string, Content>, id: nat)
    requires !IsDeployed(rows', id)
    requires forall id' :: id' != id ==> (id' in rows <==> id' in rows') && (id' in rows ==> rows'[id'] == rows[id'])
    ensures FilesAgree(k, rows', files) <==> FilesAgreeBut(k, rows, files, id)
  {
    if FilesAgreeBut(k, rows, files, id) { AgreeInactive(k, rows, rows', files, id); }
    if FilesAgree(k, rows', files) {
      AgreeWithoutInactive(k, rows', files, id);
      forall p | p in files && p != VTYSH ensures OwnedByOther(rows, id, p) {
        var id' :| id' != id && OwnedBy(rows', id', p);
        assert OwnedBy(rows, id', p);
      }
      assert forall id' :: id' != id && IsDeployed(rows, id') ==> rows'[id'] == rows[id'] && IsDeployed(rows', id');
    }
  }

  /** None of n calls fails, from the call numbered t on. */
  predicate NoneFails(o: Faults, t: nat, n: nat) { forall i :: t <= i < t + n ==> !o(i) }

  /** One of the calls that remove files fails: environment, configuration, certificates. */
  predicate RemovalFails(o: Faults, w: World, v: Vrf) {
    || !NoneFails(o, w.tick, 2)
    || !NoneFails(o, DeleteBeforeCerts(o, w, v).0.tick, |CertPaths(v.clientName, v.endpoints)|)
  }

  lemma {:induction false} RemoveSeqShrinks(o: Faults, w: World, paths: seq<string>)
    ensures RemoveSeq(o, w, paths).0.files.Keys <= w.files.Keys
  {
    if paths != [] { RemoveSeqShrinks(o, w, paths[..|paths| - 1]); }
  }

  /** Removing files that are there takes all of them away exactly when no call fails. */
  lemma {:induction false} RemovedExactly(o: Faults, w: World, paths: seq<string>)
    requires NoDup(paths) && forall i :: 0 <= i < |paths| ==> paths[i] in w.files
    ensures var (w', ok) := RemoveSeq(o, w, paths);
      && (ok <==> NoneFails(o, w.tick, |paths|)) && (ok ==> w'.tick == w.tick + |paths|)
      && (ok <==> forall p :: p in paths ==> p !in w'.files)
  {
    if paths != [] {
      var front, last := paths[..|paths| - 1], paths[|paths| - 1];
      assert forall i :: 0 <= i < |front| ==> front[i] == paths[i];
      RemovedExactly(o, w, front);
      RemoveSeqTouches(o, w, front, last);
      assert NoneFails(o, w.tick, |paths|) <==> NoneFails(o, w.tick, |front|) && !o(w.tick + |front|);
      assert last in paths && forall p :: p in paths <==> p in front || p == last;
    }
  }

  /** The first two calls decide about the environment and the configuration file. */
  lemma IdPathsRemoved(o: Faults, w: World, v: Vrf)
    requires ConfPath(v.id) in w.files && IniPath(v.id) in w.files
    ensures var files' := DeleteConfigs(o, w, v).0.files;
      (ConfPath(v.id) !in files' && IniPath(v.id) !in files') <==> NoneFails(o, w.tick, 2)
  {
    var (w1, _) := RemoveAll(o, w, IniPath(v.id));
    var (w2, _) := RemoveAll(o, w1, ConfPath(v.id));
    var cs := [NoRouterBgp(v.localAs, v.id)];
    PathMarks("", "", v.id);
    StoreFrrTouches(o, w2, cs, ConfPath(v.id));
    StoreFrrTouches(o, w2, cs, IniPath(v.id));
    NoCert(v.clientName, v.endpoints, v.id);
    RemoveSeqTouches(o, DeleteBeforeCerts(o, w, v).0, CertPaths(v.clientName, v.endpoints), ConfPath(v.id));
    RemoveSeqTouches(o, DeleteBeforeCerts(o, w, v).0, CertPaths(v.clientName, v.endpoints), IniPath(v.id));
    assert NoneFails(o, w.tick, 2) <==> !o(w.tick) && !o(w.tick + 1);
  }

  /** The calls after them decide about the certificates. */
  lemma CertsRemoved(o: Faults, w: World, v: Vrf)
    requires var paths := CertPaths(v.clientName, v.endpoints); NoDup(paths) && PresentPrefix(w.files, paths, |paths|)
    ensures var paths, files' := CertPaths(v.clientName, v.endpoints), DeleteConfigs(o, w, v).0.files;
      (forall p :: p in paths ==> p !in files') <==> NoneFails(o, DeleteBeforeCerts(o, w, v).0.tick, |paths|)
  {
    CertsStay(o, w, v, |CertPaths(v.clientName, v.endpoints)|);
    RemovedExactly(o, DeleteBeforeCerts(o, w, v).0, CertPaths(v.clientName, v.endpoints));
  }

  /** A path of an unused VRF is not there after a deletion either. */
  lemma StaysUnused(o: Faults, w: World, v: Vrf)
    requires !Uses(w.files, v)
    ensures !Uses(DeleteConfigs(o, w, v).0.files, v)
  {
    var w1 := DeleteBeforeCerts(o, w, v).0;
    NotVtysh(v);
    RemoveSeqShrinks(o, w1, CertPaths(v.clientName, v.endpoints));
    forall p | IsPathOf(v, p) ensures p !in w1.files {
      BeforeCertsShrinks(o, w, v, p);
    }
  }

  lemma BeforeCertsShrinks(o: Faults, w: World, v: Vrf, p: string)
    requires p !in w.files && p != VTYSH
    ensures p !in DeleteBeforeCerts(o, w, v).0.files
  {
    var (w1, _) := RemoveAll(o, w, IniPath(v.id));
    var (w2, _) := RemoveAll(o, w1, ConfPath(v.id));
    StoreFrrTouches(o, w2, [NoRouterBgp(v.localAs, v.id)], p);
  }

  /** Deleting the configuration of a stored row, under any faults: something of it stays
      exactly when the row was deployed and one of the calls that remove files fails. */
  lemma LeftExactly(k: Keys, o: Faults, s: App, id: nat)
    requires Consistent(k, s) && id in s.rows && id != HARDWARE_VRF_ID
    ensures var row := s.rows[id];
      Uses(DeleteConfigs(o, s.world, row).0.files, row) <==> IsActive(row) && RemovalFails(o, s.world, row)
  {
    var row := s.rows[id];
    var files' := DeleteConfigs(o, s.world, row).0.files;
    CertsPresent(k, s, id);
    if IsActive(row) {
      StoredFits(k, s, id);
      assert HasFiles(k, row, s.world.files) && IsPathOf(row, ConfPath(row.id)) && IsPathOf(row, IniPath(row.id));
      IdPathsRemoved(o, s.world, row);
      CertsRemoved(o, s.world, row);
      UsesSplit(files', row);
    } else {
      AgreeWithoutInactive(k, s.rows, s.world.files, id);
      StoredFits(k, s, id);
      RowUnused(k, s.rows, s.world.files, id, row);
      StaysUnused(o, s.world, row);
    }
  }

  lemma UsesSplit(files: map<string, Content>, v: Vrf)
    ensures !Uses(files, v) <==>
      ConfPath(v.id) !in files && IniPath(v.id) !in files && forall p :: p in CertPaths(v.clientName, v.endpoints) ==> p !in files
  {
    if !Uses(files, v) {
      assert IsPathOf(v, ConfPath(v.id)) && IsPathOf(v, IniPath(v.id));
      assert forall p :: p in CertPaths(v.clientName, v.endpoints) ==> IsPathOf(v, p);
    }
  }

  /** A delete takes the row whatever becomes of its configuration. Under any faults rows
      and files stay in step if and only if no path of the row is left, which is when the
      row was inactive or no call that removes files fails. */
  lemma DeleteExactly(k: Keys, o: Faults, s: App, op: Op)
    requires Consistent(k, s) && op.DeleteOp? && DeletesSoftware(s, op)
    ensures var row, s' := s.rows[RowId(op.number)], DeleteVrf(o, s, op).0;
      && s'.rows == s.rows - {RowId(op.number)}
      && (Consistent(k, s') <==> !Uses(s'.world.files, row))
      && (Consistent(k, s') <==> !(IsActive(row) && RemovalFails(o, s.world, row)))
  {
    var id := RowId(op.number);
    var row, files' := s.rows[id], DeleteConfigs(o, s.world, s.rows[id]).0.files;
    SoftwareDelete(o, s, op);
    StoredFits(k, s, id);
    ConsistentOthers(k, s, id);
    StillOthers(k, o, s.rows, s.world, id, row, row);
    AgreesUnlessUsed(k, s.rows, files', id, row);
    AgreesWithout(k, s.rows, s.rows - {id}, files', id);
    LeftExactly(k, o, s, id);
    assert RowsGood(k, s.rows - {id});
  }

  /** So a delete of an active VRF whose first call fails leaves its environment file to
      nobody. */
  lemma FailedDeleteLeaves(k: Keys, o: Faults, s: App, op: Op)
    requires Consistent(k, s) && op.DeleteOp? && DeletesSoftware(s, op) && IsActive(s.rows[RowId(op.number)]) && o(s.world.tick)
    ensures !Consistent(k, DeleteVrf(o, s, op).0)
  {
    assert !NoneFails(o, s.world.tick, 2);
    DeleteExactly(k, o, s, op);
  }
}
