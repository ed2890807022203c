/** A deletion that stops half-way: the certificates that the user interface's second
    request then leaves, what does not remove them, and what does. */
module Leftovers {
  import opened Text
  import opened Crypto
  import opened Types
  import opened Validation
  import opened SupervisorEnv
  import opened SoftwareGenerator
  import opened DeploymentProofs
  import opened Lifecycle
  import opened LifecycleProofs
  import opened LifecycleRuns
  import opened Removals
  import opened Compensation

  /** The number of calls a deletion makes before the first certificate. */
  const CALLS_BEFORE_CERTS := 6

  /** Only the removal of the second certificate fails. */
  ghost predicate SecondRemovalFails(o: Faults, w: World) {
    forall t: nat :: o(t) <==> t == w.tick + CALLS_BEFORE_CERTS + 1
  }

  lemma BeforeCertsTick(o: Faults, w: World, v: Vrf)
    requires SecondRemovalFails(o, w)
    ensures DeleteBeforeCerts(o, w, v).0.tick == w.tick + CALLS_BEFORE_CERTS
  {
  }

  lemma RemoveTwo(o: Faults, w: World, a: string, b: string)
    requires !o(w.tick) && o(w.tick + 1) && a in w.files && a != b
    ensures var (w', ok) := RemoveSeq(o, w, [a, b]); !ok && w'.files == w.files - {a}
  {
    var two := [a, b];
    assert two[..1] == [a] && two[..1][..0] == [];
    assert RemoveSeq(o, w, two[..1]) == Remove(o, w, a);
  }

  /** Such a deletion of a complete deployment removes the first certificate only. */
  lemma HalfDeletion(o: Faults, w: World, v: Vrf)
    requires SecondRemovalFails(o, w)
    requires var paths := CertPaths(v.clientName, v.endpoints);
      |paths| >= 2 && NoDup(paths) && PresentPrefix(w.files, paths, |paths|)
    ensures var paths, (w', ok) := CertPaths(v.clientName, v.endpoints), DeleteConfigs(o, w, v);
      !ok && paths[0] !in w'.files && paths[1] in w'.files
  {
    var paths, w1 := CertPaths(v.clientName, v.endpoints), DeleteBeforeCerts(o, w, v).0;
    BeforeCertsTick(o, w, v);
    CertsStay(o, w, v, |paths|);
    RemoveTwo(o, w1, paths[0], paths[1]);
    assert paths == [paths[0], paths[1]] + paths[2..];
    RemoveSeqStops(o, w1, [paths[0], paths[1]], paths[2..]);
  }

  /** The first certificate is gone and the second is there. */
  predicate Torn(files: map<string, Content>, v: Vrf) {
    var paths := CertPaths(v.clientName, v.endpoints);
    |paths| >= 2 && paths[0] !in files && paths[1] in files
  }

  lemma TornNotLeading(files: map<string, Content>, old_: Vrf, row: Vrf)
    requires Torn(files, row)
    ensures !CleanupFinds(files, old_, row)
  {
    var paths := CertPaths(row.clientName, row.endpoints);
    assert paths[1] in files && paths[0] !in files;
  }

  lemma FirstPatchTears(k: Keys, o: Faults, s: App, id: nat, row: Vrf)
    requires Consistent(k, s) && SecondRemovalFails(o, s.world) && id in s.rows && id != HARDWARE_VRF_ID && IsActive(s.rows[id])
    requires RowFits(k, s.rows, id, row)
    requires CertPaths(row.clientName, row.endpoints) == CertPaths(s.rows[id].clientName, s.rows[id].endpoints)
    requires |CertPaths(row.clientName, row.endpoints)| >= 2
    ensures Torn(Deploy(o, s.world, Unseal(k, row).value, s.rows[id], true).0.files, row)
  {
    CertsPresent(k, s, id);
    HalfDeletion(o, s.world, s.rows[id]);
    PlainShape(k, row);
  }

  /** No deletion mends that. */
  lemma DeletionLeavesTorn(o: Faults, w: World, v: Vrf)
    requires Torn(w.files, v) && NoDup(CertPaths(v.clientName, v.endpoints))
    ensures Torn(DeleteConfigs(o, w, v).0.files, v)
  {
    DeletionLeaves(o, w, v, 0, 1);
    FirstStaysGone(o, w, v);
  }

  lemma SameTorn(files: map<string, Content>, v: Vrf, v': Vrf)
    requires Torn(files, v) && CertPaths(v.clientName, v.endpoints) == CertPaths(v'.clientName, v'.endpoints)
    ensures Torn(files, v')
  {
  }

  lemma FitsNoDup(k: Keys, rows: map<nat, Vrf>, id: nat, row: Vrf)
    requires RowFits(k, rows, id, row)
    ensures NoDup(CertPaths(row.clientName, row.endpoints))
  {
    AddressesDashFree(row);
    DistinctPaths(row.clientName, row.endpoints);
  }

  /** A patch of an active VRF that keeps its certificate paths, with the second removal
      failing, and the patch that takes it back: certificates stay that belong to no active
      row. */
  lemma HalfDeletionLeaves(k: Keys, o: Faults, o': Faults, s: App, op: Op, ids: nat -> nat, nonces: nat -> Nonce, hwOk: bool)
    requires GoodKeys(k) && Consistent(k, s) && NoFaults(o') && SecondRemovalFails(o, s.world)
    requires op.UpdateOp? && OpGood(s, op) && UpdateAccepted(s, op) && RowId(op.number) != HARDWARE_VRF_ID
    requires op.req.active == Some(true) && IsActive(s.rows[RowId(op.number)])
    requires var old_ := s.rows[RowId(op.number)];
      |RequestedPaths(s, op)| >= 2 && RequestedPaths(s, op) == CertPaths(old_.clientName, old_.endpoints)
    ensures var s2 := UpdateVrf(k, o', UpdateVrf(k, o, s, op).0, Inactivated(op, ids, nonces, hwOk)).0;
      && RowId(op.number) in s2.rows && Torn(s2.world.files, s2.rows[RowId(op.number)]) && !Consistent(k, s2)
  {
    var id := RowId(op.number);
    var row, row2 := TwoPatches(k, o, o', s, op, ids, nonces, hwOk);
    var w := Deploy(o, s.world, Unseal(k, row).value, s.rows[id], true).0;
    FirstPatchTears(k, o, s, id, row);
    FitsNoDup(k, s.rows, id, row);
    DeletionLeavesTorn(o', w, row);
    SameTorn(DeleteConfigs(o', w, row).0.files, row, row2);
    TornNotLeading(w.files, s.rows[id], row);
    CompensationExactly(k, o, o', s, op, ids, nonces, hwOk);
  }

  /** Nor does deleting the VRF remove them. */
  lemma DeleteLeavesTorn(k: Keys, o: Faults, s: App, op: Op)
    requires op.DeleteOp? && DeletesSoftware(s, op) && RowGood(k, RowId(op.number), s.rows[RowId(op.number)])
    requires Torn(s.world.files, s.rows[RowId(op.number)])
    ensures Torn(DeleteVrf(o, s, op).0.world.files, s.rows[RowId(op.number)])
  {
    var row := s.rows[RowId(op.number)];
    SoftwareDelete(o, s, op);
    AddressesDashFree(row);
    DistinctPaths(row.clientName, row.endpoints);
    DeletionLeavesTorn(o, s.world, row);
  }

  /** A path that is not there is not there after a deletion either. */
  lemma FirstStaysGone(o: Faults, w: World, v: Vrf)
    requires CertPaths(v.clientName, v.endpoints) != [] && CertPaths(v.clientName, v.endpoints)[0] !in w.files
    ensures CertPaths(v.clientName, v.endpoints)[0] !in DeleteConfigs(o, w, v).0.files
  {
    var paths := CertPaths(v.clientName, v.endpoints);
    NotVtysh(v);
    CertsApart(v, 0);
    assert paths[0] in paths;
    BeforeCertsTouches(o, w, v, paths[0]);
    RemoveSeqShrinks(o, DeleteBeforeCerts(o, w, v).0, paths);
  }

  /** It happens to every first VRF with certificates: it is created, patched with what it
      was created with while the second removal fails, and patched back. */
  lemma HalfDeletionHappens(k: Keys, o: Faults, o': Faults, v: Vrf, id: nat, ids: nat -> nat, nonces: nat -> Nonce)
    requires GoodKeys(k) && NoFaults(o') && HARDWARE_VRF_ID < id < 0x1_0000_0000
    requires JsonOk(v) && VrfOk(v) && v.active == Some(true) && RequestGood(INITIAL.rows, id, v)
    requires |CertPaths(v.clientName, v.endpoints)| >= 2
    requires SecondRemovalFails(o, CreateVrf(k, o', INITIAL, CreateOp(true, v, id, ids, nonces, nonces, true)).0.world)
    ensures var s := CreateVrf(k, o', INITIAL, CreateOp(true, v, id, ids, nonces, nonces, true)).0;
      var op := UpdateOp(true, id, v, ids, nonces, true);
      Consistent(k, s) && !Consistent(k, UpdateVrf(k, o', UpdateVrf(k, o, s, op).0, Inactivated(op, ids, nonces, true)).0)
  {
    var create := CreateOp(true, v, id, ids, nonces, nonces, true);
    InitialConsistent(k);
    StepConsistent(k, o', INITIAL, create);
    var row := CreationIs(k, o', INITIAL, create);
    FirstRowTorn(k, o, o', CreateVrf(k, o', INITIAL, create).0, v, id, row, ids, nonces);
  }

  lemma FirstPatchFits(s: App, v: Vrf, id: nat, row: Vrf, ids: nat -> nat, nonces: nat -> Nonce)
    requires HARDWARE_VRF_ID < id < 0x1_0000_0000 && s.rows == INITIAL.rows[id := row] && row.clientName == v.clientName
    requires JsonOk(v) && VrfOk(v) && RequestGood(INITIAL.rows, id, v)
    ensures var op := UpdateOp(true, id, v, ids, nonces, true);
      && RowId(id) == id && OpGood(s, op) && UpdateAccepted(s, op)
      && RequestedPaths(s, op) == CertPaths(v.clientName, v.endpoints)
  {
  }

  lemma FirstRowTorn(k: Keys, o: Faults, o': Faults, s: App, v: Vrf, id: nat, row: Vrf, ids: nat -> nat, nonces: nat -> Nonce)
    requires GoodKeys(k) && NoFaults(o') && Consistent(k, s) && SecondRemovalFails(o, s.world)
    requires HARDWARE_VRF_ID < id < 0x1_0000_0000 && s.rows == INITIAL.rows[id := row] && IsActive(row)
    requires row.clientName == v.clientName && CertPaths(row.clientName, row.endpoints) == CertPaths(v.clientName, v.endpoints)
    requires JsonOk(v) && VrfOk(v) && v.active == Some(true) && RequestGood(INITIAL.rows, id, v)
    requires |CertPaths(v.clientName, v.endpoints)| >= 2
    ensures var op := UpdateOp(true, id, v, ids, nonces, true);
      !Consistent(k, UpdateVrf(k, o', UpdateVrf(k, o, s, op).0, Inactivated(op, ids, nonces, true)).0)
  {
    FirstPatchFits(s, v, id, row, ids, nonces);
    HalfDeletionLeaves(k, o, o', s, UpdateOp(true, id, v, ids, nonces, true), ids, nonces, true);
  }

  const CERT_PEER := Endpoint(0, 0, "192.0.2.1", "10.0.0.1", "10.0.0.2", 65001, false, false, "eth0",
    Auth(CERTS, "", "", "local", "remote", "key", ""))

  /** An active VRF with one endpoint that has certificates. */
  const CERTIFIED := Vrf(0, "client", [], ["aes128"], ["aes128"], "eth0", Some(true), 0, None, Some(false), [CERT_PEER])

  /** There are such VRFs: what HalfDeletionHappens and FailedDeactivationHappens ask for. */
  lemma CertifiedAccepted()
    ensures CERTIFIED.active == Some(true) && JsonOk(CERTIFIED) && VrfOk(CERTIFIED) && RequestGood(INITIAL.rows, 2, CERTIFIED)
    ensures |CertPaths(CERTIFIED.clientName, CERTIFIED.endpoints)| == 3
  {
    var es := CERTIFIED.endpoints;
    assert es[..0] == [] && CertIps([]) == [] && CertPaths("client", []) == [];
    assert CertIps(es) == ["10.0.0.2", "10.0.0.1"];
    assert CertPaths("client", es) == EndpointPaths("client", CERT_PEER);
  }

  /** No call fails. */
  const ALL_WELL: Faults := (t: nat) => false

  /** Call number n fails, and no other. */
  function FailsAt(n: nat): Faults { (t: nat) => t == n }

  /** The same for deactivations: every first VRF, created active, patched to be inactive
      while the first call fails, and patched once more. */
  lemma FailedDeactivationHappens(k: Keys, v: Vrf, id: nat, ids: nat -> nat, nonces: nat -> Nonce)
    requires GoodKeys(k) && HARDWARE_VRF_ID < id < 0x1_0000_0000
    requires JsonOk(v) && VrfOk(v) && v.active == Some(true) && RequestGood(INITIAL.rows, id, v)
    ensures var s := CreateVrf(k, ALL_WELL, INITIAL, CreateOp(true, v, id, ids, nonces, nonces, true)).0;
      var op := UpdateOp(true, id, v.(active := Some(false)), ids, nonces, true);
      && Consistent(k, s)
      && !Consistent(k, UpdateVrf(k, ALL_WELL, UpdateVrf(k, FailsAt(s.world.tick), s, op).0, Inactivated(op, ids, nonces, true)).0)
  {
    var create := CreateOp(true, v, id, ids, nonces, nonces, true);
    InitialConsistent(k);
    StepConsistent(k, ALL_WELL, INITIAL, create);
    var row := CreationIs(k, ALL_WELL, INITIAL, create);
    DeactivationFails(k, CreateVrf(k, ALL_WELL, INITIAL, create).0, v, id, row, ids, nonces);
  }

  lemma DeactivationFails(k: Keys, s: App, v: Vrf, id: nat, row: Vrf, ids: nat -> nat, nonces: nat -> Nonce)
    requires GoodKeys(k) && Consistent(k, s) && HARDWARE_VRF_ID < id < 0x1_0000_0000
    requires s.rows == INITIAL.rows[id := row] && IsActive(row) && row.clientName == v.clientName
    requires JsonOk(v) && VrfOk(v) && RequestGood(INITIAL.rows, id, v)
    ensures var op := UpdateOp(true, id, v.(active := Some(false)), ids, nonces, true);
      !Consistent(k, UpdateVrf(k, ALL_WELL, UpdateVrf(k, FailsAt(s.world.tick), s, op).0, Inactivated(op, ids, nonces, true)).0)
  {
    var v' := v.(active := Some(false));
    assert v'.endpoints == v.endpoints && v'.vlans == v.vlans;
    FirstPatchFits(s, v', id, row, ids, nonces);
    FailedDeactivationStays(k, FailsAt(s.world.tick), ALL_WELL, s, UpdateOp(true, id, v', ids, nonces, true), ids, nonces, true);
  }

  lemma WithoutAt(files: map<string, Content>, row: Vrf, p: string)
    ensures p in files - PathSet(row) <==> p in files && !IsPathOf(row, p)
    ensures p in files && !IsPathOf(row, p) ==> (files - PathSet(row))[p] == files[p]
  {
    assert p in PathSet(row) <==> IsPathOf(row, p);
  }

  lemma OthersWithout(k: Keys, rows: map<nat, Vrf>, files: map<string, Content>, id: nat, row: Vrf, id': nat)
    requires RowsGood(k, rows) && RowFits(k, rows, id, row) && id' != id && IsDeployed(rows, id') && HasFiles(k, rows[id'], files)
    ensures HasFiles(k, rows[id'], files - PathSet(row))
  {
    forall p | IsPathOf(rows[id'], p) ensures p in files - PathSet(row) && p in files && (files - PathSet(row))[p] == files[p] {
      OtherPaths(k, rows, id, row, id', p);
      WithoutAt(files, row, p);
    }
  }

  lemma WithoutOwn(k: Keys, rows: map<nat, Vrf>, files: map<string, Content>, id: nat, row: Vrf)
    requires RowsGood(k, rows) && RowFits(k, rows, id, row) && OthersComplete(k, rows, files, id, row, row)
    ensures FilesAgreeBut(k, rows, files - PathSet(row), id)
  {
    forall p | p in files - PathSet(row) && p != VTYSH ensures OwnedByOther(rows, id, p) {
      WithoutAt(files, row, p);
    }
    forall id' | id' != id && IsDeployed(rows, id') ensures HasFiles(k, rows[id'], files - PathSet(row)) {
      OthersWithout(k, rows, files, id, row, id');
    }
  }

  /** What a deployment overwrites does not matter. */
  lemma OverwrittenAll(files: map<string, Content>, ws: seq<(string, Content)>, gone: set<string>)
    requires forall p :: p in gone ==> Writes(ws, p)
    ensures PutAll(files, ws) == PutAll(files - gone, ws)
  {
    var a, b := PutAll(files, ws), PutAll(files - gone, ws);
    forall p: string ensures (p in a <==> p in b) && (p in a ==> a[p] == b[p]) {
      PutAllEffect(files, ws, p);
      PutAllEffect(files - gone, ws, p);
    }
  }

  lemma OwnOverwritten(files: map<string, Content>, v: Vrf)
    requires Environ(v).Some?
    ensures PutAll(files, FileWrites(v)) == PutAll(files - PathSet(v), FileWrites(v))
  {
    forall p | p in PathSet(v) ensures Writes(FileWrites(v), p) { FileWritesPaths(v, p); }
    OverwrittenAll(files, FileWrites(v), PathSet(v));
  }

  lemma ActivationFiles(k: Keys, o: Faults, w: World, row: Vrf)
    requires Unseal(k, row).Ok? && ValidAddresses(row) && NoFaults(o)
    ensures var plain := Unseal(k, row).value;
      Off(GenerateConfigs(o, w, plain).0.files) == Off(PutAll(w.files - PathSet(row), FileWrites(plain)))
  {
    var plain := Unseal(k, row).value;
    PlainUses(k, row, w.files);
    PlainPaths(k, row);
    OwnOverwritten(w.files, plain);
    GenerateNoFaults(o, w, plain);
  }

  /** Activating a VRF overwrites whatever files of its own are lying about. */
  lemma ActivationRecovers(k: Keys, o: Faults, s: App, id: nat, row: Vrf)
    requires GoodKeys(k) && RowsGood(k, s.rows) && NoFaults(o) && RowFits(k, s.rows, id, row) && IsActive(row)
    requires OthersComplete(k, s.rows, s.world.files, id, row, row)
    ensures Consistent(k, App(s.rows[id := row], GenerateConfigs(o, s.world, Unseal(k, row).value).0))
  {
    var plain, files := Unseal(k, row).value, s.world.files;
    ActivationFiles(k, o, s.world, row);
    WithoutOwn(k, s.rows, files, id, row);
    RowsStayGood(k, s.rows, id, row);
    AgreeDeployed(k, s.rows, s.rows[id := row], files - PathSet(row), GenerateConfigs(o, s.world, plain).0.files, id);
  }

  lemma OthersElsewhere(k: Keys, rows: map<nat, Vrf>, files: map<string, Content>, id: nat, old_: Vrf, row: Vrf, row2: Vrf, row3: Vrf)
    requires OthersComplete(k, rows, files, id, old_, row)
    requires forall p :: IsPathOf(old_, p) || IsPathOf(row, p) ==> IsPathOf(row3, p)
    ensures OthersComplete(k, rows[id := row2], files, id, row3, row3)
  {
    var rows' := rows[id := row2];
    forall p | OwnedByOther(rows, id, p) ensures OwnedByOther(rows', id, p) {
      var id' :| id' != id && OwnedBy(rows, id', p);
      assert OwnedBy(rows', id', p);
    }
  }

  /** The same request with the active flag. */
  function Activated(op: Op): Op
    requires op.UpdateOp?
  {
    op.(req := op.req.(active := Some(true)))
  }

  lemma ActivatedAccepted(s: App, op: Op)
    requires op.UpdateOp? && OpGood(s, op) && UpdateAccepted(s, op)
    ensures OpGood(s, Activated(op)) && UpdateAccepted(s, Activated(op))
    ensures RequestedName(s, Activated(op)) == RequestedName(s, op) && RequestedPaths(s, Activated(op)) == RequestedPaths(s, op)
  {
    assert Activated(op).req.endpoints == op.req.endpoints;
  }

  /** After the two patches, whatever failed, only files of the VRF itself are in doubt. */
  lemma PatchedTwiceOthers(k: Keys, o: Faults, o': Faults, s: App, id: nat, row: Vrf)
    requires Consistent(k, s) && id in s.rows && RowFits(k, s.rows, id, row)
    ensures OthersComplete(k, s.rows, Cleared(o', Deploy(o, s.world, Unseal(k, row).value, s.rows[id], true).0, row).files,
              id, s.rows[id], row)
  {
    var w := Deploy(o, s.world, Unseal(k, row).value, s.rows[id], true).0;
    StoredFits(k, s, id);
    PatchedFiles(k, o, s, id, row, true);
    StillOthers(k, o', s.rows, w, id, s.rows[id], row);
  }

  /** So after any failure of a patch that keeps the certificate paths, activating or not,
      and the patch that takes it back, activating the VRF again brings files and rows back
      in step. */
  lemma ThirdPatchRecovers(k: Keys, o: Faults, o': Faults, o'': Faults, s: App, op: Op, ids: nat -> nat, nonces: nat -> Nonce, hwOk: bool)
    requires GoodKeys(k) && Consistent(k, s) && NoFaults(o'')
    requires op.UpdateOp? && OpGood(s, op) && UpdateAccepted(s, op) && RowId(op.number) != HARDWARE_VRF_ID
    requires var old_ := s.rows[RowId(op.number)]; RequestedPaths(s, op) == CertPaths(old_.clientName, old_.endpoints)
    ensures var s2 := UpdateVrf(k, o', UpdateVrf(k, o, s, op).0, Inactivated(op, ids, nonces, hwOk)).0;
      Consistent(k, UpdateVrf(k, o'', s2, Activated(op)).0)
  {
    var id := RowId(op.number);
    var row, row2 := TwoPatches(k, o, o', s, op, ids, nonces, hwOk);
    var w := Deploy(o, s.world, Unseal(k, row).value, s.rows[id], true).0;
    PatchedTwiceOthers(k, o, o', s, id, row);
    FitsBefore(k, s.rows, id, row, row2);
    ActivatedAccepted(s, op);
    assert s.rows[id].id == id by { StoredFits(k, s, id); }
    ThirdPatch(k, o'', s, Cleared(o', w, row), Activated(op), row, row2);
  }

  lemma ThirdPatch(k: Keys, o: Faults, s: App, w: World, op: Op, row: Vrf, row2: Vrf)
    requires GoodKeys(k) && RowsGood(k, s.rows) && NoFaults(o)
    requires op.UpdateOp? && OpGood(s, op) && UpdateAccepted(s, op) && RowId(op.number) != HARDWARE_VRF_ID
    requires op.req.active == Some(true) && RowFits(k, s.rows, RowId(op.number), row2) && !IsActive(row2)
    requires row.id == RowId(op.number) && s.rows[row.id].id == row.id
    requires row2.clientName == RequestedName(s, op)
    requires CertPaths(row.clientName, row.endpoints) == RequestedPaths(s, op)
    requires CertPaths(s.rows[row.id].clientName, s.rows[row.id].endpoints) == RequestedPaths(s, op)
    requires OthersComplete(k, s.rows, w.files, RowId(op.number), s.rows[RowId(op.number)], row)
    ensures Consistent(k, UpdateVrf(k, o, App(s.rows[RowId(op.number) := row2], w), op).0)
  {
    var id, s2 := RowId(op.number), App(s.rows[RowId(op.number) := row2], w);
    RowsStayGood(k, s.rows, id, row2);
    RequestStillGood(s.rows, id, row2, op.req, op.req);
    var row3 := PatchIs(k, o, s2, op);
    OthersElsewhere(k, s.rows, w.files, id, s.rows[id], row, row2, row3);
    ActivationGenerates(k, o, w, row3, row2, true);
    ActivationRecovers(k, o, s2, id, row3);
  }
}
