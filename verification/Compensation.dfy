/** What the user interface does about a failed request: useFetchData.ts patches the VRF
    again with active set to false. */
module Compensation {
  import opened Text
  import opened Crypto
  import opened Types
  import opened SupervisorEnv
  import opened SoftwareGenerator
  import opened DeploymentProofs
  import opened Lifecycle
  import opened LifecycleProofs
  import opened LifecycleRuns
  import opened FrrRuns
  import opened Removals

  lemma WrittenPrefix(ws: seq<(string, Content)>, n: nat, paths: seq<string>, i: nat)
    requires n <= |ws| && |paths| <= |ws| && NoDup(paths) && i < |paths|
    requires forall j :: 0 <= j < |paths| ==> ws[j].0 == paths[j]
    requires forall j :: |paths| <= j < |ws| ==> ws[j].0 != paths[i]
    ensures Writes(ws[..n], paths[i]) <==> i < n
  {
    if i < n { assert ws[..n][i].0 == paths[i]; }
    assert forall j :: 0 <= j < n ==> ws[..n][j] == ws[j];
  }

  /** The configuration and environment files are not among the certificates. */
  lemma LastFilesApart(v: Vrf, i: nat)
    requires i < |CertPaths(v.clientName, v.endpoints)|
    ensures forall j :: |CertPaths(v.clientName, v.endpoints)| <= j < |FileWrites(v)| ==>
      FileWrites(v)[j].0 != CertPaths(v.clientName, v.endpoints)[i]
  {
    var paths := CertPaths(v.clientName, v.endpoints);
    SamePathOrder(v.clientName, v.endpoints);
    CertPathsMembers(v.clientName, v.endpoints, paths[i]);
    var e :| 0 <= e < |v.endpoints| && paths[i] in EndpointPaths(v.clientName, v.endpoints[e]);
    IdPathsApart(v.clientName, v.endpoints[e], v.id);
  }

  /** A deployment that stops after n files on a host without files of the VRF leaves a
      prefix of its certificates. */
  lemma PrefixPresent(files: map<string, Content>, files': map<string, Content>, v: Vrf, n: nat)
    requires n <= |FileWrites(v)| && Off(files') == Off(PutAll(files, FileWrites(v)[..n]))
    requires !Uses(files, v)
    requires NoDup(CertPaths(v.clientName, v.endpoints))
    ensures var paths := CertPaths(v.clientName, v.endpoints);
      PresentPrefix(files', paths, if n < |paths| then n else |paths|)
  {
    var paths, ws := CertPaths(v.clientName, v.endpoints), FileWrites(v);
    NotVtysh(v);
    SamePathOrder(v.clientName, v.endpoints);
    forall i | 0 <= i < |paths| ensures paths[i] in files' <==> i < n {
      assert paths[i] in paths && IsPathOf(v, paths[i]);
      LastFilesApart(v, i);
      WrittenPrefix(ws, n, paths, i);
      PutAllEffect(files, ws[..n], paths[i]);
      var put := PutAll(files, ws[..n]);
      assert paths[i] in files' <==> paths[i] in Off(files');
      assert paths[i] in put <==> paths[i] in Off(put);
    }
  }

  /** Off the VRF's own paths a partial deployment changes nothing. */
  lemma PrefixTouchesOnlyOwn(files: map<string, Content>, v: Vrf, n: nat, p: string)
    requires n <= |FileWrites(v)| && !IsPathOf(v, p)
    ensures SameAt(files, PutAll(files, FileWrites(v)[..n]), p)
  {
    var ws := FileWrites(v);
    FileWritesPaths(v, p);
    assert forall i :: 0 <= i < n ==> ws[..n][i] == ws[i];
    PutAllEffect(files, ws[..n], p);
  }

  lemma PrefixTakenBack(files: map<string, Content>, files': map<string, Content>, v: Vrf, n: nat)
    requires n <= |FileWrites(v)| && Off(files') == Off(PutAll(files, FileWrites(v)[..n]))
    requires !Uses(files, v)
    ensures Off(files') - PathSet(v) == Off(files)
  {
    var put, a, b := PutAll(files, FileWrites(v)[..n]), Off(files') - PathSet(v), Off(files);
    forall p: string ensures (p in a <==> p in b) && (p in b ==> a[p] == b[p]) {
      if !IsPathOf(v, p) && p != VTYSH {
        PrefixTouchesOnlyOwn(files, v, n, p);
        assert p !in PathSet(v);
        assert p in put <==> p in Off(put);
      }
    }
    assert a.Keys == b.Keys;
  }

  /** Wherever the deployment of a row stopped, deleting the row's configuration puts the
      files back as they were and leaves no BGP instance of it. */
  lemma DeploymentUndone(k: Keys, o: Faults, o': Faults, rows: map<nat, Vrf>, w: World, id: nat, row: Vrf)
    requires GoodKeys(k) && RowsGood(k, rows) && RowFits(k, rows, id, row) && NoFaults(o')
    requires FilesAgreeBut(k, rows, w.files, id) && id !in w.frr.bgp
    ensures var w1 := GenerateConfigs(o, w, Unseal(k, row).value).0;
      var w2 := DeleteConfigs(o', w1, row).0;
      Off(w2.files) == Off(w.files) && w2.frr.bgp == w.frr.bgp
  {
    var plain := Unseal(k, row).value;
    var w1 := GenerateConfigs(o, w, plain).0;
    var n := GenerateWritesPrefix(o, w, plain);
    GenerateBgp(o, w, plain);
    RowUnused(k, rows, w.files, id, row);
    PlainUses(k, row, w.files);
    PrefixUndone(o', w, w1, row, plain, n);
  }

  /** Unsealed, the row has the same paths. */
  lemma PlainUses(k: Keys, row: Vrf, files: map<string, Content>)
    requires Unseal(k, row).Ok? && ValidAddresses(row)
    ensures var plain := Unseal(k, row).value;
      && plain.id == row.id && plain.localAs == row.localAs && plain.clientName == row.clientName
      && CertPaths(plain.clientName, plain.endpoints) == CertPaths(row.clientName, row.endpoints)
      && PathSet(plain) == PathSet(row) && (Uses(files, plain) <==> Uses(files, row))
  {
    var plain := Unseal(k, row).value;
    PlainShape(k, row);
    SamePaths(row.clientName, row.endpoints, plain.endpoints);
  }

  lemma PrefixUndone(o: Faults, w: World, w1: World, row: Vrf, plain: Vrf, n: nat)
    requires NoFaults(o) && row.id !in w.frr.bgp && !Uses(w.files, row)
    requires plain.id == row.id && CertPaths(plain.clientName, plain.endpoints) == CertPaths(row.clientName, row.endpoints)
    requires NoDup(CertPaths(row.clientName, row.endpoints)) && n <= |FileWrites(plain)|
    requires Off(w1.files) == Off(PutAll(w.files, FileWrites(plain)[..n]))
    requires w1.frr.bgp == w.frr.bgp || w1.frr.bgp == w.frr.bgp[row.id := row.localAs]
    ensures var w2 := DeleteConfigs(o, w1, row).0; Off(w2.files) == Off(w.files) && w2.frr.bgp == w.frr.bgp
  {
    var paths := CertPaths(row.clientName, row.endpoints);
    PrefixPresent(w.files, w1.files, plain, n);
    PrefixTakenBack(w.files, w1.files, plain, n);
    DeletePrefix(o, w1, row, if n < |paths| then n else |paths|);
    assert w.frr.bgp[row.id := row.localAs] - {row.id} == w.frr.bgp;
  }

  /** A deployment, however far it got, either started the VRF's BGP instance or did not. */
  lemma GenerateBgp(o: Faults, w: World, v: Vrf)
    requires v.id !in w.frr.bgp
    ensures var bgp := GenerateConfigs(o, w, v).0.frr.bgp; bgp == w.frr.bgp || bgp == w.frr.bgp[v.id := v.localAs]
  {
    var (w1, ok1) := WriteAll(o, w, CertWrites(v.clientName, v.endpoints));
    WriteAllFrr(o, w, CertWrites(v.clientName, v.endpoints));
    var (w2, ok2) := WriteFile(o, w1, ConfPath(v.id), ConfContent(v));
    if ok1 && ok2 { GenerateRestBgp(o, w2, v); }
  }

  lemma GenerateRestBgp(o: Faults, w: World, v: Vrf)
    requires v.id !in w.frr.bgp
    ensures var bgp := GenerateRest(o, w, v).0.frr.bgp; bgp == w.frr.bgp || bgp == w.frr.bgp[v.id := v.localAs]
  {
    GenerateRestFrr(o, w, v);
    if Environ(v).Some? { StoreFrrBgp(o, WithIni(o, w, v), v); }
  }

  /** The host after the attempt to write the environment file. */
  function WithIni(o: Faults, w: World, v: Vrf): World
    requires Environ(v).Some?
  {
    WriteFile(o, w, IniPath(v.id), Ini(v.clientName, Environ(v).value)).0
  }

  lemma StoreFrrBgp(o: Faults, w: World, v: Vrf)
    requires v.id !in w.frr.bgp
    ensures var bgp := StoreFrrConfig(o, w, FrrCommands(v)).0.frr.bgp; bgp == w.frr.bgp || bgp == w.frr.bgp[v.id := v.localAs]
  {
    StoreFrrRuns(o, w, FrrCommands(v));
    RunFrrCommands(w.frr, v);
  }

  lemma GenerateRestFrr(o: Faults, w: World, v: Vrf)
    ensures var frr := GenerateRest(o, w, v).0.frr;
      frr == w.frr || (Environ(v).Some? && frr == StoreFrrConfig(o, WithIni(o, w, v), FrrCommands(v)).0.frr)
  {
  }

  lemma StoreFrrRuns(o: Faults, w: World, cs: seq<FrrCommand>)
    ensures var frr := StoreFrrConfig(o, w, cs).0.frr; frr == w.frr || frr == RunCommands(w.frr, cs)
  {
  }

  /** The request that takes a failed one back: the same VRF, inactive. */
  function Inactivated(op: Op, ids: nat -> nat, nonces: nat -> Nonce, hwOk: bool): Op
    requires op.UpdateOp?
  {
    op.(req := op.req.(active := Some(false)), ids := ids, nonces := nonces, hwOk := hwOk)
  }

  /** The client name of the row that a request leads to. */
  function RequestedName(s: App, op: Op): string
    requires op.UpdateOp? && RowId(op.number) in s.rows
  {
    if op.req.clientName == "" then s.rows[RowId(op.number)].clientName else op.req.clientName
  }

  /** Its AS number. */
  function RequestedAs(s: App, op: Op): nat
    requires op.UpdateOp? && RowId(op.number) in s.rows
  {
    if op.req.localAs == 0 then s.rows[RowId(op.number)].localAs else op.req.localAs
  }

  /** Its certificate paths. */
  function RequestedPaths(s: App, op: Op): seq<string>
    requires op.UpdateOp? && RowId(op.number) in s.rows
  {
    CertPaths(RequestedName(s, op), op.req.endpoints)
  }

  lemma {:induction false} IdsKeepPaths(client: string, es: seq<Endpoint>, ids: nat -> nat, vrf: nat)
    ensures CertPaths(client, WithIds(es, ids, vrf)) == CertPaths(client, es)
  {
    if es != [] {
      IdsKeepPaths(client, es[..|es| - 1], ids, vrf);
      assert WithIds(es, ids, vrf)[..|es| - 1] == WithIds(es[..|es| - 1], ids, vrf);
    }
  }

  lemma WrittenPaths(k: Keys, s: App, op: Op, row: Vrf)
    requires op.UpdateOp? && RowId(op.number) in s.rows
    requires Unseal(k, row) == Ok(MergeRow(s.rows[RowId(op.number)], UpdatedVrf(s, op)))
    ensures row.clientName == RequestedName(s, op)
    ensures CertPaths(row.clientName, row.endpoints) == RequestedPaths(s, op)
  {
    var plain := Unseal(k, row).value;
    PlainShape(k, row);
    SamePaths(row.clientName, row.endpoints, plain.endpoints);
    IdsKeepPaths(plain.clientName, op.req.endpoints, op.ids, RowId(op.number));
  }

  /** The state that an accepted request leads to. A flag that it leaves out is the old
      row's. */
  lemma PatchIs(k: Keys, o: Faults, s: App, op: Op) returns (row: Vrf)
    requires GoodKeys(k) && RowsGood(k, s.rows) && op.UpdateOp? && UpdateAccepted(s, op) && RowId(op.number) != HARDWARE_VRF_ID
    requires RequestGood(s.rows, RowId(op.number), op.req)
    ensures var id := RowId(op.number);
      && RowFits(k, s.rows, id, row) && row.active == UpdatedVrf(s, op).active
      && row.localAs == RequestedAs(s, op)
      && row.clientName == RequestedName(s, op) && CertPaths(row.clientName, row.endpoints) == RequestedPaths(s, op)
      && UpdateVrf(k, o, s, op).0 == App(s.rows[id := row], Deploy(o, s.world, Unseal(k, row).value, s.rows[id], true).0)
  {
    var id, v := RowId(op.number), UpdatedVrf(s, op);
    UpdateIsBackends(k, o, s, op);
    UpdatedRowFits(k, s, op);
    StoredRow(k, s.rows[id], v, op.nonces);
    SealedRowReads(k, v, op.nonces);
    assert s.rows[id := s.rows[id]] == s.rows;
    var e := SoftwareEffect(k, o, s, s, v, s.rows[id], op.nonces, op.hwOk);
    row := e.row;
    WrittenPaths(k, s, op, row);
    PlainShape(k, row);
  }

  lemma InactivationClears(k: Keys, o: Faults, w: World, row: Vrf, old_: Vrf, hwOk: bool)
    requires Unseal(k, row).Ok? && row.id != HARDWARE_VRF_ID && !IsActive(row)
    ensures Deploy(o, w, Unseal(k, row).value, old_, hwOk).0 == Cleared(o, w, old_)
  {
  }

  /** At every point at which the activation of an inactive VRF may fail, patching it again
      as inactive leaves it inactive and puts the files and BGP instances back exactly as
      they were before; what certificates were not written makes the answer an error and
      nothing else. */
  lemma FailedActivationUndone(k: Keys, o: Faults, o': Faults, s: App, op: Op, ids: nat -> nat, nonces: nat -> Nonce, hwOk: bool)
    requires GoodKeys(k) && Consistent(k, s) && BgpAgrees(s.rows, s.world.frr.bgp) && NoFaults(o')
    requires op.UpdateOp? && OpGood(s, op) && UpdateAccepted(s, op) && RowId(op.number) != HARDWARE_VRF_ID
    requires op.req.active == Some(true) && !IsActive(s.rows[RowId(op.number)])
    ensures var s1 := UpdateVrf(k, o, s, op).0;
      var s2 := UpdateVrf(k, o', s1, Inactivated(op, ids, nonces, hwOk)).0;
      && RowId(op.number) in s2.rows && !IsActive(s2.rows[RowId(op.number)])
      && s2.rows == s.rows[RowId(op.number) := s2.rows[RowId(op.number)]]
      && Off(s2.world.files) == Off(s.world.files) && s2.world.frr.bgp == s.world.frr.bgp
      && Consistent(k, s2)
  {
    var row, row2 := TwoPatches(k, o, o', s, op, ids, nonces, hwOk);
    ActivationGenerates(k, o, s.world, row, s.rows[RowId(op.number)], true);
    UndoneConsistent(k, o, o', s, RowId(op.number), row, row2);
  }

  lemma ActivationGenerates(k: Keys, o: Faults, w: World, row: Vrf, old_: Vrf, hwOk: bool)
    requires Unseal(k, row).Ok? && row.id != HARDWARE_VRF_ID && IsActive(row) && !IsActive(old_)
    ensures Deploy(o, w, Unseal(k, row).value, old_, hwOk).0 == GenerateConfigs(o, w, Unseal(k, row).value).0
  {
  }

  /** Two patches in a row, the second one with the inactive flag. */
  lemma TwoPatches(k: Keys, o: Faults, o': Faults, s: App, op: Op, ids: nat -> nat, nonces: nat -> Nonce, hwOk: bool)
    returns (row: Vrf, row2: Vrf)
    requires GoodKeys(k) && RowsGood(k, s.rows) && op.UpdateOp? && UpdateAccepted(s, op) && RowId(op.number) != HARDWARE_VRF_ID
    requires RequestGood(s.rows, RowId(op.number), op.req)
    ensures RowFits(k, s.rows, RowId(op.number), row) && row.active == UpdatedVrf(s, op).active
    ensures RowFits(k, s.rows[RowId(op.number) := row], RowId(op.number), row2) && !IsActive(row2)
    ensures row.localAs == row2.localAs == RequestedAs(s, op)
    ensures row.clientName == row2.clientName == RequestedName(s, op)
    ensures CertPaths(row.clientName, row.endpoints) == RequestedPaths(s, op) == CertPaths(row2.clientName, row2.endpoints)
    ensures var id := RowId(op.number);
      var w := Deploy(o, s.world, Unseal(k, row).value, s.rows[id], true).0;
      && UpdateVrf(k, o, s, op).0 == App(s.rows[id := row], w)
      && UpdateVrf(k, o', App(s.rows[id := row], w), Inactivated(op, ids, nonces, hwOk)).0
         == App(s.rows[id := row2], Cleared(o', w, row))
  {
    row := PatchIs(k, o, s, op);
    var w := Deploy(o, s.world, Unseal(k, row).value, s.rows[RowId(op.number)], true).0;
    row2 := SecondPatch(k, o', s.rows, w, row, op, Inactivated(op, ids, nonces, hwOk));
  }

  lemma SecondPatch(k: Keys, o: Faults, rows: map<nat, Vrf>, w: World, row: Vrf, op: Op, op2: Op) returns (row2: Vrf)
    requires GoodKeys(k) && RowsGood(k, rows) && op.UpdateOp? && op2.UpdateOp? && RowId(op.number) != HARDWARE_VRF_ID
    requires op2 == Inactivated(op, op2.ids, op2.nonces, op2.hwOk)
    requires RowId(op.number) in rows && UpdateAccepted(App(rows, w), op) && RequestGood(rows, RowId(op.number), op.req)
    requires RowFits(k, rows, RowId(op.number), row)
    requires row.clientName == RequestedName(App(rows, w), op) && row.localAs == RequestedAs(App(rows, w), op)
    ensures var id := RowId(op.number);
      && RowFits(k, rows[id := row], id, row2) && !IsActive(row2)
      && row2.clientName == row.clientName && row2.localAs == row.localAs
      && CertPaths(row2.clientName, row2.endpoints) == RequestedPaths(App(rows, w), op)
      && UpdateVrf(k, o, App(rows[id := row], w), op2).0 == App(rows[id := row2], Cleared(o, w, row))
  {
    var id, s1 := RowId(op.number), App(rows[RowId(op.number) := row], w);
    RowsStayGood(k, rows, id, row);
    StillAccepted(rows, w, row, op, op2);
    RequestStillGood(rows, id, row, op.req, op2.req);
    row2 := PatchIs(k, o, s1, op2);
    InactivationClears(k, o, w, row2, row, true);
    PutTwice(rows, id, row, row2);
  }

  lemma StillAccepted(rows: map<nat, Vrf>, w: World, row: Vrf, op: Op, op2: Op)
    requires op.UpdateOp? && op2.UpdateOp? && op2 == Inactivated(op, op2.ids, op2.nonces, op2.hwOk)
    requires UpdateAccepted(App(rows, w), op) && RowId(op.number) != HARDWARE_VRF_ID
    ensures UpdateAccepted(App(rows[RowId(op.number) := row], w), op2)
  {
  }

  lemma PutTwice(rows: map<nat, Vrf>, id: nat, row: Vrf, row2: Vrf)
    ensures rows[id := row][id := row2] == rows[id := row2]
  {
  }

  /** An inactive row becomes `row` and is deployed, then becomes `row2` and is taken
      down. */
  lemma UndoneConsistent(k: Keys, o: Faults, o': Faults, s: App, id: nat, row: Vrf, row2: Vrf)
    requires GoodKeys(k) && Consistent(k, s) && BgpAgrees(s.rows, s.world.frr.bgp) && NoFaults(o')
    requires !IsDeployed(s.rows, id) && RowFits(k, s.rows, id, row)
    requires RowFits(k, s.rows[id := row], id, row2) && !IsActive(row2)
    ensures var w2 := DeleteConfigs(o', GenerateConfigs(o, s.world, Unseal(k, row).value).0, row).0;
      && Off(w2.files) == Off(s.world.files) && w2.frr.bgp == s.world.frr.bgp
      && Consistent(k, App(s.rows[id := row2], w2))
  {
    AgreeWithoutInactive(k, s.rows, s.world.files, id);
    DeploymentUndone(k, o, o', s.rows, s.world, id, row);
    var w2 := DeleteConfigs(o', GenerateConfigs(o, s.world, Unseal(k, row).value).0, row).0;
    AgreeButOff(k, s.rows, s.world.files, w2.files, id);
    AgreeInactive(k, s.rows, s.rows[id := row2], w2.files, id);
    FitsBefore(k, s.rows, id, row, row2);
    RowsStayGood(k, s.rows, id, row2);
  }

  lemma FitsBefore(k: Keys, rows: map<nat, Vrf>, id: nat, row: Vrf, row2: Vrf)
    requires RowFits(k, rows[id := row], id, row2)
    ensures RowFits(k, rows, id, row2)
  {
    var rows' := rows[id := row];
    assert forall id' :: id' in rows && id' != id ==> id' in rows' && rows'[id'] == rows[id'];
  }

  lemma RequestStillGood(rows: map<nat, Vrf>, id: nat, row: Vrf, req: Vrf, req2: Vrf)
    requires RequestGood(rows, id, req) && req2 == req.(active := req2.active)
    ensures RequestGood(rows[id := row], id, req2)
  {
    assert req2.endpoints == req.endpoints;
  }

  /** No path is there after one that is missing. */
  predicate LeadingPresent(files: map<string, Content>, paths: seq<string>) {
    forall i, j :: 0 <= i < j < |paths| && paths[j] in files ==> paths[i] in files
  }

  lemma {:induction false} LeadingIsPrefix(files: map<string, Content>, paths: seq<string>) returns (m: nat)
    requires LeadingPresent(files, paths)
    ensures PresentPrefix(files, paths, m)
  {
    m := 0;
    if paths != [] {
      var front, last := paths[..|paths| - 1], |paths| - 1;
      assert forall i :: 0 <= i < |front| ==> front[i] == paths[i];
      m := LeadingIsPrefix(files, front);
      if paths[last] in files {
        assert forall i :: 0 <= i < last ==> paths[i] in files;
        m := |paths|;
      } else if m == |front| {
        assert forall i :: 0 <= i < |paths| ==> (paths[i] in files <==> i < m);
      }
    }
  }

  /** Removal stops at the first missing path and leaves what comes after it. */
  lemma RemovalStopsAt(o: Faults, w: World, paths: seq<string>, i: nat, j: nat)
    requires i < j < |paths| && NoDup(paths) && paths[i] !in w.files && paths[j] in w.files
    ensures paths[j] in RemoveSeq(o, w, paths).0.files
  {
    var a, b := paths[..i + 1], paths[i + 1..];
    assert paths == a + b && a[..i] == paths[..i];
    RemoveSeqStops(o, w, a, b);
    assert forall h :: 0 <= h < |a| ==> a[h] == paths[h];
    RemoveSeqTouches(o, w, paths[..i], paths[i]);
    RemoveSeqTouches(o, w, a, paths[j]);
  }

  /** A deletion whose certificates are not a leading part leaves one of them. */
  lemma DeletionLeaves(o: Faults, w: World, v: Vrf, i: nat, j: nat)
    requires var paths := CertPaths(v.clientName, v.endpoints);
      i < j < |paths| && NoDup(paths) && paths[i] !in w.files && paths[j] in w.files
    ensures CertPaths(v.clientName, v.endpoints)[j] in DeleteConfigs(o, w, v).0.files
  {
    var paths := CertPaths(v.clientName, v.endpoints);
    NotVtysh(v);
    CertsApart(v, i);
    CertsApart(v, j);
    assert paths[i] in paths && paths[j] in paths;
    BeforeCertsTouches(o, w, v, paths[i]);
    BeforeCertsTouches(o, w, v, paths[j]);
    RemovalStopsAt(o, DeleteBeforeCerts(o, w, v).0, paths, i, j);
  }

  /** Replacing a row's configuration, under any faults, touches the paths of the old and
      the new row only. */
  lemma DeployTouchesOnlyOwn(o: Faults, w: World, v: Vrf, old_: Vrf, hwOk: bool, p: string)
    requires !IsPathOf(v, p) && !IsPathOf(old_, p) && p != VTYSH
    ensures SameAt(w.files, Deploy(o, w, v, old_, hwOk).0.files, p)
  {
    GenerateTouchesOnlyOwn(o, w, v, p);
    DeleteTouchesOnlyOwn(o, w, old_, p);
    GenerateTouchesOnlyOwn(o, DeleteConfigs(o, w, old_).0, v, p);
  }

  lemma PatchedFiles(k: Keys, o: Faults, s: App, id: nat, row: Vrf, hwOk: bool)
    requires Consistent(k, s) && id in s.rows && RowFits(k, s.rows, id, s.rows[id]) && RowFits(k, s.rows, id, row)
    ensures OthersComplete(k, s.rows, Deploy(o, s.world, Unseal(k, row).value, s.rows[id], hwOk).0.files, id, s.rows[id], row)
  {
    var plain, old_ := Unseal(k, row).value, s.rows[id];
    var files, files' := s.world.files, Deploy(o, s.world, plain, old_, hwOk).0.files;
    PlainPaths(k, row);
    forall p | p in files' && p != VTYSH && !IsPathOf(old_, p) && !IsPathOf(row, p) ensures OwnedByOther(s.rows, id, p) {
      DeployTouchesOnlyOwn(o, s.world, plain, old_, hwOk, p);
      assert SameAt(files, files', p);
      var id' :| OwnedBy(s.rows, id', p);
    }
    forall id' | id' != id && IsDeployed(s.rows, id') ensures HasFiles(k, s.rows[id'], files') {
      NotVtysh(s.rows[id']);
      forall p | IsPathOf(s.rows[id'], p) ensures p in files && SameAt(files, files', p) {
        OtherPaths(k, s.rows, id, old_, id', p);
        OtherPaths(k, s.rows, id, row, id', p);
        DeployTouchesOnlyOwn(o, s.world, plain, old_, hwOk, p);
        assert HasFiles(k, s.rows[id'], files);
      }
    }
  }

  /** What deleting the new row's configuration has to find: its certificates there from
      the first on without a gap, and none of the old row's beside them. */
  predicate CleanupFinds(files: map<string, Content>, old_: Vrf, row: Vrf) {
    && LeadingPresent(files, CertPaths(row.clientName, row.endpoints))
    && forall p :: p in CertPaths(old_.clientName, old_.endpoints) && p in files ==> p in CertPaths(row.clientName, row.endpoints)
  }

  lemma CleanupWorks(k: Keys, o: Faults, rows: map<nat, Vrf>, w: World, id: nat, old_: Vrf, row: Vrf)
    requires RowsGood(k, rows) && RowFits(k, rows, id, row) && old_.id == id && NoFaults(o)
    requires OthersComplete(k, rows, w.files, id, old_, row) && CleanupFinds(w.files, old_, row)
    ensures FilesAgreeBut(k, rows, DeleteConfigs(o, w, row).0.files, id)
  {
    var m := LeadingIsPrefix(w.files, CertPaths(row.clientName, row.endpoints));
    AddressesDashFree(row);
    DistinctPaths(row.clientName, row.endpoints);
    DeletePrefix(o, w, row, m);
    forall p | p in w.files && p != VTYSH ensures IsPathOf(row, p) || OwnedByOther(rows, id, p) {
      if IsPathOf(old_, p) { assert IsPathOf(row, p); }
    }
    AgreeAfterRemoval(k, rows, w.files, DeleteConfigs(o, w, row).0.files, id, row);
  }

  lemma NotOthers(k: Keys, rows: map<nat, Vrf>, id: nat, row: Vrf, p: string)
    requires RowsGood(k, rows) && RowFits(k, rows, id, row) && IsPathOf(row, p)
    ensures !OwnedByOther(rows, id, p)
  {
    if OwnedByOther(rows, id, p) {
      var id' :| id' != id && OwnedBy(rows, id', p);
      OtherPaths(k, rows, id, row, id', p);
    }
  }

  lemma CleanupFails(k: Keys, o: Faults, rows: map<nat, Vrf>, w: World, id: nat, old_: Vrf, row: Vrf)
    requires RowsGood(k, rows) && RowFits(k, rows, id, row) && RowFits(k, rows, id, old_)
    requires FilesAgreeBut(k, rows, DeleteConfigs(o, w, row).0.files, id)
    ensures CleanupFinds(w.files, old_, row)
  {
    var paths, files' := CertPaths(row.clientName, row.endpoints), DeleteConfigs(o, w, row).0.files;
    AddressesDashFree(row);
    DistinctPaths(row.clientName, row.endpoints);
    NotVtysh(row);
    NotVtysh(old_);
    forall i, j | 0 <= i < j < |paths| && paths[j] in w.files ensures paths[i] in w.files {
      assert paths[j] in paths && IsPathOf(row, paths[j]);
      if paths[i] !in w.files {
        DeletionLeaves(o, w, row, i, j);
        NotOthers(k, rows, id, row, paths[j]);
      }
    }
    forall p | p in CertPaths(old_.clientName, old_.endpoints) && p in w.files ensures p in paths {
      NotOthers(k, rows, id, old_, p);
      if !IsPathOf(row, p) {
        DeleteTouchesOnlyOwn(o, w, row, p);
      } else {
        OldCertApart(old_, p);
      }
    }
  }

  lemma OldCertApart(v: Vrf, p: string)
    requires p in CertPaths(v.clientName, v.endpoints)
    ensures p != ConfPath(v.id) && p != IniPath(v.id)
  {
    var i :| 0 <= i < |CertPaths(v.clientName, v.endpoints)| && CertPaths(v.clientName, v.endpoints)[i] == p;
    CertsApart(v, i);
  }

  lemma CleanupExactly(k: Keys, o: Faults, s: App, w: World, id: nat, row: Vrf, row2: Vrf)
    requires RowsGood(k, s.rows) && id in s.rows && RowFits(k, s.rows, id, s.rows[id]) && RowFits(k, s.rows, id, row)
    requires OthersComplete(k, s.rows, w.files, id, s.rows[id], row) && NoFaults(o)
    requires RowFits(k, s.rows[id := row], id, row2) && !IsActive(row2)
    ensures Consistent(k, App(s.rows[id := row2], DeleteConfigs(o, w, row).0)) <==> CleanupFinds(w.files, s.rows[id], row)
  {
    FitsBefore(k, s.rows, id, row, row2);
    RowsStayGood(k, s.rows, id, row2);
    AgreesWithout(k, s.rows, s.rows[id := row2], DeleteConfigs(o, w, row).0.files, id);
    if CleanupFinds(w.files, s.rows[id], row) { CleanupWorks(k, o, s.rows, w, id, s.rows[id], row); }
    if FilesAgreeBut(k, s.rows, DeleteConfigs(o, w, row).0.files, id) { CleanupFails(k, o, s.rows, w, id, s.rows[id], row); }
  }

  /** What the compensation has to find: after a patch to an active row, what deleting that
      row's configuration needs; after a patch to an inactive one nothing of the old row,
      because then it calls nothing. */
  predicate Cleanable(files: map<string, Content>, old_: Vrf, row: Vrf) {
    if IsActive(row) then CleanupFinds(files, old_, row) else !Uses(files, old_)
  }

  lemma ActiveCompensated(k: Keys, o: Faults, o': Faults, s: App, id: nat, row: Vrf, row2: Vrf)
    requires Consistent(k, s) && NoFaults(o') && id in s.rows && RowFits(k, s.rows, id, row)
    requires RowFits(k, s.rows[id := row], id, row2) && !IsActive(row2)
    ensures var w := Deploy(o, s.world, Unseal(k, row).value, s.rows[id], true).0;
      Consistent(k, App(s.rows[id := row2], DeleteConfigs(o', w, row).0)) <==> CleanupFinds(w.files, s.rows[id], row)
  {
    StoredFits(k, s, id);
    PatchedFiles(k, o, s, id, row, true);
    CleanupExactly(k, o', s, Deploy(o, s.world, Unseal(k, row).value, s.rows[id], true).0, id, row, row2);
  }

  lemma InactiveCompensated(k: Keys, o: Faults, s: App, id: nat, row: Vrf, row2: Vrf)
    requires Consistent(k, s) && id in s.rows && id != HARDWARE_VRF_ID
    requires RowFits(k, s.rows[id := row], id, row2) && !IsActive(row2)
    ensures var w := Cleared(o, s.world, s.rows[id]);
      Consistent(k, App(s.rows[id := row2], w)) <==> !Uses(w.files, s.rows[id])
  {
    var files := Cleared(o, s.world, s.rows[id]).files;
    FitsBefore(k, s.rows, id, row, row2);
    RowsStayGood(k, s.rows, id, row2);
    StoredFits(k, s, id);
    ClearedOthers(k, o, s, id);
    AgreesUnlessUsed(k, s.rows, files, id, s.rows[id]);
    AgreesWithout(k, s.rows, s.rows[id := row2], files, id);
  }

  /** A patch of any software VRF, active before or not, to be activated or not, under any
      failures: patching it again as inactive brings files and rows back in step exactly
      when the compensation finds what it has to find. A deletion that stopped half-way
      breaks this; see Leftovers for such runs and for what repairs them. */
  lemma CompensationExactly(k: Keys, o: Faults, o': Faults, s: App, op: Op, ids: nat -> nat, nonces: nat -> Nonce, hwOk: bool)
    requires GoodKeys(k) && Consistent(k, s) && NoFaults(o')
    requires op.UpdateOp? && OpGood(s, op) && UpdateAccepted(s, op) && RowId(op.number) != HARDWARE_VRF_ID
    ensures var id, s1 := RowId(op.number), UpdateVrf(k, o, s, op).0;
      var s2 := UpdateVrf(k, o', s1, Inactivated(op, ids, nonces, hwOk)).0;
      && id in s1.rows && id in s2.rows && s1.rows[id].active == UpdatedVrf(s, op).active && !IsActive(s2.rows[id])
      && (Consistent(k, s2) <==> Cleanable(s1.world.files, s.rows[id], s1.rows[id]))
  {
    var id := RowId(op.number);
    var row, row2 := TwoPatches(k, o, o', s, op, ids, nonces, hwOk);
    if IsActive(row) {
      ActiveCompensated(k, o, o', s, id, row, row2);
    } else {
      InactivationClears(k, o, s.world, row, s.rows[id], true);
      InactiveCompensated(k, o, s, id, row, row2);
    }
  }

  /** The patch of an active VRF to an inactive one: the compensation calls nothing, and
      rows and files are in step after it exactly when no call of the patch that removes
      files failed. */
  lemma DeactivationExactly(k: Keys, o: Faults, o': Faults, s: App, op: Op, ids: nat -> nat, nonces: nat -> Nonce, hwOk: bool)
    requires GoodKeys(k) && Consistent(k, s) && NoFaults(o')
    requires op.UpdateOp? && OpGood(s, op) && UpdateAccepted(s, op) && RowId(op.number) != HARDWARE_VRF_ID
    requires !IsActive(UpdatedVrf(s, op))
    ensures var old_, s1 := s.rows[RowId(op.number)], UpdateVrf(k, o, s, op).0;
      var s2 := UpdateVrf(k, o', s1, Inactivated(op, ids, nonces, hwOk)).0;
      && s2.world == s1.world
      && (Consistent(k, s2) <==> !(IsActive(old_) && RemovalFails(o, s.world, old_)))
  {
    var id := RowId(op.number);
    var row, row2 := TwoPatches(k, o, o', s, op, ids, nonces, hwOk);
    InactivationClears(k, o, s.world, row, s.rows[id], true);
    InactiveCompensated(k, o, s, id, row, row2);
    LeftExactly(k, o, s, id);
    if !IsActive(s.rows[id]) { InactiveUnused(k, s, id); }
  }

  lemma InactiveUnused(k: Keys, s: App, id: nat)
    requires Consistent(k, s) && id in s.rows && id != HARDWARE_VRF_ID && !IsActive(s.rows[id])
    ensures !Uses(s.world.files, s.rows[id])
  {
    AgreeWithoutInactive(k, s.rows, s.world.files, id);
    StoredFits(k, s, id);
    RowUnused(k, s.rows, s.world.files, id, s.rows[id]);
  }

  /** So when the first call of a deactivation fails, its compensation does not help. */
  lemma FailedDeactivationStays(k: Keys, o: Faults, o': Faults, s: App, op: Op, ids: nat -> nat, nonces: nat -> Nonce, hwOk: bool)
    requires GoodKeys(k) && Consistent(k, s) && NoFaults(o') && o(s.world.tick)
    requires op.UpdateOp? && OpGood(s, op) && UpdateAccepted(s, op) && RowId(op.number) != HARDWARE_VRF_ID
    requires !IsActive(UpdatedVrf(s, op)) && IsActive(s.rows[RowId(op.number)])
    ensures !Consistent(k, UpdateVrf(k, o', UpdateVrf(k, o, s, op).0, Inactivated(op, ids, nonces, hwOk)).0)
  {
    assert !NoneFails(o, s.world.tick, 2);
    DeactivationExactly(k, o, o', s, op, ids, nonces, hwOk);
  }

  /** A create request that fails part-way, then a delete request for its row: rows, files
      and BGP instances are as before. */
  lemma FailedCreateDeleted(k: Keys, o: Faults, o': Faults, s: App, op: Op, hwOk: bool)
    requires GoodKeys(k) && Consistent(k, s) && BgpAgrees(s.rows, s.world.frr.bgp) && NoFaults(o')
    requires op.CreateOp? && OpGood(s, op) && CreateAccepted(op) && op.req.active == Some(true)
    requires HARDWARE_VRF_ID in s.rows && op.newId < 0x1_0000_0000
    ensures var s1 := CreateVrf(k, o, s, op).0;
      var s2 := DeleteVrf(o', s1, DeleteOp(op.newId, hwOk)).0;
      && op.newId in s1.rows && s2.rows == s.rows
      && Off(s2.world.files) == Off(s.world.files) && s2.world.frr.bgp == s.world.frr.bgp
  {
    var row := CreationIs(k, o, s, op);
    DeploymentDeleted(k, o, o', s, op.newId, row, hwOk);
  }

  lemma DeploymentDeleted(k: Keys, o: Faults, o': Faults, s: App, id: nat, row: Vrf, hwOk: bool)
    requires GoodKeys(k) && Consistent(k, s) && BgpAgrees(s.rows, s.world.frr.bgp) && NoFaults(o')
    requires id !in s.rows && RowFits(k, s.rows, id, row) && id < 0x1_0000_0000
    ensures var s1 := App(s.rows[id := row], GenerateConfigs(o, s.world, Unseal(k, row).value).0);
      var s2 := DeleteVrf(o', s1, DeleteOp(id, hwOk)).0;
      && s2.rows == s.rows && Off(s2.world.files) == Off(s.world.files) && s2.world.frr.bgp == s.world.frr.bgp
  {
    AgreeWithoutInactive(k, s.rows, s.world.files, id);
    DeploymentUndone(k, o, o', s.rows, s.world, id, row);
    DeleteNew(o', s.rows, GenerateConfigs(o, s.world, Unseal(k, row).value).0, id, row, hwOk);
  }

  lemma DeleteNew(o: Faults, rows: map<nat, Vrf>, w: World, id: nat, row: Vrf, hwOk: bool)
    requires id !in rows && id < 0x1_0000_0000 && id != HARDWARE_VRF_ID
    ensures DeleteVrf(o, App(rows[id := row], w), DeleteOp(id, hwOk)).0 == App(rows, DeleteConfigs(o, w, row).0)
  {
    assert rows[id := row] - {id} == rows;
  }

  lemma CreationIs(k: Keys, o: Faults, s: App, op: Op) returns (row: Vrf)
    requires GoodKeys(k) && RowsGood(k, s.rows) && op.CreateOp? && OpGood(s, op) && op.newId != HARDWARE_VRF_ID
    requires CreateAccepted(op) && op.req.active == Some(true)
    ensures RowFits(k, s.rows, op.newId, row) && IsActive(row)
    ensures row.clientName == op.req.clientName
    ensures CertPaths(row.clientName, row.endpoints) == CertPaths(op.req.clientName, op.req.endpoints)
    ensures CreateVrf(k, o, s, op).0 == App(s.rows[op.newId := row], GenerateConfigs(o, s.world, Unseal(k, row).value).0)
  {
    var sealed := CreateIsBackends(k, o, s, op);
    CreatedRowFits(k, s, op, sealed);
    var e := SoftwareEffect(k, o, s, s.(rows := s.rows[op.newId := sealed]), CreatedVrf(op), Blank(op.newId), op.nonces', op.hwOk);
    row := e.row;
    ActivationGenerates(k, o, s.world, row, Blank(op.newId), true);
    CreatedPaths(k, op, sealed, row);
  }

  lemma CreatedPaths(k: Keys, op: Op, sealed: Vrf, row: Vrf)
    requires GoodKeys(k) && op.CreateOp? && sealed == CreatedVrf(op).(endpoints := sealed.endpoints)
    requires Seal(k, CreatedVrf(op), op.nonces').Ok? && row == MergeRow(sealed, Seal(k, CreatedVrf(op), op.nonces').value)
    ensures row.clientName == op.req.clientName
    ensures CertPaths(row.clientName, row.endpoints) == CertPaths(op.req.clientName, op.req.endpoints)
  {
    StoredRow(k, sealed, CreatedVrf(op), op.nonces');
    SealedRowReads(k, CreatedVrf(op), op.nonces');
    var plain := Unseal(k, row).value;
    PlainShape(k, row);
    SamePaths(row.clientName, row.endpoints, plain.endpoints);
    IdsKeepPaths(row.clientName, op.req.endpoints, op.ids, op.newId);
  }
}
