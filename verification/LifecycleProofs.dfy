/** Over every run: the deployed files are those of the active software rows. */
module LifecycleProofs {
  import opened Base64
  import opened Crypto
  import opened Types
  import Vault
  import opened SupervisorEnv
  import opened SoftwareGenerator
  import opened DeploymentProofs
  import opened Lifecycle

  ghost predicate GoodKeys(k: Keys) { Ideal(k.p) && |k.master| == 32 }

  /** The same endpoints, up to the text of pre-shared keys. */
  predicate SameButPsk(es: seq<Endpoint>, es': seq<Endpoint>) {
    && |es| == |es'|
    && forall i :: 0 <= i < |es| ==> es'[i] == Vault.WithPsk(es[i], es'[i].auth.psk)
  }

  lemma {:induction false} OpenAllShape(p: Primitives, key: Bytes, es: seq<Endpoint>)
    requires Vault.OpenAll(p, key, es).Ok?
    ensures SameButPsk(es, Vault.OpenAll(p, key, es).value)
  {
    if es != [] { OpenAllShape(p, key, es[..|es| - 1]); }
  }

  lemma {:induction false} SamePaths(client: string, es: seq<Endpoint>, es': seq<Endpoint>)
    requires SameButPsk(es, es')
    ensures CertPaths(client, es) == CertPaths(client, es') && CertIps(es) == CertIps(es')
  {
    if es != [] { SamePaths(client, es[..|es| - 1], es'[..|es| - 1]); }
  }

  /** A row that can be read back, with addresses as YANG has them and, for software
      rows, certificate addresses that are pairwise distinct. */
  ghost predicate RowGood(k: Keys, id: nat, row: Vrf) {
    && row.id == id && row.active.Some? && Unseal(k, row).Ok? && ValidAddresses(row)
    && (id != HARDWARE_VRF_ID ==> NoDup(CertIps(row.endpoints)))
  }

  predicate IsDeployed(rows: map<nat, Vrf>, id: nat) {
    id in rows && id != HARDWARE_VRF_ID && IsActive(rows[id])
  }

  /** What deploying the unsealed row writes to a path. */
  function Deployed(k: Keys, row: Vrf): map<string, Content> {
    match Unseal(k, row)
    case Ok(plain) => PutAll(map[], FileWrites(plain))
    case Err => map[]
    case Panic => map[]
  }

  ghost predicate HasFiles(k: Keys, row: Vrf, files: map<string, Content>) {
    forall p :: IsPathOf(row, p) ==> p in files && p in Deployed(k, row) && files[p] == Deployed(k, row)[p]
  }

  ghost predicate OwnedBy(rows: map<nat, Vrf>, id: nat, p: string) {
    IsDeployed(rows, id) && IsPathOf(rows[id], p)
  }

  ghost predicate OwnedByOther(rows: map<nat, Vrf>, but: nat, p: string) {
    exists id :: id != but && OwnedBy(rows, id, p)
  }

  /** The files apart from vtysh's own are exactly those of the deployed rows, except
      that the row `but` has none. */
  ghost predicate FilesAgreeBut(k: Keys, rows: map<nat, Vrf>, files: map<string, Content>, but: nat) {
    && (forall p :: p in files && p != VTYSH ==> OwnedByOther(rows, but, p))
    && (forall id :: id != but && IsDeployed(rows, id) ==> HasFiles(k, rows[id], files))
  }

  /** The deployed files are exactly those of the active software rows, with content
      rendered from the unsealed rows. */
  ghost predicate FilesAgree(k: Keys, rows: map<nat, Vrf>, files: map<string, Content>) {
    && (forall p :: p in files && p != VTYSH ==> exists id :: OwnedBy(rows, id, p))
    && (forall id :: IsDeployed(rows, id) ==> HasFiles(k, rows[id], files))
  }

  ghost predicate RowsGood(k: Keys, rows: map<nat, Vrf>) {
    && (forall id :: id in rows ==> RowGood(k, id, rows[id]))
    && (forall id, id' :: id in rows && id' in rows && id != id' && id != HARDWARE_VRF_ID && id' != HARDWARE_VRF_ID ==>
          rows[id].clientName != rows[id'].clientName)
  }

  ghost predicate Consistent(k: Keys, s: App) {
    RowsGood(k, s.rows) && FilesAgree(k, s.rows, s.world.files)
  }

  ghost predicate Row1Kept(s: App) {
    HARDWARE_VRF_ID in s.rows && s.rows[HARDWARE_VRF_ID].clientName == HARDWARE_NAME
  }

  /** `row` may stand under `id` next to the other rows. */
  ghost predicate RowFits(k: Keys, rows: map<nat, Vrf>, id: nat, row: Vrf) {
    && id != HARDWARE_VRF_ID && RowGood(k, id, row)
    && forall id' :: id' in rows && id' != id && id' != HARDWARE_VRF_ID ==> rows[id'].clientName != row.clientName
  }

  lemma OtherPaths(k: Keys, rows: map<nat, Vrf>, id: nat, row: Vrf, id': nat, p: string)
    requires RowsGood(k, rows) && RowFits(k, rows, id, row) && id' != id && IsDeployed(rows, id')
    requires IsPathOf(rows[id'], p)
    ensures !IsPathOf(row, p)
  {
    AddressesDashFree(row);
    AddressesDashFree(rows[id']);
    PathsDisjoint(rows[id'], row, p);
  }

  /** Where `id` has no files, no path of a row that fits there is in use. */
  lemma PathsFree(k: Keys, rows: map<nat, Vrf>, files: map<string, Content>, id: nat, row: Vrf, p: string)
    requires RowsGood(k, rows) && RowFits(k, rows, id, row) && FilesAgreeBut(k, rows, files, id)
    requires IsPathOf(row, p)
    ensures p !in files
  {
    NotVtysh(row);
    if p in files {
      var id' :| id' != id && OwnedBy(rows, id', p);
      OtherPaths(k, rows, id, row, id', p);
    }
  }

  /** An inactive row or a free id: leaving it out changes nothing. */
  lemma AgreeWithoutInactive(k: Keys, rows: map<nat, Vrf>, files: map<string, Content>, id: nat)
    requires FilesAgree(k, rows, files) && !IsDeployed(rows, id)
    ensures FilesAgreeBut(k, rows, files, id)
  {
    forall p | p in files && p != VTYSH ensures OwnedByOther(rows, id, p) {
      var id' :| OwnedBy(rows, id', p);
    }
  }

  /** Only the files off vtysh's path count. */
  lemma AgreeButOff(k: Keys, rows: map<nat, Vrf>, files: map<string, Content>, files': map<string, Content>, id: nat)
    requires FilesAgreeBut(k, rows, files, id) && Off(files) == Off(files')
    ensures FilesAgreeBut(k, rows, files', id)
  {
    forall p | p in files' && p != VTYSH ensures OwnedByOther(rows, id, p) {
      assert p in Off(files');
      assert p in Off(files);
    }
    forall id' | id' != id && IsDeployed(rows, id') ensures HasFiles(k, rows[id'], files') {
      NotVtysh(rows[id']);
      forall p | IsPathOf(rows[id'], p) ensures p in files' && files'[p] == files[p] {
        assert p in Off(files);
        assert Off(files')[p] == Off(files)[p];
      }
    }
  }

  /** Taking away every path of a row that fits under `id`: the others keep theirs. */
  lemma AgreeAfterRemoval(k: Keys, rows: map<nat, Vrf>, files: map<string, Content>, files': map<string, Content>, id: nat, row: Vrf)
    requires RowsGood(k, rows) && RowFits(k, rows, id, row)
    requires forall p :: p in files && p != VTYSH ==> IsPathOf(row, p) || OwnedByOther(rows, id, p)
    requires forall id' :: id' != id && IsDeployed(rows, id') ==> HasFiles(k, rows[id'], files)
    requires Off(files') == Off(files) - PathSet(row)
    ensures FilesAgreeBut(k, rows, files', id)
  {
    forall p | p in files' && p != VTYSH ensures OwnedByOther(rows, id, p) {
      assert p in Off(files');
      assert p in Off(files) && p !in PathSet(row);
      assert !IsPathOf(row, p);
    }
    forall id' | id' != id && IsDeployed(rows, id') ensures HasFiles(k, rows[id'], files') {
      forall p | IsPathOf(rows[id'], p) ensures p in files' && p in files && files'[p] == files[p] {
        assert HasFiles(k, rows[id'], files);
        OtherPaths(k, rows, id, row, id', p);
        NotVtysh(rows[id']);
        KeptAt(files, files', row, p);
      }
    }
  }

  lemma KeptAt(files: map<string, Content>, files': map<string, Content>, row: Vrf, p: string)
    requires Off(files') == Off(files) - PathSet(row) && p in files && p != VTYSH && !IsPathOf(row, p)
    ensures p in files' && files'[p] == files[p]
  {
    assert p in Off(files) && p !in PathSet(row);
    assert p in Off(files') && Off(files')[p] == Off(files)[p];
  }

  /** Files of `id` gone and its row inactive or gone: everything agrees. */
  lemma AgreeInactive(k: Keys, rows: map<nat, Vrf>, rows': map<nat, Vrf>, files: map<string, Content>, id: nat)
    requires FilesAgreeBut(k, rows, files, id) && !IsDeployed(rows', id)
    requires forall id' :: id' != id ==> (id' in rows <==> id' in rows') && (id' in rows ==> rows'[id'] == rows[id'])
    ensures FilesAgree(k, rows', files)
  {
    forall p | p in files && p != VTYSH ensures exists id' :: OwnedBy(rows', id', p) {
      var id' :| id' != id && OwnedBy(rows, id', p);
      assert OwnedBy(rows', id', p);
    }
  }

  /** A complete deployment of a row on a host without files of it. */
  lemma AgreeDeployed(k: Keys, rows: map<nat, Vrf>, rows': map<nat, Vrf>, files: map<string, Content>, files': map<string, Content>, id: nat)
    requires RowsGood(k, rows) && FilesAgreeBut(k, rows, files, id) && IsDeployed(rows', id) && RowFits(k, rows, id, rows'[id])
    requires forall id' :: id' != id ==> (id' in rows <==> id' in rows') && (id' in rows ==> rows'[id'] == rows[id'])
    requires Off(files') == Off(PutAll(files, FileWrites(Unseal(k, rows'[id]).value)))
    ensures FilesAgree(k, rows', files')
  {
    var row, plain := rows'[id], Unseal(k, rows'[id]).value;
    var ws, put := FileWrites(plain), PutAll(files, FileWrites(plain));
    PlainPaths(k, row);
    assert forall p :: p != VTYSH ==> (p in files' <==> p in put) && (p in put ==> files'[p] == put[p]) by {
      forall p: string | p != VTYSH ensures (p in files' <==> p in put) && (p in put ==> files'[p] == put[p]) {
        assert p in files' <==> p in Off(files');
        assert p in put <==> p in Off(put);
        if p in put { assert Off(files')[p] == Off(put)[p]; }
      }
    }
    forall p | p in files' && p != VTYSH ensures exists id' :: OwnedBy(rows', id', p) {
      PutAllEffect(files, ws, p);
      FileWritesPaths(plain, p);
      if p in files {
        var id' :| id' != id && OwnedBy(rows, id', p);
        assert OwnedBy(rows', id', p);
      } else {
        assert OwnedBy(rows', id, p);
      }
    }
    NotVtysh(row);
    forall p | IsPathOf(row, p) ensures p in files' && p in Deployed(k, row) && files'[p] == Deployed(k, row)[p] {
      PutAllEffect(files, ws, p);
      FileWritesPaths(plain, p);
    }
    assert HasFiles(k, row, files');
    forall id' | id' != id && IsDeployed(rows', id') ensures HasFiles(k, rows'[id'], files') {
      NotVtysh(rows[id']);
      forall p | IsPathOf(rows[id'], p) ensures p in files' && files'[p] == files[p] {
        OtherPaths(k, rows, id, row, id', p);
        PutAllEffect(files, ws, p);
        FileWritesPaths(plain, p);
      }
    }
  }

  /** Sealing keeps everything that paths and environments are made of. */
  lemma PlainPaths(k: Keys, row: Vrf)
    requires Unseal(k, row).Ok? && ValidAddresses(row)
    ensures var plain := Unseal(k, row).value;
      && plain == row.(endpoints := plain.endpoints)
      && Environ(plain).Some?
      && ShouldDoFrr(plain) == ShouldDoFrr(row)
      && forall p :: IsPathOf(plain, p) <==> IsPathOf(row, p)
  {
    var plain := Unseal(k, row).value;
    PlainShape(k, row);
    SamePaths(row.clientName, row.endpoints, plain.endpoints);
    SameAddresses(row, plain);
    EnvironmentSome(plain);
  }

  lemma PlainShape(k: Keys, row: Vrf)
    requires Unseal(k, row).Ok?
    ensures var plain := Unseal(k, row).value;
      plain == row.(endpoints := plain.endpoints) && SameButPsk(row.endpoints, plain.endpoints)
  {
    OpenAllShape(k.p, k.master, row.endpoints);
  }

  lemma SameAddresses(row: Vrf, plain: Vrf)
    requires plain == row.(endpoints := plain.endpoints) && SameButPsk(row.endpoints, plain.endpoints) && ValidAddresses(row)
    ensures ValidAddresses(plain) && ShouldDoFrr(plain) == ShouldDoFrr(row)
  {
    var es, es' := row.endpoints, plain.endpoints;
    assert forall i :: 0 <= i < |es| ==>
      es'[i].bgp == es[i].bgp && es'[i].localIp == es[i].localIp && es'[i].peerIp == es[i].peerIp;
  }

  lemma EnvironmentSome(v: Vrf)
    requires ValidAddresses(v)
    ensures Environ(v).Some?
  {
    EnvironmentRoundTrip(v);
  }

  /** The files of a deployed row are all there, or none of an undeployed one. */
  lemma CertsPresent(k: Keys, s: App, id: nat)
    requires Consistent(k, s) && id in s.rows && id != HARDWARE_VRF_ID
    ensures var paths := CertPaths(s.rows[id].clientName, s.rows[id].endpoints);
      && NoDup(paths)
      && PresentPrefix(s.world.files, paths, if IsActive(s.rows[id]) then |paths| else 0)
  {
    var row := s.rows[id];
    var paths := CertPaths(row.clientName, row.endpoints);
    AddressesDashFree(row);
    DistinctPaths(row.clientName, row.endpoints);
    forall i | 0 <= i < |paths| ensures paths[i] in s.world.files <==> IsActive(row) {
      assert paths[i] in paths && IsPathOf(row, paths[i]);
      if !IsActive(row) {
        AgreeWithoutInactive(k, s.rows, s.world.files, id);
        PathsFree(k, s.rows, s.world.files, id, row, paths[i]);
      }
    }
  }

  /** Deleting the configuration of a stored row, without faults: afterwards nothing of
      it is left, and the answer is an error exactly when an inactive row has
      certificates to remove. */
  lemma DeleteStored(k: Keys, o: Faults, s: App, id: nat)
    requires Consistent(k, s) && NoFaults(o) && id in s.rows && id != HARDWARE_VRF_ID
    ensures var (w, ok) := DeleteConfigs(o, s.world, s.rows[id]);
      && FilesAgreeBut(k, s.rows, w.files, id)
      && w.frr == RunCommand(s.world.frr, NoRouterBgp(s.rows[id].localAs, id))
      && (ok <==> IsActive(s.rows[id]) || CertIps(s.rows[id].endpoints) == [])
  {
    var row := s.rows[id];
    var paths := CertPaths(row.clientName, row.endpoints);
    CertsPresent(k, s, id);
    DeletePrefix(o, s.world, row, if IsActive(row) then |paths| else 0);
    NoIpsNoPaths(row.clientName, row.endpoints);
    var w := DeleteConfigs(o, s.world, row).0;
    forall p | p in s.world.files && p != VTYSH
      ensures IsPathOf(row, p) || OwnedByOther(s.rows, id, p)
    {
      var id' :| OwnedBy(s.rows, id', p);
    }
    AgreeAfterRemoval(k, s.rows, s.world.files, w.files, id, row);
  }

  lemma {:induction false} NoIpsNoPaths(client: string, es: seq<Endpoint>)
    ensures CertIps(es) == [] <==> CertPaths(client, es) == []
  {
    if es != [] { NoIpsNoPaths(client, es[..|es| - 1]); }
  }

  /** An old configuration, if there is one, is gone before a new one is deployed. */
  function Cleared(o: Faults, w: World, old_: Vrf): World {
    if IsActive(old_) then DeleteConfigs(o, w, old_).0 else w
  }

  lemma ClearedAgrees(k: Keys, o: Faults, s: App, id: nat, old_: Vrf)
    requires Consistent(k, s) && NoFaults(o) && id != HARDWARE_VRF_ID
    requires if id in s.rows then old_ == s.rows[id] else !IsActive(old_)
    ensures FilesAgreeBut(k, s.rows, Cleared(o, s.world, old_).files, id)
    ensures IsActive(old_) ==> DeleteConfigs(o, s.world, old_).1
  {
    if IsActive(old_) {
      DeleteStored(k, o, s, id);
    } else {
      AgreeWithoutInactive(k, s.rows, s.world.files, id);
    }
  }

  lemma RowsStayGood(k: Keys, rows: map<nat, Vrf>, id: nat, row: Vrf)
    requires RowsGood(k, rows) && RowFits(k, rows, id, row)
    ensures RowsGood(k, rows[id := row])
  {
  }

  /** A software row is replaced and deployed, without faults: the answer is good unless
      the handler trips over a missing OSPF flag, and the files agree in either case. */
  lemma DeployConsistent(k: Keys, o: Faults, s: App, id: nat, row: Vrf, old_: Vrf, hwOk: bool)
    requires Consistent(k, s) && NoFaults(o) && RowFits(k, s.rows, id, row)
    requires if id in s.rows then old_ == s.rows[id] else !IsActive(old_)
    ensures var (w, answer) := Deploy(o, s.world, Unseal(k, row).value, old_, hwOk);
      && Consistent(k, App(s.rows[id := row], w))
      && answer == if IsActive(row) && row.ospf.None? then Panicked else Success
  {
    var plain, rows' := Unseal(k, row).value, s.rows[id := row];
    var w1 := Cleared(o, s.world, old_);
    PlainPaths(k, row);
    ClearedAgrees(k, o, s, id, old_);
    RowsStayGood(k, s.rows, id, row);
    if IsActive(row) {
      GenerateNoFaults(o, w1, plain);
      AgreeDeployed(k, s.rows, rows', w1.files, GenerateConfigs(o, w1, plain).0.files, id);
    } else {
      AgreeInactive(k, s.rows, rows', w1.files, id);
    }
  }
}
