/** The handlers step by step and over whole runs. */
module LifecycleRuns {
  import opened Base64
  import opened Crypto
  import opened Types
  import Vault
  import VaultRefinement
  import opened Validation
  import opened SupervisorEnv
  import opened SoftwareGenerator
  import opened DeploymentProofs
  import opened Lifecycle
  import opened LifecycleProofs

  /** Sealing what is stored and unsealing what is read gives the endpoints back. */
  lemma SealedRowReads(k: Keys, v: Vrf, nonces: nat -> Nonce)
    requires GoodKeys(k)
    ensures Seal(k, v, nonces).Ok?
    ensures var sealed := Seal(k, v, nonces).value;
      sealed == v.(endpoints := sealed.endpoints) && Vault.OpenAll(k.p, k.master, sealed.endpoints) == Ok(v.endpoints)
  {
    VaultRefinement.SealAllRefines(k.p, k.master, v.endpoints, nonces);
    VaultRefinement.OpenAllRefines(k.p, k.master, Vault.SealAll(k.p, k.master, v.endpoints, nonces).value, v.endpoints);
  }

  /** The row that _updateBackends stores, and what it reads back. */
  lemma StoredRow(k: Keys, old_: Vrf, v: Vrf, nonces: nat -> Nonce)
    requires GoodKeys(k)
    ensures Seal(k, v, nonces).Ok?
    ensures var row := MergeRow(old_, Seal(k, v, nonces).value);
      Unseal(k, row) == Ok(MergeRow(old_, v))
  {
    SealedRowReads(k, v, nonces);
  }

  /** A row reads back with the same certificate addresses and tunnel addresses. */
  lemma RowGoodFromPlain(k: Keys, id: nat, row: Vrf)
    requires Unseal(k, row).Ok? && row.id == id && row.active.Some?
    requires ValidAddresses(Unseal(k, row).value)
    requires id != HARDWARE_VRF_ID ==> NoDup(CertIps(Unseal(k, row).value.endpoints))
    ensures RowGood(k, id, row)
  {
    var plain := Unseal(k, row).value;
    PlainShape(k, row);
    SamePaths(row.clientName, row.endpoints, plain.endpoints);
    var es, es' := row.endpoints, plain.endpoints;
    assert forall i :: 0 <= i < |es| ==> es'[i].localIp == es[i].localIp && es'[i].peerIp == es[i].peerIp;
  }

  /** What the theorems ask of a request: addresses of the YANG types, certificate
      addresses that are pairwise distinct, and a client name that no other software VRF
      has. */
  ghost predicate RequestGood(rows: map<nat, Vrf>, id: nat, req: Vrf) {
    && ValidAddresses(req)
    && (id != HARDWARE_VRF_ID ==>
          && NoDup(CertIps(req.endpoints))
          && forall id' :: id' in rows && id' != id && id' != HARDWARE_VRF_ID ==> rows[id'].clientName != req.clientName)
  }

  ghost predicate OpGood(s: App, op: Op) {
    match op
    case CreateOp(_, req, newId, _, _, _, _) => newId !in s.rows && RequestGood(s.rows, newId, req)
    case UpdateOp(_, number, req, _, _, _) => RequestGood(s.rows, RowId(number), req)
    case DeleteOp(_, _) => true
  }

  /** A number that names row 1 only after it is cut down to 32 bits. */
  predicate WrapsToRow1(number: nat) { number != HARDWARE_VRF_ID && Parses(number) && RowId(number) == HARDWARE_VRF_ID }

  lemma {:induction false} IdsKeepIps(es: seq<Endpoint>, ids: nat -> nat, vrf: nat)
    ensures CertIps(WithIds(es, ids, vrf)) == CertIps(es)
  {
    if es != [] {
      IdsKeepIps(es[..|es| - 1], ids, vrf);
      assert WithIds(es, ids, vrf)[..|es| - 1] == WithIds(es[..|es| - 1], ids, vrf);
    }
  }

  /** The merged row of a good request fits in. */
  lemma MergedRowFits(k: Keys, rows: map<nat, Vrf>, id: nat, old_: Vrf, v: Vrf, nonces: nat -> Nonce)
    requires GoodKeys(k) && v.id == id && v.active.Some? && id != HARDWARE_VRF_ID
    requires ValidAddresses(v) && NoDup(CertIps(v.endpoints))
    requires forall id' :: id' in rows && id' != id && id' != HARDWARE_VRF_ID ==>
      rows[id'].clientName != v.clientName && rows[id'].clientName != old_.clientName
    ensures Seal(k, v, nonces).Ok? && RowFits(k, rows, id, MergeRow(old_, Seal(k, v, nonces).value))
  {
    StoredRow(k, old_, v, nonces);
    SealedRowReads(k, v, nonces);
    RowGoodFromPlain(k, id, MergeRow(old_, Seal(k, v, nonces).value));
  }

  predicate CreateAccepted(op: Op)
    requires op.CreateOp?
  {
    JsonOk(op.req) && VrfOk(op.req) && op.auth
  }

  /** An accepted create stores a sealed row, reads it back, and goes on like an update. */
  lemma CreateIsBackends(k: Keys, o: Faults, s: App, op: Op) returns (sealed: Vrf)
    requires GoodKeys(k) && op.CreateOp? && CreateAccepted(op)
    ensures Unseal(k, sealed) == Ok(CreatedVrf(op)) && sealed == CreatedVrf(op).(endpoints := sealed.endpoints)
    ensures CreateVrf(k, o, s, op) ==
      UpdateBackends(k, o, s.(rows := s.rows[op.newId := sealed]), CreatedVrf(op), Blank(op.newId), op.nonces', op.hwOk)
  {
    SealedRowReads(k, CreatedVrf(op), op.nonces);
    sealed := Seal(k, CreatedVrf(op), op.nonces).value;
    assert Unseal(k, sealed) == Ok(CreatedVrf(op));
  }

  lemma CreatedRowFits(k: Keys, s: App, op: Op, sealed: Vrf)
    requires GoodKeys(k) && RowsGood(k, s.rows) && op.CreateOp? && OpGood(s, op) && op.newId != HARDWARE_VRF_ID
    requires sealed == CreatedVrf(op).(endpoints := sealed.endpoints)
    ensures Seal(k, CreatedVrf(op), op.nonces').Ok?
    ensures RowFits(k, s.rows, op.newId, MergeRow(sealed, Seal(k, CreatedVrf(op), op.nonces').value))
  {
    IdsKeepIps(op.req.endpoints, op.ids, op.newId);
    MergedRowFits(k, s.rows, op.newId, sealed, CreatedVrf(op), op.nonces');
  }

  /** The row that an accepted update writes. */
  function UpdatedVrf(s: App, op: Op): Vrf
    requires op.UpdateOp? && RowId(op.number) in s.rows
  {
    var id := RowId(op.number);
    op.req.(id := id, active := if op.req.active.None? then s.rows[id].active else op.req.active,
      endpoints := WithIds(op.req.endpoints, op.ids, id))
  }

  predicate UpdateAccepted(s: App, op: Op)
    requires op.UpdateOp?
  {
    && Parses(op.number)
    && (if op.number != HARDWARE_VRF_ID then JsonOk(op.req) else IPv4Only(op.req.endpoints))
    && (RowId(op.number) != HARDWARE_VRF_ID ==> VrfOk(op.req))
    && RowId(op.number) in s.rows
    && (RowId(op.number) == HARDWARE_VRF_ID ==> op.req.clientName == s.rows[RowId(op.number)].clientName)
    && op.auth
  }

  lemma UpdateIsBackends(k: Keys, o: Faults, s: App, op: Op)
    requires op.UpdateOp?
    ensures UpdateAccepted(s, op) ==>
      UpdateVrf(k, o, s, op) == UpdateBackends(k, o, s, UpdatedVrf(s, op), s.rows[RowId(op.number)], op.nonces, op.hwOk)
    ensures !UpdateAccepted(s, op) ==>
      UpdateVrf(k, o, s, op).0 == s && UpdateVrf(k, o, s, op).1 in {Refused, ServerError}
  {
  }

  lemma UpdatedRowFits(k: Keys, s: App, op: Op)
    requires GoodKeys(k) && RowsGood(k, s.rows) && op.UpdateOp? && UpdateAccepted(s, op)
    requires RequestGood(s.rows, RowId(op.number), op.req) && RowId(op.number) != HARDWARE_VRF_ID
    ensures var id, v := RowId(op.number), UpdatedVrf(s, op);
      Seal(k, v, op.nonces).Ok? && RowFits(k, s.rows, id, MergeRow(s.rows[id], Seal(k, v, op.nonces).value))
  {
    var id := RowId(op.number);
    IdsKeepIps(op.req.endpoints, op.ids, id);
    assert RowGood(k, id, s.rows[id]);
    MergedRowFits(k, s.rows, id, s.rows[id], UpdatedVrf(s, op), op.nonces);
  }

  /** An accepted create or update of a software VRF. */
  predicate Replaces(s: App, op: Op) {
    match op
    case CreateOp(_, _, newId, _, _, _, _) => CreateAccepted(op) && newId != HARDWARE_VRF_ID
    case UpdateOp(_, number, _, _, _, _) => UpdateAccepted(s, op) && RowId(number) != HARDWARE_VRF_ID
    case DeleteOp(_, _) => false
  }

  /** The row that it leads to, in the clear. */
  function Wanted(s: App, op: Op): Vrf
    requires Replaces(s, op)
  {
    if op.CreateOp? then CreatedVrf(op) else MergeRow(s.rows[RowId(op.number)], UpdatedVrf(s, op))
  }

  /** The row that it finds, or an inactive stand-in. */
  function Found(s: App, op: Op): Vrf
    requires Replaces(s, op)
  {
    if op.CreateOp? then Blank(op.newId) else s.rows[RowId(op.number)]
  }

  /** What a request does to software VRFs: nothing, a row that is written and deployed, or
      a row that is taken down and deleted. `old_` is the row before, or an inactive
      stand-in. */
  datatype Effect = Idle | Replaced(id: nat, row: Vrf, old_: Vrf) | Removed(id: nat)

  ghost predicate SameSoftware(rows: map<nat, Vrf>, rows': map<nat, Vrf>) {
    forall id :: id != HARDWARE_VRF_ID ==> (id in rows' <==> id in rows) && (id in rows ==> rows'[id] == rows[id])
  }

  ghost predicate HasEffect(k: Keys, o: Faults, s: App, s': App, answer: Answer, e: Effect) {
    match e
    case Idle => s'.world == s.world && SameSoftware(s.rows, s'.rows) && RowsGood(k, s'.rows) && answer != Panicked
    case Replaced(id, row, old_) =>
      && RowFits(k, s.rows, id, row) && (if id in s.rows then old_ == s.rows[id] else !IsActive(old_))
      && s'.rows == s.rows[id := row]
      && (s'.world, answer) == Deploy(o, s.world, Unseal(k, row).value, old_, true)
    case Removed(id) =>
      && id in s.rows && id != HARDWARE_VRF_ID && s'.rows == s.rows - {id}
      && var (w, ok) := DeleteConfigs(o, s.world, s.rows[id]);
         s'.world == w && answer == if ok then Success else ServerError
  }

  /** Only the hardware VRF's backend can say no to a deployment. */
  lemma DeployWithoutSwitch(o: Faults, w: World, v: Vrf, old_: Vrf, hwOk: bool)
    requires v.id != HARDWARE_VRF_ID
    ensures Deploy(o, w, v, old_, hwOk) == Deploy(o, w, v, old_, true)
  {
  }

  /** _updateBackends on a software row. `s1` is `s` with the row as it is stored. */
  lemma SoftwareEffect(k: Keys, o: Faults, s: App, s1: App, v: Vrf, old_: Vrf, nonces: nat -> Nonce, hwOk: bool) returns (e: Effect)
    requires GoodKeys(k) && v.id in s1.rows && v.id != HARDWARE_VRF_ID
    requires s1.world == s.world && s1.rows == s.rows[v.id := s1.rows[v.id]]
    requires if v.id in s.rows then old_ == s.rows[v.id] else !IsActive(old_)
    requires Seal(k, v, nonces).Ok? && RowFits(k, s.rows, v.id, MergeRow(s1.rows[v.id], Seal(k, v, nonces).value))
    ensures e == Replaced(v.id, MergeRow(s1.rows[v.id], Seal(k, v, nonces).value), old_)
    ensures var (s', answer) := UpdateBackends(k, o, s1, v, old_, nonces, hwOk); HasEffect(k, o, s, s', answer, e)
  {
    var row := MergeRow(s1.rows[v.id], Seal(k, v, nonces).value);
    e := Replaced(v.id, row, old_);
    assert s1.rows[v.id := row] == s.rows[v.id := row];
    PlainShape(k, row);
    DeployWithoutSwitch(o, s.world, Unseal(k, row).value, old_, hwOk);
  }

  lemma HardwareRowFits(k: Keys, old_: Vrf, v: Vrf, nonces: nat -> Nonce) returns (row: Vrf)
    requires GoodKeys(k) && v.id == HARDWARE_VRF_ID && ValidAddresses(v) && v.active.Some?
    ensures Seal(k, v, nonces).Ok? && row == MergeRow(old_, Seal(k, v, nonces).value)
    ensures RowGood(k, HARDWARE_VRF_ID, row) && Unseal(k, row).Ok? && Unseal(k, row).value.id == HARDWARE_VRF_ID
  {
    StoredRow(k, old_, v, nonces);
    row := MergeRow(old_, Seal(k, v, nonces).value);
    RowGoodFromPlain(k, HARDWARE_VRF_ID, row);
    PlainShape(k, row);
  }

  lemma HardwareBackends(k: Keys, o: Faults, s: App, v: Vrf, old_: Vrf, nonces: nat -> Nonce, hwOk: bool) returns (row: Vrf)
    requires GoodKeys(k) && v.id == HARDWARE_VRF_ID && v.id in s.rows && ValidAddresses(v) && v.active.Some?
    ensures RowGood(k, HARDWARE_VRF_ID, row)
    ensures var (s', answer) := UpdateBackends(k, o, s, v, old_, nonces, hwOk);
      s' == App(s.rows[HARDWARE_VRF_ID := row], s.world) && answer != Panicked
  {
    row := HardwareRowFits(k, s.rows[v.id], v, nonces);
    DeployOnSwitch(o, s.world, Unseal(k, row).value, old_, hwOk);
  }

  lemma IdleOf(k: Keys, o: Faults, s: App, s': App, answer: Answer, row: Vrf)
    requires RowsGood(k, s.rows) && RowGood(k, HARDWARE_VRF_ID, row) && answer != Panicked
    requires s' == App(s.rows[HARDWARE_VRF_ID := row], s.world)
    ensures HasEffect(k, o, s, s', answer, Idle)
  {
    HardwareRowReplaced(k, s.rows, row);
  }

  /** On row 1 files and software rows stay as they are. */
  lemma HardwareIdle(k: Keys, o: Faults, s: App, s1: App, v: Vrf, old_: Vrf, nonces: nat -> Nonce, hwOk: bool)
    requires GoodKeys(k) && RowsGood(k, s.rows) && v.id == HARDWARE_VRF_ID && v.id in s1.rows
    requires s1.world == s.world && s1.rows == s.rows[v.id := s1.rows[v.id]]
    requires ValidAddresses(v) && v.active.Some?
    ensures var (s', answer) := UpdateBackends(k, o, s1, v, old_, nonces, hwOk); HasEffect(k, o, s, s', answer, Idle)
  {
    var row := HardwareBackends(k, o, s1, v, old_, nonces, hwOk);
    var (s', answer) := UpdateBackends(k, o, s1, v, old_, nonces, hwOk);
    assert s1.rows[v.id := row] == s.rows[v.id := row];
    IdleOf(k, o, s, s', answer, row);
  }

  lemma DeployOnSwitch(o: Faults, w: World, v: Vrf, old_: Vrf, hwOk: bool)
    requires v.id == HARDWARE_VRF_ID
    ensures Deploy(o, w, v, old_, hwOk).0 == w && Deploy(o, w, v, old_, hwOk).1 != Panicked
  {
  }

  lemma HardwareRowReplaced(k: Keys, rows: map<nat, Vrf>, row: Vrf)
    requires RowsGood(k, rows) && RowGood(k, HARDWARE_VRF_ID, row)
    ensures RowsGood(k, rows[HARDWARE_VRF_ID := row]) && SameSoftware(rows, rows[HARDWARE_VRF_ID := row])
  {
  }

  lemma HardwareRowGood(k: Keys)
    requires GoodKeys(k)
    ensures RowGood(k, HARDWARE_VRF_ID, HARDWARE_ROW)
  {
  }

  lemma CreateEffect(k: Keys, o: Faults, s: App, op: Op) returns (e: Effect)
    requires GoodKeys(k) && RowsGood(k, s.rows) && op.CreateOp? && OpGood(s, op)
    ensures var (s', answer) := CreateVrf(k, o, s, op); HasEffect(k, o, s, s', answer, e)
    ensures AsRequested(k, s, op, e)
  {
    e := Idle;
    if CreateAccepted(op) {
      var sealed := CreateIsBackends(k, o, s, op);
      var s1 := s.(rows := s.rows[op.newId := sealed]);
      if op.newId == HARDWARE_VRF_ID {
        HardwareIdle(k, o, s, s1, CreatedVrf(op), Blank(op.newId), op.nonces', op.hwOk);
      } else {
        CreatedRowFits(k, s, op, sealed);
        e := SoftwareEffect(k, o, s, s1, CreatedVrf(op), Blank(op.newId), op.nonces', op.hwOk);
        StoredRow(k, sealed, CreatedVrf(op), op.nonces');
      }
    }
  }

  lemma UpdateEffect(k: Keys, o: Faults, s: App, op: Op) returns (e: Effect)
    requires GoodKeys(k) && RowsGood(k, s.rows) && op.UpdateOp? && OpGood(s, op)
    ensures var (s', answer) := UpdateVrf(k, o, s, op); HasEffect(k, o, s, s', answer, e)
    ensures AsRequested(k, s, op, e)
  {
    e := Idle;
    UpdateIsBackends(k, o, s, op);
    if UpdateAccepted(s, op) {
      var id := RowId(op.number);
      assert s.rows[id := s.rows[id]] == s.rows && RowGood(k, id, s.rows[id]);
      if id == HARDWARE_VRF_ID {
        HardwareIdle(k, o, s, s, UpdatedVrf(s, op), s.rows[id], op.nonces, op.hwOk);
      } else {
        UpdatedRowFits(k, s, op);
        e := SoftwareEffect(k, o, s, s, UpdatedVrf(s, op), s.rows[id], op.nonces, op.hwOk);
        StoredRow(k, s.rows[id], UpdatedVrf(s, op), op.nonces);
      }
    }
  }

  predicate DeletesSoftware(s: App, op: Op)
    requires op.DeleteOp?
  {
    Parses(op.number) && RowId(op.number) in s.rows && RowId(op.number) != HARDWARE_VRF_ID
  }

  lemma SoftwareDelete(o: Faults, s: App, op: Op)
    requires op.DeleteOp? && DeletesSoftware(s, op)
    ensures var id := RowId(op.number);
      var (w, ok) := DeleteConfigs(o, s.world, s.rows[id]);
      DeleteVrf(o, s, op) == (App(s.rows - {id}, w), if ok then Success else ServerError)
  {
  }

  lemma OtherDelete(o: Faults, s: App, op: Op)
    requires op.DeleteOp? && !DeletesSoftware(s, op)
    ensures var (s', answer) := DeleteVrf(o, s, op);
      && s'.world == s.world && answer != Panicked
      && s'.rows in {s.rows, s.rows - {HARDWARE_VRF_ID}, (s.rows - {HARDWARE_VRF_ID})[HARDWARE_VRF_ID := HARDWARE_ROW]}
  {
  }

  lemma DeleteEffect(k: Keys, o: Faults, s: App, op: Op) returns (e: Effect)
    requires GoodKeys(k) && RowsGood(k, s.rows) && op.DeleteOp?
    ensures var (s', answer) := DeleteVrf(o, s, op); HasEffect(k, o, s, s', answer, e)
    ensures AsRequested(k, s, op, e)
  {
    if DeletesSoftware(s, op) {
      SoftwareDelete(o, s, op);
      e := Removed(RowId(op.number));
    } else {
      OtherDelete(o, s, op);
      HardwareRowGood(k);
      HardwareRowDropped(k, s.rows);
      e := Idle;
    }
  }

  lemma HardwareRowDropped(k: Keys, rows: map<nat, Vrf>)
    requires RowsGood(k, rows) && RowGood(k, HARDWARE_VRF_ID, HARDWARE_ROW)
    ensures RowsGood(k, rows - {HARDWARE_VRF_ID}) && SameSoftware(rows, rows - {HARDWARE_VRF_ID})
    ensures var rows' := (rows - {HARDWARE_VRF_ID})[HARDWARE_VRF_ID := HARDWARE_ROW]; RowsGood(k, rows') && SameSoftware(rows, rows')
  {
  }

  /** The row that a request is about. */
  function TargetId(op: Op): nat {
    match op
    case CreateOp(_, _, newId, _, _, _, _) => newId
    case UpdateOp(_, number, _, _, _, _) => RowId(number)
    case DeleteOp(number, _) => RowId(number)
  }

  /** Which of the effects a request has, and with which row, can be told before it. */
  ghost predicate AsRequested(k: Keys, s: App, op: Op, e: Effect) {
    match e
    case Idle => !Replaces(s, op) && (op.DeleteOp? ==> !DeletesSoftware(s, op))
    case Replaced(id, row, old_) =>
      Replaces(s, op) && id == TargetId(op) && Unseal(k, row) == Ok(Wanted(s, op)) && old_ == Found(s, op)
    case Removed(id) => op.DeleteOp? && DeletesSoftware(s, op) && id == TargetId(op)
  }

  /** Every request, under any faults, has one of the three effects, on the row it is
      about. */
  lemma StepEffect(k: Keys, o: Faults, s: App, op: Op) returns (e: Effect)
    requires GoodKeys(k) && RowsGood(k, s.rows) && OpGood(s, op)
    ensures var (s', answer) := Step(k, o, s, op); HasEffect(k, o, s, s', answer, e)
    ensures AsRequested(k, s, op, e)
  {
    match op
    case CreateOp(_, _, _, _, _, _, _) => e := CreateEffect(k, o, s, op);
    case UpdateOp(_, _, _, _, _, _) => e := UpdateEffect(k, o, s, op);
    case DeleteOp(_, _) => e := DeleteEffect(k, o, s, op);
  }

  /** Without faults a request panics exactly when it leaves an active row without an OSPF
      flag. */
  predicate Crashing(e: Effect) { e.Replaced? && IsActive(e.row) && e.row.ospf.None? }

  lemma EffectConsistent(k: Keys, o: Faults, s: App, s': App, answer: Answer, e: Effect)
    requires GoodKeys(k) && Consistent(k, s) && NoFaults(o) && HasEffect(k, o, s, s', answer, e)
    ensures Consistent(k, s') && (answer == Panicked <==> Crashing(e))
  {
    match e
    case Idle => IdleAgrees(k, s.rows, s'.rows, s.world.files);
    case Replaced(id, row, old_) => DeployConsistent(k, o, s, id, row, old_, true);
    case Removed(id) => SoftwareRowDeleted(k, o, s, id);
  }

  lemma IdleAgrees(k: Keys, rows: map<nat, Vrf>, rows': map<nat, Vrf>, files: map<string, Content>)
    requires SameSoftware(rows, rows') && FilesAgree(k, rows, files)
    ensures FilesAgree(k, rows', files)
  {
    forall p | p in files && p != VTYSH ensures exists id :: OwnedBy(rows', id, p) {
      var id :| OwnedBy(rows, id, p);
      assert OwnedBy(rows', id, p);
    }
  }

  lemma SoftwareRowDeleted(k: Keys, o: Faults, s: App, id: nat)
    requires Consistent(k, s) && NoFaults(o) && id in s.rows && id != HARDWARE_VRF_ID
    ensures Consistent(k, App(s.rows - {id}, DeleteConfigs(o, s.world, s.rows[id]).0))
  {
    var w := DeleteConfigs(o, s.world, s.rows[id]).0;
    DeleteStored(k, o, s, id);
    AgreeInactive(k, s.rows, s.rows - {id}, w.files, id);
  }

  /** Without faults every request, accepted or not, keeps rows and files in step. */
  lemma StepConsistent(k: Keys, o: Faults, s: App, op: Op)
    requires GoodKeys(k) && Consistent(k, s) && NoFaults(o) && OpGood(s, op)
    ensures Consistent(k, Step(k, o, s, op).0)
  {
    var e := StepEffect(k, o, s, op);
    EffectConsistent(k, o, s, Step(k, o, s, op).0, Step(k, o, s, op).1, e);
  }

  /** An accepted request that leaves a software VRF active, when neither it nor the row
      before has an OSPF flag. */
  predicate Panics(s: App, op: Op) {
    match op
    case CreateOp(_, req, newId, _, _, _, _) =>
      CreateAccepted(op) && newId != HARDWARE_VRF_ID && IsActive(req) && req.ospf.None?
    case UpdateOp(_, number, req, _, _, _) =>
      && UpdateAccepted(s, op) && RowId(number) != HARDWARE_VRF_ID && IsActive(UpdatedVrf(s, op))
      && req.ospf.None? && s.rows[RowId(number)].ospf.None?
    case DeleteOp(_, _) => false
  }

  lemma PanicsAsWanted(k: Keys, s: App, op: Op, e: Effect)
    requires AsRequested(k, s, op, e)
    ensures Panics(s, op) <==> Crashing(e)
  {
    if e.Replaced? { PlainShape(k, e.row); }
  }

  /** Without faults these are the requests that panic. */
  lemma StepPanics(k: Keys, o: Faults, s: App, op: Op)
    requires GoodKeys(k) && Consistent(k, s) && NoFaults(o) && OpGood(s, op)
    ensures Step(k, o, s, op).1 == Panicked <==> Panics(s, op)
  {
    var e := StepEffect(k, o, s, op);
    EffectConsistent(k, o, s, Step(k, o, s, op).0, Step(k, o, s, op).1, e);
    PanicsAsWanted(k, s, op, e);
  }

  /** So does a delete, whatever it answers: an inactive VRF with certificates is answered
      with an error and still goes. */
  lemma DeleteConsistent(k: Keys, o: Faults, s: App, op: Op)
    requires GoodKeys(k) && Consistent(k, s) && NoFaults(o) && op.DeleteOp? && DeletesSoftware(s, op)
    ensures var (s', answer) := DeleteVrf(o, s, op);
      var row := s.rows[RowId(op.number)];
      && Consistent(k, s') && s'.rows == s.rows - {RowId(op.number)}
      && (answer == Success <==> IsActive(row) || CertIps(row.endpoints) == [])
  {
    SoftwareDelete(o, s, op);
    SoftwareRowDeleted(k, o, s, RowId(op.number));
    DeleteStored(k, o, s, RowId(op.number));
  }

  /** Every request of a run is good in the state it meets. */
  ghost predicate RunGood(k: Keys, o: Faults, ops: seq<Op>) {
    forall i :: 0 <= i < |ops| ==> OpGood(Run(k, o, ops[..i]), ops[i])
  }

  lemma RunGoodFront(k: Keys, o: Faults, ops: seq<Op>)
    requires RunGood(k, o, ops) && ops != []
    ensures RunGood(k, o, ops[..|ops| - 1]) && OpGood(Run(k, o, ops[..|ops| - 1]), ops[|ops| - 1])
  {
    var front := ops[..|ops| - 1];
    forall i | 0 <= i < |front| ensures OpGood(Run(k, o, front[..i]), front[i]) {
      assert front[..i] == ops[..i];
    }
  }

  lemma InitialConsistent(k: Keys)
    requires GoodKeys(k)
    ensures Consistent(k, INITIAL)
  {
    HardwareRowGood(k);
  }

  /** Over every run without faults the deployed configuration, environment and
      certificate files are exactly those of the active software rows, rendered from the
      rows as they unseal. */
  lemma {:induction false} RunConsistent(k: Keys, o: Faults, ops: seq<Op>)
    requires GoodKeys(k) && NoFaults(o) && RunGood(k, o, ops)
    ensures Consistent(k, Run(k, o, ops))
  {
    if ops == [] {
      InitialConsistent(k);
    } else {
      RunGoodFront(k, o, ops);
      RunConsistent(k, o, ops[..|ops| - 1]);
      StepConsistent(k, o, Run(k, o, ops[..|ops| - 1]), ops[|ops| - 1]);
    }
  }

  /** New rows get new ids. */
  ghost predicate FreshIds(k: Keys, o: Faults, ops: seq<Op>) {
    forall i :: 0 <= i < |ops| && ops[i].CreateOp? ==> ops[i].newId !in Run(k, o, ops[..i]).rows
  }

  predicate Wraps(op: Op) { op.DeleteOp? && WrapsToRow1(op.number) }

  /** Over every run without such a delete row 1 is there and is named "hardware", whatever
      fails. */
  lemma {:induction false} RunKeepsRow1(k: Keys, o: Faults, ops: seq<Op>)
    requires FreshIds(k, o, ops) && forall i :: 0 <= i < |ops| ==> !Wraps(ops[i])
    ensures Row1Kept(Run(k, o, ops))
  {
    if ops != [] {
      var front := ops[..|ops| - 1];
      forall i | 0 <= i < |front| && front[i].CreateOp? ensures front[i].newId !in Run(k, o, front[..i]).rows {
        assert front[..i] == ops[..i] && front[i] == ops[i];
      }
      RunKeepsRow1(k, o, front);
      assert !Wraps(ops[|ops| - 1]);
      Row1KeptExactly(k, o, Run(k, o, front), ops[|ops| - 1]);
    }
  }

  /** Whatever fails, row 1 keeps its place and its name, except under a delete request
      whose number is another one and becomes 1 when cut down to 32 bits. */
  lemma Row1KeptExactly(k: Keys, o: Faults, s: App, op: Op)
    requires Row1Kept(s) && (op.CreateOp? ==> op.newId !in s.rows)
    ensures Row1Kept(Step(k, o, s, op).0) <==> !Wraps(op)
  {
    match op
    case CreateOp(_, _, _, _, _, _, _) =>
      if JsonOk(op.req) && VrfOk(op.req) && op.auth { CreateKeepsOthers(k, o, s, op, HARDWARE_VRF_ID); }
    case UpdateOp(_, _, _, _, _, _) =>
      UpdateKeepsRow1(k, o, s, op);
    case DeleteOp(_, _) =>
  }

  lemma UpdateBackendsKeepsOthers(k: Keys, o: Faults, s: App, v: Vrf, old_: Vrf, nonces: nat -> Nonce, hwOk: bool, id: nat)
    requires v.id in s.rows && id in s.rows && id != v.id
    ensures var s' := UpdateBackends(k, o, s, v, old_, nonces, hwOk).0; id in s'.rows && s'.rows[id] == s.rows[id]
  {
  }

  lemma UpdateBackendsKeepsName(k: Keys, o: Faults, s: App, v: Vrf, old_: Vrf, nonces: nat -> Nonce, hwOk: bool)
    requires v.id in s.rows && v.clientName == s.rows[v.id].clientName
    ensures var s' := UpdateBackends(k, o, s, v, old_, nonces, hwOk).0;
      v.id in s'.rows && s'.rows[v.id].clientName == v.clientName
  {
  }

  lemma UpdateKeepsRow1(k: Keys, o: Faults, s: App, op: Op)
    requires Row1Kept(s) && op.UpdateOp?
    ensures Row1Kept(UpdateVrf(k, o, s, op).0)
  {
    UpdateIsBackends(k, o, s, op);
    if UpdateAccepted(s, op) {
      var v, old_ := UpdatedVrf(s, op), s.rows[RowId(op.number)];
      if v.id == HARDWARE_VRF_ID {
        UpdateBackendsKeepsName(k, o, s, v, old_, op.nonces, op.hwOk);
      } else {
        UpdateBackendsKeepsOthers(k, o, s, v, old_, op.nonces, op.hwOk, HARDWARE_VRF_ID);
      }
    }
  }

  lemma CreateKeepsOthers(k: Keys, o: Faults, s: App, op: Op, id: nat)
    requires op.CreateOp? && id in s.rows && id != op.newId
    ensures var s' := CreateVrf(k, o, s, op).0; id in s'.rows && s'.rows[id] == s.rows[id]
  {
    var vrf := CreatedVrf(op);
    if Seal(k, vrf, op.nonces).Ok? && Unseal(k, Seal(k, vrf, op.nonces).value).Ok? {
      var sealed := Seal(k, vrf, op.nonces).value;
      UpdateBackendsKeepsOthers(k, o, s.(rows := s.rows[op.newId := sealed]), Unseal(k, sealed).value, Blank(op.newId),
        op.nonces', op.hwOk, id);
    }
  }

  /** Such a number exists: 2^32 + 1. */
  lemma Row1Lost(k: Keys, o: Faults)
    ensures HARDWARE_VRF_ID !in DeleteVrf(o, INITIAL, DeleteOp(0x1_0000_0001, true)).0.rows
  {
  }

  /** JsonOk is the check that Validation makes of the request's JSON. */
  lemma JsonOkExactly(v: Vrf)
    ensures JsonOk(v) <==> AcceptedSW(VrfJson(v))
  {
    EndpointsOfJson(v);
    VlansOfJson(v);
    assert VrfJson(v).fields["local_as"] == JNum(v.localAs as real);
  }

  /** No row has an IPv6 tunnel address. */
  ghost predicate AllIPv4(rows: map<nat, Vrf>) {
    forall id :: id in rows ==> IPv4Only(rows[id].endpoints)
  }

  lemma {:induction false} SealShape(p: Primitives, key: Bytes, es: seq<Endpoint>, nonces: nat -> Nonce)
    requires Vault.SealAll(p, key, es, nonces).Ok?
    ensures SameButPsk(es, Vault.SealAll(p, key, es, nonces).value)
  {
    if es != [] {
      SealShape(p, key, es[..|es| - 1], nonces);
      var front, r := Vault.SealAll(p, key, es[..|es| - 1], nonces).value, Vault.SealAll(p, key, es, nonces).value;
      assert r == front + [r[|es| - 1]] && r[|es| - 1] == Vault.WithPsk(es[|es| - 1], r[|es| - 1].auth.psk);
    }
  }

  lemma SealedIPv4(k: Keys, v: Vrf, nonces: nat -> Nonce)
    requires Seal(k, v, nonces).Ok? && IPv4Only(v.endpoints)
    ensures IPv4Only(Seal(k, v, nonces).value.endpoints)
  {
    SealShape(k.p, k.master, v.endpoints, nonces);
    var es, es' := v.endpoints, Seal(k, v, nonces).value.endpoints;
    assert forall i :: 0 <= i < |es| ==> es'[i].localIp == es[i].localIp && es'[i].peerIp == es[i].peerIp;
  }

  lemma UnsealedIPv4(k: Keys, v: Vrf)
    requires Unseal(k, v).Ok? && IPv4Only(v.endpoints)
    ensures IPv4Only(Unseal(k, v).value.endpoints)
  {
    PlainShape(k, v);
    var es, es' := v.endpoints, Unseal(k, v).value.endpoints;
    assert forall i :: 0 <= i < |es| ==> es'[i].localIp == es[i].localIp && es'[i].peerIp == es[i].peerIp;
  }

  lemma UpdateBackendsIPv4(k: Keys, o: Faults, s: App, v: Vrf, old_: Vrf, nonces: nat -> Nonce, hwOk: bool)
    requires v.id in s.rows && AllIPv4(s.rows) && IPv4Only(v.endpoints)
    ensures AllIPv4(UpdateBackends(k, o, s, v, old_, nonces, hwOk).0.rows)
  {
    if Seal(k, v, nonces).Ok? { SealedIPv4(k, v, nonces); }
  }

  lemma StepIPv4(k: Keys, o: Faults, s: App, op: Op)
    requires AllIPv4(s.rows)
    ensures AllIPv4(Step(k, o, s, op).0.rows)
  {
    match op
    case CreateOp(_, _, _, _, _, _, _) => CreateIPv4(k, o, s, op);
    case UpdateOp(_, _, _, _, _, _) =>
      UpdateIsBackends(k, o, s, op);
      if UpdateAccepted(s, op) {
        UpdateBackendsIPv4(k, o, s, UpdatedVrf(s, op), s.rows[RowId(op.number)], op.nonces, op.hwOk);
      }
    case DeleteOp(_, _) =>
  }

  lemma StoredIPv4(k: Keys, rows: map<nat, Vrf>, v: Vrf, id: nat, nonces: nat -> Nonce)
    requires AllIPv4(rows) && IPv4Only(v.endpoints) && Seal(k, v, nonces).Ok?
    ensures var sealed := Seal(k, v, nonces).value;
      AllIPv4(rows[id := sealed]) && (Unseal(k, sealed).Ok? ==> IPv4Only(Unseal(k, sealed).value.endpoints))
  {
    var sealed := Seal(k, v, nonces).value;
    SealedIPv4(k, v, nonces);
    if Unseal(k, sealed).Ok? { UnsealedIPv4(k, sealed); }
  }

  lemma CreateIPv4(k: Keys, o: Faults, s: App, op: Op)
    requires AllIPv4(s.rows) && op.CreateOp?
    ensures AllIPv4(CreateVrf(k, o, s, op).0.rows)
  {
    var vrf := CreatedVrf(op);
    if JsonOk(op.req) && Seal(k, vrf, op.nonces).Ok? {
      var sealed := Seal(k, vrf, op.nonces).value;
      StoredIPv4(k, s.rows, vrf, op.newId, op.nonces);
      if Unseal(k, sealed).Ok? {
        UpdateBackendsIPv4(k, o, s.(rows := s.rows[op.newId := sealed]), Unseal(k, sealed).value, Blank(op.newId), op.nonces', op.hwOk);
      }
    }
  }

  /** In every state that requests can lead to, whatever fails, a row's IPv6 BGP subset is
      empty and its IPv4 subset is every BGP endpoint in the order of the row. */
  lemma {:induction false} RunBgpHalves(k: Keys, o: Faults, ops: seq<Op>)
    ensures AllIPv4(Run(k, o, ops).rows)
    ensures forall id :: id in Run(k, o, ops).rows ==>
      BgpSubset(Run(k, o, ops).rows[id].endpoints, true) == []
      && BgpSubset(Run(k, o, ops).rows[id].endpoints, false) == AllBgp(Run(k, o, ops).rows[id].endpoints)
  {
    if ops != [] {
      RunBgpHalves(k, o, ops[..|ops| - 1]);
      StepIPv4(k, o, Run(k, o, ops[..|ops| - 1]), ops[|ops| - 1]);
    }
    var rows := Run(k, o, ops).rows;
    forall id | id in rows ensures BgpSubset(rows[id].endpoints, true) == [] && BgpSubset(rows[id].endpoints, false) == AllBgp(rows[id].endpoints) {
      BgpHalves(rows[id].endpoints);
    }
  }
}
