/** What the handlers answer and store, told from the request and the row before, field by
    field. */
module StoredRows {
  import opened Text
  import opened Crypto
  import opened Types
  import VaultRefinement
  import Validation
  import opened SoftwareGenerator
  import opened Lifecycle
  import opened LifecycleProofs
  import opened LifecycleRuns

  predicate HasColon(req: Vrf) {
    exists i :: 0 <= i < |req.endpoints| && (':' in req.endpoints[i].localIp || ':' in req.endpoints[i].peerIp)
  }

  predicate SpeaksBgp(req: Vrf) { exists i :: 0 <= i < |req.endpoints| && req.endpoints[i].bgp }

  predicate RepeatsVlan(req: Vrf) {
    exists i, j :: 0 <= i < j < |req.vlans| && req.vlans[i].vlan == req.vlans[j].vlan
  }

  predicate HasVlanZero(req: Vrf) { exists i :: 0 <= i < |req.vlans| && req.vlans[i].vlan == 0 }

  /** What the two checks of a software VRF turn down. */
  predicate BadSoftware(req: Vrf) {
    || req.physicalInterface == "" || HasVlanZero(req)
    || (SpeaksBgp(req) && req.disablePeerIps == Some(true))
  }

  predicate BadJson(req: Vrf) {
    RepeatsVlan(req) || HasColon(req) || (SpeaksBgp(req) && req.localAs == 0)
  }

  lemma BadJsonIs(req: Vrf)
    ensures JsonOk(req) <==> !BadJson(req)
    ensures Validation.IPv4Only(req.endpoints) <==> !HasColon(req)
    ensures Validation.VrfOk(req) <==> !BadSoftware(req)
  {
  }

  /** When a create is refused or fails before anything is stored. */
  lemma CreateAnswers(k: Keys, o: Faults, s: App, op: Op)
    requires GoodKeys(k) && op.CreateOp?
    ensures var (s', answer) := CreateVrf(k, o, s, op);
      && (answer == Refused <==> BadJson(op.req) || BadSoftware(op.req))
      && (BadJson(op.req) || BadSoftware(op.req) || !op.auth ==> s' == s && answer in {Refused, ServerError})
      && (!BadJson(op.req) && !BadSoftware(op.req) && op.auth ==> op.newId in s'.rows)
  {
    BadJsonIs(op.req);
    if CreateAccepted(op) { CreateGoesOn(k, o, s, op); }
  }

  lemma CreateGoesOn(k: Keys, o: Faults, s: App, op: Op)
    requires GoodKeys(k) && op.CreateOp? && CreateAccepted(op)
    ensures op.newId in CreateVrf(k, o, s, op).0.rows && CreateVrf(k, o, s, op).1 != Refused
  {
    var sealed := CreateIsBackends(k, o, s, op);
    BackendsKeep(k, o, s.(rows := s.rows[op.newId := sealed]), CreatedVrf(op), Blank(op.newId), op.nonces', op.hwOk);
  }

  lemma BackendsKeep(k: Keys, o: Faults, s: App, v: Vrf, old_: Vrf, nonces: nat -> Nonce, hwOk: bool)
    requires v.id in s.rows
    ensures var (s', answer) := UpdateBackends(k, o, s, v, old_, nonces, hwOk);
      s'.rows.Keys == s.rows.Keys && answer != Refused
  {
  }

  /** The same of an update. The JSON check goes by the whole number, the row by its lower
      32 bits. */
  lemma UpdateAnswers(k: Keys, o: Faults, s: App, op: Op)
    requires GoodKeys(k) && op.UpdateOp?
    ensures var (s', answer) := UpdateVrf(k, o, s, op);
      var id, req := op.number % 0x1_0000_0000, op.req;
      && (answer == Refused <==>
            || op.number >= 0x8000_0000_0000_0000 || HasColon(req)
            || (op.number != 1 && BadJson(req)) || (id != 1 && BadSoftware(req))
            || (id == 1 && id in s.rows && req.clientName != s.rows[id].clientName))
      && (answer == Refused || id !in s.rows || !op.auth ==> s' == s && answer in {Refused, ServerError})
  {
    BadJsonIs(op.req);
    UpdateIsBackends(k, o, s, op);
    if UpdateAccepted(s, op) {
      BackendsKeep(k, o, s, UpdatedVrf(s, op), s.rows[RowId(op.number)], op.nonces, op.hwOk);
    }
  }

  /** And of a delete: the row of the lower 32 bits goes, and only the number 1 itself puts
      a row back, the one that was there at the start. */
  lemma DeleteAnswers(k: Keys, o: Faults, s: App, op: Op)
    requires op.DeleteOp?
    ensures var (s', answer) := DeleteVrf(o, s, op);
      var id := op.number % 0x1_0000_0000;
      && (answer == Refused <==> op.number >= 0x8000_0000_0000_0000)
      && (answer == Refused || id !in s.rows ==> s' == s && answer in {Refused, ServerError})
      && (answer != Refused && id in s.rows ==>
            && s'.rows - {id} == s.rows - {id}
            && (id in s'.rows <==> op.number == 1) && (id in s'.rows ==> s'.rows[id] == INITIAL.rows[1]))
  {
    var id := RowId(op.number);
    assert s.rows - {id} - {id} == s.rows - {id};
    assert (s.rows - {1})[1 := HARDWARE_ROW] - {1} == s.rows - {1};
  }

  /** An update that is neither refused nor stopped before the row is written. */
  predicate Acceptable(s: App, op: Op)
    requires op.UpdateOp?
  {
    var id, req := op.number % 0x1_0000_0000, op.req;
    && op.auth && op.number < 0x8000_0000_0000_0000 && id in s.rows && !HasColon(req)
    && (op.number != 1 ==> !BadJson(req)) && (id != 1 ==> !BadSoftware(req))
    && (id == 1 ==> req.clientName == s.rows[id].clientName)
  }

  lemma AcceptableIs(s: App, op: Op)
    requires op.UpdateOp?
    ensures Acceptable(s, op) <==> UpdateAccepted(s, op)
  {
    BadJsonIs(op.req);
  }

  predicate AcceptableCreate(op: Op)
    requires op.CreateOp?
  {
    op.auth && !BadJson(op.req) && !BadSoftware(op.req)
  }

  lemma AcceptableCreateIs(op: Op)
    requires op.CreateOp?
    ensures AcceptableCreate(op) <==> CreateAccepted(op)
  {
    BadJsonIs(op.req);
  }

  /** The endpoints of the request with the ids of their new rows. */
  predicate RequestedEndpoints(req: seq<Endpoint>, ids: nat -> nat, vrf: nat, es: seq<Endpoint>) {
    |es| == |req| && forall i :: 0 <= i < |req| ==> es[i] == req[i].(id := ids(i), vrfId := vrf)
  }

  /** A row, in the clear, after a request: a field that the request leaves zero keeps the
      old value, the lists are always replaced. */
  predicate Overlaid(old_: Vrf, req: Vrf, row: Vrf) {
    && row.clientName == (if req.clientName != "" then req.clientName else old_.clientName)
    && row.physicalInterface == (if req.physicalInterface != "" then req.physicalInterface else old_.physicalInterface)
    && row.localAs == (if req.localAs != 0 then req.localAs else old_.localAs)
    && row.active == (if req.active.Some? then req.active else old_.active)
    && row.disablePeerIps == (if req.disablePeerIps.Some? then req.disablePeerIps else old_.disablePeerIps)
    && row.ospf == (if req.ospf.Some? then req.ospf else old_.ospf)
    && row.vlans == req.vlans && row.cryptoPh1 == req.cryptoPh1 && row.cryptoPh2 == req.cryptoPh2
  }

  /** What the row of an accepted update holds, whatever fails afterwards: it reads back as
      the request over the old row, its pre-shared keys are sealed once, and no other row
      has changed. */
  lemma UpdateStores(k: Keys, o: Faults, s: App, op: Op)
    requires GoodKeys(k) && op.UpdateOp? && Acceptable(s, op)
    ensures var id, rows' := op.number % 0x1_0000_0000, UpdateVrf(k, o, s, op).0.rows;
      && rows' - {id} == s.rows - {id} && id in rows' && rows'[id].id == id && Unseal(k, rows'[id]).Ok?
      && var plain := Unseal(k, rows'[id]).value;
         && plain == rows'[id].(endpoints := plain.endpoints)
         && Overlaid(s.rows[id], op.req, plain) && RequestedEndpoints(op.req.endpoints, op.ids, id, plain.endpoints)
         && VaultRefinement.ListRefines(k.p, k.master, rows'[id].endpoints, plain.endpoints)
  {
    AcceptableIs(s, op);
    var id, v := RowId(op.number), UpdatedVrf(s, op);
    UpdateIsBackends(k, o, s, op);
    StoredRow(k, s.rows[id], v, op.nonces);
    VaultRefinement.SealAllRefines(k.p, k.master, v.endpoints, op.nonces);
    var row := MergeRow(s.rows[id], Seal(k, v, op.nonces).value);
    assert s.rows[id := row] - {id} == s.rows - {id};
  }

  /** The row of an accepted create is the request, with an inactive flag if it has none. */
  lemma CreateStores(k: Keys, o: Faults, s: App, op: Op)
    requires GoodKeys(k) && op.CreateOp? && AcceptableCreate(op)
    ensures var id, req, rows' := op.newId, op.req, CreateVrf(k, o, s, op).0.rows;
      && rows' - {id} == s.rows - {id} && id in rows' && rows'[id].id == id && Unseal(k, rows'[id]).Ok?
      && var plain := Unseal(k, rows'[id]).value;
         && plain == rows'[id].(endpoints := plain.endpoints)
         && plain == req.(id := id, active := if req.active.Some? then req.active else Some(false), endpoints := plain.endpoints)
         && RequestedEndpoints(req.endpoints, op.ids, id, plain.endpoints)
         && VaultRefinement.ListRefines(k.p, k.master, rows'[id].endpoints, plain.endpoints)
  {
    AcceptableCreateIs(op);
    var id, v := op.newId, CreatedVrf(op);
    var sealed := CreateIsBackends(k, o, s, op);
    StoredRow(k, sealed, v, op.nonces');
    VaultRefinement.SealAllRefines(k.p, k.master, v.endpoints, op.nonces');
    var row := MergeRow(sealed, Seal(k, v, op.nonces').value);
    assert s.rows[id := sealed][id := row] - {id} == s.rows - {id};
  }

  /** The pre-shared keys of a row are sealed texts. */
  ghost predicate KeysSealed(k: Keys, row: Vrf) {
    forall i :: 0 <= i < |row.endpoints| && row.endpoints[i].auth.kind == "psk" ==>
      exists text :: Sealed(k.p, k.master, row.endpoints[i].auth.psk, text)
  }

  lemma RefinedSealed(k: Keys, row: Vrf, plain: seq<Endpoint>)
    requires VaultRefinement.ListRefines(k.p, k.master, row.endpoints, plain)
    ensures KeysSealed(k, row)
  {
    forall i | 0 <= i < |row.endpoints| && row.endpoints[i].auth.kind == "psk"
      ensures exists text :: Sealed(k.p, k.master, row.endpoints[i].auth.psk, text)
    {
      assert VaultRefinement.EndpointRefines(k.p, k.master, row.endpoints[i], plain[i]);
    }
  }

  lemma StepSealed(k: Keys, o: Faults, s: App, op: Op)
    requires GoodKeys(k) && forall id :: id in s.rows ==> KeysSealed(k, s.rows[id])
    ensures forall id :: id in Step(k, o, s, op).0.rows ==> KeysSealed(k, Step(k, o, s, op).0.rows[id])
  {
    var rows' := Step(k, o, s, op).0.rows;
    match op
    case CreateOp(_, _, newId, _, _, _, _) =>
      CreateAnswers(k, o, s, op);
      if AcceptableCreate(op) {
        CreateStores(k, o, s, op);
        RefinedSealed(k, rows'[newId], Unseal(k, rows'[newId]).value.endpoints);
        SealedBeside(k, s.rows, rows', newId);
      }
    case UpdateOp(_, number, _, _, _, _) =>
      UpdateIsBackends(k, o, s, op);
      AcceptableIs(s, op);
      if Acceptable(s, op) {
        UpdateStores(k, o, s, op);
        RefinedSealed(k, rows'[RowId(number)], Unseal(k, rows'[RowId(number)]).value.endpoints);
        SealedBeside(k, s.rows, rows', RowId(number));
      }
    case DeleteOp(_, _) =>
  }

  lemma SealedBeside(k: Keys, rows: map<nat, Vrf>, rows': map<nat, Vrf>, id: nat)
    requires rows' - {id} == rows - {id} && id in rows' && KeysSealed(k, rows'[id])
    requires forall id' :: id' in rows ==> KeysSealed(k, rows[id'])
    ensures forall id' :: id' in rows' ==> KeysSealed(k, rows'[id'])
  {
    forall id' | id' in rows' && id' != id ensures id' in rows && rows'[id'] == rows[id'] {
      assert id' in rows' - {id};
      assert (rows' - {id})[id'] == (rows - {id})[id'];
    }
  }

  /** Over every run, whatever fails, no pre-shared key is in a row in the clear. */
  lemma {:induction false} RunSealed(k: Keys, o: Faults, ops: seq<Op>)
    requires GoodKeys(k)
    ensures forall id :: id in Run(k, o, ops).rows ==> KeysSealed(k, Run(k, o, ops).rows[id])
  {
    if ops != [] {
      RunSealed(k, o, ops[..|ops| - 1]);
      StepSealed(k, o, Run(k, o, ops[..|ops| - 1]), ops[|ops| - 1]);
    }
  }

  /** The database of a first start holds the hardware row and nothing else. */
  lemma FreshStart(k: Keys, o: Faults)
    ensures Run(k, o, []).rows == map[1 := Vrf(1, "hardware", [], ["aes-cbc-128", "sha256", "fourteen"],
      ["esp-aes", "esp-sha-hmac", "group14"], "", Some(false), 0, None, None, [])]
  {
  }

  /** Row 1 goes to the switch and leaves the host alone: an acceptable update of it answers
      as the switch does, or with success when the row is inactive before and after. */
  lemma HardwareAnswers(k: Keys, o: Faults, s: App, op: Op)
    requires GoodKeys(k) && op.UpdateOp? && Acceptable(s, op) && op.number % 0x1_0000_0000 == 1
    ensures var (s', answer) := UpdateVrf(k, o, s, op);
      && s'.world == s.world
      && answer == if op.hwOk || (s.rows[1].active != Some(true) && op.req.active != Some(true)) then Success else ServerError
  {
    AcceptableIs(s, op);
    UpdateIsBackends(k, o, s, op);
    StoredRow(k, s.rows[1], UpdatedVrf(s, op), op.nonces);
  }

  /** A delete answers as the removal did, of row 1 as the switch does. */
  lemma HardwareDeleteAnswers(o: Faults, s: App, op: Op)
    requires op.DeleteOp? && op.number < 0x8000_0000_0000_0000 && op.number % 0x1_0000_0000 == 1 && 1 in s.rows
    ensures DeleteVrf(o, s, op).0.world == s.world
    ensures DeleteVrf(o, s, op).1 == if op.hwOk then Success else ServerError
  {
  }

  predicate WasAndStaysInactive(s: App, op: Op)
    requires op.UpdateOp? && Acceptable(s, op)
  {
    s.rows[op.number % 0x1_0000_0000].active != Some(true) && op.req.active != Some(true)
  }

  /** A VRF that is created inactive, or is inactive before and after an update, is stored
      and nothing else happens. */
  lemma InactiveStored(k: Keys, o: Faults, s: App, op: Op)
    requires GoodKeys(k)
    ensures op.CreateOp? && AcceptableCreate(op) && op.req.active != Some(true) ==>
      CreateVrf(k, o, s, op).0.world == s.world && CreateVrf(k, o, s, op).1 == Success
    ensures op.UpdateOp? && Acceptable(s, op) && WasAndStaysInactive(s, op) ==>
      UpdateVrf(k, o, s, op).0.world == s.world && UpdateVrf(k, o, s, op).1 == Success
  {
    if op.CreateOp? && AcceptableCreate(op) {
      InactiveCreate(k, o, s, op);
    } else if op.UpdateOp? && Acceptable(s, op) {
      AcceptableIs(s, op);
      UpdateIsBackends(k, o, s, op);
      StoredRow(k, s.rows[RowId(op.number)], UpdatedVrf(s, op), op.nonces);
    }
  }

  lemma InactiveCreate(k: Keys, o: Faults, s: App, op: Op)
    requires GoodKeys(k) && op.CreateOp? && AcceptableCreate(op)
    ensures op.req.active != Some(true) ==>
      CreateVrf(k, o, s, op).0.world == s.world && CreateVrf(k, o, s, op).1 == Success
  {
    AcceptableCreateIs(op);
    var sealed := CreateIsBackends(k, o, s, op);
    StoredRow(k, sealed, CreatedVrf(op), op.nonces');
  }
}
