/** The VRF handlers of app.go over the database rows and the two backends. */
module Lifecycle {
  import opened Text
  import opened Base64
  import opened Crypto
  import opened Types
  import Vault
  import opened Validation
  import opened SoftwareGenerator

  /** The master password in force, by which stored pre-shared keys are sealed. */
  datatype Keys = Keys(p: Primitives, master: Bytes)

  datatype App = App(rows: map<nat, Vrf>, world: World)

  /** Success, a refused request, an error after the checks, or a panic in the handler. */
  datatype Answer = Success | Refused | ServerError | Panicked

  const HARDWARE_NAME := "hardware"

  /** ensureHWVRF's row. */
  const HARDWARE_ROW := Vrf(HARDWARE_VRF_ID, HARDWARE_NAME, [], ["aes-cbc-128", "sha256", "fourteen"],
    ["esp-aes", "esp-sha-hmac", "group14"], "", Some(false), 0, None, None, [])

  const INITIAL := App(map[HARDWARE_VRF_ID := HARDWARE_ROW], INITIAL_WORLD)

  /** A request with what the database and the randomness add to it: `newId` is the new
      row's id, `ids` the ids of new endpoint rows. `auth` tells whether the password in
      the header opens the master password, `hwOk` whether the switch went along.
      `number` is the id in the URL. */
  datatype Op =
    | CreateOp(auth: bool, req: Vrf, newId: nat, ids: nat -> nat, nonces: nat -> Nonce, nonces': nat -> Nonce, hwOk: bool)
    | UpdateOp(auth: bool, number: nat, req: Vrf, ids: nat -> nat, nonces: nat -> Nonce, hwOk: bool)
    | DeleteOp(number: nat, hwOk: bool)

  /** The raw JSON check of a software VRF, on a well-typed body; see JsonOkExactly. */
  predicate JsonOk(v: Vrf) {
    && (forall i, j :: 0 <= i < j < |v.vlans| ==> v.vlans[i].vlan != v.vlans[j].vlan)
    && IPv4Only(v.endpoints)
    && (HasBgp(v) ==> v.localAs != 0)
  }

  /** strconv.ParseInt into 64 bits, then a conversion to 32. */
  predicate Parses(number: nat) { number < 0x8000_0000_0000_0000 }

  function RowId(number: nat): nat { number % 0x1_0000_0000 }

  function IsActive(v: Vrf): bool { v.active == Some(true) }

  function WithIds(es: seq<Endpoint>, ids: nat -> nat, vrf: nat): (r: seq<Endpoint>)
    ensures |r| == |es|
    ensures forall i :: 0 <= i < |es| ==> r[i] == es[i].(id := ids(i), vrfId := vrf)
  {
    seq(|es|, i requires 0 <= i < |es| => es[i].(id := ids(i), vrfId := vrf))
  }

  /** Updates with a struct skips zero values; the endpoint rows are replaced. */
  function MergeRow(old_: Vrf, v: Vrf): Vrf {
    Vrf(v.id,
      if v.clientName == "" then old_.clientName else v.clientName,
      v.vlans, v.cryptoPh1, v.cryptoPh2,
      if v.physicalInterface == "" then old_.physicalInterface else v.physicalInterface,
      if v.active.None? then old_.active else v.active,
      if v.localAs == 0 then old_.localAs else v.localAs,
      if v.disablePeerIps.None? then old_.disablePeerIps else v.disablePeerIps,
      if v.ospf.None? then old_.ospf else v.ospf,
      v.endpoints)
  }

  function Seal(k: Keys, v: Vrf, nonces: nat -> Nonce): Result<Vrf> {
    var es :- Vault.SealAll(k.p, k.master, v.endpoints, nonces);
    Ok(v.(endpoints := es))
  }

  function Unseal(k: Keys, v: Vrf): Result<Vrf> {
    var es :- Vault.OpenAll(k.p, k.master, v.endpoints);
    Ok(v.(endpoints := es))
  }

  function AnswerOf(r: Outcome): Answer {
    match r
    case Done => Success
    case Failed => ServerError
    case Crashed => Panicked
  }

  /** The backends after a row went from `old_` to `v`; `old_` is as stored, `v` as read
      back and unsealed. */
  function Deploy(o: Faults, w: World, v: Vrf, old_: Vrf, hwOk: bool): (World, Answer) {
    if !IsActive(old_) && !IsActive(v) then (w, Success)
    else if v.id == HARDWARE_VRF_ID then (w, if hwOk then Success else ServerError)
    else if !IsActive(old_) then
      var (w1, r) := GenerateConfigs(o, w, v);
      (w1, AnswerOf(r))
    else
      var (w1, ok) := DeleteConfigs(o, w, old_);
      if !ok then (w1, ServerError)
      else if !IsActive(v) then (w1, Success)
      else
        var (w2, r) := GenerateConfigs(o, w1, v);
        (w2, AnswerOf(r))
  }

  /** _updateBackends: seal, store, read back, unseal, deploy what was read. */
  function UpdateBackends(k: Keys, o: Faults, s: App, v: Vrf, old_: Vrf, nonces: nat -> Nonce, hwOk: bool): (App, Answer)
    requires v.id in s.rows
  {
    match Seal(k, v, nonces)
    case Err => (s, ServerError)
    case Panic => (s, Panicked)
    case Ok(sealed) =>
      var row := MergeRow(s.rows[v.id], sealed);
      var s1 := s.(rows := s.rows[v.id := row]);
      match Unseal(k, row)
      case Err => (s1, ServerError)
      case Panic => (s1, Panicked)
      case Ok(plain) =>
        var (w, answer) := Deploy(o, s1.world, plain, old_, hwOk);
        (s1.(world := w), answer)
  }

  /** The row of an accepted create request: its id, an active flag in any case. */
  function CreatedVrf(op: Op): Vrf
    requires op.CreateOp?
  {
    op.req.(id := op.newId, active := if op.req.active.None? then Some(false) else op.req.active,
      endpoints := WithIds(op.req.endpoints, op.ids, op.newId))
  }

  function CreateVrf(k: Keys, o: Faults, s: App, op: Op): (App, Answer)
    requires op.CreateOp?
  {
    if !JsonOk(op.req) || !VrfOk(op.req) then (s, Refused)
    else if !op.auth then (s, ServerError)
    else
      var vrf := CreatedVrf(op);
      match Seal(k, vrf, op.nonces)
      case Err => (s, ServerError)
      case Panic => (s, Panicked)
      case Ok(sealed) =>
        var s1 := s.(rows := s.rows[op.newId := sealed]);
        match Unseal(k, sealed)
        case Err => (s1, ServerError)
        case Panic => (s1, Panicked)
        case Ok(plain) =>
          UpdateBackends(k, o, s1, plain, Blank(op.newId), op.nonces', op.hwOk)
  }

  /** The old VRF that createVrf makes up: an id and an inactive flag. */
  function Blank(id: nat): Vrf { Vrf(id, "", [], [], [], "", Some(false), 0, None, None, []) }

  function UpdateVrf(k: Keys, o: Faults, s: App, op: Op): (App, Answer)
    requires op.UpdateOp?
  {
    if !Parses(op.number) then (s, Refused)
    else if (if op.number != HARDWARE_VRF_ID then !JsonOk(op.req) else !IPv4Only(op.req.endpoints)) then (s, Refused)
    else
      var id := RowId(op.number);
      if id != HARDWARE_VRF_ID && !VrfOk(op.req) then (s, Refused)
      else if id !in s.rows then (s, ServerError)
      else
        var old_ := s.rows[id];
        if id == HARDWARE_VRF_ID && op.req.clientName != old_.clientName then (s, Refused)
        else if !op.auth then (s, ServerError)
        else
          var vrf := op.req.(id := id, active := if op.req.active.None? then old_.active else op.req.active,
            endpoints := WithIds(op.req.endpoints, op.ids, id));
          UpdateBackends(k, o, s, vrf, old_, op.nonces, op.hwOk)
  }

  /** All three calls are made. The row put back is decided by the 64-bit number, the row
      deleted by the 32-bit id. */
  function DeleteVrf(o: Faults, s: App, op: Op): (App, Answer)
    requires op.DeleteOp?
  {
    if !Parses(op.number) then (s, Refused)
    else
      var id := RowId(op.number);
      if id !in s.rows then (s, ServerError)
      else
        var (w, ok) := if id == HARDWARE_VRF_ID then (s.world, op.hwOk) else DeleteConfigs(o, s.world, s.rows[id]);
        var rows := s.rows - {id};
        (App(if op.number == HARDWARE_VRF_ID then rows[HARDWARE_VRF_ID := HARDWARE_ROW] else rows, w),
         if ok then Success else ServerError)
  }

  function Step(k: Keys, o: Faults, s: App, op: Op): (App, Answer) {
    match op
    case CreateOp(_, _, _, _, _, _, _) => CreateVrf(k, o, s, op)
    case UpdateOp(_, _, _, _, _, _) => UpdateVrf(k, o, s, op)
    case DeleteOp(_, _) => DeleteVrf(o, s, op)
  }

  function Run(k: Keys, o: Faults, ops: seq<Op>): App {
    if ops == [] then INITIAL else Step(k, o, Run(k, o, ops[..|ops| - 1]), ops[|ops| - 1]).0
  }

  /** The program: rows in the database, a generator for the host's files. */
  class Backend {
    const k: Keys
    const gen: Generator
    var rows: map<nat, Vrf>

    constructor (k: Keys, gen: Generator)
      ensures this.k == k && this.gen == gen && rows == map[HARDWARE_VRF_ID := HARDWARE_ROW]
    {
      this.k, this.gen, rows := k, gen, map[HARDWARE_VRF_ID := HARDWARE_ROW];
    }

    function View(): App
      reads this, gen.host
    {
      App(rows, gen.host.View())
    }

    method DeployRow(v: Vrf, old_: Vrf, hwOk: bool) returns (answer: Answer)
      modifies gen.host
      ensures (gen.host.View(), answer) == Deploy(gen.host.o, old(gen.host.View()), v, old_, hwOk)
    {
      if IsActive(old_) != IsActive(v) {
        if v.id == HARDWARE_VRF_ID { return if hwOk then Success else ServerError; }
        if IsActive(v) {
          var r := gen.Generate(v);
          return AnswerOf(r);
        } else {
          var ok := gen.DeleteAll(old_);
          return if ok then Success else ServerError;
        }
      } else if IsActive(v) {
        if v.id == HARDWARE_VRF_ID { return if hwOk then Success else ServerError; }
        var ok := gen.DeleteAll(old_);
        if !ok { return ServerError; }
        var r := gen.Generate(v);
        return AnswerOf(r);
      }
      return Success;
    }

    method SaveAndDeploy(v: Vrf, old_: Vrf, nonces: nat -> Nonce, hwOk: bool) returns (answer: Answer)
      requires v.id in rows
      modifies this, gen.host
      ensures (View(), answer) == UpdateBackends(k, gen.host.o, old(View()), v, old_, nonces, hwOk)
    {
      var sealed := Seal(k, v, nonces);
      if !sealed.Ok? { return if sealed.Err? then ServerError else Panicked; }
      rows := rows[v.id := MergeRow(rows[v.id], sealed.value)];
      var plain := Unseal(k, rows[v.id]);
      if !plain.Ok? { return if plain.Err? then ServerError else Panicked; }
      answer := DeployRow(plain.value, old_, hwOk);
    }

    method Create(op: Op) returns (answer: Answer)
      requires op.CreateOp?
      modifies this, gen.host
      ensures (View(), answer) == CreateVrf(k, gen.host.o, old(View()), op)
    {
      if !JsonOk(op.req) { return Refused; }
      var valid := VrfCreateValid(op.req.(id := 0));
      if !valid { return Refused; }
      if !op.auth { return ServerError; }
      var vrf := CreatedVrf(op);
      var sealed := Seal(k, vrf, op.nonces);
      if !sealed.Ok? { return if sealed.Err? then ServerError else Panicked; }
      rows := rows[op.newId := sealed.value];
      var plain := Unseal(k, sealed.value);
      if !plain.Ok? { return if plain.Err? then ServerError else Panicked; }
      answer := SaveAndDeploy(plain.value, Blank(op.newId), op.nonces', op.hwOk);
    }

    method Update(op: Op) returns (answer: Answer)
      requires op.UpdateOp?
      modifies this, gen.host
      ensures (View(), answer) == UpdateVrf(k, gen.host.o, old(View()), op)
    {
      if !Parses(op.number) { return Refused; }
      if op.number != HARDWARE_VRF_ID {
        if !JsonOk(op.req) { return Refused; }
      } else if !IPv4Only(op.req.endpoints) {
        return Refused;
      }
      var vrf := op.req.(id := RowId(op.number));
      var valid := VrfUpdateValid(vrf);
      if !valid { return Refused; }
      if vrf.id !in rows { return ServerError; }
      var oldVrf := rows[vrf.id];
      if vrf.id == HARDWARE_VRF_ID && vrf.clientName != oldVrf.clientName { return Refused; }
      if vrf.active.None? { vrf := vrf.(active := oldVrf.active); }
      if !op.auth { return ServerError; }
      vrf := vrf.(endpoints := WithIds(vrf.endpoints, op.ids, vrf.id));
      answer := SaveAndDeploy(vrf, oldVrf, op.nonces, op.hwOk);
    }

    method Delete(op: Op) returns (answer: Answer)
      requires op.DeleteOp?
      modifies this, gen.host
      ensures (View(), answer) == DeleteVrf(gen.host.o, old(View()), op)
    {
      if !Parses(op.number) { return Refused; }
      var id := RowId(op.number);
      if id !in rows { return ServerError; }
      var ok := op.hwOk;
      if id != HARDWARE_VRF_ID { ok := gen.DeleteAll(rows[id]); }
      rows := rows - {id};
      if op.number == HARDWARE_VRF_ID { rows := rows[HARDWARE_VRF_ID := HARDWARE_ROW]; }
      answer := if ok then Success else ServerError;
    }
  }
}
