/** The encrypted store refines a plain one: over every run of the operations, what is
    read under the current password is what was written last. */
module VaultRefinement {
  import opened Text
  import opened Base64
  import opened Crypto
  import opened Types
  import opened Vault

  /** The store a caller has in mind; `pass` is None before the first secret. */
  datatype Plain = Plain(pass: Option<GoString>, settings: map<string, GoString>, endpoints: map<nat, seq<Endpoint>>)

  const EMPTY_PLAIN := Plain(None, map[], map[])
  const EMPTY_DB := DB([], [], map[])

  predicate Matches(p: Primitives, pass: Option<GoString>, given: GoString) {
    pass.Some? && p.sha(ToBytes(pass.value)) == p.sha(ToBytes(given))
  }

  /** A psk endpoint is stored with one layer of sealing, any other as it is. */
  ghost predicate EndpointRefines(p: Primitives, key: Bytes, stored: Endpoint, plain: Endpoint) {
    if plain.IsPsk()
    then stored == WithPsk(plain, stored.auth.psk) && Sealed(p, key, stored.auth.psk, plain.auth.psk)
    else stored == plain
  }

  ghost predicate ListRefines(p: Primitives, key: Bytes, stored: seq<Endpoint>, plain: seq<Endpoint>) {
    && |stored| == |plain|
    && forall i :: 0 <= i < |plain| ==> EndpointRefines(p, key, stored[i], plain[i])
  }

  ghost predicate SettingsRefine(p: Primitives, key: Bytes, rows: seq<Setting>, plain: map<string, GoString>) {
    && (forall i :: 0 <= i < |rows| ==> rows[i].name in plain && Sealed(p, key, rows[i].value, plain[rows[i].name]))
    && (forall i, j :: 0 <= i < j < |rows| ==> rows[i].name != rows[j].name)
    && (forall name :: name in plain ==> SettingIndex(rows, name) < |rows|)
  }

  ghost predicate Refines(p: Primitives, db: DB, masterpass: GoString, plain: Plain) {
    match plain.pass
    case None => db == EMPTY_DB && plain == EMPTY_PLAIN
    case Some(pass) =>
      var key := ToBytes(masterpass);
      && |masterpass| == 32
      && |db.masters| == 1 && Sealed(p, PassKey(p, pass), db.masters[0], masterpass)
      && SettingsRefine(p, key, db.settings, plain.settings)
      && db.endpoints.Keys == plain.endpoints.Keys
      && forall id :: id in plain.endpoints ==> ListRefines(p, key, db.endpoints[id], plain.endpoints[id])
  }

  lemma MasterpassRead(p: Primitives, db: DB, masterpass: GoString, plain: Plain, pass: GoString)
    requires Ideal(p) && Refines(p, db, masterpass, plain)
    ensures GetMasterpass(p, db, pass) == if Matches(p, plain.pass, pass) then Ok(masterpass) else Err
  {
    if plain.pass.Some? {
      OpenSealed(p, PassKey(p, plain.pass.value), db.masters[0], masterpass, PassKey(p, pass));
    }
  }

  lemma {:induction false} SealAllRefines(p: Primitives, key: Bytes, es: seq<Endpoint>, nonces: nat -> Nonce)
    requires |key| == 32
    ensures SealAll(p, key, es, nonces).Ok?
    ensures ListRefines(p, key, SealAll(p, key, es, nonces).value, es)
  {
    if es != [] {
      var front, e := es[..|es| - 1], es[|es| - 1];
      SealAllRefines(p, key, front, nonces);
      EncryptSeals(p, key, nonces(|es| - 1), e.auth.psk);
      var r, s := SealAll(p, key, es, nonces).value, SealAll(p, key, front, nonces).value;
      forall i | 0 <= i < |es| ensures EndpointRefines(p, key, r[i], es[i]) {
        if i < |front| {
          assert EndpointRefines(p, key, s[i], front[i]);
        }
      }
    }
  }

  /** Unsealing the stored endpoint gives the plain one. */
  predicate Opens(p: Primitives, key: Bytes, stored: Endpoint, plain: Endpoint) {
    if stored.IsPsk()
    then DecryptText(p, key, stored.auth.psk) == Ok(plain.auth.psk) && WithPsk(stored, plain.auth.psk) == plain
    else stored == plain
  }

  lemma RefinedOpens(p: Primitives, key: Bytes, stored: Endpoint, plain: Endpoint)
    requires Ideal(p) && |key| == 32 && EndpointRefines(p, key, stored, plain)
    ensures Opens(p, key, stored, plain)
  {
    if plain.IsPsk() { OpenSealed(p, key, stored.auth.psk, plain.auth.psk, key); }
  }

  lemma {:induction false} OpenAllOpens(p: Primitives, key: Bytes, stored: seq<Endpoint>, plain: seq<Endpoint>)
    requires |stored| == |plain| && forall i :: 0 <= i < |stored| ==> Opens(p, key, stored[i], plain[i])
    ensures OpenAll(p, key, stored) == Ok(plain)
  {
    if stored != [] {
      var n := |stored| - 1;
      OpenAllOpens(p, key, stored[..n], plain[..n]);
      assert Opens(p, key, stored[n], plain[n]);
      assert plain == plain[..n] + [plain[n]];
    }
  }

  lemma OpenAllRefines(p: Primitives, key: Bytes, stored: seq<Endpoint>, plain: seq<Endpoint>)
    requires Ideal(p) && |key| == 32 && ListRefines(p, key, stored, plain)
    ensures OpenAll(p, key, stored) == Ok(plain)
  {
    forall i | 0 <= i < |stored| ensures Opens(p, key, stored[i], plain[i]) {
      RefinedOpens(p, key, stored[i], plain[i]);
    }
    OpenAllOpens(p, key, stored, plain);
  }

  function PutEndpoints(plain: Plain, id: nat, es: seq<Endpoint>): Plain {
    plain.(endpoints := plain.endpoints[id := es])
  }

  /** What storing a VRF's endpoints has to lead to: they are there and are handed on
      unsealed under the current password, and nothing happens under any other. */
  ghost predicate Saved(p: Primitives, db: DB, masterpass: GoString, plain: Plain, pass: GoString,
                        id: nat, es: seq<Endpoint>, outcome: (DB, Result<seq<Endpoint>>)) {
    if Matches(p, plain.pass, pass)
    then outcome.1 == Ok(es) && Refines(p, outcome.0, masterpass, PutEndpoints(plain, id, es))
    else outcome.1 == Err && outcome.0 == db
  }

  lemma SaveRefines(p: Primitives, db: DB, masterpass: GoString, plain: Plain,
                    pass: GoString, id: nat, es: seq<Endpoint>, nonces: nat -> Nonce)
    requires Ideal(p) && Refines(p, db, masterpass, plain)
    ensures Saved(p, db, masterpass, plain, pass, id, es, SaveEndpoints(p, db, pass, id, es, nonces))
  {
    MasterpassRead(p, db, masterpass, plain, pass);
    if Matches(p, plain.pass, pass) {
      var key := ToBytes(masterpass);
      SealAllRefines(p, key, es, nonces);
      var sealed := SealAll(p, key, es, nonces).value;
      OpenAllRefines(p, key, sealed, es);
      PutRefines(p, db, masterpass, plain, id, sealed, es);
    }
  }

  lemma PutRefines(p: Primitives, db: DB, masterpass: GoString, plain: Plain, id: nat, sealed: seq<Endpoint>, es: seq<Endpoint>)
    requires Refines(p, db, masterpass, plain) && plain.pass.Some? && ListRefines(p, ToBytes(masterpass), sealed, es)
    ensures Refines(p, db.(endpoints := db.endpoints[id := sealed]), masterpass, PutEndpoints(plain, id, es))
  {
  }

  /** The operations of a run; random draws are part of the operation. */
  datatype Op =
    | SetOp(pass: GoString, name: string, value: GoString, candidate: GoString, nonce0: Nonce, nonce1: Nonce)
    | CreateOp(pass: GoString, id: nat, es: seq<Endpoint>, nonces: nat -> Nonce, nonces': nat -> Nonce)
    | UpdateOp(pass: GoString, id: nat, es: seq<Endpoint>, nonces: nat -> Nonce)
    | DeleteOp(id: nat)
    | ChangeOp(pass: GoString, newPass: GoString, nonce: Nonce)

  /** SetSetting draws its candidate with RandString(32). */
  predicate WellDrawn(op: Op) { op.SetOp? ==> |op.candidate| == 32 }

  function Step(p: Primitives, db: DB, op: Op): (DB, Result<()>) {
    match op
    case SetOp(pass, name, value, candidate, nonce0, nonce1) =>
      SetSetting(p, db, pass, name, value, candidate, nonce0, nonce1)
    case CreateOp(pass, id, es, nonces, nonces') =>
      var (db', r) := CreateEndpoints(p, db, pass, id, es, nonces, nonces');
      (db', if r.Ok? then Ok(()) else if r.Err? then Err else Panic)
    case UpdateOp(pass, id, es, nonces) =>
      var (db', r) := SaveEndpoints(p, db, pass, id, es, nonces);
      (db', if r.Ok? then Ok(()) else if r.Err? then Err else Panic)
    case DeleteOp(id) => (db.(endpoints := db.endpoints - {id}), Ok(()))
    case ChangeOp(pass, newPass, nonce) => ChangePassword(p, db, pass, newPass, nonce, true, true)
  }

  /** The same operation on the plain store. The first setting ever stored decides
      the password; after that only the current password is let through. */
  function PlainStep(p: Primitives, plain: Plain, op: Op): (Plain, Result<()>) {
    match op
    case SetOp(pass, name, value, _, _, _) =>
      if plain.pass.None? then (plain.(pass := Some(pass), settings := plain.settings[name := value]), Ok(()))
      else if Matches(p, plain.pass, pass) then (plain.(settings := plain.settings[name := value]), Ok(()))
      else (plain, Err)
    case CreateOp(pass, id, es, _, _) =>
      if Matches(p, plain.pass, pass) then (PutEndpoints(plain, id, es), Ok(())) else (plain, Err)
    case UpdateOp(pass, id, es, _) =>
      if Matches(p, plain.pass, pass) then (PutEndpoints(plain, id, es), Ok(())) else (plain, Err)
    case DeleteOp(id) => (plain.(endpoints := plain.endpoints - {id}), Ok(()))
    case ChangeOp(pass, newPass, _) =>
      if Matches(p, plain.pass, pass) then (plain.(pass := Some(newPass)), Ok(())) else (plain, Err)
  }

  lemma PutSettingIndex(rows: seq<Setting>, s: Setting, name: string)
    ensures SettingIndex(PutSetting(rows, s), name) < |PutSetting(rows, s)| <==>
      name == s.name || SettingIndex(rows, name) < |rows|
  {
    var i, rows' := SettingIndex(rows, s.name), PutSetting(rows, s);
    var j, j' := SettingIndex(rows, name), SettingIndex(rows', name);
    assert rows'[i] == s;
    if name != s.name && j < |rows| {
      assert rows'[j].name == name;
    }
  }

  lemma PutSettingRefines(p: Primitives, key: Bytes, rows: seq<Setting>, plain: map<string, GoString>, s: Setting, value: GoString)
    requires SettingsRefine(p, key, rows, plain) && Sealed(p, key, s.value, value)
    ensures SettingsRefine(p, key, PutSetting(rows, s), plain[s.name := value])
  {
    var k, rows', plain' := SettingIndex(rows, s.name), PutSetting(rows, s), plain[s.name := value];
    forall i | 0 <= i < |rows'| ensures rows'[i].name in plain' && Sealed(p, key, rows'[i].value, plain'[rows'[i].name]) {
      if i != k { assert rows'[i] == rows[i] && rows[i].name != s.name; }
    }
    forall i, j | 0 <= i < j < |rows'| ensures rows'[i].name != rows'[j].name {
      if i != k && j != k { assert rows'[i] == rows[i] && rows'[j] == rows[j]; }
    }
    forall name: string ensures name in plain' ==> SettingIndex(rows', name) < |rows'| {
      PutSettingIndex(rows, s, name);
    }
  }

  lemma SetRefines(p: Primitives, db: DB, masterpass: GoString, plain: Plain, op: Op) returns (masterpass': GoString)
    requires Ideal(p) && Refines(p, db, masterpass, plain) && op.SetOp? && WellDrawn(op)
    ensures Step(p, db, op).1 == PlainStep(p, plain, op).1
    ensures Refines(p, Step(p, db, op).0, masterpass', PlainStep(p, plain, op).0)
    ensures plain.pass.Some? ==> masterpass' == masterpass
  {
    if plain.pass.None? {
      masterpass' := op.candidate;
      EncryptSeals(p, PassKey(p, op.pass), op.nonce0, masterpass');
      var db1 := EnsureMasterPass(p, db, op.pass, op.candidate, op.nonce0).value;
      assert Refines(p, db1, masterpass', plain.(pass := Some(op.pass)));
      MasterpassRead(p, db1, masterpass', plain.(pass := Some(op.pass)), op.pass);
    } else {
      masterpass' := masterpass;
      MasterpassRead(p, db, masterpass, plain, op.pass);
    }
    var key := ToBytes(masterpass');
    if plain.pass.None? || Matches(p, plain.pass, op.pass) {
      EncryptSeals(p, key, op.nonce1, op.value);
      var s := Setting(op.name, EncryptText(p, key, op.nonce1, op.value).value);
      PutSettingRefines(p, key, db.settings, plain.settings, s, op.value);
    }
  }

  lemma SavedAgain(p: Primitives, db: DB, db1: DB, masterpass: GoString, plain: Plain, pass: GoString, id: nat,
                   es: seq<Endpoint>, outcome: (DB, Result<seq<Endpoint>>))
    requires Matches(p, plain.pass, pass)
    requires Saved(p, db1, masterpass, PutEndpoints(plain, id, es), pass, id, es, outcome)
    ensures Saved(p, db, masterpass, plain, pass, id, es, outcome)
  {
    assert PutEndpoints(PutEndpoints(plain, id, es), id, es) == PutEndpoints(plain, id, es);
  }

  lemma CreateRefines(p: Primitives, db: DB, masterpass: GoString, plain: Plain, pass: GoString, id: nat,
                      es: seq<Endpoint>, nonces: nat -> Nonce, nonces': nat -> Nonce)
    requires Ideal(p) && Refines(p, db, masterpass, plain)
    ensures Saved(p, db, masterpass, plain, pass, id, es, CreateEndpoints(p, db, pass, id, es, nonces, nonces'))
  {
    var first := SaveEndpoints(p, db, pass, id, es, nonces);
    SaveRefines(p, db, masterpass, plain, pass, id, es, nonces);
    if Matches(p, plain.pass, pass) {
      SaveRefines(p, first.0, masterpass, PutEndpoints(plain, id, es), pass, id, es, nonces');
      SavedAgain(p, db, first.0, masterpass, plain, pass, id, es, SaveEndpoints(p, first.0, pass, id, es, nonces'));
    }
  }

  lemma DeleteRefines(p: Primitives, db: DB, masterpass: GoString, plain: Plain, id: nat)
    requires Refines(p, db, masterpass, plain)
    ensures Refines(p, db.(endpoints := db.endpoints - {id}), masterpass, plain.(endpoints := plain.endpoints - {id}))
  {
    if plain.pass.None? {
      assert db.endpoints - {id} == map[] && plain.endpoints - {id} == map[];
    }
  }

  lemma ChangeRefines(p: Primitives, db: DB, masterpass: GoString, plain: Plain, op: Op)
    requires Ideal(p) && Refines(p, db, masterpass, plain) && op.ChangeOp?
    ensures Step(p, db, op).1 == PlainStep(p, plain, op).1
    ensures Refines(p, Step(p, db, op).0, masterpass, PlainStep(p, plain, op).0)
  {
    MasterpassRead(p, db, masterpass, plain, op.pass);
    EncryptSeals(p, PassKey(p, op.newPass), op.nonce, masterpass);
  }

  /** One operation: the answers agree, no call panics, and the refinement is kept. */
  lemma StepRefines(p: Primitives, db: DB, masterpass: GoString, plain: Plain, op: Op) returns (masterpass': GoString)
    requires Ideal(p) && Refines(p, db, masterpass, plain) && WellDrawn(op)
    ensures Step(p, db, op).1 == PlainStep(p, plain, op).1
    ensures Refines(p, Step(p, db, op).0, masterpass', PlainStep(p, plain, op).0)
    ensures plain.pass.Some? ==> masterpass' == masterpass
  {
    masterpass' := masterpass;
    match op
    case SetOp(_, _, _, _, _, _) =>
      masterpass' := SetRefines(p, db, masterpass, plain, op);
    case CreateOp(pass, id, es, nonces, nonces') =>
      CreateRefines(p, db, masterpass, plain, pass, id, es, nonces, nonces');
    case UpdateOp(pass, id, es, nonces) =>
      SaveRefines(p, db, masterpass, plain, pass, id, es, nonces);
    case DeleteOp(id) =>
      DeleteRefines(p, db, masterpass, plain, id);
    case ChangeOp(pass, newPass, nonce) =>
      ChangeRefines(p, db, masterpass, plain, op);
  }

  function Run(p: Primitives, ops: seq<Op>): DB {
    if ops == [] then EMPTY_DB else Step(p, Run(p, ops[..|ops| - 1]), ops[|ops| - 1]).0
  }

  function PlainRun(p: Primitives, ops: seq<Op>): Plain {
    if ops == [] then EMPTY_PLAIN else PlainStep(p, PlainRun(p, ops[..|ops| - 1]), ops[|ops| - 1]).0
  }

  /** Every run, including password changes, refines the plain run. */
  lemma {:induction false} RunRefines(p: Primitives, ops: seq<Op>) returns (masterpass: GoString)
    requires Ideal(p) && forall op :: op in ops ==> WellDrawn(op)
    ensures Refines(p, Run(p, ops), masterpass, PlainRun(p, ops))
  {
    if ops == [] {
      masterpass := "";
    } else {
      var front := ops[..|ops| - 1];
      masterpass := RunRefines(p, front);
      masterpass := StepRefines(p, Run(p, front), masterpass, PlainRun(p, front), ops[|ops| - 1]);
    }
  }

  /** Reads in a state that refines a plain one. */
  lemma ReadsAgree(p: Primitives, db: DB, masterpass: GoString, plain: Plain, pass: GoString, name: string, id: nat)
    requires Ideal(p) && Refines(p, db, masterpass, plain)
    ensures GetSetting(p, db, pass, name) ==
      if Matches(p, plain.pass, pass) && name in plain.settings then Ok(plain.settings[name]) else Err
    ensures id in db.endpoints <==> id in plain.endpoints
    ensures id in db.endpoints ==>
      DecryptPsk(p, db, pass, db.endpoints[id]) == (if Matches(p, plain.pass, pass) then Ok(plain.endpoints[id]) else Err)
  {
    MasterpassRead(p, db, masterpass, plain, pass);
    if Matches(p, plain.pass, pass) {
      var key := ToBytes(masterpass);
      var i := SettingIndex(db.settings, name);
      if i < |db.settings| {
        OpenSealed(p, key, db.settings[i].value, plain.settings[name], key);
      }
      if id in db.endpoints {
        OpenAllRefines(p, key, db.endpoints[id], plain.endpoints[id]);
      }
    }
  }

  /** After every run, a setting and the pre-shared keys of a VRF read under a password
      are the plain ones when the password is current and are refused otherwise. */
  lemma RunReads(p: Primitives, ops: seq<Op>, pass: GoString, name: string, id: nat)
    requires Ideal(p) && forall op :: op in ops ==> WellDrawn(op)
    ensures var db, plain := Run(p, ops), PlainRun(p, ops);
      && GetSetting(p, db, pass, name) ==
         (if Matches(p, plain.pass, pass) && name in plain.settings then Ok(plain.settings[name]) else Err)
      && (id in db.endpoints <==> id in plain.endpoints)
      && (id in db.endpoints ==>
            DecryptPsk(p, db, pass, db.endpoints[id]) == (if Matches(p, plain.pass, pass) then Ok(plain.endpoints[id]) else Err))
  {
    var masterpass := RunRefines(p, ops);
    ReadsAgree(p, Run(p, ops), masterpass, PlainRun(p, ops), pass, name, id);
  }

  /** A password change with a database that may refuse either table operation: the
      secrets end up under the new password, stay under the old one, or are lost, and
      which of the three is decided by the two answers. */
  lemma ChangePasswordFaults(p: Primitives, db: DB, masterpass: GoString, plain: Plain,
                             newPass: GoString, nonce: Nonce, deleteOk: bool, createOk: bool, pass: GoString)
    requires Ideal(p) && Refines(p, db, masterpass, plain) && plain.pass.Some?
    ensures var (db', r) := ChangePassword(p, db, plain.pass.value, newPass, nonce, deleteOk, createOk);
      && (r == Ok(()) <==> deleteOk && createOk) && !r.Panic?
      && (deleteOk && createOk ==> Refines(p, db', masterpass, plain.(pass := Some(newPass))))
      && (!deleteOk ==> db' == db)
      && (deleteOk && !createOk ==> GetMasterpass(p, db', pass) == Err && db'.settings == db.settings)
  {
    MasterpassRead(p, db, masterpass, plain, plain.pass.value);
    EncryptSeals(p, PassKey(p, newPass), nonce, masterpass);
  }

  const DEFAULT_PASSWORD := "cisco123"

  /** initializeSettings stores the switch settings one after the other under the
      built-in password; an error of one does not keep the next from running. */
  function Startup(p: Primitives, db: DB, pass: GoString, ops: seq<Op>): (DB, bool)
    requires forall op :: op in ops ==> op.SetOp? && op.pass == pass
  {
    if ops == [] then (db, true)
    else
      var (db1, ok) := Startup(p, db, pass, ops[..|ops| - 1]);
      var (db2, r) := Step(p, db1, ops[|ops| - 1]);
      (db2, ok && r.Ok?)
  }

  /** The settings a start-up writes, on the plain side. */
  function Written(settings: map<string, GoString>, ops: seq<Op>): map<string, GoString>
    requires forall op :: op in ops ==> op.SetOp?
  {
    if ops == [] then settings
    else Written(settings, ops[..|ops| - 1])[ops[|ops| - 1].name := ops[|ops| - 1].value]
  }

  predicate Admits(p: Primitives, plain: Plain, pass: GoString) {
    plain.pass.None? || Matches(p, plain.pass, pass)
  }

  function Started(p: Primitives, plain: Plain, pass: GoString, ops: seq<Op>): Plain
    requires forall op :: op in ops ==> op.SetOp?
  {
    if !Admits(p, plain, pass) || ops == [] then plain
    else Plain(if plain.pass.None? then Some(pass) else plain.pass, Written(plain.settings, ops), plain.endpoints)
  }

  lemma StartedStep(p: Primitives, plain: Plain, pass: GoString, ops: seq<Op>)
    requires ops != [] && forall op :: op in ops ==> op.SetOp? && op.pass == pass
    ensures var front, op := ops[..|ops| - 1], ops[|ops| - 1];
      PlainStep(p, Started(p, plain, pass, front), op) ==
      (Started(p, plain, pass, ops), if Admits(p, plain, pass) then Ok(()) else Err)
  {
    var front, op := ops[..|ops| - 1], ops[|ops| - 1];
    assert op in ops && op.SetOp? && op.pass == pass;
    if front == [] {
      assert Written(plain.settings, front) == plain.settings;
    }
  }

  /** From every reachable state start-up succeeds exactly when nothing was stored yet
      or the password in force is the one it uses, and either way every pre-shared key
      and every setting it does not name keeps its value. */
  lemma {:induction false} StartupOutcome(p: Primitives, db: DB, masterpass: GoString, plain: Plain, pass: GoString, ops: seq<Op>)
    returns (masterpass': GoString)
    requires Ideal(p) && Refines(p, db, masterpass, plain)
    requires forall op :: op in ops ==> op.SetOp? && op.pass == pass && WellDrawn(op)
    ensures Startup(p, db, pass, ops).1 <==> ops == [] || Admits(p, plain, pass)
    ensures Refines(p, Startup(p, db, pass, ops).0, masterpass', Started(p, plain, pass, ops))
  {
    masterpass' := masterpass;
    if ops != [] {
      var front, op := ops[..|ops| - 1], ops[|ops| - 1];
      assert op in ops && op.SetOp?;
      masterpass' := StartupOutcome(p, db, masterpass, plain, pass, front);
      StartedStep(p, plain, pass, ops);
      masterpass' := SetRefines(p, Startup(p, db, pass, front).0, masterpass', Started(p, plain, pass, front), op);
    }
  }

  /** What Written leaves alone. */
  lemma {:induction false} WrittenElsewhere(settings: map<string, GoString>, ops: seq<Op>, name: string)
    requires forall op :: op in ops ==> op.SetOp? && op.name != name
    ensures name in Written(settings, ops) <==> name in settings
    ensures name in settings ==> Written(settings, ops)[name] == settings[name]
  {
    if ops != [] {
      assert ops[|ops| - 1] in ops;
      WrittenElsewhere(settings, ops[..|ops| - 1], name);
    }
  }

  /** Start-up after any run: with the built-in password it succeeds exactly when the run
      stored nothing or left that password in force, and either way every setting it does
      not name and all pre-shared keys read as before. */
  lemma StartupAfterRun(p: Primitives, ops: seq<Op>, ops': seq<Op>, pass: GoString, name: string, id: nat)
    requires Ideal(p) && (forall op :: op in ops ==> WellDrawn(op)) && ops' != []
    requires forall op :: op in ops' ==> op.SetOp? && op.pass == DEFAULT_PASSWORD && WellDrawn(op) && op.name != name
    requires PlainRun(p, ops).pass.Some?
    ensures var db, plain := Run(p, ops), PlainRun(p, ops);
      var (db', ok) := Startup(p, db, DEFAULT_PASSWORD, ops');
      && (ok <==> Matches(p, plain.pass, DEFAULT_PASSWORD))
      && GetSetting(p, db', pass, name) == GetSetting(p, db, pass, name)
      && (id in db'.endpoints <==> id in db.endpoints)
      && (id in db.endpoints ==>
            DecryptPsk(p, db', pass, db'.endpoints[id]) == DecryptPsk(p, db, pass, db.endpoints[id]))
  {
    var masterpass := RunRefines(p, ops);
    StartupKeeps(p, Run(p, ops), masterpass, PlainRun(p, ops), ops', pass, name, id);
  }

  lemma StartupKeeps(p: Primitives, db: DB, masterpass: GoString, plain: Plain, ops: seq<Op>, pass: GoString, name: string, id: nat)
    requires Ideal(p) && Refines(p, db, masterpass, plain) && plain.pass.Some? && ops != []
    requires forall op :: op in ops ==> op.SetOp? && op.pass == DEFAULT_PASSWORD && WellDrawn(op) && op.name != name
    ensures var (db', ok) := Startup(p, db, DEFAULT_PASSWORD, ops);
      && (ok <==> Matches(p, plain.pass, DEFAULT_PASSWORD))
      && GetSetting(p, db', pass, name) == GetSetting(p, db, pass, name)
      && (id in db'.endpoints <==> id in db.endpoints)
      && (id in db.endpoints ==> DecryptPsk(p, db', pass, db'.endpoints[id]) == DecryptPsk(p, db, pass, db.endpoints[id]))
  {
    var masterpass' := StartupOutcome(p, db, masterpass, plain, DEFAULT_PASSWORD, ops);
    WrittenElsewhere(plain.settings, ops, name);
    SameReads(p, db, Startup(p, db, DEFAULT_PASSWORD, ops).0, masterpass, masterpass', plain,
      Started(p, plain, DEFAULT_PASSWORD, ops), pass, name, id);
  }

  /** Plain stores that agree read alike. */
  lemma SameReads(p: Primitives, db: DB, db': DB, masterpass: GoString, masterpass': GoString, plain: Plain, plain': Plain,
                  pass: GoString, name: string, id: nat)
    requires Ideal(p) && Refines(p, db, masterpass, plain) && Refines(p, db', masterpass', plain')
    requires plain'.pass == plain.pass && plain'.endpoints == plain.endpoints
    requires (name in plain'.settings <==> name in plain.settings)
    requires name in plain.settings ==> plain'.settings[name] == plain.settings[name]
    ensures GetSetting(p, db', pass, name) == GetSetting(p, db, pass, name)
    ensures id in db'.endpoints <==> id in db.endpoints
    ensures id in db.endpoints ==> DecryptPsk(p, db', pass, db'.endpoints[id]) == DecryptPsk(p, db, pass, db.endpoints[id])
  {
    ReadsAgree(p, db, masterpass, plain, pass, name, id);
    ReadsAgree(p, db', masterpass', plain', pass, name, id);
  }

  /** Before anything is stored start-up always succeeds. */
  lemma StartupFirst(p: Primitives, ops: seq<Op>, ops': seq<Op>) returns (masterpass: GoString)
    requires Ideal(p) && (forall op :: op in ops ==> WellDrawn(op)) && PlainRun(p, ops).pass.None?
    requires forall op :: op in ops' ==> op.SetOp? && op.pass == DEFAULT_PASSWORD && WellDrawn(op)
    ensures var (db', ok) := Startup(p, Run(p, ops), DEFAULT_PASSWORD, ops');
      ok && Refines(p, db', masterpass, Started(p, EMPTY_PLAIN, DEFAULT_PASSWORD, ops'))
  {
    masterpass := RunRefines(p, ops);
    masterpass := StartupOutcome(p, Run(p, ops), masterpass, PlainRun(p, ops), DEFAULT_PASSWORD, ops');
  }
}
