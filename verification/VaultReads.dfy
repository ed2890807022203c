/** What the encrypted store answers, told from the operations alone: the password in force
    is the one of the first setting or of the last change that went through, and a read
    succeeds exactly under passwords with the same digest. */
module VaultReads {
  import opened Text
  import opened Base64
  import opened Crypto
  import opened Types
  import opened Vault
  import opened VaultRefinement

  /** The operation went through in the state it met. */
  predicate Succeeds(p: Primitives, ops: seq<Op>, i: nat)
    requires i < |ops|
  {
    Step(p, Run(p, ops[..i]), ops[i]).1 == Ok(())
  }

  /** The password in force. */
  function Current(p: Primitives, ops: seq<Op>): Option<GoString> {
    if ops == [] then None
    else
      var before, i, op := Current(p, ops[..|ops| - 1]), |ops| - 1, ops[|ops| - 1];
      if !Succeeds(p, ops, i) then before
      else if op.SetOp? && before.None? then Some(op.pass)
      else if op.ChangeOp? then Some(op.newPass)
      else before
  }

  /** The value of the last setting of this name that went through. */
  function LastValue(p: Primitives, ops: seq<Op>, name: string): Option<GoString> {
    if ops == [] then None
    else
      var op := ops[|ops| - 1];
      if op.SetOp? && op.name == name && Succeeds(p, ops, |ops| - 1) then Some(op.value)
      else LastValue(p, ops[..|ops| - 1], name)
  }

  /** The endpoints of the last create or update of this VRF that went through, unless it
      was deleted since. */
  function LastEndpoints(p: Primitives, ops: seq<Op>, id: nat): Option<seq<Endpoint>> {
    if ops == [] then None
    else
      var op := ops[|ops| - 1];
      if op.DeleteOp? && op.id == id then None
      else if (op.CreateOp? || op.UpdateOp?) && op.id == id && Succeeds(p, ops, |ops| - 1) then Some(op.es)
      else LastEndpoints(p, ops[..|ops| - 1], id)
  }

  function At<K, V>(m: map<K, V>, k: K): Option<V> { if k in m then Some(m[k]) else None }

  /** What an operation that goes through does to the plain store at one name and id. */
  lemma PlainStepAt(p: Primitives, plain: Plain, op: Op, name: string, id: nat)
    ensures var (plain', r) := PlainStep(p, plain, op);
      if r != Ok(()) then plain' == plain
      else
        && plain'.pass == (if op.SetOp? && plain.pass.None? then Some(op.pass)
                           else if op.ChangeOp? then Some(op.newPass) else plain.pass)
        && At(plain'.settings, name) == (if op.SetOp? && op.name == name then Some(op.value) else At(plain.settings, name))
        && At(plain'.endpoints, id) ==
           (if op.DeleteOp? && op.id == id then None
            else if (op.CreateOp? || op.UpdateOp?) && op.id == id then Some(op.es) else At(plain.endpoints, id))
  {
  }

  lemma DeletesSucceed(p: Primitives, ops: seq<Op>, i: nat)
    requires i < |ops| && ops[i].DeleteOp?
    ensures Succeeds(p, ops, i)
  {
  }

  /** The plain store is what the operations that went through make of it. */
  lemma {:induction false} PlainIs(p: Primitives, ops: seq<Op>, name: string, id: nat)
    requires Ideal(p) && forall op :: op in ops ==> WellDrawn(op)
    ensures var plain := PlainRun(p, ops);
      && plain.pass == Current(p, ops)
      && At(plain.settings, name) == LastValue(p, ops, name)
      && At(plain.endpoints, id) == LastEndpoints(p, ops, id)
  {
    if ops != [] {
      var front, op := ops[..|ops| - 1], ops[|ops| - 1];
      PlainIs(p, front, name, id);
      var masterpass := RunRefines(p, front);
      AnswerIs(p, front, masterpass, op);
      PlainStepAt(p, PlainRun(p, front), op, name, id);
      if op.DeleteOp? { DeletesSucceed(p, ops, |ops| - 1); }
    }
  }

  lemma AnswerIs(p: Primitives, ops: seq<Op>, masterpass: GoString, op: Op)
    requires Ideal(p) && Refines(p, Run(p, ops), masterpass, PlainRun(p, ops)) && WellDrawn(op)
    ensures Step(p, Run(p, ops), op).1 == PlainStep(p, PlainRun(p, ops), op).1
  {
    var _ := StepRefines(p, Run(p, ops), masterpass, PlainRun(p, ops), op);
  }

  /** An operation goes through exactly when it is a deletion, or the first setting of all,
      or its password has the digest of the one in force. */
  lemma StepAnswers(p: Primitives, ops: seq<Op>, op: Op)
    requires Ideal(p) && (forall op' :: op' in ops ==> WellDrawn(op')) && WellDrawn(op)
    ensures var r, current := Step(p, Run(p, ops), op).1, Current(p, ops);
      && !r.Panic?
      && (r == Ok(()) <==>
            || op.DeleteOp? || (op.SetOp? && current.None?)
            || (current.Some? && p.sha(ToBytes(current.value)) == p.sha(ToBytes(op.pass))))
  {
    PlainIs(p, ops, "", 0);
    var masterpass := RunRefines(p, ops);
    var _ := StepRefines(p, Run(p, ops), masterpass, PlainRun(p, ops), op);
  }

  /** After every run a setting can be read under a password exactly when it was set and
      the password has the digest of the one in force, and then it is what was set last.
      The same holds of the pre-shared keys of a VRF. */
  lemma ReadsLast(p: Primitives, ops: seq<Op>, pass: GoString, name: string, id: nat)
    requires Ideal(p) && forall op :: op in ops ==> WellDrawn(op)
    ensures var db, current := Run(p, ops), Current(p, ops);
      var same := current.Some? && p.sha(ToBytes(current.value)) == p.sha(ToBytes(pass));
      && GetSetting(p, db, pass, name) == (if same && LastValue(p, ops, name).Some? then Ok(LastValue(p, ops, name).value) else Err)
      && (id in db.endpoints <==> LastEndpoints(p, ops, id).Some?)
      && (id in db.endpoints ==>
            DecryptPsk(p, db, pass, db.endpoints[id]) == if same then Ok(LastEndpoints(p, ops, id).value) else Err)
  {
    PlainIs(p, ops, name, id);
    RunReads(p, ops, pass, name, id);
  }

  /** So a password with another digest reads nothing and changes nothing. */
  lemma OtherDigestReadsNothing(p: Primitives, ops: seq<Op>, pass: GoString, name: string, id: nat)
    requires Ideal(p) && forall op :: op in ops ==> WellDrawn(op)
    requires Current(p, ops).Some? ==> p.sha(ToBytes(Current(p, ops).value)) != p.sha(ToBytes(pass))
    ensures var db := Run(p, ops);
      GetSetting(p, db, pass, name) == Err && (id in db.endpoints ==> DecryptPsk(p, db, pass, db.endpoints[id]) == Err)
  {
    ReadsLast(p, ops, pass, name, id);
  }

  /** A change of the password in force, with a database that may refuse either table
      operation: afterwards a setting can be read under the new password's digest, under
      the old one's, or not at all. */
  lemma ChangedReads(p: Primitives, ops: seq<Op>, newPass: GoString, nonce: Nonce, deleteOk: bool, createOk: bool,
                     pass: GoString, name: string)
    requires Ideal(p) && (forall op :: op in ops ==> WellDrawn(op)) && Current(p, ops).Some?
    ensures var current := Current(p, ops).value;
      var (db, r) := ChangePassword(p, Run(p, ops), current, newPass, nonce, deleteOk, createOk);
      && (r == Ok(()) <==> deleteOk && createOk)
      && GetSetting(p, db, pass, name) ==
         (if LastValue(p, ops, name).None? || (deleteOk && !createOk) then Err
          else if p.sha(ToBytes(pass)) == p.sha(ToBytes(if deleteOk then newPass else current)) then Ok(LastValue(p, ops, name).value)
          else Err)
  {
    PlainIs(p, ops, name, 0);
    var masterpass := RunRefines(p, ops);
    var db, plain := Run(p, ops), PlainRun(p, ops);
    ChangePasswordFaults(p, db, masterpass, plain, newPass, nonce, deleteOk, createOk, pass);
    if deleteOk && createOk {
      ReadsAgree(p, ChangePassword(p, db, plain.pass.value, newPass, nonce, true, true).0, masterpass,
        plain.(pass := Some(newPass)), pass, name, 0);
    } else {
      ReadsAgree(p, db, masterpass, plain, pass, name, 0);
    }
  }

  /** Start-up with the built-in password "cisco123": it succeeds exactly when nothing was
      stored or the password in force has its digest, and what it does not name reads as
      before. */
  lemma StartupReads(p: Primitives, ops: seq<Op>, ops': seq<Op>, pass: GoString, name: string)
    requires Ideal(p) && (forall op :: op in ops ==> WellDrawn(op)) && ops' != []
    requires forall op :: op in ops' ==> op.SetOp? && op.pass == "cisco123" && WellDrawn(op) && op.name != name
    ensures var current, db := Current(p, ops), Run(p, ops);
      var (db', ok) := Startup(p, db, "cisco123", ops');
      && (ok <==> current.None? || p.sha(ToBytes(current.value)) == p.sha(ToBytes("cisco123")))
      && GetSetting(p, db', pass, name) == GetSetting(p, db, pass, name)
  {
    PlainIs(p, ops, name, 0);
    var masterpass := RunRefines(p, ops);
    StartupReadsAs(p, Run(p, ops), masterpass, PlainRun(p, ops), ops', pass, name);
  }

  lemma StartupReadsAs(p: Primitives, db: DB, masterpass: GoString, plain: Plain, ops: seq<Op>, pass: GoString, name: string)
    requires Ideal(p) && Refines(p, db, masterpass, plain) && ops != []
    requires forall op :: op in ops ==> op.SetOp? && op.pass == "cisco123" && WellDrawn(op) && op.name != name
    ensures var (db', ok) := Startup(p, db, "cisco123", ops);
      && (ok <==> Admits(p, plain, "cisco123"))
      && (plain.pass.None? ==> name !in plain.settings)
      && GetSetting(p, db', pass, name) == GetSetting(p, db, pass, name)
  {
    var masterpass' := StartupOutcome(p, db, masterpass, plain, "cisco123", ops);
    WrittenElsewhere(plain.settings, ops, name);
    ReadsAgree(p, db, masterpass, plain, pass, name, 0);
    ReadsAgree(p, Startup(p, db, "cisco123", ops).0, masterpass', Started(p, plain, "cisco123", ops), pass, name, 0);
  }

  lemma {:induction false} WrittenLast(settings: map<string, GoString>, ops: seq<Op>, i: nat)
    requires (forall op :: op in ops ==> op.SetOp?) && i < |ops| && forall j :: i < j < |ops| ==> ops[j].name != ops[i].name
    ensures ops[i].name in Written(settings, ops) && Written(settings, ops)[ops[i].name] == ops[i].value
    decreases |ops|
  {
    if i < |ops| - 1 { WrittenLast(settings, ops[..|ops| - 1], i); }
  }

  /** A start-up that succeeds has stored what it names, and the built-in password reads it. */
  lemma StartupWrites(p: Primitives, ops: seq<Op>, ops': seq<Op>, i: nat)
    requires Ideal(p) && forall op :: op in ops ==> WellDrawn(op)
    requires forall op :: op in ops' ==> op.SetOp? && op.pass == "cisco123" && WellDrawn(op)
    requires i < |ops'| && forall j :: i < j < |ops'| ==> ops'[j].name != ops'[i].name
    ensures var (db', ok) := Startup(p, Run(p, ops), "cisco123", ops');
      ok ==> GetSetting(p, db', "cisco123", ops'[i].name) == Ok(ops'[i].value)
  {
    var masterpass := RunRefines(p, ops);
    var plain := PlainRun(p, ops);
    var masterpass' := StartupOutcome(p, Run(p, ops), masterpass, plain, "cisco123", ops');
    WrittenLast(plain.settings, ops', i);
    ReadsAgree(p, Startup(p, Run(p, ops), "cisco123", ops').0, masterpass', Started(p, plain, "cisco123", ops'),
      "cisco123", ops'[i].name, 0);
  }

  /** The form a secret is stored in: raw base 64 of twelve bytes of nonce and the
      sealed text after them. */
  lemma StoredLayout(p: Primitives, key: Bytes, nonce: Nonce, text: GoString)
    requires |key| == 32
    ensures EncryptText(p, key, nonce, text).Ok?
    ensures var stored := EncryptText(p, key, nonce, text).value;
      && RawDecode(stored) == Some(nonce + p.seal(key, nonce, ToBytes(text))) && |nonce| == 12
  {
    RawRoundTrip(nonce + p.seal(key, nonce, ToBytes(text)));
  }
}
