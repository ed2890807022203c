/** Passwords on the wire: the Basic authorization header of section 2 of RFC 7617, how
    getPassFromHeader takes it apart, and what a password change does to later requests. */
module BasicAuth {
  import opened Text
  import opened Base64
  import opened Crypto
  import opened Vault
  import opened VaultRefinement

  const PREFIX: GoString := "Basic "
  const USER: GoString := "admin"

  /** What an HTTP client sends. */
  function Header(pass: GoString): string {
    PREFIX + PadEncode(ToBytes(Credentials(pass)))
  }

  function Credentials(pass: GoString): GoString { USER + [':'] + pass }

  /** getPassFromHeader. Cutting off the prefix and taking the second part panic when
      there is nothing there. */
  function PassFromHeader(header: Option<string>): Result<GoString> {
    match header
    case None => Err
    case Some(h) =>
      if |h| < |PREFIX| then Panic
      else
        match RawDecode(TrimPadding(h[|PREFIX|..]))
        case None => Err
        case Some(b) =>
          var parts := SplitBytes(FromBytes(b), ':');
          if |parts| < 2 then Panic else Ok(parts[1])
  }

  /** Split again, on Go strings. */
  function SplitBytes(s: GoString, sep: char): (parts: seq<GoString>)
    ensures parts == Split(s, sep)
    decreases |s|
  {
    var i := IndexOf(s, sep);
    if i == |s| then [s] else [s[..i]] + SplitBytes(s[i + 1..], sep)
  }

  function UpToColon(pass: GoString): GoString { pass[..IndexOf(pass, ':')] }

  /** The text up to the next colon is what comes back out of a client's header. */
  lemma PassOfHeader(pass: GoString)
    ensures PassFromHeader(Some(Header(pass))) == Ok(UpToColon(pass))
    ensures UpToColon(pass) == pass <==> ':' !in pass
  {
    PassOfAnyUser(USER, pass);
    FirstPart(pass);
  }

  /** Whatever the name of the user is; the backend does not look at it. */
  lemma PassOfAnyUser(user: GoString, pass: GoString)
    requires ':' !in user
    ensures PassFromHeader(Some("Basic " + PadEncode(ToBytes(user + [':'] + pass)))) == Ok(UpToColon(pass))
  {
    var text: GoString := user + [':'] + pass;
    var h := "Basic " + PadEncode(ToBytes(text));
    assert h[|PREFIX|..] == PadEncode(ToBytes(text));
    PaddedRoundTrip(ToBytes(text));
    FromToBytes(text);
    SplitCons(user, ':', pass);
    FirstPart(pass);
  }

  lemma FirstPart(pass: GoString)
    ensures Split(pass, ':')[0] == UpToColon(pass)
  {
    assert pass[..|pass|] == pass;
  }

  /** nginx checks the password file, the backend opens the store with what it finds in
      the header; a password is of use for a setting when both let it through. */
  datatype Front = Front(htpasswd: GoString, db: DB)

  predicate CanRead(p: Primitives, f: Front, pass: GoString, name: string) {
    && f.htpasswd == pass
    && var given := PassFromHeader(Some(Header(pass)));
       given.Ok? && GetSetting(p, f.db, given.value, name).Ok?
  }

  /** _changePassword: the file first, then the web server, then the store. */
  function ChangeUserPassword(p: Primitives, f: Front, oldPass: GoString, newPass: GoString, nonce: Nonce,
                              fileOk: bool, reloadOk: bool, deleteOk: bool, createOk: bool): (Front, Result<()>) {
    if !fileOk then (f, Err)
    else if !reloadOk then (f.(htpasswd := newPass), Err)
    else
      var (db, r) := ChangePassword(p, f.db, oldPass, newPass, nonce, deleteOk, createOk);
      (Front(newPass, db), r)
  }

  predicate Collide(p: Primitives, a: GoString, b: GoString) {
    a != b && p.sha(ToBytes(a)) == p.sha(ToBytes(b))
  }

  /** After a change that went through, requests sent with the new password read every
      setting if and only if the password holds no colon. */
  lemma ReadableAfterChange(p: Primitives, f: Front, masterpass: GoString, plain: Plain,
                            newPass: GoString, nonce: Nonce, name: string)
    requires Ideal(p) && Refines(p, f.db, masterpass, plain) && plain.pass.Some?
    requires !Collide(p, newPass, UpToColon(newPass))
    ensures var (f', r) := ChangeUserPassword(p, f, plain.pass.value, newPass, nonce, true, true, true, true);
      && r == Ok(())
      && (CanRead(p, f', newPass, name) <==> name in plain.settings && ':' !in newPass)
      && (CanRead(p, f', newPass, name) ==> GetSetting(p, f'.db, newPass, name) == Ok(plain.settings[name]))
  {
    var (f', r) := ChangeUserPassword(p, f, plain.pass.value, newPass, nonce, true, true, true, true);
    var plain' := plain.(pass := Some(newPass));
    ChangePasswordFaults(p, f.db, masterpass, plain, newPass, nonce, true, true, newPass);
    PassOfHeader(newPass);
    ReadsAgree(p, f'.db, masterpass, plain', UpToColon(newPass), name, 0);
  }

  /** A change that gets past the password file and then fails: the file knows only the new
      password, the store still only the old one, or none. So a setting can be read only
      with the new password, and only if the part of it before a colon is as good as the old
      one to the store and the store was not emptied. */
  lemma FailedChangeLocksOut(p: Primitives, f: Front, masterpass: GoString, plain: Plain, newPass: GoString, nonce: Nonce,
                             reloadOk: bool, deleteOk: bool, createOk: bool, pass: GoString, name: string)
    requires Ideal(p) && Refines(p, f.db, masterpass, plain) && plain.pass.Some?
    requires !(reloadOk && deleteOk && createOk)
    ensures var (f', r) := ChangeUserPassword(p, f, plain.pass.value, newPass, nonce, true, reloadOk, deleteOk, createOk);
      && r == Err
      && (CanRead(p, f', pass, name) <==>
            && pass == newPass && name in plain.settings
            && p.sha(ToBytes(UpToColon(newPass))) == p.sha(ToBytes(plain.pass.value)) && !(reloadOk && deleteOk))
  {
    PassOfHeader(newPass);
    ReadsAgree(p, f.db, masterpass, plain, UpToColon(newPass), name, 0);
    ChangePasswordFaults(p, f.db, masterpass, plain, newPass, nonce, deleteOk, createOk, UpToColon(newPass));
    var (f', r) := ChangeUserPassword(p, f, plain.pass.value, newPass, nonce, true, reloadOk, deleteOk, createOk);
    if deleteOk && reloadOk {
      assert GetMasterpass(p, f'.db, UpToColon(newPass)) == Err;
    } else {
      assert f'.db == f.db;
    }
  }

  /** initializeSettings at the start of the program: the built-in password goes into the
      password file before the store is asked. */
  function Restart(p: Primitives, f: Front, builtIn: GoString, ops: seq<Op>): (Front, bool)
    requires forall op :: op in ops ==> op.SetOp? && op.pass == builtIn
  {
    var (db, ok) := Startup(p, f.db, builtIn, ops);
    (Front(builtIn, db), ok)
  }

  /** After a restart that fails because the password was changed no password reads
      anything; after one that succeeds the built-in one reads every setting, and only it. */
  lemma RestartReads(p: Primitives, f: Front, masterpass: GoString, plain: Plain, builtIn: GoString, ops: seq<Op>,
                     pass: GoString, name: string)
    requires Ideal(p) && Refines(p, f.db, masterpass, plain) && ops != [] && ':' !in builtIn
    requires forall op :: op in ops ==> op.SetOp? && op.pass == builtIn && WellDrawn(op)
    ensures var (f', ok) := Restart(p, f, builtIn, ops);
      && (ok <==> Admits(p, plain, builtIn))
      && (CanRead(p, f', pass, name) <==> pass == builtIn && ok && name in Started(p, plain, builtIn, ops).settings)
  {
    var masterpass' := StartupOutcome(p, f.db, masterpass, plain, builtIn, ops);
    PassOfHeader(builtIn);
    ReadsAgree(p, Restart(p, f, builtIn, ops).0.db, masterpass', Started(p, plain, builtIn, ops), builtIn, name, 0);
  }

  /** The password that is built in has no colon. */
  lemma RestartWithDefault(p: Primitives, f: Front, masterpass: GoString, plain: Plain, ops: seq<Op>, pass: GoString, name: string)
    requires Ideal(p) && Refines(p, f.db, masterpass, plain) && ops != []
    requires forall op :: op in ops ==> op.SetOp? && op.pass == DEFAULT_PASSWORD && WellDrawn(op)
    ensures var (f', ok) := Restart(p, f, DEFAULT_PASSWORD, ops);
      && (ok <==> Admits(p, plain, DEFAULT_PASSWORD))
      && (CanRead(p, f', pass, name) <==>
            pass == DEFAULT_PASSWORD && ok && name in Started(p, plain, DEFAULT_PASSWORD, ops).settings)
  {
    RestartReads(p, f, masterpass, plain, DEFAULT_PASSWORD, ops, pass, name);
  }

  /** What a request without a proper header gets: an error for a missing one and for
      what is no base 64, a panic for one that is cut short or holds no colon. */
  lemma HeaderOutcome(h: string)
    ensures PassFromHeader(None) == Err
    ensures |h| < 6 ==> PassFromHeader(Some(h)) == Panic
    ensures |h| >= 6 && RawDecode(TrimPadding(h[6..])) == None ==> PassFromHeader(Some(h)) == Err
    ensures |h| >= 6 && RawDecode(TrimPadding(h[6..])).Some? && ':' !in FromBytes(RawDecode(TrimPadding(h[6..])).value) ==>
      PassFromHeader(Some(h)) == Panic
  {
  }
}
