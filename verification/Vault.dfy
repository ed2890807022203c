/** The encrypted store of db/crypto.go: a master password sealed under the hash of
    the user's password, and settings and pre-shared keys sealed under the master
    password. */
module Vault {
  import opened Text
  import opened Base64
  import opened Crypto
  import opened Types

  datatype Setting = Setting(name: string, value: GoString)

  /** Tables in row order; gorm's First is the first row that matches. */
  datatype DB = DB(masters: seq<GoString>, settings: seq<Setting>, endpoints: map<nat, seq<Endpoint>>)

  function PassKey(p: Primitives, pass: GoString): Bytes { p.sha(ToBytes(pass)) }

  function SettingIndex(rows: seq<Setting>, name: string): (i: nat)
    ensures i <= |rows|
    ensures i < |rows| ==> rows[i].name == name
    ensures forall j :: 0 <= j < i ==> rows[j].name != name
  {
    if rows == [] || rows[0].name == name then 0 else 1 + SettingIndex(rows[1..], name)
  }

  /** Create a row, or update the row of that name. */
  function PutSetting(rows: seq<Setting>, s: Setting): seq<Setting> {
    var i := SettingIndex(rows, s.name);
    if i == |rows| then rows + [s] else rows[i := s]
  }

  function EnsureMasterPass(p: Primitives, db: DB, pass: GoString, masterpass: GoString, nonce: Nonce): Result<DB> {
    if db.masters != [] then Ok(db)
    else
      var sealed :- EncryptText(p, PassKey(p, pass), nonce, masterpass);
      Ok(db.(masters := [sealed]))
  }

  function GetMasterpass(p: Primitives, db: DB, pass: GoString): Result<GoString> {
    if db.masters == [] then Err
    else DecryptText(p, PassKey(p, pass), db.masters[0])
  }

  /** `candidate` and the nonces are the random draws of the call. The table keeps
      what the calls before a failing one did, so the new state is returned with
      every outcome. */
  function SetSetting(p: Primitives, db: DB, pass: GoString, name: string, value: GoString,
                      candidate: GoString, nonce0: Nonce, nonce1: Nonce): (DB, Result<()>) {
    match EnsureMasterPass(p, db, pass, candidate, nonce0)
    case Err => (db, Err)
    case Panic => (db, Panic)
    case Ok(db1) =>
      match GetMasterpass(p, db1, pass)
      case Err => (db1, Err)
      case Panic => (db1, Panic)
      case Ok(masterpass) =>
        match EncryptText(p, ToBytes(masterpass), nonce1, value)
        case Err => (db1, Err)
        case Panic => (db1, Panic)
        case Ok(sealed) =>
          (db1.(settings := PutSetting(db1.settings, Setting(name, sealed))), Ok(()))
  }

  function GetSetting(p: Primitives, db: DB, pass: GoString, name: string): Result<GoString> {
    var masterpass :- GetMasterpass(p, db, pass);
    var i := SettingIndex(db.settings, name);
    if i == |db.settings| then Err else DecryptText(p, ToBytes(masterpass), db.settings[i].value)
  }

  function WithPsk(e: Endpoint, psk: GoString): Endpoint { e.(auth := e.auth.(psk := psk)) }

  /** EncryptPSK's loop over the endpoints; `nonces(i)` is drawn for endpoint i. */
  function SealAll(p: Primitives, key: Bytes, es: seq<Endpoint>, nonces: nat -> Nonce): (r: Result<seq<Endpoint>>)
    ensures r.Ok? ==> |r.value| == |es|
  {
    if es == [] then Ok([])
    else
      var rest :- SealAll(p, key, es[..|es| - 1], nonces);
      var e := es[|es| - 1];
      if !e.IsPsk() then Ok(rest + [e])
      else
        var psk :- EncryptText(p, key, nonces(|es| - 1), e.auth.psk);
        Ok(rest + [WithPsk(e, psk)])
  }

  /** DecryptPSK's loop. */
  function OpenAll(p: Primitives, key: Bytes, es: seq<Endpoint>): (r: Result<seq<Endpoint>>)
    ensures r.Ok? ==> |r.value| == |es|
  {
    if es == [] then Ok([])
    else
      var rest :- OpenAll(p, key, es[..|es| - 1]);
      var e := es[|es| - 1];
      if !e.IsPsk() then Ok(rest + [e])
      else
        var psk :- DecryptText(p, key, e.auth.psk);
        Ok(rest + [WithPsk(e, psk)])
  }

  function EncryptPsk(p: Primitives, db: DB, pass: GoString, es: seq<Endpoint>, nonces: nat -> Nonce): Result<seq<Endpoint>> {
    var masterpass :- GetMasterpass(p, db, pass);
    SealAll(p, ToBytes(masterpass), es, nonces)
  }

  function DecryptPsk(p: Primitives, db: DB, pass: GoString, es: seq<Endpoint>): Result<seq<Endpoint>> {
    var masterpass :- GetMasterpass(p, db, pass);
    OpenAll(p, ToBytes(masterpass), es)
  }

  /** The database half of _updateBackends: seal, store, read back, open. The result is
      what gets deployed. */
  function SaveEndpoints(p: Primitives, db: DB, pass: GoString, id: nat, es: seq<Endpoint>, nonces: nat -> Nonce)
    : (DB, Result<seq<Endpoint>>)
  {
    match EncryptPsk(p, db, pass, es, nonces)
    case Err => (db, Err)
    case Panic => (db, Panic)
    case Ok(sealed) =>
      var db1 := db.(endpoints := db.endpoints[id := sealed]);
      (db1, DecryptPsk(p, db1, pass, db1.endpoints[id]))
  }

  /** createVrf seals and stores the request, opens it again and then goes through
      _updateBackends, which seals and stores a second time. */
  function CreateEndpoints(p: Primitives, db: DB, pass: GoString, id: nat, es: seq<Endpoint>,
                           nonces: nat -> Nonce, nonces': nat -> Nonce): (DB, Result<seq<Endpoint>>) {
    var first := SaveEndpoints(p, db, pass, id, es, nonces);
    if first.1.Ok? then SaveEndpoints(p, first.0, pass, id, first.1.value, nonces') else first
  }

  /** Both table operations run even when the first one fails; `deleteOk` and
      `createOk` say whether the database accepted them. */
  function ChangePassword(p: Primitives, db: DB, oldPass: GoString, newPass: GoString, nonce: Nonce,
                          deleteOk: bool, createOk: bool): (DB, Result<()>) {
    match GetMasterpass(p, db, oldPass)
    case Err => (db, Err)
    case Panic => (db, Panic)
    case Ok(masterpass) =>
      var db1 := if deleteOk then db.(masters := []) else db;
      match EnsureMasterPass(p, db1, newPass, masterpass, nonce)
      case Err => (db1, Err)
      case Panic => (db1, Panic)
      case Ok(db2) =>
        var db3 := if db1.masters == [] && !createOk then db1 else db2;
        (db3, if deleteOk && (db1.masters == [] ==> createOk) then Ok(()) else Err)
  }

  const LETTER_COUNT := 62

  /** The i-th character of the alphabet: lower case, upper case, digits. */
  function Letter(i: nat): (c: char)
    requires i < LETTER_COUNT
    ensures c as int < 256
  {
    if i < 26 then 'a' + (i as char)
    else if i < 52 then 'A' + ((i - 26) as char)
    else '0' + ((i - 52) as char)
  }

  /** RandString fills a buffer with letters picked by `intn`, the draws of rand.Intn. */
  method RandString(n: nat, intn: nat -> nat) returns (s: GoString)
    requires forall i :: intn(i) < LETTER_COUNT
    ensures |s| == n
    ensures forall i :: 0 <= i < n ==> s[i] == (LOWER + UPPER + DIGITS)[intn(i)]
  {
    var b := new char[n];
    for i := 0 to n
      invariant forall j :: 0 <= j < i ==> b[j] == Letter(intn(j)) && b[j] as int < 256
    {
      b[i] := Letter(intn(i));
    }
    s := b[..];
    forall i | 0 <= i < n ensures s[i] == (LOWER + UPPER + DIGITS)[intn(i)] { LetterAt(intn(i)); }
  }

  lemma LetterAt(i: nat)
    requires i < LETTER_COUNT
    ensures |LOWER + UPPER + DIGITS| == LETTER_COUNT && Letter(i) == (LOWER + UPPER + DIGITS)[i]
  {
    InOrder(if i < 26 then i else if i < 52 then i - 26 else i - 52);
  }

  /** The endpoint slice after EncryptPSK's loop, which may have stopped on the way. */
  function SliceAfter(p: Primitives, key: Bytes, es: seq<Endpoint>, nonces: nat -> Nonce): (r: seq<Endpoint>)
    ensures |r| == |es|
  {
    match SealAll(p, key, es, nonces)
    case Ok(sealed) => sealed
    case _ => if es == [] then [] else SliceAfter(p, key, es[..|es| - 1], nonces) + [es[|es| - 1]]
  }

  function EncryptedSlice(p: Primitives, db: DB, pass: GoString, es: seq<Endpoint>, nonces: nat -> Nonce): (r: seq<Endpoint>)
    ensures |r| == |es|
  {
    match GetMasterpass(p, db, pass)
    case Ok(masterpass) => SliceAfter(p, ToBytes(masterpass), es, nonces)
    case _ => es
  }

  /** The store as the program holds it: rows replaced in place. */
  class Store {
    const p: Primitives
    var masters: seq<GoString>
    var settings: seq<Setting>
    var endpoints: map<nat, seq<Endpoint>>

    constructor (p: Primitives)
      ensures this.p == p && View() == DB([], [], map[])
    {
      this.p := p;
      masters, settings, endpoints := [], [], map[];
    }

    function View(): DB
      reads this
    {
      DB(masters, settings, endpoints)
    }

    method EnsureMaster(pass: GoString, masterpass: GoString, nonce: Nonce) returns (r: Result<()>)
      modifies this`masters
      ensures match EnsureMasterPass(p, old(View()), pass, masterpass, nonce)
              case Ok(db) => r == Ok(()) && View() == db
              case Err => r == Err && View() == old(View())
              case Panic => r == Panic && View() == old(View())
    {
      if masters == [] {
        var sealed := EncryptText(p, PassKey(p, pass), nonce, masterpass);
        if !sealed.Ok? { return if sealed.Err? then Err else Panic; }
        masters := [sealed.value];
      }
      r := Ok(());
    }

    method Set(pass: GoString, name: string, value: GoString, candidate: GoString, nonce0: Nonce, nonce1: Nonce)
      returns (r: Result<()>)
      modifies this
      ensures endpoints == old(endpoints)
      ensures (View(), r) == SetSetting(p, old(View()), pass, name, value, candidate, nonce0, nonce1)
    {
      r := EnsureMaster(pass, candidate, nonce0);
      if !r.Ok? { return; }
      var masterpass := GetMasterpass(p, View(), pass);
      if !masterpass.Ok? { return if masterpass.Err? then Err else Panic; }
      var sealed := EncryptText(p, ToBytes(masterpass.value), nonce1, value);
      if !sealed.Ok? { return if sealed.Err? then Err else Panic; }
      var i := SettingIndex(settings, name);
      if i == |settings| {
        settings := settings + [Setting(name, sealed.value)];
      } else {
        settings := settings[i := Setting(name, sealed.value)];
      }
    }

    method Change(oldPass: GoString, newPass: GoString, nonce: Nonce, deleteOk: bool, createOk: bool)
      returns (r: Result<()>)
      modifies this`masters
      ensures (View(), r) == ChangePassword(p, old(View()), oldPass, newPass, nonce, deleteOk, createOk)
    {
      var masterpass := GetMasterpass(p, View(), oldPass);
      if !masterpass.Ok? { return if masterpass.Err? then Err else Panic; }
      if deleteOk { masters := []; }
      var created := true;
      if masters == [] {
        var sealed := EncryptText(p, PassKey(p, newPass), nonce, masterpass.value);
        if !sealed.Ok? { return if sealed.Err? then Err else Panic; }
        created := createOk;
        if createOk { masters := [sealed.value]; }
      }
      r := if deleteOk && created then Ok(()) else Err;
    }

    /** The endpoint slice is overwritten element by element. */
    method EncryptInPlace(pass: GoString, v: array<Endpoint>, nonces: nat -> Nonce) returns (r: Result<()>)
      modifies v
      ensures match EncryptPsk(p, View(), pass, old(v[..]), nonces)
              case Ok(sealed) => r.Ok? && v[..] == sealed
              case Err => r == Err
              case Panic => r == Panic
      ensures v[..] == EncryptedSlice(p, View(), pass, old(v[..]), nonces)
    {
      var masterpass := GetMasterpass(p, View(), pass);
      if !masterpass.Ok? { return if masterpass.Err? then Err else Panic; }
      var key := ToBytes(masterpass.value);
      ghost var was := v[..];
      for i := 0 to v.Length
        invariant v[i..] == was[i..]
        invariant SealAll(p, key, was[..i], nonces) == Ok(v[..i])
      {
        SealNext(p, key, was, nonces, i);
        assert v[i] == was[i];
        if v[i].IsPsk() {
          var psk := EncryptText(p, key, nonces(i), v[i].auth.psk);
          if !psk.Ok? {
            SealAllStops(p, key, was, nonces, i + 1);
            SliceStops(p, key, was, nonces, i);
            assert v[..] == v[..i] + v[i..];
            return if psk.Err? then Err else Panic;
          }
          v[i] := WithPsk(v[i], psk.value);
        }
        assert v[..i + 1] == v[..i] + [v[i]];
      }
      assert was[..v.Length] == was && v[..v.Length] == v[..];
      r := Ok(());
    }
  }

  /** One more endpoint. */
  lemma SealNext(p: Primitives, key: Bytes, es: seq<Endpoint>, nonces: nat -> Nonce, i: nat)
    requires i < |es| && SealAll(p, key, es[..i], nonces).Ok?
    ensures var sealed, e := SealAll(p, key, es[..i], nonces).value, es[i];
      SealAll(p, key, es[..i + 1], nonces) ==
      if !e.IsPsk() then Ok(sealed + [e])
      else match EncryptText(p, key, nonces(i), e.auth.psk)
           case Ok(psk) => Ok(sealed + [WithPsk(e, psk)])
           case Err => Err
           case Panic => Panic
  {
    assert es[..i + 1][..i] == es[..i];
  }

  /** Sealed up to endpoint i, which failed, and untouched from there on. */
  lemma {:induction false} SliceStops(p: Primitives, key: Bytes, es: seq<Endpoint>, nonces: nat -> Nonce, i: nat)
    requires i < |es| && SealAll(p, key, es[..i], nonces).Ok? && !SealAll(p, key, es[..i + 1], nonces).Ok?
    ensures SliceAfter(p, key, es, nonces) == SealAll(p, key, es[..i], nonces).value + es[i..]
    decreases |es|
  {
    var front := es[..|es| - 1];
    SealAllStops(p, key, es, nonces, i + 1);
    if i == |es| - 1 {
      assert es[..i] == front && es[..i + 1] == es && es[i..] == [es[i]];
    } else {
      assert front[..i] == es[..i] && front[..i + 1] == es[..i + 1] && es[i..] == front[i..] + [es[|es| - 1]];
      SliceStops(p, key, front, nonces, i);
    }
  }

  lemma {:induction false} SealAllStops(p: Primitives, key: Bytes, es: seq<Endpoint>, nonces: nat -> Nonce, k: nat)
    requires k <= |es| && !SealAll(p, key, es[..k], nonces).Ok?
    ensures SealAll(p, key, es, nonces) == SealAll(p, key, es[..k], nonces)
    decreases |es|
  {
    if k == |es| {
      assert es[..k] == es;
    } else {
      var front := es[..|es| - 1];
      assert front[..k] == es[..k];
      SealAllStops(p, key, front, nonces, k);
    }
  }

  /** Sealing cannot fail half-way: with a key that the cipher does not take, it stops at the
      first pre-shared key, so an unsuccessful call leaves every endpoint as it was. */
  lemma EncryptedSliceIs(p: Primitives, db: DB, pass: GoString, es: seq<Endpoint>, nonces: nat -> Nonce)
    ensures EncryptedSlice(p, db, pass, es, nonces) ==
      match EncryptPsk(p, db, pass, es, nonces)
      case Ok(sealed) => sealed
      case _ => es
  {
    var masterpass := GetMasterpass(p, db, pass);
    if masterpass.Ok? { SliceKept(p, ToBytes(masterpass.value), es, nonces); }
  }

  lemma {:induction false} SliceKept(p: Primitives, key: Bytes, es: seq<Endpoint>, nonces: nat -> Nonce)
    ensures !SealAll(p, key, es, nonces).Ok? ==> SliceAfter(p, key, es, nonces) == es
    ensures !GoodKey(key) && SealAll(p, key, es, nonces).Ok? ==> SealAll(p, key, es, nonces).value == es
  {
    if es != [] {
      var front := es[..|es| - 1];
      SliceKept(p, key, front, nonces);
      assert es == front + [es[|es| - 1]];
    }
  }
}
