/** The sealing primitives of db/crypto.go over ideal building blocks: an AEAD with the
    interface of section 2 of RFC 5116 and a hash with 32-byte digests. */
module Crypto {
  import opened Text
  import opened Base64

  const NONCE_SIZE := 12

  type Nonce = b: Bytes | |b| == NONCE_SIZE witness seq(NONCE_SIZE, _ => 0)

  datatype Primitives = Primitives(
    seal: (Bytes, Nonce, Bytes) -> Bytes,
    unseal: (Bytes, Nonce, Bytes) -> Option<Bytes>,
    sha: Bytes -> Bytes)

  /** Opening inverts sealing under the same key and fails under any other. */
  ghost predicate Ideal(p: Primitives) {
    && (forall k, n, d :: p.unseal(k, n, p.seal(k, n, d)) == Some(d))
    && (forall k, k', n, d :: |k| == |k'| == 32 && k != k' ==> p.unseal(k', n, p.seal(k, n, d)) == None)
    && (forall x :: |p.sha(x)| == 32)
  }

  /** Ideal primitives exist, so what is proved from Ideal is not proved from nothing. */
  lemma IdealIsPossible() returns (p: Primitives)
    ensures Ideal(p)
  {
    var seal := (k: Bytes, n: Nonce, d: Bytes) => k + d;
    var unseal := (k: Bytes, n: Nonce, c: Bytes) =>
      if |k| <= |c| && c[..|k|] == k then Some(c[|k|..]) else None;
    p := Primitives(seal, unseal, x => seq(32, _ => 0));
    forall k: Bytes, n: Nonce, d: Bytes ensures p.unseal(k, n, p.seal(k, n, d)) == Some(d) {
      assert (k + d)[..|k|] == k && (k + d)[|k|..] == d;
    }
    forall k: Bytes, k': Bytes, n: Nonce, d: Bytes | |k| == |k'| == 32 && k != k'
      ensures p.unseal(k', n, p.seal(k, n, d)) == None
    {
      assert (k + d)[..|k'|] == k;
    }
  }

  /** A Go call either returns a value, returns an error, or panics. */
  datatype Result<+T> = Ok(value: T) | Err | Panic {
    predicate IsFailure() { !Ok? }

    function PropagateFailure<U>(): Result<U>
      requires IsFailure()
    {
      if Err? then Err else Panic
    }

    function Extract(): T
      requires !IsFailure()
    {
      value
    }
  }

  /** aes.NewCipher takes keys of 16, 24 or 32 bytes. */
  predicate GoodKey(key: Bytes) { |key| == 16 || |key| == 24 || |key| == 32 }

  function Encrypt(p: Primitives, key: Bytes, nonce: Nonce, data: Bytes): Result<Bytes> {
    if GoodKey(key) then Ok(nonce + p.seal(key, nonce, data)) else Err
  }

  /** Slicing off the nonce panics on data shorter than a nonce. */
  function Decrypt(p: Primitives, key: Bytes, data: Bytes): Result<Bytes> {
    if !GoodKey(key) then Err
    else if |data| < NONCE_SIZE then Panic
    else
      match p.unseal(key, data[..NONCE_SIZE], data[NONCE_SIZE..])
      case Some(d) => Ok(d)
      case None => Err
  }

  /** Encrypt and write out in raw base 64, the form every secret is stored in. */
  function EncryptText(p: Primitives, key: Bytes, nonce: Nonce, text: GoString): Result<GoString> {
    var b :- Encrypt(p, key, nonce, ToBytes(text));
    Ok(RawEncode(b))
  }

  function DecryptText(p: Primitives, key: Bytes, stored: GoString): Result<GoString> {
    match RawDecode(stored)
    case None => Err
    case Some(b) =>
      var d :- Decrypt(p, key, b);
      Ok(FromBytes(d))
  }

  /** `stored` is exactly one layer of sealing around `text`. */
  ghost predicate Sealed(p: Primitives, key: Bytes, stored: GoString, text: GoString) {
    exists nonce: Nonce :: EncryptText(p, key, nonce, text) == Ok(stored)
  }

  lemma EncryptSeals(p: Primitives, key: Bytes, nonce: Nonce, text: GoString)
    requires |key| == 32
    ensures EncryptText(p, key, nonce, text).Ok?
    ensures Sealed(p, key, EncryptText(p, key, nonce, text).value, text)
  {
  }

  /** A sealed text opens to itself under its key, is refused under every other key,
      and never makes the decoder slice out of range. */
  lemma OpenSealed(p: Primitives, key: Bytes, stored: GoString, text: GoString, key': Bytes)
    requires Ideal(p) && |key| == |key'| == 32 && Sealed(p, key, stored, text)
    ensures DecryptText(p, key', stored) == if key' == key then Ok(text) else Err
  {
    var nonce: Nonce :| EncryptText(p, key, nonce, text) == Ok(stored);
    var c := p.seal(key, nonce, ToBytes(text));
    RawRoundTrip(nonce + c);
    assert (nonce + c)[..NONCE_SIZE] == nonce && (nonce + c)[NONCE_SIZE..] == c;
    FromToBytes(text);
  }
}
