/**
 The primitives behind the secure layer (`src/secure/crypto.rs`). The libraries are
 not part of this model: they are arbitrary functions gathered in a `Suite`, and what
 is expected of them is stated where it is needed.
 */
module Crypto {
  import opened Wrappers
  import opened Text
  import opened Secure

  datatype Keys = Keys(i2r: Bytes, r2i: Bytes)

  datatype Suite = Suite(
    sha256: string -> string,
    rfc3339: string -> bool,
    sign: (Bytes, Bytes) -> string,                        // seed, input
    verify: (Bytes, Bytes, string) -> bool,                // public key, input, signature
    encrypt: (Bytes, Bytes, Bytes, Bytes) -> Option<Bytes>,  // key, nonce, associated data, plaintext
    decrypt: (Bytes, Bytes, Bytes, Bytes) -> Option<Bytes>,  // key, nonce, associated data, ciphertext
    ephemeralPublic: Bytes -> Bytes,                         // scalar
    establish: (Bytes, Bytes, Bytes, Bytes, string, string, string) -> Result<(string, Keys), SecureError>)

  /** Decryption undoes encryption under the same key, nonce and associated data. */
  ghost predicate OpensWhatItSeals(suite: Suite) {
    forall key, nonce, aad, plain | suite.encrypt(key, nonce, aad, plain).Some? ::
      suite.decrypt(key, nonce, aad, suite.encrypt(key, nonce, aad, plain).value) == Some(plain)
  }

  /** Both ends of a key agreement derive the same session id and keys. */
  ghost predicate KeysAgree(suite: Suite) {
    forall a, b, ni, nr, context, initiator, responder ::
      suite.establish(a, suite.ephemeralPublic(b), ni, nr, context, initiator, responder)
      == suite.establish(b, suite.ephemeralPublic(a), ni, nr, context, initiator, responder)
  }

  function BigEndian(n: nat, width: nat): (r: Bytes)
    ensures |r| == width
  {
    if width == 0 then [] else BigEndian(n / 0x100, width - 1) + [n % 0x100]
  }

  function BigEndianValue(bytes: Bytes): nat {
    if bytes == [] then 0 else BigEndianValue(bytes[..|bytes| - 1]) * 0x100 + bytes[|bytes| - 1]
  }

  /** Four zero bytes and the sequence number. */
  function Nonce96(n: u64): (r: Bytes)
    ensures |r| == 12
  {
    [0, 0, 0, 0] + BigEndian(n, 8)
  }

  function Power256(width: nat): nat {
    if width == 0 then 1 else 0x100 * Power256(width - 1)
  }

  lemma {:induction false} BigEndianRoundTrip(n: nat, width: nat)
    requires n < Power256(width)
    ensures BigEndianValue(BigEndian(n, width)) == n
  {
    if width > 0 {
      BigEndianRoundTrip(n / 0x100, width - 1);
      assert BigEndian(n, width)[..width - 1] == BigEndian(n / 0x100, width - 1);
    }
  }

  lemma NonceInjective(m: u64, n: u64)
    requires Nonce96(m) == Nonce96(n)
    ensures m == n
  {
    assert Power256(8) == U64_MAX + 1 by {
      assert Power256(2) == 0x1_0000;
      assert Power256(4) == 0x1_0000_0000;
      assert Power256(6) == 0x1_0000_0000_0000;
    }
    BigEndianRoundTrip(m, 8);
    BigEndianRoundTrip(n, 8);
    assert Nonce96(m)[4..] == BigEndian(m, 8) && Nonce96(n)[4..] == BigEndian(n, 8);
  }

  function SealingKey(keys: Keys, initiator: bool): Bytes {
    if initiator then keys.i2r else keys.r2i
  }

  function OpeningKey(keys: Keys, initiator: bool): Bytes {
    if initiator then keys.r2i else keys.i2r
  }

  function Seal(suite: Suite, keys: Keys, initiator: bool, n: u64, aad: Bytes, plain: Bytes): Result<Bytes, SecureError> {
    match suite.encrypt(SealingKey(keys, initiator), Nonce96(n), aad, plain)
    case Some(ct) => Success(ct)
    case None => Failure(GuardianUnavailable)
  }

  function Open(suite: Suite, keys: Keys, initiator: bool, n: u64, aad: Bytes, ct: Bytes): Result<Bytes, SecureError> {
    match suite.decrypt(OpeningKey(keys, initiator), Nonce96(n), aad, ct)
    case Some(plain) => Success(plain)
    case None => Failure(TamperDetected)
  }
}
