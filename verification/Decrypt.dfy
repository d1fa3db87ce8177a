/** Hybrid decryption of a request payload (implementations/decrypt_service_impl.py:66-145). */
module Decrypt {
  import opened Basics
  import Base64

  const GCM_NONCE_SIZE := 12

  /** The library calls: RSA modulus size in bytes, RSA-OAEP unwrapping, AES-GCM opening; None is a raised error. */
  datatype Crypto = Crypto(
    keyBytes: Bytes -> nat,
    unwrap: (Bytes, Bytes) -> Option<Bytes>,
    unseal: (Bytes, Bytes, Bytes) -> Option<Bytes>)

  /** Python slicing `b[i:j]` never fails; out-of-range bounds are clamped. */
  function Slice(b: Bytes, i: nat, j: nat): Bytes
    requires i <= j
  {
    b[Min(i, |b|)..Min(j, |b|)]
  }

  function DecryptCombined(c: Crypto, privateKey: Bytes, combined64: Text): Option<Bytes> {
    if privateKey == [] then None
    else match Base64.Decode(combined64)
    case None => None
    case Some(b) =>
      var n := c.keyBytes(privateKey);
      var encryptedKey := Slice(b, 0, n);
      var nonce := Slice(b, n, n + GCM_NONCE_SIZE);
      var ciphertext := b[Min(n + GCM_NONCE_SIZE, |b|)..];
      match c.unwrap(privateKey, encryptedKey)
      case None => None
      case Some(aesKey) => c.unseal(aesKey, nonce, ciphertext)
  }

  /** What the coordinator packs as wrapped key, nonce and sealed data is taken apart at the same places: decryption
      succeeds exactly when unwrapping and opening do, and gives the opened data. */
  lemma PackedPiecesReturn(c: Crypto, privateKey: Bytes, wrapped: Bytes, nonce: Bytes, sealed: Bytes)
    requires privateKey != [] && |wrapped| == c.keyBytes(privateKey) && |nonce| == 12
    ensures DecryptCombined(c, privateKey, Base64.Encode(wrapped + nonce + sealed)) ==
      match c.unwrap(privateKey, wrapped) case None => None case Some(k) => c.unseal(k, nonce, sealed)
  {
    hide Base64.Encode, Base64.Decode;
    var b := wrapped + nonce + sealed;
    Base64.RoundTrip(b);
    assert b[0..|wrapped|] == wrapped;
    assert b[|wrapped|..|wrapped| + GCM_NONCE_SIZE] == nonce;
    assert b[|wrapped| + GCM_NONCE_SIZE..] == sealed;
  }

  /** What is not base64 does not open, and nothing opens without a key; a payload too short for key and nonce is cut
      where it ends, as slices are. */
  lemma OtherPayloads(c: Crypto, privateKey: Bytes, text: Text, b: Bytes)
    ensures Base64.Decode(text).None? ==> DecryptCombined(c, privateKey, text).None?
    ensures DecryptCombined(c, [], text).None?
    ensures privateKey != [] && |b| <= c.keyBytes(privateKey) ==>
      DecryptCombined(c, privateKey, Base64.Encode(b)) ==
      match c.unwrap(privateKey, b) case None => None case Some(k) => c.unseal(k, [], [])
    ensures privateKey != [] && c.keyBytes(privateKey) < |b| <= c.keyBytes(privateKey) + 12 ==>
      var n := c.keyBytes(privateKey);
      DecryptCombined(c, privateKey, Base64.Encode(b)) ==
      match c.unwrap(privateKey, b[..n]) case None => None case Some(k) => c.unseal(k, b[n..], [])
  {
    hide Base64.Encode, Base64.Decode;
    Base64.RoundTrip(b);
    assert b[..|b|] == b && b[|b|..] == [];
  }
}
