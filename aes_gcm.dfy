/** AES in Galois/Counter Mode, as `crypto/aes` and `crypto/cipher` offer it, seen from
    outside: the key sizes AES accepts (section 5 of FIPS 197), the standard nonce and tag
    sizes of NIST SP 800-38D, and an authenticated cipher described only by the laws it keeps. */
module AesGcm {
  import opened Wrappers
  import opened Octets

  /** `gcm.NonceSize()` for the standard mode. */
  const NonceSize := 12

  /** The authentication tag appended by `gcm.Seal`. */
  const TagSize := 16

  /** `aes.NewCipher` accepts AES-128, AES-192 and AES-256 keys and nothing else. */
  predicate ValidKeySize(n: int) {
    n == 16 || n == 24 || n == 32
  }

  /** An authenticated cipher: `seal(key, nonce, plaintext)` is the ciphertext with its tag,
      `open(key, nonce, sealed)` the plaintext, or None when the tag does not check out.
      Associated data is always empty in the modelled code. */
  datatype Aead = Aead(seal: (Bytes, Bytes, Bytes) -> Bytes, open: (Bytes, Bytes, Bytes) -> Option<Bytes>)

  /** What the model relies on about AES-GCM: for an AES key and a standard nonce, sealing
      adds exactly one tag, and opening with the same key and nonce gives the plaintext back. */
  ghost predicate Laws(g: Aead) {
    && (forall key, nonce, p :: ValidKeySize(|key|) && |nonce| == NonceSize ==>
          |g.seal(key, nonce, p)| == |p| + TagSize)
    && (forall key, nonce, p :: ValidKeySize(|key|) && |nonce| == NonceSize ==>
          g.open(key, nonce, g.seal(key, nonce, p)) == Some(p))
  }

  /** A cipher that keeps the laws: it appends a zero tag and checks it. It has no secrecy at
      all; it exists only to show that the laws can be met, so that what is proved from them
      is not vacuous. */
  const Reference: Aead := Aead(
    (key, nonce, p) => p + Zeros(TagSize),
    (key, nonce, c) =>
      if |c| >= TagSize && c[|c| - TagSize..] == Zeros(TagSize) then Some(c[..|c| - TagSize]) else None)

  lemma ReferenceKeepsLaws()
    ensures Laws(Reference)
  {
    forall key, nonce, p | ValidKeySize(|key|) && |nonce| == NonceSize
      ensures Reference.open(key, nonce, Reference.seal(key, nonce, p)) == Some(p)
    {
      var c := p + Zeros(TagSize);
      assert c[|c| - TagSize..] == Zeros(TagSize);
      assert c[..|c| - TagSize] == p;
    }
  }
}
