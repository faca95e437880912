/** The envelope-encryption helper of kms/kms.go: obtaining a data key from a key-management
    client, and the AES-GCM encryption and decryption of a payload under that key, framed as
    `nonce || sealed` and carried as standard base64 text. */
module Kms {
  import opened Wrappers
  import opened Octets
  import opened AesGcm
  import Base64

  /** The fields of the SDK's GenerateDataKey request that a caller can set here. */
  datatype GenerateDataKeyInput = GenerateDataKeyInput(
    keyId: Option<string>,
    keySpec: string,
    numberOfBytes: Option<int>,
    encryptionContext: map<string, string>,
    grantTokens: seq<string>,
    dryRun: Option<bool>)

  /** A data key in the clear, and the same key wrapped under the client's master key. */
  datatype GenerateDataKeyOutput = GenerateDataKeyOutput(plaintext: Bytes, ciphertextBlob: Bytes)

  /** The `KMSClient` capability: answers one GenerateDataKey request. */
  type KmsClient = GenerateDataKeyInput -> Result<GenerateDataKeyOutput>

  /** The shapes of `EncryptFunc` and `DecryptFunc`. */
  type Encryptor = (Bytes, Bytes) -> Call<string>
  type Decryptor = (string, Bytes) -> Call<Bytes>

  /** The request GenerateDataKey sends: the caller's key id, an AES-256 key spec,
      and every other field left unset. */
  function Request(keyID: string): (r: GenerateDataKeyInput)
    ensures r.keyId == Some(keyID) && r.keySpec == "AES_256"
    ensures r.numberOfBytes == None && r.encryptionContext == map[] && r.grantTokens == [] && r.dryRun == None
  {
    GenerateDataKeyInput(Some(keyID), "AES_256", None, map[], [], None)
  }

  /** Asks the client for a data key. A client error comes back unchanged with nil (here
      empty) key and blob; otherwise the client's plaintext key and wrapped blob come back
      unchanged with a nil error. */
  function GenerateDataKey(client: KmsClient, keyID: string): (r: Call<(Bytes, Bytes)>)
    ensures r.Return?
    ensures r.Failed() <==> client(Request(keyID)).Err?
    ensures r.Failed() ==> r.value == ([], []) && r.err == Some(client(Request(keyID)).error)
    ensures r.Succeeded() ==>
      r.value == (client(Request(keyID)).value.plaintext, client(Request(keyID)).value.ciphertextBlob)
  {
    match client(Request(keyID))
    case Err(e) => Return(([], []), Some(e))
    case Ok(out) => Return((out.plaintext, out.ciphertextBlob), None)
  }

  /** Nothing but the answer to Request(keyID) influences GenerateDataKey. */
  lemma GenerateDataKeyAsksOnlyRequest(c1: KmsClient, c2: KmsClient, keyID: string)
    requires c1(Request(keyID)) == c2(Request(keyID))
    ensures GenerateDataKey(c1, keyID) == GenerateDataKey(c2, keyID)
  {
  }

  /** Encryption under a caller-chosen 12-byte nonce: the nonce-generic form of Encrypt.
      A key AES refuses gives `("", KeySizeError)`; otherwise the text is the base64 of the
      nonce followed by the sealed plaintext. */
  function EncryptWithNonce(g: Aead, plaintext: Bytes, dataKey: Bytes, nonce: Bytes): (r: Call<string>)
    requires |nonce| == NonceSize
    ensures r.Return?
    ensures r.Failed() <==> !ValidKeySize(|dataKey|)
    ensures r.Failed() ==> r.value == "" && r.err == Some(KeySizeError(|dataKey|))
    ensures r.Succeeded() ==> Base64.Decode(r.value) == Some(nonce + g.seal(dataKey, nonce, plaintext))
  {
    if !ValidKeySize(|dataKey|) then
      Return("", Some(KeySizeError(|dataKey|)))
    else
      var frame := nonce + g.seal(dataKey, nonce, plaintext);
      Base64.DecodeEncode(frame);
      Return(Base64.Encode(frame), None)
  }

  /** `Encrypt`: the nonce buffer is allocated and never filled, so every encryption uses the
      all-zero nonce. */
  function Encrypt(g: Aead, plaintext: Bytes, dataKey: Bytes): (r: Call<string>)
    ensures r.Return?
    ensures r.Failed() <==> !ValidKeySize(|dataKey|)
    ensures r.Failed() ==> r.value == "" && r.err == Some(KeySizeError(|dataKey|))
    ensures r.Succeeded() ==>
      Base64.Decode(r.value) == Some(Zeros(NonceSize) + g.seal(dataKey, Zeros(NonceSize), plaintext))
  {
    EncryptWithNonce(g, plaintext, dataKey, Zeros(NonceSize))
  }

  /** The decoded frame of a successful encryption is 12 nonce bytes, the ciphertext and
      a 16-byte tag. */
  lemma EncryptFraming(g: Aead, plaintext: Bytes, dataKey: Bytes)
    requires Laws(g) && ValidKeySize(|dataKey|)
    ensures Encrypt(g, plaintext, dataKey).Succeeded()
    ensures var d := Base64.Decode(Encrypt(g, plaintext, dataKey).value);
      && d.Some?
      && |d.value| == NonceSize + |plaintext| + TagSize
      && d.value[..NonceSize] == Zeros(NonceSize)
      && d.value[NonceSize..] == g.seal(dataKey, Zeros(NonceSize), plaintext)
  {
    var frame := Zeros(NonceSize) + g.seal(dataKey, Zeros(NonceSize), plaintext);
    assert frame[..NonceSize] == Zeros(NonceSize) && frame[NonceSize..] == g.seal(dataKey, Zeros(NonceSize), plaintext);
  }

  /** The nonce-reuse defect: whatever the plaintexts, every encryption under a key carries
      the same all-zero nonce. (That the same plaintext always gives the same text holds by
      construction: Encrypt takes no nonce and no randomness.) */
  lemma EncryptReusesNonce(g: Aead, dataKey: Bytes, p1: Bytes, p2: Bytes)
    requires ValidKeySize(|dataKey|)
    ensures var d1, d2 := Base64.Decode(Encrypt(g, p1, dataKey).value), Base64.Decode(Encrypt(g, p2, dataKey).value);
      && d1.Some? && d2.Some? && |d1.value| >= NonceSize && |d2.value| >= NonceSize
      && d1.value[..NonceSize] == d2.value[..NonceSize] == Zeros(NonceSize)
  {
    var f1 := Zeros(NonceSize) + g.seal(dataKey, Zeros(NonceSize), p1);
    var f2 := Zeros(NonceSize) + g.seal(dataKey, Zeros(NonceSize), p2);
    assert f1[..NonceSize] == Zeros(NonceSize) && f2[..NonceSize] == Zeros(NonceSize);
  }

  /** With a nonce drawn per call, the nonce is recoverable from the text, so texts made with
      different nonces differ, even for the same plaintext and key. */
  lemma EncryptWithNonceSeparatesNonces(g: Aead, plaintext: Bytes, dataKey: Bytes, n1: Bytes, n2: Bytes)
    requires ValidKeySize(|dataKey|) && |n1| == NonceSize && |n2| == NonceSize && n1 != n2
    ensures EncryptWithNonce(g, plaintext, dataKey, n1).value != EncryptWithNonce(g, plaintext, dataKey, n2).value
  {
    var f1 := n1 + g.seal(dataKey, n1, plaintext);
    var f2 := n2 + g.seal(dataKey, n2, plaintext);
    assert f1[..NonceSize] == n1 && f2[..NonceSize] == n2;
  }

  /** `Decrypt`. Text that is not standard base64 fails before the key is looked at; then a
      key AES refuses fails; a frame shorter than a nonce makes the slice panic; a frame whose
      tag does not check out fails with the cipher's error. Every failure returns no plaintext. */
  function Decrypt(g: Aead, text: string, dataKey: Bytes): (r: Call<Bytes>)
    ensures Base64.Decode(text).None? ==> r == Return([], Some(CorruptInputError))
    ensures Base64.Decode(text).Some? && !ValidKeySize(|dataKey|) ==> r == Return([], Some(KeySizeError(|dataKey|)))
    ensures r.Panic? <==>
      Base64.Decode(text).Some? && ValidKeySize(|dataKey|) && |Base64.Decode(text).value| < NonceSize
    ensures r.Failed() ==> r.value == []
    ensures r.Succeeded() <==>
      var frame := Base64.Decode(text);
      && frame.Some? && ValidKeySize(|dataKey|) && |frame.value| >= NonceSize
      && g.open(dataKey, frame.value[..NonceSize], frame.value[NonceSize..]).Some?
    ensures r.Succeeded() ==>
      var frame := Base64.Decode(text);
      g.open(dataKey, frame.value[..NonceSize], frame.value[NonceSize..]) == Some(r.value)
    ensures r.Return? && r.err == Some(OpenError) <==>
      var frame := Base64.Decode(text);
      && frame.Some? && ValidKeySize(|dataKey|) && |frame.value| >= NonceSize
      && g.open(dataKey, frame.value[..NonceSize], frame.value[NonceSize..]).None?
  {
    match Base64.Decode(text)
    case None => Return([], Some(CorruptInputError))
    case Some(frame) =>
      if !ValidKeySize(|dataKey|) then Return([], Some(KeySizeError(|dataKey|)))
      else if |frame| < NonceSize then Panic
      else
        match g.open(dataKey, frame[..NonceSize], frame[NonceSize..])
        case None => Return([], Some(OpenError))
        case Some(plaintext) => Return(plaintext, None)
  }

  /** Round trip, for any nonce: decrypting what was encrypted under the same key gives the
      plaintext back with a nil error. */
  lemma DecryptEncryptWithNonce(g: Aead, plaintext: Bytes, dataKey: Bytes, nonce: Bytes)
    requires Laws(g) && ValidKeySize(|dataKey|) && |nonce| == NonceSize
    ensures Decrypt(g, EncryptWithNonce(g, plaintext, dataKey, nonce).value, dataKey) == Return(plaintext, None)
  {
    var frame := nonce + g.seal(dataKey, nonce, plaintext);
    assert frame[..NonceSize] == nonce && frame[NonceSize..] == g.seal(dataKey, nonce, plaintext);
  }

  /** Round trip of the code as written: for every AES key and every plaintext,
      `Decrypt(Encrypt(p, k), k)` returns p with a nil error. */
  lemma DecryptEncrypt(g: Aead, plaintext: Bytes, dataKey: Bytes)
    requires Laws(g) && ValidKeySize(|dataKey|)
    ensures Encrypt(g, plaintext, dataKey).Succeeded()
    ensures Decrypt(g, Encrypt(g, plaintext, dataKey).value, dataKey) == Return(plaintext, None)
  {
    DecryptEncryptWithNonce(g, plaintext, dataKey, Zeros(NonceSize));
  }

  /** Valid base64 that decodes to fewer than 12 bytes panics at the slicing on line 69 of
      kms/kms.go instead of returning an error: "AAAA" decodes to three zero bytes. */
  lemma DecryptShortFramePanics(g: Aead)
    ensures Decrypt(g, "AAAA", Zeros(32)) == Panic
  {
    Base64.DecodeZeroQuantum();
  }

  /** The package variable `EncryptFunc`, as initialised: it is Encrypt. */
  function EncryptFunc(g: Aead): (f: Encryptor)
    ensures forall plaintext, dataKey :: f(plaintext, dataKey) == Encrypt(g, plaintext, dataKey)
  {
    (plaintext, dataKey) => Encrypt(g, plaintext, dataKey)
  }

  /** The package variable `DecryptFunc`, as initialised: it is Decrypt. */
  function DecryptFunc(g: Aead): (f: Decryptor)
    ensures forall text, dataKey :: f(text, dataKey) == Decrypt(g, text, dataKey)
  {
    (text, dataKey) => Decrypt(g, text, dataKey)
  }

  /** The initial package variables undo each other: what EncryptFunc makes under an AES key,
      DecryptFunc turns back into the plaintext with a nil error. */
  lemma DecryptFuncUndoesEncryptFunc(g: Aead, plaintext: Bytes, dataKey: Bytes)
    requires Laws(g) && ValidKeySize(|dataKey|)
    ensures EncryptFunc(g)(plaintext, dataKey).Succeeded()
    ensures DecryptFunc(g)(EncryptFunc(g)(plaintext, dataKey).value, dataKey) == Return(plaintext, None)
  {
    DecryptEncrypt(g, plaintext, dataKey);
  }
}
