/** service/data_handler.go: the secure-data pipeline, key provider then encrypt then decrypt,
    returning the first error unchanged. The package variables `EncryptFunc` and `DecryptFunc`
    it reads are parameters here, so that the tests' replacements can be stated. */
module Service {
  import opened Wrappers
  import opened Octets
  import opened AesGcm
  import opened Kms
  import KmsTest

  /** `HandleSecureData`. Any failing stage ends the pipeline with `("", err)` for that stage's
      error; a panic in a stage propagates; otherwise the result is what decrypt returned. */
  function HandleSecureData(client: KmsClient, keyID: string, data: Bytes, encrypt: Encryptor, decrypt: Decryptor): (r: Call<Bytes>)
    ensures var k := GenerateDataKey(client, keyID);
      k.Failed() ==> r == Return([], k.err)
    ensures var k := GenerateDataKey(client, keyID);
      k.Succeeded() && encrypt(data, k.value.0).Failed() ==> r == Return([], encrypt(data, k.value.0).err)
    ensures var k := GenerateDataKey(client, keyID);
      (k.Succeeded() && encrypt(data, k.value.0).Succeeded() && decrypt(encrypt(data, k.value.0).value, k.value.0).Failed())
      ==> r == Return([], decrypt(encrypt(data, k.value.0).value, k.value.0).err)
    ensures r.Failed() ==> r.value == []
    ensures r.Panic? <==>
      var k := GenerateDataKey(client, keyID);
      k.Succeeded() &&
        (encrypt(data, k.value.0).Panic? ||
         (encrypt(data, k.value.0).Succeeded() && decrypt(encrypt(data, k.value.0).value, k.value.0).Panic?))
    ensures r.Succeeded() <==>
      var k := GenerateDataKey(client, keyID);
      && k.Succeeded()
      && encrypt(data, k.value.0).Succeeded()
      && decrypt(encrypt(data, k.value.0).value, k.value.0).Succeeded()
    ensures r.Succeeded() ==>
      var k := GenerateDataKey(client, keyID);
      r == decrypt(encrypt(data, k.value.0).value, k.value.0)
  {
    var k := GenerateDataKey(client, keyID);
    if k.err.Some? then Return([], k.err)
    else
      var key := k.value.0;
      var encrypted := encrypt(data, key);
      if encrypted.Panic? then Panic
      else if encrypted.err.Some? then Return([], encrypted.err)
      else
        var decrypted := decrypt(encrypted.value, key);
        if decrypted.Panic? then Panic
        else if decrypted.err.Some? then Return([], decrypted.err)
        else Return(decrypted.value, None)
  }

  /** When key generation fails, neither encrypt nor decrypt has any say in the result:
      they are not run. */
  lemma KeyFailureSkipsCipher(client: KmsClient, keyID: string, data: Bytes, e1: Encryptor, d1: Decryptor, e2: Encryptor, d2: Decryptor)
    requires client(Request(keyID)).Err?
    ensures HandleSecureData(client, keyID, data, e1, d1) == HandleSecureData(client, keyID, data, e2, d2)
      == Return([], Some(client(Request(keyID)).error))
  {
  }

  /** When encryption fails, its exact error is returned and decrypt is not run. */
  lemma EncryptFailureSkipsDecrypt(client: KmsClient, keyID: string, data: Bytes, encrypt: Encryptor, d1: Decryptor, d2: Decryptor)
    requires client(Request(keyID)).Ok?
    requires encrypt(data, client(Request(keyID)).value.plaintext).Failed()
    ensures HandleSecureData(client, keyID, data, encrypt, d1) == HandleSecureData(client, keyID, data, encrypt, d2)
      == Return([], encrypt(data, client(Request(keyID)).value.plaintext).err)
  {
  }

  /** Encrypt sees only the caller's data and the provider's plaintext key, and decrypt sees
      only encrypt's text and that same key: pipelines whose stages agree on those inputs agree. */
  lemma StagesSeeOnlyTheirInputs(client: KmsClient, keyID: string, data: Bytes, e1: Encryptor, d1: Decryptor, e2: Encryptor, d2: Decryptor)
    requires client(Request(keyID)).Ok?
    requires var key := client(Request(keyID)).value.plaintext;
      && e1(data, key) == e2(data, key)
      && (e1(data, key).Return? ==> d1(e1(data, key).value, key) == d2(e1(data, key).value, key))
    ensures HandleSecureData(client, keyID, data, e1, d1) == HandleSecureData(client, keyID, data, e2, d2)
  {
  }

  /** The wrapped key is discarded: clients that hand out the same plaintext key, whatever
      their blobs, give the same result. */
  lemma WrappedKeyIgnored(c1: KmsClient, c2: KmsClient, keyID: string, data: Bytes, encrypt: Encryptor, decrypt: Decryptor)
    requires c1(Request(keyID)).Ok? && c2(Request(keyID)).Ok?
    requires c1(Request(keyID)).value.plaintext == c2(Request(keyID)).value.plaintext
    ensures HandleSecureData(c1, keyID, data, encrypt, decrypt) == HandleSecureData(c2, keyID, data, encrypt, decrypt)
  {
  }

  /** With the package's own Encrypt and Decrypt, any client that hands out a valid AES key
      makes the pipeline return the caller's data unchanged. */
  lemma {:induction false} HandleSecureDataRoundTrip(g: Aead, client: KmsClient, keyID: string, data: Bytes)
    requires Laws(g)
    requires client(Request(keyID)).Ok? && ValidKeySize(|client(Request(keyID)).value.plaintext|)
    ensures HandleSecureData(client, keyID, data, EncryptFunc(g), DecryptFunc(g)) == Return(data, None)
  {
    DecryptEncrypt(g, data, client(Request(keyID)).value.plaintext);
  }

  /** TestHandleSecureData: the mock, "mock-key-id" and "Sensitive Info" give "Sensitive Info"
      with a nil error. */
  lemma TestHandleSecureData(g: Aead)
    requires Laws(g)
    ensures HandleSecureData(KmsTest.MockGenerateDataKey, "mock-key-id", AsciiBytes("Sensitive Info"), EncryptFunc(g), DecryptFunc(g))
      == Return(AsciiBytes("Sensitive Info"), None)
  {
    HandleSecureDataRoundTrip(g, KmsTest.MockGenerateDataKey, "mock-key-id", AsciiBytes("Sensitive Info"));
  }

  /** TestHandleSecureData_MissingKeyID: an empty key id fails with the mock's error, and no
      encryption or decryption takes part. */
  lemma TestHandleSecureDataMissingKeyID(data: Bytes, encrypt: Encryptor, decrypt: Decryptor)
    ensures HandleSecureData(KmsTest.MockGenerateDataKey, "", data, encrypt, decrypt) == Return([], Some(KmsTest.MockError))
  {
  }

  /** TestHandleSecureData_EncryptError: an EncryptFunc that fails with "encryption failed"
      makes the pipeline fail with exactly that error, whatever DecryptFunc is. */
  lemma TestHandleSecureDataEncryptError(decrypt: Decryptor)
    ensures var failing: Encryptor := (d, k) => Return("", Some(Failure("encryption failed")));
      HandleSecureData(KmsTest.MockGenerateDataKey, "mock-key-id", AsciiBytes("Sensitive Info"), failing, decrypt)
        == Return([], Some(Failure("encryption failed")))
  {
  }

  /** TestHandleSecureData_DecryptError: with the real Encrypt, a DecryptFunc that fails with
      "decryption failed" makes the pipeline fail with exactly that error. */
  lemma TestHandleSecureDataDecryptError(g: Aead)
    ensures var failing: Decryptor := (t, k) => Return([], Some(Failure("decryption failed")));
      HandleSecureData(KmsTest.MockGenerateDataKey, "mock-key-id", AsciiBytes("Sensitive Info"), EncryptFunc(g), failing)
        == Return([], Some(Failure("decryption failed")))
  {
  }
}
