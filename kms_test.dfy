/** kms/kms_test.go: the mock key-management client every test uses, and the package's
    tests stated as lemmas over all ciphers that keep the AES-GCM laws. */
module KmsTest {
  import opened Wrappers
  import opened Octets
  import opened AesGcm
  import opened Kms
  import Base64

  const MockError := Failure("KeyId is required")

  /** `MockKMSClient.GenerateDataKey`: refuses a nil or empty key id, and otherwise answers
      with a 32-byte all-zero key wrapped as the bytes of "mockCiphertext", whatever the key
      id and whatever else the request asks for. */
  function MockGenerateDataKey(input: GenerateDataKeyInput): (r: Result<GenerateDataKeyOutput>)
    ensures r.Err? <==> input.keyId == None || input.keyId == Some("")
    ensures r.Err? ==> r.error == MockError
    ensures r.Ok? ==> |r.value.plaintext| == 32 && forall i :: 0 <= i < 32 ==> r.value.plaintext[i] == 0
    ensures r.Ok? ==> r.value.ciphertextBlob == AsciiBytes("mockCiphertext")
  {
    if input.keyId.None? || input.keyId.value == "" then Err(MockError)
    else Ok(GenerateDataKeyOutput(Zeros(32), AsciiBytes("mockCiphertext")))
  }

  /** The mock's answer does not depend on which non-empty key id is asked for. */
  lemma MockIgnoresKeyId(i1: GenerateDataKeyInput, i2: GenerateDataKeyInput)
    requires i1.keyId.Some? && i1.keyId.value != "" && i2.keyId.Some? && i2.keyId.value != ""
    ensures MockGenerateDataKey(i1) == MockGenerateDataKey(i2)
  {
  }

  /** Through GenerateDataKey, the mock yields a valid AES-256 key and its blob for every
      non-empty key id, and its error for the empty one. */
  lemma GenerateDataKeyWithMock(keyID: string)
    ensures keyID == "" ==> GenerateDataKey(MockGenerateDataKey, keyID) == Return(([], []), Some(MockError))
    ensures keyID != "" ==>
      GenerateDataKey(MockGenerateDataKey, keyID) == Return((Zeros(32), AsciiBytes("mockCiphertext")), None)
  {
  }

  /** TestGenerateDataKey: "mock-key-id" with KeySpec AES_256 gives a 32-byte key and the
      blob "mockCiphertext". */
  lemma TestGenerateDataKey()
    ensures var r := MockGenerateDataKey(GenerateDataKeyInput(Some("mock-key-id"), "AES_256", None, map[], [], None));
      r.Ok? && |r.value.plaintext| == 32 && r.value.ciphertextBlob == AsciiBytes("mockCiphertext")
  {
  }

  /** TestEncryptDecrypt: "Test Encryption" survives the round trip under a zero AES-256 key. */
  lemma TestEncryptDecrypt(g: Aead)
    requires Laws(g)
    ensures var c := Encrypt(g, AsciiBytes("Test Encryption"), Zeros(32));
      c.Succeeded() && Decrypt(g, c.value, Zeros(32)) == Return(AsciiBytes("Test Encryption"), None)
  {
    DecryptEncrypt(g, AsciiBytes("Test Encryption"), Zeros(32));
  }

  /** TestEncryptError: a 15-byte key is refused with no text. */
  lemma TestEncryptError(g: Aead)
    ensures Encrypt(g, AsciiBytes("Test"), Zeros(15)) == Return("", Some(KeySizeError(15)))
  {
  }

  /** TestDecryptError: "invalidciphertext" (17 characters) is not base64, so it fails with
      no plaintext. */
  lemma TestDecryptError(g: Aead)
    ensures Decrypt(g, "invalidciphertext", Zeros(32)) == Return([], Some(CorruptInputError))
  {
    var text := "invalidciphertext";
    assert |text| == 17;
    Base64.DecodeRejectsLength(text);
  }
}
