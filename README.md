# Envelope-encryption helper, modelled in Dafny

This project models the core of a small Go envelope-encryption helper. A key-management
(KMS) client hands out a data key. The key encrypts a payload with AES-GCM, and the result is
carried as base64 text. The secure-data handler runs key generation, then encryption, then
decryption, and returns the first error unchanged.

Modules, one per component:

- `Wrappers` (wrappers.dfy): `Option`, the Go `error` values the code produces (`Error`),
  a Go `(T, error)` result that may also be a panic (`Call`), and a collaborator's
  `Result`.
- `Octets` (octets.dfy): bytes, `make([]byte, n)` as `Zeros`, and `[]byte("...")` of ASCII
  literals as `AsciiBytes`.
- `Base64` (base64.dfy): `base64.StdEncoding` (section 4 of RFC 4648, padded), written out,
  with its round trip proved.
- `AesGcm` (aes_gcm.dfy): the AES key sizes of section 5 of FIPS 197, and the nonce size (12)
  and tag size (16) of NIST SP 800-38D. AES-GCM itself is a parameter `g: Aead`, a pair of
  functions `seal` and `open`. The ghost predicate `Laws(g)` states the two facts the model
  relies on: `|seal(k, n, p)| == |p| + 16`, and `open(k, n, seal(k, n, p)) == Some(p)`, for
  AES keys and 12-byte nonces. Every property that needs the cipher is proved for all `g`
  satisfying `Laws`. `Reference`, with `ReferenceKeepsLaws`, is a trivial cipher that meets
  the laws. It shows the laws are consistent; it is not a model of AES.
- `Kms` (kms.dfy): kms/kms.go. `GenerateDataKey` over an abstract client, `Encrypt`,
  `Decrypt`, and the package variables `EncryptFunc`/`DecryptFunc` as initialised.
- `KmsTest` (kms_test.dfy): kms/kms_test.go. The mock client `MockGenerateDataKey`, and the
  package's tests as lemmas.
- `Service` (service.dfy): service/data_handler.go. `HandleSecureData` takes the encrypt and
  decrypt functions as parameters, which is how the tests swap them. Its tests from
  service/data_handler_test.go are lemmas.

How Go is represented:

- A nil `[]byte` is the empty sequence.
- Go strings holding payloads are byte sequences.
- The base64 text and key ids are Dafny strings.
- A Go `(value, err)` result is `Return(value, err)`, with `None` standing for a nil error.

"The later stages never run" cannot be observed in a pure model. It is stated instead as the
stages having no influence on the result: any other encrypt or decrypt function gives the
same answer.

The model follows the code as written:

- Any key `aes.NewCipher` takes is accepted: 16, 24 or 32 bytes.
- The nonce is always all zero (see Findings).
- A frame shorter than 12 bytes makes `Decrypt` panic at the slicing on kms/kms.go:69.
- The errors are the library's own values: `KeySizeError`, `CorruptInputError` and the
  cipher's open error.

## Model

| member | source | states |
|---|---|---|
| `Base64.EncodedLengthIs` | kms/kms.go:49 | `EncodedLength(n)`, the length of a padded encoding, is `4 * ceil(n / 3)`. |
| `Base64.Encode` | kms/kms.go:49 | The text is `EncodedLength(len(input))` characters long and well padded: every character is in the standard alphabet except a final `=` or `==`. |
| `Base64.Decode` | kms/kms.go:53-56 | A text is accepted exactly when its length is a multiple of 4 and it is well padded: every character is in the alphabet except a final `=` or `==`. An accepted text has exactly the length of the encoding of what it decodes to. |
| `Base64.DecodeIgnoresUnusedBits` | kms/kms.go:53-56 | The unused bits before padding are not checked: `"Zh=="`, which no input encodes to, decodes to `"f"`. |
| `Base64.DecodeEncode` | kms/kms.go:49 | Round trip: decoding the encoding of any byte sequence gives it back. |
| `Base64.VectorF` | kms/kms.go:49 | "f" encodes as "Zg==" (section 10 of RFC 4648). |
| `Base64.VectorFo` | kms/kms.go:49 | "fo" encodes as "Zm8=" (section 10 of RFC 4648). |
| `Base64.VectorFoo` | kms/kms.go:49 | "foo" encodes as "Zm9v" (section 10 of RFC 4648). |
| `Base64.VectorFoobar` | kms/kms.go:49 | "foobar" encodes as "Zm9vYmFy" (section 10 of RFC 4648). |
| `Base64.DecodeRejectsLength` | kms/kms.go:53-56 | Text whose length is not a multiple of 4 is rejected. |
| `Base64.DecodeRejectsForeign` | kms/kms.go:53-56 | A character outside the alphabet that is not padding, at any position, makes the text invalid. |
| `Kms.Request` | kms/kms.go:22-25 | The request carries the caller's key id and key spec "AES_256". Every other field is unset. |
| `Kms.GenerateDataKey` | kms/kms.go:21-33 | Never panics for a client that answers with an output or an error (see Left out for a nil answer). A client error comes back unchanged, with empty key and blob. Otherwise the client's plaintext key and wrapped blob come back unchanged, with a nil error. |
| `Kms.GenerateDataKeyAsksOnlyRequest` | kms/kms.go:22-27 | Only the client's answer to `Request(keyID)` influences the result. |
| `Kms.EncryptWithNonce` | kms/kms.go:35-50 | Fails exactly when AES refuses the key size, with `""` and `KeySizeError(len)`. On success the text decodes to the nonce followed by `seal(key, nonce, plaintext)`. |
| `Kms.Encrypt` | kms/kms.go:35-50 | Same contract with the all-zero 12-byte nonce. A 15-byte key, for example, is refused. |
| `Kms.EncryptFraming` | kms/kms.go:46-49 | For an AES key, encryption succeeds. The decoded frame is 12 zero bytes followed by the sealed payload, `12 + len(plaintext) + 16` bytes in all. |
| `Kms.EncryptReusesNonce` | kms/kms.go:46-47 | Every encryption under a key carries the same all-zero nonce at the head of its frame. |
| `Kms.EncryptWithNonceSeparatesNonces` | kms/kms.go:46-47 | With a nonce chosen per call, different nonces give different texts for the same plaintext and key. |
| `Kms.Decrypt` | kms/kms.go:52-75 | Bad base64 gives `CorruptInputError` for any key, so the key is never examined. Then a refused key gives `KeySizeError`. A frame under 12 bytes panics. A failed tag check gives the open error. Every failure returns no plaintext. Success holds exactly when the text is valid base64, the key is an AES key, the frame has at least 12 bytes and `open` accepts the frame's nonce and remainder; the result is then `open`'s plaintext with a nil error. |
| `Kms.EncryptFunc` | kms/kms.go:13 | The package variable, as initialised, is `Encrypt` on every input. |
| `Kms.DecryptFunc` | kms/kms.go:14 | The package variable, as initialised, is `Decrypt` on every input. |
| `Kms.DecryptFuncUndoesEncryptFunc` | kms/kms.go:13-14 | Through the package variables as initialised, decrypting the text encryption produced under an AES key gives the plaintext with a nil error. |
| `Kms.DecryptEncryptWithNonce` | kms/kms.go:35-75 | Round trip for any 12-byte nonce: decrypting under the same key gives the plaintext with a nil error. |
| `Kms.DecryptEncrypt` | kms/kms.go:35-75 | Round trip of the code as written: `Decrypt(Encrypt(p, k), k)` returns `p` with a nil error, for every AES key and every `p`. |
| `Kms.DecryptShortFramePanics` | kms/kms.go:68-69 | `"AAAA"` is valid base64 for 3 bytes, and decrypting it panics at the slicing on kms/kms.go:69. |
| `KmsTest.MockGenerateDataKey` | kms/kms_test.go:14-23 | Fails with "KeyId is required" exactly when the key id is nil or empty. Otherwise it returns a 32-byte all-zero key and the bytes of "mockCiphertext". |
| `KmsTest.MockIgnoresKeyId` | kms/kms_test.go:19-22 | The answer is the same for every non-empty key id. |
| `KmsTest.GenerateDataKeyWithMock` | kms/kms_test.go:14-23 | Through `GenerateDataKey`, an empty id gives the mock's error with empty key and blob. Any other id gives the zero AES-256 key and "mockCiphertext". |
| `KmsTest.TestGenerateDataKey` | kms/kms_test.go:26-48 | For "mock-key-id", the key has 32 bytes and the blob is "mockCiphertext". |
| `KmsTest.TestEncryptDecrypt` | kms/kms_test.go:51-68 | "Test Encryption" survives the round trip under a zero 32-byte key. |
| `KmsTest.TestEncryptError` | kms/kms_test.go:71-77 | A 15-byte key gives `""` and `KeySizeError(15)`. |
| `KmsTest.TestDecryptError` | kms/kms_test.go:80-86 | "invalidciphertext" is rejected as bad base64, with no plaintext. |
| `Service.HandleSecureData` | service/data_handler.go:3-20 | Each failing stage ends the pipeline with `("", err)` carrying that stage's exact error. A stage's panic propagates. Success means all three stages succeeded, and the result is decrypt's output. Decrypt is given encrypt's output and the provider's plaintext key. |
| `Service.KeyFailureSkipsCipher` | service/data_handler.go:4-7 | When key generation fails, the result is `("", that error)` whatever the encrypt and decrypt functions are. |
| `Service.EncryptFailureSkipsDecrypt` | service/data_handler.go:9-12 | When encrypt fails, its exact error is returned, whatever the decrypt function is. |
| `Service.StagesSeeOnlyTheirInputs` | service/data_handler.go:9-14 | Encrypt sees only the data and the plaintext key. Decrypt sees only encrypt's text and the same key. |
| `Service.WrappedKeyIgnored` | service/data_handler.go:4 | The wrapped blob is discarded: clients that give the same plaintext key give the same result. |
| `Service.HandleSecureDataRoundTrip` | service/data_handler.go:3-20 | With the package's own Encrypt and Decrypt, any client handing out an AES key makes the handler return the caller's data with a nil error. |
| `Service.TestHandleSecureData` | service/data_handler_test.go:28-41 | The mock, "mock-key-id" and "Sensitive Info" give "Sensitive Info" with a nil error. |
| `Service.TestHandleSecureDataMissingKeyID` | service/data_handler_test.go:44-53 | An empty key id gives the mock's error, whatever the encrypt and decrypt functions are. |
| `Service.TestHandleSecureDataEncryptError` | service/data_handler_test.go:56-73 | A replacement EncryptFunc that fails with "encryption failed" makes the result exactly that error. |
| `Service.TestHandleSecureDataDecryptError` | service/data_handler_test.go:76-93 | A replacement DecryptFunc that fails with "decryption failed" makes the result exactly that error. |

## Left out

- AES and GHASH internals (crypto/aes, crypto/cipher): the cipher is the parameter `g`, constrained only by `Laws`.
- Authentication failure under a wrong key or a tampered ciphertext: it holds only with overwhelming probability, not for every input, so it is not stated.
- The `cipher.NewGCM` error branches (kms/kms.go:41-44 and 63-66): they cannot fire for an AES block, so they are not modelled.
- GCM's panic on plaintexts over about 64 GiB: not modelled, because the laws are stated for every length.
- Go's base64 decoder skips carriage returns and line feeds, and reports the offset of the first bad byte: the model decodes strictly and reports only `CorruptInputError`. Like Go's default decoder, it does not check the unused bits before padding (`Base64.DecodeIgnoresUnusedBits`).
- `context.TODO()`, the `opts` variadic, and the SDK's network call: the client is a function from a request to `Result<GenerateDataKeyOutput>`.
- SDK request and response fields that this code never touches: the SDK input's `Recipient` field, the only SDK input field the Dafny `GenerateDataKeyInput` omits, and the response's `KeyId` and `CiphertextForRecipient` fields.
- Kms.GenerateDataKey: a client answering a nil output with a nil error cannot be expressed by `KmsClient`, whose answer is either an output or an error; on such an answer kms/kms.go:32 dereferences the nil `result` and panics.
- main.go (AWS configuration, client construction, logging, printing): I/O and wiring.
- The duplicate mock client in service/data_handler_test.go: it is identical to the one in kms/kms_test.go, which is modelled once.
- Reassigning the package variables `EncryptFunc`/`DecryptFunc`, and restoring them with `defer`: they are parameters of `HandleSecureData`, and `Kms.EncryptFunc`/`Kms.DecryptFunc` give their initial values.
- Random nonce generation: the code has none. `EncryptWithNonce` takes the nonce as a parameter instead.

## Findings

| source | as written | input that shows it | evidently intended | confidence | as-written member | corrected member |
|---|---|---|---|---|---|---|
| kms/kms.go:46-47 | The nonce buffer is allocated and never filled, so every encryption under a key uses the all-zero nonce | Any two `Encrypt` calls under the mock's zero key, for example of "a" and "b": both decoded frames start with the same 12 zero bytes | A fresh nonce per encryption, carried in the frame | not executed | `Kms.EncryptReusesNonce` | `Kms.EncryptWithNonceSeparatesNonces` |

`Kms.Encrypt` is `Kms.EncryptWithNonce` applied to the zero nonce. The corrected form carries the
round-trip proof (`Kms.DecryptEncryptWithNonce`), and `Decrypt` reads the nonce from the frame,
so it accepts texts made with any nonce. The handler keeps the as-written `Encrypt` as its
default `EncryptFunc`, because that is what the program runs.
