/** The note vault's envelope: wrapping the master key under recovery secrets and encrypting the
    vault document, over an arbitrary authenticated cipher and key derivation. */
module VaultKeys {
  import opened JsMap
  import opened Base64
  import Json

  type Bytes = seq<Byte>

  /** What the browser provides. `seal` and `unseal` take key, initial vector, text and optional
      additional data; `unseal` is None where decryption is refused. */
  datatype Crypto = Crypto(
    seal: (Bytes, Bytes, Bytes, Option<Bytes>) -> Bytes,
    unseal: (Bytes, Bytes, Bytes, Option<Bytes>) -> Option<Bytes>,
    hkdf: (Bytes, Bytes, string) -> Bytes,
    pbkdf2: (string, Bytes, nat) -> Bytes,
    utf8Encode: string -> Bytes,
    utf8Decode: Bytes -> string)

  /** A correct cipher gives back what it sealed under the same key, vector and additional data. */
  ghost predicate CorrectCipher(c: Crypto) {
    forall key, iv, text, aad :: c.unseal(key, iv, c.seal(key, iv, text, aad), aad) == Some(text)
  }

  ghost predicate CorrectText(c: Crypto) {
    forall s :: c.utf8Decode(c.utf8Encode(s)) == s
  }

  // ---------- wrapping a key ----------

  const IV_LENGTH := 12

  /** The vector, then the sealed key, as one base64 text. */
  function WrapWithKey(c: Crypto, wrappingKey: Bytes, masterKey: Bytes, iv: Bytes): string {
    Encode(iv + c.seal(wrappingKey, iv, masterKey, None))
  }

  function UnwrapWithKey(c: Crypto, wrappingKey: Bytes, wrapped: string): Option<Bytes> {
    var blob := Decode(wrapped);
    if blob.None? then None
    else
      var n := if |blob.value| < IV_LENGTH then |blob.value| else IV_LENGTH;
      c.unseal(wrappingKey, blob.value[..n], blob.value[n..], None)
  }

  method WrapBlob(c: Crypto, wrappingKey: Bytes, masterKey: Bytes, iv: Bytes) returns (text: string)
    ensures text == WrapWithKey(c, wrappingKey, masterKey, iv)
  {
    var ct := c.seal(wrappingKey, iv, masterKey, None);
    var blob := new Byte[|iv| + |ct|](_ => 0);
    for i := 0 to |iv|
      invariant forall j | 0 <= j < i :: blob[j] == iv[j]
    {
      blob[i] := iv[i];
    }
    for i := 0 to |ct|
      invariant forall j | 0 <= j < |iv| :: blob[j] == iv[j]
      invariant forall j | 0 <= j < i :: blob[|iv| + j] == ct[j]
    {
      blob[|iv| + i] := ct[i];
    }
    assert blob[..] == iv + ct;
    text := ToB64(blob[..]);
  }

  lemma {:induction false} UnwrapWrap(c: Crypto, wrappingKey: Bytes, masterKey: Bytes, iv: Bytes)
    requires CorrectCipher(c) && |iv| == 12
    ensures UnwrapWithKey(c, wrappingKey, WrapWithKey(c, wrappingKey, masterKey, iv)) == Some(masterKey)
  {
    var blob := iv + c.seal(wrappingKey, iv, masterKey, None);
    DecodeEncode(blob);
    assert blob[..IV_LENGTH] == iv && blob[IV_LENGTH..] == c.seal(wrappingKey, iv, masterKey, None);
  }

  // ---------- recovery methods ----------

  datatype Secret =
    | PasskeyPrf(output: Bytes)
    | StellarSignature(signature: Bytes)
    | KitPassword(password: string)
    | FileSecret(secret: Bytes)

  const PBKDF2_ITERATIONS := 310_000

  function WrappingKey(c: Crypto, s: Secret, salt: Bytes): Bytes {
    match s
    case PasskeyPrf(output) => c.hkdf(output, salt, "shade-vault-passkey-prf")
    case StellarSignature(signature) => c.hkdf(signature, salt, "shade-vault-stellar-ed25519")
    case KitPassword(password) => c.pbkdf2(password, salt, PBKDF2_ITERATIONS)
    case FileSecret(secret) => c.hkdf(secret, salt, "shade-vault-recovery-file")
  }

  datatype Wrapper = Wrapper(salt: string, wrappedKey: string)

  function WrapVaultKey(c: Crypto, s: Secret, masterKey: Bytes, salt: Bytes, iv: Bytes): Wrapper {
    Wrapper(Encode(salt), WrapWithKey(c, WrappingKey(c, s, salt), masterKey, iv))
  }

  function UnwrapVaultKey(c: Crypto, w: Wrapper, s: Secret): Option<Bytes> {
    var salt := Decode(w.salt);
    if salt.None? then None else UnwrapWithKey(c, WrappingKey(c, s, salt.value), w.wrappedKey)
  }

  /** Every recovery method gives back the key it wrapped, for every secret, salt and vector. */
  lemma {:induction false} RecoveryGivesKeyBack(c: Crypto, s: Secret, masterKey: Bytes, salt: Bytes, iv: Bytes)
    requires CorrectCipher(c) && |iv| == 12
    ensures UnwrapVaultKey(c, WrapVaultKey(c, s, masterKey, salt, iv), s) == Some(masterKey)
  {
    DecodeEncode(salt);
    UnwrapWrap(c, WrappingKey(c, s, salt), masterKey, iv);
  }

  // ---------- the vault document ----------

  datatype Envelope = Envelope(ciphertext: string, iv: string)

  function AadBytes(c: Crypto, aad: Json.Value): Bytes {
    c.utf8Encode(Json.Stringify(aad))
  }

  function EncryptVault(c: Crypto, vault: Json.Value, masterKey: Bytes, aad: Json.Value, iv: Bytes): Envelope {
    Envelope(Encode(c.seal(masterKey, iv, c.utf8Encode(Json.Stringify(vault)), Some(AadBytes(c, aad)))), Encode(iv))
  }

  function DecryptVault(c: Crypto, e: Envelope, masterKey: Bytes, aad: Json.Value): Option<Json.Value> {
    var iv, ct := Decode(e.iv), Decode(e.ciphertext);
    if iv.None? || ct.None? then None
    else
      var text := c.unseal(masterKey, iv.value, ct.value, Some(AadBytes(c, aad)));
      if text.None? then None else Json.Parse(c.utf8Decode(text.value))
  }

  /** A vault encrypted under a key and bound to its additional data decrypts to itself. */
  lemma {:induction false} VaultRoundTrip(c: Crypto, vault: Json.Value, masterKey: Bytes, aad: Json.Value, iv: Bytes)
    requires CorrectCipher(c) && CorrectText(c) && Json.WellFormed(vault)
    ensures DecryptVault(c, EncryptVault(c, vault, masterKey, aad, iv), masterKey, aad) == Some(vault)
  {
    DecodeEncode(iv);
    DecodeEncode(c.seal(masterKey, iv, c.utf8Encode(Json.Stringify(vault)), Some(AadBytes(c, aad))));
    assert c.utf8Decode(c.utf8Encode(Json.Stringify(vault))) == Json.Stringify(vault);
    Json.ParseStringify(vault);
  }

  /** From a recovery secret alone: unwrap the key, then decrypt the vault. */
  lemma {:induction false} RecoverVault(
    c: Crypto, s: Secret, vault: Json.Value, masterKey: Bytes, aad: Json.Value, salt: Bytes, iv: Bytes, iv': Bytes)
    requires CorrectCipher(c) && CorrectText(c) && Json.WellFormed(vault) && |iv| == 12
    ensures var key := UnwrapVaultKey(c, WrapVaultKey(c, s, masterKey, salt, iv), s);
            key.Some? && DecryptVault(c, EncryptVault(c, vault, masterKey, aad, iv'), key.value, aad) == Some(vault)
  {
    RecoveryGivesKeyBack(c, s, masterKey, salt, iv);
    VaultRoundTrip(c, vault, masterKey, aad, iv');
  }

  // ---------- how each wrapper is made ----------

  /** Each recovery method derives its wrapping key in its own way, under its own label or by the password's
      iterations, and stores the salt and, in one text, the vector and the sealed key. */
  lemma {:induction false} WrapperExact(c: Crypto, s: Secret, masterKey: Bytes, salt: Bytes, iv: Bytes)
    ensures var key := match s
              case PasskeyPrf(output) => c.hkdf(output, salt, "shade-vault-passkey-prf")
              case StellarSignature(signature) => c.hkdf(signature, salt, "shade-vault-stellar-ed25519")
              case KitPassword(password) => c.pbkdf2(password, salt, 310_000)
              case FileSecret(secret) => c.hkdf(secret, salt, "shade-vault-recovery-file");
            var w := WrapVaultKey(c, s, masterKey, salt, iv);
            Decode(w.salt) == Some(salt) && Decode(w.wrappedKey) == Some(iv + c.seal(key, iv, masterKey, None))
  {
    DecodeEncode(salt);
    DecodeEncode(iv + c.seal(WrappingKey(c, s, salt), iv, masterKey, None));
  }

  /** The envelope holds the vector and the vault's text, sealed under the key and bound to the additional
      data's text; decrypting opens just that, with just that additional data. */
  lemma {:induction false} EnvelopeExact(
    c: Crypto, vault: Json.Value, masterKey: Bytes, aad: Json.Value, iv: Bytes, other: Json.Value)
    ensures var e, text := EncryptVault(c, vault, masterKey, aad, iv), c.utf8Encode(Json.Stringify(vault));
            var sealed := c.seal(masterKey, iv, text, Some(c.utf8Encode(Json.Stringify(aad))));
            && Decode(e.iv) == Some(iv) && Decode(e.ciphertext) == Some(sealed)
            && (c.unseal(masterKey, iv, sealed, Some(c.utf8Encode(Json.Stringify(other)))).None? ==>
                  DecryptVault(c, e, masterKey, other).None?)
  {
    DecodeEncode(iv);
    DecodeEncode(c.seal(masterKey, iv, c.utf8Encode(Json.Stringify(vault)), Some(AadBytes(c, aad))));
  }

  /** Nothing is unwrapped or decrypted from texts that are not base64. */
  lemma {:induction false} BrokenTextRefused(c: Crypto, w: Wrapper, s: Secret, e: Envelope, key: Bytes, aad: Json.Value)
    ensures Decode(w.salt).None? || Decode(w.wrappedKey).None? ==> UnwrapVaultKey(c, w, s).None?
    ensures Decode(e.iv).None? || Decode(e.ciphertext).None? ==> DecryptVault(c, e, key, aad).None?
  {
  }
}
