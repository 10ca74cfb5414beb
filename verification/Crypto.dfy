/** Hashing, the signed and encrypted transfer envelope, and digest names. */
module Crypto {
  import opened Prelude

  /** The cryptographic primitives, as functions. `sha` gives the hexadecimal SHA-256, `mac` the hexadecimal
      HMAC as ASCII bytes; `seal` and `unseal` are AES-256-GCM with the nonce in front of the ciphertext. */
  datatype Primitives = Primitives(
    sha: Bytes -> string,
    mac: (Bytes, Bytes) -> Bytes,
    seal: (Bytes, Bytes, Bytes) -> Bytes,
    unseal: (Bytes, Bytes) -> Option<Bytes>)

  datatype Keys = Keys(aes: Bytes, hmac: Bytes)

  const NEWLINE: Byte := 10

  predicate IsHex(s: string) {
    forall c :: c in s ==> '0' <= c <= '9' || 'a' <= c <= 'f'
  }

  /** Different contents have different hashes, and hashes are written in hexadecimal digits. */
  ghost predicate GoodHash(sha: Bytes -> string) {
    && (forall b :: IsHex(sha(b)) && sha(b) != "")
    && (forall a, b :: sha(a) == sha(b) ==> a == b)
  }

  predicate IsAsciiLine(sig: Bytes) {
    forall b :: b in sig ==> b < 128 && b != NEWLINE
  }

  /** Decryption undoes encryption under the same key, and signatures are printable. */
  ghost predicate GoodPrimitives(p: Primitives) {
    && GoodHash(p.sha)
    && (forall k, d :: IsAsciiLine(p.mac(k, d)))
    && (forall k, n, d :: p.unseal(k, p.seal(k, n, d)) == Some(d))
  }

  // --- digest names ---

  const PREFIX := "sha256:"

  /** `digest.removeprefix("sha256:")` */
  function Bare(digest: string): string {
    if PREFIX <= digest then digest[7..] else digest
  }

  function Named(hex: string): string {
    PREFIX + hex
  }

  lemma HexIsBare(hex: string)
    requires IsHex(hex)
    ensures Bare(hex) == hex && Bare(Named(hex)) == hex
  {
    assert Named(hex)[7..] == hex;
    assert PREFIX[0] == 's';
    assert hex != "" ==> hex[0] in hex;
  }

  lemma NamedBare(digest: string)
    requires PREFIX <= digest
    ensures Named(Bare(digest)) == digest
  {
  }

  // --- the envelope ---

  datatype OpenError = DecryptionFailed | NoSignature | BadEncoding | BadSignature

  /** `rfind(b"\n")` */
  function LastNewline(data: Bytes): (r: int)
    ensures -1 <= r < |data|
    ensures r >= 0 ==> data[r] == NEWLINE
    ensures forall i :: r < i < |data| ==> data[i] != NEWLINE
  {
    if data == [] then -1
    else if data[|data| - 1] == NEWLINE then |data| - 1
    else LastNewline(data[..|data| - 1])
  }

  /** Sign, append the signature on a line of its own, encrypt. */
  function Wrap(payload: Bytes, nonce: Bytes, keys: Keys, p: Primitives): Bytes {
    p.seal(keys.aes, nonce, payload + [NEWLINE] + p.mac(keys.hmac, payload))
  }

  /** Decrypt, cut at the last newline, check the signature. */
  function Unwrap(data: Bytes, keys: Keys, p: Primitives): Result<Bytes, OpenError> {
    var plain := p.unseal(keys.aes, data);
    if plain.None? then Err(DecryptionFailed)
    else
      var cut := LastNewline(plain.value);
      if cut < 0 then Err(NoSignature)
      else
        var payload, sig := plain.value[..cut], plain.value[cut + 1..];
        if exists b :: b in sig && b >= 128 then Err(BadEncoding)
        else if p.mac(keys.hmac, payload) != sig then Err(BadSignature)
        else Ok(payload)
  }

  lemma {:induction false} LastNewlineIs(payload: Bytes, sig: Bytes)
    requires NEWLINE !in sig
    ensures LastNewline(payload + [NEWLINE] + sig) == |payload|
  {
    var data := payload + [NEWLINE] + sig;
    if sig != [] {
      assert data[..|data| - 1] == payload + [NEWLINE] + sig[..|sig| - 1];
      assert data[|data| - 1] == sig[|sig| - 1];
      LastNewlineIs(payload, sig[..|sig| - 1]);
    }
  }

  /** Exactly the properly signed plaintexts open, and opening recovers the payload whatever bytes it holds,
      newlines included. */
  lemma UnwrapIff(data: Bytes, payload: Bytes, keys: Keys, p: Primitives)
    requires GoodPrimitives(p)
    ensures Unwrap(data, keys, p) == Ok(payload) <==>
            p.unseal(keys.aes, data) == Some(payload + [NEWLINE] + p.mac(keys.hmac, payload))
  {
    var sig := p.mac(keys.hmac, payload);
    var framed := payload + [NEWLINE] + sig;
    assert IsAsciiLine(sig);
    LastNewlineIs(payload, sig);
    assert framed[..|payload|] == payload && framed[|payload| + 1..] == sig;
    if Unwrap(data, keys, p) == Ok(payload) {
      var plain := p.unseal(keys.aes, data).value;
      var cut := LastNewline(plain);
      assert plain == plain[..cut] + [NEWLINE] + plain[cut + 1..];
    }
  }

  /** Under shared keys a wrapped payload is recovered, for every payload and every nonce. */
  lemma WrapUnwraps(payload: Bytes, nonce: Bytes, keys: Keys, p: Primitives)
    requires GoodPrimitives(p)
    ensures Unwrap(Wrap(payload, nonce, keys, p), keys, p) == Ok(payload)
  {
    UnwrapIff(Wrap(payload, nonce, keys, p), payload, keys, p);
  }
}
