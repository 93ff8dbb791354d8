/**
 * `verifySignature`: the guards around the HMAC-SHA256 comparison of the
 * `X-Hub-Signature-256` header. The HMAC (RFC 2104 over SHA-256, FIPS 180-4),
 * its hex rendering and the UTF-8 encoding done by `Buffer.from` are
 * uninterpreted functions passed in by the caller.
 */
module Signature {
  import opened Wrappers
  import Config

  newtype byte = x: int | 0 <= x < 256

  /** Hex HMAC-SHA256 of a payload (second argument) under a secret (first argument). */
  type HexHmac = (string, string) -> string

  /** `Buffer.from(s)`: the UTF-8 bytes of a string. */
  type Encoder = string -> seq<byte>

  /**
   * What a call of `verifySignature` ends in: a returned boolean, or the
   * RangeError that `crypto.timingSafeEqual` throws on buffers of unequal length.
   */
  datatype Verification = Verified(valid: bool) | LengthMismatch

  const Prefix: string := "sha256="

  /** The header value GitHub would send: `sha256=` and the hex digest. */
  function ExpectedSignature(payload: string, secret: string, hmac: HexHmac): (expected: string)
    ensures |expected| >= |Prefix| && expected[..|Prefix|] == Prefix
    ensures expected[|Prefix|..] == hmac(secret, payload)
  {
    Prefix + hmac(secret, payload)
  }

  /** `crypto.timingSafeEqual`: throws on unequal lengths, otherwise compares the bytes. */
  function TimingSafeEqual(a: seq<byte>, b: seq<byte>): (v: Verification)
    ensures v == LengthMismatch <==> |a| != |b|
    ensures v == Verified(true) <==> a == b
  {
    if |a| != |b| then LengthMismatch else Verified(a == b)
  }

  /** `verifySignature`, with the secret read from the environment on every call. */
  function VerifySignature(payload: string, signature: Option<string>, env: Config.Env,
                           hmac: HexHmac, encode: Encoder): (v: Verification)
    ensures signature.None? || signature == Some("") ==> v == Verified(false)
    ensures Config.WebhookSecret(env) == "" ==> v == Verified(false)
    ensures v == Verified(true) <==>
      (&& signature.Some? && signature.value != ""
       && Config.WebhookSecret(env) != ""
       && encode(ExpectedSignature(payload, Config.WebhookSecret(env), hmac)) == encode(signature.value))
    ensures v == LengthMismatch <==>
      (&& signature.Some? && signature.value != ""
       && Config.WebhookSecret(env) != ""
       && |encode(ExpectedSignature(payload, Config.WebhookSecret(env), hmac))| != |encode(signature.value)|)
  {
    if signature.None? || signature.value == "" then Verified(false)
    else
      var secret := Config.WebhookSecret(env);
      if secret == "" then Verified(false)
      else
        var digest := ExpectedSignature(payload, secret, hmac);
        TimingSafeEqual(encode(digest), encode(signature.value))
  }

  /** Distinct strings have distinct encodings (true of UTF-8). */
  ghost predicate Injective(encode: Encoder) {
    forall s, t :: encode(s) == encode(t) ==> s == t
  }

  /** Under an injective encoding, a signature is accepted exactly when it equals the expected header value. */
  lemma AcceptsExactlyTheExpectedSignature(payload: string, signature: Option<string>, env: Config.Env,
                                           hmac: HexHmac, encode: Encoder)
    requires Injective(encode)
    ensures VerifySignature(payload, signature, env, hmac, encode) == Verified(true) <==>
      (&& Config.WebhookSecret(env) != ""
       && signature == Some(ExpectedSignature(payload, Config.WebhookSecret(env), hmac)))
  {
  }

  /**
   * The outcome the doc comment of `verifySignature` promises: a boolean in
   * every case, false when the lengths differ.
   */
  function VerifySignatureIntended(payload: string, signature: Option<string>, env: Config.Env,
                                   hmac: HexHmac, encode: Encoder): (valid: bool)
    ensures valid <==> VerifySignature(payload, signature, env, hmac, encode) == Verified(true)
    ensures VerifySignature(payload, signature, env, hmac, encode).Verified? ==>
      valid == VerifySignature(payload, signature, env, hmac, encode).valid
    ensures VerifySignature(payload, signature, env, hmac, encode) == LengthMismatch ==> !valid
  {
    if signature.None? || signature.value == "" then false
    else
      var secret := Config.WebhookSecret(env);
      if secret == "" then false
      else
        var expected := encode(ExpectedSignature(payload, secret, hmac));
        var given := encode(signature.value);
        |expected| == |given| && expected == given
  }

  /** One byte per character for code points below 256: agrees with UTF-8 on ASCII. */
  function Latin1(s: string): seq<byte> {
    seq(|s|, i requires 0 <= i < |s| => if s[i] as int < 256 then s[i] as int as byte else 0)
  }

  /**
   * A short signature makes `verifySignature` throw rather than return false,
   * while the intended verifier rejects it.
   */
  lemma ShortSignatureThrows()
    ensures var env := map["WEBHOOK_SECRET" := "s3cret"];
            var hmac := (secret: string, payload: string) => "0000000000000000000000000000000000000000000000000000000000000000";
            && VerifySignature("{}", Some("sha256=abc"), env, hmac, Latin1) == LengthMismatch
            && !VerifySignatureIntended("{}", Some("sha256=abc"), env, hmac, Latin1)
  {
  }
}
