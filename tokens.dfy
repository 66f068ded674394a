/** Confirmation tokens: a payload naming one signature and its petition,
    with an absolute expiry, authenticated by a keyed MAC.

    The clock value and the signing key are parameters. The MAC itself
    (HMAC-SHA256 in the source) is the function carried by the key, so every
    property below holds whatever that function is. */
module Tokens {
  import opened Optional
  import Wire

  const TokenExpiryHours: nat := 24
  /** Lifetime of a token in milliseconds. */
  const TokenLifetimeMs: nat := TokenExpiryHours * 60 * 60 * 1000
  const DefaultSecret: string := "dev-secret-change-in-prod"

  type Timestamp = int

  datatype TokenPayload = TokenPayload(signatureId: string, petitionId: string, exp: Timestamp)

  /** What `signToken` is given: the payload without its expiry. */
  datatype Claims = Claims(signatureId: string, petitionId: string)

  /** The decoded token: the payload `d` and its MAC `s`. */
  datatype Envelope = Envelope(d: TokenPayload, s: string)

  /** The server secret together with the keyed MAC computed under it. The
      server always keys with `SigningSecret` of its environment, so the
      secret is never empty there; the lemmas below hold for any key. */
  datatype SigningKey = SigningKey(secret: string, hmac: (string, string) -> string)

  /** The secret taken from the environment, falling back to the
      development default when the variable is unset or empty. */
  function SigningSecret(env: Option<string>): (secret: string)
    ensures secret != ""
    ensures Truthy(env) ==> secret == env.value
    ensures !Truthy(env) ==> secret == DefaultSecret
  {
    if Truthy(env) then env.value else DefaultSecret
  }

  /** Canonical text of a payload: the message the MAC is computed over. */
  function Serialize(d: TokenPayload): string
  {
    Wire.EncodeFields([d.signatureId, d.petitionId, Wire.IntText(d.exp)])
  }

  function Mac(key: SigningKey, d: TokenPayload): string
  {
    key.hmac(key.secret, Serialize(d))
  }

  /** The token text of an envelope: the serialised payload followed by the MAC. */
  function EncodeEnvelope(e: Envelope): (t: string)
    ensures t == Serialize(e.d) + Wire.Field(e.s)
  {
    Wire.EncodeFieldsAppend([e.d.signatureId, e.d.petitionId, Wire.IntText(e.d.exp)], [e.s]);
    assert [e.s][1..] == [];
    assert [e.d.signatureId, e.d.petitionId, Wire.IntText(e.d.exp)] + [e.s]
        == [e.d.signatureId, e.d.petitionId, Wire.IntText(e.d.exp), e.s];
    Wire.EncodeFields([e.d.signatureId, e.d.petitionId, Wire.IntText(e.d.exp), e.s])
  }

  /** Decoding fails (gives None) on any text that is not exactly four
      fields whose third is an integer numeral. */
  function DecodeEnvelope(t: string): Option<Envelope>
  {
    match Wire.DecodeFields(t, 4)
    case None => None
    case Some(fs) =>
      if |fs| != 4 then None
      else
        match Wire.ParseInt(fs[2])
        case None => None
        case Some(exp) => Some(Envelope(TokenPayload(fs[0], fs[1], exp), fs[3]))
  }

  lemma EnvelopeRoundTrip(e: Envelope)
    ensures DecodeEnvelope(EncodeEnvelope(e)) == Some(e)
  {
    var fs := [e.d.signatureId, e.d.petitionId, Wire.IntText(e.d.exp), e.s];
    Wire.FieldsRoundTrip(fs);
    Wire.IntTextRoundTrip(e.d.exp);
  }

  /** signToken: stamps the claims with an expiry one token lifetime after
      `now` and appends the MAC of the stamped payload. */
  function SignToken(c: Claims, now: Timestamp, key: SigningKey): (t: string)
    ensures var d := TokenPayload(c.signatureId, c.petitionId, now + 86_400_000);
            DecodeEnvelope(t) == Some(Envelope(d, Mac(key, d)))
  {
    var d := TokenPayload(c.signatureId, c.petitionId, now + TokenLifetimeMs);
    var e := Envelope(d, Mac(key, d));
    EnvelopeRoundTrip(e);
    EncodeEnvelope(e)
  }

  /** verifyToken: the payload when the token decodes, its MAC is the one
      the key computes for the payload, and `now` is not past the expiry;
      None in every other case. */
  function VerifyToken(t: string, key: SigningKey, now: Timestamp): (r: Option<TokenPayload>)
    ensures r.Some? <==>
              DecodeEnvelope(t).Some? &&
              DecodeEnvelope(t).value.s == Mac(key, DecodeEnvelope(t).value.d) &&
              now <= DecodeEnvelope(t).value.d.exp
    ensures r.Some? ==> DecodeEnvelope(t) == Some(Envelope(r.value, Mac(key, r.value)))
  {
    match DecodeEnvelope(t)
    case None => None
    case Some(e) =>
      if e.s != Mac(key, e.d) then None
      else if now > e.d.exp then None
      else Some(e.d)
  }

  /** A freshly signed token verifies, at any clock value up to and
      including its expiry, to the claims it was signed with. */
  lemma SignThenVerify(c: Claims, issued: Timestamp, now: Timestamp, key: SigningKey)
    requires now <= issued + TokenLifetimeMs
    ensures VerifyToken(SignToken(c, issued, key), key, now)
            == Some(TokenPayload(c.signatureId, c.petitionId, issued + TokenLifetimeMs))
  {
  }

  /** Expiry is strict: one millisecond past `exp` the token is refused. */
  lemma ExpiredTokenRejected(c: Claims, issued: Timestamp, now: Timestamp, key: SigningKey)
    requires now > issued + TokenLifetimeMs
    ensures VerifyToken(SignToken(c, issued, key), key, now) == None
  {
  }

  /** An envelope whose MAC is not the one the key computes is refused,
      whatever the payload and the clock. */
  lemma ForgedMacRejected(e: Envelope, key: SigningKey, now: Timestamp)
    requires e.s != Mac(key, e.d)
    ensures VerifyToken(EncodeEnvelope(e), key, now) == None
  {
    EnvelopeRoundTrip(e);
  }

  /** A token signed under one key is refused under another key whose MAC
      differs on the signed payload. */
  lemma OtherKeyRejected(c: Claims, issued: Timestamp, now: Timestamp, k1: SigningKey, k2: SigningKey)
    requires Mac(k1, TokenPayload(c.signatureId, c.petitionId, issued + TokenLifetimeMs))
          != Mac(k2, TokenPayload(c.signatureId, c.petitionId, issued + TokenLifetimeMs))
    ensures VerifyToken(SignToken(c, issued, k1), k2, now) == None
  {
  }
}
