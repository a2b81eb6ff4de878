/**
 * JwtHandler: issues and checks the signed bearer tokens.
 *
 * The JJWT builder and parser are foreign code; they are the two functions of a
 * JwsScheme, and what the handler relies on them for is the ghost predicate Sound.
 * Time is a clock reading in epoch milliseconds, as Instant.now() and new Date()
 * give it; generateJwtToken reads the clock twice, once for iat and once for exp.
 * The token's iat and exp claims are JWT NumericDates, that is whole seconds.
 */
module Jwt {
  import opened Wrappers
  import JavaStrings

  /** The fallback of the `${jwt.client-secret:defaultKey}` property placeholder. */
  const DefaultSecret: string := "defaultKey"

  /** `Instant.now().plus(1, ChronoUnit.HOURS)`, in milliseconds. */
  const LifetimeMillis: nat := 3_600_000

  /** Keys.hmacShaKeyFor refuses key material shorter than 256 bits. */
  const MinKeyBytes: nat := 32

  /** An HMAC-SHA key; keys built from the same secret are the same key. */
  datatype Key = Key(secret: string)

  /** Why getKey threw: no secret (IllegalArgumentException), or one too short (WeakKeyException). */
  datatype KeyError = SecretNotConfigured | WeakKey

  /** Why parseToken threw. */
  datatype ParseError = KeyUnavailable(cause: KeyError) | Unparseable

  /** The payload of a token: `sub`, and `iat` and `exp` in epoch seconds. */
  datatype Claims = Claims(subject: string, issuedAt: int, expiration: int)

  /** JJWT as seen from the handler: `compact` signs claims into a compact JWS string,
      `parse` verifies one under a key and returns its claims, or None when it throws. */
  datatype JwsScheme = JwsScheme(compact: (Claims, Key) -> string, parse: (string, Key) -> Option<Claims>)

  /** The characters of a compact JWS: base64url segments separated by dots. */
  predicate IsCompactChar(c: char) {
    || ('A' <= c <= 'Z') || ('a' <= c <= 'z') || ('0' <= c <= '9')
    || c == '-' || c == '_' || c == '.'
  }

  predicate IsCompact(t: string) {
    |t| > 0 && forall i :: 0 <= i < |t| ==> IsCompactChar(t[i])
  }

  /** What the handler relies on JJWT for. */
  ghost predicate Sound(jws: JwsScheme) {
    // a token parses under the key that signed it, back to its claims
    && (forall c: Claims, k: Key :: jws.parse(jws.compact(c, k), k) == Some(c))
    // and under no other key (signature verification fails)
    && (forall c: Claims, k: Key, k': Key :: k != k' ==> jws.parse(jws.compact(c, k), k') == None)
    // signed tokens are compact JWS strings
    && (forall c: Claims, k: Key :: IsCompact(jws.compact(c, k)))
    // the parser rejects an empty string
    && (forall k: Key :: jws.parse("", k) == None)
  }

  /** The component: the injected `jwtSecret` (null when nothing injected it) and the library. */
  datatype Handler = Handler(jwtSecret: Option<string>, jws: JwsScheme)

  /** The value Spring injects for `${jwt.client-secret:defaultKey}`. */
  function InjectedSecret(property: Option<string>): string {
    property.GetOr(DefaultSecret)
  }

  /** getKey: Optional.ofNullable(secret).map(getBytes).map(Keys::hmacShaKeyFor).orElseThrow(...). */
  function GetKey(secret: Option<string>): (r: Result<Key, KeyError>)
    ensures r.Ok? <==> secret.Some? && JavaStrings.Utf8Length(secret.value) >= MinKeyBytes
    ensures r.Ok? ==> r.value == Key(secret.value)
    ensures secret.None? ==> r == Err(SecretNotConfigured)
  {
    match secret
    case None => Err(SecretNotConfigured)
    case Some(s) => if JavaStrings.Utf8Length(s) < MinKeyBytes then Err(WeakKey) else Ok(Key(s))
  }

  /** The two Instant.now() readings of generateJwtToken: the one for `iat`, then the one for `exp`. */
  datatype IssueClock = IssueClock(atIssue: nat, atExpiry: nat)

  /** A clock that does not go back between the two readings. */
  predicate Ordered(clock: IssueClock) {
    clock.atIssue <= clock.atExpiry
  }

  /** The claims generateJwtToken writes. */
  function IssuedClaims(subject: string, clock: IssueClock): Claims {
    Claims(subject, clock.atIssue / 1000, (clock.atExpiry + LifetimeMillis) / 1000)
  }

  /** claims.getExpiration() as a Date, in epoch milliseconds. */
  function ExpiresAt(c: Claims): int {
    c.expiration * 1000
  }

  /** generateJwtToken; fails where getKey throws. */
  function GenerateJwtToken(h: Handler, subject: string, clock: IssueClock): Result<string, KeyError> {
    match GetKey(h.jwtSecret)
    case Err(e) => Err(e)
    case Ok(k) => Ok(h.jws.compact(IssuedClaims(subject, clock), k))
  }

  /** parseToken. */
  function ParseToken(h: Handler, token: string): Result<Claims, ParseError> {
    match GetKey(h.jwtSecret)
    case Err(e) => Err(KeyUnavailable(e))
    case Ok(k) =>
      match h.jws.parse(token, k)
      case None => Err(Unparseable)
      case Some(c) => Ok(c)
  }

  /** validateJwt: `!claims.getExpiration().before(now)`, and false on any exception. */
  function ValidateJwt(h: Handler, token: string, now: nat): bool {
    match ParseToken(h, token)
    case Err(_) => false
    case Ok(c) => !(ExpiresAt(c) < now)
  }

  /** extractTokenSubject; it throws for a token that does not parse, so it is only for those that do. */
  function ExtractTokenSubject(h: Handler, token: string): string
    requires ParseToken(h, token).Ok?
  {
    ParseToken(h, token).value.subject
  }

  /** A generated token's `exp` is one hour after its `iat`, or one hour and a second when the
      two readings straddle a second boundary (readings less than a second apart); with a single
      reading it is exactly 3600 seconds. Its expiration instant lies within the last second of
      the hour after the second reading. */
  lemma {:induction false} IssuedLifetime(subject: string, clock: IssueClock)
    requires Ordered(clock)
    ensures var c := IssuedClaims(subject, clock);
            && c.subject == subject
            && 3600 <= c.expiration - c.issuedAt
            && (clock.atExpiry < clock.atIssue + 1000 ==> c.expiration - c.issuedAt <= 3601)
            && (clock.atIssue == clock.atExpiry ==> c.expiration == c.issuedAt + 3600)
            && clock.atExpiry + LifetimeMillis - 1000 < ExpiresAt(c) <= clock.atExpiry + LifetimeMillis
  {
    var q1 := clock.atIssue / 1000;
    var q2 := clock.atExpiry / 1000;
    assert clock.atIssue == q1 * 1000 + clock.atIssue % 1000;
    assert clock.atExpiry == q2 * 1000 + clock.atExpiry % 1000;
    assert (clock.atExpiry + LifetimeMillis) / 1000 == q2 + 3600;
    assert q1 <= q2;
  }

  /** Readings 1 ms apart across a second boundary give a token whose `exp` is 3601 s after its `iat`. */
  lemma StraddlingReadings(subject: string)
    ensures IssuedClaims(subject, IssueClock(999, 1000)).expiration - IssuedClaims(subject, IssueClock(999, 1000)).issuedAt == 3601
  {
  }

  /** With a usable key, the subject of a generated token comes back out of it. */
  lemma RoundTrip(h: Handler, subject: string, clock: IssueClock)
    requires Sound(h.jws) && GetKey(h.jwtSecret).Ok?
    ensures GenerateJwtToken(h, subject, clock).Ok?
    ensures ParseToken(h, GenerateJwtToken(h, subject, clock).value) == Ok(IssuedClaims(subject, clock))
    ensures ExtractTokenSubject(h, GenerateJwtToken(h, subject, clock).value) == subject
  {
    var k := GetKey(h.jwtSecret).value;
    assert h.jws.parse(h.jws.compact(IssuedClaims(subject, clock), k), k) == Some(IssuedClaims(subject, clock));
  }

  /** A generated token validates exactly up to and including its expiration instant: at least
      until the last second of the hour after the second reading (for a clock that does not go
      back, after the first), and never once that hour is over. */
  lemma FreshTokenValidity(h: Handler, subject: string, clock: IssueClock, now: nat)
    requires Sound(h.jws) && GetKey(h.jwtSecret).Ok?
    ensures GenerateJwtToken(h, subject, clock).Ok?
    ensures (ValidateJwt(h, GenerateJwtToken(h, subject, clock).value, now) <==>
             now <= ExpiresAt(IssuedClaims(subject, clock)))
    ensures now <= clock.atExpiry + LifetimeMillis - 1000 ==> ValidateJwt(h, GenerateJwtToken(h, subject, clock).value, now)
    ensures Ordered(clock) && now <= clock.atIssue + LifetimeMillis - 1000 ==>
              ValidateJwt(h, GenerateJwtToken(h, subject, clock).value, now)
    ensures now > clock.atExpiry + LifetimeMillis ==> !ValidateJwt(h, GenerateJwtToken(h, subject, clock).value, now)
  {
    RoundTrip(h, subject, clock);
    if Ordered(clock) {
      IssuedLifetime(subject, clock);
    } else {
      var q2 := clock.atExpiry / 1000;
      assert clock.atExpiry == q2 * 1000 + clock.atExpiry % 1000;
      assert (clock.atExpiry + LifetimeMillis) / 1000 == q2 + 3600;
    }
  }

  /** A token signed under one secret does not validate under another. */
  lemma WrongSecretRejected(jws: JwsScheme, signer: string, verifier: string, subject: string, clock: IssueClock, now: nat)
    requires Sound(jws) && signer != verifier
    requires GetKey(Some(signer)).Ok?
    ensures GenerateJwtToken(Handler(Some(signer), jws), subject, clock).Ok?
    ensures !ValidateJwt(Handler(Some(verifier), jws), GenerateJwtToken(Handler(Some(signer), jws), subject, clock).value, now)
  {
    var c := IssuedClaims(subject, clock);
    if GetKey(Some(verifier)).Ok? {
      assert jws.parse(jws.compact(c, Key(signer)), Key(verifier)) == None;
    }
  }

  /** Without a secret, generation throws and validation turns the same failure into false. */
  lemma NullSecret(jws: JwsScheme, subject: string, token: string, clock: IssueClock, now: nat)
    ensures GenerateJwtToken(Handler(None, jws), subject, clock) == Err(SecretNotConfigured)
    ensures ParseToken(Handler(None, jws), token) == Err(KeyUnavailable(SecretNotConfigured))
    ensures !ValidateJwt(Handler(None, jws), token, now)
  {
  }

  /** The fallback secret "defaultKey" is 10 bytes, below the 32 that Keys.hmacShaKeyFor demands:
      with the property unset, no token can be issued and none validates. */
  lemma DefaultSecretIsWeak(jws: JwsScheme, subject: string, token: string, clock: IssueClock, now: nat)
    ensures GenerateJwtToken(Handler(Some(InjectedSecret(None)), jws), subject, clock) == Err(WeakKey)
    ensures !ValidateJwt(Handler(Some(InjectedSecret(None)), jws), token, now)
  {
    var secret := InjectedSecret(None);
    assert secret == DefaultSecret && |secret| == 10;
    JavaStrings.Utf8LengthOfAscii(secret);
    assert GetKey(Some(secret)) == Err(WeakKey);
  }

  /** The empty token never validates. */
  lemma EmptyTokenRejected(h: Handler, now: nat)
    requires Sound(h.jws)
    ensures !ValidateJwt(h, "", now)
  {
    if GetKey(h.jwtSecret).Ok? {
      assert h.jws.parse("", GetKey(h.jwtSecret).value) == None;
    }
  }

  /** Generated tokens are compact JWS strings, so neither end is something String.trim removes. */
  lemma GeneratedIsCompact(h: Handler, subject: string, clock: IssueClock)
    requires Sound(h.jws) && GenerateJwtToken(h, subject, clock).Ok?
    ensures IsCompact(GenerateJwtToken(h, subject, clock).value)
    ensures JavaStrings.IsTrimmed(GenerateJwtToken(h, subject, clock).value)
  {
    var t := GenerateJwtToken(h, subject, clock).value;
    assert IsCompact(h.jws.compact(IssuedClaims(subject, clock), GetKey(h.jwtSecret).value));
    assert IsCompactChar(t[0]) && IsCompactChar(t[|t| - 1]);
  }
}
