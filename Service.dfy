/** JwtService: issues and verifies signed, time-bounded identity tokens.
    The claim set is built here; signing and verifying (jjwt's compact JWS
    with HS256, section 7.1 of RFC 7515 and section 3.2 of RFC 7518) are an
    opaque codec passed in as a value. */
module Service {
  import opened Wrappers
  import Utf8

  /** The claim values this model covers: a string, an integer, a boolean or
      a date (milliseconds since the epoch). Fractional numbers, lists and
      nested maps, which a caller's map or parsed JSON may also hold, are not
      modelled. */
  datatype Value = Str(s: string) | Num(n: int) | Bool(b: bool) | Date(millis: int)

  type Claims = map<string, Value>

  // Registered claim names of RFC 7519, sections 4.1.2, 4.1.6, 4.1.4 and 4.1.5.
  const Subject := "sub"
  const IssuedAt := "iat"
  const Expiration := "exp"
  const NotBefore := "nbf"

  /** `1000 * 60 * 60 * 24`: one day in milliseconds, computed in Java `int`
      arithmetic without overflow. */
  const DayMillis := 1000 * 60 * 60 * 24

  /** HS256 needs at least 256 bits of key material (RFC 7518, section 3.2). */
  const MinKeyBytes := 32

  const MinLong := -0x8000_0000_0000_0000
  const MaxLong := 0x7FFF_FFFF_FFFF_FFFF

  /** A Java `long`, the type of `System.currentTimeMillis()`. */
  type Long = x: int | MinLong <= x <= MaxLong

  /** Java `long` addition: two's-complement wrap-around at 64 bits. */
  function AddLong(a: Long, b: Long): (r: Long)
    ensures MinLong <= a + b <= MaxLong ==> r == a + b
    ensures (r - (a + b)) % 0x1_0000_0000_0000_0000 == 0
  {
    var m := (a + b - MinLong) % 0x1_0000_0000_0000_0000;
    m + MinLong
  }

  /** The expiration instant for a clock reading: the reading plus one day,
      in `long` arithmetic, so a reading within a day of the largest `long`
      wraps round to an instant before the reading itself. */
  function ExpiryFor(clock: Long): (r: Long)
    ensures clock <= MaxLong - DayMillis ==> r == clock + DayMillis
    ensures clock > MaxLong - DayMillis ==> r < clock
  {
    AddLong(clock, DayMillis)
  }

  /** The signing key; it carries only the bytes it was made from. */
  datatype Key = Key(material: seq<Utf8.byte>)

  /** What `generateToken` and `decodeToken` can throw: the weak-key failure
      of `Keys.hmacShaKeyFor`, or any failure of the verifying parser. */
  datatype JwtError = WeakKey | InvalidJwt(detail: string)

  /** jjwt's builder-side signer (`signWith(key, HS256).compact()`) and its
      verifying parser (`parseClaimsJws(token).getBody()`, which also checks
      `exp` and `nbf` against the verification time `now`). Nothing about
      them is known except what RoundTripLaw states. */
  datatype Codec = Codec(
    sign: (Key, Claims) -> string,
    verify: (Key, string, int) -> Result<Claims, string>)

  /** `date.getTime() / 1000`, scaled back to milliseconds: jjwt stores a
      date claim set by the builder as whole seconds, and Java's division
      truncates toward zero. */
  function WholeSecondMillis(ms: int): (r: int)
    ensures r % 1000 == 0
    ensures 0 <= ms ==> ms - 1000 < r <= ms
    ensures ms < 0 ==> ms <= r < ms + 1000
  {
    if ms >= 0 then ms / 1000 * 1000 else -((-ms) / 1000 * 1000)
  }

  /** The time checks jjwt's parser applies to a signed claim set: the `exp`
      date, as stored in whole seconds, is not before `now`, and an `nbf`
      number (seconds, as the parser reads it) is not after `now`. A claim set
      with an `nbf` of another kind, or one whose milliseconds do not fit in a
      `long` (the parser's `n * 1000` would wrap), is not covered. */
  ghost predicate Current(c: Claims, now: int)
  {
    && (Expiration in c ==> c[Expiration].Date? && now <= WholeSecondMillis(c[Expiration].millis))
    && (NotBefore in c ==>
          c[NotBefore].Num? && MinLong <= c[NotBefore].n * 1000 <= MaxLong && c[NotBefore].n * 1000 <= now)
  }

  /** ASSUMPTION, not proved: jjwt's parser, given the key of at least 256
      bits that a token was signed with (jjwt refuses shorter keys) and a time at which the claims are current, accepts a token whose
      claim set has a `sub` claim (as every built claim set does) and
      gives back a string `sub` claim unchanged. The model does not implement
      HMAC, base64url or JSON, so this law is taken as a hypothesis wherever
      it is used. It says nothing about the other claims, whose values JSON
      may turn into other kinds (dates come back as numbers). */
  ghost predicate RoundTripLaw(codec: Codec)
  {
    forall k: Key, c: Claims, now: int {:trigger codec.verify(k, codec.sign(k, c), now)} ::
      |k.material| >= MinKeyBytes && Subject in c && Current(c, now) ==>
        && codec.verify(k, codec.sign(k, c), now).Ok?
        && (c[Subject].Str? ==>
              Subject in codec.verify(k, codec.sign(k, c), now).value
              && codec.verify(k, codec.sign(k, c), now).value[Subject] == c[Subject])
  }

  /** The assumption is not vacuous: a codec that carries only the subject
      satisfies it. */
  lemma RoundTripLawSatisfiable()
    ensures exists codec :: RoundTripLaw(codec)
  {
    var codec := Codec(
      (k: Key, c: Claims) => if Subject in c && c[Subject].Str? then c[Subject].s else "",
      (k: Key, t: string, now: int) => Ok(map[Subject := Str(t)]));
    assert RoundTripLaw(codec);
  }

  /** The builder chain `setClaims(claims).setSubject(subject)
      .setIssuedAt(new Date(issuedAt)).setExpiration(new Date(clock + day))`:
      each setter overwrites what came before it. `issuedAt` and `clock` are
      the two separate readings of the system clock. */
  function BuildClaims(claims: Claims, subject: string, issuedAt: Long, clock: Long): (r: Claims)
    ensures r.Keys == claims.Keys + {Subject, IssuedAt, Expiration}
    ensures r[Subject] == Str(subject)
    ensures r[IssuedAt] == Date(issuedAt) && r[Expiration] == Date(ExpiryFor(clock))
    ensures forall k :: k in claims && k !in {Subject, IssuedAt, Expiration} ==> r[k] == claims[k]
  {
    claims[Subject := Str(subject)][IssuedAt := Date(issuedAt)][Expiration := Date(ExpiryFor(clock))]
  }

  /** `String.valueOf` of a claim value, as jjwt's `getString` applies it. */
  function Render(v: Value): (r: string)
  {
    match v
    case Str(s) => s
    case Num(n) => Decimal(n)
    case Bool(b) => if b then "true" else "false"
    case Date(ms) => Decimal(ms)
  }

  function Digits(n: nat): (r: string)
    ensures |r| >= 1
  {
    var d := ['0', '1', '2', '3', '4', '5', '6', '7', '8', '9'][n % 10];
    if n < 10 then [d] else Digits(n / 10) + [d]
  }

  function Decimal(n: int): (r: string)
  {
    if n < 0 then "-" + Digits(-n) else Digits(n)
  }

  /** `Claims.getSubject()`: the `sub` claim as a string, `null` when absent. */
  function SubjectOf(c: Claims): (r: Option<string>)
    ensures r.Some? <==> Subject in c
    ensures Subject in c && c[Subject].Str? ==> r == Some(c[Subject].s)
  {
    if Subject in c then Some(Render(c[Subject])) else None
  }

  /** `generateClaims(id)`: a fresh map holding the single entry `"id"`. */
  function GenerateClaims(id: string): (r: Claims)
    ensures |r| == 1 && "id" in r && r["id"] == Str(id)
  {
    map["id" := Str(id)]
  }

  /** The service; its only state is the configured secret, read on every call.
      The codec stands for the jjwt library it calls into. */
  datatype JwtService = JwtService(secret: string, codec: Codec)
  {
    /** `getSigningKey()`: `Keys.hmacShaKeyFor(secret.getBytes(UTF_8))`, which
        throws when the bytes are fewer than 256 bits. */
    function SigningKey(): (r: Option<Key>)
      ensures r.Some? <==> |Utf8.Encode(secret)| >= MinKeyBytes
      ensures r.Some? ==> r.value.material == Utf8.Encode(secret)
    {
      var bytes := Utf8.Encode(secret);
      if |bytes| >= MinKeyBytes then Some(Key(bytes)) else None
    }

    /** `generateToken(claims, subject)`, with the two clock readings passed in. */
    function GenerateToken(claims: Claims, subject: string, issuedAt: Long, clock: Long): (r: Result<string, JwtError>)
      ensures r.Err? <==> |Utf8.Encode(secret)| < MinKeyBytes
      ensures r.Err? ==> r.error == WeakKey
      ensures r.Ok? ==> r.value == codec.sign(SigningKey().value, BuildClaims(claims, subject, issuedAt, clock))
    {
      match SigningKey()
      case None => Err(WeakKey)
      case Some(key) => Ok(codec.sign(key, BuildClaims(claims, subject, issuedAt, clock)))
    }

    /** `decodeToken(token)` verified at time `now`: the subject of the
        verified claims, or the failure; never both, never a partial result. */
    function DecodeToken(token: string, now: int): (r: Result<Option<string>, JwtError>)
      ensures r.Ok? <==> SigningKey().Some? && codec.verify(SigningKey().value, token, now).Ok?
      ensures r.Ok? ==> r.value == SubjectOf(codec.verify(SigningKey().value, token, now).value)
      ensures SigningKey().None? ==> r == Err(WeakKey)
      ensures SigningKey().Some? && codec.verify(SigningKey().value, token, now).Err? ==>
        r == Err(InvalidJwt(codec.verify(SigningKey().value, token, now).error))
    {
      match SigningKey()
      case None => Err(WeakKey)
      case Some(key) =>
        match codec.verify(key, token, now)
        case Ok(c) => Ok(SubjectOf(c))
        case Err(e) => Err(InvalidJwt(e))
    }
  }

  /** The subject parameter always wins: whatever the caller's map holds
      under `sub`, `iat` or `exp`, the built claims are the same as if the
      caller had not supplied those keys at all. */
  lemma CallerCannotSetRegisteredClaims(claims: Claims, subject: string, issuedAt: Long, clock: Long)
    ensures BuildClaims(claims, subject, issuedAt, clock)
         == BuildClaims(claims - {Subject, IssuedAt, Expiration}, subject, issuedAt, clock)
  {
  }

  /** Building claims from already-built claims changes nothing. */
  lemma BuildClaimsIdempotent(claims: Claims, subject: string, issuedAt: Long, clock: Long)
    ensures var once := BuildClaims(claims, subject, issuedAt, clock);
            BuildClaims(once, subject, issuedAt, clock) == once
  {
  }

  /** When both clock readings give the same `t`, the token expires exactly one
      day (86,400,000 ms) after it was issued, provided `t + day` does not
      overflow a `long`. */
  lemma ExpiresOneDayAfterIssue(claims: Claims, subject: string, t: Long)
    requires t <= MaxLong - DayMillis
    ensures var c := BuildClaims(claims, subject, t, t);
            c[Expiration].millis - c[IssuedAt].millis == 86_400_000
  {
  }

  /** Issuing and verifying use the same key, and it depends on the configured
      secret alone: services with equal secrets have equal keys, whatever
      their codecs. */
  lemma SameSecretSameKey(a: JwtService, b: JwtService)
    requires a.secret == b.secret
    ensures a.SigningKey() == b.SigningKey()
  {
  }

  /** A token the parser rejects, such as the test suite's
      "invalid.token.value", is reported as an error and yields no subject. */
  lemma RejectedTokenYieldsNoSubject(svc: JwtService, now: int)
    requires svc.SigningKey().Some?
    requires svc.codec.verify(svc.SigningKey().value, "invalid.token.value", now).Err?
    ensures svc.DecodeToken("invalid.token.value", now).Err?
    ensures svc.DecodeToken("invalid.token.value", now).error.InvalidJwt?
  {
  }

  /** The round trip `decodeToken(generateToken(claims, subject)) == subject`,
      under RoundTripLaw, for a verification time not after the expiry (in
      whole seconds) and a caller map whose `nbf`, if any, is a number of
      seconds already reached. */
  lemma DecodeGeneratedToken(svc: JwtService, claims: Claims, subject: string,
                             issuedAt: Long, clock: Long, now: int)
    requires RoundTripLaw(svc.codec)
    requires svc.SigningKey().Some?
    requires now <= WholeSecondMillis(ExpiryFor(clock))
    requires NotBefore in claims ==>
      claims[NotBefore].Num? && MinLong <= claims[NotBefore].n * 1000 <= MaxLong
      && claims[NotBefore].n * 1000 <= now
    ensures svc.GenerateToken(claims, subject, issuedAt, clock).Ok?
    ensures svc.DecodeToken(svc.GenerateToken(claims, subject, issuedAt, clock).value, now) == Ok(Some(subject))
  {
  }

  /** The secret configured by the test suite. */
  const TestSecret := "testtesttesttesttesttesttesttest"

  /** The test suite's secret yields a key: its 32 ASCII characters encode to
      exactly 32 bytes. */
  lemma TestSecretIsStrong(codec: Codec)
    ensures JwtService(TestSecret, codec).SigningKey().Some?
  {
    assert Utf8.IsAscii(TestSecret);
    Utf8.EncodeAscii(TestSecret);
  }

  /** Any secret of 32 characters or more yields a key, since no character
      encodes to fewer than one byte. */
  lemma LongSecretIsStrong(svc: JwtService)
    requires |svc.secret| >= MinKeyBytes
    ensures svc.SigningKey().Some?
  {
  }

  /** The shape of the test suite's round trip, for any service with a strong
      key: claims from `generateClaims(id)`, subject `id`, one clock reading. */
  lemma GeneratedClaimsRoundTrip(svc: JwtService, id: string, t: Long, now: int)
    requires RoundTripLaw(svc.codec)
    requires svc.SigningKey().Some?
    requires now <= WholeSecondMillis(ExpiryFor(t))
    ensures svc.GenerateToken(GenerateClaims(id), id, t, t).Ok?
    ensures svc.DecodeToken(svc.GenerateToken(GenerateClaims(id), id, t, t).value, now) == Ok(Some(id))
  {
    assert NotBefore !in GenerateClaims(id);
    DecodeGeneratedToken(svc, GenerateClaims(id), id, t, t, now);
  }

  /** The scenario of the test suite: claims from `generateClaims("user123")`,
      subject "user123", decoded before expiry with the test secret. */
  lemma GenerateThenDecodeUser123(codec: Codec, t: Long, now: int)
    requires RoundTripLaw(codec)
    requires now <= WholeSecondMillis(ExpiryFor(t))
    ensures var svc := JwtService(TestSecret, codec);
            var token := svc.GenerateToken(GenerateClaims("user123"), "user123", t, t);
            token.Ok? && svc.DecodeToken(token.value, now) == Ok(Some("user123"))
  {
    TestSecretIsStrong(codec);
    GeneratedClaimsRoundTrip(JwtService(TestSecret, codec), "user123", t, now);
  }
}
