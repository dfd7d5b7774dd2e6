/** JwtAspect: the advice that runs before every operation marked as requiring
    authentication. It reads the `Authorization` header, insists on the
    bearer form of section 2.1 of RFC 6750 (matched literally and
    case-sensitively), hands the token to the decoder and either records the
    decoded subject in the request's `"id"` attribute or rejects with 401. */
module Aspect {
  import opened Wrappers
  import Service

  const BearerPrefix := "Bearer "
  const IdAttribute := "id"
  const Unauthorized := 401
  const MissingOrInvalidHeader := "Missing or invalid Authorization header"
  const InvalidToken := "Invalid token"

  /** `jwtService.decodeToken`: the subject (`None` for a token without one,
      which Java reports as `null`) or the exception it throws. */
  type Decoder = string -> Result<Option<string>, Service.JwtError>

  /** How the advice ends: it returns normally, having set or cleared `"id"`,
      or it throws a `ResponseStatusException` with a status and a message. */
  datatype Outcome = Authorized(id: Option<string>) | Rejected(status: int, message: string)

  /** Java's `String.startsWith`. */
  predicate StartsWith(s: string, prefix: string)
  {
    |prefix| <= |s| && s[..|prefix|] == prefix
  }

  /** The header passes the prefix test. */
  predicate Bearer(header: Option<string>)
  {
    header.Some? && StartsWith(header.value, BearerPrefix)
  }

  /** `authHeader.substring(7)`: what follows the prefix. */
  function TokenOf(header: string): (token: string)
    requires StartsWith(header, BearerPrefix)
    ensures header == BearerPrefix + token
  {
    header[7..]
  }

  /** The decision `checkJwt` reaches for a header value and a decoder. */
  function Decide(header: Option<string>, decode: Decoder): (r: Outcome)
    ensures r.Rejected? ==> r.status == Unauthorized
    ensures r.Rejected? ==> r.message == MissingOrInvalidHeader || r.message == InvalidToken
    ensures r.Authorized? <==> Bearer(header) && decode(TokenOf(header.value)).Ok?
    ensures r.Authorized? ==> r.id == decode(TokenOf(header.value)).value
    ensures r == Rejected(Unauthorized, MissingOrInvalidHeader) <==> !Bearer(header)
  {
    if header.None? || !StartsWith(header.value, BearerPrefix) then
      Rejected(Unauthorized, MissingOrInvalidHeader)
    else
      match decode(TokenOf(header.value))
      case Ok(id) => Authorized(id)
      case Err(_) => Rejected(Unauthorized, InvalidToken)
  }

  /** The request attributes after the advice: `setAttribute("id", id)` on
      success (a `null` id removes the attribute), nothing otherwise. */
  function AttributesAfter(attributes: map<string, string>, outcome: Outcome): (r: map<string, string>)
    ensures forall k :: k != IdAttribute ==> (k in r <==> k in attributes)
    ensures forall k :: k != IdAttribute && k in r ==> r[k] == attributes[k]
    ensures outcome.Rejected? ==> r == attributes
    ensures outcome.Authorized? ==> (IdAttribute in r <==> outcome.id.Some?)
    ensures outcome.Authorized? && outcome.id.Some? ==> r[IdAttribute] == outcome.id.value
  {
    match outcome
    case Rejected(_, _) => attributes
    case Authorized(None) => attributes - {IdAttribute}
    case Authorized(Some(id)) => attributes[IdAttribute := id]
  }

  /** The tokens the decoder is asked about: one, and only when the prefix
      test passes. */
  function DecoderInputs(header: Option<string>): (r: seq<string>)
    ensures |r| <= 1
    ensures r == [] <==> !Bearer(header)
    ensures r != [] ==> header.value == BearerPrefix + r[0]
  {
    if Bearer(header) then [TokenOf(header.value)] else []
  }

  /** The incoming request as the advice sees it: the `Authorization` header
      (`None` when absent) and the mutable attribute map. */
  class Request {
    const authorization: Option<string>
    var attributes: map<string, string>

    constructor (authorization: Option<string>, attributes: map<string, string>)
      ensures this.authorization == authorization && this.attributes == attributes
    {
      this.authorization := authorization;
      this.attributes := attributes;
    }

    /** `ServletRequest.setAttribute`: a `null` value removes the attribute. */
    method SetAttribute(name: string, value: Option<string>)
      modifies this
      ensures attributes == if value.Some? then old(attributes)[name := value.value]
                            else old(attributes) - {name}
    {
      if value.Some? {
        attributes := attributes[name := value.value];
      } else {
        attributes := attributes - {name};
      }
    }
  }

  class JwtAspect {
    const decode: Decoder
    const request: Request
    /** Every token handed to the decoder so far, oldest first. It is kept by
        hand: `CheckJwt` appends the token on the line before its one call to
        `decode`, so what it says about calls rests on that placement. */
    ghost var decoderCalls: seq<string>

    constructor (decode: Decoder, request: Request)
      ensures this.decode == decode && this.request == request && decoderCalls == []
    {
      this.decode := decode;
      this.request := request;
      decoderCalls := [];
    }

    /** `checkJwt`: the outcome is Decide's, only the `"id"` attribute can
        change, and the decoder sees at most the header minus its prefix. */
    method CheckJwt() returns (outcome: Outcome)
      modifies this, request
      ensures outcome == Decide(request.authorization, decode)
      ensures request.attributes == AttributesAfter(old(request.attributes), outcome)
      ensures decoderCalls == old(decoderCalls) + DecoderInputs(request.authorization)
    {
      var authHeader := request.authorization;
      if authHeader.None? || !StartsWith(authHeader.value, BearerPrefix) {
        return Rejected(Unauthorized, MissingOrInvalidHeader);
      }
      var token := authHeader.value[7..];
      decoderCalls := decoderCalls + [token];
      var decoded := decode(token);
      match decoded {
        case Ok(id) =>
          request.SetAttribute(IdAttribute, id);
          outcome := Authorized(id);
        case Err(_) =>
          outcome := Rejected(Unauthorized, InvalidToken);
      }
    }

    /** The `@Before` pointcut: the advice runs only for operations annotated
        `@AuthRequired`; for the others nothing happens (`None`). */
    method Before(authRequired: bool) returns (outcome: Option<Outcome>)
      modifies this, request
      ensures authRequired <==> outcome.Some?
      ensures !authRequired ==> request.attributes == old(request.attributes) && decoderCalls == old(decoderCalls)
      ensures authRequired ==> outcome.value == Decide(request.authorization, decode)
      ensures authRequired ==> request.attributes == AttributesAfter(old(request.attributes), outcome.value)
      ensures authRequired ==> decoderCalls == old(decoderCalls) + DecoderInputs(request.authorization)
    {
      if authRequired {
        var o := CheckJwt();
        outcome := Some(o);
      } else {
        outcome := None;
      }
    }
  }

  /** With no header the decoder plays no part: every decoder gives the same
      rejection. */
  lemma MissingHeaderRejected(decode: Decoder)
    ensures Decide(None, decode) == Rejected(Unauthorized, MissingOrInvalidHeader)
  {
  }

  /** The prefix is matched literally: a lower-case scheme, or the scheme
      without its space, is rejected like a missing header. */
  lemma PrefixIsCaseSensitive(decode: Decoder, token: string)
    ensures Decide(Some("bearer " + token), decode) == Rejected(Unauthorized, MissingOrInvalidHeader)
    ensures Decide(Some("Bearer"), decode) == Rejected(Unauthorized, MissingOrInvalidHeader)
  {
  }

  /** The token handed to the decoder is exactly what followed "Bearer ". */
  lemma TokenIsRestOfHeader(token: string)
    ensures StartsWith(BearerPrefix + token, BearerPrefix)
    ensures TokenOf(BearerPrefix + token) == token
  {
  }

  /** The decoder's own error is not passed on: any two decoders that both fail
      on the token lead to the same fixed rejection. */
  lemma ErrorTextNotPropagated(header: string, d1: Decoder, d2: Decoder)
    requires StartsWith(header, BearerPrefix)
    requires d1(TokenOf(header)).Err? && d2(TokenOf(header)).Err?
    ensures Decide(Some(header), d1) == Decide(Some(header), d2) == Rejected(Unauthorized, InvalidToken)
  {
  }

  /** The outcome depends on the decoder only through its answer for the
      token: decoders that agree there give the same outcome. */
  lemma DecisionDependsOnlyOnToken(header: Option<string>, d1: Decoder, d2: Decoder)
    requires Bearer(header) ==> d1(TokenOf(header.value)) == d2(TokenOf(header.value))
    ensures Decide(header, d1) == Decide(header, d2)
  {
  }

  /** End to end: a header carrying a token freshly issued by the service with
      a strong secret authorizes the request with the token's subject, under
      RoundTripLaw. */
  lemma IssuedTokenAuthorizes(svc: Service.JwtService, claims: Service.Claims, subject: string,
                              issuedAt: Service.Long, clock: Service.Long, now: int)
    requires Service.RoundTripLaw(svc.codec)
    requires svc.SigningKey().Some?
    requires now <= Service.WholeSecondMillis(Service.ExpiryFor(clock))
    requires Service.NotBefore in claims ==>
      claims[Service.NotBefore].Num?
      && Service.MinLong <= claims[Service.NotBefore].n * 1000 <= Service.MaxLong
      && claims[Service.NotBefore].n * 1000 <= now
    ensures svc.GenerateToken(claims, subject, issuedAt, clock).Ok?
    ensures Decide(Some(BearerPrefix + svc.GenerateToken(claims, subject, issuedAt, clock).value),
                   t => svc.DecodeToken(t, now))
         == Authorized(Some(subject))
  {
  }
}
