# spring-jwt-security, modelled in Dafny

This project models the two pieces of logic in the `digital.josef.jwtsecurity`
package.

- **`JwtService`** builds the claim set of a token and decodes a token back to its subject. It starts from the caller's map, then sets `sub` to the subject parameter, `iat` to one clock reading and `exp` to a second clock reading plus one day. It signs with an HS256 key made from the configured secret. Decoding verifies the token and returns the `sub` claim.
- **`JwtAspect.checkJwt`** is the advice that runs before every `@AuthRequired` operation. It reads the `Authorization` header and requires the literal prefix `"Bearer "`. It passes the rest of the header to the decoder. On success it stores the subject in the request attribute `"id"`. Otherwise it rejects with status 401 and one of two fixed messages.

Files:

- `Wrappers.dfy` holds `Option` (where Java uses `null`) and `Result` (where Java throws).
- `Utf8.dfy` models `String.getBytes(UTF_8)`, which turns the secret into key bytes. It follows section 3 of RFC 3629.
- `Service.dfy` models `JwtService.java`. It is pure: the claim set is a `map<string, Value>`, the clock readings are explicit `long` parameters, and the service is a value.
- `Aspect.dfy` models `JwtAspect.java`. It is imperative: a `Request` class holds the header and the mutable attribute map. `JwtAspect.CheckJwt` is a method that changes that map. It is proved against the pure function `Decide`, which gives the outcome, and `AttributesAfter`, which gives the new attributes.

jjwt signs and parses tokens in the compact JWS form (section 7.1 of RFC 7515, HS256 of section 3.2 of RFC 7518). The model does not implement this. A `Codec` value stands for it, holding a `sign` and a `verify` function. The model assumes one thing about the codec, and this is **an assumption, not a proof**. The predicate `Service.RoundTripLaw` covers a claim set that has a `sub` claim, signed and then verified with the same key of at least 32 bytes, at a time when its `exp` and `nbf` claims are current. For such a set, it says the parser accepts the token and returns a string `sub` claim unchanged. It says nothing about the other claims, because JSON can change their kind; dates, for example, come back as numbers. `Service.RoundTripLawSatisfiable` shows that some codec meets the law. Every lemma that needs this law takes it as a `requires` clause. The round trip `decodeToken(generateToken(c, s)) == s`, as the test suite checks it, is proved only under this assumption.

Three behaviours of the code are worth stating:

- `getSigningKey` checks the secret's length on every call, not at startup. So `GenerateToken` and `DecodeToken` both return `WeakKey` for a short secret.
- `generateToken` does not check that the subject is non-empty, and neither does the model.
- A token without a `sub` claim decodes to `null`. `checkJwt` then calls `setAttribute("id", null)`, which removes the attribute, and the request still goes through. The model has `Authorized(None)` for this case.

## Model

| member | source | states |
|---|---|---|
| `Utf8.EncodeChar` | src/main/java/digital/josef/jwtsecurity/JwtService.java:39 | each character takes one to four bytes, and exactly one byte (its own code) when it is ASCII |
| `Utf8.Encode` | src/main/java/digital/josef/jwtsecurity/JwtService.java:39 | `getBytes(UTF_8)` of the secret: its byte count is between its character count and four times that count |
| `Utf8.EncodeAscii` | src/main/java/digital/josef/jwtsecurity/JwtService.java:39 | an ASCII secret encodes to one byte per character, each byte equal to the character code |
| `Service.AddLong` | src/main/java/digital/josef/jwtsecurity/JwtService.java:54 | Java `long` addition: equal to the true sum when that sum fits, and congruent to it modulo 2^64 always |
| `Service.ExpiryFor` | src/main/java/digital/josef/jwtsecurity/JwtService.java:54 | the expiry is the clock reading plus 86,400,000 ms when that fits in a `long`. Within a day of the largest `long` it wraps round to an instant before the reading |
| `Service.WholeSecondMillis` | src/main/java/digital/josef/jwtsecurity/JwtService.java:53-54 | a date set by the builder is kept in whole seconds, truncated toward zero: a multiple of 1000 at most 999 ms from the original |
| `Service.RoundTripLawSatisfiable` | src/main/java/digital/josef/jwtsecurity/JwtService.java:55-71 | the assumed round-trip law about the signer and the parser is met by at least one codec, so the lemmas that assume it are not vacuous |
| `Service.BuildClaims` | src/main/java/digital/josef/jwtsecurity/JwtService.java:50-54 | the built claims have the caller's keys plus `sub`, `iat` and `exp`; `sub` is the subject parameter; `iat` is the first clock reading; `exp` is the second reading plus one day; every other caller claim is carried over unchanged |
| `Service.CallerCannotSetRegisteredClaims` | src/main/java/digital/josef/jwtsecurity/JwtService.java:51-52 | whatever the caller's map holds under `sub`, `iat` or `exp` has no effect, because the later setters overwrite it |
| `Service.BuildClaimsIdempotent` | src/main/java/digital/josef/jwtsecurity/JwtService.java:50-54 | building again from the built claims, with the same subject and clock readings, gives the same claims |
| `Service.ExpiresOneDayAfterIssue` | src/main/java/digital/josef/jwtsecurity/JwtService.java:53-54 | when both clock reads return the same `t`, `exp - iat` is exactly 86,400,000 ms, provided `t + day` fits in a `long` |
| `Service.SubjectOf` | src/main/java/digital/josef/jwtsecurity/JwtService.java:71 | `getSubject()` is present exactly when the claims have `sub`, and a string `sub` is returned as it is |
| `Service.GenerateClaims` | src/main/java/digital/josef/jwtsecurity/JwtService.java:80-84 | the map has exactly one entry, `"id"`, mapped to `id` |
| `Service.JwtService.SigningKey` | src/main/java/digital/josef/jwtsecurity/JwtService.java:38-40 | a key exists exactly when the secret's UTF-8 bytes number at least 32 (256 bits), and the key consists of those bytes |
| `Service.JwtService.GenerateToken` | src/main/java/digital/josef/jwtsecurity/JwtService.java:49-57 | fails, with `WeakKey`, exactly when the secret is under 32 bytes; otherwise the result is the codec's signature over `BuildClaims` with the secret's key |
| `Service.JwtService.DecodeToken` | src/main/java/digital/josef/jwtsecurity/JwtService.java:66-72 | all or nothing: returns the verified claims' subject exactly when the key is strong and the parser accepts the token, and otherwise returns the error, never a subject |
| `Service.SameSecretSameKey` | src/main/java/digital/josef/jwtsecurity/JwtService.java:38-40 | the key depends on the secret alone: services with equal secrets have equal keys, whatever their codecs |
| `Service.RejectedTokenYieldsNoSubject` | src/test/java/JwtServiceTest.java:33-37 | when the parser rejects `"invalid.token.value"`, decoding reports an invalid-token error and never a subject |
| `Service.DecodeGeneratedToken` | src/main/java/digital/josef/jwtsecurity/JwtService.java:49-72 | decoding a freshly generated token returns the subject parameter, under the round-trip assumption. The verification time must not be after the expiry in whole seconds, and a caller-supplied `nbf`, given in seconds whose milliseconds fit in a `long`, must already have passed |
| `Service.GeneratedClaimsRoundTrip` | src/test/java/JwtServiceTest.java:22-31 | for any strong-keyed service, claims from `generateClaims(id)` with subject `id` produce a token that decodes to `id`, under the round-trip assumption |
| `Service.TestSecretIsStrong` | src/test/java/JwtServiceTest.java:17 | the test suite's 32-character secret yields a valid HS256 key |
| `Service.LongSecretIsStrong` | src/main/java/digital/josef/jwtsecurity/JwtService.java:38-40 | any secret of at least 32 characters yields a key |
| `Service.GenerateThenDecodeUser123` | src/test/java/JwtServiceTest.java:21-31 | the test scenario: claims from `generateClaims("user123")`, subject `"user123"` and the test secret; the token is generated and decodes to `"user123"` |
| `Aspect.TokenOf` | src/main/java/digital/josef/jwtsecurity/JwtAspect.java:56 | the string handed to the decoder is what follows the prefix: `header == "Bearer " + token` |
| `Aspect.Decide` | src/main/java/digital/josef/jwtsecurity/JwtAspect.java:49-64 | exactly one of two outcomes. Authorized happens iff the header is present, starts with `"Bearer "` and the decoder accepts the rest, and carries the decoder's subject. Rejected always has status 401. Its message is "Missing or invalid Authorization header" exactly when the prefix test fails, and "Invalid token" otherwise |
| `Aspect.AttributesAfter` | src/main/java/digital/josef/jwtsecurity/JwtAspect.java:60 | only `"id"` can change. It is set to the subject on success, removed for a `null` subject, and left alone on rejection; every other attribute is kept |
| `Aspect.DecoderInputs` | src/main/java/digital/josef/jwtsecurity/JwtAspect.java:56-59 | the decoder is asked about at most one token. It is asked exactly when the prefix test passes, and the token is the header without the prefix |
| `Aspect.Request.SetAttribute` | src/main/java/digital/josef/jwtsecurity/JwtAspect.java:60 | `setAttribute(name, v)` stores `v`, or removes `name` when `v` is `null`; no other attribute changes |
| `Aspect.JwtAspect.constructor` | src/main/java/digital/josef/jwtsecurity/JwtAspect.java:36-39 | the advice holds the decoder and the request it was given |
| `Aspect.JwtAspect.CheckJwt` | src/main/java/digital/josef/jwtsecurity/JwtAspect.java:49-64 | the outcome is `Decide`'s and the new attributes are `AttributesAfter`'s. The decoder is called with the stripped token exactly when the prefix test passes, and it is not called otherwise |
| `Aspect.JwtAspect.Before` | src/main/java/digital/josef/jwtsecurity/JwtAspect.java:48 | the advice runs only for operations marked `@AuthRequired`, and then with `CheckJwt`'s outcome, attributes and decoder log. For the others, the attributes and the decoder log are unchanged |
| `Aspect.MissingHeaderRejected` | src/main/java/digital/josef/jwtsecurity/JwtAspect.java:50-53 | with no header, every decoder gives the rejection "Missing or invalid Authorization header" |
| `Aspect.PrefixIsCaseSensitive` | src/main/java/digital/josef/jwtsecurity/JwtAspect.java:52-53 | `"bearer …"` and `"Bearer"` without the space are rejected like a missing header |
| `Aspect.TokenIsRestOfHeader` | src/main/java/digital/josef/jwtsecurity/JwtAspect.java:56 | `"Bearer " + t` passes the prefix test and strips back to exactly `t` |
| `Aspect.ErrorTextNotPropagated` | src/main/java/digital/josef/jwtsecurity/JwtAspect.java:58-62 | any two decoders that fail on the token give the same rejection, "Invalid token", whatever their errors |
| `Aspect.DecisionDependsOnlyOnToken` | src/main/java/digital/josef/jwtsecurity/JwtAspect.java:56-59 | decoders that agree on the stripped token give the same outcome |
| `Aspect.IssuedTokenAuthorizes` | src/main/java/digital/josef/jwtsecurity/JwtAspect.java:49-64 | end to end: `"Bearer "` plus a token just issued by a strong-keyed service authorizes the request with that token's subject (under the round-trip assumption) |

## Left out

- The jjwt library is only the opaque `Codec`: HMAC-SHA256, base64url, JSON, signature comparison and the parser's `exp`/`nbf` checks. Tamper sensitivity, rejection under a different key and rejection after expiry are properties of that library code. The model neither proves nor assumes them. Its only assumption is `RoundTripLaw`. So the rejection of malformed input such as `"invalid.token.value"` is stated only for a codec that rejects it (`Service.RejectedTokenYieldsNoSubject`).
- `Service.BuildClaims` gives `iat` and `exp` in milliseconds, before jjwt truncates them to whole seconds. The truncation appears only in the expiry condition of `RoundTripLaw` (`WholeSecondMillis`).
- `Service.DecodeGeneratedToken`, `Service.GeneratedClaimsRoundTrip` and `Aspect.IssuedTokenAuthorizes` cover only a caller-supplied `nbf` given as a number of seconds whose value times 1000 fits in a `long`. How the parser reads back an `nbf` of another kind, such as a date serialised as milliseconds, is not modelled.
- `Service.SubjectOf`: a non-string `sub` is rendered with `Render`, and a date-valued one is rendered as its milliseconds. `Date.toString` formatting is not modelled. A parsed token never holds a date object.
- Reading the clock (`System.currentTimeMillis`) is not modelled. The two readings, and the verification time, are parameters.
- Dafny's `string` cannot be `null`, so the `null` inputs are left out. These are what they do in the code:
  - With no configured secret, `getSigningKey` throws a `NullPointerException`.
  - A `null` subject makes jjwt's `setSubject` remove `sub`, including a caller-supplied one. The token then decodes to `null`, and `checkJwt` authorizes the request with `"id"` removed.
  - A `null` claims map fails jjwt's argument check with an `IllegalArgumentException`.
- The key's JCA algorithm name, which `Keys.hmacShaKeyFor` picks from the key length, is not modelled. Only the key's bytes matter to signing with HS256.
- Unpaired UTF-16 surrogates in the secret are not modelled. Java encodes them as `?`, and Dafny strings cannot hold them.
- Header lookup by name is not modelled. The servlet container matches the name case-insensitively and returns the first value. The model receives that value, or `None`.
- The request's other attributes are modelled as strings. Only their preservation is stated.
- Spring AOP wiring (`AopConfig`, `JwtAutoConfiguration`), the `AuthRequired` annotation and the `JwtProperties` bean are not part of this model. The annotation check appears only as the boolean parameter of `JwtAspect.Before`.
- `Service.Value` covers strings, integers, booleans and dates only. Fractional numbers, lists and nested maps are not modelled. A caller's `Map<String, Object>` or a parsed token may hold them, but no proof involves those claims.
- Request scoping and concurrent requests are not modelled. Each `Request` object is one request's state.
