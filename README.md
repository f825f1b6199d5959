# oauth2-twitter in Dafny

A model of the Twitter/X provider adapter for the League OAuth2 client. The adapter lets the generic authorization-code flow
talk to Twitter/X, and this project models what the adapter itself adds to that flow:

- **PKCE** (RFC 7636). The provider creates a random code verifier lazily and caches it for the life of the object.
  It derives the S256 challenge `BASE64URL(SHA256(verifier))` from it. It injects `code_challenge` and
  `code_challenge_method=S256` into the authorization options when the caller gave no challenge.
- **Client authentication** (RFC 7617). The token request gets `Authorization: Basic base64(clientId ":" clientSecret)`.
- **Response handling.** `checkResponse` lets status 200 through and turns any other status into a provider error
  built from the body. `fetchResourceOwnerDetails` refuses a parsed profile that is not an array.
- **The resource owner.** It unwraps the `data` envelope once, offers four direct accessors, a defensive
  `getResponseValue` and `toArray`.

Modules:

- `Wrappers`: Option, Result and Outcome.
- `Php`: decoded JSON values, `isset`, `??`, and byte strings.
- `Base64`: standard base64 (section 4 of RFC 4648) and a decoder that inverts it.
- `Pkce`: base64url without padding, the verifier alphabet and the S256 challenge.
- `Http`: a request's header map and PSR-7 `withHeader`.
- `TwitterProvider`: the `Twitter` class.
- `TwitterResourceOwner`: the resource owner.

How the source's foreign parts appear in the model:

- **SHA-256** is a value of type `Sha256 = string -> Digest` (32 octets), held by the provider object. Nothing is assumed
  about it beyond its output length.
- **RandomLib** is a nondeterministic choice. The length is drawn from [43, 128], then that many characters are drawn
  from the source's 66-character alphabet.
- **PHP arrays** are `map<string, Value>`. An integer key is written as its decimal text.
- **PHP strings** are Dafny strings with one character per byte. `Octets` gives their bytes for base64.
- **Requests** carry a verb, a URI, a header map and a body. Responses are a status and a parsed body.

Where the code and its written description differ, the model follows the code:

- **A JSON list passes the profile guard.** `is_array` holds for a PHP list, so `fetchResourceOwnerDetails` only refuses
  scalars and null (`FetchResourceOwnerDetailsExamples`).
- **A missing profile field is not an exception in PHP.** `$this->response['id']` with no such key is a PHP warning
  ("Undefined array key") and evaluates to null. The model returns `Err(UndefinedKey(key))` so the failure stays
  visible. `GetResponseValue` returns `Null` for the same key.
- **A null challenge counts as absent.** "Supplied" means `isset`, so a `code_challenge` present with value null is
  replaced, and `code_challenge_method` is forced to S256.
- **A non-numeric code never reaches the caller.** `checkResponse` passes the body's `code` on as it is, for example
  "invalid_grant" for a 401 (`CheckResponseExamples`). PHP's `Exception` constructor takes an `int` code, so that
  throw fails with a `TypeError` instead of the provider exception. The model states the arguments the code passes.
- **A non-array `data` is stored as-is.** The constructor keeps whatever value `data` holds. A scalar there makes the
  direct accessors and `toArray` fail (`NotAnArray`) and every defensive read null.

## Model

| member | source | states |
|---|---|---|
| `Base64.Encode` | src/Provider/Twitter.php:163 | base64 output is 4·⌈n/3⌉ characters |
| `Base64.EncodeLayout` | src/Provider/Twitter.php:163 | the first ⌈4n/3⌉ characters are alphabet characters and the rest are `=` padding |
| `Base64.DecodeEncode` | src/Provider/Twitter.php:69 | decoding gives back exactly the encoded octets |
| `Base64.EncodeTestVectors` | src/Provider/Twitter.php:69 | the one-group test vectors of section 10 of RFC 4648: "", "f", "fo", "foo" encode to "", "Zg==", "Zm8=", "Zm9v" |
| `Base64.EncodeTwoGroupTestVectors` | src/Provider/Twitter.php:69 | the two-group vectors of the same section: "foob", "fooba", "foobar" encode to "Zm9vYg==", "Zm9vYmE=", "Zm9vYmFy" |
| `Pkce.VerifierAlphabetIsUnreserved` | src/Provider/Twitter.php:178 | the verifier alphabet has 66 characters and is exactly RFC 7636's `unreserved` set |
| `Pkce.VerifierIsCodeVerifier` | src/Provider/Twitter.php:173-180 | every generated verifier is 43 to 128 unreserved characters, a valid `code-verifier` |
| `Pkce.RTrim` | src/Provider/Twitter.php:163 | rtrim keeps a prefix, leaves no trailing `=`, and removes only `=` characters |
| `Pkce.ToUrlAlphabet` | src/Provider/Twitter.php:163 | strtr keeps the length, leaves no `+` or `/`, maps every standard base64 character into `[A-Za-z0-9_-]`, keeps `=`, and is undone by the reverse translation on text without `-` or `_` |
| `Pkce.Base64UrlEncode` | src/Provider/Twitter.php:161-164 | base64Urlencode(x) is base64(x) with `+`→`-`, `/`→`_` and exactly its trailing padding removed; ⌈4n/3⌉ characters, all from `[A-Za-z0-9_-]` |
| `Pkce.Base64UrlRoundTrip` | src/Provider/Twitter.php:161-164 | re-padding and decoding the URL-safe text gives back the input octets |
| `Pkce.Base64UrlEncodeTestVector` | src/Provider/Twitter.php:161-164 | octets 251, 255 give base64 "+/8=" and base64url "-_8" |
| `Pkce.PkceChallenge` | src/Provider/Twitter.php:188-191 | every challenge is 43 characters, meets the `code-challenge` syntax, and decodes to SHA256(verifier) |
| `Pkce.PkceChallengeInjective` | src/Provider/Twitter.php:191 | two verifiers share a challenge iff their digests agree |
| `Http.WithHeader` | src/Provider/Twitter.php:71 | withHeader leaves one header of that name in any case, with the new value; other headers, verb, URI and body are unchanged |
| `TwitterProvider.AugmentAuthorizationParameters` | src/Provider/Twitter.php:54-57 | without a set `code_challenge`: adds the challenge and `code_challenge_method=S256` and keeps every other key; with one: options unchanged |
| `TwitterProvider.AugmentIsIdempotent` | src/Provider/Twitter.php:54-57 | augmenting already-augmented options changes nothing |
| `TwitterProvider.BasicAuthorization` | src/Provider/Twitter.php:69-71 | the header is `Basic ` plus a token that decodes to the octets of clientId ":" clientSecret |
| `TwitterProvider.CredentialsSplitAtFirstColon` | src/Provider/Twitter.php:69 | when the client id has no colon, splitting the user-pass at its first colon gives back id and secret |
| `TwitterProvider.CheckResponse` | src/Provider/Twitter.php:138-148 | passes iff status is 200; otherwise message = error_description or '', code = body code or status, payload = body |
| `TwitterProvider.CheckResponseExamples` | src/Provider/Twitter.php:140-147 | 200 with a non-JSON body passes; a 401 body's description and code, and an empty 500 body's fallbacks `''` and 500, are the arguments passed to the exception; a null code falls back to the status |
| `TwitterProvider.FetchResourceOwnerDetails` | src/Provider/Twitter.php:101-107 | succeeds iff the parsed profile is an array, and then returns it unchanged |
| `TwitterProvider.FetchResourceOwnerDetailsExamples` | src/Provider/Twitter.php:101-107 | a JSON list is accepted; a string or null is refused |
| `TwitterProvider.Twitter.constructor` | src/Provider/Twitter.php:25 | a new provider holds its credentials (PHP byte strings) and hash, with no verifier yet |
| `TwitterProvider.Twitter.GeneratePkceVerifier` | src/Provider/Twitter.php:173-180 | the generated verifier has length in [43, 128] and only alphabet characters |
| `TwitterProvider.Twitter.GetPkceVerifier` | src/Provider/Twitter.php:32-39 | returns the cached verifier, generating and storing one only when none is set; once set it is never changed |
| `TwitterProvider.Twitter.GeneratePkceChallenge` | src/Provider/Twitter.php:188-192 | the challenge of the passed verifier, or else of the cached one (created on demand); an existing cache is unchanged |
| `TwitterProvider.Twitter.GetAuthorizationParameters` | src/Provider/Twitter.php:52-60 | a caller challenge leaves options and cache untouched; otherwise the result is the augmentation with the challenge of the verifier now cached |
| `TwitterProvider.Twitter.GetAccessTokenRequest` | src/Provider/Twitter.php:65-72 | sets the single `Authorization: Basic …` header, replacing any previous one in any case, and changes nothing else |
| `TwitterProvider.AuthorizationUsesOneVerifier` | src/Provider/Twitter.php:32-60 | two authorization requests without a challenge carry the same S256 challenge, that of the verifier the provider then holds |
| `Php.Coalesce` | src/Provider/TwitterResourceOwner.php:19 | `??` on an array: the value when the key is set, otherwise the default, so null only when the default is |
| `Php.CoalesceOffset` | src/Provider/Twitter.php:144-145 | `??` on an offset of any value: the array's set value, otherwise the default |
| `TwitterResourceOwner.ResourceOwner.Lookup` | src/Provider/TwitterResourceOwner.php:25-43 | `$this->response[$key]` yields the stored value (null included) iff the key is present; otherwise "Undefined array key", or a non-array failure |
| `TwitterResourceOwner.NewResourceOwner` | src/Provider/TwitterResourceOwner.php:17-20 | stores `raw['data']` when set, else the empty array |
| `TwitterResourceOwner.ResourceOwner.GetId` | src/Provider/TwitterResourceOwner.php:25-28 | succeeds iff `id` is a key of the stored array, returning its value |
| `TwitterResourceOwner.ResourceOwner.GetName` | src/Provider/TwitterResourceOwner.php:30-33 | succeeds iff `name` is a key of the stored array, returning its value |
| `TwitterResourceOwner.ResourceOwner.GetUsername` | src/Provider/TwitterResourceOwner.php:35-38 | succeeds iff `username` is a key of the stored array, returning its value |
| `TwitterResourceOwner.ResourceOwner.GetProfileImageUrl` | src/Provider/TwitterResourceOwner.php:40-43 | succeeds iff `profile_image_url` is a key of the stored array, returning its value |
| `TwitterResourceOwner.ResourceOwner.ToArray` | src/Provider/TwitterResourceOwner.php:48-51 | returns the stored array exactly |
| `TwitterResourceOwner.ResourceOwner.GetResponseValue` | src/Provider/TwitterResourceOwner.php:53-56 | non-null iff the key is set in the stored array, and then its stored value |
| `TwitterResourceOwner.NoDataEnvelope` | src/Provider/TwitterResourceOwner.php:19 | without `data`: toArray is empty, every defensive read is null, every direct read fails |
| `TwitterResourceOwner.UnwrapsDataEnvelope` | src/Provider/TwitterResourceOwner.php:19 | with a `data` array m: toArray is m and each defensive read is m's value or null |
| `TwitterResourceOwner.AccessorsAgreeWithResponseValue` | src/Provider/TwitterResourceOwner.php:25-56 | a non-null defensive read equals the typed accessor's value, and conversely |
| `TwitterResourceOwner.ExampleProfile` | src/Provider/TwitterResourceOwner.php:17-51 | a typical profile response wrapped in `data` yields "42", "Ada", "ada", "http://x/y.png" and toArray is the inner object |

The resource owner is an immutable datatype, so no operation other than its construction can write `response`.
The challenge is a function of the verifier, so it is determined by the verifier.

## Left out

- The League `AbstractProvider` calls are outside the model. That covers `parent::getAuthorizationParameters`,
  `parent::getAccessTokenRequest`, `getAuthenticatedRequest`, `getParsedResponse` and `BearerAuthorizationTrait`. The model
  takes their results as parameters and covers only the adapter's pre- and post-processing.
- The endpoint URLs, default scopes and scope separator (src/Provider/Twitter.php:44-47, 77-88, 113-128) are constants
  with nothing to state.
- The `http_build_query` profile URL (src/Provider/Twitter.php:95) is PHP's own encoder and is not modelled.
- `createResourceOwner` (src/Provider/Twitter.php:153-156) is a direct call of the constructor, which `NewResourceOwner` models.
- SHA-256 and RandomLib are foreign code. The model holds them as a hash value and a nondeterministic choice, so it
  says nothing about the verifier's randomness or strength.
- TwitterProvider.CheckResponse: states the arguments `checkResponse` passes to the exception, not the exception PHP
  ends up throwing. League's `IdentityProviderException` hands the message and code to PHP's
  `Exception(string $message, int $code)`, which is foreign. A code that is neither an integer nor a numeric string
  (such as "invalid_grant", or an array), or a message that is an array, raises a `TypeError` there instead. A
  numeric-string code such as "401" becomes the integer 401. src/Provider/Exception/TwitterIdentityProviderException.php
  adds nothing beyond those fields.
- The order of PHP array keys is not modelled, because `map` has none. So the model does not say in which order
  `toArray` lists the keys. It also does not say where the authorization step places `code_challenge` and
  `code_challenge_method` (at the end, unless a null entry for the key already held its place).
- A PHP string offset `"abc"['0']` on a non-array `data` value is not modelled. It is read as an unset offset.
  The keys `checkResponse` reads are non-numeric, so it is exact there.
- Floating-point JSON numbers are not a `Value` case.
- Guzzle's trimming and validation of header names and values in `withHeader` are not modelled.
- The source never sends the verifier at the token exchange (`code_verifier`). The model shows only what the source does.
- Concurrent first access to the lazy verifier is not modelled. PHP runs one request per process, and the source has no guard.
