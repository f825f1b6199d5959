/** The Twitter/X provider adapter: the PKCE state it keeps, the parameters
    and headers it adds around the generic authorization-code flow, and the
    checks it applies to the server's responses. */
module TwitterProvider {
  import opened Wrappers
  import opened Php
  import opened Http
  import opened Pkce
  import Base64

  /** The arguments `checkResponse` passes to the identity-provider
      exception's constructor: message, code and the response body. */
  datatype ProviderError = ProviderError(message: Value, code: Value, payload: Value)

  /** The `UnexpectedValueException` raised for a profile that is not an array. */
  datatype UnexpectedValue = UnexpectedValue(message: string)

  const CodeChallenge: string := "code_challenge"
  const CodeChallengeMethod: string := "code_challenge_method"
  const AuthorizationHeader: string := "Authorization"

  /** The authorization options after the provider's PKCE step: a caller's
      challenge is left alone; otherwise `challenge` is injected with method
      S256, replacing whatever was there, and every other option is kept. */
  function AugmentAuthorizationParameters(options: map<string, Value>, challenge: string): (r: map<string, Value>)
    ensures Isset(options, CodeChallenge) ==> r == options
    ensures !Isset(options, CodeChallenge) ==>
      && r.Keys == options.Keys + {CodeChallenge, CodeChallengeMethod}
      && r[CodeChallenge] == Str(challenge)
      && r[CodeChallengeMethod] == Str("S256")
    ensures forall k | k in options && k != CodeChallenge && k != CodeChallengeMethod :: k in r && r[k] == options[k]
    ensures Isset(r, CodeChallenge)
  {
    if Isset(options, CodeChallenge) then options
    else options[CodeChallenge := Str(challenge)][CodeChallengeMethod := Str("S256")]
  }

  /** Augmenting twice changes nothing more: the injected challenge counts as
      one the caller supplied. */
  lemma AugmentIsIdempotent(options: map<string, Value>, c1: string, c2: string)
    ensures AugmentAuthorizationParameters(AugmentAuthorizationParameters(options, c1), c2)
         == AugmentAuthorizationParameters(options, c1)
  {
  }

  /** The `Authorization` header value of section 2 of RFC 7617 for the
      client's credentials. A server reading it gets the scheme "Basic " and,
      from its base64 token, exactly the octets of clientId ":" clientSecret. */
  function BasicAuthorization(clientId: string, clientSecret: string): (h: string)
    requires IsByteString(clientId) && IsByteString(clientSecret)
    ensures IsByteString(clientId + ":" + clientSecret)
    ensures |h| >= 6 && h[..6] == "Basic "
    ensures Base64.Decode(h[6..]) == Some(Octets(clientId + ":" + clientSecret))
  {
    var u := clientId + ":" + clientSecret;
    assert IsByteString(u);
    Base64.DecodeEncode(Octets(u));
    var h := "Basic " + Base64.Encode(Octets(u));
    assert h[6..] == Base64.Encode(Octets(u));
    h
  }

  /** The position of the first ':' (octet 58) in a user-pass. */
  function FirstColon(b: seq<byte>): (r: Option<nat>)
    ensures r.Some? ==> r.value < |b| && b[r.value] == 58 && 58 !in b[..r.value]
    ensures r.None? ==> 58 !in b
  {
    if b == [] then None
    else if b[0] == 58 then Some(0)
    else match FirstColon(b[1..])
      case None => None
      case Some(i) => assert b[..i + 1] == [b[0]] + b[1..][..i]; Some(i + 1)
  }

  /** When the client id has no colon, splitting the decoded user-pass at its
      first colon gives back the client id and the client secret. */
  lemma {:induction false} CredentialsSplitAtFirstColon(clientId: string, clientSecret: string)
    requires IsByteString(clientId) && IsByteString(clientSecret)
    requires ':' !in clientId
    ensures IsByteString(clientId + ":" + clientSecret)
    ensures var u := Octets(clientId + ":" + clientSecret);
      && FirstColon(u) == Some(|clientId|)
      && u[..|clientId|] == Octets(clientId)
      && u[|clientId| + 1..] == Octets(clientSecret)
  {
    var s := clientId + ":" + clientSecret;
    assert IsByteString(s);
    var u := Octets(s);
    assert 58 !in u[..|clientId|] by {
      forall i | 0 <= i < |clientId|
        ensures u[i] != 58
      {
        assert s[i] == clientId[i] && s[i] != ':';
      }
    }
    assert u[|clientId|] == 58;
  }

  /** `checkResponse`: status 200 passes whatever the body; any other status
      fails with the body's error_description (or '') as message, its code
      (or the status) as code, and the body itself as payload. */
  function CheckResponse(status: int, data: Value): (r: Outcome<ProviderError>)
    ensures r.Pass? <==> status == 200
    ensures r.Fail? ==> r.error.payload == data
    ensures r.Fail? && data.Arr? && Isset(data.entries, "error_description") ==>
      r.error.message == data.entries["error_description"]
    ensures r.Fail? && !(data.Arr? && Isset(data.entries, "error_description")) ==>
      r.error.message == Str("")
    ensures r.Fail? && data.Arr? && Isset(data.entries, "code") ==> r.error.code == data.entries["code"]
    ensures r.Fail? && !(data.Arr? && Isset(data.entries, "code")) ==> r.error.code == Int(status)
  {
    if status == 200 then Pass
    else
      var error := CoalesceOffset(data, "error_description", Str(""));
      var code := CoalesceOffset(data, "code", Int(status));
      Fail(ProviderError(error, code, data))
  }

  /** The guard of `fetchResourceOwnerDetails` on the parsed profile: an
      array is returned as it is, anything else raises. */
  function FetchResourceOwnerDetails(parsed: Value): (r: Result<map<string, Value>, UnexpectedValue>)
    ensures r.Ok? <==> parsed.Arr?
    ensures r.Ok? ==> r.value == parsed.entries
  {
    if parsed.Arr? then Ok(parsed.entries)
    else Err(UnexpectedValue("Invalid response received from Authorization Server. Expected JSON."))
  }

  /** Expected classifications: a 200 passes whatever the body; other
      statuses carry the body's fields, or the fallbacks, as the arguments
      `checkResponse` hands to the exception constructor (a non-integer code
      such as "invalid_grant" is what PHP would then refuse); a null `code`
      falls back to the status. */
  lemma CheckResponseExamples()
    ensures CheckResponse(200, Str("<html>")) == Pass
    ensures var body := Arr(map["error_description" := Str("bad token"), "code" := Str("invalid_grant")]);
      CheckResponse(401, body) == Fail(ProviderError(Str("bad token"), Str("invalid_grant"), body))
    ensures CheckResponse(500, Arr(map[])) == Fail(ProviderError(Str(""), Int(500), Arr(map[])))
    ensures CheckResponse(400, Arr(map["code" := Null])).error.code == Int(400)
  {
  }

  /** A JSON list decodes to a PHP array and so passes the guard; a bare
      string does not. */
  lemma FetchResourceOwnerDetailsExamples()
    ensures FetchResourceOwnerDetails(Arr(map["0" := Int(1), "1" := Int(2)])).Ok?
    ensures FetchResourceOwnerDetails(Str("Expected JSON")).Err?
    ensures FetchResourceOwnerDetails(Null).Err?
  {
  }

  class Twitter {
    const clientId: string
    const clientSecret: string
    /** The hash the provider's `hash('SHA256', ..., true)` computes. */
    const sha256: Sha256
    /** Unset until the verifier is first asked for. */
    var pkceVerifier: Option<string>

    /** The credentials are PHP strings, and a cached verifier is one the
        provider generated. */
    ghost predicate Valid()
      reads this
    {
      && IsByteString(clientId) && IsByteString(clientSecret)
      && (pkceVerifier.Some? ==> IsPkceVerifier(pkceVerifier.value))
    }

    constructor (clientId: string, clientSecret: string, sha256: Sha256)
      requires IsByteString(clientId) && IsByteString(clientSecret)
      ensures this.clientId == clientId && this.clientSecret == clientSecret && this.sha256 == sha256
      ensures pkceVerifier == None
      ensures Valid()
    {
      this.clientId := clientId;
      this.clientSecret := clientSecret;
      this.sha256 := sha256;
      pkceVerifier := None;
    }

    /** A fresh random verifier: a length drawn from [43, 128], then that many
        characters drawn from VerifierAlphabet. */
    method GeneratePkceVerifier() returns (v: string)
      ensures IsPkceVerifier(v)
    {
      var length :| 43 <= length <= 128;
      assert VerifierAlphabet[0] == '0';
      assert IsPkceVerifier(seq(length, _ => '0'));
      v :| |v| == length && IsPkceVerifier(v);
    }

    /** The cached verifier, generated on the first call only. */
    method GetPkceVerifier() returns (v: string)
      requires Valid()
      modifies this
      ensures Valid()
      ensures pkceVerifier == Some(v) && IsPkceVerifier(v)
      ensures old(pkceVerifier).Some? ==> v == old(pkceVerifier).value
    {
      if pkceVerifier.None? {
        var generated := GeneratePkceVerifier();
        pkceVerifier := Some(generated);
      }
      v := pkceVerifier.value;
    }

    /** The challenge of a passed verifier, or else of the cached one. */
    method GeneratePkceChallenge(passedVerifier: Option<string>) returns (c: string)
      requires Valid()
      modifies this
      ensures Valid()
      ensures passedVerifier.Some? ==>
        c == PkceChallenge(sha256, passedVerifier.value) && pkceVerifier == old(pkceVerifier)
      ensures passedVerifier.None? ==>
        pkceVerifier.Some? && c == PkceChallenge(sha256, pkceVerifier.value)
      ensures old(pkceVerifier).Some? ==> pkceVerifier == old(pkceVerifier)
    {
      var verifier: string;
      if passedVerifier.Some? {
        verifier := passedVerifier.value;
      } else {
        verifier := GetPkceVerifier();
      }
      c := Base64UrlEncode(sha256(verifier));
    }

    /** The options handed on to the generic authorization step. A verifier
        is created only when a challenge has to be injected. */
    method GetAuthorizationParameters(options: map<string, Value>) returns (r: map<string, Value>)
      requires Valid()
      modifies this
      ensures Valid()
      ensures Isset(options, CodeChallenge) ==> r == options && pkceVerifier == old(pkceVerifier)
      ensures !Isset(options, CodeChallenge) ==>
        pkceVerifier.Some? && r == AugmentAuthorizationParameters(options, PkceChallenge(sha256, pkceVerifier.value))
      ensures old(pkceVerifier).Some? ==> pkceVerifier == old(pkceVerifier)
    {
      r := options;
      if !Isset(options, CodeChallenge) {
        var challenge := GeneratePkceChallenge(None);
        r := r[CodeChallenge := Str(challenge)];
        r := r[CodeChallengeMethod := Str("S256")];
      }
    }

    /** The token request with the client's Basic credentials set as its one
        Authorization header; nothing else about the request changes. */
    function GetAccessTokenRequest(request: Request): (r: Request)
      requires IsByteString(clientId) && IsByteString(clientSecret)
      ensures r.verb == request.verb && r.uri == request.uri && r.body == request.body
      ensures AuthorizationHeader in r.headers
      ensures r.headers[AuthorizationHeader] == [BasicAuthorization(clientId, clientSecret)]
      ensures forall k | k in r.headers && SameHeaderName(k, AuthorizationHeader) :: k == AuthorizationHeader
      ensures forall k | !SameHeaderName(k, AuthorizationHeader) ::
        (k in r.headers <==> k in request.headers) && (k in r.headers ==> r.headers[k] == request.headers[k])
    {
      WithHeader(request, AuthorizationHeader, BasicAuthorization(clientId, clientSecret))
    }
  }

  /** Two authorization requests without a caller challenge carry the same
      challenge, the one derived from the verifier the provider then holds. */
  method AuthorizationUsesOneVerifier(t: Twitter, options1: map<string, Value>, options2: map<string, Value>)
    returns (params1: map<string, Value>, params2: map<string, Value>, verifier: string)
    requires t.Valid()
    requires !Isset(options1, CodeChallenge) && !Isset(options2, CodeChallenge)
    modifies t
    ensures t.Valid() && t.pkceVerifier == Some(verifier)
    ensures CodeChallenge in params1 && CodeChallenge in params2
    ensures CodeChallengeMethod in params1 && CodeChallengeMethod in params2
    ensures params1[CodeChallenge] == params2[CodeChallenge] == Str(PkceChallenge(t.sha256, verifier))
    ensures params1[CodeChallengeMethod] == params2[CodeChallengeMethod] == Str("S256")
  {
    params1 := t.GetAuthorizationParameters(options1);
    params2 := t.GetAuthorizationParameters(options2);
    verifier := t.GetPkceVerifier();
  }
}
