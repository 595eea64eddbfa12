/**
  The mock service's optional API-key gate: with a key configured, every request outside a
  small allow-list must present that key, in `X-API-Key` or as a bearer token.
*/
module Auth {
  import opened Wrappers
  import opened Strings

  /** Routes that stay open even when a key is set. */
  const AllowPaths: set<string> := {"/", "/health", "/docs", "/openapi.json", "/stats"}
  const AssetsPrefix := "/docs-assets/"
  const BearerPrefix := "bearer "

  /** The parts of a request the gate reads; `None` is an absent header. */
  datatype Request = Request(path: string, apiKeyHeader: Option<string>, authorization: Option<string>)

  /**
    What the gate does with a request: let it through, answer with an error response, or fail
    with the `TypeError` that `secrets.compare_digest` raises for text outside ASCII.
  */
  datatype Verdict = Through | Denied(status: nat, error: string, wwwAuthenticate: string) | Raised

  /** `401 {"error": "Unauthorized"}` with `WWW-Authenticate: Bearer`. */
  const Unauthorized := Denied(401, "Unauthorized", "Bearer")

  /** `install_api_key_auth`: a gate is installed only for a non-empty key. */
  predicate Installed(apiKey: Option<string>) {
    apiKey.Some? && apiKey.value != []
  }

  /** Paths the gate never checks. */
  predicate Open(path: string) {
    path in AllowPaths || StartsWith(path, AssetsPrefix)
  }

  predicate Ascii(s: string) {
    forall i :: 0 <= i < |s| ==> s[i] as int < 128
  }

  /**
    The credential a request offers: `X-API-Key` when it is non-empty; otherwise the rest of an
    `Authorization` header whose first seven characters read "bearer " in any case, stripped;
    otherwise whatever `X-API-Key` held. Only ASCII letters lower-case into "bearer ", so the
    ASCII `Lower` decides the prefix exactly.
  */
  function Credential(rq: Request): (r: Option<string>)
    ensures rq.apiKeyHeader.Some? && rq.apiKeyHeader.value != [] ==> r == rq.apiKeyHeader
    ensures r.Some? && r.value != [] && r != rq.apiKeyHeader ==>
      var auth := rq.authorization.GetOr("");
      |auth| >= 7 && Lower(auth[..7]) == BearerPrefix && r.value == Trim(auth[7..])
  {
    var provided := rq.apiKeyHeader;
    if provided.Some? && provided.value != [] then provided
    else
      var auth := rq.authorization.GetOr("");
      BearerSchemeAt(auth);
      if StartsWith(Lower(auth), BearerPrefix) then Some(Trim(auth[7..])) else provided
  }

  /** `auth.lower().startswith("bearer ")` looks at the first seven characters only. */
  lemma BearerSchemeAt(auth: string)
    ensures StartsWith(Lower(auth), BearerPrefix) <==> |auth| >= 7 && Lower(auth[..7]) == BearerPrefix
  {
    if |auth| >= 7 {
      LowerPrefix(auth, 7);
    }
  }

  lemma LowerPrefix(s: string, n: nat)
    requires n <= |s|
    ensures Lower(s)[..n] == Lower(s[..n])
  {
  }

  /**
    `_require_api_key`: open paths pass; otherwise a missing or empty credential is refused, and
    a present one passes exactly when `compare_digest` finds it equal to the key.
  */
  function Gate(apiKey: Option<string>, rq: Request): (r: Verdict)
    ensures !Installed(apiKey) || Open(rq.path) ==> r == Through
    ensures r.Denied? ==> r == Unauthorized
    ensures r == Through <==>
      !Installed(apiKey) || Open(rq.path) || (Ascii(apiKey.value) && Credential(rq) == Some(apiKey.value))
    ensures r.Raised? <==>
      && Installed(apiKey) && !Open(rq.path) && Credential(rq).Some? && Credential(rq).value != []
      && (!Ascii(Credential(rq).value) || !Ascii(apiKey.value))
  {
    if !Installed(apiKey) then Through
    else if Open(rq.path) then Through
    else
      var provided := Credential(rq);
      if provided.None? || provided.value == [] then Unauthorized
      else if !Ascii(provided.value) || !Ascii(apiKey.value) then Raised
      else if provided.value == apiKey.value then Through
      else Unauthorized
  }

  /** A bearer token in any spelling of the scheme, padded or not, is read back as sent. */
  lemma BearerRoundTrip(scheme: string, token: string, pad: string)
    requires |scheme| == 7 && Lower(scheme) == BearerPrefix
    requires token != [] && !IsSpace(token[0]) && !IsSpace(token[|token| - 1])
    requires forall i :: 0 <= i < |pad| ==> IsSpace(pad[i])
    ensures Credential(Request("", None, Some(scheme + (pad + token)))) == Some(token)
  {
    PaddedToken(pad, token);
    SchemeThenRest(scheme, pad + token);
    CredentialBearer(Request("", None, Some(scheme + (pad + token))));
  }

  /** Without an `X-API-Key`, a bearer header offers its stripped remainder. */
  lemma CredentialBearer(rq: Request)
    requires rq.apiKeyHeader.None? && rq.authorization.Some?
    requires StartsWith(Lower(rq.authorization.value), BearerPrefix)
    ensures Credential(rq) == Some(Trim(rq.authorization.value[7..]))
  {
  }

  lemma SchemeThenRest(scheme: string, rest: string)
    requires |scheme| == 7 && Lower(scheme) == BearerPrefix
    ensures StartsWith(Lower(scheme + rest), BearerPrefix) && (scheme + rest)[7..] == rest
  {
    var auth := scheme + rest;
    assert auth[..7] == scheme;
    BearerSchemeAt(auth);
  }

  lemma PaddedToken(pad: string, token: string)
    requires token != [] && !IsSpace(token[0]) && !IsSpace(token[|token| - 1])
    requires forall i :: 0 <= i < |pad| ==> IsSpace(pad[i])
    ensures Trim(pad + token) == token
  {
    TrimIgnoresPadding(pad, token, "");
    assert pad + token + "" == pad + token;
    TrimOfTrimmed(token);
  }

  /** On a protected route the key passes in `X-API-Key`. */
  lemma KeyInHeader(apiKey: string, path: string)
    requires apiKey != [] && Ascii(apiKey) && !Open(path)
    ensures Gate(Some(apiKey), Request(path, Some(apiKey), None)) == Through
  {
  }

  /** On a protected route the key passes as a bearer token, whatever the scheme's case. */
  lemma KeyAsBearer(apiKey: string, path: string, scheme: string)
    requires apiKey != [] && Ascii(apiKey) && !Open(path)
    requires !IsSpace(apiKey[0]) && !IsSpace(apiKey[|apiKey| - 1])
    requires |scheme| == 7 && Lower(scheme) == BearerPrefix
    ensures Gate(Some(apiKey), Request(path, None, Some(scheme + apiKey))) == Through
  {
    var rq := Request(path, None, Some(scheme + apiKey));
    SchemeThenRest(scheme, apiKey);
    TrimOfTrimmed(apiKey);
    CredentialBearer(rq);
    assert Credential(rq) == Some(apiKey);
  }

  /** A protected route refuses a request with neither header. */
  lemma NoCredentialRefused(apiKey: string, path: string)
    requires apiKey != [] && !Open(path)
    ensures Gate(Some(apiKey), Request(path, None, None)) == Unauthorized
  {
    assert Credential(Request(path, None, None)) == None by {
      BearerSchemeAt("");
    }
  }

  /** With the key "secret" the health probe is open. */
  lemma HealthOpenExample()
    ensures Gate(Some("secret"), Request("/health", None, None)) == Through
  {
  }

  lemma UsersProtected()
    ensures !Open("/users")
  {
    assert "/users" != "/" && "/users" != "/health" && "/users" != "/docs";
    assert "/users" != "/openapi.json" && "/users" != "/stats";
  }

  /** With the key "secret", `/users` without a credential is refused. */
  lemma UsersRefusedExample()
    ensures Gate(Some("secret"), Request("/users", None, None)) == Unauthorized
  {
    UsersProtected();
    NoCredentialRefused("secret", "/users");
  }

  /** With the key "secret", `/users` with "Authorization: Bearer secret" goes through. */
  lemma UsersBearerExample()
    ensures Gate(Some("secret"), Request("/users", None, Some("Bearer secret"))) == Through
  {
    var key := "secret";
    UsersProtected();
    assert key[0] == 's' && key[|key| - 1] == 't';
    assert Ascii(key);
    CapitalBearer();
    assert "Bearer " + key == "Bearer secret";
    KeyAsBearer(key, "/users", "Bearer ");
  }

  lemma CapitalBearer()
    ensures Lower("Bearer ") == BearerPrefix
  {
    var l := Lower("Bearer ");
    assert l[0] == 'b' && l[1] == 'e' && l[2] == 'a' && l[3] == 'r';
    assert l[4] == 'e' && l[5] == 'r' && l[6] == ' ';
  }

  /** An empty `X-API-Key` header counts as no header: the bearer token still decides. */
  lemma EmptyHeaderIsAbsent(apiKey: Option<string>, rq: Request)
    requires rq.apiKeyHeader == Some("")
    ensures Gate(apiKey, rq) == Gate(apiKey, rq.(apiKeyHeader := None))
  {
  }
}
