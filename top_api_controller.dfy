/**
 * The ApiController of the top-level plib/ tree: strict credential
 * validation, the OAuth callback under the extension's base URL, and a
 * refresh failure that is meant to clear the stored token.
 */
module TopApiController {
  import opened PhpRuntime
  import opened JsonCodec
  import opened SettingsStore
  import opened GoogleAuth

  const ErrClientId: string := "Invalid Client ID"
  const ErrClientSecret: string := "Invalid Client Secret"
  const ErrRedirectUri: string := "Invalid Redirect URI"

  /** `empty($v) || !is_string($v)`. */
  predicate NotAString(v: Scalar)
  {
    EmptyScalar(v) || !v.PStr?
  }

  /**
   * The three checks of saveCredentials in their order; `validUrl` stands
   * for `filter_var(..., FILTER_VALIDATE_URL)` applied to the URI's text.
   */
  function CredentialError(id: Scalar, secret: Scalar, uri: Scalar, validUrl: string -> bool): (e: Option<string>)
    ensures e == Some(ErrClientId) <==> NotAString(id)
    ensures e == Some(ErrClientSecret) <==> !NotAString(id) && NotAString(secret)
    ensures e == Some(ErrRedirectUri) <==> !NotAString(id) && !NotAString(secret) && (EmptyScalar(uri) || !validUrl(ScalarText(uri)))
    ensures e.None? <==> id.PStr? && secret.PStr? && !EmptyString(id.s) && !EmptyString(secret.s)
                         && !EmptyScalar(uri) && validUrl(ScalarText(uri))
  {
    if NotAString(id) then Some(ErrClientId)
    else if NotAString(secret) then Some(ErrClientSecret)
    else if EmptyScalar(uri) || !validUrl(ScalarText(uri)) then Some(ErrRedirectUri)
    else None
  }

  /** The thrown \Error: the catch block calls a method the class does not define. */
  const UndefinedClearToken: string := "Call to undefined method PleskExt\\GDriveAutoBackups\\ApiController::clearToken()"

  /** How a call of createGoogleClient ends: a client, an \Exception, or an \Error no `catch (\Exception)` stops. */
  datatype ClientOutcome = Built(client: GoogleClient) | Threw(message: string) | Fatal(message: string)

  /** The outcome of createGoogleClient together with the store it leaves. */
  datatype ClientStep = ClientStep(outcome: ClientOutcome, store: map<string, string>)

  /** `pm_Context::getBaseUrl() . 'oauth2callback.php'`. */
  function OAuthRedirect(baseUrl: string): string
  {
    baseUrl + "oauth2callback.php"
  }

  /** The prompt this copy asks for, to force a refresh token. */
  const Prompt: string := "consent"

  /** The first steps of createGoogleClient in this copy. */
  function ClientBeforeRefresh(m: map<string, string>, baseUrl: string): Result<GoogleClient>
  {
    InitialClient(m, OAuthRedirect(baseUrl), Prompt)
  }

  /** Whether createGoogleClient asks for a refresh: a token was set and the client finds it expired. */
  predicate RefreshAttempted(m: map<string, string>, baseUrl: string, expired: bool)
  {
    ClientBeforeRefresh(m, baseUrl).Ok? && ClientBeforeRefresh(m, baseUrl).value.accessToken.Some? && expired
  }

  /** createGoogleClient as written: a failed refresh reaches the call to the undefined clearToken. */
  function CreateClientAsWritten(m: map<string, string>, baseUrl: string, expired: bool, refresh: RefreshReply): (s: ClientStep)
    ensures CredentialsMissing(m) ==> s == ClientStep(Threw(ErrCredentialsNotConfigured), m)
    ensures RefreshAttempted(m, baseUrl, expired) && refresh.RefreshFailed? ==> s == ClientStep(Fatal(UndefinedClearToken), m)
    ensures RefreshAttempted(m, baseUrl, expired) && refresh.Refreshed? ==>
              s.outcome.Built? && s.outcome.client.accessToken == Some(refresh.token) && s.store == m[KeyAccessToken := Quote(refresh.token)]
    ensures !CredentialsMissing(m) && !RefreshAttempted(m, baseUrl, expired) ==> s == ClientStep(Built(ClientBeforeRefresh(m, baseUrl).value), m)
  {
    match ClientBeforeRefresh(m, baseUrl)
    case Thrown(e) => ClientStep(Threw(e), m)
    case Ok(c) =>
      if c.accessToken.None? || !expired then ClientStep(Built(c), m)
      else match refresh
        case Refreshed(t) => ClientStep(Built(c.(accessToken := Some(t))), m[KeyAccessToken := Quote(t)])
        case RefreshFailed(_) => ClientStep(Fatal(UndefinedClearToken), m)
  }

  /**
   * createGoogleClient with clearToken defined as the comment beside the
   * call says: the stored token is emptied so that the user reconnects; the
   * client is still returned.
   */
  function CreateClient(m: map<string, string>, baseUrl: string, expired: bool, refresh: RefreshReply): (s: ClientStep)
    ensures !s.outcome.Fatal?
    ensures CredentialsMissing(m) ==> s == ClientStep(Threw(ErrCredentialsNotConfigured), m)
    ensures RefreshAttempted(m, baseUrl, expired) && refresh.RefreshFailed? ==>
              s == ClientStep(Built(ClientBeforeRefresh(m, baseUrl).value), m[KeyAccessToken := ""])
    ensures RefreshAttempted(m, baseUrl, expired) && refresh.Refreshed? ==>
              s.outcome.Built? && s.outcome.client.accessToken == Some(refresh.token) && s.store == m[KeyAccessToken := Quote(refresh.token)]
    ensures !CredentialsMissing(m) && !RefreshAttempted(m, baseUrl, expired) ==> s == ClientStep(Built(ClientBeforeRefresh(m, baseUrl).value), m)
  {
    match ClientBeforeRefresh(m, baseUrl)
    case Thrown(e) => ClientStep(Threw(e), m)
    case Ok(c) =>
      if c.accessToken.None? || !expired then ClientStep(Built(c), m)
      else match refresh
        case Refreshed(t) => ClientStep(Built(c.(accessToken := Some(t))), m[KeyAccessToken := Quote(t)])
        case RefreshFailed(_) => ClientStep(Built(c), m[KeyAccessToken := ""])
  }

  /**
   * The defect as written: with credentials set, a stored token the client
   * finds expired and a refresh that throws, createGoogleClient ends in an
   * \Error rather than an \Exception.
   */
  lemma {:induction false} RefreshFailureIsFatal(m: map<string, string>, baseUrl: string, reason: string)
    requires !CredentialsMissing(m) && TokenPresent(m)
    ensures CreateClientAsWritten(m, baseUrl, true, RefreshFailed(reason)).outcome == Fatal(UndefinedClearToken)
  {
    assert RefreshAttempted(m, baseUrl, true);
  }

  /** One concrete store on which that happens: every connected site whose token expires and cannot be refreshed. */
  lemma {:induction false} RefreshFailureWitness()
    ensures CreateClientAsWritten(map[KeyClientId := "id", KeyClientSecret := "secret", KeyAccessToken := Quote("ya29")],
                                  "/modules/gdrive-autobackups/", true, RefreshFailed("invalid_grant")).outcome.Fatal?
  {
    var m := map[KeyClientId := "id", KeyClientSecret := "secret", KeyAccessToken := Quote("ya29")];
    TokenRoundTrip(map[KeyClientId := "id", KeyClientSecret := "secret"], "ya29");
    assert m == map[KeyClientId := "id", KeyClientSecret := "secret"][KeyAccessToken := Quote("ya29")];
    RefreshFailureIsFatal(m, "/modules/gdrive-autobackups/", "invalid_grant");
  }

  /**
   * The corrected call: the same failed refresh returns a client and
   * empties the stored token, so the next client is built without one and
   * only the token key changed.
   */
  lemma {:induction false} RefreshFailureDisconnects(m: map<string, string>, baseUrl: string, reason: string)
    requires !CredentialsMissing(m) && TokenPresent(m)
    ensures CreateClient(m, baseUrl, true, RefreshFailed(reason)).outcome.Built?
    ensures CreateClient(m, baseUrl, true, RefreshFailed(reason)).store == m[KeyAccessToken := ""]
    ensures GetToken(CreateClient(m, baseUrl, true, RefreshFailed(reason)).store).None?
    ensures ClientBeforeRefresh(CreateClient(m, baseUrl, true, RefreshFailed(reason)).store, baseUrl).Ok?
    ensures ClientBeforeRefresh(CreateClient(m, baseUrl, true, RefreshFailed(reason)).store, baseUrl).value.accessToken.None?
  {
    assert RefreshAttempted(m, baseUrl, true);
    ClearedTokenIsNotLoaded(m, OAuthRedirect(baseUrl), Prompt);
    assert GetCredentials(m[KeyAccessToken := ""]) == GetCredentials(m);
  }

  /** The correction changes nothing but the failed-refresh case. */
  lemma {:induction false} CorrectionIsLocal(m: map<string, string>, baseUrl: string, expired: bool, refresh: RefreshReply)
    requires !(RefreshAttempted(m, baseUrl, expired) && refresh.RefreshFailed?)
    ensures CreateClient(m, baseUrl, expired, refresh) == CreateClientAsWritten(m, baseUrl, expired, refresh)
  {
  }

  /** A successful refresh is saved, and the next client built from the store carries the new token. */
  lemma {:induction false} RefreshedTokenPersists(m: map<string, string>, baseUrl: string, t: string)
    requires !CredentialsMissing(m) && TokenPresent(m) && !EmptyString(t)
    ensures ClientBeforeRefresh(CreateClient(m, baseUrl, true, Refreshed(t)).store, baseUrl).Ok?
    ensures ClientBeforeRefresh(CreateClient(m, baseUrl, true, Refreshed(t)).store, baseUrl).value.accessToken == Some(t)
  {
    assert RefreshAttempted(m, baseUrl, true);
    SavedTokenIsLoaded(m, t, OAuthRedirect(baseUrl), Prompt);
  }

  class ApiController {
    const pm: Store
    /** `pm_Context::getBaseUrl()`. */
    const baseUrl: string

    constructor (store: Store, base: string)
      ensures pm == store && baseUrl == base
    {
      pm, baseUrl := store, base;
    }

    /** saveCredentials: rejects before any write, else writes the three credential keys. */
    method SaveCredentials(id: Scalar, secret: Scalar, uri: Scalar, validUrl: string -> bool) returns (r: Result<bool>)
      modifies pm
      ensures CredentialError(id, secret, uri, validUrl).Some? ==>
                r == Thrown(CredentialError(id, secret, uri, validUrl).value) && pm.data == old(pm.data)
      ensures CredentialError(id, secret, uri, validUrl).None? ==>
                r == Ok(true) && pm.data == WriteCredentials(old(pm.data), id.s, secret.s, ScalarText(uri))
    {
      var e := CredentialError(id, secret, uri, validUrl);
      if e.Some? {
        return Thrown(e.value);
      }
      pm.Set(KeyClientId, id.s);
      pm.Set(KeyClientSecret, secret.s);
      pm.Set(KeyRedirectUri, ScalarText(uri));
      r := Ok(true);
    }

    /** saveToken: the token is stored as its JSON text. */
    method SaveToken(t: string)
      modifies pm
      ensures pm.data == old(pm.data)[KeyAccessToken := Quote(t)]
      ensures GetToken(pm.data) == Some(t)
    {
      pm.Set(KeyAccessToken, Quote(t));
      TokenRoundTrip(old(pm.data), t);
    }

    /** createGoogleClient as the file has it. */
    method CreateGoogleClientAsWritten(expired: bool, refresh: RefreshReply) returns (o: ClientOutcome)
      modifies pm
      ensures ClientStep(o, pm.data) == CreateClientAsWritten(old(pm.data), baseUrl, expired, refresh)
    {
      var c := ClientBeforeRefresh(pm.data, baseUrl);
      if c.Thrown? {
        return Threw(c.message);
      }
      var client := c.value;
      if client.accessToken.Some? && expired {
        match refresh
        case Refreshed(t) =>
          client := client.(accessToken := Some(t));
          SaveToken(t);
        case RefreshFailed(_) =>
          return Fatal(UndefinedClearToken);
      }
      o := Built(client);
    }

    /** createGoogleClient with the stored token cleared on a failed refresh; the rest of the model uses this one. */
    method CreateGoogleClient(expired: bool, refresh: RefreshReply) returns (r: Result<GoogleClient>)
      modifies pm
      ensures CreateClient(old(pm.data), baseUrl, expired, refresh).store == pm.data
      ensures CreateClient(old(pm.data), baseUrl, expired, refresh).outcome ==
                match r case Ok(c) => Built(c) case Thrown(e) => Threw(e)
    {
      r := ClientBeforeRefresh(pm.data, baseUrl);
      if r.Thrown? {
        return;
      }
      var client := r.value;
      if client.accessToken.Some? && expired {
        match refresh
        case Refreshed(t) =>
          client := client.(accessToken := Some(t));
          SaveToken(t);
        case RefreshFailed(_) =>
          pm.Set(KeyAccessToken, "");
      }
      r := Ok(client);
    }
  }
}
