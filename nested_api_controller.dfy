/**
 * The ApiController of the Plesk-GDrive-AutoBackups/ tree: one combined
 * emptiness check on the credentials, the stored redirect URI, and a
 * refresh failure that propagates to the caller.
 */
module NestedApiController {
  import opened PhpRuntime
  import opened JsonCodec
  import opened SettingsStore
  import opened GoogleAuth

  const ErrFieldsRequired: string := "All API credential fields are required"

  /** saveCredentials' single check: any of the three empty. */
  function CredentialError(id: Scalar, secret: Scalar, uri: Scalar): (e: Option<string>)
    ensures e.Some? <==> EmptyScalar(id) || EmptyScalar(secret) || EmptyScalar(uri)
    ensures e.Some? ==> e.value == ErrFieldsRequired
  {
    if EmptyScalar(id) || EmptyScalar(secret) || EmptyScalar(uri) then Some(ErrFieldsRequired) else None
  }

  /** The prompt this copy asks for. */
  const Prompt: string := "select_account consent"

  /** The first steps of createGoogleClient in this copy: the redirect URI is the stored one. */
  function ClientBeforeRefresh(m: map<string, string>): Result<GoogleClient>
  {
    InitialClient(m, GetCredentials(m).redirectUri, Prompt)
  }

  /**
   * createGoogleClient with its store: a failed refresh is not caught, so
   * the call throws that exception and the store is left as it was.
   */
  function CreateClient(m: map<string, string>, expired: bool, refresh: RefreshReply): (r: (Result<GoogleClient>, map<string, string>))
    ensures CredentialsMissing(m) ==> r == (Thrown(ErrCredentialsNotConfigured), m)
    ensures r.0.Ok? ==> r.0.value.redirectUri == GetCredentials(m).redirectUri && r.0.value.prompt == Prompt
    ensures !CredentialsMissing(m) && TokenPresent(m) && expired && refresh.RefreshFailed? ==> r == (Thrown(refresh.message), m)
    ensures !CredentialsMissing(m) && TokenPresent(m) && expired && refresh.Refreshed? ==>
              r.0.Ok? && r.0.value.accessToken == Some(refresh.token) && r.1 == m[KeyAccessToken := Quote(refresh.token)]
    ensures !CredentialsMissing(m) && !(TokenPresent(m) && expired) ==> r == (ClientBeforeRefresh(m), m)
  {
    match ClientBeforeRefresh(m)
    case Thrown(e) => (Thrown(e), m)
    case Ok(c) =>
      if c.accessToken.None? || !expired then (Ok(c), m)
      else match refresh
        case Refreshed(t) => (Ok(c.(accessToken := Some(t))), m[KeyAccessToken := Quote(t)])
        case RefreshFailed(e) => (Thrown(e), m)
  }

  /** A successful refresh is saved, and the next client built from the store carries the new token. */
  lemma {:induction false} RefreshedTokenPersists(m: map<string, string>, t: string)
    requires !CredentialsMissing(m) && TokenPresent(m) && !EmptyString(t)
    ensures ClientBeforeRefresh(CreateClient(m, true, Refreshed(t)).1).Ok?
    ensures ClientBeforeRefresh(CreateClient(m, true, Refreshed(t)).1).value.accessToken == Some(t)
  {
    var m' := m[KeyAccessToken := Quote(t)];
    assert GetCredentials(m') == GetCredentials(m);
    SavedTokenIsLoaded(m, t, GetCredentials(m).redirectUri, Prompt);
  }

  class ApiController {
    const pm: Store

    constructor (store: Store)
      ensures pm == store
    {
      pm := store;
    }

    /** saveCredentials: rejects before any write, else writes the three values as text. */
    method SaveCredentials(id: Scalar, secret: Scalar, uri: Scalar) returns (r: Result<bool>)
      modifies pm
      ensures CredentialError(id, secret, uri).Some? ==> r == Thrown(ErrFieldsRequired) && pm.data == old(pm.data)
      ensures CredentialError(id, secret, uri).None? ==>
                r == Ok(true) && pm.data == WriteCredentials(old(pm.data), ScalarText(id), ScalarText(secret), ScalarText(uri))
    {
      if CredentialError(id, secret, uri).Some? {
        return Thrown(ErrFieldsRequired);
      }
      pm.Set(KeyClientId, ScalarText(id));
      pm.Set(KeyClientSecret, ScalarText(secret));
      pm.Set(KeyRedirectUri, ScalarText(uri));
      r := Ok(true);
    }

    /** saveToken: the token is stored as its JSON text. */
    method SaveToken(t: string)
      modifies pm
      ensures pm.data == old(pm.data)[KeyAccessToken := Quote(t)]
      ensures GetToken(pm.data) == Some(t)
    {
      pm.Set(KeyAccessToken, Quote(t));
      TokenRoundTrip(old(pm.data), t);
    }

    /** createGoogleClient: the refresh exception reaches the caller. */
    method CreateGoogleClient(expired: bool, refresh: RefreshReply) returns (r: Result<GoogleClient>)
      modifies pm
      ensures (r, pm.data) == CreateClient(old(pm.data), expired, refresh)
    {
      r := ClientBeforeRefresh(pm.data);
      if r.Thrown? {
        return;
      }
      var client := r.value;
      if client.accessToken.Some? && expired {
        match refresh
        case Refreshed(t) =>
          client := client.(accessToken := Some(t));
          SaveToken(t);
        case RefreshFailed(e) =>
          return Thrown(e);
      }
      r := Ok(client);
    }
  }
}
