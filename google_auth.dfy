/**
 * What both copies of ApiController share: the three credential keys and
 * the access token in the settings store, and the Google client built
 * from them before any token refresh. The client library itself is not
 * modelled; a client is the record of what was set on it.
 */
module GoogleAuth {
  import opened PhpRuntime
  import opened JsonCodec
  import opened SettingsStore

  datatype Credentials = Credentials(clientId: string, clientSecret: string, redirectUri: string)

  /** getCredentials: the stored values, '' for any key never set. */
  function GetCredentials(m: map<string, string>): Credentials
  {
    Credentials(Lookup(m, KeyClientId, ""), Lookup(m, KeyClientSecret, ""), Lookup(m, KeyRedirectUri, ""))
  }

  /** The store after the three writes of saveCredentials. */
  function WriteCredentials(m: map<string, string>, id: string, secret: string, uri: string): map<string, string>
  {
    m[KeyClientId := id][KeyClientSecret := secret][KeyRedirectUri := uri]
  }

  /** getCredentials after saveCredentials returns what was saved; nothing but the three keys changes. */
  lemma {:induction false} CredentialsRoundTrip(m: map<string, string>, id: string, secret: string, uri: string)
    ensures GetCredentials(WriteCredentials(m, id, secret, uri)) == Credentials(id, secret, uri)
    ensures WriteCredentials(m, id, secret, uri).Keys == m.Keys + {KeyClientId, KeyClientSecret, KeyRedirectUri}
    ensures forall k :: k in m && k != KeyClientId && k != KeyClientSecret && k != KeyRedirectUri
                        ==> WriteCredentials(m, id, secret, uri)[k] == m[k]
  {
  }

  /** Credentials never saved read back as three empty strings, on an empty store and on the installed defaults. */
  lemma {:induction false} CredentialsDefault()
    ensures GetCredentials(map[]) == Credentials("", "", "")
    ensures GetCredentials(InstallDefaults) == Credentials("", "", "")
  {
  }

  /** getToken: null for an empty stored string, else the decoded token (null when it does not decode). */
  function GetToken(m: map<string, string>): (t: Option<string>)
    ensures EmptyString(Lookup(m, KeyAccessToken, "")) ==> t.None?
  {
    var s := Lookup(m, KeyAccessToken, "");
    if EmptyString(s) then None else DecodeString(s)
  }

  /** getToken after saveToken(t) gives t back. */
  lemma {:induction false} TokenRoundTrip(m: map<string, string>, t: string)
    ensures GetToken(m[KeyAccessToken := Quote(t)]) == Some(t)
  {
    DecodeStringRoundTrip(t);
  }

  /** `!empty($token)` on what getToken returned. */
  predicate TokenPresent(m: map<string, string>)
  {
    GetToken(m).Some? && !EmptyString(GetToken(m).value)
  }

  const ErrCredentialsNotConfigured: string := "Google API credentials not configured"

  /** The guard of createGoogleClient: client id or client secret empty. */
  predicate CredentialsMissing(m: map<string, string>)
  {
    EmptyString(GetCredentials(m).clientId) || EmptyString(GetCredentials(m).clientSecret)
  }

  /** What createGoogleClient has set on the client it returns. */
  datatype GoogleClient = GoogleClient(clientId: string, clientSecret: string, redirectUri: string,
                                       prompt: string, accessToken: Option<string>)

  /** What the token endpoint answers to fetchAccessTokenWithRefreshToken: a new token, or an exception. */
  datatype RefreshReply = Refreshed(token: string) | RefreshFailed(message: string)

  /**
   * createGoogleClient up to the expiry check: the guard, the stored
   * credentials, and the stored token when it is not empty.
   */
  function InitialClient(m: map<string, string>, redirectUri: string, prompt: string): (r: Result<GoogleClient>)
    ensures r.Thrown? <==> CredentialsMissing(m)
    ensures r.Thrown? ==> r.message == ErrCredentialsNotConfigured
    ensures r.Ok? ==> r.value.clientId == GetCredentials(m).clientId && r.value.clientSecret == GetCredentials(m).clientSecret
    ensures r.Ok? ==> r.value.redirectUri == redirectUri && r.value.prompt == prompt
    ensures r.Ok? ==> (r.value.accessToken.Some? <==> TokenPresent(m))
    ensures r.Ok? && TokenPresent(m) ==> r.value.accessToken == GetToken(m)
  {
    if CredentialsMissing(m) then Thrown(ErrCredentialsNotConfigured)
    else
      var c := GetCredentials(m);
      Ok(GoogleClient(c.clientId, c.clientSecret, redirectUri, prompt, if TokenPresent(m) then GetToken(m) else None))
  }

  /** A token saved by saveToken is loaded into the next client built from the store. */
  lemma {:induction false} SavedTokenIsLoaded(m: map<string, string>, t: string, redirectUri: string, prompt: string)
    requires !CredentialsMissing(m) && !EmptyString(t)
    ensures InitialClient(m[KeyAccessToken := Quote(t)], redirectUri, prompt).Ok?
    ensures InitialClient(m[KeyAccessToken := Quote(t)], redirectUri, prompt).value.accessToken == Some(t)
  {
    TokenRoundTrip(m, t);
    assert GetCredentials(m[KeyAccessToken := Quote(t)]) == GetCredentials(m);
  }

  /** With the stored token emptied, the next client carries no token. */
  lemma {:induction false} ClearedTokenIsNotLoaded(m: map<string, string>, redirectUri: string, prompt: string)
    ensures !TokenPresent(m[KeyAccessToken := ""])
    ensures InitialClient(m[KeyAccessToken := ""], redirectUri, prompt).Ok? ==>
              InitialClient(m[KeyAccessToken := ""], redirectUri, prompt).value.accessToken.None?
  {
  }
}
