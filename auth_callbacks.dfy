/** The next-auth callbacks: where to send the browser after sign-in, and what the session carries. */
module AuthCallbacks {
  import opened Common
  import opened Text

  const CheckUserPath := "/api/auth/callback/check-user"

  /**
   * The `redirect` callback: the check-user callback path passes through as
   * it is; otherwise a url on this site is kept, a relative path is put
   * under `baseUrl`, and anything else is replaced by `baseUrl`.
   */
  function Redirect(url: string, baseUrl: string): (r: string)
    ensures StartsWith(url, CheckUserPath) ==> r == url
    ensures !StartsWith(url, CheckUserPath) ==> StartsWith(r, baseUrl)
    ensures !StartsWith(url, CheckUserPath) && StartsWith(url, baseUrl) ==> r == url
    ensures !StartsWith(url, CheckUserPath) && !StartsWith(url, baseUrl) && StartsWith(url, "/") ==> r == baseUrl + url
    ensures !StartsWith(url, CheckUserPath) && !StartsWith(url, baseUrl) && !StartsWith(url, "/") ==> r == baseUrl
  {
    if StartsWith(url, CheckUserPath) then url
    else if StartsWith(url, baseUrl) then url
    else if StartsWith(url, "/") then
      StartsWithConcat(baseUrl, url);
      baseUrl + url
    else
      assert baseUrl[..|baseUrl|] == baseUrl;
      baseUrl
  }

  /** The result is either the url itself or a url under `baseUrl`. */
  lemma RedirectStaysOnSite(url: string, baseUrl: string)
    ensures var r := Redirect(url, baseUrl); r == url || StartsWith(r, baseUrl)
  {
  }

  /** Redirecting an already redirected url changes nothing. */
  lemma RedirectIdempotent(url: string, baseUrl: string)
    ensures Redirect(Redirect(url, baseUrl), baseUrl) == Redirect(url, baseUrl)
  {
    var r := Redirect(url, baseUrl);
    if !StartsWith(r, CheckUserPath) {
      assert StartsWith(r, baseUrl);
    }
  }

  /** The user record the database adapter hands to the session callback. */
  datatype AdapterUser = AdapterUser(id: nat, role: string)

  /** The `user` object of a session, whose fields the callback sets. */
  class SessionUserObject {
    var name: Option<string>
    var email: Option<string>
    var id: Option<nat>
    var role: Option<string>

    constructor (name: Option<string>, email: Option<string>)
      ensures this.name == name && this.email == email && id.None? && role.None?
    {
      this.name, this.email, id, role := name, email, None, None;
    }
  }

  class SessionObject {
    var user: SessionUserObject?
    var expires: string

    constructor (user: SessionUserObject?, expires: string)
      ensures this.user == user && this.expires == expires
    {
      this.user, this.expires := user, expires;
    }
  }

  /**
   * The `session` callback: when the session has a user, the adapter user's
   * id and role are written into it; the same session object is returned.
   */
  method SessionCallback(session: SessionObject, user: AdapterUser) returns (r: SessionObject)
    modifies session.user
    ensures r == session
    ensures session.user == old(session.user) && session.expires == old(session.expires)
    ensures session.user != null ==>
              && session.user.id == Some(user.id) && session.user.role == Some(user.role)
              && session.user.name == old(session.user.name) && session.user.email == old(session.user.email)
  {
    if session.user != null {
      session.user.id := Some(user.id);
      session.user.role := Some(user.role);
    }
    return session;
  }
}
