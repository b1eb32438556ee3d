/** The session cookie and the request guards (lib/auth.ts). The cookie holds the
    signed-in account's id, username, name and role as base64url-encoded UTF-8 JSON,
    with no signature; every guarded request decodes it and then looks the username
    up again, so what the guard trusts is the directory's current record, not the
    cookie's claims. */
module Auth {
  import opened Types
  import opened Json
  import Utf8
  import Base64Url
  import Permissions
  import Directory

  /** The members `decodeSession` checks on the parsed cookie, as parsed: any JSON
      value, each of them truthy. The role is not checked against the known roles. */
  datatype Claims = Claims(id: Value, username: Value, name: Value, role: Value)

  /** The members `JSON.stringify` writes for a session, in the order the session
      objects are built. */
  function SessionMembers(s: SessionUser): seq<(string, string)> {
    [("id", s.id), ("username", s.username), ("name", s.name), ("role", RoleText(s.role))]
  }

  /** `encodeSession`. */
  function EncodeSession(s: SessionUser): (token: string)
    ensures token != []
    ensures forall i :: 0 <= i < |token| ==> Base64Url.ValueOf(token[i]).Some? && token[i] !in "+/="
  {
    var text := StringifyObject(SessionMembers(s));
    Base64Url.Encode(Utf8.Encode(text))
  }

  /** `parsed?.username`, `parsed?.role`, `parsed?.id`, `parsed?.name` all truthy:
      only an object can have them. */
  function ClaimsOf(v: Value): (c: Option<Claims>)
    ensures c.Some? ==> v.JObject?
    ensures c.Some? ==> Truthy(c.value.id) && Truthy(c.value.username) &&
                        Truthy(c.value.name) && Truthy(c.value.role)
    ensures c.Some? ==> && Get(v.members, "id") == Some(c.value.id)
                        && Get(v.members, "username") == Some(c.value.username)
                        && Get(v.members, "name") == Some(c.value.name)
                        && Get(v.members, "role") == Some(c.value.role)
  {
    if !v.JObject? then None
    else match (Get(v.members, "id"), Get(v.members, "username"), Get(v.members, "name"), Get(v.members, "role"))
      case (Some(i), Some(u), Some(n), Some(r)) =>
        if Truthy(i) && Truthy(u) && Truthy(n) && Truthy(r) then Some(Claims(i, u, n, r)) else None
      case _ => None
  }

  /** `decodeSession`: `raw` is the cookie's value, absent as `None`. A value that is
      not base64url, not UTF-8 or not JSON never makes it throw: the decoders are
      lenient and a JSON syntax error is caught, both giving `None`. */
  function DecodeSession(raw: Option<string>): (c: Option<Claims>)
    ensures raw.None? || raw == Some("") ==> c.None?
    ensures c.Some? ==> raw.Some? && raw.value != ""
    ensures c.Some? ==> Truthy(c.value.id) && Truthy(c.value.username) &&
                        Truthy(c.value.name) && Truthy(c.value.role)
  {
    if raw.None? || raw.value == "" then None
    else match Parse(Utf8.Decode(Base64Url.Decode(raw.value)))
      case None => None
      case Some(v) => ClaimsOf(v)
  }

  /** The parsed form of a written session. */
  function ClaimsFor(s: SessionUser): Claims {
    Claims(JString(s.id), JString(s.username), JString(s.name), JString(RoleText(s.role)))
  }

  lemma GetSessionMembers(s: SessionUser)
    ensures var ms := StringMembers(SessionMembers(s));
      && Get(ms, "id") == Some(JString(s.id))
      && Get(ms, "username") == Some(JString(s.username))
      && Get(ms, "name") == Some(JString(s.name))
      && Get(ms, "role") == Some(JString(RoleText(s.role)))
  {
    var ms := StringMembers(SessionMembers(s));
    assert ms == [("id", JString(s.id)), ("username", JString(s.username)),
                  ("name", JString(s.name)), ("role", JString(RoleText(s.role)))];
    assert ms[..3] == [("id", JString(s.id)), ("username", JString(s.username)), ("name", JString(s.name))];
    assert ms[..3][..2] == [("id", JString(s.id)), ("username", JString(s.username))];
    assert ms[..3][..2][..1] == [("id", JString(s.id))];
  }

  /** The cookie's text decodes to the object that was written. */
  lemma TokenReadsBack(s: SessionUser)
    ensures Parse(Utf8.Decode(Base64Url.Decode(EncodeSession(s)))) ==
      Some(JObject(StringMembers(SessionMembers(s))))
  {
    var text := StringifyObject(SessionMembers(s));
    Base64Url.DecodeEncode(Utf8.Encode(text));
    Utf8.DecodeEncode(text);
    ParseStringifyObject(SessionMembers(s));
  }

  /** A cookie written for a session reads back as that session's claims exactly when
      its id, username and name are non-empty; otherwise it is refused. */
  lemma DecodeEncodeSession(s: SessionUser)
    ensures s.id != "" && s.username != "" && s.name != "" ==>
      DecodeSession(Some(EncodeSession(s))) == Some(ClaimsFor(s))
    ensures s.id == "" || s.username == "" || s.name == "" ==>
      DecodeSession(Some(EncodeSession(s))) == None
  {
    var raw := EncodeSession(s);
    TokenReadsBack(s);
    assert DecodeSession(Some(raw)) == ClaimsOf(JObject(StringMembers(SessionMembers(s))));
    ClaimsOfSession(s);
  }

  lemma ClaimsOfSession(s: SessionUser)
    ensures ClaimsOf(JObject(StringMembers(SessionMembers(s)))) ==
      if s.id != "" && s.username != "" && s.name != "" then Some(ClaimsFor(s)) else None
  {
    var ms := StringMembers(SessionMembers(s));
    GetSessionMembers(s);
    var i, u, n, r := JString(s.id), JString(s.username), JString(s.name), JString(RoleText(s.role));
    ClaimsOfMembers(ms, i, u, n, r);
    assert Truthy(r);
    if s.id != "" && s.username != "" && s.name != "" {
      assert Truthy(i) && Truthy(u) && Truthy(n);
    } else {
      assert !(Truthy(i) && Truthy(u) && Truthy(n));
    }
  }

  /** An object whose four members are found reads as their claims exactly when all
      four are truthy. */
  lemma ClaimsOfMembers(ms: seq<(string, Value)>, i: Value, u: Value, n: Value, r: Value)
    requires Get(ms, "id") == Some(i) && Get(ms, "username") == Some(u)
    requires Get(ms, "name") == Some(n) && Get(ms, "role") == Some(r)
    ensures ClaimsOf(JObject(ms)) ==
      if Truthy(i) && Truthy(u) && Truthy(n) && Truthy(r) then Some(Claims(i, u, n, r)) else None
  {
  }

  /** `normalizeSession`: `directory` answers `getUserByUsername`. A username that is
      not a JSON string matches no account. */
  function NormalizeSession(claims: Option<Claims>, directory: string -> Option<PublicUser>): (r: Option<SessionUser>)
    ensures r.Some? <==> claims.Some? && claims.value.username.JString?
                         && directory(claims.value.username.s).Some?
    ensures r.Some? ==> var u := directory(claims.value.username.s).value;
      r.value == SessionUser(u.id, u.username, u.name, u.role)
  {
    if claims.None? || !claims.value.username.JString? then None
    else match directory(claims.value.username.s)
      case None => None
      case Some(u) => Some(SessionUser(u.id, u.username, u.name, u.role))
  }

  /** `getVerifiedRequestSession` (and `getServerSession`) for the cookie value `raw`. */
  function VerifiedSession(raw: Option<string>, directory: string -> Option<PublicUser>): Option<SessionUser> {
    NormalizeSession(DecodeSession(raw), directory)
  }

  /** What a guard lets through: the verified session, or an error response. */
  datatype Gate = Granted(session: SessionUser) | Denied(status: nat, error: string)

  /** `requireRequestSession`. */
  function RequireSession(verified: Option<SessionUser>): (g: Gate)
    ensures g.Granted? <==> verified.Some?
    ensures g.Granted? ==> g.session == verified.value
    ensures g.Denied? ==> g == Denied(401, "Unauthorized")
  {
    if verified.None? then Denied(401, "Unauthorized") else Granted(verified.value)
  }

  /** `requireAdminRequestSession`: a missing session is refused before the role is
      looked at. */
  function RequireAdmin(verified: Option<SessionUser>): (g: Gate)
    ensures g.Granted? <==> verified.Some? && Permissions.IsAdmin(verified.value.role)
    ensures g.Granted? ==> g.session == verified.value
    ensures verified.None? ==> g == Denied(401, "Unauthorized")
    ensures verified.Some? && !Permissions.IsAdmin(verified.value.role) ==> g == Denied(403, "Forbidden")
  {
    match RequireSession(verified)
    case Denied(status, error) => Denied(status, error)
    case Granted(s) => if Permissions.IsAdmin(s.role) then Granted(s) else Denied(403, "Forbidden")
  }

  /** The guard trusts only the directory: two cookies naming the same username give
      the same verified session, whatever id, name or role they claim. */
  lemma ClaimedRoleIgnored(c1: Claims, c2: Claims, directory: string -> Option<PublicUser>)
    requires c1.username == c2.username
    ensures NormalizeSession(Some(c1), directory) == NormalizeSession(Some(c2), directory)
  {
  }

  /** The directory the in-memory store answers with. */
  function MemoryDirectory(users: seq<StoredUser>): string -> Option<PublicUser> {
    (name: string) => Directory.Lookup(users, name)
  }

  /** A cookie written at login lets its holder through as long as the account
      exists, with the account's current role, and not once it has been deleted; the
      admin guard admits it exactly while that role is Admin. */
  lemma LoginCookieFollowsDirectory(s: SessionUser, users: seq<StoredUser>)
    requires s.id != "" && s.username != "" && s.name != ""
    ensures var v := VerifiedSession(Some(EncodeSession(s)), MemoryDirectory(users));
      && (v.None? <==> forall j :: 0 <= j < |users| ==> users[j].username != s.username)
      && (v.Some? ==>
            v.value.username == s.username &&
            exists j :: 0 <= j < |users| && v.value == SessionOf(users[j]))
      && (RequireAdmin(v).Granted? <==> v.Some? && v.value.role == Admin)
  {
    DecodeEncodeSession(s);
    var v := VerifiedSession(Some(EncodeSession(s)), MemoryDirectory(users));
    if v.Some? {
      var j :| 0 <= j < |users| && Directory.Lookup(users, s.username).value == Sanitize(users[j]);
      assert v.value == SessionOf(users[j]);
    }
  }
}
