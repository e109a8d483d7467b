/** `AuthUser` of `src/services/api/auth-service.ts`, the public view of a
    user row that is stored and handed to the screens, with its partial
    update and its serialised form. */
module UserView {

  import opened Wrappers
  import opened Json
  import Text

  /** `{id, name, email}`: a row without its password. */
  datatype AuthUser = AuthUser(id: int, name: string, email: string)

  /** `Partial<AuthUser>`: each field may be left out. */
  datatype UserPatch = UserPatch(id: Option<int>, name: Option<string>, email: Option<string>)

  /** `{...user, ...patch}`: the fields the patch gives win. */
  function Merge(u: AuthUser, p: UserPatch): (r: AuthUser)
  {
    AuthUser(
      if p.id.Some? then p.id.value else u.id,
      if p.name.Some? then p.name.value else u.name,
      if p.email.Some? then p.email.value else u.email)
  }

  /** A field the patch gives is taken from it; every other field is kept. */
  lemma MergeFields(u: AuthUser, p: UserPatch)
    ensures Merge(u, p).id == p.id.GetOr(u.id)
    ensures Merge(u, p).name == p.name.GetOr(u.name)
    ensures Merge(u, p).email == p.email.GetOr(u.email)
  {
  }

  /** Applying the same patch twice changes nothing more. */
  lemma MergeIdempotent(u: AuthUser, p: UserPatch)
    ensures Merge(Merge(u, p), p) == Merge(u, p)
  {
  }

  /** `JSON.stringify(user)`, never the empty string. */
  function Stringify(u: AuthUser): (s: string)
    ensures s != "" && s[0] == '{'
  {
    "{" + (EncodeInt(u.id) + (EncodeStr(u.name) + (EncodeStr(u.email) + "}")))
  }

  /** `JSON.parse(text)` read as a user view; None when `text` is not one
      (where `JSON.parse` would throw). */
  function Parse(text: string): (r: Option<AuthUser>)
  {
    if |text| == 0 || text[0] != '{' then None
    else
      match ParseInt(text[1..])
      case None => None
      case Some((id, r1)) =>
        match ParseStr(r1)
        case None => None
        case Some((name, r2)) =>
          match ParseStr(r2)
          case None => None
          case Some((email, r3)) => if r3 == "}" then Some(AuthUser(id, name, email)) else None
  }

  /** Round trip: parsing what `Stringify` wrote gives the user back. */
  lemma ParseStringify(u: AuthUser)
    ensures Parse(Stringify(u)) == Some(u)
  {
    var e := EncodeStr(u.email) + "}";
    var n := EncodeStr(u.name) + e;
    var t := Stringify(u);
    Text.DropHead('{', EncodeInt(u.id) + n);
    ParseIntOf(u.id, n);
    ParseStrOf(u.name, e);
    ParseStrOf(u.email, "}");
    ParseFromFields(t, u, n, e);
  }

  lemma ParseFromFields(t: string, u: AuthUser, r1: string, r2: string)
    requires |t| > 0 && t[0] == '{'
    requires ParseInt(t[1..]) == Some((u.id, r1))
    requires ParseStr(r1) == Some((u.name, r2))
    requires ParseStr(r2) == Some((u.email, "}"))
    ensures Parse(t) == Some(u)
  {
  }

  /** Different users are stored as different texts. */
  lemma StringifyInjective(u: AuthUser, v: AuthUser)
    requires Stringify(u) == Stringify(v)
    ensures u == v
  {
    ParseStringify(u);
    ParseStringify(v);
  }
}
