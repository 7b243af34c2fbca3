/** Access context of the academic service: the caller's identity is decoded from
    the `Authorization` header, and each resolver then demands a caller (any
    logged-in user) or an administrator. Token signature checking is a parameter. */
module AcademicAuth {
  import opened Wrappers
  import opened Text
  import opened AcademicErrors

  /** The decoded token payload: the student number and the role claim, if present. */
  datatype Identity = Identity(nim: string, role: Option<string>)

  const BearerMarker: string := "Bearer "

  /** `s.replace(pat, '')` with a string pattern: only the FIRST occurrence is
      removed, wherever in `s` it stands, and everything around it is kept. */
  function RemoveFirst(s: string, pat: string): (r: string)
    requires pat != []
    ensures !Contains(s, pat) ==> r == s
    ensures Contains(s, pat) ==>
              exists k :: && OccursAt(s, pat, k)
                          && (forall j :: 0 <= j < k ==> !OccursAt(s, pat, j))
                          && r == s[..k] + s[k + |pat|..]
    ensures |pat| <= |s| && s[..|pat|] == pat ==> r == s[|pat|..]
    ensures Contains(s, pat) ==> |r| == |s| - |pat|
  {
    var k := IndexOf(s, pat);
    if k < 0 then s
    else
      assert |pat| <= |s| && s[..|pat|] == pat ==> OccursAt(s, pat, 0) && k == 0;
      s[..k] + s[k + |pat|..]
  }

  /** `getUser`: an empty header gives no identity; otherwise the marker is removed
      and the rest is handed to the token verifier, whose failure also gives none. */
  function GetUser(header: string, verify: string -> Option<Identity>): (user: Option<Identity>)
    ensures header == [] ==> user == None
    ensures header != [] ==> user == verify(RemoveFirst(header, BearerMarker))
  {
    if header == [] then None else verify(RemoveFirst(header, BearerMarker))
  }

  /** `requireAuth`: only the absence of an identity is refused. */
  function RequireAuth(user: Option<Identity>): (r: Outcome<Failure>)
    ensures r.Pass? <==> user.Some?
    ensures r.Fail? ==> r.error == NotLoggedIn
  {
    if user.None? then Fail(NotLoggedIn) else Pass
  }

  /** `(user.role || '')`: a missing or empty role is the empty string. */
  function RoleText(id: Identity): string {
    match id.role
    case None => ""
    case Some(r) => r
  }

  /** `requireAdmin`: first the login check, then the lower-cased role must be `admin`. */
  function RequireAdmin(user: Option<Identity>): (r: Outcome<Failure>)
    ensures user.None? ==> r == Fail(NotLoggedIn)
    ensures user.Some? && user.value.role.None? ==> r == Fail(NotAdmin)
    ensures user.Some? && r.Fail? ==> r.error == NotAdmin
  {
    if user.None? then Fail(NotLoggedIn)
    else if ToLower(RoleText(user.value)) == "admin" then Pass
    else Fail(NotAdmin)
  }

  /** The admin check is case-insensitive and nothing else: it admits exactly the
      identities whose role is some casing of `admin`; a missing role never passes. */
  lemma {:induction false} RequireAdminAdmitsAnyCasing(user: Option<Identity>)
    ensures RequireAdmin(user).Pass? <==> user.Some? && SameLetters(RoleText(user.value), "admin")
  {
    if user.Some? {
      ToLowerMatchesSameLetters(RoleText(user.value), "admin");
    }
  }
}
