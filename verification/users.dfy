/** User administration: create_user and the validation of patch_user.
    Password hashing is not part of this model; a password is only checked
    for being non-empty. */
module Users {
  import opened Errors
  import opened Text
  import opened Store

  const DefaultAvatar := "\U{1F642}"

  /** The username column is UNIQUE. */
  predicate UniqueUsernames(s: Store) {
    forall i, j :: 0 <= i < j < |s.users| ==> s.users[i].username != s.users[j].username
  }

  predicate UsernameTaken(s: Store, name: string) {
    exists i :: 0 <= i < |s.users| && s.users[i].username == name
  }

  /** create_user: a new active user whose username and display name are
      stored stripped; 400 for an unknown role or an empty field, 409 when
      the stripped username is taken. */
  function CreateUser(s: Store, username: string, displayName: string, role: string, password: string, avatar: string): (r: Result<(Store, int)>)
    ensures ParseRole(role).None? ==> FailsWith(r, 400)
    ensures ParseRole(role).Some? && (username == [] || password == [] || displayName == []) ==> FailsWith(r, 400)
    ensures r.Ok? <==>
      && ParseRole(role).Some?
      && username != [] && password != [] && displayName != []
      && !UsernameTaken(s, Strip(username))
    ensures r.Err? && ParseRole(role).Some? && username != [] && password != [] && displayName != [] ==> FailsWith(r, 409)
    ensures r.Ok? ==>
      && r.value.1 == |s.users| + 1
      && r.value.0 == s.(users := s.users + [User(Strip(username), Strip(displayName), ParseRole(role).value,
                                                   OrDefault(Some(avatar), DefaultAvatar), true, false)])
  {
    var parsed := ParseRole(role);
    if parsed.None? then Fail("Invalid role", 400)
    else if username == [] || password == [] || displayName == [] then
      Fail("username, display_name and password are required", 400)
    else
      var name := Strip(username);
      if UsernameTaken(s, name) then Fail("Username already exists", 409)
      else
        var u := User(name, Strip(displayName), parsed.value, OrDefault(Some(avatar), DefaultAvatar), true, false);
        Ok((s.(users := s.users + [u]), |s.users| + 1))
  }

  lemma AppendFreshName(users: seq<User>, u: User)
    requires forall i, j :: 0 <= i < j < |users| ==> users[i].username != users[j].username
    requires forall i :: 0 <= i < |users| ==> users[i].username != u.username
    ensures forall i, j :: 0 <= i < j < |users + [u]| ==> (users + [u])[i].username != (users + [u])[j].username
  {
  }

  /** The UNIQUE constraint holds after every successful create_user. */
  lemma CreateUserKeepsUsernamesUnique(s: Store, username: string, displayName: string, role: string, password: string, avatar: string)
    requires UniqueUsernames(s)
    requires CreateUser(s, username, displayName, role, password, avatar).Ok?
    ensures UniqueUsernames(CreateUser(s, username, displayName, role, password, avatar).value.0)
  {
    var r := CreateUser(s, username, displayName, role, password, avatar);
    var u := r.value.0.users[|s.users|];
    assert r.value.0.users == s.users + [u];
    assert !UsernameTaken(s, u.username);
    AppendFreshName(s.users, u);
  }

  /** The fields patch_user lets a caller change; a field that is None was not sent. */
  datatype UserPatch = UserPatch(
    displayName: Option<string>,
    role: Option<string>,
    avatar: Option<string>,
    active: Option<bool>,
    mustChangePassword: Option<bool>)

  predicate IsEmptyPatch(p: UserPatch) {
    p.displayName.None? && p.role.None? && p.avatar.None? && p.active.None? && p.mustChangePassword.None?
  }

  function Pick<T>(o: Option<T>, old_: T): T {
    if o.Some? then o.value else old_
  }

  /** patch_user: 404 for an unknown id, 400 for a role outside the three;
      otherwise the sent fields replace the stored ones and nothing else
      changes (an empty patch returns the user untouched). */
  function PatchUser(s: Store, id: int, p: UserPatch): (r: Result<(Store, User)>)
    ensures !HasUser(s, id) ==> FailsWith(r, 404)
    ensures HasUser(s, id) && p.role.Some? && ParseRole(p.role.value).None? ==> FailsWith(r, 400)
    ensures r.Ok? <==> HasUser(s, id) && (p.role.None? || ParseRole(p.role.value).Some?)
    ensures r.Ok? ==>
      var u := UserAt(s, id);
      var v := r.value.1;
      && r.value.0 == s.(users := s.users[id - 1 := v])
      && v.username == u.username
      && (p.role.Some? ==> RoleName(v.role) == p.role.value)
      && (p.role.None? ==> v.role == u.role)
      && v.displayName == Pick(p.displayName, u.displayName)
      && v.avatar == Pick(p.avatar, u.avatar)
      && v.active == Pick(p.active, u.active)
      && v.mustChangePassword == Pick(p.mustChangePassword, u.mustChangePassword)
    ensures r.Ok? && IsEmptyPatch(p) ==> r.value.0 == s
    ensures r.Ok? && UniqueUsernames(s) ==> UniqueUsernames(r.value.0)
  {
    if !HasUser(s, id) then Fail("User not found", 404)
    else if p.role.Some? && ParseRole(p.role.value).None? then Fail("Invalid role", 400)
    else
      var u := UserAt(s, id);
      if IsEmptyPatch(p) then
        assert s.users[id - 1 := u] == s.users;
        Ok((s, u))
      else
        var role := if p.role.Some? then ParseRole(p.role.value).value else u.role;
        var v := u.(displayName := Pick(p.displayName, u.displayName), role := role,
                    avatar := Pick(p.avatar, u.avatar), active := Pick(p.active, u.active),
                    mustChangePassword := Pick(p.mustChangePassword, u.mustChangePassword));
        Ok((s.(users := s.users[id - 1 := v]), v))
  }
}
