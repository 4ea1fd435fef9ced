/** The user handlers: reads that never return the password, field-merging
    updates with the password hashed, and deletion that spares admins. */
module Users {
  import opened Results
  import opened Models

  type Users = map<UserId, User>

  datatype UserError = UserNotFound | CannotDeleteAdmin

  /** A user as the handlers send it back: every field but the password. */
  datatype PublicUser = PublicUser(username: string, email: string, isAdmin: bool)

  /** `.select("-password")`. */
  function Public(u: User): (v: PublicUser)
    ensures v.username == u.username && v.email == u.email && v.isAdmin == u.isAdmin
  {
    PublicUser(u.username, u.email, u.isAdmin)
  }

  /** `getCurrentUser` and `getUserById`: the stored user without its password, or not found. */
  function GetUser(us: Users, id: UserId): (r: Result<PublicUser, UserError>)
    ensures id !in us <==> r == Err(UserNotFound)
    ensures id in us ==> r == Ok(Public(us[id]))
  {
    if id in us then Ok(Public(us[id])) else Err(UserNotFound)
  }

  /** `getAllUsers`: every stored user without the password, in the order the
      collection returns them; `order` is that order, each stored id once. */
  function GetAllUsers(us: Users, order: seq<UserId>): (r: seq<PublicUser>)
    requires forall i :: 0 <= i < |order| ==> order[i] in us
    requires forall k :: k in us ==> k in order
    requires forall i, j :: 0 <= i < j < |order| ==> order[i] != order[j]
    ensures |r| == |order|
    ensures forall i :: 0 <= i < |order| ==> r[i] == Public(us[order[i]])
    ensures forall k :: k in us ==> Public(us[k]) in r
  {
    var r := seq(|order|, i requires 0 <= i < |order| => Public(us[order[i]]));
    assert forall k :: k in us ==> Public(us[k]) in r by {
      forall k | k in us ensures Public(us[k]) in r {
        var i :| 0 <= i < |order| && order[i] == k;
        assert r[i] == Public(us[k]);
      }
    }
    r
  }

  /** An update body: any of the fields may be present, `isAdmin` included. */
  datatype UserPatch = UserPatch(username: Option<string>, email: Option<string>, password: Option<string>, isAdmin: Option<bool>)

  /** `$set` of the body onto the user. A non-empty password is stored as its
      hash; an empty one is falsy, skips hashing and is stored as given. */
  function Merge(u: User, body: UserPatch, hash: string -> string): (v: User)
    ensures body.username.Some? ==> v.username == body.username.value
    ensures body.username.None? ==> v.username == u.username
    ensures body.email.Some? ==> v.email == body.email.value
    ensures body.email.None? ==> v.email == u.email
    ensures body.isAdmin.Some? ==> v.isAdmin == body.isAdmin.value
    ensures body.isAdmin.None? ==> v.isAdmin == u.isAdmin
    ensures body.password.None? ==> v.password == u.password
    ensures body.password.Some? && body.password.value != "" ==> v.password == hash(body.password.value)
    ensures body.password == Some("") ==> v.password == ""
  {
    var password :=
      if body.password.Some? && body.password.value != "" then hash(body.password.value)
      else if body.password.Some? then body.password.value
      else u.password;
    User(if body.username.Some? then body.username.value else u.username,
         if body.email.Some? then body.email.value else u.email,
         password,
         if body.isAdmin.Some? then body.isAdmin.value else u.isAdmin)
  }

  /** `updateCurrentUser` (with the requester's id) and `updateUserById`: an
      unknown user is refused and nothing changes; otherwise only that user
      changes, by `Merge`, and the reply is the updated user without its password. */
  function UpdateUser(us: Users, id: UserId, body: UserPatch, hash: string -> string): (r: Response<Users, PublicUser, UserError>)
    ensures id !in us ==> r == Response(us, Err(UserNotFound))
    ensures id in us ==> r.state == us[id := Merge(us[id], body, hash)]
    ensures id in us ==> r.reply == Ok(Public(r.state[id]))
  {
    if id !in us then Response(us, Err(UserNotFound))
    else
      var v := Merge(us[id], body, hash);
      Response(us[id := v], Ok(Public(v)))
  }

  /** Nothing in the update path keeps a caller from granting admin rights. */
  lemma UpdateCanGrantAdmin(us: Users, id: UserId, hash: string -> string)
    requires id in us && !us[id].isAdmin
    ensures UpdateUser(us, id, UserPatch(None, None, None, Some(true)), hash).state[id].isAdmin
  {
  }

  /** `deleteUserById`: an admin is never deleted; an unknown id is refused;
      in both cases nothing changes. Any other user is removed, and only they. */
  function DeleteUser(us: Users, id: UserId): (r: Response<Users, UserId, UserError>)
    ensures id !in us ==> r == Response(us, Err(UserNotFound))
    ensures id in us && us[id].isAdmin ==> r == Response(us, Err(CannotDeleteAdmin))
    ensures r.reply.Ok? <==> id in us && !us[id].isAdmin
    ensures r.reply.Ok? ==> r.state.Keys == us.Keys - {id}
    ensures forall k :: k in r.state ==> k in us && r.state[k] == us[k]
  {
    if id !in us then Response(us, Err(UserNotFound))
    else if us[id].isAdmin then Response(us, Err(CannotDeleteAdmin))
    else Response(us - {id}, Ok(id))
  }

  /** Deletion never loses an admin: every admin before is still stored after. */
  lemma DeleteKeepsAdmins(us: Users, id: UserId)
    ensures forall k :: k in us && us[k].isAdmin ==> k in DeleteUser(us, id).state
  {
  }
}
