/** The `users` collection as the role update of controllers/user.controller.js
    and the projection of utils/userFormatter.js see it: a document is a map
    from field names to values, keyed in the collection by the hex form of its
    ObjectId. */
module Users {
  import opened Base

  /** A field value: a string, an ObjectId (by its hex form), or anything
      else the model does not look into. */
  datatype Field = Text(text: string) | ObjectIdValue(hex: string) | OtherValue

  type UserDoc = map<string, Field>

  /** The collection, keyed by the hex form of `_id`. */
  type UserTable = map<string, UserDoc>

  /** `Object.values(UserRole).includes(role)` (controllers/user.controller.js:23).
      The controller imports `UserRole` from utils/constants.js, which is not
      part of this model; its values are taken to be those of the `UserRole`
      enumeration in types.ts:5-9. */
  predicate KnownRole(role: Option<string>) {
    role == Some(RoleUser) || role == Some(RoleAdmin) || role == Some(RoleSuperAdmin)
  }

  /** The `{ status: 'success' }` reply. */
  datatype Updated = RoleUpdated

  /** `PUT /api/users/:id/role` (controllers/user.controller.js:17-44). `idArg` is
      `None` when `new ObjectId(id)` throws, which the catch turns into 500;
      `role` is `None` when the body has none. */
  function UpdateUserRole(users: UserTable, idArg: Option<string>, role: Option<string>): (r: (Result<Updated>, UserTable))
    ensures !KnownRole(role) ==> r == (Err(BadRequest), users)
    ensures role == Some(RoleSuperAdmin) ==> r == (Err(Forbidden), users)
    ensures r.0.Err? <==> !KnownRole(role) || role == Some(RoleSuperAdmin) || idArg.None? || idArg.value !in users
    ensures r.0.Err? ==> r.1 == users
    ensures r.0.Ok? ==> r.0.value == RoleUpdated && r.1.Keys == users.Keys
    ensures r.0.Ok? ==> forall k :: k in users && k != idArg.value ==> r.1[k] == users[k]
    ensures r.0.Ok? ==> r.1[idArg.value].Keys == users[idArg.value].Keys + {"role"}
    ensures r.0.Ok? ==> r.1[idArg.value]["role"] == Text(role.value)
    ensures r.0.Ok? ==> forall f :: f in users[idArg.value] && f != "role" ==> r.1[idArg.value][f] == users[idArg.value][f]
  {
    if !KnownRole(role) then (Err(BadRequest), users)
    else if role.value == RoleSuperAdmin then (Err(Forbidden), users)
    else if idArg.None? then (Err(ServerError), users)
    else if idArg.value !in users then (Err(NotFound), users)
    else (Ok(RoleUpdated), users[idArg.value := users[idArg.value]["role" := Text(role.value)]])
  }

  /** The checks are ordered: a bad role is refused before the id is even
      parsed, and the Super-Admin refusal comes before the lookup. */
  lemma RoleChecksComeFirst(users: UserTable, role: Option<string>)
    ensures UpdateUserRole(users, None, role).0 ==
      if !KnownRole(role) then Err(BadRequest) else if role == Some(RoleSuperAdmin) then Err(Forbidden) else Err(ServerError)
    ensures forall id :: id !in users && KnownRole(role) && role != Some(RoleSuperAdmin) ==>
      UpdateUserRole(users, Some(id), role).0 == Err(NotFound)
  {
  }

  /** The endpoint can never create a Super-Admin: no successful update leaves
      a user holding that role who did not hold it before. */
  lemma NoNewSuperAdmin(users: UserTable, idArg: Option<string>, role: Option<string>)
    ensures var after := UpdateUserRole(users, idArg, role).1;
      forall k :: k in after && "role" in after[k] && after[k]["role"] == Text(RoleSuperAdmin) ==>
        k in users && "role" in users[k] && users[k]["role"] == Text(RoleSuperAdmin)
  {
  }

  /** Repeating a role update gives the same table. */
  lemma {:induction false} UpdateUserRoleIdempotent(users: UserTable, idArg: Option<string>, role: Option<string>)
    ensures var once := UpdateUserRole(users, idArg, role);
      UpdateUserRole(once.1, idArg, role) == (once.0, once.1)
  {
    var once := UpdateUserRole(users, idArg, role);
    if once.0.Ok? {
      var id := idArg.value;
      assert once.1[id]["role" := Text(role.value)] == once.1[id];
      assert once.1[id := once.1[id]["role" := Text(role.value)]] == once.1;
    }
  }

  /** A stored user has an ObjectId `_id`; the formatter calls `toHexString`
      on it. */
  predicate HasObjectId(user: UserDoc) {
    "_id" in user && user["_id"].ObjectIdValue?
  }

  /** `formatUserForClient` (utils/userFormatter.js:2-12): `_id` and `password`
      are taken out, `id` is the hex form of `_id`, and the remaining fields
      are spread after it, so a stored `id` field would win. */
  function FormatUser(user: Option<UserDoc>): (r: Option<UserDoc>)
    requires user.Some? ==> HasObjectId(user.value)
    ensures user.None? <==> r.None?
    ensures r.Some? ==> "_id" !in r.value && "password" !in r.value
    ensures r.Some? ==> r.value.Keys == user.value.Keys - {"_id", "password"} + {"id"}
    ensures r.Some? ==> forall f :: f in user.value && f != "_id" && f != "password" ==> r.value[f] == user.value[f]
    ensures r.Some? && "id" !in user.value ==> r.value["id"] == Text(user.value["_id"].hex)
  {
    match user
    case None => None
    case Some(u) =>
      var rest := map f | f in u && f != "_id" && f != "password" :: u[f];
      Some(map["id" := Text(u["_id"].hex)] + rest)
  }

  /** What the formatter shows of a user after a successful role update is
      the requested role, and their password is still hidden. */
  lemma FormattedAfterRoleUpdate(users: UserTable, id: string, role: Option<string>)
    requires forall k :: k in users ==> HasObjectId(users[k])
    requires UpdateUserRole(users, Some(id), role).0.Ok?
    ensures var after := UpdateUserRole(users, Some(id), role).1;
      && HasObjectId(after[id])
      && FormatUser(Some(after[id])).value["role"] == Text(role.value)
      && "password" !in FormatUser(Some(after[id])).value
  {
    var after := UpdateUserRole(users, Some(id), role).1;
    assert after[id]["_id"] == users[id]["_id"];
  }

  /** A stored `id` field shadows the one derived from `_id`. */
  lemma StoredIdShadowsObjectId(hex: string, stored: string)
    requires hex != stored
    ensures var u := map["_id" := ObjectIdValue(hex), "id" := Text(stored)];
      FormatUser(Some(u)) == Some(map["id" := Text(stored)])
  {
    var u := map["_id" := ObjectIdValue(hex), "id" := Text(stored)];
    var r := FormatUser(Some(u)).value;
    assert r.Keys == {"id"};
    assert r["id"] == u["id"];
    assert r == map["id" := Text(stored)];
  }
}
