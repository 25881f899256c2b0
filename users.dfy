/** The servants' administration (`/api/users`): `POST` adds a user under the normalised
    username, `GET` lists the users with their serviced counts, `DELETE` removes one user and
    `PATCH` removes several; the system's own user, id 1, is never removed. Identifiers that
    come from the query string or the path are modelled by the number they name; every
    string that JavaScript's `==` and PostgreSQL's integer cast both read as 1 is the id 1. */
module Users {
  import opened Wrappers
  import opened Http
  import opened Store
  import opened Helpers

  /** A request, by its HTTP method, with the fields the route reads. */
  datatype Request =
    | Post(username: Option<string>, password: Option<string>, roleGroup: Option<string>,
           familyId: Option<int>)
    | Get(familyFilter: Option<int>)
    | Delete(id: Option<int>)
    | Patch(userIds: ArrayField<int>)
    | Unsupported

  /** One row of the `GET` reply. */
  datatype UserRow = UserRow(userId: int, username: string, roleGroup: string,
                             familyId: Option<int>, familyName: Option<string>,
                             servicedCount: int)

  /** What a successful request sends back. */
  datatype Answer = Created(userId: int) | Listed(rows: set<UserRow>) | Deleted
                  | BulkDeleted(rowCount: nat)

  // ---------------------------------------------------------------------------------
  // POST

  /** `family_id || null`: a missing or zero family is stored as `NULL`. */
  function StoredFamily(familyId: Option<int>): (r: Option<int>)
    ensures r.Some? <==> TruthyInt(familyId)
    ensures r.Some? ==> r == familyId
  {
    if TruthyInt(familyId) then familyId else None
  }

  /** The three required fields are there, the username after normalisation. */
  predicate PostComplete(username: Option<string>, password: Option<string>,
                         roleGroup: Option<string>)
  {
    NormalizeUsername(username) != "" && Truthy(password) && Truthy(roleGroup)
  }

  /** `POST /api/users`: 400 without a username, password or role; 409 when the normalised
      username is taken; otherwise the user is appended under the next serial id, with the
      hashed password, and the reply is 201 with that id. `hash` stands for bcrypt. */
  method AddUser(db: Db, username: Option<string>, password: Option<string>,
                 roleGroup: Option<string>, familyId: Option<int>, hash: string -> string)
    returns (reply: Reply<int>, db': Db)
    ensures !PostComplete(username, password, roleGroup) ==>
      reply == Fail(400, MissingData) && db' == db
    ensures PostComplete(username, password, roleGroup) &&
            HasUsername(db.users, NormalizeUsername(username)) ==>
      reply == Fail(409, Duplicate) && db' == db
    ensures PostComplete(username, password, roleGroup) &&
            !HasUsername(db.users, NormalizeUsername(username)) ==>
      && reply == Ok(201, db.nextUserId)
      && db' == db.(users := db.users + [User(db.nextUserId, NormalizeUsername(username),
                                               hash(password.value), roleGroup.value,
                                               StoredFamily(familyId))],
                    nextUserId := db.nextUserId + 1)
  {
    var name := NormalizeUsername(username);
    if name == "" || !Truthy(password) || !Truthy(roleGroup) {
      return Fail(400, MissingData), db;
    }
    if HasUsername(db.users, name) {
      return Fail(409, Duplicate), db;
    }
    var u := User(db.nextUserId, name, hash(password.value), roleGroup.value,
                  StoredFamily(familyId));
    db' := db.(users := db.users + [u], nextUserId := db.nextUserId + 1);
    reply := Ok(201, u.id);
  }

  /** A successful add keeps the store well formed: the new id is fresh and the username
      was free. */
  lemma AddKeepsValid(db: Db, username: Option<string>, password: Option<string>,
                      roleGroup: Option<string>, familyId: Option<int>, hash: string -> string)
    requires Valid(db) && PostComplete(username, password, roleGroup)
    requires !HasUsername(db.users, NormalizeUsername(username))
    ensures Valid(db.(users := db.users + [User(db.nextUserId, NormalizeUsername(username),
                                                 hash(password.value), roleGroup.value,
                                                 StoredFamily(familyId))],
                      nextUserId := db.nextUserId + 1))
  {
    AppendUserKeepsValid(db, User(db.nextUserId, NormalizeUsername(username),
                                  hash(password.value), roleGroup.value, StoredFamily(familyId)));
  }

  /** Two spellings that normalise alike are one username: once the first is added, the
      second is refused. */
  lemma SecondSpellingRefused(db: Db, a: string, b: string, password: Option<string>,
                              roleGroup: Option<string>, familyId: Option<int>,
                              hash: string -> string)
    requires PostComplete(Some(a), password, roleGroup)
    requires NormalizeUsername(Some(a)) == NormalizeUsername(Some(b))
    requires !HasUsername(db.users, NormalizeUsername(Some(a)))
    ensures var d := db.(users := db.users + [User(db.nextUserId, NormalizeUsername(Some(a)),
                                                   hash(password.value), roleGroup.value,
                                                   StoredFamily(familyId))],
                         nextUserId := db.nextUserId + 1);
      PostComplete(Some(b), password, roleGroup) && HasUsername(d.users, NormalizeUsername(Some(b)))
  {
    var d := db.(users := db.users + [User(db.nextUserId, NormalizeUsername(Some(a)),
                                           hash(password.value), roleGroup.value,
                                           StoredFamily(familyId))],
                 nextUserId := db.nextUserId + 1);
    assert d.users[|db.users|].username == NormalizeUsername(Some(b));
  }

  // ---------------------------------------------------------------------------------
  // GET

  /** The user's rows of `servant_serviced_link`. */
  function LinkRows(db: Db, u: int): set<(int, int)> {
    set p | p in db.links && p.0 == u
  }

  /** `COALESCE(sm.manual_count, COUNT(link.serviced_id))`: the manual count when there is
      one, otherwise the number of the user's link rows. */
  function ListedCount(db: Db, u: int): (n: int)
    ensures u in db.manualCounts ==> n == db.manualCounts[u]
    ensures u !in db.manualCounts ==> n == |LinkRows(db, u)| && n >= 0
  {
    if u in db.manualCounts then db.manualCounts[u] else |LinkRows(db, u)|
  }

  function RowOf(db: Db, u: User): UserRow {
    UserRow(u.id, u.username, u.role, u.familyId, FamilyNameOf(db.families, u.familyId),
            ListedCount(db, u.id))
  }

  /** `WHERE u.family_id = $1` when a family is given, every user otherwise. */
  predicate Selected(u: User, familyFilter: Option<int>) {
    familyFilter.Some? ==> u.familyId == familyFilter
  }

  /** `GET /api/users[?family_id=..]`: one row per selected user. The rows come sorted by
      username; the model gives them as a set. */
  function GetUsers(db: Db, familyFilter: Option<int>): (reply: Reply<set<UserRow>>)
    ensures reply.Ok? && reply.status == 200
    ensures forall u :: u in db.users && Selected(u, familyFilter) ==> RowOf(db, u) in reply.body
    ensures forall row :: row in reply.body ==>
      exists u :: u in db.users && Selected(u, familyFilter) && row == RowOf(db, u)
  {
    Ok(200, set u | u in db.users && Selected(u, familyFilter) :: RowOf(db, u))
  }

  /** With a family filter every row listed is of that family and carries that family's
      name; each row's count is the manual count if one is recorded, else the number of the
      user's link rows. */
  lemma ListedRowsOfFamily(db: Db, familyId: int, row: UserRow)
    requires row in GetUsers(db, Some(familyId)).body
    ensures row.familyId == Some(familyId)
    ensures row.familyName == FamilyNameOf(db.families, Some(familyId))
    ensures HasUserId(db.users, row.userId)
    ensures row.userId in db.manualCounts ==> row.servicedCount == db.manualCounts[row.userId]
    ensures row.userId !in db.manualCounts ==> row.servicedCount == |LinkRows(db, row.userId)|
  {
    var u :| u in db.users && Selected(u, Some(familyId)) && row == RowOf(db, u);
    var i :| 0 <= i < |db.users| && db.users[i] == u;
  }

  /** When every link row of the user names an existing serviced person, the count the list
      shows is the one `getServicedCountForServant` computes. */
  lemma ListedCountIsHelperCount(db: Db, u: int)
    requires forall p :: p in LinkRows(db, u) ==> HasServicedId(db.serviced, p.1)
    ensures ListedCount(db, u) == ServicedCountForServant(db, u)
  {
    if u !in db.manualCounts {
      assert LinkedServiced(db, u) == set p | p in LinkRows(db, u) :: p.1;
      SecondsOfOneServant(LinkRows(db, u), u);
    }
  }

  /** Pairs that share their first component are as many as their second components. */
  lemma {:induction false} SecondsOfOneServant(a: set<(int, int)>, u: int)
    requires forall p :: p in a ==> p.0 == u
    ensures |set p | p in a :: p.1| == |a|
    decreases |a|
  {
    if a != {} {
      var x :| x in a;
      var rest := a - {x};
      SecondsOfOneServant(rest, u);
      assert (set p | p in a :: p.1) == (set p | p in rest :: p.1) + {x.1};
      assert x.1 !in (set p | p in rest :: p.1);
    }
  }

  // ---------------------------------------------------------------------------------
  // DELETE

  /** `DELETE /api/users/:id`: 400 without an id, 403 for the system's own user, 404 when no
      user has the id; otherwise the user is removed. */
  method DeleteUser(db: Db, id: Option<int>) returns (reply: Reply<()>, db': Db)
    ensures id.None? ==> reply == Fail(400, MissingData) && db' == db
    ensures id == Some(ProtectedId) ==> reply == Fail(403, Forbidden) && db' == db
    ensures id.Some? && id.value != ProtectedId && !HasUserId(db.users, id.value) ==>
      reply == Fail(404, NotFound) && db' == db
    ensures id.Some? && id.value != ProtectedId && HasUserId(db.users, id.value) ==>
      reply == Ok(200, ()) && db' == db.(users := DropIds(db.users, UserId, {id.value}))
  {
    if id.None? {
      return Fail(400, MissingData), db;
    }
    if id.value == ProtectedId {
      return Fail(403, Forbidden), db;
    }
    var users := DropIds(db.users, UserId, {id.value});
    if |users| == |db.users| {
      if HasUserId(db.users, id.value) {
        var i :| 0 <= i < |db.users| && db.users[i].id == id.value;
        DropIdsSome(db.users, UserId, {id.value}, i);
      }
      return Fail(404, NotFound), db;
    }
    if !HasUserId(db.users, id.value) {
      DropIdsNone(db.users, UserId, {id.value});
    }
    db' := db.(users := users);
    reply := Ok(200, ());
  }

  // ---------------------------------------------------------------------------------
  // PATCH

  /** `PATCH /api/users/bulk-delete`: nothing selected when `user_ids` is not a non-empty
      array, only the protected user when nothing is left once id 1 is dropped; otherwise
      the listed users are removed and the reply counts the rows removed. */
  method BulkDeleteUsers(db: Db, userIds: ArrayField<int>) returns (reply: Reply<nat>, db': Db)
    ensures !userIds.Array? || userIds.elems == [] ==> reply == Fail(200, NothingSelected) && db' == db
    ensures userIds.Array? && userIds.elems != [] && Unprotected(userIds.elems) == [] ==>
      reply == Fail(200, OnlyProtected) && db' == db
    ensures userIds.Array? && Unprotected(userIds.elems) != [] ==>
      && db' == db.(users := DropIds(db.users, UserId, set x | x in Unprotected(userIds.elems)))
      && reply == Ok(200, |db.users| - |db'.users|)
  {
    if !userIds.Array? || userIds.elems == [] {
      return Fail(200, NothingSelected), db;
    }
    var filtered := Unprotected(userIds.elems);
    if filtered == [] {
      return Fail(200, OnlyProtected), db;
    }
    var users := DropIds(db.users, UserId, set x | x in filtered);
    db' := db.(users := users);
    reply := Ok(200, |db.users| - |users|);
  }

  /** The bulk delete removes exactly the listed users other than the system's own, which
      stays whatever the list says; nothing else changes. */
  lemma BulkDeleteRemovesListed(db: Db, ids: seq<int>, u: User)
    requires Unprotected(ids) != []
    ensures var d := db.(users := DropIds(db.users, UserId, set x | x in Unprotected(ids)));
      && (u in d.users <==> u in db.users && (u.id == ProtectedId || u.id !in ids))
  {
    UnprotectedMembers(ids);
    DropIdsMembers(db.users, UserId, set x | x in Unprotected(ids));
  }

  /** The single delete removes exactly the users with the id. */
  lemma DeleteRemovesTheUser(db: Db, id: int, u: User)
    ensures u in DropIds(db.users, UserId, {id}) <==> u in db.users && u.id != id
  {
    DropIdsMembers(db.users, UserId, {id});
  }

  // ---------------------------------------------------------------------------------
  // The route.

  /** `/api/users`: each method goes to its handler, any other is refused with 405. A
      refused request leaves the store as it was and a `GET` never changes it. */
  method UsersRoute(db: Db, req: Request, hash: string -> string)
    returns (reply: Reply<Answer>, db': Db)
    ensures req.Unsupported? ==> reply == Fail(405, MethodNotAllowed)
    ensures reply.Fail? ==> db' == db
    ensures req.Get? ==> db' == db && reply == Ok(200, Listed(GetUsers(db, req.familyFilter).body))
    ensures reply.Ok? ==> match req
      case Post(_, _, _, _) => reply.body.Created? && reply.status == 201
      case Get(_) => reply.body.Listed?
      case Delete(_) => reply.body.Deleted?
      case Patch(_) => reply.body.BulkDeleted? && reply.body.rowCount == |db.users| - |db'.users|
      case Unsupported => false
  {
    match req
    case Post(username, password, roleGroup, familyId) =>
      var r;
      r, db' := AddUser(db, username, password, roleGroup, familyId, hash);
      reply := if r.Ok? then Ok(201, Created(r.body)) else Fail(r.status, r.why);
    case Get(familyFilter) =>
      db' := db;
      reply := Ok(200, Listed(GetUsers(db, familyFilter).body));
    case Delete(id) =>
      var r;
      r, db' := DeleteUser(db, id);
      reply := if r.Ok? then Ok(200, Deleted) else Fail(r.status, r.why);
    case Patch(userIds) =>
      var r;
      r, db' := BulkDeleteUsers(db, userIds);
      reply := if r.Ok? then Ok(200, BulkDeleted(r.body)) else Fail(r.status, r.why);
    case Unsupported =>
      db' := db;
      reply := Fail(405, MethodNotAllowed);
  }
}
