/** The families' administration (`/api/families`): `POST` adds a family, `GET` lists them,
    `PUT` renames one, `DELETE` removes one and `PATCH` removes several; the system's own
    family, id 1, is kept by the bulk delete. Identifiers from the query string are modelled
    by the number they name. */
module Families {
  import opened Wrappers
  import opened Http
  import opened Store

  /** A request, by its HTTP method, with the fields the route reads. */
  datatype Request =
    | Post(familyName: Option<string>)
    | Get
    | Put(id: Option<int>, newName: Option<string>)
    | Delete(id: Option<int>)
    | Patch(familyIds: ArrayField<int>)
    | Unsupported

  /** What a successful request sends back. */
  datatype Answer = Created(familyId: int) | Listed(rows: set<Family>) | Renamed | Deleted
                  | BulkDeleted(rowCount: nat)

  predicate HasFamilyName(fs: seq<Family>, name: string) {
    exists i :: 0 <= i < |fs| && fs[i].name == name
  }

  // ---------------------------------------------------------------------------------
  // POST

  /** `POST /api/families`: 400 without a name, 409 when a family has the name already;
      otherwise the family is appended under the next serial id and the reply is 201 with
      that id. The name is stored as sent. */
  method AddFamily(db: Db, familyName: Option<string>) returns (reply: Reply<int>, db': Db)
    ensures !Truthy(familyName) ==> reply == Fail(400, MissingData) && db' == db
    ensures Truthy(familyName) && HasFamilyName(db.families, familyName.value) ==>
      reply == Fail(409, Duplicate) && db' == db
    ensures Truthy(familyName) && !HasFamilyName(db.families, familyName.value) ==>
      && reply == Ok(201, db.nextFamilyId)
      && db' == db.(families := db.families + [Family(db.nextFamilyId, familyName.value)],
                    nextFamilyId := db.nextFamilyId + 1)
  {
    if !Truthy(familyName) {
      return Fail(400, MissingData), db;
    }
    if HasFamilyName(db.families, familyName.value) {
      return Fail(409, Duplicate), db;
    }
    db' := db.(families := db.families + [Family(db.nextFamilyId, familyName.value)],
               nextFamilyId := db.nextFamilyId + 1);
    reply := Ok(201, db.nextFamilyId);
  }

  /** A successful add keeps the store well formed, and the new family is the one the
      name now finds. */
  lemma AddKeepsValid(db: Db, name: string)
    requires Valid(db) && !HasFamilyName(db.families, name)
    ensures var d := db.(families := db.families + [Family(db.nextFamilyId, name)],
                         nextFamilyId := db.nextFamilyId + 1);
      Valid(d) && FamilyByName(d.families, name) == Some(db.nextFamilyId)
  {
    var fs := db.families + [Family(db.nextFamilyId, name)];
    forall i, j | 0 <= i < j < |fs| ensures fs[i].id != fs[j].id && fs[i].name != fs[j].name {
      if j == |fs| - 1 {
        assert fs[i] == db.families[i];
      }
    }
    FamilyByNameAppend(db.families, Family(db.nextFamilyId, name), name);
  }

  // ---------------------------------------------------------------------------------
  // GET

  /** `GET /api/families`: every family. The rows come sorted by name; the model gives them
      as a set. */
  function GetFamilies(db: Db): (reply: Reply<set<Family>>)
    ensures reply.Ok? && reply.status == 200
    ensures forall f :: f in reply.body <==> f in db.families
  {
    Ok(200, set f | f in db.families)
  }

  // ---------------------------------------------------------------------------------
  // PUT

  /** `UPDATE families SET family_name = $1 WHERE family_id = $2`. */
  function Rename(fs: seq<Family>, id: int, name: string): (r: seq<Family>)
    ensures |r| == |fs|
  {
    seq(|fs|, i requires 0 <= i < |fs| => if fs[i].id == id then Family(id, name) else fs[i])
  }

  /** `PUT /api/families?id=..`: 400 without an id or a new name, 404 when no family has the
      id, 500 when another family has the name (the unique key refuses it); otherwise the
      family is renamed. */
  method RenameFamily(db: Db, id: Option<int>, newName: Option<string>)
    returns (reply: Reply<()>, db': Db)
    ensures id.None? || !Truthy(newName) ==> reply == Fail(400, MissingData) && db' == db
    ensures id.Some? && Truthy(newName) && !HasFamilyId(db.families, id.value) ==>
      reply == Fail(404, NotFound) && db' == db
    ensures id.Some? && Truthy(newName) && HasFamilyId(db.families, id.value) &&
            NameTakenByOther(db.families, id.value, newName.value) ==>
      reply == Fail(500, ServerError) && db' == db
    ensures id.Some? && Truthy(newName) && HasFamilyId(db.families, id.value) &&
            !NameTakenByOther(db.families, id.value, newName.value) ==>
      reply == Ok(200, ()) && db' == db.(families := Rename(db.families, id.value, newName.value))
  {
    if id.None? || !Truthy(newName) {
      return Fail(400, MissingData), db;
    }
    if !HasFamilyId(db.families, id.value) {
      return Fail(404, NotFound), db;
    }
    if NameTakenByOther(db.families, id.value, newName.value) {
      return Fail(500, ServerError), db;
    }
    db' := db.(families := Rename(db.families, id.value, newName.value));
    reply := Ok(200, ());
  }

  /** Some family other than `id` has the name. */
  predicate NameTakenByOther(fs: seq<Family>, id: int, name: string) {
    exists i :: 0 <= i < |fs| && fs[i].name == name && fs[i].id != id
  }

  /** Renaming changes that family's name and nothing else: every row keeps its place and
      its id, the other rows are as they were, and the store stays well formed. */
  lemma RenameChangesOnlyThatName(db: Db, id: int, name: string)
    requires Valid(db) && HasFamilyId(db.families, id) && !NameTakenByOther(db.families, id, name)
    ensures var fs := Rename(db.families, id, name);
      && (forall i :: 0 <= i < |fs| ==> fs[i].id == db.families[i].id)
      && (forall i :: 0 <= i < |fs| && fs[i].id != id ==> fs[i] == db.families[i])
      && (forall i :: 0 <= i < |fs| && fs[i].id == id ==> fs[i].name == name)
      && FamilyByName(fs, name) == Some(id)
      && Valid(db.(families := fs))
  {
    var k :| 0 <= k < |db.families| && db.families[k].id == id;
    RenameKeepsFamiliesValid(db.families, db.nextFamilyId, id, name);
    RenamedIsFound(Rename(db.families, id, name), id, name, k);
  }

  lemma RenameKeepsFamiliesValid(fs: seq<Family>, next: int, id: int, name: string)
    requires FamiliesValid(fs, next) && !NameTakenByOther(fs, id, name)
    ensures var r := Rename(fs, id, name);
      && FamiliesValid(r, next)
      && (forall i :: 0 <= i < |r| ==> r[i].id == fs[i].id)
      && (forall i :: 0 <= i < |r| && r[i].id != id ==> r[i] == fs[i])
      && (forall i :: 0 <= i < |r| && r[i].id == id ==> r[i] == Family(id, name))
      && (forall i :: 0 <= i < |r| && r[i].name == name ==> r[i].id == id)
  {
  }

  lemma {:induction false} RenamedIsFound(fs: seq<Family>, id: int, name: string, k: int)
    requires 0 <= k < |fs| && fs[k] == Family(id, name)
    requires forall i :: 0 <= i < |fs| && fs[i].name == name ==> fs[i].id == id
    ensures FamilyByName(fs, name) == Some(id)
  {
    if k > 0 {
      if fs[0].name != name {
        RenamedIsFound(fs[1..], id, name, k - 1);
      }
    }
  }

  // ---------------------------------------------------------------------------------
  // DELETE

  /** `DELETE /api/families?id=..`: 400 without an id, 404 when no family has the id;
      otherwise the family is removed. Unlike the bulk delete, the single delete does not
      exempt the system's own family. */
  method DeleteFamily(db: Db, id: Option<int>) returns (reply: Reply<()>, db': Db)
    ensures id.None? ==> reply == Fail(400, MissingData) && db' == db
    ensures id.Some? && !HasFamilyId(db.families, id.value) ==> reply == Fail(404, NotFound) && db' == db
    ensures id.Some? && HasFamilyId(db.families, id.value) ==>
      reply == Ok(200, ()) && db' == db.(families := DropIds(db.families, FamilyId, {id.value}))
  {
    if id.None? {
      return Fail(400, MissingData), db;
    }
    var families := DropIds(db.families, FamilyId, {id.value});
    if |families| == |db.families| {
      if HasFamilyId(db.families, id.value) {
        var i :| 0 <= i < |db.families| && db.families[i].id == id.value;
        DropIdsSome(db.families, FamilyId, {id.value}, i);
      }
      return Fail(404, NotFound), db;
    }
    if !HasFamilyId(db.families, id.value) {
      DropIdsNone(db.families, FamilyId, {id.value});
    }
    db' := db.(families := families);
    reply := Ok(200, ());
  }

  /** The delete removes exactly the families with the id. */
  lemma DeleteRemovesTheFamily(db: Db, id: int, f: Family)
    ensures f in DropIds(db.families, FamilyId, {id}) <==> f in db.families && f.id != id
  {
    DropIdsMembers(db.families, FamilyId, {id});
  }

  // ---------------------------------------------------------------------------------
  // PATCH

  /** `PATCH /api/families/bulk-delete`: nothing selected when `family_ids` is not a
      non-empty array, only the protected family when nothing is left once id 1 is dropped;
      otherwise the listed families are removed and the reply counts the rows removed. */
  method BulkDeleteFamilies(db: Db, familyIds: ArrayField<int>) returns (reply: Reply<nat>, db': Db)
    ensures !familyIds.Array? || familyIds.elems == [] ==> reply == Fail(200, NothingSelected) && db' == db
    ensures familyIds.Array? && familyIds.elems != [] && Unprotected(familyIds.elems) == [] ==>
      reply == Fail(200, OnlyProtected) && db' == db
    ensures familyIds.Array? && Unprotected(familyIds.elems) != [] ==>
      && db' == db.(families := DropIds(db.families, FamilyId, set x | x in Unprotected(familyIds.elems)))
      && reply == Ok(200, |db.families| - |db'.families|)
  {
    if !familyIds.Array? || familyIds.elems == [] {
      return Fail(200, NothingSelected), db;
    }
    var filtered := Unprotected(familyIds.elems);
    if filtered == [] {
      return Fail(200, OnlyProtected), db;
    }
    var families := DropIds(db.families, FamilyId, set x | x in filtered);
    db' := db.(families := families);
    reply := Ok(200, |db.families| - |families|);
  }

  /** The bulk delete removes exactly the listed families other than the system's own,
      which stays whatever the list says. */
  lemma BulkDeleteRemovesListed(db: Db, ids: seq<int>, f: Family)
    requires Unprotected(ids) != []
    ensures f in DropIds(db.families, FamilyId, set x | x in Unprotected(ids)) <==>
      f in db.families && (f.id == ProtectedId || f.id !in ids)
  {
    UnprotectedMembers(ids);
    DropIdsMembers(db.families, FamilyId, set x | x in Unprotected(ids));
  }

  // ---------------------------------------------------------------------------------
  // The route.

  /** `/api/families`: each method goes to its handler, any other is refused with 405. A
      refused request leaves the store as it was and a `GET` never changes it. */
  method FamiliesRoute(db: Db, req: Request) returns (reply: Reply<Answer>, db': Db)
    ensures req.Unsupported? ==> reply == Fail(405, MethodNotAllowed)
    ensures reply.Fail? ==> db' == db
    ensures req.Get? ==> db' == db && reply == Ok(200, Listed(GetFamilies(db).body))
    ensures reply.Ok? ==> match req
      case Post(_) => reply.body.Created? && reply.status == 201
      case Get => reply.body.Listed?
      case Put(_, _) => reply.body.Renamed? && |db'.families| == |db.families|
      case Delete(_) => reply.body.Deleted?
      case Patch(_) => reply.body.BulkDeleted? && reply.body.rowCount == |db.families| - |db'.families|
      case Unsupported => false
  {
    match req
    case Post(familyName) =>
      var r;
      r, db' := AddFamily(db, familyName);
      reply := if r.Ok? then Ok(201, Created(r.body)) else Fail(r.status, r.why);
    case Get =>
      db' := db;
      reply := Ok(200, Listed(GetFamilies(db).body));
    case Put(id, newName) =>
      var r;
      r, db' := RenameFamily(db, id, newName);
      reply := if r.Ok? then Ok(200, Renamed) else Fail(r.status, r.why);
    case Delete(id) =>
      var r;
      r, db' := DeleteFamily(db, id);
      reply := if r.Ok? then Ok(200, Deleted) else Fail(r.status, r.why);
    case Patch(familyIds) =>
      var r;
      r, db' := BulkDeleteFamilies(db, familyIds);
      reply := if r.Ok? then Ok(200, BulkDeleted(r.body)) else Fail(r.status, r.why);
    case Unsupported =>
      db' := db;
      reply := Fail(405, MethodNotAllowed);
  }
}
