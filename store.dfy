/** The database tables the routes read and write, as one value. Tables with serial ids
    (`families`, `users`, `serviced`) are sequences of rows in insertion order; tables whose
    rows are identified by their unique key are sets (the link tables) or maps keyed by the
    `ON CONFLICT` key (the attendance tables). A route that writes takes a `Db` and returns
    the new one; a rolled-back transaction returns the old one unchanged. */
module Store {
  import opened Wrappers

  datatype Family = Family(id: int, name: string)

  datatype User = User(id: int, username: string, passwordHash: string, role: string,
                       familyId: Option<int>)

  datatype Serviced = Serviced(id: int, name: string, familyId: Option<int>,
                               className: Option<string>)

  /** The conflict key of `monthly_attendance`: (user_id, family_id, date). */
  datatype MonthlyKey = MonthlyKey(userId: int, familyId: int, date: string)

  /** The six value columns of `monthly_attendance`. */
  datatype MonthlyValues = MonthlyValues(meeting: int, lesson: int, communion: int,
                                         confession: int, totalServiced: int,
                                         visitedServiced: int)

  /** The non-key columns of `servant_attendance`, whose key is (user_id, session_date). */
  datatype ServantMark = ServantMark(familyId: int, status: Option<string>,
                                     absenceReason: Option<string>, apologized: Option<bool>,
                                     recordedBy: int)

  /** The non-key columns of `family_attendance_summary`, keyed by (family_id, session_date). */
  datatype Summary = Summary(attendeesCount: int, recordedBy: int)

  /** The non-key columns of `serviced_attendance`, keyed by (serviced_id, session_date). */
  datatype Mark = Mark(status: Option<string>, recordedBy: int)

  datatype Db = Db(
    families: seq<Family>,
    users: seq<User>,
    serviced: seq<Serviced>,
    links: set<(int, int)>,          // servant_serviced_link: (servant_user_id, serviced_id)
    classLinks: set<(int, int)>,     // serviced_class_link: (serviced_id, class_id)
    manualCounts: map<int, int>,     // servant_manual_counts: servant_user_id -> manual_count
    monthly: map<MonthlyKey, MonthlyValues>,
    servantAttendance: map<(int, string), ServantMark>,
    familySummary: map<(int, string), Summary>,
    servicedAttendance: map<(int, string), Mark>,
    nextFamilyId: int,
    nextUserId: int,
    nextServicedId: int)

  // ---------------------------------------------------------------------------------
  // Well-formedness: serial ids are positive, distinct and below the next serial value,
  // and the unique columns the routes rely on are unique.

  predicate FamiliesValid(fs: seq<Family>, next: int) {
    && 0 < next
    && (forall i :: 0 <= i < |fs| ==> 0 < fs[i].id < next)
    && (forall i, j :: 0 <= i < j < |fs| ==> fs[i].id != fs[j].id && fs[i].name != fs[j].name)
  }

  predicate UsersValid(us: seq<User>, next: int) {
    && 0 < next
    && (forall i :: 0 <= i < |us| ==> 0 < us[i].id < next)
    && (forall i, j :: 0 <= i < j < |us| ==> us[i].id != us[j].id && us[i].username != us[j].username)
  }

  /** `serviced_name` is a unique key of its own (the import's `ON CONFLICT (serviced_name)`
      needs it), so it also makes the (name, family, class) key unique. */
  predicate ServicedValid(ss: seq<Serviced>, next: int) {
    && 0 < next
    && (forall i :: 0 <= i < |ss| ==> 0 < ss[i].id < next)
    && (forall i, j :: 0 <= i < j < |ss| ==> ss[i].id != ss[j].id && ss[i].name != ss[j].name)
  }

  predicate Valid(db: Db) {
    && FamiliesValid(db.families, db.nextFamilyId)
    && UsersValid(db.users, db.nextUserId)
    && ServicedValid(db.serviced, db.nextServicedId)
  }

  // ---------------------------------------------------------------------------------
  // Lookups.

  /** `SELECT family_id FROM families WHERE family_name = $1`: the first matching row. */
  function FamilyByName(fs: seq<Family>, name: string): (r: Option<int>)
    ensures r.None? <==> forall i :: 0 <= i < |fs| ==> fs[i].name != name
    ensures r.Some? ==> exists i :: 0 <= i < |fs| && fs[i].name == name && fs[i].id == r.value
  {
    if fs == [] then None
    else if fs[0].name == name then Some(fs[0].id)
    else
      var r := FamilyByName(fs[1..], name);
      assert r.Some? ==> fs[1..] != [] && exists i :: 1 <= i < |fs| && fs[i].name == name && fs[i].id == r.value by {
        if r.Some? {
          var i :| 0 <= i < |fs[1..]| && fs[1..][i].name == name && fs[1..][i].id == r.value;
          assert fs[i + 1] == fs[1..][i];
        }
      }
      r
  }

  /** `LEFT JOIN families f ON u.family_id = f.family_id`: the name of the family with the
      given id, or `NULL` when the id is `NULL` or names no family. */
  function FamilyNameOf(fs: seq<Family>, id: Option<int>): (r: Option<string>)
    ensures r.None? <==> id.None? || forall i :: 0 <= i < |fs| ==> fs[i].id != id.value
    ensures r.Some? ==> exists i :: 0 <= i < |fs| && fs[i].id == id.value && fs[i].name == r.value
  {
    if id.None? || fs == [] then None
    else if fs[0].id == id.value then Some(fs[0].name)
    else
      var r := FamilyNameOf(fs[1..], id);
      assert r.Some? ==> exists i :: 1 <= i < |fs| && fs[i].id == id.value && fs[i].name == r.value by {
        if r.Some? {
          var i :| 0 <= i < |fs[1..]| && fs[1..][i].id == id.value && fs[1..][i].name == r.value;
          assert fs[i + 1] == fs[1..][i];
        }
      }
      r
  }

  predicate HasFamilyId(fs: seq<Family>, id: int) {
    exists i :: 0 <= i < |fs| && fs[i].id == id
  }

  predicate HasUsername(us: seq<User>, name: string) {
    exists i :: 0 <= i < |us| && us[i].username == name
  }

  predicate HasUserId(us: seq<User>, id: int) {
    exists i :: 0 <= i < |us| && us[i].id == id
  }

  predicate HasServicedId(ss: seq<Serviced>, id: int) {
    exists i :: 0 <= i < |ss| && ss[i].id == id
  }

  // ---------------------------------------------------------------------------------
  // Inserts.

  /** `INSERT INTO families (family_name) VALUES ($1) ON CONFLICT (family_name) DO NOTHING`
      followed by the lookup of the family's id: the table gains a row exactly when no
      family had the name, and the id returned is the one of the family with that name. */
  function InsertFamilyIfAbsent(db: Db, name: string): (r: (Db, int))
    ensures FamilyByName(db.families, name).Some? ==> r.0 == db && r.1 == FamilyByName(db.families, name).value
    ensures FamilyByName(db.families, name).None? ==>
      && r.0 == db.(families := db.families + [Family(db.nextFamilyId, name)],
                    nextFamilyId := db.nextFamilyId + 1)
      && r.1 == db.nextFamilyId
    ensures FamilyByName(r.0.families, name) == Some(r.1)
  {
    match FamilyByName(db.families, name)
    case Some(id) => (db, id)
    case None =>
      var fs := db.families + [Family(db.nextFamilyId, name)];
      FamilyByNameAppend(db.families, Family(db.nextFamilyId, name), name);
      (db.(families := fs, nextFamilyId := db.nextFamilyId + 1), db.nextFamilyId)
  }

  lemma {:induction false} FamilyByNameAppend(fs: seq<Family>, f: Family, name: string)
    ensures FamilyByName(fs + [f], name) ==
      if FamilyByName(fs, name).Some? then FamilyByName(fs, name)
      else if f.name == name then Some(f.id) else None
  {
    if fs != [] {
      assert (fs + [f])[1..] == fs[1..] + [f];
      FamilyByNameAppend(fs[1..], f, name);
    }
  }

  /** Adding a family under a new name keeps the store well formed. */
  lemma InsertFamilyKeepsValid(db: Db, name: string)
    requires Valid(db)
    ensures Valid(InsertFamilyIfAbsent(db, name).0)
  {
  }

  /** The first row of `ss` with the given name, as `ON CONFLICT (serviced_name)` finds it. */
  function ServicedByName(ss: seq<Serviced>, name: string): (r: Option<int>)
    ensures r.None? <==> forall i :: 0 <= i < |ss| ==> ss[i].name != name
    ensures r.Some? ==> exists i :: 0 <= i < |ss| && ss[i].name == name && ss[i].id == r.value
  {
    if ss == [] then None
    else if ss[0].name == name then Some(ss[0].id)
    else
      var r := ServicedByName(ss[1..], name);
      assert r.Some? ==> exists i :: 1 <= i < |ss| && ss[i].name == name && ss[i].id == r.value by {
        if r.Some? {
          var i :| 0 <= i < |ss[1..]| && ss[1..][i].name == name && ss[1..][i].id == r.value;
          assert ss[i + 1] == ss[1..][i];
        }
      }
      r
  }

  /** The first row of `ss` with the given (serviced_name, family_id, class_name). */
  function ServicedByTriple(ss: seq<Serviced>, name: string, familyId: Option<int>,
                            className: Option<string>): (r: Option<int>)
    ensures r.None? <==> forall i :: 0 <= i < |ss| ==>
      !(ss[i].name == name && ss[i].familyId == familyId && ss[i].className == className)
    ensures r.Some? ==> exists i :: (0 <= i < |ss| && ss[i].id == r.value &&
      ss[i].name == name && ss[i].familyId == familyId && ss[i].className == className)
  {
    if ss == [] then None
    else if ss[0].name == name && ss[0].familyId == familyId && ss[0].className == className then
      Some(ss[0].id)
    else
      var r := ServicedByTriple(ss[1..], name, familyId, className);
      assert r.Some? ==> exists i :: (1 <= i < |ss| && ss[i].id == r.value &&
        ss[i].name == name && ss[i].familyId == familyId && ss[i].className == className) by {
        if r.Some? {
          var i :| 0 <= i < |ss[1..]| && ss[1..][i].id == r.value && ss[1..][i].name == name &&
            ss[1..][i].familyId == familyId && ss[1..][i].className == className;
          assert ss[i + 1] == ss[1..][i];
        }
      }
      r
  }

  /** Appending a row with a fresh serial id and an unused name keeps the serviced table
      well formed. */
  lemma AppendServicedKeepsValid(db: Db, s: Serviced)
    requires Valid(db) && s.id == db.nextServicedId
    requires forall i :: 0 <= i < |db.serviced| ==> db.serviced[i].name != s.name
    ensures Valid(db.(serviced := db.serviced + [s], nextServicedId := db.nextServicedId + 1))
  {
    var ss := db.serviced + [s];
    forall i, j | 0 <= i < j < |ss| ensures ss[i].id != ss[j].id && ss[i].name != ss[j].name {
      if j == |db.serviced| { assert ss[i] == db.serviced[i]; }
    }
  }

  /** Appending a user with a fresh serial id and an unused username keeps the store well formed. */
  lemma AppendUserKeepsValid(db: Db, u: User)
    requires Valid(db) && u.id == db.nextUserId && !HasUsername(db.users, u.username)
    ensures Valid(db.(users := db.users + [u], nextUserId := db.nextUserId + 1))
  {
    var us := db.users + [u];
    forall i, j | 0 <= i < j < |us| ensures us[i].id != us[j].id && us[i].username != us[j].username {
      if j == |us| - 1 {
        assert us[i] == db.users[i];
      }
    }
  }
  // ---------------------------------------------------------------------------------
  // Deletes.

  function FamilyId(f: Family): int { f.id }
  function UserId(u: User): int { u.id }
  function ServicedId(s: Serviced): int { s.id }

  /** `DELETE FROM t WHERE id = ANY($1)`: the rows whose id is not listed, in their order. */
  function DropIds<T>(rows: seq<T>, idOf: T -> int, ids: set<int>): (r: seq<T>)
    ensures |r| <= |rows|
  {
    if rows == [] then []
    else
      var last := rows[|rows| - 1];
      DropIds(rows[..|rows| - 1], idOf, ids) + (if idOf(last) in ids then [] else [last])
  }

  /** A row survives the delete exactly when its id is not listed. */
  lemma {:induction false} DropIdsMembers<T>(rows: seq<T>, idOf: T -> int, ids: set<int>)
    ensures forall x :: x in DropIds(rows, idOf, ids) <==> x in rows && idOf(x) !in ids
  {
    if rows != [] {
      DropIdsMembers(rows[..|rows| - 1], idOf, ids);
      assert rows == rows[..|rows| - 1] + [rows[|rows| - 1]];
    }
  }

  /** A delete that lists no id of the table removes nothing. */
  lemma {:induction false} DropIdsNone<T>(rows: seq<T>, idOf: T -> int, ids: set<int>)
    requires forall i :: 0 <= i < |rows| ==> idOf(rows[i]) !in ids
    ensures DropIds(rows, idOf, ids) == rows
  {
    if rows != [] {
      DropIdsNone(rows[..|rows| - 1], idOf, ids);
      assert rows == rows[..|rows| - 1] + [rows[|rows| - 1]];
    }
  }

  /** A delete that lists some id of the table removes at least one row. */
  lemma {:induction false} DropIdsSome<T>(rows: seq<T>, idOf: T -> int, ids: set<int>, i: int)
    requires 0 <= i < |rows| && idOf(rows[i]) in ids
    ensures |DropIds(rows, idOf, ids)| < |rows|
  {
    var init := rows[..|rows| - 1];
    if i < |rows| - 1 {
      assert init[i] == rows[i];
      DropIdsSome(init, idOf, ids, i);
    }
  }
  /** The id of the system's own user and of the system's own family, which the bulk
      deletes never remove. */
  const ProtectedId := 1

  /** `ids.filter(id => id != 1)`. */
  function Unprotected(ids: seq<int>): (r: seq<int>)
    ensures |r| <= |ids|
  {
    if ids == [] then []
    else Unprotected(ids[..|ids| - 1]) + (if ids[|ids| - 1] == ProtectedId then [] else [ids[|ids| - 1]])
  }

  /** The filter keeps exactly the listed ids other than 1. */
  lemma {:induction false} UnprotectedMembers(ids: seq<int>)
    ensures forall x :: x in Unprotected(ids) <==> x in ids && x != ProtectedId
  {
    if ids != [] {
      UnprotectedMembers(ids[..|ids| - 1]);
      assert ids == ids[..|ids| - 1] + [ids[|ids| - 1]];
    }
  }
}
