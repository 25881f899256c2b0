/** The servants import (`POST /import-servants`): every row of the uploaded sheet that has
    a username, a password and a family name adds the family when it is new and the user
    when the username is new, all in one transaction. The password hash is a parameter
    (`hash`), standing for `bcrypt.hash(password, 10)`; `file` is `None` when no file was
    uploaded, and otherwise the rows of its first sheet. */
module ImportServants {
  import opened Wrappers
  import opened Http
  import opened JsString
  import opened Store
  import opened Helpers
  import opened Sheet

  /** `requiredFields.every(field => r[field])`. */
  predicate ValidRow(r: SheetRow) {
    Truthy(Cell(r, "username")) && Truthy(Cell(r, "password")) && Truthy(Cell(r, "family_name"))
  }

  /** `data.filter(ValidRow)`. */
  function ValidRows(data: seq<SheetRow>): (rows: seq<SheetRow>)
    ensures |rows| <= |data|
    ensures forall i :: 0 <= i < |rows| ==> ValidRow(rows[i])
  {
    if data == [] then []
    else
      var last := data[|data| - 1];
      ValidRows(data[..|data| - 1]) + (if ValidRow(last) then [last] else [])
  }

  lemma {:induction false} ValidRowsMembers(data: seq<SheetRow>)
    ensures forall r :: r in ValidRows(data) <==> r in data && ValidRow(r)
  {
    if data != [] {
      var init := data[..|data| - 1];
      ValidRowsMembers(init);
      assert data == init + [data[|data| - 1]];
    }
  }

  // ---------------------------------------------------------------------------------
  // One record.

  /** The fields the loop reads from one record. */
  function Username(r: SheetRow): string { Trim(Cell(r, "username").GetOr("")) }
  function Password(r: SheetRow): string { Trim(Cell(r, "password").GetOr("")) }

  /** `String(record.role_group || 'Khadem').trim()`. */
  function Role(r: SheetRow): (role: string)
    ensures !Truthy(Cell(r, "role_group")) ==> role == "Khadem"
  {
    TrimOfTrimmed("Khadem");
    Trim(if Truthy(Cell(r, "role_group")) then Cell(r, "role_group").value else "Khadem")
  }

  function FamilyOf(r: SheetRow): string {
    NormalizeFamilyName(Some(Trim(Cell(r, "family_name").GetOr(""))))
  }

  /** The user half of one record: the user is added, with the next user id, when the
      username is not taken yet, and then counted. */
  function AddServant(db: Db, count: nat, username: string, passwordHash: string, role: string,
                      familyId: int): (Db, nat)
  {
    if HasUsername(db.users, username) then (db, count)
    else
      (db.(users := db.users + [User(db.nextUserId, username, passwordHash, role, Some(familyId))],
           nextUserId := db.nextUserId + 1),
       count + 1)
  }

  /** The store and `importedCount` after one record: its family is added when new, then
      the user is added with that family when the username is new. */
  function Step(db: Db, count: nat, r: SheetRow, hash: string -> string): (Db, nat) {
    var inserted := InsertFamilyIfAbsent(db, FamilyOf(r));
    AddServant(inserted.0, count, Username(r), hash(Password(r)), Role(r), inserted.1)
  }

  /** The store and count after the records `rows`, in order. */
  function ImportAll(db: Db, rows: seq<SheetRow>, hash: string -> string): (Db, nat) {
    if rows == [] then (db, 0)
    else
      var before := ImportAll(db, rows[..|rows| - 1], hash);
      Step(before.0, before.1, rows[|rows| - 1], hash)
  }

  /** The records `rows[..i + 1]` are those of `rows[..i]` and then `rows[i]`. */
  lemma ImportAllSnoc(db: Db, rows: seq<SheetRow>, hash: string -> string, i: int)
    requires 0 <= i < |rows|
    ensures var before := ImportAll(db, rows[..i], hash);
      ImportAll(db, rows[..i + 1], hash) == Step(before.0, before.1, rows[i], hash)
  {
    assert rows[..i + 1][..i] == rows[..i];
  }

  /** The route. An error reply leaves the store as it was. */
  method ImportServantsRoute(db: Db, httpMethod: string, file: Option<seq<SheetRow>>,
                             hash: string -> string)
    returns (reply: Reply<nat>, db': Db)
    ensures httpMethod != "POST" ==> reply == Fail(405, MethodNotAllowed)
    ensures httpMethod == "POST" && file.None? ==> reply == Fail(400, NoFile)
    ensures httpMethod == "POST" && file.Some? && file.value == [] ==>
              reply == Fail(400, EmptySheet)
    ensures httpMethod == "POST" && file.Some? && file.value != [] && ValidRows(file.value) == [] ==>
              reply == Fail(400, NoValidRecords)
    ensures reply.Fail? ==> db' == db
    ensures reply.Ok? ==>
      && httpMethod == "POST" && file.Some? && ValidRows(file.value) != []
      && reply.status == 200
      && (db', reply.body) == ImportAll(db, ValidRows(file.value), hash)
  {
    db' := db;
    if httpMethod != "POST" {
      return Fail(405, MethodNotAllowed), db';
    }
    if file.None? {
      return Fail(400, NoFile), db';
    }
    var data := file.value;
    if |data| == 0 {
      return Fail(400, EmptySheet), db';
    }
    var validRecords := ValidRows(data);
    if |validRecords| == 0 {
      return Fail(400, NoValidRecords), db';
    }
    var importedCount := 0;
    var i := 0;
    while i < |validRecords|
      invariant 0 <= i <= |validRecords|
      invariant (db', importedCount) == ImportAll(db, validRecords[..i], hash)
    {
      ImportAllSnoc(db, validRecords, hash, i);
      db', importedCount := ImportRecord(db', importedCount, validRecords[i], hash);
      i := i + 1;
    }
    assert validRecords[..i] == validRecords;
    reply := Ok(200, importedCount);
  }

  /** The body of the loop for one record. */
  method ImportRecord(db: Db, count: nat, record: SheetRow, hash: string -> string)
    returns (db': Db, count': nat)
    ensures (db', count') == Step(db, count, record, hash)
  {
    var inserted := InsertFamilyIfAbsent(db, FamilyOf(record));
    db', count' := InsertServant(inserted.0, count, Username(record), hash(Password(record)),
                                 Role(record), inserted.1);
  }

  /** `INSERT INTO users ... ON CONFLICT (username) DO NOTHING`, counting a row inserted. */
  method InsertServant(db: Db, count: nat, username: string, passwordHash: string, role: string,
                       familyId: int)
    returns (db': Db, count': nat)
    ensures (db', count') == AddServant(db, count, username, passwordHash, role, familyId)
  {
    db', count' := db, count;
    if !HasUsername(db.users, username) {
      var user := User(db.nextUserId, username, passwordHash, role, Some(familyId));
      db' := db.(users := db.users + [user], nextUserId := db.nextUserId + 1);
      count' := count + 1;
    }
  }

  // ---------------------------------------------------------------------------------
  // What the import promises.

  /** `d` is `db` with families and users appended (and the serial values moved on), and
      every other table as it was. */
  predicate Extends(db: Db, d: Db) {
    && |db.users| <= |d.users| && d.users[..|db.users|] == db.users
    && |db.families| <= |d.families| && d.families[..|db.families|] == db.families
    && d.serviced == db.serviced && d.links == db.links && d.classLinks == db.classLinks
    && d.manualCounts == db.manualCounts && d.monthly == db.monthly
    && d.servantAttendance == db.servantAttendance && d.familySummary == db.familySummary
    && d.servicedAttendance == db.servicedAttendance
  }

  lemma ExtendsTrans(a: Db, b: Db, c: Db)
    requires Extends(a, b) && Extends(b, c)
    ensures Extends(a, c)
  {
    assert c.users[..|a.users|] == c.users[..|b.users|][..|a.users|];
    assert c.families[..|a.families|] == c.families[..|b.families|][..|a.families|];
  }

  /** Adding the family of a record extends the store. */
  lemma InsertFamilyExtends(db: Db, name: string)
    ensures Extends(db, InsertFamilyIfAbsent(db, name).0)
    ensures InsertFamilyIfAbsent(db, name).0.users == db.users
  {
    var d := InsertFamilyIfAbsent(db, name).0;
    assert d.families[..|db.families|] == db.families;
    assert d.users[..|db.users|] == db.users;
  }

  /** Adding the user of a record extends the store by at most one user, and counts it. */
  lemma AddServantExtends(db: Db, count: nat, username: string, passwordHash: string,
                          role: string, familyId: int)
    ensures var (d, n) := AddServant(db, count, username, passwordHash, role, familyId);
      && Extends(db, d)
      && |d.users| - |db.users| == n - count
      && count <= n <= count + 1
  {
    if !HasUsername(db.users, username) {
      var user := User(db.nextUserId, username, passwordHash, role, Some(familyId));
      assert (db.users + [user])[..|db.users|] == db.users;
    }
    assert db.users[..|db.users|] == db.users;
    assert db.families[..|db.families|] == db.families;
  }

  /** One record extends the store by at most one user, and counts the user it adds. */
  lemma StepGrows(db: Db, count: nat, r: SheetRow, hash: string -> string)
    ensures var (d, n) := Step(db, count, r, hash);
      && Extends(db, d)
      && |d.users| - |db.users| == n - count
      && count <= n <= count + 1
  {
    var inserted := InsertFamilyIfAbsent(db, FamilyOf(r));
    InsertFamilyExtends(db, FamilyOf(r));
    AddServantExtends(inserted.0, count, Username(r), hash(Password(r)), Role(r), inserted.1);
    ExtendsTrans(db, inserted.0, Step(db, count, r, hash).0);
  }

  /** The import only adds families and users: it keeps every existing family and user,
      counts exactly the users it adds, adds at most one per record, and leaves the other
      tables alone. */
  lemma {:induction false} ImportGrows(db: Db, rows: seq<SheetRow>, hash: string -> string)
    ensures var (d, n) := ImportAll(db, rows, hash);
      && Extends(db, d)
      && |d.users| == |db.users| + n
      && n <= |rows|
  {
    if rows == [] {
      assert db.users[..|db.users|] == db.users;
      assert db.families[..|db.families|] == db.families;
    } else {
      var init := rows[..|rows| - 1];
      ImportGrows(db, init, hash);
      var (d0, n0) := ImportAll(db, init, hash);
      StepGrows(d0, n0, rows[|rows| - 1], hash);
      ExtendsTrans(db, d0, ImportAll(db, rows, hash).0);
    }
  }

  /** A well-formed store stays well formed: ids stay distinct and usernames unique. */
  lemma {:induction false} ImportKeepsValid(db: Db, rows: seq<SheetRow>, hash: string -> string)
    requires Valid(db)
    ensures Valid(ImportAll(db, rows, hash).0)
  {
    if rows != [] {
      var init := rows[..|rows| - 1];
      ImportKeepsValid(db, init, hash);
      var (d0, n0) := ImportAll(db, init, hash);
      var r := rows[|rows| - 1];
      InsertFamilyKeepsValid(d0, FamilyOf(r));
      var (d1, familyId) := InsertFamilyIfAbsent(d0, FamilyOf(r));
      if !HasUsername(d1.users, Username(r)) {
        AppendUserKeepsValid(d1, User(d1.nextUserId, Username(r), hash(Password(r)), Role(r),
                                      Some(familyId)));
      }
    }
  }

  /** After the import every record's username is taken: by the user the record added, or
      by the user that already had it. */
  lemma {:induction false} EveryUsernameTaken(db: Db, rows: seq<SheetRow>, hash: string -> string,
                                              k: int)
    requires 0 <= k < |rows|
    ensures HasUsername(ImportAll(db, rows, hash).0.users, Username(rows[k]))
  {
    if k < |rows| - 1 {
      assert rows[..|rows| - 1][k] == rows[k];
      EveryUsernameTaken(db, rows[..|rows| - 1], hash, k);
      EarlierUsernameKept(db, rows, hash, k);
    } else {
      LastUsernameTaken(db, rows, hash);
    }
  }

  lemma LastUsernameTaken(db: Db, rows: seq<SheetRow>, hash: string -> string)
    requires 0 < |rows|
    ensures HasUsername(ImportAll(db, rows, hash).0.users, Username(rows[|rows| - 1]))
  {
    var before := ImportAll(db, rows[..|rows| - 1], hash);
    StepTakesUsername(before.0, before.1, rows[|rows| - 1], hash);
  }

  lemma EarlierUsernameKept(db: Db, rows: seq<SheetRow>, hash: string -> string, k: int)
    requires 0 <= k < |rows| - 1
    requires HasUsername(ImportAll(db, rows[..|rows| - 1], hash).0.users, Username(rows[k]))
    ensures HasUsername(ImportAll(db, rows, hash).0.users, Username(rows[k]))
  {
    var before := ImportAll(db, rows[..|rows| - 1], hash);
    StepKeepsUsername(before.0, before.1, rows[|rows| - 1], hash, Username(rows[k]));
  }

  /** A username taken before a record is still taken after it. */
  lemma StepKeepsUsername(db: Db, count: nat, r: SheetRow, hash: string -> string, name: string)
    requires HasUsername(db.users, name)
    ensures HasUsername(Step(db, count, r, hash).0.users, name)
  {
    StepGrows(db, count, r, hash);
    ExtendsKeepsUsername(db, Step(db, count, r, hash).0, name);
  }

  lemma ExtendsKeepsUsername(db: Db, d: Db, name: string)
    requires Extends(db, d) && HasUsername(db.users, name)
    ensures HasUsername(d.users, name)
  {
    var j :| 0 <= j < |db.users| && db.users[j].username == name;
    assert d.users[j] == d.users[..|db.users|][j];
  }

  /** After one record its username is taken. */
  lemma StepTakesUsername(db: Db, count: nat, r: SheetRow, hash: string -> string)
    ensures HasUsername(Step(db, count, r, hash).0.users, Username(r))
  {
    var inserted := InsertFamilyIfAbsent(db, FamilyOf(r));
    var d := Step(db, count, r, hash).0;
    if !HasUsername(inserted.0.users, Username(r)) {
      assert d.users[|inserted.0.users|].username == Username(r);
    }
  }

  /** A record without a role column adds a servant ('Khadem') of the record's family. */
  lemma DefaultRole(db: Db, count: nat, r: SheetRow, hash: string -> string)
    requires !Truthy(Cell(r, "role_group"))
    requires !HasUsername(InsertFamilyIfAbsent(db, FamilyOf(r)).0.users, Username(r))
    ensures var d := Step(db, count, r, hash).0;
      && d.users[|d.users| - 1].role == "Khadem"
      && d.users[|d.users| - 1].familyId == Some(FamilyByName(d.families, FamilyOf(r)).value)
  {
  }
}
