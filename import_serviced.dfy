/** The serviced import (`POST /import-serviced`): the sheet's keys are trimmed and
    lower-cased and its cells cleaned; every row with a serviced name, a family name, a
    class name and a servant username adds its family when new; when the servant exists
    the serviced person is added by name when new and linked to the servant, all in one
    transaction. `file` is `None` when no file was uploaded, and otherwise the rows of its
    first sheet. The reply carries the two counts of the message: serviced people added
    and links added. */
module ImportServiced {
  import opened Wrappers
  import opened Http
  import opened JsString
  import opened Store
  import opened Helpers
  import opened Sheet

  datatype Counts = Counts(imported: nat, linked: nat)

  // ---------------------------------------------------------------------------------
  // Cleaning the sheet.

  /** `clean`: every white-space run becomes one space and the result is trimmed;
      `undefined` gives `''`. */
  function Clean(v: Option<string>): (r: string)
    ensures Trimmed(r) && SingleSpaced(r)
    ensures v.None? ==> r == ""
  {
    if v.None? then ""
    else
      TrimKeepsSingleSpaced(CollapseWs(v.value));
      Trim(CollapseWs(v.value))
  }

  /** Cleaning a cleaned value changes nothing, so the second `clean` inside the loop is
      harmless. */
  lemma CleanIdempotent(v: Option<string>)
    ensures Clean(Some(Clean(v))) == Clean(v)
  {
    var r := Clean(v);
    CollapseOfSingleSpaced(r);
    TrimOfTrimmed(r);
  }

  /** `key.toString().trim().toLowerCase()`. */
  function NormKey(k: string): string {
    ToLower(Trim(k))
  }

  /** The cleaned row: each key normalised and each cell cleaned, in column order, so a
      later column whose key normalises the same way wins. */
  function CleanRow(row: SheetRow): (c: SheetRow)
    ensures |c| == |row|
    ensures forall i :: 0 <= i < |row| ==> c[i] == (NormKey(row[i].0), Clean(Some(row[i].1)))
  {
    seq(|row|, i requires 0 <= i < |row| => (NormKey(row[i].0), Clean(Some(row[i].1))))
  }

  /** Two columns whose keys normalise alike land on one key of the cleaned row, and the
      later one's cleaned cell is what the key holds. */
  lemma CleanRowLastWins(row: SheetRow, k: string, i: int)
    requires 0 <= i < |row| && NormKey(row[i].0) == k
    requires forall j :: i < j < |row| ==> NormKey(row[j].0) != k
    ensures Cell(CleanRow(row), k) == Some(Clean(Some(row[i].1)))
  {
    CellIsLast(CleanRow(row), k, i);
  }

  /** `required.every(f => r[f] && r[f] !== '')`. */
  predicate ValidRecord(c: SheetRow) {
    && Truthy(Cell(c, "serviced_name")) && Truthy(Cell(c, "family_name"))
    && Truthy(Cell(c, "class_name")) && Truthy(Cell(c, "servant_username"))
  }

  /** `data.map(cleanRow)`. */
  function CleanRows(data: seq<SheetRow>): (cs: seq<SheetRow>)
    ensures |cs| == |data|
    ensures forall i :: 0 <= i < |data| ==> cs[i] == CleanRow(data[i])
  {
    seq(|data|, i requires 0 <= i < |data| => CleanRow(data[i]))
  }

  /** `cleaned.filter(ValidRecord)`. */
  function Complete(cs: seq<SheetRow>): (rs: seq<SheetRow>)
    ensures |rs| <= |cs|
  {
    if cs == [] then []
    else
      var last := cs[|cs| - 1];
      Complete(cs[..|cs| - 1]) + (if ValidRecord(last) then [last] else [])
  }

  function ValidRecords(data: seq<SheetRow>): (rs: seq<SheetRow>)
    ensures |rs| <= |data|
  {
    Complete(CleanRows(data))
  }

  lemma {:induction false} CompleteMembers(cs: seq<SheetRow>)
    ensures forall c :: c in Complete(cs) <==> c in cs && ValidRecord(c)
  {
    if cs != [] {
      var init := cs[..|cs| - 1];
      CompleteMembers(init);
      assert cs == init + [cs[|cs| - 1]];
    }
  }

  /** The valid records are the cleaned data rows that have the four fields. */
  lemma ValidRecordsMembers(data: seq<SheetRow>)
    ensures forall c :: c in ValidRecords(data) <==>
      ValidRecord(c) && exists i :: 0 <= i < |data| && c == CleanRow(data[i])
  {
    var cs := CleanRows(data);
    CompleteMembers(cs);
    forall c | c in cs ensures exists i :: 0 <= i < |data| && c == CleanRow(data[i]) {
      var i :| 0 <= i < |cs| && cs[i] == c;
    }
  }

  // ---------------------------------------------------------------------------------
  // One record.

  /** The fields the loop reads from a record. */
  function ServicedName(c: SheetRow): string { Clean(Cell(c, "serviced_name")) }

  function FamilyOf(c: SheetRow): string {
    NormalizeFamilyName(Some(Clean(Cell(c, "family_name"))))
  }

  function ServantOf(c: SheetRow): string {
    NormalizeUsername(Some(Clean(Cell(c, "servant_username"))))
  }

  /** `INSERT INTO serviced (serviced_name) ... ON CONFLICT (serviced_name) DO NOTHING`,
      then the id of the new row or of the one that has the name; `true` when a row was
      added. Only the name is stored. */
  function AddServiced(db: Db, name: string): (r: (Db, int, bool))
    ensures r.2 <==> ServicedByName(db.serviced, name).None?
    ensures exists j :: 0 <= j < |r.0.serviced| && r.0.serviced[j].name == name
                       && r.0.serviced[j].id == r.1
  {
    match ServicedByName(db.serviced, name)
    case Some(id) => (db, id, false)
    case None =>
      var s := Serviced(db.nextServicedId, name, None, None);
      var d := db.(serviced := db.serviced + [s], nextServicedId := db.nextServicedId + 1);
      assert d.serviced[|db.serviced|] == s;
      (d, db.nextServicedId, true)
  }

  /** The serviced half of a record whose servant has the id `servantId`: the serviced
      person is found or added, then linked to the servant when not linked yet. */
  function LinkServiced(db: Db, counts: Counts, servantId: int, name: string): (Db, Counts) {
    var added := AddServiced(db, name);
    var link := (servantId, added.1);
    (added.0.(links := added.0.links + {link}),
     Counts(counts.imported + (if added.2 then 1 else 0),
            counts.linked + (if link in added.0.links then 0 else 1)))
  }

  /** The store and counts after one record: its family is added when new; a record whose
      servant is unknown stops there. */
  function Step(db: Db, counts: Counts, c: SheetRow): (Db, Counts) {
    var inserted := InsertFamilyIfAbsent(db, FamilyOf(c));
    var i := FindUser(inserted.0.users, ServantOf(c));
    if i == |inserted.0.users| then (inserted.0, counts)
    else LinkServiced(inserted.0, counts, inserted.0.users[i].id, ServicedName(c))
  }

  /** The store and counts after the records `rs`, in order. */
  function ImportAll(db: Db, rs: seq<SheetRow>): (Db, Counts) {
    if rs == [] then (db, Counts(0, 0))
    else
      var before := ImportAll(db, rs[..|rs| - 1]);
      Step(before.0, before.1, rs[|rs| - 1])
  }

  lemma ImportAllSnoc(db: Db, rs: seq<SheetRow>, i: int)
    requires 0 <= i < |rs|
    ensures var before := ImportAll(db, rs[..i]);
      ImportAll(db, rs[..i + 1]) == Step(before.0, before.1, rs[i])
  {
    assert rs[..i + 1][..i] == rs[..i];
  }

  /** The route. An error reply leaves the store as it was. */
  method ImportServicedRoute(db: Db, httpMethod: string, file: Option<seq<SheetRow>>)
    returns (reply: Reply<Counts>, db': Db)
    ensures httpMethod != "POST" ==> reply == Fail(405, MethodNotAllowed)
    ensures httpMethod == "POST" && file.None? ==> reply == Fail(400, NoFile)
    ensures httpMethod == "POST" && file.Some? && file.value == [] ==>
              reply == Fail(400, EmptySheet)
    ensures httpMethod == "POST" && file.Some? && file.value != [] && ValidRecords(file.value) == [] ==>
              reply == Fail(400, NoValidRecords)
    ensures reply.Fail? ==> db' == db
    ensures reply.Ok? ==>
      && httpMethod == "POST" && file.Some? && ValidRecords(file.value) != []
      && reply.status == 200
      && (db', reply.body) == ImportAll(db, ValidRecords(file.value))
  {
    db' := db;
    if httpMethod != "POST" {
      return Fail(405, MethodNotAllowed), db';
    }
    if file.None? {
      return Fail(400, NoFile), db';
    }
    var data := file.value;
    if |data| == 0 {
      return Fail(400, EmptySheet), db';
    }
    var validRecords := ValidRecords(data);
    if |validRecords| == 0 {
      return Fail(400, NoValidRecords), db';
    }
    var counts;
    db', counts := ImportRecords(db, validRecords);
    reply := Ok(200, counts);
  }

  /** The transaction: the records one after another. */
  method ImportRecords(db: Db, rs: seq<SheetRow>) returns (db': Db, counts: Counts)
    ensures (db', counts) == ImportAll(db, rs)
  {
    db', counts := db, Counts(0, 0);
    var i := 0;
    while i < |rs|
      invariant 0 <= i <= |rs|
      invariant (db', counts) == ImportAll(db, rs[..i])
    {
      ImportAllSnoc(db, rs, i);
      db', counts := ImportRecord(db', counts, rs[i]);
      i := i + 1;
    }
    assert rs[..i] == rs;
  }

  /** The body of the loop for one record. */
  method ImportRecord(db: Db, counts: Counts, record: SheetRow) returns (db': Db, counts': Counts)
    ensures (db', counts') == Step(db, counts, record)
  {
    var inserted := InsertFamilyIfAbsent(db, FamilyOf(record));
    db', counts' := inserted.0, counts;
    var i := FindUser(db'.users, ServantOf(record));
    if i < |db'.users| {
      db', counts' := LinkRecord(db', counts, db'.users[i].id, ServicedName(record));
    }
  }

  /** The serviced insert and the link insert of one record. */
  method LinkRecord(db: Db, counts: Counts, servantId: int, name: string)
    returns (db': Db, counts': Counts)
    ensures (db', counts') == LinkServiced(db, counts, servantId, name)
  {
    var added := AddServiced(db, name);
    var imported := counts.imported;
    if added.2 {
      imported := imported + 1;
    }
    var link := (servantId, added.1);
    var linked := counts.linked;
    if link !in added.0.links {
      linked := linked + 1;
    }
    db' := added.0.(links := added.0.links + {link});
    counts' := Counts(imported, linked);
  }

  // ---------------------------------------------------------------------------------
  // What the import promises.

  /** `d` is `db` with families and serviced people appended and links added, the users and
      every other table as they were. */
  predicate Extends(db: Db, d: Db) {
    && d.users == db.users
    && |db.families| <= |d.families| && d.families[..|db.families|] == db.families
    && |db.serviced| <= |d.serviced| && d.serviced[..|db.serviced|] == db.serviced
    && db.links <= d.links
    && d.classLinks == db.classLinks && d.manualCounts == db.manualCounts
    && d.monthly == db.monthly && d.servantAttendance == db.servantAttendance
    && d.familySummary == db.familySummary && d.servicedAttendance == db.servicedAttendance
  }

  lemma ExtendsTrans(a: Db, b: Db, c: Db)
    requires Extends(a, b) && Extends(b, c)
    ensures Extends(a, c)
  {
    assert c.families[..|a.families|] == c.families[..|b.families|][..|a.families|];
    assert c.serviced[..|a.serviced|] == c.serviced[..|b.serviced|][..|a.serviced|];
  }

  /** The counts of `d` over `db`: the serviced people and links it adds. */
  predicate Counted(db: Db, d: Db, before: Counts, after: Counts) {
    && after.imported - before.imported == |d.serviced| - |db.serviced|
    && after.linked - before.linked == |d.links| - |db.links|
  }

  /** Each count moves on by at most one per record. */
  predicate AtMostOneEach(before: Counts, after: Counts) {
    && before.imported <= after.imported <= before.imported + 1
    && before.linked <= after.linked <= before.linked + 1
  }

  lemma InsertFamilyExtends(db: Db, name: string)
    ensures var d := InsertFamilyIfAbsent(db, name).0;
      Extends(db, d) && d.serviced == db.serviced && d.links == db.links
  {
    var d := InsertFamilyIfAbsent(db, name).0;
    assert d.families[..|db.families|] == db.families;
    assert d.serviced[..|db.serviced|] == db.serviced;
  }

  lemma LinkServicedExtends(db: Db, counts: Counts, servantId: int, name: string)
    ensures var (d, n) := LinkServiced(db, counts, servantId, name);
      Extends(db, d) && Counted(db, d, counts, n) && AtMostOneEach(counts, n)
  {
    var added := AddServiced(db, name);
    var d := added.0;
    assert d.families[..|db.families|] == db.families;
    assert d.serviced[..|db.serviced|] == db.serviced;
    assert |d.serviced| == |db.serviced| + (if added.2 then 1 else 0);
    var link := (servantId, added.1);
    if link !in d.links {
      assert |d.links + {link}| == |d.links| + 1;
    } else {
      assert d.links + {link} == d.links;
    }
  }

  /** One record extends the store and counts what it adds. */
  lemma StepExtends(db: Db, counts: Counts, c: SheetRow)
    ensures var (d, n) := Step(db, counts, c);
      Extends(db, d) && Counted(db, d, counts, n) && AtMostOneEach(counts, n)
  {
    var inserted := InsertFamilyIfAbsent(db, FamilyOf(c));
    InsertFamilyExtends(db, FamilyOf(c));
    var i := FindUser(inserted.0.users, ServantOf(c));
    if i < |inserted.0.users| {
      LinkServicedExtends(inserted.0, counts, inserted.0.users[i].id, ServicedName(c));
      ExtendsTrans(db, inserted.0, Step(db, counts, c).0);
    } else {
      assert inserted.0.serviced[..|db.serviced|] == db.serviced;
    }
  }

  /** The import only adds: it keeps every family, user and serviced person, links every
      servant it linked before, leaves the other tables alone, and its two counts are the
      serviced people and the links it adds, neither more than the records. */
  lemma {:induction false} ImportGrows(db: Db, rs: seq<SheetRow>)
    ensures var (d, n) := ImportAll(db, rs);
      && Extends(db, d) && Counted(db, d, Counts(0, 0), n)
      && n.imported <= |rs| && n.linked <= |rs|
  {
    if rs == [] {
      assert db.families[..|db.families|] == db.families;
      assert db.serviced[..|db.serviced|] == db.serviced;
    } else {
      var before := ImportAll(db, rs[..|rs| - 1]);
      ImportGrows(db, rs[..|rs| - 1]);
      StepExtends(before.0, before.1, rs[|rs| - 1]);
      ExtendsTrans(db, before.0, ImportAll(db, rs).0);
    }
  }

  /** A well-formed store stays well formed. */
  lemma {:induction false} ImportKeepsValid(db: Db, rs: seq<SheetRow>)
    requires Valid(db)
    ensures Valid(ImportAll(db, rs).0)
  {
    if rs != [] {
      var before := ImportAll(db, rs[..|rs| - 1]);
      ImportKeepsValid(db, rs[..|rs| - 1]);
      StepKeepsValid(before.0, before.1, rs[|rs| - 1]);
    }
  }

  lemma StepKeepsValid(db: Db, counts: Counts, c: SheetRow)
    requires Valid(db)
    ensures Valid(Step(db, counts, c).0)
  {
    InsertFamilyKeepsValid(db, FamilyOf(c));
    LinkStepKeepsValid(InsertFamilyIfAbsent(db, FamilyOf(c)).0, counts, c);
  }

  /** The second half of a record's step keeps the store well formed. */
  lemma LinkStepKeepsValid(d: Db, counts: Counts, c: SheetRow)
    requires Valid(d)
    ensures var i := FindUser(d.users, ServantOf(c));
      Valid(if i == |d.users| then d
            else LinkServiced(d, counts, d.users[i].id, ServicedName(c)).0)
  {
    var i := FindUser(d.users, ServantOf(c));
    if i < |d.users| {
      LinkServicedKeepsValid(d, counts, d.users[i].id, ServicedName(c));
    }
  }

  lemma LinkServicedKeepsValid(db: Db, counts: Counts, servantId: int, name: string)
    requires Valid(db)
    ensures Valid(LinkServiced(db, counts, servantId, name).0)
  {
    if ServicedByName(db.serviced, name).None? {
      AppendServicedKeepsValid(db, Serviced(db.nextServicedId, name, None, None));
    }
  }

  /** `servantId` is linked in `d` to a serviced person named `name`. */
  predicate LinkedTo(d: Db, servantId: int, name: string) {
    exists j :: 0 <= j < |d.serviced| && d.serviced[j].name == name &&
                (servantId, d.serviced[j].id) in d.links
  }

  lemma ExtendsKeepsLink(db: Db, d: Db, servantId: int, name: string)
    requires Extends(db, d) && LinkedTo(db, servantId, name)
    ensures LinkedTo(d, servantId, name)
  {
    var j :| 0 <= j < |db.serviced| && db.serviced[j].name == name &&
             (servantId, db.serviced[j].id) in db.links;
    assert d.serviced[j] == d.serviced[..|db.serviced|][j];
  }

  /** After one record whose servant exists, the servant is linked to a serviced person of
      the record's name. */
  lemma StepLinks(db: Db, counts: Counts, c: SheetRow)
    requires FindUser(db.users, ServantOf(c)) < |db.users|
    ensures LinkedTo(Step(db, counts, c).0, db.users[FindUser(db.users, ServantOf(c))].id,
                     ServicedName(c))
  {
    var inserted := InsertFamilyIfAbsent(db, FamilyOf(c));
    assert inserted.0.users == db.users;
    var i := FindUser(db.users, ServantOf(c));
    var added := AddServiced(inserted.0, ServicedName(c));
    var j :| 0 <= j < |added.0.serviced| && added.0.serviced[j].name == ServicedName(c)
             && added.0.serviced[j].id == added.1;
    var d := Step(db, counts, c).0;
    assert d.serviced[j] == added.0.serviced[j];
  }

  /** After the import, the servant of every record whose servant exists is linked to a
      serviced person of the record's name; a record whose servant is unknown links
      nothing. */
  lemma {:induction false} EveryKnownServantLinked(db: Db, rs: seq<SheetRow>, k: int)
    requires 0 <= k < |rs| && FindUser(db.users, ServantOf(rs[k])) < |db.users|
    ensures LinkedTo(ImportAll(db, rs).0, db.users[FindUser(db.users, ServantOf(rs[k]))].id,
                     ServicedName(rs[k]))
  {
    if k < |rs| - 1 {
      assert rs[..|rs| - 1][k] == rs[k];
      EveryKnownServantLinked(db, rs[..|rs| - 1], k);
      EarlierLinkKept(db, rs, k);
    } else {
      LastLinked(db, rs);
    }
  }

  lemma LastLinked(db: Db, rs: seq<SheetRow>)
    requires 0 < |rs| && FindUser(db.users, ServantOf(rs[|rs| - 1])) < |db.users|
    ensures LinkedTo(ImportAll(db, rs).0, db.users[FindUser(db.users, ServantOf(rs[|rs| - 1]))].id,
                     ServicedName(rs[|rs| - 1]))
  {
    var before := ImportAll(db, rs[..|rs| - 1]);
    ImportGrows(db, rs[..|rs| - 1]);
    StepLinks(before.0, before.1, rs[|rs| - 1]);
  }

  lemma EarlierLinkKept(db: Db, rs: seq<SheetRow>, k: int)
    requires 0 <= k < |rs| - 1 && FindUser(db.users, ServantOf(rs[k])) < |db.users|
    requires LinkedTo(ImportAll(db, rs[..|rs| - 1]).0,
                      db.users[FindUser(db.users, ServantOf(rs[k]))].id, ServicedName(rs[k]))
    ensures LinkedTo(ImportAll(db, rs).0, db.users[FindUser(db.users, ServantOf(rs[k]))].id,
                     ServicedName(rs[k]))
  {
    var before := ImportAll(db, rs[..|rs| - 1]);
    StepExtends(before.0, before.1, rs[|rs| - 1]);
    ExtendsKeepsLink(before.0, ImportAll(db, rs).0,
                     db.users[FindUser(db.users, ServantOf(rs[k]))].id, ServicedName(rs[k]));
  }
}
