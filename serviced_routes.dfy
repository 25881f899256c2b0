/** The serviced people's routes (`/api/serviced`): the classes of a family, the serviced
    people of a class with their attendance on a date, adding a serviced person linked to
    a servant, deleting one with all its rows, and recording the attendance of a session.
    Path and query parameters are strings in the request; they are modelled here by the
    value they name, `None` when absent or empty. */
module ServicedRoutes {
  import opened Wrappers
  import opened Http
  import opened JsString
  import opened Store

  // ---------------------------------------------------------------------------------
  // Reading.

  /** `GET /classes/:familyId`: the distinct class names of the family's serviced people.
      The names come sorted; the model gives them as a set. */
  function Classes(db: Db, familyId: int): (classes: set<Option<string>>)
    ensures forall c :: c in classes <==>
      exists i :: 0 <= i < |db.serviced| && db.serviced[i].familyId == Some(familyId) &&
                  db.serviced[i].className == c
  {
    set i | 0 <= i < |db.serviced| && db.serviced[i].familyId == Some(familyId) ::
      db.serviced[i].className
  }

  /** One entry of the class list: id, name and the status recorded for the date. */
  datatype Listed = Listed(id: int, name: string, status: Option<string>)

  function StatusOn(db: Db, id: int, date: string): Option<string> {
    if (id, date) in db.servicedAttendance then db.servicedAttendance[(id, date)].status else None
  }

  /** `GET /list/:familyId/:className?date=..`: all three are needed; then each serviced
      person of the family and class, with the status of the date or `null`. The rows come
      sorted by name; the model gives them as a set. The family id is a path segment, a
      non-empty string and so truthy even when it names 0: only its absence is refused. */
  function ListClass(db: Db, familyId: Option<int>, className: Option<string>,
                     date: Option<string>): (reply: Reply<set<Listed>>)
    ensures familyId.None? || !Truthy(className) || !Truthy(date) ==>
      reply == Fail(400, MissingData)
    ensures familyId.Some? && Truthy(className) && Truthy(date) ==>
      reply.Ok? && reply.status == 200
    ensures reply.Ok? ==> forall e :: e in reply.body <==>
      exists i :: 0 <= i < |db.serviced| && db.serviced[i].familyId == familyId &&
                  db.serviced[i].className == className &&
                  e == Listed(db.serviced[i].id, db.serviced[i].name,
                              StatusOn(db, db.serviced[i].id, date.value))
  {
    if familyId.None? || !Truthy(className) || !Truthy(date) then Fail(400, MissingData)
    else
      Ok(200, set i | 0 <= i < |db.serviced| && db.serviced[i].familyId == familyId &&
                      db.serviced[i].className == className ::
                Listed(db.serviced[i].id, db.serviced[i].name,
                       StatusOn(db, db.serviced[i].id, date.value)))
  }

  // ---------------------------------------------------------------------------------
  // Adding.

  /** The serviced person of (name, family, class), found or added, and the store after.
      The insert's `ON CONFLICT` names the (name, family, class) key only, so a name that
      another row holds under another family or class breaks the `serviced_name` key and
      the insert raises: `None`. */
  function FindOrAdd(db: Db, name: string, familyId: int, className: string): (r: Option<(Db, int)>)
    ensures r.None? <==>
      ServicedByTriple(db.serviced, name, Some(familyId), Some(className)).None? &&
      ServicedByName(db.serviced, name).Some?
    ensures r.Some? ==>
      exists i :: 0 <= i < |r.value.0.serviced| &&
                  r.value.0.serviced[i] == Serviced(r.value.1, name, Some(familyId), Some(className))
  {
    match ServicedByTriple(db.serviced, name, Some(familyId), Some(className))
    case Some(id) =>
      var i :| 0 <= i < |db.serviced| && db.serviced[i].id == id && db.serviced[i].name == name &&
               db.serviced[i].familyId == Some(familyId) &&
               db.serviced[i].className == Some(className);
      Some((db, id))
    case None =>
      if ServicedByName(db.serviced, name).Some? then None
      else
        var s := Serviced(db.nextServicedId, name, Some(familyId), Some(className));
        var d := db.(serviced := db.serviced + [s], nextServicedId := db.nextServicedId + 1);
        assert d.serviced[|db.serviced|] == s;
        Some((d, db.nextServicedId))
  }

  /** In a well-formed store the insert raises exactly when a row has the name under
      another family or class. */
  lemma FindOrAddFails(db: Db, name: string, familyId: int, className: string)
    requires Valid(db)
    ensures FindOrAdd(db, name, familyId, className).None? <==>
      exists i :: 0 <= i < |db.serviced| && db.serviced[i].name == name &&
                  (db.serviced[i].familyId != Some(familyId) ||
                   db.serviced[i].className != Some(className))
  {
    var ss := db.serviced;
    if i :| 0 <= i < |ss| && ss[i].name == name &&
            (ss[i].familyId != Some(familyId) || ss[i].className != Some(className)) {
      forall j | 0 <= j < |ss|
        ensures !(ss[j].name == name && ss[j].familyId == Some(familyId) &&
                  ss[j].className == Some(className))
      {
        if j < i { assert ss[j].name != ss[i].name; }
        else if i < j { assert ss[i].name != ss[j].name; }
      }
    }
  }

  /** `POST /`: all four fields are needed; the name and class are trimmed; the serviced
      person is found or added by (name, family, class) and then linked to the servant, in
      one transaction. When the insert raises, the transaction is rolled back and the reply
      is 500. */
  method AddServiced(db: Db, servicedName: Option<string>, familyId: Option<int>,
                     className: Option<string>, servantId: Option<int>)
    returns (reply: Reply<()>, db': Db)
    ensures (!Truthy(servicedName) || !TruthyInt(familyId) || !Truthy(className) ||
             !TruthyInt(servantId)) ==> reply == Fail(400, MissingData) && db' == db
    ensures Truthy(servicedName) && TruthyInt(familyId) && Truthy(className) &&
            TruthyInt(servantId) ==>
      var found := FindOrAdd(db, Trim(servicedName.value), familyId.value, Trim(className.value));
      && (found.None? ==> reply == Fail(500, ServerError) && db' == db)
      && (found.Some? ==>
            && reply == Ok(200, ())
            && db' == found.value.0.(links := found.value.0.links + {(servantId.value, found.value.1)}))
  {
    if !Truthy(servicedName) || !TruthyInt(familyId) || !Truthy(className) ||
       !TruthyInt(servantId) {
      return Fail(400, MissingData), db;
    }
    var found := FindOrAdd(db, Trim(servicedName.value), familyId.value, Trim(className.value));
    if found.None? {
      return Fail(500, ServerError), db;
    }
    db' := found.value.0.(links := found.value.0.links + {(servantId.value, found.value.1)});
    reply := Ok(200, ());
  }

  /** Adding the same serviced person twice adds one row and one link. */
  lemma AddTwiceIsAddOnce(db: Db, name: string, familyId: int, className: string,
                          servantId: int)
    requires FindOrAdd(db, name, familyId, className).Some?
    ensures var once := FindOrAdd(db, name, familyId, className).value;
      var d1 := once.0.(links := once.0.links + {(servantId, once.1)});
      FindOrAdd(d1, name, familyId, className) == Some((d1, once.1))
  {
    var once := FindOrAdd(db, name, familyId, className).value;
    var d1 := once.0.(links := once.0.links + {(servantId, once.1)});
    FirstTripleOfAdd(db, name, familyId, className);
    assert d1.serviced == once.0.serviced;
  }

  /** After the find-or-add the first row of the triple is the one found or added. */
  lemma FirstTripleOfAdd(db: Db, name: string, familyId: int, className: string)
    requires FindOrAdd(db, name, familyId, className).Some?
    ensures var r := FindOrAdd(db, name, familyId, className).value;
      ServicedByTriple(r.0.serviced, name, Some(familyId), Some(className)) == Some(r.1)
  {
    if ServicedByTriple(db.serviced, name, Some(familyId), Some(className)).None? {
      var s := Serviced(db.nextServicedId, name, Some(familyId), Some(className));
      TripleAppend(db.serviced, s, name, Some(familyId), Some(className));
    }
  }

  lemma {:induction false} TripleAppend(ss: seq<Serviced>, s: Serviced, name: string,
                                        familyId: Option<int>, className: Option<string>)
    requires ServicedByTriple(ss, name, familyId, className).None?
    requires s.name == name && s.familyId == familyId && s.className == className
    ensures ServicedByTriple(ss + [s], name, familyId, className) == Some(s.id)
  {
    if ss != [] {
      assert (ss + [s])[1..] == ss[1..] + [s];
      TripleAppend(ss[1..], s, name, familyId, className);
    }
  }

  /** A well-formed store stays well formed. */
  lemma AddKeepsValid(db: Db, name: string, familyId: int, className: string)
    requires Valid(db)
    ensures var r := FindOrAdd(db, name, familyId, className);
      r.Some? ==> Valid(r.value.0)
  {
    if ServicedByTriple(db.serviced, name, Some(familyId), Some(className)).None? &&
       ServicedByName(db.serviced, name).None? {
      AppendServicedKeepsValid(db, Serviced(db.nextServicedId, name, Some(familyId),
                                            Some(className)));
    }
  }

  // ---------------------------------------------------------------------------------
  // Deleting.

  /** `DELETE /:id`: the attendance rows, the link rows and the row of the serviced person,
      in one transaction. */
  method DeleteServiced(db: Db, id: int) returns (reply: Reply<()>, db': Db)
    ensures reply == Ok(200, ())
    ensures db' == db.(
      servicedAttendance := (map k | k in db.servicedAttendance && k.0 != id :: db.servicedAttendance[k]),
      links := (set l | l in db.links && l.1 != id),
      serviced := DropIds(db.serviced, ServicedId, {id}))
  {
    var attendance := map k | k in db.servicedAttendance && k.0 != id :: db.servicedAttendance[k];
    var links := set l | l in db.links && l.1 != id;
    var serviced := DropIds(db.serviced, ServicedId, {id});
    db' := db.(servicedAttendance := attendance, links := links, serviced := serviced);
    reply := Ok(200, ());
  }

  /** After the delete nothing refers to the id in the three tables, and every row that does
      not refer to it is still there; the users, families, class links and other tables are
      as they were. */
  lemma DeleteRemovesOnlyTheId(db: Db, id: int, d: Db)
    requires d == db.(
      servicedAttendance := (map k | k in db.servicedAttendance && k.0 != id :: db.servicedAttendance[k]),
      links := (set l | l in db.links && l.1 != id),
      serviced := DropIds(db.serviced, ServicedId, {id}))
    ensures !HasServicedId(d.serviced, id)
    ensures forall s :: s in db.serviced && s.id != id ==> s in d.serviced
    ensures forall l :: l in d.links <==> l in db.links && l.1 != id
    ensures forall k :: k in d.servicedAttendance <==> k in db.servicedAttendance && k.0 != id
    ensures d.users == db.users && d.families == db.families && d.classLinks == db.classLinks
  {
    DropIdsMembers(db.serviced, ServicedId, {id});
    forall i | 0 <= i < |d.serviced| ensures d.serviced[i].id != id {
      assert d.serviced[i] in d.serviced;
    }
  }

  // ---------------------------------------------------------------------------------
  // Recording attendance.

  /** One element of `records`. */
  datatype ServicedRecord = ServicedRecord(servicedId: int, status: Option<string>)

  /** The table after the upserts of `rs`, in order: each overwrites the status and the
      recorder of its (serviced_id, session_date). */
  function Recorded(m: map<(int, string), Mark>, rs: seq<ServicedRecord>, date: string,
                    recordedBy: int): map<(int, string), Mark>
  {
    if rs == [] then m
    else
      var r := rs[|rs| - 1];
      Recorded(m, rs[..|rs| - 1], date, recordedBy)[(r.servicedId, date) := Mark(r.status, recordedBy)]
  }

  /** `POST /attendance`: date, records and recorder are needed; a `records` that is not an
      array makes the loop throw, which rolls back and answers 500. */
  method RecordAttendance(db: Db, date: Option<string>, records: ArrayField<ServicedRecord>,
                          recordedBy: Option<int>)
    returns (reply: Reply<()>, db': Db)
    ensures !Truthy(date) || records.Falsy? || !TruthyInt(recordedBy) ==>
      reply == Fail(400, MissingData)
    ensures Truthy(date) && records.NotArray? && TruthyInt(recordedBy) ==>
      reply == Fail(500, ServerError)
    ensures reply.Fail? ==> db' == db
    ensures reply.Ok? ==>
      && Truthy(date) && records.Array? && TruthyInt(recordedBy) && reply.status == 200
      && db' == db.(servicedAttendance :=
                    Recorded(db.servicedAttendance, records.elems, date.value, recordedBy.value))
  {
    if !Truthy(date) || records.Falsy? || !TruthyInt(recordedBy) {
      return Fail(400, MissingData), db;
    }
    if records.NotArray? {
      return Fail(500, ServerError), db;
    }
    var rs := records.elems;
    var m := db.servicedAttendance;
    for i := 0 to |rs|
      invariant m == Recorded(db.servicedAttendance, rs[..i], date.value, recordedBy.value)
    {
      assert rs[..i + 1][..i] == rs[..i];
      m := m[(rs[i].servicedId, date.value) := Mark(rs[i].status, recordedBy.value)];
    }
    assert rs[..|rs|] == rs;
    db' := db.(servicedAttendance := m);
    reply := Ok(200, ());
  }

  /** A row the request does not name is as it was. */
  lemma {:induction false} RecordedUnnamed(m: map<(int, string), Mark>, rs: seq<ServicedRecord>,
                                           date: string, recordedBy: int, k: (int, string))
    requires k.1 != date || forall i :: 0 <= i < |rs| ==> rs[i].servicedId != k.0
    ensures k in Recorded(m, rs, date, recordedBy) <==> k in m
    ensures k in m ==> Recorded(m, rs, date, recordedBy)[k] == m[k]
  {
    if rs != [] {
      var init := rs[..|rs| - 1];
      assert forall i :: 0 <= i < |init| ==> init[i] == rs[i];
      RecordedUnnamed(m, init, date, recordedBy, k);
    }
  }

  /** A serviced person's last record of the request decides its status, and the request
      its recorder. */
  lemma {:induction false} RecordedLast(m: map<(int, string), Mark>, rs: seq<ServicedRecord>,
                                        date: string, recordedBy: int, i: int)
    requires 0 <= i < |rs| && forall j :: i < j < |rs| ==> rs[j].servicedId != rs[i].servicedId
    ensures (rs[i].servicedId, date) in Recorded(m, rs, date, recordedBy)
    ensures Recorded(m, rs, date, recordedBy)[(rs[i].servicedId, date)] ==
            Mark(rs[i].status, recordedBy)
  {
    if i < |rs| - 1 {
      var init := rs[..|rs| - 1];
      assert forall j :: 0 <= j < |init| ==> init[j] == rs[j];
      RecordedLast(m, init, date, recordedBy, i);
    }
  }

  /** What the class list shows after a session is recorded: the status of each serviced
      person's last record. */
  lemma RecordThenList(db: Db, rs: seq<ServicedRecord>, date: string, recordedBy: int, i: int)
    requires 0 <= i < |rs| && forall j :: i < j < |rs| ==> rs[j].servicedId != rs[i].servicedId
    ensures var d := db.(servicedAttendance := Recorded(db.servicedAttendance, rs, date, recordedBy));
      StatusOn(d, rs[i].servicedId, date) == rs[i].status
  {
    RecordedLast(db.servicedAttendance, rs, date, recordedBy, i);
  }
}
