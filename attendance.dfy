/** The servants' attendance of a session (`/api/attendance`). `POST` upserts one
    `servant_attendance` row per servant under the key (user_id, session_date) and the
    family's `family_attendance_summary` row under (family_id, session_date), all in one
    transaction; `GET` reads back the rows of a family and date, or lists the servants of
    a family. Request fields are as parsed from the request; identifiers that come from
    the query string are strings there and are modelled here by the number they name. */
module Attendance {
  import opened Wrappers
  import opened Http
  import opened Store

  /** One element of `records`. */
  datatype ServantRecord = ServantRecord(userId: int, status: Option<string>,
                                         absenceReason: Option<string>,
                                         apologized: Option<bool>)

  /** The body of a `GET` of records: the servants' marks of the family and date, and the
      family's summary of that date if there is one. */
  datatype Recorded = Recorded(marks: map<(int, string), ServantMark>, summary: Option<Summary>)

  // ---------------------------------------------------------------------------------
  // POST

  /** One servant's upsert: a new key gets the request's family; an existing key keeps
      its family and takes the new status, reason, apology and recorder. */
  function Mark(m: map<(int, string), ServantMark>, r: ServantRecord, familyId: int,
                date: string, recordedBy: int): map<(int, string), ServantMark>
  {
    var key := (r.userId, date);
    var fam := if key in m then m[key].familyId else familyId;
    m[key := ServantMark(fam, r.status, r.absenceReason, r.apologized, recordedBy)]
  }

  /** The table after the upserts of `rs`, in order. */
  function Marked(m: map<(int, string), ServantMark>, rs: seq<ServantRecord>, familyId: int,
                  date: string, recordedBy: int): map<(int, string), ServantMark>
  {
    if rs == [] then m
    else Mark(Marked(m, rs[..|rs| - 1], familyId, date, recordedBy), rs[|rs| - 1], familyId, date,
              recordedBy)
  }

  /** The route's checks, in order. */
  function PostCheck(date: Option<string>, records: ArrayField<ServantRecord>,
                     recordedBy: Option<int>, familyId: Option<int>, attendeesCount: Option<int>)
    : (why: Option<Why>)
    ensures why.None? <==>
      Truthy(date) && records.Array? && records.elems != [] && TruthyInt(recordedBy) &&
      TruthyInt(familyId) && attendeesCount.Some?
    ensures why == Some(MissingData) <==>
      !Truthy(date) || records.Falsy? || !TruthyInt(recordedBy) || !TruthyInt(familyId) ||
      attendeesCount.None?
  {
    if !Truthy(date) || records.Falsy? || !TruthyInt(recordedBy) || !TruthyInt(familyId) ||
       attendeesCount.None?
    then Some(MissingData)
    else if !records.Array? || records.elems == [] then Some(InvalidRecords)
    else None
  }

  /** `POST /api/attendance`. The reply carries `successCount`. */
  method PostAttendance(db: Db, date: Option<string>, records: ArrayField<ServantRecord>,
                        recordedBy: Option<int>, familyId: Option<int>,
                        attendeesCount: Option<int>)
    returns (reply: Reply<nat>, db': Db)
    ensures PostCheck(date, records, recordedBy, familyId, attendeesCount).Some? ==>
      && reply == Fail(400, PostCheck(date, records, recordedBy, familyId, attendeesCount).value)
      && db' == db
    ensures PostCheck(date, records, recordedBy, familyId, attendeesCount).None? ==>
      && reply == Ok(200, |records.elems|)
      && db' == db.(servantAttendance := Marked(db.servantAttendance, records.elems,
                                                familyId.value, date.value, recordedBy.value),
                    familySummary := db.familySummary[(familyId.value, date.value) :=
                                       Summary(attendeesCount.value, recordedBy.value)])
  {
    var why := PostCheck(date, records, recordedBy, familyId, attendeesCount);
    if why.Some? {
      return Fail(400, why.value), db;
    }
    var rs := records.elems;
    var marks := db.servantAttendance;
    var successCount := 0;
    for i := 0 to |rs|
      invariant marks == Marked(db.servantAttendance, rs[..i], familyId.value, date.value,
                                recordedBy.value)
      invariant successCount == i
    {
      assert rs[..i + 1][..i] == rs[..i];
      var key := (rs[i].userId, date.value);
      var fam := if key in marks then marks[key].familyId else familyId.value;
      marks := marks[key := ServantMark(fam, rs[i].status, rs[i].absenceReason, rs[i].apologized,
                                        recordedBy.value)];
      successCount := successCount + 1;
    }
    assert rs[..|rs|] == rs;
    var summary := Summary(attendeesCount.value, recordedBy.value);
    db' := db.(servantAttendance := marks,
               familySummary := db.familySummary[(familyId.value, date.value) := summary]);
    reply := Ok(200, successCount);
  }

  // ---------------------------------------------------------------------------------
  // GET

  /** The marks of a family's servants on a date: `WHERE session_date = $1 AND family_id = $2`.
      The stored rows are returned whole, so a mark keeps its `recordedBy`, a column the
      `SELECT` leaves out. */
  function MarksOf(m: map<(int, string), ServantMark>, date: string, familyId: int)
    : (r: map<(int, string), ServantMark>)
    ensures forall k :: k in r <==> k in m && k.1 == date && m[k].familyId == familyId
    ensures forall k :: k in r ==> r[k] == m[k]
  {
    map k | k in m && k.1 == date && m[k].familyId == familyId :: m[k]
  }

  /** `GET /api/attendance?date=..&family_id=..`: both are needed; the summary is the first
      (the only) row of the key, or `null`. */
  function GetAttendance(db: Db, date: Option<string>, familyId: Option<int>)
    : (reply: Reply<Recorded>)
    ensures !Truthy(date) || familyId.None? ==> reply == Fail(200, MissingData)
    ensures Truthy(date) && familyId.Some? ==>
      && reply.Ok? && reply.status == 200
      && reply.body.marks == MarksOf(db.servantAttendance, date.value, familyId.value)
      && (reply.body.summary.Some? <==> (familyId.value, date.value) in db.familySummary)
      && (reply.body.summary.Some? ==>
            reply.body.summary.value == db.familySummary[(familyId.value, date.value)])
  {
    if !Truthy(date) || familyId.None? then Fail(200, MissingData)
    else
      var key := (familyId.value, date.value);
      Ok(200, Recorded(MarksOf(db.servantAttendance, date.value, familyId.value),
                       if key in db.familySummary then Some(db.familySummary[key]) else None))
  }

  /** `GET /api/attendance/servants/:familyId` and `GET /api/attendance?servants=..`: the
      family's users other than admins. The rows come sorted by username; the model gives
      them as a set. */
  function ServantsOf(db: Db, familyId: Option<int>): (reply: Reply<set<User>>)
    ensures familyId.None? ==> reply == Fail(400, MissingData)
    ensures familyId.Some? ==> reply.Ok? && reply.status == 200
    ensures familyId.Some? ==> forall u :: u in reply.body <==>
      u in db.users && u.familyId == familyId && u.role != "Admin"
  {
    if familyId.None? then Fail(400, MissingData)
    else Ok(200, set u | u in db.users && u.familyId == familyId && u.role != "Admin")
  }

  // ---------------------------------------------------------------------------------
  // What the upserts promise.

  /** Some record of the request is stored under `k`. */
  predicate Named(rs: seq<ServantRecord>, date: string, k: (int, string)) {
    k.1 == date && exists i :: 0 <= i < |rs| && rs[i].userId == k.0
  }

  /** After the upserts exactly the old keys and the named ones are present; a servant
      already recorded on that date keeps the family of the first recording, a new one gets
      the request's family; a row no record names is as it was. */
  lemma {:induction false} MarkedLookup(m: map<(int, string), ServantMark>, rs: seq<ServantRecord>,
                                        familyId: int, date: string, recordedBy: int,
                                        k: (int, string))
    ensures k in Marked(m, rs, familyId, date, recordedBy) <==> k in m || Named(rs, date, k)
    ensures k in m && !Named(rs, date, k) ==> Marked(m, rs, familyId, date, recordedBy)[k] == m[k]
    ensures k in m ==> Marked(m, rs, familyId, date, recordedBy)[k].familyId == m[k].familyId
    ensures k !in m && Named(rs, date, k) ==>
      Marked(m, rs, familyId, date, recordedBy)[k].familyId == familyId
  {
    if rs != [] {
      var init := rs[..|rs| - 1];
      MarkedLookup(m, init, familyId, date, recordedBy, k);
      NamedSnoc(rs, date, k);
    }
  }

  lemma NamedSnoc(rs: seq<ServantRecord>, date: string, k: (int, string))
    requires rs != []
    ensures Named(rs, date, k) <==>
      Named(rs[..|rs| - 1], date, k) || (rs[|rs| - 1].userId, date) == k
  {
    var init := rs[..|rs| - 1];
    if Named(rs, date, k) && !((rs[|rs| - 1].userId, date) == k) {
      var i :| 0 <= i < |rs| && rs[i].userId == k.0;
      assert init[i] == rs[i];
    }
    if Named(init, date, k) {
      var i :| 0 <= i < |init| && init[i].userId == k.0;
      assert rs[i] == init[i];
    }
  }

  /** The last record of a servant decides its status, reason and apology, and the request
      decides the recorder. */
  lemma LastRecordWins(m: map<(int, string), ServantMark>, rs: seq<ServantRecord>,
                       familyId: int, date: string, recordedBy: int, i: int)
    requires 0 <= i < |rs|
    requires forall j :: i < j < |rs| ==> rs[j].userId != rs[i].userId
    ensures var after := Marked(m, rs, familyId, date, recordedBy);
      var key := (rs[i].userId, date);
      && key in after
      && after[key].status == rs[i].status && after[key].absenceReason == rs[i].absenceReason
      && after[key].apologized == rs[i].apologized && after[key].recordedBy == recordedBy
  {
    LastRecordWinsFrom(m, rs, familyId, date, recordedBy, i, |rs|);
    assert rs[..|rs|] == rs;
  }

  lemma {:induction false} LastRecordWinsFrom(m: map<(int, string), ServantMark>,
                                              rs: seq<ServantRecord>, familyId: int,
                                              date: string, recordedBy: int, i: int, n: int)
    requires 0 <= i < n <= |rs|
    requires forall j :: i < j < n ==> rs[j].userId != rs[i].userId
    ensures var after := Marked(m, rs[..n], familyId, date, recordedBy);
      var key := (rs[i].userId, date);
      && key in after
      && after[key].status == rs[i].status && after[key].absenceReason == rs[i].absenceReason
      && after[key].apologized == rs[i].apologized && after[key].recordedBy == recordedBy
  {
    assert rs[..n][..n - 1] == rs[..n - 1];
    if n - 1 > i {
      LastRecordWinsFrom(m, rs, familyId, date, recordedBy, i, n - 1);
    } else {
      assert rs[..n][n - 1] == rs[i];
    }
  }

  /** A servant recorded for the first time on the date is listed when the family's
      records of that date are read back, and the summary read back is the one posted. */
  lemma PostThenGet(db: Db, date: string, rs: seq<ServantRecord>, recordedBy: int,
                    familyId: int, attendeesCount: int, i: int)
    requires 0 <= i < |rs| && (rs[i].userId, date) !in db.servantAttendance
    requires date != ""
    ensures var db' := db.(servantAttendance := Marked(db.servantAttendance, rs, familyId, date,
                                                       recordedBy),
                           familySummary := db.familySummary[(familyId, date) :=
                                              Summary(attendeesCount, recordedBy)]);
      var got := GetAttendance(db', Some(date), Some(familyId));
      && (rs[i].userId, date) in got.body.marks
      && got.body.summary == Some(Summary(attendeesCount, recordedBy))
  {
    MarkedLookup(db.servantAttendance, rs, familyId, date, recordedBy, (rs[i].userId, date));
  }
}
