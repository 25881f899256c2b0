/** The monthly attendance form (`POST /monthly-attendance`): one record per servant of a
    family for a date, each upserted into `monthly_attendance` under the key
    (user_id, family_id, date), all in one transaction. The request fields are as parsed
    from the JSON body: `records` is `None` when it is not an array. */
module MonthlyAttendance {
  import opened Wrappers
  import opened Http
  import opened Store

  /** One element of `records`; the four flags as their JavaScript truthiness,
      `total_serviced` and `visited_serviced` `None` when `null` or absent. */
  datatype MonthlyRecord = MonthlyRecord(userId: int, meeting: bool, lesson: bool,
                                         communion: bool, confession: bool,
                                         totalServiced: Option<int>,
                                         visitedServiced: Option<int>)

  function Bit(b: bool): int { if b then 1 else 0 }

  /** The key a record is stored under. */
  function KeyOf(r: MonthlyRecord, familyId: int, date: string): MonthlyKey {
    MonthlyKey(r.userId, familyId, date)
  }

  /** The six stored values: each flag as 1 or 0, each total `?? 0`. */
  function ValuesOf(r: MonthlyRecord): (v: MonthlyValues)
    ensures v.meeting in {0, 1} && v.lesson in {0, 1} && v.communion in {0, 1}
    ensures v.confession in {0, 1}
    ensures (v.meeting == 1) == r.meeting && (v.lesson == 1) == r.lesson
    ensures (v.communion == 1) == r.communion && (v.confession == 1) == r.confession
    ensures r.totalServiced.Some? ==> v.totalServiced == r.totalServiced.value
    ensures r.totalServiced.None? ==> v.totalServiced == 0
    ensures r.visitedServiced.Some? ==> v.visitedServiced == r.visitedServiced.value
    ensures r.visitedServiced.None? ==> v.visitedServiced == 0
  {
    MonthlyValues(Bit(r.meeting), Bit(r.lesson), Bit(r.communion), Bit(r.confession),
                  r.totalServiced.GetOr(0), r.visitedServiced.GetOr(0))
  }

  /** The table after upserting `rs` in order: `ON CONFLICT ... DO UPDATE` overwrites all six
      values, so each upsert is a map update. */
  function Saved(m: map<MonthlyKey, MonthlyValues>, familyId: int, date: string,
                 rs: seq<MonthlyRecord>): map<MonthlyKey, MonthlyValues>
  {
    if rs == [] then m
    else
      var r := rs[|rs| - 1];
      Saved(m, familyId, date, rs[..|rs| - 1])[KeyOf(r, familyId, date) := ValuesOf(r)]
  }

  /** The index of the last record of `rs` stored under `k`, if any. */
  function LastWith(rs: seq<MonthlyRecord>, familyId: int, date: string, k: MonthlyKey)
    : (i: Option<nat>)
    ensures i.Some? ==> i.value < |rs| && KeyOf(rs[i.value], familyId, date) == k
    ensures i.Some? ==> forall j :: i.value < j < |rs| ==> KeyOf(rs[j], familyId, date) != k
    ensures i.None? ==> forall j :: 0 <= j < |rs| ==> KeyOf(rs[j], familyId, date) != k
  {
    if rs == [] then None
    else if KeyOf(rs[|rs| - 1], familyId, date) == k then Some(|rs| - 1)
    else LastWith(rs[..|rs| - 1], familyId, date, k)
  }

  /** The route. A reply other than success leaves the store as it was; success changes
      `monthly_attendance` only. */
  method MonthlyAttendanceRoute(db: Db, httpMethod: string, date: Option<string>,
                                familyId: Option<int>, records: Option<seq<MonthlyRecord>>)
    returns (reply: Reply<()>, db': Db)
    ensures httpMethod != "POST" ==> reply == Fail(405, MethodNotAllowed)
    ensures httpMethod == "POST" && (!Truthy(date) || !TruthyInt(familyId) || records.None?) ==>
              reply == Fail(200, MissingData)
    ensures reply.Fail? ==> db' == db
    ensures reply.Ok? ==>
      && httpMethod == "POST" && Truthy(date) && TruthyInt(familyId) && records.Some?
      && reply.status == 200
      && db' == db.(monthly := Saved(db.monthly, familyId.value, date.value, records.value))
  {
    db' := db;
    if httpMethod != "POST" {
      return Fail(405, MethodNotAllowed), db';
    }
    if !Truthy(date) || !TruthyInt(familyId) || records.None? {
      return Fail(200, MissingData), db';
    }
    var rs := records.value;
    var monthly := db.monthly;
    var i := 0;
    while i < |rs|
      invariant 0 <= i <= |rs|
      invariant monthly == Saved(db.monthly, familyId.value, date.value, rs[..i])
    {
      assert rs[..i + 1][..i] == rs[..i];
      monthly := monthly[KeyOf(rs[i], familyId.value, date.value) := ValuesOf(rs[i])];
      i := i + 1;
    }
    assert rs[..i] == rs;
    db' := db.(monthly := monthly);
    reply := Ok(200, ());
  }

  // ---------------------------------------------------------------------------------
  // What the upserts promise.

  /** After the upserts a key holds the values of the last record stored under it; a key
      no record names keeps what it had, and no other key appears. */
  lemma {:induction false} SavedLookup(m: map<MonthlyKey, MonthlyValues>, familyId: int,
                                       date: string, rs: seq<MonthlyRecord>, k: MonthlyKey)
    ensures k in Saved(m, familyId, date, rs) <==> k in m || LastWith(rs, familyId, date, k).Some?
    ensures LastWith(rs, familyId, date, k).Some? ==>
      Saved(m, familyId, date, rs)[k] == ValuesOf(rs[LastWith(rs, familyId, date, k).value])
    ensures LastWith(rs, familyId, date, k).None? && k in m ==>
      Saved(m, familyId, date, rs)[k] == m[k]
  {
    if rs != [] {
      SavedLookup(m, familyId, date, rs[..|rs| - 1], k);
    }
  }

  /** Every key the request adds belongs to the request's family and date. */
  lemma NewKeysOfRequest(m: map<MonthlyKey, MonthlyValues>, familyId: int, date: string,
                         rs: seq<MonthlyRecord>, k: MonthlyKey)
    requires k in Saved(m, familyId, date, rs) && k !in m
    ensures k.familyId == familyId && k.date == date
    ensures exists i :: 0 <= i < |rs| && rs[i].userId == k.userId
  {
    SavedLookup(m, familyId, date, rs, k);
  }

  /** Submitting the same records twice is submitting them once. */
  lemma {:induction false} ResubmitIdempotent(m: map<MonthlyKey, MonthlyValues>, familyId: int,
                                              date: string, rs: seq<MonthlyRecord>)
    ensures Saved(Saved(m, familyId, date, rs), familyId, date, rs) == Saved(m, familyId, date, rs)
  {
    var once := Saved(m, familyId, date, rs);
    var twice := Saved(once, familyId, date, rs);
    forall k | k in once || k in twice
      ensures (k in twice <==> k in once) && (k in twice ==> twice[k] == once[k])
    {
      SavedLookup(m, familyId, date, rs, k);
      SavedLookup(once, familyId, date, rs, k);
    }
  }
}
