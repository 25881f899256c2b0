/** The servant performance report (`GET /reports/servant-performance?family_id=..`): for
    every servant, the attendance over the last 90 days as percentages of a fixed number
    of expected sessions, and the visits as a percentage of one visit per serviced person
    per session. The per-servant sums over `servant_attendance` are a parameter (`data`),
    since the columns they add up are written outside the routes modelled here. */
module ServantPerformance {
  import opened Wrappers
  import opened Http
  import opened Store
  import opened Helpers
  import opened Reports

  /** The label of a servant without a family: 'غير مسؤول' ("not in charge"). */
  const NO_FAMILY: string := "غير مسؤول"

  /** A row of the servants query. */
  datatype ServantRow = ServantRow(userId: int, username: string, familyName: Option<string>)

  /** The sums of the attendance query for one servant; `NULL` sums are `None`. */
  datatype PerfData = PerfData(present: Option<int>, lesson: Option<int>,
                               communion: Option<int>, confession: Option<int>,
                               visits: Option<int>)

  /** One entry of the report; the numbers are exact before `toFixed(1)`. */
  datatype PerfRow = PerfRow(username: string, familyName: string, present: Pct,
                             lesson: Pct, communion: Pct, confession: Pct, visits: Pct)

  // ---------------------------------------------------------------------------------
  // The servants query.

  /** The `WHERE` clause as written: `role_group = 'Khadem' OR role_group = 'AmeenSekra'`,
      with ` AND u.family_id = $1` appended when a family is given. `AND` binds tighter
      than `OR`, so the family condition applies to the 'AmeenSekra' rows only. */
  predicate InReportAsWritten(u: User, family: Option<int>) {
    || u.role == "Khadem"
    || (u.role == "AmeenSekra" && (family.None? || u.familyId == family))
  }

  /** The evidently intended clause: a servant of either role, of the given family. */
  predicate InReport(u: User, family: Option<int>) {
    && (u.role == "Khadem" || u.role == "AmeenSekra")
    && (family.None? || u.familyId == family)
  }

  function RowOf(fs: seq<Family>, u: User): ServantRow {
    ServantRow(u.id, u.username, FamilyNameOf(fs, u.familyId))
  }

  /** The users that `keep` selects, in table order, joined with their family names. */
  function ServantsWhere(fs: seq<Family>, us: seq<User>, keep: User -> bool): (rows: seq<ServantRow>)
    ensures |rows| <= |us|
  {
    if us == [] then []
    else
      var rest := ServantsWhere(fs, us[..|us| - 1], keep);
      var u := us[|us| - 1];
      if keep(u) then rest + [RowOf(fs, u)] else rest
  }

  /** A row is in the result exactly when it is the row of a selected user. */
  lemma {:induction false} ServantsWhereMembers(fs: seq<Family>, us: seq<User>, keep: User -> bool)
    ensures forall r :: r in ServantsWhere(fs, us, keep) <==>
      exists i :: 0 <= i < |us| && keep(us[i]) && r == RowOf(fs, us[i])
  {
    if us != [] {
      var init := us[..|us| - 1];
      ServantsWhereMembers(fs, init, keep);
      forall r | (exists i :: 0 <= i < |us| && keep(us[i]) && r == RowOf(fs, us[i]))
        ensures r in ServantsWhere(fs, us, keep)
      {
        var i :| 0 <= i < |us| && keep(us[i]) && r == RowOf(fs, us[i]);
        if i < |init| {
          assert us[i] == init[i];
        }
      }
      forall r | r in ServantsWhere(fs, us, keep)
        ensures exists i :: 0 <= i < |us| && keep(us[i]) && r == RowOf(fs, us[i])
      {
        if r in ServantsWhere(fs, init, keep) {
          var i :| 0 <= i < |init| && keep(init[i]) && r == RowOf(fs, init[i]);
          assert us[i] == init[i];
        } else {
          assert r == RowOf(fs, us[|us| - 1]);
        }
      }
    }
  }

  function ServantsAsWritten(db: Db, family: Option<int>): seq<ServantRow> {
    ServantsWhere(db.families, db.users, u => InReportAsWritten(u, family))
  }

  function Servants(db: Db, family: Option<int>): seq<ServantRow> {
    ServantsWhere(db.families, db.users, u => InReport(u, family))
  }

  /** As written, a family filter does not filter the 'Khadem' servants: each of them is
      listed whatever family was asked for. */
  lemma AsWrittenListsEveryKhadem(db: Db, family: Option<int>, i: int)
    requires 0 <= i < |db.users| && db.users[i].role == "Khadem"
    ensures RowOf(db.families, db.users[i]) in ServantsAsWritten(db, family)
  {
    ServantsWhereMembers(db.families, db.users, u => InReportAsWritten(u, family));
  }

  /** The input that shows it: a 'Khadem' of family 2 is listed in the report of family 1. */
  lemma FamilyFilterMissesKhadem()
    ensures var db := Db([], [User(1, "a", "h", "Khadem", Some(2))], [], {}, {}, map[], map[],
                         map[], map[], map[], 1, 2, 1);
      && ServantsAsWritten(db, Some(1)) == [ServantRow(1, "a", None)]
      && Servants(db, Some(1)) == []
  {
    var db := Db([], [User(1, "a", "h", "Khadem", Some(2))], [], {}, {}, map[], map[],
                 map[], map[], map[], 1, 2, 1);
    assert db.users[..0] == [];
  }

  /** With the intended clause a report for a family lists exactly the servants of that
      family, of either role. */
  lemma ServantsOfFamily(db: Db, family: Option<int>)
    ensures forall r :: r in Servants(db, family) <==>
      exists i :: 0 <= i < |db.users| && InReport(db.users[i], family) &&
                  r == RowOf(db.families, db.users[i])
  {
    ServantsWhereMembers(db.families, db.users, u => InReport(u, family));
  }

  /** The corrected query only drops rows: every servant it lists, the query as written
      lists too. */
  lemma CorrectedWithinAsWritten(db: Db, family: Option<int>)
    ensures forall r :: r in Servants(db, family) ==> r in ServantsAsWritten(db, family)
  {
    ServantsOfFamily(db, family);
    ServantsWhereMembers(db.families, db.users, u => InReportAsWritten(u, family));
  }

  // ---------------------------------------------------------------------------------
  // One entry.

  /** `maxSessions > 0 ? maxSessions : 1`. */
  function Denominator(): (d: int)
    ensures d > 0
  {
    if ExpectedSessionsCount() > 0 then ExpectedSessionsCount() else 1
  }

  /** The entry of one servant: each attendance sum (0 for `NULL`) over the expected
      sessions; the visits over serviced count times expected sessions, or 0 when the
      servant serves nobody; the family's name or the label of no family. */
  function PerfRowOf(db: Db, s: ServantRow, d: PerfData): (e: PerfRow)
    ensures e.username == s.username
    ensures e.familyName == if Truthy(s.familyName) then s.familyName.value else NO_FAMILY
    ensures e.present == Ratio(OrZero(d.present), 12)
    ensures e.lesson == Ratio(OrZero(d.lesson), 12)
    ensures e.communion == Ratio(OrZero(d.communion), 12)
    ensures e.confession == Ratio(OrZero(d.confession), 12)
    ensures ServicedCountForServant(db, s.userId) > 0 ==>
              e.visits == Ratio(OrZero(d.visits), 12 * ServicedCountForServant(db, s.userId))
    ensures ServicedCountForServant(db, s.userId) <= 0 ==> e.visits == Ratio(0, 1)
  {
    var denominator := Denominator();
    var servicedCount := ServicedCountForServant(db, s.userId);
    PerfRow(s.username,
            if Truthy(s.familyName) then s.familyName.value else NO_FAMILY,
            Ratio(OrZero(d.present), denominator), Ratio(OrZero(d.lesson), denominator),
            Ratio(OrZero(d.communion), denominator), Ratio(OrZero(d.confession), denominator),
            if servicedCount > 0 && ExpectedSessionsCount() > 0
            then Ratio(OrZero(d.visits), servicedCount * ExpectedSessionsCount())
            else Ratio(0, 1))
  }

  /** The `for` loop of the route: one entry per servant of the list, in its order. */
  method BuildReport(db: Db, servants: seq<ServantRow>, data: int -> PerfData)
    returns (report: seq<PerfRow>)
    ensures |report| == |servants|
    ensures forall i :: 0 <= i < |servants| ==>
      report[i] == PerfRowOf(db, servants[i], data(servants[i].userId))
  {
    report := [];
    var i := 0;
    while i < |servants|
      invariant 0 <= i <= |servants|
      invariant |report| == i
      invariant forall j :: 0 <= j < i ==>
        report[j] == PerfRowOf(db, servants[j], data(servants[j].userId))
    {
      var servant := servants[i];
      report := report + [PerfRowOf(db, servant, data(servant.userId))];
      i := i + 1;
    }
  }

  /** The route as written: one entry per row of the servants query as written, so a
      family filter still lists every 'Khadem'. */
  method ServantPerformanceRoute(db: Db, httpMethod: string, family: Option<int>,
                                 data: int -> PerfData)
    returns (reply: Reply<seq<PerfRow>>)
    ensures httpMethod != "GET" ==> reply == Fail(405, MethodNotAllowed)
    ensures httpMethod == "GET" ==>
      var servants := ServantsAsWritten(db, family);
      && reply.Ok? && reply.status == 200 && |reply.body| == |servants|
      && forall i :: 0 <= i < |servants| ==>
           reply.body[i] == PerfRowOf(db, servants[i], data(servants[i].userId))
  {
    if httpMethod != "GET" {
      return Fail(405, MethodNotAllowed);
    }
    var report := BuildReport(db, ServantsAsWritten(db, family), data);
    reply := Ok(200, report);
  }

  /** The route with the intended clause: one entry per servant of the family asked for,
      of either role. */
  method ServantPerformanceRouteCorrected(db: Db, httpMethod: string, family: Option<int>,
                                          data: int -> PerfData)
    returns (reply: Reply<seq<PerfRow>>)
    ensures httpMethod != "GET" ==> reply == Fail(405, MethodNotAllowed)
    ensures httpMethod == "GET" ==>
      var servants := Servants(db, family);
      && reply.Ok? && reply.status == 200 && |reply.body| == |servants|
      && forall i :: 0 <= i < |servants| ==>
           reply.body[i] == PerfRowOf(db, servants[i], data(servants[i].userId))
  {
    if httpMethod != "GET" {
      return Fail(405, MethodNotAllowed);
    }
    var report := BuildReport(db, Servants(db, family), data);
    reply := Ok(200, report);
  }

  /** The report of a servant with a manual serviced count measures the visits against
      that count, whatever links the servant has. */
  lemma ManualCountSetsVisits(db: Db, s: ServantRow, d: PerfData, links: set<(int, int)>)
    requires s.userId in db.manualCounts && db.manualCounts[s.userId] > 0
    ensures PerfRowOf(db.(links := links), s, d).visits ==
            Ratio(OrZero(d.visits), 12 * db.manualCounts[s.userId])
  {
    ManualCountOverridesLinks(db, s.userId, links);
  }
}
