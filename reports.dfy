/** The percentage rows of the monthly and quarterly reports. Each attendance column is
    the servant's count over the reporting window divided by the number of Fridays in the
    window; the visits column divides the visits made by the servant's serviced count times
    those Fridays. A zero denominator gives the fixed label '0%'. */
module Reports {
  import opened Wrappers
  import opened Store
  import opened Helpers

  /** A percentage before `toFixed(1)`: the label '0%', or the exact value
      `count * 100 / outOf`. */
  datatype Pct = ZeroLabel | Ratio(count: int, outOf: int)

  /** One row of the aggregation query: a servant and the `SUM` of each column over the
      servant's rows in the window, `NULL` (here `None`) when no row matched. */
  datatype SumRow = SumRow(userId: nat, username: string,
                           meeting: Option<int>, lesson: Option<int>,
                           communion: Option<int>, confession: Option<int>,
                           visited: Option<int>, total: Option<int>)

  datatype ReportRow = ReportRow(username: string, meeting: Pct, lesson: Pct,
                                 communion: Pct, confession: Pct, visits: Pct)

  /** `fridays > 0 ? (sum || 0) / fridays * 100 : '0%'`. */
  function AttendancePct(sum: Option<int>, fridays: nat): (p: Pct)
    ensures p.ZeroLabel? <==> fridays == 0
    ensures p.Ratio? ==> p.count == OrZero(sum) && p.outOf == fridays && p.outOf > 0
  {
    if fridays > 0 then Ratio(OrZero(sum), fridays) else ZeroLabel
  }

  /** `servicedCount > 0 && fridays > 0 ? (visited || 0) / (servicedCount * fridays) * 100
      : '0%'`: the visits are measured against one visit per serviced person per Friday. */
  function VisitsPct(visited: Option<int>, servicedCount: int, fridays: nat): (p: Pct)
    ensures p.Ratio? <==> servicedCount > 0 && fridays > 0
    ensures p.Ratio? ==> p.count == OrZero(visited) && p.outOf == servicedCount * fridays
    ensures p.Ratio? ==> p.outOf >= fridays && p.outOf >= servicedCount
  {
    if servicedCount > 0 && fridays > 0 then Ratio(OrZero(visited), servicedCount * fridays)
    else ZeroLabel
  }

  /** The report entry of one query row. */
  function FormatRow(db: Db, fridays: nat, r: SumRow): (e: ReportRow)
    ensures e.username == r.username
    ensures e.meeting == AttendancePct(r.meeting, fridays)
    ensures e.lesson == AttendancePct(r.lesson, fridays)
    ensures e.communion == AttendancePct(r.communion, fridays)
    ensures e.confession == AttendancePct(r.confession, fridays)
    ensures e.visits == VisitsPct(r.visited, ServicedCountForServant(db, r.userId), fridays)
  {
    ReportRow(r.username,
              AttendancePct(r.meeting, fridays), AttendancePct(r.lesson, fridays),
              AttendancePct(r.communion, fridays), AttendancePct(r.confession, fridays),
              VisitsPct(r.visited, ServicedCountForServant(db, r.userId), fridays))
  }

  /** `rows.map(...)`: one entry per row, in row order. */
  function FormatRows(db: Db, fridays: nat, rows: seq<SumRow>): (report: seq<ReportRow>)
    ensures |report| == |rows|
    ensures forall i :: 0 <= i < |rows| ==> report[i] == FormatRow(db, fridays, rows[i])
  {
    seq(|rows|, i requires 0 <= i < |rows| => FormatRow(db, fridays, rows[i]))
  }

  // ---------------------------------------------------------------------------------
  // What the percentages mean.

  /** The visits column of a servant with a manual count follows that count and not the
      servant's links. */
  lemma VisitsUseManualCount(db: Db, fridays: nat, r: SumRow, links: set<(int, int)>)
    requires r.userId in db.manualCounts
    ensures FormatRow(db.(links := links), fridays, r).visits ==
            VisitsPct(r.visited, db.manualCounts[r.userId], fridays)
  {
    ManualCountOverridesLinks(db, r.userId, links);
  }

  /** Without Fridays every column of every row is the label '0%'. */
  lemma NoFridaysAllZero(db: Db, rows: seq<SumRow>)
    ensures forall e :: e in FormatRows(db, 0, rows) ==>
      e.meeting == e.lesson == e.communion == e.confession == e.visits == ZeroLabel
  {
  }
}
