/** The monthly attendance summary (`GET /monthly-attendance-summary?month=..`): for every
    family, the dates of the month on which servants of the family recorded monthly
    attendance. The query is a parameter: `query(month, year)` lists one row per family
    and date, with a row of `NULL` date for a family with no record in the month. */
module AttendanceSummary {
  import opened Wrappers
  import opened Http
  import opened JsObject
  import opened Grouping
  import opened MonthReport

  datatype SummaryRow = SummaryRow(familyId: nat, familyName: string, date: Option<string>,
                                   recordsCount: int)

  /** One entry of a family's `records`. */
  datatype Record = Record(date: Option<string>, submitted: bool)

  /** Every query row becomes a record, `submitted` when the row counts some attendance. */
  function Project(rows: seq<SummaryRow>): (ps: seq<Row<string, Record>>)
    ensures |ps| == |rows|
    ensures forall i :: 0 <= i < |rows| ==>
      ps[i] == Row(rows[i].familyId, rows[i].familyName,
                   Some(Record(rows[i].date, rows[i].recordsCount > 0)))
  {
    seq(|rows|, i requires 0 <= i < |rows| =>
      Row(rows[i].familyId, rows[i].familyName, Some(Record(rows[i].date, rows[i].recordsCount > 0))))
  }

  /** The route. */
  method SummaryRoute(httpMethod: string, month: Option<string>,
                      query: (string, int) -> seq<SummaryRow>)
    returns (reply: Reply<seq<Group<string, Record>>>)
    ensures httpMethod != "GET" ==> reply == Fail(405, MethodNotAllowed)
    ensures httpMethod == "GET" && !Truthy(month) ==> reply == Fail(400, MissingData)
    ensures httpMethod == "GET" && Truthy(month) ==>
      reply == Ok(200, Grouped(Project(query(month.value, ReportYear(month.value)))))
  {
    if httpMethod != "GET" {
      return Fail(405, MethodNotAllowed);
    }
    if !Truthy(month) {
      return Fail(400, MissingData);
    }
    var year := ReportYear(month.value);
    var rows := query(month.value, year);
    var families := GroupRows(Project(rows));
    reply := Ok(200, families);
  }

  /** No query row is lost or counted twice: the families' records together number as
      many as the query rows. */
  lemma EveryRowIsARecord(rows: seq<SummaryRow>)
    ensures SumOver(KeysOf(Project(rows)), ItemCounts(Project(rows))) == |rows|
  {
    TotalItems(Project(rows));
    CountAll(rows);
  }

  lemma {:induction false} CountAll(rows: seq<SummaryRow>)
    ensures CountItems(Project(rows)) == |rows|
  {
    if rows != [] {
      var init := rows[..|rows| - 1];
      assert Project(rows)[..|rows| - 1] == Project(init);
      CountAll(init);
    }
  }

  /** Each family of the query gets one entry, in ascending id order, named as in its
      first row; the record of every query row is in its family's entry. */
  lemma FamilyEntries(rows: seq<SummaryRow>, i: int)
    requires 0 <= i < |rows|
    ensures exists j ::
              && 0 <= j < |Grouped(Project(rows))|
              && KeysOf(Project(rows))[j] == rows[i].familyId
              && Record(rows[i].date, rows[i].recordsCount > 0) in Grouped(Project(rows))[j].items
  {
    EntryOf(Project(rows), i);
  }
}
