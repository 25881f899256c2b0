/** The monthly report (`GET /monthly-reports?month=..&family_id=..`): the servants'
    attendance sums over one month of the service year, each turned into a percentage of
    the month's Fridays. The aggregation query is a parameter: `query(month, year)` is the
    list of per-servant sums it returns for those two parameters (the optional family
    filter is part of the query). */
module MonthReport {
  import opened Wrappers
  import opened Http
  import opened JsString
  import opened Calendar
  import opened Store
  import opened Helpers
  import opened Reports

  /** `(month || '').padStart(2, '0')`. */
  function MonthStr(month: Option<string>): (m: string)
    ensures |m| >= 2
    ensures !Truthy(month) ==> m == "00"
  {
    PadStart2(if Truthy(month) then month.value else "")
  }

  /** The service year runs from October 2025 to September 2026: the month strings
      '10', '11' and '12' belong to 2025 and every other string to 2026. */
  function ReportYear(monthStr: string): (y: int)
    ensures y == 2025 || y == 2026
  {
    if monthStr in ["10", "11", "12"] then 2025 else 2026
  }

  /** The Fridays of the requested month: `getFridaysCount(year, parseInt(monthStr))`,
      where a month that does not parse (`NaN`) matches no day and gives 0. */
  function MonthFridays(month: Option<string>): (n: nat)
    ensures ParseInt(MonthStr(month)).None? ==> n == 0
    ensures ParseInt(MonthStr(month)).Some? ==>
              n == Fridays(ReportYear(MonthStr(month)), ParseInt(MonthStr(month)).value)
  {
    var m := MonthStr(month);
    match ParseInt(m)
    case None => 0
    case Some(k) => Fridays(ReportYear(m), k)
  }

  /** The route. */
  method MonthRoute(db: Db, httpMethod: string, month: Option<string>,
                    query: (Option<int>, int) -> seq<SumRow>)
    returns (reply: Reply<seq<ReportRow>>)
    ensures httpMethod != "GET" ==> reply == Fail(405, MethodNotAllowed)
    ensures httpMethod == "GET" ==>
      var rows := query(ParseInt(MonthStr(month)), ReportYear(MonthStr(month)));
      && reply.Ok? && reply.status == 200
      && |reply.body| == |rows|
      && forall i :: 0 <= i < |rows| ==>
           reply.body[i] == FormatRow(db, MonthFridays(month), rows[i])
  {
    if httpMethod != "GET" {
      return Fail(405, MethodNotAllowed);
    }
    var monthStr := MonthStr(month);
    var year := ReportYear(monthStr);
    var rows := query(ParseInt(monthStr), year);
    if |rows| == 0 {
      return Ok(200, []);
    }
    var fridays := 0;
    if ParseInt(monthStr).Some? {
      fridays := FridaysCount(year, ParseInt(monthStr).value);
    }
    reply := Ok(200, FormatRows(db, fridays, rows));
  }

  // ---------------------------------------------------------------------------------
  // What the route promises.

  /** A month string of two or more characters is used as it is. */
  lemma ParsedMonth(s: string, m: int)
    requires |s| >= 2 && ParseInt(s) == Some(m)
    ensures MonthFridays(Some(s)) == Fridays(ReportYear(s), m)
  {
    assert MonthStr(Some(s)) == s;
  }

  /** A month written with two digits is read as its value: October to December as months
      of 2025, and every other value as a month of 2026. */
  lemma TwoDigitMonth(s: string)
    requires |s| == 2 && IsDigit(s[0]) && IsDigit(s[1])
    ensures MonthStr(Some(s)) == s
    ensures ReportYear(s) == 2025 <==> 10 <= TwoDigitValue(s) <= 12
    ensures MonthFridays(Some(s)) == Fridays(ReportYear(s), TwoDigitValue(s))
  {
    ParseTwoDigits(s);
    ParsedMonth(s, TwoDigitValue(s));
    TwoDigitYear(s);
  }

  lemma TwoDigitYear(s: string)
    requires |s| == 2 && IsDigit(s[0]) && IsDigit(s[1])
    ensures ReportYear(s) == 2025 <==> 10 <= TwoDigitValue(s) <= 12
  {
    if 10 <= TwoDigitValue(s) <= 12 {
      assert s[0] == '1';
      assert s == "10" || s == "11" || s == "12";
    }
  }

  /** A one-digit month is padded with a zero and then read as that digit. */
  lemma OneDigitMonth(c: char)
    requires IsDigit(c)
    ensures MonthStr(Some([c])) == ['0', c]
    ensures MonthFridays(Some([c])) == MonthFridays(Some(['0', c]))
  {
    assert MonthStr(Some([c])) == ['0', c];
    assert MonthStr(Some(['0', c])) == ['0', c];
    SameMonthStr(Some([c]), Some(['0', c]));
  }

  /** The denominator depends on the month only through its padded form. */
  lemma SameMonthStr(a: Option<string>, b: Option<string>)
    requires MonthStr(a) == MonthStr(b)
    ensures MonthFridays(a) == MonthFridays(b)
  {
  }

  /** The months of the service year have the Fridays of the calendar: for instance
      October is read as October 2025 (5 Fridays) and '1' as January 2026 (5 Fridays). */
  lemma ServiceYearMonths()
    ensures MonthFridays(Some("10")) == 5
    ensures MonthFridays(Some("1")) == 5
  {
    TwoDigitMonth("10");
    OneDigitMonth('1');
    TwoDigitMonth("01");
    FridaysOct2025();
    FridaysJan2026();
  }

  /** `parseInt` has no radix here, so a month written `"0x"` and one hex digit is read in
      base 16. It is not one of `"10"`..`"12"`, so it counts as a month of 2026. */
  lemma HexMonth(c: char)
    requires IsRadixDigit(c, 16)
    ensures MonthStr(Some(['0', 'x', c])) == ['0', 'x', c]
    ensures ReportYear(['0', 'x', c]) == 2026
    ensures ParseInt(MonthStr(Some(['0', 'x', c]))) == Some(DigitValue(c))
    ensures MonthFridays(Some(['0', 'x', c])) == Fridays(2026, DigitValue(c))
  {
    HexMonthStr(c);
    ParseHexDigit(c);
    ParsedMonth(['0', 'x', c], DigitValue(c));
  }

  lemma HexMonthStr(c: char)
    ensures MonthStr(Some(['0', 'x', c])) == ['0', 'x', c]
    ensures ReportYear(['0', 'x', c]) == 2026
  {
    var s := ['0', 'x', c];
    assert s[1] != "10"[1];
  }

  /** So the month `"0x1"` is January 2026, with its 5 Fridays. */
  lemma HexJanuary()
    ensures ParseInt(MonthStr(Some("0x1"))) == Some(1)
    ensures MonthFridays(Some("0x1")) == 5
  {
    HexMonth('1');
    assert ['0', 'x', '1'] == "0x1";
    FridaysJan2026();
  }

  /** Without a month the route asks for month 0 of 2026, which has no Fridays, so every
      column of every returned row is the label '0%'. */
  lemma MissingMonth(db: Db, month: Option<string>, rows: seq<SumRow>)
    requires !Truthy(month)
    ensures MonthStr(month) == "00"
    ensures ParseInt(MonthStr(month)) == Some(0) && ReportYear(MonthStr(month)) == 2026
    ensures MonthFridays(month) == 0
    ensures forall e :: e in FormatRows(db, MonthFridays(month), rows) ==>
      e.meeting == e.lesson == e.communion == e.confession == e.visits == ZeroLabel
  {
    MissingMonthIsZero(month);
    NoFridaysAllZero(db, rows);
  }

  lemma MissingMonthIsZero(month: Option<string>)
    requires !Truthy(month)
    ensures MonthStr(month) == "00"
    ensures ParseInt(MonthStr(month)) == Some(0) && ReportYear(MonthStr(month)) == 2026
    ensures MonthFridays(month) == 0
  {
    assert MonthStr(month) == "00";
    TwoDigitMonth("00");
    assert TwoDigitValue("00") == 0;
    ParseTwoDigits("00");
  }
}
