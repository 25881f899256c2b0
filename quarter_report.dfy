/** The quarterly report (`GET` with a `quarter` of Q1 .. Q4 or TEMP): the reporting
    window, its number of Fridays, and for the TEMP window, which spans two calendar years,
    the merge of the two per-year aggregations into one row per servant. */
module QuarterReport {
  import opened Wrappers
  import opened Http
  import opened Calendar
  import opened Store
  import opened Helpers
  import opened JsObject
  import opened Reports

  /** A reporting window: three months of one year, or the TEMP window, which is October to
      December 2025 followed by January and February 2026. */
  datatype Window = Fixed(year: int, months: seq<int>) | Temp

  const TEMP_2025: seq<int> := [10, 11, 12]
  const TEMP_2026: seq<int> := [1, 2]

  /** The window a `quarter` selects; anything else selects none. */
  function WindowOf(quarter: Option<string>): Option<Window> {
    if quarter == Some("Q1") then Some(Fixed(2025, [10, 11, 12]))
    else if quarter == Some("Q2") then Some(Fixed(2026, [1, 2, 3]))
    else if quarter == Some("Q3") then Some(Fixed(2026, [4, 5, 6]))
    else if quarter == Some("Q4") then Some(Fixed(2026, [7, 8, 9]))
    else if quarter == Some("TEMP") then Some(Temp)
    else None
  }

  /** The Fridays of the months `months` of `year`, added up. */
  function SumFridays(year: int, months: seq<int>): nat {
    if months == [] then 0
    else SumFridays(year, months[..|months| - 1]) + Fridays(year, months[|months| - 1])
  }

  /** The denominator of a window. */
  function WindowFridays(w: Window): nat {
    match w
    case Fixed(y, ms) => SumFridays(y, ms)
    case Temp => SumFridays(2025, TEMP_2025) + SumFridays(2026, TEMP_2026)
  }

  /** `months.forEach(m => totalFridays += getFridaysCount(year, m))`, starting from `start`. */
  method AddFridays(start: nat, year: int, months: seq<int>) returns (total: nat)
    ensures total == start + SumFridays(year, months)
  {
    total := start;
    var i := 0;
    while i < |months|
      invariant 0 <= i <= |months|
      invariant total == start + SumFridays(year, months[..i])
    {
      var n := FridaysCount(year, months[i]);
      assert months[..i + 1][..i] == months[..i];
      total := total + n;
      i := i + 1;
    }
    assert months[..i] == months;
  }

  // ---------------------------------------------------------------------------------
  // The TEMP merge.

  /** `merged[id].x += r.x || 0`: JavaScript's `+` reads a `null` left operand as 0, so the
      merged value is the sum of both values with a missing one counted as 0. */
  function AddSums(acc: SumRow, r: SumRow): SumRow {
    acc.(meeting := Some(OrZero(acc.meeting) + OrZero(r.meeting)),
         lesson := Some(OrZero(acc.lesson) + OrZero(r.lesson)),
         communion := Some(OrZero(acc.communion) + OrZero(r.communion)),
         confession := Some(OrZero(acc.confession) + OrZero(r.confession)),
         visited := Some(OrZero(acc.visited) + OrZero(r.visited)),
         total := Some(OrZero(acc.total) + OrZero(r.total)))
  }

  /** One step of the `forEach`: the first row of a servant is copied, later rows are
      added into it. */
  function Absorb(d: map<nat, SumRow>, r: SumRow): map<nat, SumRow> {
    if r.userId in d then d[r.userId := AddSums(d[r.userId], r)] else d[r.userId := r]
  }

  /** The `merged` dictionary after the `forEach` has seen `rows`. */
  function MergedDict(rows: seq<SumRow>): map<nat, SumRow> {
    if rows == [] then map[]
    else Absorb(MergedDict(rows[..|rows| - 1]), rows[|rows| - 1])
  }

  function Ids(rows: seq<SumRow>): (ids: seq<nat>)
    ensures |ids| == |rows|
    ensures forall i :: 0 <= i < |rows| ==> ids[i] == rows[i].userId
  {
    seq(|rows|, i requires 0 <= i < |rows| => rows[i].userId)
  }

  /** `Object.values(merged)`. */
  function Merged(rows: seq<SumRow>): seq<SumRow> {
    var ks := KeyList(Ids(rows));
    MergedHasKeys(rows);
    seq(|ks|, j requires 0 <= j < |ks| => MergedDict(rows)[ks[j]])
  }

  lemma {:induction false} MergedDictKeys(rows: seq<SumRow>)
    ensures forall k :: k in MergedDict(rows) <==> k in Ids(rows)
  {
    if rows != [] {
      var init := rows[..|rows| - 1];
      MergedDictKeys(init);
      assert Ids(rows) == Ids(init) + [rows[|rows| - 1].userId];
    }
  }

  lemma MergedHasKeys(rows: seq<SumRow>)
    ensures forall j :: 0 <= j < |KeyList(Ids(rows))| ==> KeyList(Ids(rows))[j] in MergedDict(rows)
  {
    MergedDictKeys(rows);
    KeyListMembers(Ids(rows));
    var ks := KeyList(Ids(rows));
    forall j | 0 <= j < |ks| ensures ks[j] in MergedDict(rows) {
      assert ks[j] in ks;
    }
  }

  lemma MergeSnoc(rows: seq<SumRow>, r: SumRow)
    ensures Ids(rows + [r]) == Ids(rows) + [r.userId]
    ensures MergedDict(rows + [r]) == Absorb(MergedDict(rows), r)
  {
    var s := rows + [r];
    assert s[..|s| - 1] == rows;
  }

  /** The key list and the dictionary after one more row of `rows`. */
  lemma MergePrefixStep(rows: seq<SumRow>, i: nat)
    requires i < |rows|
    ensures KeyList(Ids(rows[..i + 1])) == InsertKey(KeyList(Ids(rows[..i])), rows[i].userId)
    ensures MergedDict(rows[..i + 1]) == Absorb(MergedDict(rows[..i]), rows[i])
  {
    assert rows[..i + 1] == rows[..i] + [rows[i]];
    MergeSnoc(rows[..i], rows[i]);
    KeyListSnoc(Ids(rows[..i]), rows[i].userId);
  }

  /** The `forEach` over the 2025 rows followed by the 2026 rows, then `Object.values`. */
  method MergeYears(rows2025: seq<SumRow>, rows2026: seq<SumRow>) returns (merged: seq<SumRow>)
    ensures merged == Merged(rows2025 + rows2026)
  {
    var rows := rows2025 + rows2026;
    var ks: seq<nat> := [];
    var dict: map<nat, SumRow> := map[];
    var i := 0;
    while i < |rows|
      invariant 0 <= i <= |rows|
      invariant ks == KeyList(Ids(rows[..i]))
      invariant dict == MergedDict(rows[..i])
    {
      var r := rows[i];
      MergePrefixStep(rows, i);
      if r.userId !in dict {
        dict := dict[r.userId := r];
      } else {
        dict := dict[r.userId := AddSums(dict[r.userId], r)];
      }
      ks := InsertKey(ks, r.userId);
      i := i + 1;
    }
    assert rows[..i] == rows;
    MergedHasKeys(rows);
    merged := Values(dict, ks);
  }

  // ---------------------------------------------------------------------------------
  // What the merge promises.

  /** The zero-filled columns of a row, the way the percentages read them. */
  datatype Tally = Tally(meeting: int, lesson: int, communion: int, confession: int,
                         visited: int, total: int)

  function TallyOf(r: SumRow): Tally {
    Tally(OrZero(r.meeting), OrZero(r.lesson), OrZero(r.communion), OrZero(r.confession),
          OrZero(r.visited), OrZero(r.total))
  }

  function Plus(a: Tally, b: Tally): Tally {
    Tally(a.meeting + b.meeting, a.lesson + b.lesson, a.communion + b.communion,
          a.confession + b.confession, a.visited + b.visited, a.total + b.total)
  }

  /** The column totals of the rows of servant `k`. */
  function TallyFor(rows: seq<SumRow>, k: nat): Tally {
    if rows == [] then Tally(0, 0, 0, 0, 0, 0)
    else
      var last := rows[|rows| - 1];
      var t := TallyFor(rows[..|rows| - 1], k);
      if last.userId == k then Plus(t, TallyOf(last)) else t
  }

  /** Index of the first row of servant `k`, or |rows| when there is none. */
  function FirstOf(rows: seq<SumRow>, k: nat): (i: nat)
    ensures i <= |rows|
    ensures i < |rows| ==> rows[i].userId == k
    ensures forall j :: 0 <= j < i ==> rows[j].userId != k
  {
    if rows == [] then 0
    else
      var i := FirstOf(rows[..|rows| - 1], k);
      if i < |rows| - 1 then i else if rows[|rows| - 1].userId == k then |rows| - 1 else |rows|
  }

  /** Every merged entry belongs to one servant, keeps the servant's row from the first
      row seen (its name), and holds, column by column, the sum of all the servant's
      rows with `NULL` counted as 0: nothing is lost and nothing counted twice. */
  lemma {:induction false} MergedDictSums(rows: seq<SumRow>)
    ensures forall k :: k in MergedDict(rows) ==>
      && FirstOf(rows, k) < |rows|
      && MergedDict(rows)[k].userId == k
      && MergedDict(rows)[k].username == rows[FirstOf(rows, k)].username
      && TallyOf(MergedDict(rows)[k]) == TallyFor(rows, k)
  {
    if rows != [] {
      var init := rows[..|rows| - 1];
      var r := rows[|rows| - 1];
      MergedDictSums(init);
      forall k | k in MergedDict(rows)
        ensures FirstOf(rows, k) < |rows|
        ensures MergedDict(rows)[k].userId == k
        ensures MergedDict(rows)[k].username == rows[FirstOf(rows, k)].username
        ensures TallyOf(MergedDict(rows)[k]) == TallyFor(rows, k)
      {
        assert MergedDict(rows) == Absorb(MergedDict(init), r);
        if k in MergedDict(init) {
          var f := FirstOf(init, k);
          assert FirstOf(rows, k) == f;
          assert rows[f] == init[f];
        } else {
          assert k == r.userId;
          MergedDictKeys(init);
          FirstOfOccurs(init, k);
          TallyForUnseen(init, k);
        }
      }
    }
  }

  /** A servant found by `FirstOf` is one of the ids. */
  lemma FirstOfOccurs(rows: seq<SumRow>, k: nat)
    ensures FirstOf(rows, k) < |rows| ==> k in Ids(rows)
  {
    if FirstOf(rows, k) < |rows| {
      assert Ids(rows)[FirstOf(rows, k)] == k;
    }
  }

  /** Before its first row a servant's totals are zero. */
  lemma {:induction false} TallyForUnseen(rows: seq<SumRow>, k: nat)
    requires FirstOf(rows, k) == |rows|
    ensures TallyFor(rows, k) == Tally(0, 0, 0, 0, 0, 0)
  {
    if rows != [] {
      var init := rows[..|rows| - 1];
      assert forall j :: 0 <= j < |init| ==> init[j] == rows[j];
      TallyForUnseen(init, k);
    }
  }

  /** A servant that never occurs gets nothing. */
  lemma {:induction false} TallyForAbsent(rows: seq<SumRow>, k: nat)
    requires k !in Ids(rows)
    ensures TallyFor(rows, k) == Tally(0, 0, 0, 0, 0, 0)
  {
    if rows != [] {
      var init := rows[..|rows| - 1];
      assert Ids(rows) == Ids(init) + [rows[|rows| - 1].userId];
      TallyForAbsent(init, k);
    }
  }

  /** The merged rows: one per servant that occurs in either year, in ascending id order,
      each holding the servant's totals over both years. */
  lemma MergedShape(rows2025: seq<SumRow>, rows2026: seq<SumRow>)
    ensures var rows := rows2025 + rows2026;
      var m := Merged(rows);
      && (forall j, n :: 0 <= j < n < |m| ==> m[j].userId < m[n].userId)
      && (forall k :: (exists j :: 0 <= j < |m| && m[j].userId == k) <==> k in Ids(rows))
      && (forall j :: 0 <= j < |m| ==>
            TallyOf(m[j]) == Plus(TallyFor(rows2025, m[j].userId), TallyFor(rows2026, m[j].userId)))
  {
    var rows := rows2025 + rows2026;
    var ks := KeyList(Ids(rows));
    var m := Merged(rows);
    MergedDictSums(rows);
    MergedDictKeys(rows);
    KeyListMembers(Ids(rows));
    MergedHasKeys(rows);
    forall j | 0 <= j < |m| ensures m[j].userId == ks[j] {
      assert m[j] == MergedDict(rows)[ks[j]];
    }
    forall k | k in Ids(rows) ensures exists j :: 0 <= j < |m| && m[j].userId == k {
      var j :| 0 <= j < |ks| && ks[j] == k;
      assert m[j].userId == k;
    }
    forall j | 0 <= j < |m|
      ensures TallyOf(m[j]) == Plus(TallyFor(rows2025, m[j].userId), TallyFor(rows2026, m[j].userId))
    {
      TallyForAppend(rows2025, rows2026, ks[j]);
    }
  }

  /** The totals over two row lists are the sums of the totals over each. */
  lemma {:induction false} TallyForAppend(a: seq<SumRow>, b: seq<SumRow>, k: nat)
    ensures TallyFor(a + b, k) == Plus(TallyFor(a, k), TallyFor(b, k))
  {
    if b == [] {
      assert a + b == a;
    } else {
      var b' := b[..|b| - 1];
      assert (a + b)[..|a + b| - 1] == a + b';
      assert (a + b)[|a + b| - 1] == b[|b| - 1];
      TallyForAppend(a, b', k);
    }
  }

  /** A servant aggregated in only one of the two years keeps that year's row. */
  lemma MergeOfOneRow(r: SumRow)
    ensures Merged([r]) == [r]
  {
    assert MergedDict([r]) == map[r.userId := r];
    assert Ids([r]) == [r.userId];
    assert KeyList([r.userId]) == [r.userId];
  }

  // ---------------------------------------------------------------------------------
  // The route.

  /** The route. `rowsFor(year, months)` is the result of the aggregation query over the
      window's months of `year` (already restricted to `family_id` when one is given). */
  method QuarterRoute(db: Db, httpMethod: string, quarter: Option<string>,
                      rowsFor: (int, seq<int>) -> seq<SumRow>)
    returns (reply: Reply<seq<ReportRow>>)
    ensures httpMethod != "GET" ==> reply == Fail(405, MethodNotAllowed)
    ensures httpMethod == "GET" && WindowOf(quarter).None? ==> reply == Fail(200, InvalidWindow)
    ensures httpMethod == "GET" && WindowOf(quarter) == Some(Temp) ==>
      reply == Ok(200, FormatRows(db, WindowFridays(Temp),
                                  Merged(rowsFor(2025, TEMP_2025) + rowsFor(2026, TEMP_2026))))
    ensures httpMethod == "GET" && WindowOf(quarter).Some? && WindowOf(quarter).value.Fixed? ==>
      var w := WindowOf(quarter).value;
      reply == Ok(200, FormatRows(db, WindowFridays(w), rowsFor(w.year, w.months)))
  {
    if httpMethod != "GET" {
      return Fail(405, MethodNotAllowed);
    }
    var window := WindowOf(quarter);
    if window.None? {
      return Fail(200, InvalidWindow);
    }
    match window.value
    case Temp =>
      var report := TempReport(db, rowsFor(2025, TEMP_2025), rowsFor(2026, TEMP_2026));
      reply := Ok(200, report);
    case Fixed(year, months) =>
      var report := FixedReport(db, year, months, rowsFor(year, months));
      reply := Ok(200, report);
  }

  /** The TEMP branch: merge the two years, count the five months' Fridays, format. */
  method TempReport(db: Db, rows2025: seq<SumRow>, rows2026: seq<SumRow>)
    returns (report: seq<ReportRow>)
    ensures report == FormatRows(db, WindowFridays(Temp), Merged(rows2025 + rows2026))
  {
    var rows := MergeYears(rows2025, rows2026);
    var totalFridays := CountTempFridays();
    report := FormatRows(db, totalFridays, rows);
  }

  /** The TEMP window's Friday count: October - December 2025, then January and
      February 2026. */
  method CountTempFridays() returns (totalFridays: nat)
    ensures totalFridays == WindowFridays(Temp)
  {
    totalFridays := AddFridays(0, 2025, TEMP_2025);
    totalFridays := AddFridays(totalFridays, 2026, TEMP_2026);
  }

  /** The Q1 .. Q4 branch: count the window's Fridays and format the query's rows. */
  method FixedReport(db: Db, year: int, months: seq<int>, rows: seq<SumRow>)
    returns (report: seq<ReportRow>)
    ensures report == FormatRows(db, WindowFridays(Fixed(year, months)), rows)
  {
    var totalFridays := AddFridays(0, year, months);
    report := FormatRows(db, totalFridays, rows);
  }

  // ---------------------------------------------------------------------------------
  // The fixed windows.

  /** The four quarters are consecutive three-month windows from October 2025 to
      September 2026, and only Q1 .. Q4 and TEMP select a window. */
  lemma QuarterWindows(quarter: Option<string>)
    ensures WindowOf(Some("Q1")) == Some(Fixed(2025, [10, 11, 12]))
    ensures WindowOf(Some("Q2")) == Some(Fixed(2026, [1, 2, 3]))
    ensures WindowOf(Some("Q3")) == Some(Fixed(2026, [4, 5, 6]))
    ensures WindowOf(Some("Q4")) == Some(Fixed(2026, [7, 8, 9]))
    ensures WindowOf(Some("TEMP")) == Some(Temp)
    ensures WindowOf(quarter).Some? <==>
      quarter in {Some("Q1"), Some("Q2"), Some("Q3"), Some("Q4"), Some("TEMP")}
  {
  }

  lemma SumOfThree(year: int, a: int, b: int, c: int)
    ensures SumFridays(year, [a, b, c]) == Fridays(year, a) + Fridays(year, b) + Fridays(year, c)
  {
    assert [a, b, c][..2] == [a, b];
    SumOfTwo(year, a, b);
  }

  lemma SumOfTwo(year: int, a: int, b: int)
    ensures SumFridays(year, [a, b]) == Fridays(year, a) + Fridays(year, b)
  {
    assert [a, b][..1] == [a];
    assert [a][..0] == [];
    assert SumFridays(year, [a]) == SumFridays(year, []) + Fridays(year, a);
    assert SumFridays(year, [a, b]) == SumFridays(year, [a]) + Fridays(year, b);
  }

  /** Q1 (October - December 2025) has 13 Fridays. */
  lemma Q1Fridays()
    ensures WindowFridays(Fixed(2025, [10, 11, 12])) == 13
  {
    SumOfThree(2025, 10, 11, 12);
    FridaysOct2025();
    FridaysNov2025();
    FridaysDec2025();
  }

  /** Q2 (January - March 2026) has 13 Fridays. */
  lemma Q2Fridays()
    ensures WindowFridays(Fixed(2026, [1, 2, 3])) == 13
  {
    SumOfThree(2026, 1, 2, 3);
    FridaysJan2026();
    FridaysFeb2026();
    FridaysMar2026();
  }

  /** Q3 (April - June 2026) has 13 Fridays. */
  lemma Q3Fridays()
    ensures WindowFridays(Fixed(2026, [4, 5, 6])) == 13
  {
    SumOfThree(2026, 4, 5, 6);
    FridaysApr2026();
    FridaysMay2026();
    FridaysJun2026();
  }

  /** Q4 (July - September 2026) has 13 Fridays. */
  lemma Q4Fridays()
    ensures WindowFridays(Fixed(2026, [7, 8, 9])) == 13
  {
    SumOfThree(2026, 7, 8, 9);
    FridaysJul2026();
    FridaysAug2026();
    FridaysSep2026();
  }

  /** The TEMP window (October 2025 - February 2026) has 22 Fridays. */
  lemma TempFridays()
    ensures WindowFridays(Temp) == 22
  {
    SumOfThree(2025, 10, 11, 12);
    SumOfTwo(2026, 1, 2);
    FridaysOct2025();
    FridaysNov2025();
    FridaysDec2025();
    FridaysJan2026();
    FridaysFeb2026();
  }

  /** Every window the route accepts has a positive number of Fridays, so no column of a
      quarterly report is the label '0%' because of the denominator. */
  lemma WindowsHaveFridays(quarter: Option<string>)
    requires WindowOf(quarter).Some?
    ensures WindowFridays(WindowOf(quarter).value) > 0
  {
    if quarter == Some("Q1") { Q1Fridays(); }
    else if quarter == Some("Q2") { Q2Fridays(); }
    else if quarter == Some("Q3") { Q3Fridays(); }
    else if quarter == Some("Q4") { Q4Fridays(); }
    else { TempFridays(); }
  }
}
