/** The monthly view of a family's serviced people
    (`GET /api/admin/monthly-serviced/:month/:familyId`): one entry per serviced person of
    the family, with the person's class, servant and attendance sessions of the month.
    Rows whose class is named like the family are meant to be dropped. The joined query is
    a parameter: `query(month, familyId)` is the list of rows it returns. */
module MonthlyServiced {
  import opened Wrappers
  import opened Http
  import opened JsString
  import opened JsObject
  import opened Helpers
  import opened Grouping

  /** A row of the query; `familyName` is the column `family_name`, `None` when the row
      does not carry it. */
  datatype ServicedRow = ServicedRow(servicedId: nat, servicedName: string,
                                     className: Option<string>, servantName: Option<string>,
                                     sessionDate: Option<string>, status: Option<string>,
                                     familyName: Option<string>)

  /** The fields of an entry taken from its first row. */
  datatype Header = Header(servicedName: string, servantName: Option<string>,
                           className: Option<string>)

  datatype Session = Session(date: string, status: Option<string>)

  // ---------------------------------------------------------------------------------
  // The route's own family-name normaliser.

  /** The route's `normalizeArabicFamilyName`: the three letter rewrites, then `trim`;
      unlike the shared helper it keeps inner white space as it is. */
  function LocalNormalize(name: string): (r: string)
    ensures Trimmed(r) && |r| <= |name|
    ensures forall i :: 0 <= i < |r| ==> !FoldedInFamilyName(r[i])
  {
    var r := Trim(MapChars(FamilyLetter, name));
    FamilyLetterKeepsWs();
    MapCharsTrim(FamilyLetter, name);
    r
  }

  /** On a name whose white space is already single spaces the route's normaliser and the
      shared one agree. */
  lemma LocalNormalizeAgrees(name: string)
    requires name != "" && SingleSpaced(name)
    ensures LocalNormalize(name) == NormalizeFamilyName(Some(name))
  {
    FamilyLetterKeepsWs();
    MapCharsTrim(FamilyLetter, name);
    TrimKeepsSingleSpaced(name);
    CollapseOfSingleSpaced(Trim(name));
  }

  /** Normalising twice is normalising once. */
  lemma LocalNormalizeIdempotent(name: string)
    ensures LocalNormalize(LocalNormalize(name)) == LocalNormalize(name)
  {
    var r := LocalNormalize(name);
    FamilyLetterKeepsWs();
    MapCharsTrim(FamilyLetter, r);
    forall i | 0 <= i < |r| ensures FamilyLetter(r[i]) == r[i] {
    }
    assert MapChars(FamilyLetter, r) == r;
    TrimOfTrimmed(r);
  }

  // ---------------------------------------------------------------------------------
  // The filter.

  /** A row is kept when it lacks a class name or a family name, or when the two differ
      after normalising and lower-casing. */
  predicate Keep(r: ServicedRow) {
    || !Truthy(r.className) || !Truthy(r.familyName)
    || ToLower(LocalNormalize(r.className.value)) != ToLower(LocalNormalize(r.familyName.value))
  }

  /** `rows.filter(Keep)`. */
  function FilterRows(rows: seq<ServicedRow>): (kept: seq<ServicedRow>)
    ensures |kept| <= |rows|
  {
    if rows == [] then []
    else
      var last := rows[|rows| - 1];
      FilterRows(rows[..|rows| - 1]) + (if Keep(last) then [last] else [])
  }

  /** The filter keeps exactly the rows `Keep` accepts. */
  lemma {:induction false} FilterMembers(rows: seq<ServicedRow>)
    ensures forall r :: r in FilterRows(rows) <==> r in rows && Keep(r)
  {
    if rows != [] {
      var init := rows[..|rows| - 1];
      FilterMembers(init);
      assert rows == init + [rows[|rows| - 1]];
    }
  }

  /** The query selects no `family_name` column, so every row it returns lacks the family
      name and the filter keeps every row: a class named like the family is never dropped. */
  lemma {:induction false} AsWrittenKeepsEveryRow(rows: seq<ServicedRow>)
    requires forall i :: 0 <= i < |rows| ==> rows[i].familyName.None?
    ensures FilterRows(rows) == rows
  {
    if rows != [] {
      var init := rows[..|rows| - 1];
      var last := rows[|rows| - 1];
      assert !Truthy(last.familyName);
      assert Keep(last);
      AsWrittenKeepsEveryRow(init);
      assert FilterRows(rows) == FilterRows(init) + [last];
      assert rows == init + [last];
    }
  }

  /** The input that shows it: a class 'مارمرقس' of the family 'مارمرقس' stays in. */
  lemma ClassNamedAfterFamilyStays()
    ensures var r := ServicedRow(7, "x", Some("مارمرقس"), None, None, None, None);
      FilterRows([r]) == [r]
  {
    var r := ServicedRow(7, "x", Some("مارمرقس"), None, None, None, None);
    assert [r][..0] == [];
  }

  /** With the family name selected, a row whose class has a name is dropped exactly when
      that name normalises like the family's. */
  lemma FilterDropsFamilyClass(rows: seq<ServicedRow>, familyName: string)
    requires familyName != ""
    requires forall i :: 0 <= i < |rows| ==> rows[i].familyName == Some(familyName)
    ensures forall r :: r in FilterRows(rows) <==>
      && r in rows
      && (!Truthy(r.className) ||
          ToLower(LocalNormalize(r.className.value)) != ToLower(LocalNormalize(familyName)))
  {
    FilterMembers(rows);
  }

  // ---------------------------------------------------------------------------------
  // The grouping.

  /** A kept row opens the entry of its serviced person and adds a session when it has a
      date. */
  function Project(rows: seq<ServicedRow>): (ps: seq<Row<Header, Session>>)
    ensures |ps| == |rows|
    ensures forall i :: 0 <= i < |rows| ==> ps[i].id == rows[i].servicedId
    ensures forall i :: 0 <= i < |rows| ==>
      ps[i].header == Header(rows[i].servicedName, rows[i].servantName, rows[i].className)
    ensures forall i :: 0 <= i < |rows| ==>
      (ps[i].item.Some? <==> Truthy(rows[i].sessionDate))
    ensures forall i :: 0 <= i < |rows| ==> Truthy(rows[i].sessionDate) ==>
      ps[i].item == Some(Session(rows[i].sessionDate.value, rows[i].status))
  {
    seq(|rows|, i requires 0 <= i < |rows| => ProjectRow(rows[i]))
  }

  function ProjectRow(r: ServicedRow): Row<Header, Session> {
    Row(r.servicedId, Header(r.servicedName, r.servantName, r.className),
        if Truthy(r.sessionDate) then Some(Session(r.sessionDate.value, r.status)) else None)
  }

  /** The route. */
  method MonthlyServicedRoute(month: string, familyId: string,
                              query: (string, string) -> seq<ServicedRow>)
    returns (reply: Reply<seq<Group<Header, Session>>>)
    ensures reply == Ok(200, Grouped(Project(FilterRows(query(month, familyId)))))
  {
    var rows := query(month, familyId);
    var filtered := FilterRows(rows);
    var grouped := GroupRows(Project(filtered));
    reply := Ok(200, grouped);
  }

  /** Every kept row's serviced person is listed, with the row's session when it has a
      date; a person with no session in the month is listed with no sessions. */
  lemma KeptRowListed(rows: seq<ServicedRow>, i: int)
    requires 0 <= i < |rows| && Keep(rows[i])
    ensures var ps := Project(FilterRows(rows));
      exists j ::
        && 0 <= j < |Grouped(ps)|
        && KeysOf(ps)[j] == rows[i].servicedId
        && (Truthy(rows[i].sessionDate) ==>
              Session(rows[i].sessionDate.value, rows[i].status) in Grouped(ps)[j].items)
  {
    var kept := FilterRows(rows);
    var n := KeptIndex(rows, i);
    var ps := Project(kept);
    assert ps[n] == ProjectRow(rows[i]);
    EntryOf(ps, n);
  }

  /** Where a kept row lands in the filtered list. */
  lemma KeptIndex(rows: seq<ServicedRow>, i: int) returns (n: nat)
    requires 0 <= i < |rows| && Keep(rows[i])
    ensures n < |FilterRows(rows)| && FilterRows(rows)[n] == rows[i]
  {
    FilterMembers(rows);
    assert rows[i] in FilterRows(rows);
    n :| 0 <= n < |FilterRows(rows)| && FilterRows(rows)[n] == rows[i];
  }

  /** Every session listed comes from a kept, dated row of the same serviced person. */
  lemma SessionsFromKeptRows(rows: seq<ServicedRow>, k: nat, s: Session)
    requires s in Items(Project(FilterRows(rows)), k)
    ensures exists r :: r in rows && Keep(r) && r.servicedId == k &&
                        Truthy(r.sessionDate) && s == Session(r.sessionDate.value, r.status)
  {
    var kept := FilterRows(rows);
    var ps := Project(kept);
    ItemsFrom(ps, k, s);
    var n :| 0 <= n < |ps| && ps[n].id == k && ps[n].item == Some(s);
    FilterMembers(rows);
    assert kept[n] in kept;
  }
}
