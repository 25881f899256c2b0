/** The shared helpers of the back end (helpers.js): the two Arabic name normalisers, the
    count of Fridays in a month, the number of serviced people a servant is responsible
    for, and the expected number of sessions. */
module Helpers {
  import opened Wrappers
  import opened JsString
  import opened Calendar
  import opened Store

  // ---------------------------------------------------------------------------------
  // Arabic letters the normalisers fold together.

  const ALEF := '\U{0627}'              // ا
  const ALEF_HAMZA_ABOVE := '\U{0623}'  // أ
  const ALEF_HAMZA_BELOW := '\U{0625}'  // إ
  const ALEF_MADDA := '\U{0622}'        // آ
  const YEH := '\U{064A}'               // ي
  const ALEF_MAKSURA := '\U{0649}'      // ى
  const HEH := '\U{0647}'               // ه
  const TEH_MARBUTA := '\U{0629}'       // ة
  const HAMZA := '\U{0621}'             // ء
  const WAW_HAMZA := '\U{0624}'         // ؤ
  const YEH_HAMZA := '\U{0626}'         // ئ

  /** `replace(/[أإآا]/g, 'ا')`: every alef form becomes the bare alef. */
  function ToAlef(c: char): char {
    if c == ALEF_HAMZA_ABOVE || c == ALEF_HAMZA_BELOW || c == ALEF_MADDA || c == ALEF then ALEF else c
  }

  /** `replace(/[ى]/g, 'ي')` and `replace(/[يى]/g, 'ي')`: alef maksura becomes yeh. */
  function ToYeh(c: char): char {
    if c == ALEF_MAKSURA || c == YEH then YEH else c
  }

  /** `replace(/[ةه]/g, 'ه')` and `replace(/[ة]/g, 'ه')`: teh marbuta becomes heh. */
  function ToHeh(c: char): char {
    if c == TEH_MARBUTA || c == HEH then HEH else c
  }

  /** `replace(/[ؤئء]/g, 'ء')`: every hamza carrier becomes the bare hamza. */
  function ToHamza(c: char): char {
    if c == WAW_HAMZA || c == YEH_HAMZA || c == HAMZA then HAMZA else c
  }

  /** The letters that no normalised username contains. */
  predicate FoldedInUsername(c: char) {
    c == ALEF_HAMZA_ABOVE || c == ALEF_HAMZA_BELOW || c == ALEF_MADDA || c == ALEF_MAKSURA
    || c == TEH_MARBUTA || c == WAW_HAMZA || c == YEH_HAMZA
  }

  /** The letters that no normalised family name contains. */
  predicate FoldedInFamilyName(c: char) {
    c == ALEF_HAMZA_ABOVE || c == ALEF_HAMZA_BELOW || c == ALEF_MADDA || c == ALEF_MAKSURA
    || c == TEH_MARBUTA
  }

  /** The four username rewrites as one map on characters: the folded letters go to their
      bare forms and every other character is left as it is. */
  function UsernameLetter(c: char): (r: char)
    ensures !FoldedInUsername(r)
    ensures !FoldedInUsername(c) ==> r == c
    ensures IsWs(r) <==> IsWs(c)
    ensures r == ' ' <==> c == ' '
  {
    ToHamza(ToHeh(ToYeh(ToAlef(c))))
  }

  /** The three family-name rewrites as one map on characters. */
  function FamilyLetter(c: char): (r: char)
    ensures !FoldedInFamilyName(r)
    ensures !FoldedInFamilyName(c) ==> r == c
    ensures IsWs(r) <==> IsWs(c)
    ensures r == ' ' <==> c == ' '
  {
    ToHeh(ToYeh(ToAlef(c)))
  }

  lemma UsernameLetterIdempotent(c: char)
    ensures UsernameLetter(UsernameLetter(c)) == UsernameLetter(c)
  {
  }

  lemma FamilyLetterIdempotent(c: char)
    ensures FamilyLetter(FamilyLetter(c)) == FamilyLetter(c)
  {
  }

  lemma UsernameLetterKeepsWs()
    ensures KeepsWs(UsernameLetter)
  {
  }

  lemma FamilyLetterKeepsWs()
    ensures KeepsWs(FamilyLetter)
  {
  }

  // ---------------------------------------------------------------------------------
  // normalizeArabicUsername

  /** `normalizeArabicUsername`: a falsy input gives `''`; otherwise the input is trimmed, all
      its white space is removed and the four letter rewrites are applied in turn. */
  function NormalizeUsername(input: Option<string>): (r: string)
    ensures !Truthy(input) ==> r == ""
    ensures NoWs(r)
    ensures forall i :: 0 <= i < |r| ==> !FoldedInUsername(r[i])
    ensures input.Some? ==> |r| <= |input.value|
  {
    if !Truthy(input) then "" else MapChars(UsernameLetter, RemoveWs(Trim(input.value)))
  }

  /** The username normaliser is one character map over the input with its white space
      removed: trimming first changes nothing, and each remaining character is rewritten on
      its own, so characters outside the folded letters survive unchanged. */
  lemma NormalizeUsernameAsMap(s: string)
    requires s != ""
    ensures NormalizeUsername(Some(s)) == MapChars(UsernameLetter, RemoveWs(s))
  {
    RemoveWsOfTrim(s);
  }

  /** Normalising a normalised username changes nothing. */
  lemma NormalizeUsernameIdempotent(input: Option<string>)
    ensures NormalizeUsername(Some(NormalizeUsername(input))) == NormalizeUsername(input)
  {
    var r := NormalizeUsername(input);
    if r != "" {
      TrimOfTrimmed(r);
      RemoveWsOfNoWs(r);
      var t := RemoveWs(Trim(input.value));
      forall i | 0 <= i < |r| ensures UsernameLetter(r[i]) == r[i] {
        UsernameLetterIdempotent(t[i]);
      }
    }
  }

  // ---------------------------------------------------------------------------------
  // normalizeArabicFamilyName

  /** `normalizeArabicFamilyName`: a falsy input gives `''`; otherwise the input is trimmed,
      every white-space run becomes one space and the three letter rewrites are applied. */
  function NormalizeFamilyName(input: Option<string>): (r: string)
    ensures !Truthy(input) ==> r == ""
    ensures Trimmed(r) && SingleSpaced(r)
    ensures forall i :: 0 <= i < |r| ==> !FoldedInFamilyName(r[i])
    ensures input.Some? ==> |r| <= |input.value|
  {
    if !Truthy(input) then ""
    else
      var t := CollapseWs(Trim(input.value));
      CollapseKeepsTrimmed(Trim(input.value));
      FamilyLetterKeepsWs();
      MapCharsKeepsShape(FamilyLetter, t);
      MapChars(FamilyLetter, t)
  }

  /** Normalising a normalised family name changes nothing. */
  lemma NormalizeFamilyNameIdempotent(input: Option<string>)
    ensures NormalizeFamilyName(Some(NormalizeFamilyName(input))) == NormalizeFamilyName(input)
  {
    var r := NormalizeFamilyName(input);
    if r != "" {
      FamilyNameFixedPoint(r);
    }
  }

  /** A trimmed, single-spaced name without folded letters is its own normal form. */
  lemma FamilyNameFixedPoint(r: string)
    requires r != "" && Trimmed(r) && SingleSpaced(r)
    requires forall i :: 0 <= i < |r| ==> !FoldedInFamilyName(r[i])
    ensures NormalizeFamilyName(Some(r)) == r
  {
    TrimOfTrimmed(r);
    CollapseOfSingleSpaced(r);
    assert MapChars(FamilyLetter, r) == r;
  }

  /** The surrounding white space does not matter: a name normalises like its trimmed
      form. */
  lemma NormalizeFamilyNameTrims(s: string)
    ensures NormalizeFamilyName(Some(s)) == NormalizeFamilyName(Some(Trim(s)))
  {
    TrimOfTrimmed(Trim(s));
  }

  /** A single word, without white space, is only folded letter by letter. */
  lemma NormalizeFamilyNameWord(a: string)
    requires a != "" && NoWs(a)
    ensures NormalizeFamilyName(Some(a)) == MapChars(FamilyLetter, a)
  {
    TrimOfTrimmed(a);
    CollapseOfSingleSpaced(a);
  }

  /** Each white-space run inside the trimmed name becomes exactly one space, and the two
      sides it separates are normalised on their own. With the two lemmas above this fixes
      the normal form of every name: its words, folded, joined by single spaces. */
  lemma NormalizeFamilyNameJoin(a: string, w: string, b: string)
    requires a != "" && Trimmed(a) && b != "" && Trimmed(b)
    requires w != [] && AllWs(w)
    ensures NormalizeFamilyName(Some(a + w + b)) ==
            NormalizeFamilyName(Some(a)) + " " + NormalizeFamilyName(Some(b))
  {
    JoinTrimmed(a, w, b);
    NormalizeTrimmed(a + w + b);
    NormalizeTrimmed(a);
    NormalizeTrimmed(b);
    CollapseJoin(a, w, b);
    FamilyLettersAroundSpace(CollapseWs(a), CollapseWs(b));
  }

  lemma JoinTrimmed(a: string, w: string, b: string)
    requires a != "" && Trimmed(a) && b != "" && Trimmed(b)
    ensures a + w + b != "" && Trimmed(a + w + b)
  {
    var s := a + w + b;
    assert s[0] == a[0] && s[|s| - 1] == b[|b| - 1];
  }

  /** For a trimmed name the normal form is the collapsed name, folded. */
  lemma NormalizeTrimmed(s: string)
    requires s != "" && Trimmed(s)
    ensures NormalizeFamilyName(Some(s)) == MapChars(FamilyLetter, CollapseWs(s))
  {
    TrimOfTrimmed(s);
  }

  lemma FamilyLettersAroundSpace(x: string, y: string)
    ensures MapChars(FamilyLetter, x + " " + y) ==
            MapChars(FamilyLetter, x) + " " + MapChars(FamilyLetter, y)
  {
    MapCharsAppend(FamilyLetter, x + " ", y);
    MapCharsAppend(FamilyLetter, x, " ");
    assert MapChars(FamilyLetter, " ") == " ";
  }

  /** The characters other than white space are those of the input, folded. */
  lemma NormalizeFamilyNameKeepsLetters(s: string)
    requires s != ""
    ensures RemoveWs(NormalizeFamilyName(Some(s))) == MapChars(FamilyLetter, RemoveWs(s))
  {
    var t := CollapseWs(Trim(s));
    RemoveWsOfCollapse(Trim(s));
    RemoveWsOfTrim(s);
    FamilyLetterKeepsWs();
    MapCharsRemoveWs(FamilyLetter, t);
  }

  // ---------------------------------------------------------------------------------
  // getFridaysCount

  /** The year that `new Date(year, ...)` uses: 0 .. 99 mean 1900 .. 1999. */
  function JsYear(year: int): int {
    if 0 <= year <= 99 then 1900 + year else year
  }

  /** What `getFridaysCount(year, month)` returns: the Fridays of the month, or 0 when the
      month is outside 1 .. 12 (the date it starts from then lies in another month, so
      the loop never runs). */
  function Fridays(year: int, month: int): nat {
    if 1 <= month <= 12 then FridaysInMonth(JsYear(year), month) else 0
  }

  /** `getFridaysCount`: walks the month day by day and counts the days whose weekday is 5. */
  method FridaysCount(year: int, month: int) returns (count: nat)
    ensures count == Fridays(year, month)
    ensures 1 <= month <= 12 ==> 4 <= count <= 5
    ensures !(1 <= month <= 12) ==> count == 0
  {
    var y := JsYear(year);
    count := 0;
    var day := 1;
    while 1 <= month <= 12 && day <= DaysInMonth(y, month)
      invariant 1 <= month <= 12 ==> 1 <= day <= DaysInMonth(y, month) + 1
      invariant 1 <= month <= 12 ==> count == FridaysUpTo(y, month, day - 1)
      invariant !(1 <= month <= 12) ==> count == 0
      decreases 32 - day
    {
      if Weekday(y, month, day) == FRIDAY {
        count := count + 1;
      }
      day := day + 1;
    }
    if 1 <= month <= 12 {
      FridaysInMonthBounds(y, month);
    }
  }

  // ---------------------------------------------------------------------------------
  // getServicedCountForServant

  /** The distinct serviced ids linked to servant `u` that name an existing serviced row
      (`COUNT(DISTINCT s.serviced_id)` over the join of serviced and the link table). */
  function LinkedServiced(db: Db, u: int): set<int> {
    set p | p in db.links && p.0 == u && HasServicedId(db.serviced, p.1) :: p.1
  }

  /** `getServicedCountForServant`: the servant's manual count when one is recorded,
      otherwise the number of distinct serviced people linked to the servant. */
  function ServicedCountForServant(db: Db, u: int): (n: int)
    ensures u !in db.manualCounts ==> n >= 0
  {
    if u in db.manualCounts then db.manualCounts[u] else |LinkedServiced(db, u)|
  }

  /** A manual count wins over the links, whatever they are. */
  lemma ManualCountOverridesLinks(db: Db, u: int, links: set<(int, int)>)
    requires u in db.manualCounts
    ensures ServicedCountForServant(db.(links := links), u) == db.manualCounts[u]
    ensures ServicedCountForServant(db.(links := links), u) == ServicedCountForServant(db, u)
  {
  }

  /** Without a manual count the number is at most the servant's link rows, and 0 when the
      servant has none. */
  lemma ComputedCountBounds(db: Db, u: int)
    requires u !in db.manualCounts
    ensures ServicedCountForServant(db, u) <= |set p | p in db.links && p.0 == u|
    ensures (forall p :: p in db.links ==> p.0 != u) ==> ServicedCountForServant(db, u) == 0
  {
    var linked := set p | p in db.links && p.0 == u;
    var img := set p | p in linked :: p.1;
    forall x | x in LinkedServiced(db, u) ensures x in img {
      var p :| p in db.links && p.0 == u && HasServicedId(db.serviced, p.1) && p.1 == x;
      assert p in linked;
    }
    SecondsCard(linked);
    CardMono(LinkedServiced(db, u), img);
    if forall p :: p in db.links ==> p.0 != u {
      assert LinkedServiced(db, u) == {};
    }
  }

  /** Adding a link from the servant to an existing serviced row that was not yet linked
      raises the computed count by one. */
  lemma NewLinkAddsOne(db: Db, u: int, s: int)
    requires u !in db.manualCounts && HasServicedId(db.serviced, s) && (u, s) !in db.links
    ensures ServicedCountForServant(db.(links := db.links + {(u, s)}), u) ==
            ServicedCountForServant(db, u) + 1
  {
    var db' := db.(links := db.links + {(u, s)});
    assert LinkedServiced(db', u) == LinkedServiced(db, u) + {s};
    assert s !in LinkedServiced(db, u);
  }

  lemma CardMono<T>(a: set<T>, b: set<T>)
    requires a <= b
    ensures |a| <= |b|
  {
    assert b == a + (b - a);
  }

  /** Projecting a set of pairs on their second component does not make it larger. */
  lemma {:induction false} SecondsCard(a: set<(int, int)>)
    ensures |set p | p in a :: p.1| <= |a|
    decreases |a|
  {
    if a != {} {
      var x :| x in a;
      var rest := a - {x};
      SecondsCard(rest);
      assert (set p | p in a :: p.1) == (set p | p in rest :: p.1) + {x.1};
    }
  }

  // ---------------------------------------------------------------------------------
  // getExpectedSessionsCount

  /** `getExpectedSessionsCount`: the number of sessions a servant is expected to attend in
      the reporting window. */
  function ExpectedSessionsCount(): nat {
    12
  }

  // ---------------------------------------------------------------------------------
  // Finding a user by the normalised username (the login route and the serviced import
  // both do `users.find(u => normalizeArabicUsername(u.username) === name)`).

  /** The normalised names of the users, in table order. */
  function Keys(us: seq<User>): (ks: seq<string>)
    ensures |ks| == |us|
    ensures forall i :: 0 <= i < |us| ==> ks[i] == NormalizeUsername(Some(us[i].username))
  {
    seq(|us|, i requires 0 <= i < |us| => NormalizeUsername(Some(us[i].username)))
  }

  /** `users.find(u => normalizeArabicUsername(u.username) === normalizedInput)`: the index
      of the first user whose name normalises to `name`, or |us| when there is none. */
  function FindUser(us: seq<User>, name: string): (i: nat)
    ensures i <= |us|
  {
    FindFrom(Keys(us), name, 0)
  }

  /** The first index from `j` on that holds `name`. */
  function FindFrom(ks: seq<string>, name: string, j: nat): (i: nat)
    requires j <= |ks|
    ensures j <= i <= |ks|
    decreases |ks| - j
  {
    if j == |ks| then j
    else if ks[j] == name then j
    else FindFrom(ks, name, j + 1)
  }

  /** The index found holds `name`, and no index before it does. */
  lemma {:induction false} FindFromFirst(ks: seq<string>, name: string, j: nat)
    requires j <= |ks|
    ensures FindFrom(ks, name, j) < |ks| ==> ks[FindFrom(ks, name, j)] == name
    ensures forall n :: j <= n < FindFrom(ks, name, j) ==> ks[n] != name
    decreases |ks| - j
  {
    if j < |ks| && ks[j] != name {
      FindFromFirst(ks, name, j + 1);
    }
  }

  /** The user found is a match, and no user before it matches. */
  lemma FindUserFirst(us: seq<User>, name: string)
    ensures FindUser(us, name) < |us| ==>
              NormalizeUsername(Some(us[FindUser(us, name)].username)) == name
    ensures forall n :: 0 <= n < FindUser(us, name) ==>
              NormalizeUsername(Some(us[n].username)) != name
  {
    FindFromFirst(Keys(us), name, 0);
  }

  /** A user whose name normalises to `name` is at or after the one found. */
  lemma {:induction false} FindUserAtMost(us: seq<User>, name: string, i: nat)
    requires i < |us| && NormalizeUsername(Some(us[i].username)) == name
    ensures FindUser(us, name) <= i
  {
    FindUserFirst(us, name);
  }
}
