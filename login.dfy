/** Login (`POST /login`): the password has its Arabic-Indic digits replaced by ASCII
    digits and is trimmed; the user is the first whose normalised username equals the
    normalised input; the password is checked against the stored bcrypt hash. The hash
    check is a parameter (`compare(password, hash)`); `None` stands for a password that
    is absent from the request, which makes the bcrypt call throw. */
module Login {
  import opened Wrappers
  import opened Http
  import opened JsString
  import opened Store
  import opened Helpers

  /** The body of a successful login. */
  datatype LoginBody = LoginBody(userId: int, role: string, familyId: Option<int>,
                                 familyName: Option<string>, username: string)

  predicate IsArabicIndicDigit(c: char) {
    '\U{0660}' <= c <= '\U{0669}'
  }

  /** The ten `replace(/٠/g, "0")` ... `replace(/٩/g, "9")` rewrites as one map. */
  function DigitLetter(c: char): (r: char)
    ensures !IsArabicIndicDigit(r)
    ensures IsArabicIndicDigit(c) ==> r as int == c as int - 0x0660 + '0' as int
    ensures !IsArabicIndicDigit(c) ==> r == c
  {
    if IsArabicIndicDigit(c) then (c as int - 0x0660 + '0' as int) as char else c
  }

  lemma DigitLetterKeepsWs()
    ensures KeepsWs(DigitLetter)
  {
  }

  /** The cleaned password: a truthy password is rewritten and trimmed, any other value is
      left as it is. */
  function CleanPassword(password: Option<string>): (r: Option<string>)
    ensures !Truthy(password) ==> r == password
    ensures Truthy(password) ==> r.Some? && Trimmed(r.value)
    ensures Truthy(password) ==> forall i :: 0 <= i < |r.value| ==> !IsArabicIndicDigit(r.value[i])
  {
    if Truthy(password) then
      var t := MapChars(DigitLetter, password.value);
      Some(Trim(t))
    else password
  }

  /** The route. */
  function LoginRoute(db: Db, httpMethod: string, username: Option<string>,
                      password: Option<string>, compare: (string, string) -> bool)
    : (reply: Reply<LoginBody>)
    ensures httpMethod != "POST" ==> reply == Fail(405, MethodNotAllowed)
  {
    if httpMethod != "POST" then Fail(405, MethodNotAllowed)
    else Attempt(db, NormalizeUsername(username), CleanPassword(password), compare)
  }

  /** The lookup of the normalised name and the check of the cleaned password. */
  function Attempt(db: Db, name: string, pw: Option<string>, compare: (string, string) -> bool)
    : Reply<LoginBody>
  {
    var i := FindUser(db.users, name);
    if i == |db.users| then Fail(401, BadCredentials)
    else
      var u := db.users[i];
      if pw.None? then Fail(500, ServerError)
      else if !compare(pw.value, u.passwordHash) then Fail(401, BadCredentials)
      else Ok(200, LoginBody(u.id, u.role, u.familyId, FamilyNameOf(db.families, u.familyId),
                             u.username))
  }

  // ---------------------------------------------------------------------------------
  // What login promises.

  /** A successful login is that of the first user whose name normalises like the input,
      with the cleaned password matching the user's hash; no other user can log in. */
  lemma LoginSuccess(db: Db, httpMethod: string, username: Option<string>,
                     password: Option<string>, compare: (string, string) -> bool)
    ensures LoginRoute(db, httpMethod, username, password, compare).Ok? <==>
      && httpMethod == "POST"
      && FindUser(db.users, NormalizeUsername(username)) < |db.users|
      && CleanPassword(password).Some?
      && compare(CleanPassword(password).value,
                 db.users[FindUser(db.users, NormalizeUsername(username))].passwordHash)
    ensures LoginRoute(db, httpMethod, username, password, compare).Ok? ==>
      var u := db.users[FindUser(db.users, NormalizeUsername(username))];
      && NormalizeUsername(Some(u.username)) == NormalizeUsername(username)
      && LoginRoute(db, httpMethod, username, password, compare).body ==
         LoginBody(u.id, u.role, u.familyId, FamilyNameOf(db.families, u.familyId), u.username)
  {
    FindUserFirst(db.users, NormalizeUsername(username));
  }

  /** An unknown user and a wrong password get the same reply, so the reply does not tell
      which of the two was wrong. */
  lemma SameReplyForUnknownUserAndWrongPassword(db: Db, username: Option<string>,
                                                password: Option<string>,
                                                compare: (string, string) -> bool)
    requires
      || FindUser(db.users, NormalizeUsername(username)) == |db.users|
      || (CleanPassword(password).Some? &&
          !compare(CleanPassword(password).value,
                   db.users[FindUser(db.users, NormalizeUsername(username))].passwordHash))
    ensures LoginRoute(db, "POST", username, password, compare) == Fail(401, BadCredentials)
  {
  }

  /** White space and the folded letter forms in the typed username do not matter: two
      inputs that normalise alike get the same reply. */
  lemma SpellingsAlike(db: Db, a: Option<string>, b: Option<string>, password: Option<string>,
                       compare: (string, string) -> bool)
    requires NormalizeUsername(a) == NormalizeUsername(b)
    ensures LoginRoute(db, "POST", a, password, compare) == LoginRoute(db, "POST", b, password, compare)
  {
  }

  /** A stored name typed again with its spaces removed or its letters folded still finds
      a user, and finds the first user stored under a name that normalises the same way. */
  lemma NormalisedNameFinds(db: Db, i: int)
    requires 0 <= i < |db.users|
    ensures var n := NormalizeUsername(Some(db.users[i].username));
      && FindUser(db.users, NormalizeUsername(Some(n))) <= i
      && FindUser(db.users, NormalizeUsername(Some(n))) < |db.users|
  {
    var n := NormalizeUsername(Some(db.users[i].username));
    NormalizeUsernameIdempotent(Some(db.users[i].username));
    FindUserAtMost(db.users, n, i);
  }

  /** A password typed with Arabic-Indic digits is cleaned to the same password typed with
      ASCII digits. */
  lemma ArabicDigitsAreAscii(p: string, q: string)
    requires |p| == |q| && p != ""
    requires forall i :: 0 <= i < |p| ==> DigitLetter(p[i]) == DigitLetter(q[i])
    ensures CleanPassword(Some(p)) == CleanPassword(Some(q))
  {
    assert MapChars(DigitLetter, p) == MapChars(DigitLetter, q);
  }
}
