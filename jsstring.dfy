/** The JavaScript string built-ins the routes use: the white-space class shared by
    `String.prototype.trim` and the regular-expression class `\s`, trimming, the rewrites
    `replace(/\s+/g, '')` and `replace(/\s+/g, ' ')`, per-character rewrites, ASCII
    lower-casing, `padStart(2, '0')` and `parseInt` without a radix. */
module JsString {
  import opened Wrappers

  /** The characters that JavaScript's `\s` matches and `trim` removes. */
  predicate IsWs(c: char) {
    || c == '\t' || c == '\n' || c == '\U{000B}' || c == '\U{000C}' || c == '\r' || c == ' '
    || c == '\U{00A0}' || c == '\U{1680}' || ('\U{2000}' <= c <= '\U{200A}')
    || c == '\U{2028}' || c == '\U{2029}' || c == '\U{202F}' || c == '\U{205F}'
    || c == '\U{3000}' || c == '\U{FEFF}'
  }

  predicate NoWs(s: string) {
    forall i :: 0 <= i < |s| ==> !IsWs(s[i])
  }

  predicate AllWs(s: string) {
    forall i :: 0 <= i < |s| ==> IsWs(s[i])
  }

  /** No white space at either end. */
  predicate Trimmed(s: string) {
    s == [] || (!IsWs(s[0]) && !IsWs(s[|s| - 1]))
  }

  /** Every white-space character is a plain space and is not followed by white space. */
  predicate SingleSpaced(s: string) {
    forall i :: 0 <= i < |s| && IsWs(s[i]) ==> s[i] == ' ' && (i + 1 < |s| ==> !IsWs(s[i + 1]))
  }

  /** Removes the white space at the front: what is left is a suffix that starts with a
      non-white-space character, and everything removed was white space. */
  function TrimStart(s: string): (r: string)
    ensures |r| <= |s| && r == s[|s| - |r|..]
    ensures AllWs(s[..|s| - |r|])
    ensures r == [] || !IsWs(r[0])
  {
    if s == [] || !IsWs(s[0]) then s
    else
      var r := TrimStart(s[1..]);
      TrimStartStep(s, r);
      r
  }

  /** Dropping one more leading white-space character keeps `TrimStart`'s promises. */
  lemma TrimStartStep(s: string, r: string)
    requires s != [] && IsWs(s[0])
    requires |r| <= |s[1..]| && r == s[1..][|s[1..]| - |r|..]
    requires AllWs(s[1..][..|s[1..]| - |r|])
    ensures |r| <= |s| && r == s[|s| - |r|..]
    ensures AllWs(s[..|s| - |r|])
  {
    assert s[..|s| - |r|] == [s[0]] + s[1..][..|s| - 1 - |r|];
  }

  /** Removes the white space at the end: a prefix that ends with a non-white-space character. */
  function TrimEnd(s: string): (r: string)
    ensures |r| <= |s| && r == s[..|r|]
    ensures AllWs(s[|r|..])
    ensures r == [] || !IsWs(r[|r| - 1])
  {
    if s == [] || !IsWs(s[|s| - 1]) then s
    else
      var r := TrimEnd(s[..|s| - 1]);
      assert s[|r|..] == s[..|s| - 1][|r|..] + [s[|s| - 1]];
      r
  }

  /** `String.prototype.trim`. */
  function Trim(s: string): (r: string)
    ensures Trimmed(r) && |r| <= |s|
  {
    TrimEnd(TrimStart(s))
  }

  lemma {:induction false} TrimOfTrimmed(s: string)
    requires Trimmed(s)
    ensures Trim(s) == s
  {
  }

  /** `replace(/\s+/g, '')`: every white-space character is dropped, the rest kept in order. */
  function RemoveWs(s: string): (r: string)
    ensures NoWs(r) && |r| <= |s|
  {
    if s == [] then []
    else if IsWs(s[0]) then RemoveWs(s[1..])
    else [s[0]] + RemoveWs(s[1..])
  }

  lemma {:induction false} RemoveWsOfNoWs(s: string)
    requires NoWs(s)
    ensures RemoveWs(s) == s
  {
    if s != [] {
      RemoveWsOfNoWs(s[1..]);
    }
  }

  lemma {:induction false} RemoveWsAppend(a: string, b: string)
    ensures RemoveWs(a + b) == RemoveWs(a) + RemoveWs(b)
  {
    if a != [] {
      assert (a + b)[0] == a[0] && (a + b)[1..] == a[1..] + b;
      RemoveWsAppend(a[1..], b);
      if IsWs(a[0]) {
        assert RemoveWs(a + b) == RemoveWs(a[1..] + b);
      } else {
        assert RemoveWs(a + b) == [a[0]] + RemoveWs(a[1..] + b);
      }
    } else {
      assert a + b == b;
    }
  }

  lemma {:induction false} RemoveWsOfAllWs(s: string)
    requires AllWs(s)
    ensures RemoveWs(s) == []
  {
    if s != [] {
      RemoveWsOfAllWs(s[1..]);
    }
  }

  /** Trimming the front only ever removes white space. */
  lemma {:induction false} RemoveWsOfTrimStart(s: string)
    ensures RemoveWs(TrimStart(s)) == RemoveWs(s)
  {
    if s != [] && IsWs(s[0]) {
      RemoveWsOfTrimStart(s[1..]);
    }
  }

  /** Trimming the end only ever removes white space. */
  lemma {:induction false} RemoveWsOfTrimEnd(s: string)
    ensures RemoveWs(TrimEnd(s)) == RemoveWs(s)
  {
    if s != [] && IsWs(s[|s| - 1]) {
      var init := s[..|s| - 1];
      RemoveWsOfTrimEnd(init);
      assert s == init + [s[|s| - 1]];
      RemoveWsAppend(init, [s[|s| - 1]]);
    }
  }

  /** Trimming only ever removes white space. */
  lemma RemoveWsOfTrim(s: string)
    ensures RemoveWs(Trim(s)) == RemoveWs(s)
  {
    RemoveWsOfTrimStart(s);
    RemoveWsOfTrimEnd(TrimStart(s));
  }

  /** `replace(/\s+/g, ' ')`: every maximal run of white space becomes one space. The result
      is single-spaced, never longer, and starts and ends with white space exactly when the
      input does. */
  function CollapseWs(s: string): (r: string)
    ensures |r| <= |s|
    ensures SingleSpaced(r)
    ensures (r == []) == (s == [])
    ensures s != [] ==> (IsWs(r[0]) <==> IsWs(s[0]))
    ensures s != [] ==> (IsWs(r[|r| - 1]) <==> IsWs(s[|s| - 1]))
    decreases |s|
  {
    if s == [] then []
    else if IsWs(s[0]) then
      var t := TrimStart(s);
      assert t == [] ==> s[..|s|] == s;
      [' '] + CollapseWs(t)
    else [s[0]] + CollapseWs(s[1..])
  }

  /** White space in front of a string that does not start with white space is all that
      `TrimStart` removes. */
  lemma {:induction false} TrimStartOfWsPrefix(w: string, b: string)
    requires AllWs(w) && (b == [] || !IsWs(b[0]))
    ensures TrimStart(w + b) == b
    decreases |w|
  {
    if w != [] {
      assert (w + b)[1..] == w[1..] + b;
      TrimStartOfWsPrefix(w[1..], b);
    } else {
      assert w + b == b;
    }
  }

  /** `TrimStart` of a string with a character other than white space at its end stops
      inside that string, so what follows is kept as it is. */
  lemma {:induction false} TrimStartAppend(a: string, x: string)
    requires a != [] && !IsWs(a[|a| - 1])
    ensures TrimStart(a + x) == TrimStart(a) + x
    decreases |a|
  {
    if IsWs(a[0]) {
      assert (a + x)[1..] == a[1..] + x;
      TrimStartAppend(a[1..], x);
    }
  }

  /** Which run a space stands for: a white-space run between two strings with no white
      space at the join becomes exactly one space, and each side collapses on its own. */
  lemma {:induction false} CollapseJoin(a: string, w: string, b: string)
    requires a == [] || !IsWs(a[|a| - 1])
    requires b == [] || !IsWs(b[0])
    requires w != [] && AllWs(w)
    ensures CollapseWs(a + w + b) == CollapseWs(a) + " " + CollapseWs(b)
    decreases |a|
  {
    if a == [] {
      CollapseJoinEmpty(a, w, b);
    } else if IsWs(a[0]) {
      TrimStartKeepsLast(a);
      CollapseJoin(TrimStart(a), w, b);
      CollapseJoinWs(a, w, b);
    } else {
      CollapseJoin(a[1..], w, b);
      CollapseJoinOther(a, w, b);
    }
  }

  lemma CollapseJoinEmpty(a: string, w: string, b: string)
    requires a == [] && (b == [] || !IsWs(b[0]))
    requires w != [] && AllWs(w)
    ensures CollapseWs(a + w + b) == CollapseWs(a) + " " + CollapseWs(b)
  {
    EmptyJoin(a, w, b);
    TrimStartOfWsPrefix(w, b);
    CollapseConsWs(w + b);
  }

  lemma EmptyJoin(a: string, w: string, b: string)
    requires a == [] && w != []
    ensures a + w + b == w + b && (w + b)[0] == w[0]
    ensures [] + " " + CollapseWs(b) == " " + CollapseWs(b)
  {
  }

  /** `TrimStart` keeps the last character when it is not white space. */
  lemma {:induction false} TrimStartKeepsLast(a: string)
    requires a != [] && !IsWs(a[|a| - 1])
    ensures TrimStart(a) != [] && TrimStart(a)[|TrimStart(a)| - 1] == a[|a| - 1]
    decreases |a|
  {
    if IsWs(a[0]) {
      TrimStartKeepsLast(a[1..]);
    }
  }

  lemma CollapseJoinWs(a: string, w: string, b: string)
    requires a != [] && IsWs(a[0]) && !IsWs(a[|a| - 1])
    requires CollapseWs(TrimStart(a) + w + b) ==
             CollapseWs(TrimStart(a)) + " " + CollapseWs(b)
    ensures CollapseWs(a + w + b) == CollapseWs(a) + " " + CollapseWs(b)
  {
    JoinParts(a, w, b);
    TrimStartAppend(a, w + b);
    CollapseConsWs(a + w + b);
    CollapseConsWs(a);
    JoinAssoc(' ', CollapseWs(TrimStart(a)), CollapseWs(b));
  }

  lemma CollapseJoinOther(a: string, w: string, b: string)
    requires a != [] && !IsWs(a[0])
    requires CollapseWs(a[1..] + w + b) == CollapseWs(a[1..]) + " " + CollapseWs(b)
    ensures CollapseWs(a + w + b) == CollapseWs(a) + " " + CollapseWs(b)
  {
    JoinParts(a, w, b);
    CollapseConsOther(a + w + b);
    CollapseConsOther(a);
    JoinAssoc(a[0], CollapseWs(a[1..]), CollapseWs(b));
  }

  lemma JoinParts(a: string, w: string, b: string)
    requires a != []
    ensures (a + w + b)[0] == a[0]
    ensures (a + w + b)[1..] == a[1..] + w + b
    ensures a + w + b == a + (w + b)
    ensures TrimStart(a) + (w + b) == TrimStart(a) + w + b
  {
  }

  lemma JoinAssoc(c: char, p: string, q: string)
    ensures [c] + (p + " " + q) == [c] + p + " " + q
  {
  }

  /** One unfolding of `CollapseWs` at a leading white-space character. */
  lemma CollapseConsWs(x: string)
    requires x != [] && IsWs(x[0])
    ensures CollapseWs(x) == [' '] + CollapseWs(TrimStart(x))
  {
  }

  /** One unfolding of `CollapseWs` at a leading character other than white space. */
  lemma CollapseConsOther(x: string)
    requires x != [] && !IsWs(x[0])
    ensures CollapseWs(x) == [x[0]] + CollapseWs(x[1..])
  {
  }

  /** A single-spaced string is left as it is. */
  lemma {:induction false} CollapseOfSingleSpaced(s: string)
    requires SingleSpaced(s)
    ensures CollapseWs(s) == s
  {
    if s != [] {
      var rest := s[1..];
      SingleSpacedSlice(s, 1, |s|);
      assert s[1..|s|] == rest;
      CollapseOfSingleSpaced(rest);
      if IsWs(s[0]) {
        assert rest == [] || !IsWs(rest[0]);
        CollapseAfterSpace(s);
      } else {
        CollapseAfterOther(s);
      }
    }
  }

  /** One space followed by a collapsed string that does not start with white space. */
  lemma CollapseAfterSpace(s: string)
    requires s != [] && s[0] == ' ' && (s[1..] == [] || !IsWs(s[1..][0]))
    requires CollapseWs(s[1..]) == s[1..]
    ensures CollapseWs(s) == s
  {
    assert TrimStart(s) == s[1..];
    assert [s[0]] + s[1..] == s;
  }

  /** A character other than white space followed by a collapsed string. */
  lemma CollapseAfterOther(s: string)
    requires s != [] && !IsWs(s[0]) && CollapseWs(s[1..]) == s[1..]
    ensures CollapseWs(s) == s
  {
    assert [s[0]] + s[1..] == s;
  }

  /** The characters other than white space survive collapsing unchanged and in order. */
  lemma {:induction false} RemoveWsOfCollapse(s: string)
    ensures RemoveWs(CollapseWs(s)) == RemoveWs(s)
    decreases |s|
  {
    if s != [] {
      if IsWs(s[0]) {
        var t := TrimStart(s);
        RemoveWsOfCollapse(t);
        assert CollapseWs(s) == [' '] + CollapseWs(t);
        RemoveWsConsWs(' ', CollapseWs(t));
        RemoveWsOfTrimStart(s);
      } else {
        RemoveWsOfCollapse(s[1..]);
        assert CollapseWs(s) == [s[0]] + CollapseWs(s[1..]);
        RemoveWsCons(s[0], CollapseWs(s[1..]));
      }
    }
  }

  lemma RemoveWsConsWs(c: char, x: string)
    requires IsWs(c)
    ensures RemoveWs([c] + x) == RemoveWs(x)
  {
    assert ([c] + x)[1..] == x;
  }

  lemma RemoveWsCons(c: char, x: string)
    requires !IsWs(c)
    ensures RemoveWs([c] + x) == [c] + RemoveWs(x)
  {
    assert ([c] + x)[1..] == x;
  }

  /** Collapsing a trimmed string keeps it trimmed. */
  lemma CollapseKeepsTrimmed(s: string)
    requires Trimmed(s)
    ensures Trimmed(CollapseWs(s))
  {
  }

  /** Any slice of a single-spaced string is single-spaced. */
  lemma SingleSpacedSlice(s: string, lo: nat, hi: nat)
    requires lo <= hi <= |s| && SingleSpaced(s)
    ensures SingleSpaced(s[lo..hi])
  {
    forall i | 0 <= i < hi - lo && IsWs(s[lo..hi][i])
      ensures s[lo..hi][i] == ' ' && (i + 1 < hi - lo ==> !IsWs(s[lo..hi][i + 1]))
    {
      assert s[lo..hi][i] == s[lo + i];
      if i + 1 < hi - lo {
        assert s[lo..hi][i + 1] == s[lo + i + 1];
      }
    }
  }

  /** Trimming keeps a string single-spaced. */
  lemma {:induction false} TrimKeepsSingleSpaced(s: string)
    requires SingleSpaced(s)
    ensures SingleSpaced(Trim(s))
  {
    var a := TrimStart(s);
    SingleSpacedSlice(s, |s| - |a|, |s|);
    assert a == s[|s| - |a|..|s|];
    var b := TrimEnd(a);
    SingleSpacedSlice(a, 0, |b|);
    assert b == a[0..|b|];
  }

  /** A `replace` with a one-character pattern, or a chain of them: each character is
      rewritten on its own, in place. */
  function MapChars(f: char -> char, s: string): (r: string)
    ensures |r| == |s| && forall i :: 0 <= i < |s| ==> r[i] == f(s[i])
  {
    seq(|s|, i requires 0 <= i < |s| => f(s[i]))
  }

  /** A per-character rewrite of a concatenation rewrites each part. */
  lemma MapCharsAppend(f: char -> char, x: string, y: string)
    ensures MapChars(f, x + y) == MapChars(f, x) + MapChars(f, y)
  {
  }

  /** `f` never turns white space into something else or the reverse. */
  ghost predicate KeepsWs(f: char -> char) {
    forall c :: IsWs(f(c)) <==> IsWs(c)
  }

  lemma MapCharsKeepsShape(f: char -> char, s: string)
    requires KeepsWs(f)
    ensures NoWs(s) ==> NoWs(MapChars(f, s))
    ensures Trimmed(s) ==> Trimmed(MapChars(f, s))
    ensures SingleSpaced(s) && (forall c :: f(c) == ' ' <==> c == ' ') ==> SingleSpaced(MapChars(f, s))
  {
  }

  lemma {:induction false} MapCharsTrimStart(f: char -> char, s: string)
    requires KeepsWs(f)
    ensures TrimStart(MapChars(f, s)) == MapChars(f, TrimStart(s))
  {
    if s != [] && IsWs(s[0]) {
      assert MapChars(f, s)[1..] == MapChars(f, s[1..]);
      MapCharsTrimStart(f, s[1..]);
    }
  }

  lemma {:induction false} MapCharsTrimEnd(f: char -> char, s: string)
    requires KeepsWs(f)
    ensures TrimEnd(MapChars(f, s)) == MapChars(f, TrimEnd(s))
  {
    if s != [] && IsWs(s[|s| - 1]) {
      assert MapChars(f, s)[..|s| - 1] == MapChars(f, s[..|s| - 1]);
      MapCharsTrimEnd(f, s[..|s| - 1]);
    }
  }

  /** Removing white space and a white-space-preserving rewrite can be done in either order. */
  lemma {:induction false} MapCharsRemoveWs(f: char -> char, s: string)
    requires KeepsWs(f)
    ensures RemoveWs(MapChars(f, s)) == MapChars(f, RemoveWs(s))
  {
    if s != [] {
      assert MapChars(f, s)[1..] == MapChars(f, s[1..]);
      MapCharsRemoveWs(f, s[1..]);
      if !IsWs(s[0]) {
        assert MapChars(f, [s[0]] + RemoveWs(s[1..])) == [f(s[0])] + MapChars(f, RemoveWs(s[1..]));
      }
    }
  }

  /** Trimming and a white-space-preserving rewrite can be done in either order. */
  lemma MapCharsTrim(f: char -> char, s: string)
    requires KeepsWs(f)
    ensures Trim(MapChars(f, s)) == MapChars(f, Trim(s))
  {
    MapCharsTrimStart(f, s);
    MapCharsTrimEnd(f, TrimStart(s));
  }

  /** `toLowerCase` on a character, for the ASCII letters only. */
  function LowerChar(c: char): (r: char)
    ensures ('A' <= c <= 'Z') ==> 'a' <= r <= 'z'
    ensures !('A' <= c <= 'Z') ==> r == c
  {
    if 'A' <= c <= 'Z' then (c as int + 32) as char else c
  }

  function ToLower(s: string): string {
    MapChars(LowerChar, s)
  }

  /** `padStart(2, '0')`: a string shorter than two characters gets zeros in front. */
  function PadStart2(s: string): (r: string)
    ensures |r| == if |s| >= 2 then |s| else 2
    ensures r[|r| - |s|..] == s
    ensures forall i :: 0 <= i < |r| - |s| ==> r[i] == '0'
  {
    if |s| >= 2 then s else if |s| == 1 then ['0'] + s else "00"
  }

  predicate IsDigit(c: char) {
    '0' <= c <= '9'
  }

  /** The value of a character as a digit of `parseInt`: '0'..'9' are 0..9, the Latin
      letters of either case 10..35, and any other character 36, a digit of no radix. */
  function DigitValue(c: char): (v: nat)
    ensures v <= 36
    ensures v < 10 <==> IsDigit(c)
  {
    if IsDigit(c) then c as int - '0' as int
    else if 'a' <= c <= 'z' then c as int - 'a' as int + 10
    else if 'A' <= c <= 'Z' then c as int - 'A' as int + 10
    else 36
  }

  predicate IsRadixDigit(c: char, radix: nat) {
    DigitValue(c) < radix
  }

  /** The number of digits of the radix at the front of `s`. */
  function LeadingDigits(s: string, radix: nat): (k: nat)
    ensures k <= |s|
    ensures forall i :: 0 <= i < k ==> IsRadixDigit(s[i], radix)
    ensures k < |s| ==> !IsRadixDigit(s[k], radix)
  {
    if s == [] || !IsRadixDigit(s[0], radix) then 0 else 1 + LeadingDigits(s[1..], radix)
  }

  /** The value of a string of digits of the radix. */
  function DigitsValue(s: string, radix: nat): int
    requires forall i :: 0 <= i < |s| ==> IsRadixDigit(s[i], radix)
  {
    if s == [] then 0
    else
      assert IsRadixDigit(s[|s| - 1], radix);
      radix * DigitsValue(s[..|s| - 1], radix) + DigitValue(s[|s| - 1])
  }

  /** What follows the leading white space and one sign. */
  function Unsigned(s: string): string {
    var t := TrimStart(s);
    if t != [] && (t[0] == '-' || t[0] == '+') then t[1..] else t
  }

  /** `parseInt` without a radix reads hexadecimal after a `0x` or `0X` prefix. */
  predicate HexPrefixed(u: string) {
    |u| >= 2 && u[0] == '0' && (u[1] == 'x' || u[1] == 'X')
  }

  function Radix(u: string): nat {
    if HexPrefixed(u) then 16 else 10
  }

  /** The digits that `parseInt` reads from, once the sign and any hex prefix are gone. */
  function DigitPart(u: string): string {
    if HexPrefixed(u) then u[2..] else u
  }

  /** `parseInt(s)` without a radix: leading white space and one sign are skipped; a `0x`
      or `0X` prefix then selects base 16, and base 10 is used otherwise; the longest run
      of digits of that base is read. No digits at all gives `NaN`, here `None`. */
  function ParseInt(s: string): Option<int> {
    var t := TrimStart(s);
    var neg := t != [] && t[0] == '-';
    var u := Unsigned(s);
    var radix := Radix(u);
    var v := DigitPart(u);
    var k := LeadingDigits(v, radix);
    var magnitude: int := if k == 0 then 0 else DigitsValue(v[..k], radix);
    if k == 0 then None else Some(if neg then -magnitude else magnitude)
  }

  /** `parseInt` gives `NaN` exactly when no digit of the chosen base follows the white
      space, the sign and the prefix. So `"0x"` alone is `NaN`, not 0. */
  lemma ParseIntNaN(s: string)
    ensures ParseInt(s).None? <==>
      (var v := DigitPart(Unsigned(s)); v == [] || !IsRadixDigit(v[0], Radix(Unsigned(s))))
  {
  }

  /** A hex-prefixed digit is read in base 16: `"0x1"` is 1 and `"0xa"` is 10. */
  lemma ParseHexDigit(c: char)
    requires IsRadixDigit(c, 16)
    ensures ParseInt(['0', 'x', c]) == Some(DigitValue(c))
  {
    var s := ['0', 'x', c];
    assert !IsWs(s[0]);
    assert TrimStart(s) == s;
    assert Unsigned(s) == s;
    assert HexPrefixed(s);
    assert DigitPart(s) == [c];
    assert LeadingDigits([c], 16) == 1;
    assert [c][..1] == [c];
    assert DigitsValue([c], 16) == DigitValue(c) by {
      assert [c][..0] == [];
    }
  }

  /** The prefix alone has no digits after it, so `"0x"` is `NaN`, not 0. */
  lemma ParseHexPrefixOnly()
    ensures ParseInt("0x") == None
  {
    var s := "0x";
    assert !IsWs(s[0]);
    assert TrimStart(s) == s;
    assert Unsigned(s) == s;
    assert DigitPart(s) == [];
  }

  /** The decimal value of a two-character string of digits. */
  function TwoDigitValue(s: string): int
    requires |s| == 2
  {
    10 * (s[0] as int - '0' as int) + (s[1] as int - '0' as int)
  }

  /** A two-digit string is read as its decimal value. */
  lemma ParseTwoDigits(s: string)
    requires |s| == 2 && IsDigit(s[0]) && IsDigit(s[1])
    ensures ParseInt(s) == Some(TwoDigitValue(s))
  {
    assert !IsWs(s[0]);
    assert TrimStart(s) == s;
    assert Unsigned(s) == s;
    assert !HexPrefixed(s);
    assert DigitPart(s) == s;
    assert LeadingDigits(s[1..], 10) == 1;
    assert LeadingDigits(s, 10) == 2;
    assert s[..2] == s && s[..1] == [s[0]];
    assert DigitsValue([s[0]], 10) == s[0] as int - '0' as int by {
      assert [s[0]][..0] == [];
    }
  }
}
