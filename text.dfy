/**
 * The string operations the Python, JavaScript and Kotlin sources lean on:
 * `strip`, `split`, `splitlines`, substring search, case mapping, string
 * comparison and decimal rendering. Strings are sequences of characters.
 */
module Text {
  import opened Wrappers

  // ---------------------------------------------------------------------------
  // Whitespace, strip and split

  /** Whitespace as Python's `str.strip()` and `str.split()` treat it: the characters `str.isspace()` accepts. */
  predicate IsSpace(c: char) {
    c == ' ' || c == '\t' || c == '\n' || c == '\r' || c == '\U{B}' || c == '\U{C}'
    || c == '\U{1C}' || c == '\U{1D}' || c == '\U{1E}' || c == '\U{1F}'
    || c == '\U{85}' || c == '\U{A0}' || c == '\U{1680}'
    || ('\U{2000}' <= c <= '\U{200A}')
    || c == '\U{2028}' || c == '\U{2029}' || c == '\U{202F}' || c == '\U{205F}' || c == '\U{3000}'
  }

  /** `s` with its leading whitespace removed. */
  function TrimStart(s: string): (r: string)
    ensures |r| <= |s| && r == s[|s| - |r|..]
    ensures forall j :: 0 <= j < |s| - |r| ==> IsSpace(s[j])
    ensures r == [] || !IsSpace(r[0])
  {
    if s != [] && IsSpace(s[0]) then TrimStart(s[1..]) else s
  }

  /** `s` with its trailing whitespace removed. */
  function TrimEnd(s: string): (r: string)
    ensures |r| <= |s| && r == s[..|r|]
    ensures forall j :: |r| <= j < |s| ==> IsSpace(s[j])
    ensures r == [] || !IsSpace(r[|r| - 1])
  {
    if s != [] && IsSpace(s[|s| - 1]) then TrimEnd(s[..|s| - 1]) else s
  }

  /** Python's `s.strip()`: the piece of `s` left after cutting whitespace at both ends. */
  function Strip(s: string): (r: string)
    ensures |r| <= |s|
    ensures r == [] || (!IsSpace(r[0]) && !IsSpace(r[|r| - 1]))
  {
    TrimEnd(TrimStart(s))
  }

  /** A character absent from `s` is absent from its strip. */
  lemma StripAvoids(s: string, c: char)
    requires c !in s
    ensures c !in Strip(s)
  {
    var t := TrimStart(s);
    var r := TrimEnd(t);
    forall j | 0 <= j < |t| ensures t[j] != c {
      assert t[j] == s[|s| - |t| + j];
    }
    forall j | 0 <= j < |r| ensures r[j] != c {
      assert r[j] == t[j];
    }
  }

  /** A string that `strip` leaves unchanged is its own strip. */
  lemma {:induction false} StripIdempotent(s: string)
    ensures Strip(Strip(s)) == Strip(s)
  {
    var r := Strip(s);
    assert TrimStart(r) == r;
    assert TrimEnd(r) == r;
  }

  /** Index of the first whitespace character of `s` at or after `i`, or `|s|`. */
  function SpaceFrom(s: string, i: nat): (k: nat)
    requires i <= |s|
    ensures i <= k <= |s|
    ensures k < |s| ==> IsSpace(s[k])
    ensures forall j :: i <= j < k ==> !IsSpace(s[j])
    decreases |s| - i
  {
    if i == |s| || IsSpace(s[i]) then i else SpaceFrom(s, i + 1)
  }

  /** A non-empty string without whitespace. */
  predicate IsWord(w: string) {
    w != [] && forall j :: 0 <= j < |w| ==> !IsSpace(w[j])
  }

  /** Python's `s.split()`: the maximal runs of non-whitespace characters, in order. */
  function Tokens(s: string): (r: seq<string>)
    decreases |s|
  {
    var t := TrimStart(s);
    if t == [] then []
    else
      var k := SpaceFrom(t, 1);
      [t[..k]] + Tokens(t[k..])
  }

  /** Every token is a word. */
  lemma {:induction false} TokensAreWords(s: string)
    ensures forall k :: 0 <= k < |Tokens(s)| ==> IsWord(Tokens(s)[k])
    decreases |s|
  {
    var t := TrimStart(s);
    if t != [] {
      var k := SpaceFrom(t, 1);
      var w, rest := t[..k], Tokens(t[k..]);
      TokensAreWords(t[k..]);
      assert Tokens(s) == [w] + rest;
      forall j | 0 <= j < |w| ensures !IsSpace(w[j]) {
        assert w[j] == t[j];
      }
      forall i | 0 <= i < |Tokens(s)| ensures IsWord(Tokens(s)[i]) {
        if i > 0 {
          assert Tokens(s)[i] == rest[i - 1];
        }
      }
    }
  }

  /** A string that strips to nothing has no words. */
  lemma TokensOfBlank(s: string)
    requires Strip(s) == []
    ensures Tokens(s) == []
  {
    var t := TrimStart(s);
    assert TrimEnd(t) == [];
  }

  /** Whatever occurs in a string that strips to nothing starts with whitespace. */
  lemma BlankHoldsOnlySpace(s: string, t: string, k: nat)
    requires Strip(s) == [] && t != [] && k + |t| <= |s| && s[k..k + |t|] == t
    ensures IsSpace(t[0])
  {
    var blank := TrimStart(s);
    assert TrimEnd(blank) == [];
    assert t[0] == s[k];
  }

  /** Splitting on a single character, as JavaScript's `s.split(' ')` does: empty pieces are kept. */
  function SplitOn(s: string, sep: char): (r: seq<string>)
    ensures |r| >= 1
    ensures forall k :: 0 <= k < |r| ==> sep !in r[k]
    decreases |s|
  {
    if sep !in s then [s]
    else
      var k := FirstOf(s, sep);
      [s[..k]] + SplitOn(s[k + 1..], sep)
  }

  /** Every character of every piece comes from the string split. */
  lemma {:induction false} SplitOnChars(s: string, sep: char)
    ensures forall k, j :: 0 <= k < |SplitOn(s, sep)| && 0 <= j < |SplitOn(s, sep)[k]| ==> SplitOn(s, sep)[k][j] in s
    decreases |s|
  {
    if sep in s {
      var i := FirstOf(s, sep);
      var r, rest := SplitOn(s, sep), SplitOn(s[i + 1..], sep);
      SplitOnChars(s[i + 1..], sep);
      assert r == [s[..i]] + rest;
      forall k, j | 0 <= k < |r| && 0 <= j < |r[k]| ensures r[k][j] in s {
        if k == 0 {
          assert r[k][j] == s[j];
        } else {
          assert r[k] == rest[k - 1];
          assert r[k][j] in s[i + 1..];
        }
      }
    }
  }

  /** The first piece of a split is empty exactly when the string starts with the separator (or is empty). */
  lemma SplitOnHead(s: string, sep: char)
    ensures SplitOn(s, sep)[0] != [] <==> s != [] && s[0] != sep
    ensures SplitOn(s, sep)[0] != [] ==> SplitOn(s, sep)[0][0] == s[0]
  {
  }

  /** A piece free of the separator, the separator and a rest split as the piece followed by the rest's pieces. */
  lemma SplitOnJoin(a: string, sep: char, rest: string)
    requires sep !in a
    ensures SplitOn(a + [sep] + rest, sep) == [a] + SplitOn(rest, sep)
  {
    var s := a + [sep] + rest;
    assert s[|a|] == sep;
    var k := FirstOf(s, sep);
    assert s[..k] == a;
    assert s[k + 1..] == rest;
  }

  /** Index of the first occurrence of `c` in `s`. */
  function FirstOf(s: string, c: char): (k: nat)
    requires c in s
    ensures k < |s| && s[k] == c && c !in s[..k]
  {
    if s[0] == c then 0 else FirstOf(s[1..], c) + 1
  }

  // ---------------------------------------------------------------------------
  // Lines

  /** The characters Python's `str.splitlines()` ends a line at. */
  predicate IsLineBreak(c: char) {
    c == '\n' || c == '\r' || c == '\U{B}' || c == '\U{C}' || c == '\U{1C}' || c == '\U{1D}'
    || c == '\U{1E}' || c == '\U{85}' || c == '\U{2028}' || c == '\U{2029}'
  }

  /** Index of the first line break at or after `i`, or `|s|`. */
  function BreakFrom(s: string, i: nat): (k: nat)
    requires i <= |s|
    ensures i <= k <= |s|
    ensures k < |s| ==> IsLineBreak(s[k])
    ensures forall j :: i <= j < k ==> !IsLineBreak(s[j])
    decreases |s| - i
  {
    if i == |s| || IsLineBreak(s[i]) then i else BreakFrom(s, i + 1)
  }

  /**
   * Python's `s.splitlines()`: the text between line breaks, where "\r\n" is one
   * break and a break at the very end does not open an empty last line.
   */
  function Lines(s: string): (r: seq<string>)
    ensures forall k, j :: 0 <= k < |r| && 0 <= j < |r[k]| ==> !IsLineBreak(r[k][j])
    ensures |r| <= |s|
    ensures s == [] <==> r == []
    decreases |s|
  {
    if s == [] then []
    else
      var k := BreakFrom(s, 0);
      var width := if k == |s| then 0 else if s[k] == '\r' && k + 1 < |s| && s[k + 1] == '\n' then 2 else 1;
      [s[..k]] + Lines(s[k + width..])
  }

  // ---------------------------------------------------------------------------
  // Substring search

  /** `t` occurs in `s` starting at index `i`. */
  predicate OccursAt(s: string, t: string, i: nat) {
    i + |t| <= |s| && s[i..i + |t|] == t
  }

  /** The first index at or after `from` where `t` occurs in `s`. */
  function IndexFrom(s: string, t: string, from: nat): (r: Option<nat>)
    requires from <= |s|
    ensures r.Some? ==> from <= r.value <= |s| && OccursAt(s, t, r.value)
                         && forall j :: from <= j < r.value ==> !OccursAt(s, t, j)
    ensures r.None? ==> forall j :: from <= j <= |s| ==> !OccursAt(s, t, j)
    decreases |s| - from
  {
    if OccursAt(s, t, from) then Some(from)
    else if from == |s| then None
    else IndexFrom(s, t, from + 1)
  }

  /** The first index where `t` occurs in `s`. */
  function IndexOf(s: string, t: string): (r: Option<nat>)
    ensures r.Some? ==> OccursAt(s, t, r.value) && forall j :: 0 <= j < r.value ==> !OccursAt(s, t, j)
    ensures r.None? ==> forall j :: 0 <= j <= |s| ==> !OccursAt(s, t, j)
  {
    IndexFrom(s, t, 0)
  }

  /** Python's `t in s` and JavaScript's `s.includes(t)`. */
  predicate Contains(s: string, t: string) {
    IndexOf(s, t).Some?
  }

  /** The empty string is found in every string. */
  lemma EmptyIsEverywhere(s: string)
    ensures Contains(s, "")
  {
    assert OccursAt(s, "", 0);
  }

  /** `Contains` holds exactly when some position holds an occurrence. */
  lemma ContainsIff(s: string, t: string)
    ensures Contains(s, t) <==> exists i :: 0 <= i <= |s| && OccursAt(s, t, i)
  {
  }

  /** Whatever contains a text contains each of its prefixes. */
  lemma ContainsPrefix(s: string, t: string, u: string)
    requires Contains(s, t + u)
    ensures Contains(s, t)
  {
    var i := IndexOf(s, t + u).value;
    assert s[i..i + |t|] == s[i..i + |t + u|][..|t|];
    assert OccursAt(s, t, i);
  }

  // ---------------------------------------------------------------------------
  // Case mapping (ASCII letters only)

  function LowerChar(c: char): char {
    if 'A' <= c <= 'Z' then (c as int + 32) as char else c
  }

  function UpperChar(c: char): char {
    if 'a' <= c <= 'z' then (c as int - 32) as char else c
  }

  /** `toLowerCase()` / `lower()`, restricted to the ASCII letters. */
  function Lower(s: string): (r: string)
    ensures |r| == |s| && forall i :: 0 <= i < |s| ==> r[i] == LowerChar(s[i])
    ensures forall i :: 0 <= i < |r| ==> !('A' <= r[i] <= 'Z')
  {
    seq(|s|, i requires 0 <= i < |s| => LowerChar(s[i]))
  }

  /** Lower-casing works piecewise. */
  lemma LowerAppend(a: string, b: string)
    ensures Lower(a + b) == Lower(a) + Lower(b)
  {
    assert forall i :: 0 <= i < |a + b| ==> Lower(a + b)[i] == (Lower(a) + Lower(b))[i];
  }

  /** `toUpperCase()`, restricted to the ASCII letters. */
  function Upper(s: string): (r: string)
    ensures |r| == |s| && forall i :: 0 <= i < |s| ==> r[i] == UpperChar(s[i])
    ensures forall i :: 0 <= i < |r| ==> !('a' <= r[i] <= 'z')
  {
    seq(|s|, i requires 0 <= i < |s| => UpperChar(s[i]))
  }

  /** Upper-casing works piecewise. */
  lemma UpperAppend(a: string, b: string)
    ensures Upper(a + b) == Upper(a) + Upper(b)
  {
    assert forall i :: 0 <= i < |a + b| ==> Upper(a + b)[i] == (Upper(a) + Upper(b))[i];
  }

  // ---------------------------------------------------------------------------
  // String order (Python's `<` on `str`: by code point, a proper prefix first)

  predicate StrLess(a: string, b: string) {
    if a == [] then b != []
    else if b == [] then false
    else if a[0] != b[0] then a[0] < b[0]
    else StrLess(a[1..], b[1..])
  }

  lemma {:induction false} StrLessAsymmetric(a: string, b: string)
    ensures StrLess(a, b) ==> !StrLess(b, a)
  {
    if a != [] && b != [] && a[0] == b[0] {
      StrLessAsymmetric(a[1..], b[1..]);
    }
  }

  lemma {:induction false} StrLessTotal(a: string, b: string)
    ensures a == b || StrLess(a, b) || StrLess(b, a)
  {
    if a != [] && b != [] && a[0] == b[0] {
      StrLessTotal(a[1..], b[1..]);
      if a[1..] == b[1..] {
        assert a == [a[0]] + a[1..] && b == [b[0]] + b[1..];
      }
    }
  }

  lemma {:induction false} StrLessTransitive(a: string, b: string, c: string)
    ensures StrLess(a, b) && StrLess(b, c) ==> StrLess(a, c)
  {
    if a != [] && b != [] && c != [] && a[0] == b[0] && b[0] == c[0] {
      StrLessTransitive(a[1..], b[1..], c[1..]);
    }
  }

  // ---------------------------------------------------------------------------
  // Decimal numbers

  predicate IsDigit(c: char) {
    '0' <= c <= '9'
  }

  predicate AllDigits(s: string) {
    forall i :: 0 <= i < |s| ==> IsDigit(s[i])
  }

  function DigitChar(d: nat): (c: char)
    requires d < 10
    ensures IsDigit(c) && c as int - '0' as int == d
  {
    ('0' as int + d) as char
  }

  /** The value of a run of decimal digits, as Python's `int(...)` reads it. */
  function DecimalValue(s: string): nat
    requires AllDigits(s)
  {
    if s == [] then 0 else DecimalValue(s[..|s| - 1]) * 10 + (s[|s| - 1] as int - '0' as int)
  }

  /** The decimal rendering of `n` (`%d`, `str`): digits only, no leading zero. */
  function NatToDecimal(n: nat): (r: string)
    ensures r != [] && AllDigits(r)
    ensures r[0] == '0' ==> n == 0 && r == "0"
  {
    if n < 10 then [DigitChar(n)] else NatToDecimal(n / 10) + [DigitChar(n % 10)]
  }

  /** Reading back a rendered number gives the number. */
  lemma {:induction false} DecimalRoundTrip(n: nat)
    ensures DecimalValue(NatToDecimal(n)) == n
  {
    if n >= 10 {
      var r := NatToDecimal(n);
      assert r[..|r| - 1] == NatToDecimal(n / 10);
      DecimalRoundTrip(n / 10);
    }
  }

  /** The decimal rendering of an integer, with a leading '-' when negative. */
  function IntToDecimal(i: int): (r: string)
    ensures r != []
    ensures i >= 0 ==> AllDigits(r) && DecimalValue(r) == i
    ensures i < 0 ==> r[0] == '-' && AllDigits(r[1..]) && DecimalValue(r[1..]) == -i
  {
    if i < 0 then
      DecimalRoundTrip(-i);
      "-" + NatToDecimal(-i)
    else
      DecimalRoundTrip(i);
      NatToDecimal(i)
  }

  // ---------------------------------------------------------------------------
  // Shortening for display

  /** How many characters a shortened text keeps before the ellipsis. */
  const ShortLimit: nat := 100

  /**
   * A text longer than the limit becomes its first 100 characters followed by
   * "..."; a shorter one is kept as it is.
   */
  function Shorten(s: string): (r: string)
    ensures |r| <= ShortLimit + 3
    ensures |s| <= ShortLimit ==> r == s
    ensures |s| > ShortLimit ==> r == s[..ShortLimit] + "..."
  {
    if |s| > ShortLimit then s[..ShortLimit] + "..." else s
  }

  /** Shortening a shortened text changes nothing. */
  lemma ShortenIdempotent(s: string)
    ensures Shorten(Shorten(s)) == Shorten(s)
  {
    if |s| > ShortLimit {
      assert Shorten(s)[..ShortLimit] == s[..ShortLimit];
    }
  }
}
