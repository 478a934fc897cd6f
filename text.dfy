/**
 * The string operations the listing relies on: Python's str.strip(),
 * an ASCII case fold, the case-insensitive substring test behind Django's
 * `icontains` lookup, Python's int() applied to an id sent in a query
 * string, and code-point order on strings (ORDER BY name).
 */
module Text {
  import opened Wrappers

  /** The characters for which Python's str.isspace() holds; str.strip() removes these. */
  predicate IsSpace(c: char) {
    || c == ' '
    || '\U{9}' <= c <= '\U{D}'
    || '\U{1C}' <= c <= '\U{1F}'
    || c == '\U{85}' || c == '\U{A0}' || c == '\U{1680}'
    || '\U{2000}' <= c <= '\U{200A}'
    || c == '\U{2028}' || c == '\U{2029}' || c == '\U{202F}' || c == '\U{205F}' || c == '\U{3000}'
  }

  /**
   * Dropping the white space at the front, where `ws` says which characters
   * are white space: IsSpace for str.lstrip(), IsIntSpace for int().
   */
  function TrimStart(s: string, ws: char -> bool): (r: string)
    ensures |r| <= |s|
  {
    if s != [] && ws(s[0]) then TrimStart(s[1..], ws) else s
  }

  /** Dropping the white space at the back: str.rstrip() when `ws` is IsSpace. */
  function TrimEnd(s: string, ws: char -> bool): (r: string)
    ensures |r| <= |s|
  {
    if s != [] && ws(s[|s| - 1]) then TrimEnd(s[..|s| - 1], ws) else s
  }

  /** Both ends: str.strip() is Strip(s, IsSpace), and int() trims with Strip(s, IsIntSpace). */
  function Strip(s: string, ws: char -> bool): (r: string)
    ensures |r| <= |s|
  {
    TrimEnd(TrimStart(s, ws), ws)
  }

  /** lstrip() keeps a suffix, drops only white space, and stops at the first other character. */
  lemma {:induction false} TrimStartSpec(s: string, ws: char -> bool)
    ensures var r := TrimStart(s, ws);
      && |r| <= |s| && r == s[|s| - |r|..]
      && (forall i :: 0 <= i < |s| - |r| ==> ws(s[i]))
      && (r != [] ==> !ws(r[0]))
  {
    if s != [] && ws(s[0]) {
      TrimStartSpec(s[1..], ws);
      var r := TrimStart(s, ws);
      forall i | 1 <= i < |s| - |r| ensures ws(s[i]) {
        assert s[i] == s[1..][i - 1];
      }
    }
  }

  /** rstrip() keeps a prefix, drops only white space, and stops at the last other character. */
  lemma {:induction false} TrimEndSpec(s: string, ws: char -> bool)
    ensures var r := TrimEnd(s, ws);
      && |r| <= |s| && r == s[..|r|]
      && (forall i :: |r| <= i < |s| ==> ws(s[i]))
      && (r != [] ==> !ws(r[|r| - 1]))
  {
    if s != [] && ws(s[|s| - 1]) {
      TrimEndSpec(s[..|s| - 1], ws);
      var r := TrimEnd(s, ws);
      forall i | |r| <= i < |s| - 1 ensures ws(s[i]) {
        assert s[i] == s[..|s| - 1][i];
      }
    }
  }

  /**
   * What str.strip() returns: the factor of `s` left once the white space
   * at both ends is gone. It is empty exactly when `s` is all white space,
   * and a string with no white space at its ends is its own strip.
   */
  lemma StripSpec(s: string, ws: char -> bool)
    ensures var r := Strip(s, ws); var k := |s| - |TrimStart(s, ws)|;
      && k + |r| <= |s| && r == s[k..k + |r|]
      && (forall i :: 0 <= i < k ==> ws(s[i]))
      && (forall i :: k + |r| <= i < |s| ==> ws(s[i]))
      && (r != [] ==> !ws(r[0]) && !ws(r[|r| - 1]))
      && (r == [] <==> forall i :: 0 <= i < |s| ==> ws(s[i]))
      && (s != [] && !ws(s[0]) && !ws(s[|s| - 1]) ==> r == s)
  {
    StripFactor(s, ws);
    StripEnds(s, ws);
    StripEmptyIffBlank(s, ws);
    StripKeeps(s, ws);
  }

  /** The strip is the factor at k, with only white space before and after it. */
  lemma StripFactor(s: string, ws: char -> bool)
    ensures var r := Strip(s, ws); var k := |s| - |TrimStart(s, ws)|;
      && k + |r| <= |s| && r == s[k..k + |r|]
      && (forall i :: 0 <= i < k ==> ws(s[i]))
      && (forall i :: k + |r| <= i < |s| ==> ws(s[i]))
  {
    var t := TrimStart(s, ws);
    TrimStartSpec(s, ws);
    var k := |s| - |t|;
    var r := TrimEnd(t, ws);
    TrimEndSpec(t, ws);
    SpaceAfterDrop(s, k, |r|, ws);
  }

  /** A run of white space ending the suffix s[k..] ends `s` too, and the factor before it is a slice of `s`. */
  lemma SpaceAfterDrop(s: string, k: nat, m: nat, ws: char -> bool)
    requires k + m <= |s|
    requires forall i :: m <= i < |s| - k ==> ws(s[k..][i])
    ensures s[k..][..m] == s[k..k + m]
    ensures forall i :: k + m <= i < |s| ==> ws(s[i])
  {
    forall i | k + m <= i < |s| ensures ws(s[i]) {
      assert s[i] == s[k..][i - k];
    }
  }

  /** A non-empty strip starts and ends with a character other than white space. */
  lemma StripEnds(s: string, ws: char -> bool)
    ensures var r := Strip(s, ws); r != [] ==> !ws(r[0]) && !ws(r[|r| - 1])
  {
    var t := TrimStart(s, ws);
    var r := TrimEnd(t, ws);
    TrimStartSpec(s, ws);
    TrimEndSpec(t, ws);
    if r != [] {
      assert r[0] == t[0];
    }
  }

  /** The strip is empty exactly when every character is white space. */
  lemma StripEmptyIffBlank(s: string, ws: char -> bool)
    ensures Strip(s, ws) == [] <==> forall i :: 0 <= i < |s| ==> ws(s[i])
  {
    var k := |s| - |TrimStart(s, ws)|;
    var r := Strip(s, ws);
    StripFactor(s, ws);
    StripEnds(s, ws);
    if r != [] {
      assert s[k] == r[0];
    }
  }

  /** A string with no white space at either end is its own strip. */
  lemma StripKeeps(s: string, ws: char -> bool)
    ensures s != [] && !ws(s[0]) && !ws(s[|s| - 1]) ==> Strip(s, ws) == s
  {
    if s != [] && !ws(s[0]) && !ws(s[|s| - 1]) {
      assert TrimStart(s, ws) == s;
    }
  }

  /** The ASCII lower-case form of one character; every other character is kept. */
  function LowerChar(c: char): (d: char)
    ensures !('A' <= d <= 'Z')
    ensures 'a' <= c <= 'z' ==> d == c
  {
    if 'A' <= c <= 'Z' then (c as int + 32) as char else c
  }

  /** The ASCII lower-case form of a string, character by character. */
  function Lower(s: string): (r: string)
    ensures |r| == |s|
    ensures forall i :: 0 <= i < |s| ==> r[i] == LowerChar(s[i])
  {
    if s == [] then [] else [LowerChar(s[0])] + Lower(s[1..])
  }

  lemma LowerIdempotent(s: string)
    ensures Lower(Lower(s)) == Lower(s)
  {
  }

  /** `needle` occurs in `hay` starting at position `i`. */
  predicate OccursAt(hay: string, needle: string, i: int) {
    0 <= i && i + |needle| <= |hay| && hay[i..i + |needle|] == needle
  }

  /** Substring test, scanning `hay` from the front. */
  function Contains(hay: string, needle: string): bool
    decreases |hay|
  {
    if |needle| > |hay| then false
    else if hay[..|needle|] == needle then true
    else Contains(hay[1..], needle)
  }

  /** The scan finds `needle` exactly when it occurs somewhere in `hay`. */
  lemma {:induction false} ContainsIff(hay: string, needle: string)
    ensures Contains(hay, needle) <==> exists i :: OccursAt(hay, needle, i)
    decreases |hay|
  {
    if |needle| > |hay| {
    } else if hay[..|needle|] == needle {
      assert OccursAt(hay, needle, 0);
    } else {
      ContainsIff(hay[1..], needle);
      if Contains(hay[1..], needle) {
        var j :| OccursAt(hay[1..], needle, j);
        assert hay[1..][j..j + |needle|] == hay[j + 1..j + 1 + |needle|];
        assert OccursAt(hay, needle, j + 1);
      } else {
        forall i | OccursAt(hay, needle, i) ensures false {
          assert i != 0;
          assert hay[1..][i - 1..i - 1 + |needle|] == hay[i..i + |needle|];
          assert OccursAt(hay[1..], needle, i - 1);
        }
      }
    }
  }

  /**
   * Case-insensitive containment (`icontains`), with ASCII lower-casing as
   * the case fold. The empty needle is contained in everything.
   */
  function IContains(hay: string, needle: string): (r: bool)
    ensures needle == [] ==> r
  {
    assert Lower(hay)[..0] == [];
    Contains(Lower(hay), Lower(needle))
  }

  /** Containment ignores the ASCII case of both strings. */
  lemma IContainsIgnoresCase(hay: string, needle: string)
    ensures IContains(hay, needle) == IContains(Lower(hay), Lower(needle))
    ensures IContains(hay, needle) <==> exists i :: OccursAt(Lower(hay), Lower(needle), i)
  {
    LowerIdempotent(hay);
    LowerIdempotent(needle);
    ContainsIff(Lower(hay), Lower(needle));
  }

  // ---------------------------------------------------------------------
  // Python's int() on a query-string value
  // ---------------------------------------------------------------------

  predicate IsDigit(c: char) {
    '0' <= c <= '9'
  }

  /** The body of an integer literal that int() accepts: digits, with single underscores between digits. */
  predicate IsDigitRun(s: string) {
    && s != [] && IsDigit(s[0]) && IsDigit(s[|s| - 1])
    && (forall i :: 0 <= i < |s| ==> IsDigit(s[i]) || s[i] == '_')
    && (forall i :: 0 <= i < |s| - 1 ==> s[i] == '_' ==> s[i + 1] != '_')
  }

  /** The number the digits of `s` spell, reading left to right and skipping underscores. */
  function DigitsValue(s: string): nat {
    if s == [] then 0
    else if IsDigit(s[|s| - 1]) then DigitsValue(s[..|s| - 1]) * 10 + (s[|s| - 1] as int - '0' as int)
    else DigitsValue(s[..|s| - 1])
  }

  /**
   * The white space int() skips around a literal: space and U+0009 to
   * U+000D, and every character from U+007F up that str.isspace() accepts
   * (int() reads those as a space). U+001C to U+001F are white space to
   * str.isspace() but not to int().
   */
  predicate IsIntSpace(c: char) {
    c == ' ' || '\U{9}' <= c <= '\U{D}' || (c >= '\U{7F}' && IsSpace(c))
  }

  /**
   * sys.int_info.default_max_str_digits: int() refuses, with ValueError, a
   * decimal literal of more digits than this.
   */
  const MaxStrDigits := 4300

  /** How many of the characters of `s` are digits. */
  function DigitsIn(s: string): (n: nat)
    ensures n <= |s|
  {
    if s == [] then 0 else DigitsIn(s[..|s| - 1]) + (if IsDigit(s[|s| - 1]) then 1 else 0)
  }

  /** A string of digits only has as many digits as characters. */
  lemma {:induction false} DigitsInAllDigits(s: string)
    requires forall i :: 0 <= i < |s| ==> IsDigit(s[i])
    ensures DigitsIn(s) == |s|
  {
    if s != [] {
      DigitsInAllDigits(s[..|s| - 1]);
    }
  }

  /** A digit run short enough for int(): at most MaxStrDigits digits, underscores not counted. */
  predicate IsDigitBody(t: string) {
    IsDigitRun(t) && DigitsIn(t) <= MaxStrDigits
  }

  /** What int() accepts once the white space is gone: an optional sign, then a digit body. */
  predicate IsIntLiteral(t: string) {
    || IsDigitBody(t)
    || (t != [] && (t[0] == '+' || t[0] == '-') && IsDigitBody(t[1..]))
  }

  /** The value of a literal, negated after a minus sign. */
  function LiteralValue(t: string): int
    requires IsIntLiteral(t)
  {
    if t[0] == '-' then -(DigitsValue(t[1..]) as int)
    else if t[0] == '+' then DigitsValue(t[1..])
    else DigitsValue(t)
  }

  /**
   * Python's int(s) for a string: the white space int() skips is dropped at
   * both ends, and what is left must be a literal (None stands for the
   * ValueError it raises otherwise).
   */
  function ParseInt(s: string): Option<int> {
    var t := Strip(s, IsIntSpace);
    if IsIntLiteral(t) then Some(LiteralValue(t)) else None
  }

  /** `s` is a literal of value `v` at s[i..j], with only int() white space before and after it. */
  predicate ReadsAs(s: string, i: int, j: int, v: int) {
    && 0 <= i <= j <= |s|
    && (forall k :: 0 <= k < i ==> IsIntSpace(s[k]))
    && (forall k :: j <= k < |s| ==> IsIntSpace(s[k]))
    && IsIntLiteral(s[i..j]) && LiteralValue(s[i..j]) == v
  }

  /** int(s) returns `v` exactly when `s` is a literal of value `v` padded with int() white space. */
  lemma ParseIntSpec(s: string, v: int)
    ensures ParseInt(s) == Some(v) <==> exists i, j :: ReadsAs(s, i, j, v)
  {
    var t := Strip(s, IsIntSpace);
    var k := |s| - |TrimStart(s, IsIntSpace)|;
    StripFactor(s, IsIntSpace);
    if ParseInt(s) == Some(v) {
      assert ReadsAs(s, k, k + |t|, v);
    }
    if exists i, j :: ReadsAs(s, i, j, v) {
      var i, j :| ReadsAs(s, i, j, v);
      ReadsAsParses(s, i, j, v);
    }
  }

  /** A literal padded with int() white space is read as its value. */
  lemma ReadsAsParses(s: string, i: int, j: int, v: int)
    requires ReadsAs(s, i, j, v)
    ensures ParseInt(s) == Some(v)
  {
    var m := s[i..j];
    LiteralEnds(m);
    assert m[0] == s[i];
    assert m[|m| - 1] == s[j - 1];
    StripPadded(s, IsIntSpace, i, j);
  }

  /** A literal is not empty, and neither of its ends is white space to int(). */
  lemma LiteralEnds(t: string)
    requires IsIntLiteral(t)
    ensures t != [] && !IsIntSpace(t[0]) && !IsIntSpace(t[|t| - 1])
  {
    if !IsDigitBody(t) {
      assert t[1..][|t| - 2] == t[|t| - 1];
    }
  }

  /** A factor with no white space at its ends and only white space around it is what Strip returns. */
  lemma StripPadded(s: string, ws: char -> bool, i: int, j: int)
    requires 0 <= i < j <= |s|
    requires forall k :: 0 <= k < i ==> ws(s[k])
    requires forall k :: j <= k < |s| ==> ws(s[k])
    requires !ws(s[i]) && !ws(s[j - 1])
    ensures Strip(s, ws) == s[i..j]
  {
    var t := TrimStart(s, ws);
    TrimStartSpec(s, ws);
    assert |s| - |t| == i;
    TrimEndSpec(t, ws);
    assert t[j - 1 - i] == s[j - 1];
  }

  /**
   * U+001C to U+001F, though white space to str.strip(), are kept by int(),
   * so an input that starts or ends with one of them fails.
   */
  lemma ParseIntKeepsSeparators(s: string)
    requires s != []
    requires '\U{1C}' <= s[0] <= '\U{1F}' || '\U{1C}' <= s[|s| - 1] <= '\U{1F}'
    ensures ParseInt(s).None?
  {
    var t := Strip(s, IsIntSpace);
    var k := |s| - |TrimStart(s, IsIntSpace)|;
    StripFactor(s, IsIntSpace);
    if t != [] {
      if '\U{1C}' <= s[0] <= '\U{1F}' {
        assert k == 0 && t[0] == s[0];
      } else {
        assert k + |t| == |s| && t[|t| - 1] == s[|s| - 1];
      }
    }
  }

  /** A non-empty string of digits only is read as its value, unless it has more than MaxStrDigits of them. */
  lemma ParseIntDigits(s: string)
    requires s != [] && forall i :: 0 <= i < |s| ==> IsDigit(s[i])
    ensures |s| <= MaxStrDigits ==> ParseInt(s) == Some(DigitsValue(s))
    ensures |s| > MaxStrDigits ==> ParseInt(s).None?
  {
    DigitsInAllDigits(s);
    StripKeeps(s, IsIntSpace);
    assert IsDigitRun(s);
    assert s[0] != '+' && s[0] != '-';
  }

  /** int() succeeds only on a string holding a digit; a blank string (all white space, or empty) fails. */
  lemma {:induction false} ParseIntNeedsDigit(s: string)
    ensures ParseInt(s).Some? ==> exists i :: 0 <= i < |s| && IsDigit(s[i])
    ensures (forall i :: 0 <= i < |s| ==> IsSpace(s[i])) ==> ParseInt(s).None?
  {
    StripFactor(s, IsIntSpace);
    var t := Strip(s, IsIntSpace);
    var k := |s| - |TrimStart(s, IsIntSpace)|;
    if ParseInt(s).Some? {
      if t[0] == '+' || t[0] == '-' {
        assert s[k + 1] == t[1];
      } else {
        assert s[k] == t[0];
      }
    }
  }

  function DigitChar(d: nat): (c: char)
    requires d < 10
    ensures IsDigit(c) && c as int - '0' as int == d
  {
    ('0' as int + d) as char
  }

  /** The canonical decimal spelling of a natural number, as str() writes it. */
  function DecimalString(n: nat): (r: string)
  {
    if n < 10 then [DigitChar(n)] else DecimalString(n / 10) + [DigitChar(n % 10)]
  }

  lemma {:induction false} DecimalStringDigits(n: nat)
    ensures var r := DecimalString(n);
      && r != []
      && (forall i :: 0 <= i < |r| ==> IsDigit(r[i]))
      && DigitsValue(r) == n
  {
    if n >= 10 {
      DecimalStringDigits(n / 10);
      var p := DecimalString(n / 10);
      assert (p + [DigitChar(n % 10)])[..|p|] == p;
    }
  }

  /** int() reads back what str() writes, unless it has more than MaxStrDigits digits. */
  lemma {:induction false} ParseDecimalString(n: nat)
    ensures |DecimalString(n)| <= MaxStrDigits ==> ParseInt(DecimalString(n)) == Some(n)
    ensures |DecimalString(n)| > MaxStrDigits ==> ParseInt(DecimalString(n)) == None
  {
    DecimalStringDigits(n);
    ParseIntDigits(DecimalString(n));
  }

  // ---------------------------------------------------------------------
  // Code-point order on strings
  // ---------------------------------------------------------------------

  /** Lexicographic order by code point: `a` sorts no later than `b`. */
  predicate LexLeq(a: string, b: string) {
    if a == [] then true
    else if b == [] then false
    else if a[0] != b[0] then a[0] < b[0]
    else LexLeq(a[1..], b[1..])
  }

  lemma {:induction false} LexLeqTotal(a: string, b: string)
    ensures LexLeq(a, b) || LexLeq(b, a)
  {
    if a != [] && b != [] && a[0] == b[0] {
      LexLeqTotal(a[1..], b[1..]);
    }
  }

  lemma {:induction false} LexLeqTransitive(a: string, b: string, c: string)
    requires LexLeq(a, b) && LexLeq(b, c)
    ensures LexLeq(a, c)
  {
    if a != [] && b != [] && c != [] && a[0] == b[0] && b[0] == c[0] {
      LexLeqTransitive(a[1..], b[1..], c[1..]);
    }
  }

  lemma {:induction false} LexLeqAntisymmetric(a: string, b: string)
    requires LexLeq(a, b) && LexLeq(b, a)
    ensures a == b
  {
    if a != [] && b != [] {
      LexLeqAntisymmetric(a[1..], b[1..]);
      assert a == [a[0]] + a[1..];
      assert b == [b[0]] + b[1..];
    }
  }
}
