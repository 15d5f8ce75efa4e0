/**
 * The JavaScript string primitives the application relies on, over `seq<char>`:
 * the regex classes `\d` and `\s`, `toLowerCase`/`toUpperCase` (ASCII letters only),
 * `trim`, `split`/`join` on one character, `includes`, `startsWith`, `padStart`,
 * and the decimal rendering of a non-negative integer.
 */
module Strings {

  /** The regex class `\d`: an ASCII decimal digit. */
  predicate IsDigit(c: char) {
    '0' <= c <= '9'
  }

  predicate AllDigits(s: string) {
    forall i | 0 <= i < |s| :: IsDigit(s[i])
  }

  /** `parseInt` of a one-digit string. */
  function DigitValue(c: char): (v: nat)
    requires IsDigit(c)
    ensures v < 10
  {
    c as int - '0' as int
  }

  function DigitChar(v: nat): (c: char)
    requires v < 10
    ensures IsDigit(c) && DigitValue(c) == v
  {
    ('0' as int + v) as char
  }

  /** Decimal rendering of a non-negative integer, as a template literal `${n}` prints it. */
  function NatToString(n: nat): (s: string)
    ensures |s| >= 1 && AllDigits(s)
  {
    if n < 10 then [DigitChar(n)] else NatToString(n / 10) + [DigitChar(n % 10)]
  }

  /** The value of a string of decimal digits. */
  function ParseDigits(s: string): nat
    requires AllDigits(s)
  {
    if s == [] then 0 else ParseDigits(s[..|s| - 1]) * 10 + DigitValue(s[|s| - 1])
  }

  /** Reading back a rendered number gives the number. */
  lemma {:induction false} ParseNatToString(n: nat)
    ensures ParseDigits(NatToString(n)) == n
  {
    var s := NatToString(n);
    if n < 10 {
      assert s[..|s| - 1] == [];
    } else {
      ParseNatToString(n / 10);
      assert s[..|s| - 1] == NatToString(n / 10);
    }
  }

  // ---------------------------------------------------------------- case mapping

  function LowerChar(c: char): char {
    if 'A' <= c <= 'Z' then (c as int + 32) as char else c
  }

  function UpperChar(c: char): char {
    if 'a' <= c <= 'z' then (c as int - 32) as char else c
  }

  /** `toLowerCase`, on ASCII letters. */
  function Lower(s: string): string {
    seq(|s|, i requires 0 <= i < |s| => LowerChar(s[i]))
  }

  /** `toUpperCase`, on ASCII letters. */
  function Upper(s: string): string {
    seq(|s|, i requires 0 <= i < |s| => UpperChar(s[i]))
  }

  /** Upper-casing first changes nothing once the string is lower-cased. */
  lemma LowerUpper(s: string)
    ensures Lower(Upper(s)) == Lower(s)
  {
  }

  // ---------------------------------------------------------------- whitespace and trim

  /** The characters JavaScript's `\s` and `trim` treat as white space or line terminators. */
  predicate IsWhitespace(c: char) {
    var n := c as int;
    n == 0x09 || n == 0x0A || n == 0x0B || n == 0x0C || n == 0x0D || n == 0x20 ||
    n == 0xA0 || n == 0x1680 || 0x2000 <= n <= 0x200A || n == 0x2028 || n == 0x2029 ||
    n == 0x202F || n == 0x205F || n == 0x3000 || n == 0xFEFF
  }

  predicate IsBlank(s: string) {
    forall i | 0 <= i < |s| :: IsWhitespace(s[i])
  }

  function TrimStart(s: string): (r: string)
    ensures r != [] ==> !IsWhitespace(r[0])
  {
    if |s| > 0 && IsWhitespace(s[0]) then TrimStart(s[1..]) else s
  }

  function TrimEnd(s: string): string {
    if |s| > 0 && IsWhitespace(s[|s| - 1]) then TrimEnd(s[..|s| - 1]) else s
  }

  /** `trim`: drops leading and trailing white space. */
  function Trim(s: string): string {
    TrimEnd(TrimStart(s))
  }

  lemma {:induction false} TrimStartEmpty(s: string)
    ensures TrimStart(s) == [] <==> IsBlank(s)
  {
    if |s| > 0 && IsWhitespace(s[0]) {
      TrimStartEmpty(s[1..]);
      assert IsBlank(s) <==> IsBlank(s[1..]) by {
        if IsBlank(s[1..]) {
          forall i | 0 <= i < |s| ensures IsWhitespace(s[i]) {
            if i > 0 { assert s[i] == s[1..][i - 1]; }
          }
        }
      }
    }
  }

  lemma {:induction false} TrimEndEmpty(s: string)
    requires s != [] ==> !IsWhitespace(s[0])
    ensures TrimEnd(s) == [] <==> s == []
  {
    if |s| > 0 && IsWhitespace(s[|s| - 1]) {
      assert |s| >= 2;
      TrimEndEmpty(s[..|s| - 1]);
    }
  }

  /** `s.trim()` is empty exactly when `s` is empty or white space only. */
  lemma TrimEmptyIffBlank(s: string)
    ensures Trim(s) == [] <==> IsBlank(s)
  {
    TrimStartEmpty(s);
    TrimEndEmpty(TrimStart(s));
  }

  // ---------------------------------------------------------------- split and join

  /** `s.split(sep)` for a one-character separator: always at least one part. */
  function Split(s: string, sep: char): (parts: seq<string>)
    ensures |parts| >= 1
  {
    if s == [] then [[]]
    else
      var rest := Split(s[1..], sep);
      if s[0] == sep then [[]] + rest else [[s[0]] + rest[0]] + rest[1..]
  }

  /** `parts.join(sep)`. */
  function Join(parts: seq<string>, sep: char): string {
    if |parts| == 0 then []
    else if |parts| == 1 then parts[0]
    else parts[0] + [sep] + Join(parts[1..], sep)
  }

  lemma {:induction false} SplitNoSep(a: string, sep: char)
    requires sep !in a
    ensures Split(a, sep) == [a]
  {
    if a != [] {
      SplitNoSep(a[1..], sep);
      assert [a[0]] + a[1..] == a;
    }
  }

  /** A separator in front starts a new, empty, first part. */
  lemma SplitConsSep(t: string, sep: char)
    ensures Split([sep] + t, sep) == [[]] + Split(t, sep)
  {
    assert ([sep] + t)[0] == sep && ([sep] + t)[1..] == t;
  }

  /** Any other character in front joins the first part. */
  lemma SplitConsOther(c: char, t: string, sep: char)
    requires c != sep
    ensures Split([c] + t, sep) == [[c] + Split(t, sep)[0]] + Split(t, sep)[1..]
  {
    assert ([c] + t)[0] == c && ([c] + t)[1..] == t;
  }

  /** A separator put in front of two strings keeps a split relation between them. */
  lemma SplitConsBothSep(a: string, b: string, sep: char, tail: seq<string>)
    requires Split(b, sep) == Split(a, sep) + tail
    ensures Split([sep] + b, sep) == Split([sep] + a, sep) + tail
  {
    SplitConsSep(b, sep);
    SplitConsSep(a, sep);
    assert [[]] + (Split(a, sep) + tail) == ([[]] + Split(a, sep)) + tail;
  }

  /** Joining a character to the first part commutes with appending further parts. */
  lemma ConsFirstPart(c: char, parts: seq<string>, tail: seq<string>)
    requires |parts| >= 1
    ensures [[c] + (parts + tail)[0]] + (parts + tail)[1..] == ([[c] + parts[0]] + parts[1..]) + tail
  {
    assert (parts + tail)[0] == parts[0];
    assert (parts + tail)[1..] == parts[1..] + tail;
  }

  /** Any other character put in front of two strings keeps a split relation between them. */
  lemma SplitConsBothOther(c: char, a: string, b: string, sep: char, tail: seq<string>)
    requires c != sep && Split(b, sep) == Split(a, sep) + tail
    ensures Split([c] + b, sep) == Split([c] + a, sep) + tail
  {
    SplitConsOther(c, b, sep);
    SplitConsOther(c, a, sep);
    ConsFirstPart(c, Split(a, sep), tail);
  }

  /** Splitting at a separator splits the two sides independently. */
  lemma {:induction false} SplitAround(x: string, sep: char, y: string)
    ensures Split(x + [sep] + y, sep) == Split(x, sep) + Split(y, sep)
  {
    if x == [] {
      assert x + [sep] + y == [sep] + y;
      SplitConsSep(y, sep);
    } else {
      var c, x1 := x[0], x[1..];
      var t := x1 + [sep] + y;
      assert Split([c] + t, sep) == Split([c] + x1, sep) + Split(y, sep) by {
        SplitAround(x1, sep, y);
        if c == sep {
          SplitConsBothSep(x1, t, sep, Split(y, sep));
        } else {
          SplitConsBothOther(c, x1, t, sep, Split(y, sep));
        }
      }
      assert x == [c] + x1;
      assert x + [sep] + y == [c] + t;
    }
  }

  /** Joining the parts of a split gives back the string. */
  lemma {:induction false} JoinSplit(s: string, sep: char)
    ensures Join(Split(s, sep), sep) == s
  {
    if s != [] {
      JoinSplit(s[1..], sep);
      var rest := Split(s[1..], sep);
      if s[0] == sep {
        assert ([[]] + rest)[1..] == rest;
      } else if |rest| == 1 {
        assert [s[0]] + s[1..] == s;
      } else {
        var parts := [[s[0]] + rest[0]] + rest[1..];
        assert parts[1..] == rest[1..];
        assert [s[0]] + s[1..] == s;
      }
    }
  }

  lemma {:induction false} JoinAppend(p: seq<string>, q: seq<string>, sep: char)
    requires |p| >= 1 && |q| >= 1
    ensures Join(p + q, sep) == Join(p, sep) + [sep] + Join(q, sep)
  {
    if |p| == 1 {
      assert (p + q)[1..] == q;
    } else {
      JoinAppend(p[1..], q, sep);
      assert (p + q)[1..] == p[1..] + q;
    }
  }

  // ---------------------------------------------------------------- searching and padding

  predicate StartsWith(s: string, prefix: string) {
    |prefix| <= |s| && s[..|prefix|] == prefix
  }

  /** `s.includes(t)`: `t` occurs in `s` at some position. */
  predicate Contains(s: string, t: string)
    decreases |s|
  {
    StartsWith(s, t) || (|s| > 0 && Contains(s[1..], t))
  }

  /** `s.padStart(width, [fill])`. */
  function PadStart(s: string, width: nat, fill: char): (r: string)
    decreases width - |s|
  {
    if |s| >= width then s else PadStart([fill] + s, width, fill)
  }

  lemma {:induction false} PadStartShape(s: string, width: nat, fill: char)
    ensures var r := PadStart(s, width, fill);
            |r| == (if |s| >= width then |s| else width) &&
            r[|r| - |s|..] == s &&
            forall i | 0 <= i < |r| - |s| :: r[i] == fill
    decreases width - |s|
  {
    if |s| < width {
      PadStartShape([fill] + s, width, fill);
      var r := PadStart(s, width, fill);
      assert r[|r| - |s|..] == ([fill] + s)[1..];
    }
  }

  /**
   * A fixed layout: `#` stands for one digit, every other character of `mask`
   * must appear literally.
   */
  predicate FitsMask(s: string, mask: string) {
    |s| == |mask| &&
    forall i | 0 <= i < |s| :: if mask[i] == '#' then IsDigit(s[i]) else s[i] == mask[i]
  }
}
