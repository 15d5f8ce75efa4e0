/**
 * The field formatting and validation library of the registration form
 * (`src/services/utils.ts`): digit stripping, the fixed-layout formatters for
 * CPF (Brazilian taxpayer number), phone and CEP (postal code), the conversion
 * between ISO dates and the Brazilian display format, the CPF check-digit
 * validation, e-mail shape validation, capitalisation and truncation.
 */
module Utils {
  import opened Strings

  // ================================================================ onlyNumbers

  /** `onlyNumbers`: `value.replace(/\D/g, '')`, the digits of `value` in order. */
  function OnlyNumbers(value: string): (r: string)
    ensures AllDigits(r) && |r| <= |value|
  {
    if value == [] then []
    else (if IsDigit(value[0]) then [value[0]] else []) + OnlyNumbers(value[1..])
  }

  /** Stripping works piece by piece: together with the one-character case it determines `OnlyNumbers`. */
  lemma {:induction false} OnlyNumbersConcat(a: string, b: string)
    ensures OnlyNumbers(a + b) == OnlyNumbers(a) + OnlyNumbers(b)
  {
    if a == [] {
      assert a + b == b;
    } else {
      assert (a + b)[0] == a[0] && (a + b)[1..] == a[1..] + b;
      OnlyNumbersConcat(a[1..], b);
    }
  }

  /** A string is left unchanged by stripping exactly when it consists of digits. */
  lemma {:induction false} OnlyNumbersFixesDigits(s: string)
    ensures OnlyNumbers(s) == s <==> AllDigits(s)
  {
    if s != [] {
      OnlyNumbersFixesDigits(s[1..]);
      if AllDigits(s) {
        assert AllDigits(s[1..]) by {
          forall i | 0 <= i < |s| - 1 ensures IsDigit(s[1..][i]) {
            assert s[1..][i] == s[i + 1];
          }
        }
        assert [s[0]] + s[1..] == s;
      }
    }
  }

  /** Stripping is idempotent. */
  lemma OnlyNumbersIdempotent(s: string)
    ensures OnlyNumbers(OnlyNumbers(s)) == OnlyNumbers(s)
  {
    OnlyNumbersFixesDigits(OnlyNumbers(s));
  }

  /** A run of digits followed by one separator: the separator disappears. */
  lemma OnlyNumbersSkip(a: string, sep: char, b: string)
    requires AllDigits(a) && !IsDigit(sep)
    ensures OnlyNumbers(a + [sep] + b) == a + OnlyNumbers(b)
  {
    var sb := [sep] + b;
    assert sb[0] == sep && sb[1..] == b;
    assert OnlyNumbers(sb) == OnlyNumbers(b);
    assert a + [sep] + b == a + sb;
    OnlyNumbersConcat(a, sb);
    OnlyNumbersFixesDigits(a);
  }

  /** A string without digits strips to nothing. */
  lemma {:induction false} OnlyNumbersNoDigits(s: string)
    requires forall i | 0 <= i < |s| :: !IsDigit(s[i])
    ensures OnlyNumbers(s) == []
  {
    if s != [] {
      assert forall i | 0 <= i < |s| - 1 :: s[1..][i] == s[i + 1];
      OnlyNumbersNoDigits(s[1..]);
    }
  }

  /** Appending digits appends them to what is kept. */
  lemma OnlyNumbersAppendDigits(p: string, x: string)
    requires AllDigits(x)
    ensures OnlyNumbers(p + x) == OnlyNumbers(p) + x
  {
    OnlyNumbersConcat(p, x);
    OnlyNumbersFixesDigits(x);
  }

  /** Appending a separator without digits keeps the same digits. */
  lemma OnlyNumbersAppendSeparator(p: string, sep: string)
    requires forall i | 0 <= i < |sep| :: !IsDigit(sep[i])
    ensures OnlyNumbers(p + sep) == OnlyNumbers(p)
  {
    OnlyNumbersConcat(p, sep);
    OnlyNumbersNoDigits(sep);
    assert OnlyNumbers(p) + [] == OnlyNumbers(p);
  }

  // ================================================================ layouts

  /** `XXX.XXX.XXX-XX`. */
  predicate CpfLayout(s: string) {
    |s| == 14 && AllDigits(s[..3]) && s[3] == '.' && AllDigits(s[4..7]) && s[7] == '.' &&
    AllDigits(s[8..11]) && s[11] == '-' && AllDigits(s[12..])
  }

  /** `(XX) XXXXX-XXXX` (`long`) or `(XX) XXXX-XXXX`. */
  predicate PhoneLayout(s: string, long: bool) {
    var n := if long then 5 else 4;
    |s| == n + 10 && s[0] == '(' && AllDigits(s[1..3]) && s[3] == ')' && s[4] == ' ' &&
    AllDigits(s[5..5 + n]) && s[5 + n] == '-' && AllDigits(s[6 + n..])
  }

  /** `XXXXX-XXX`. */
  predicate CepLayout(s: string) {
    |s| == 9 && AllDigits(s[..5]) && s[5] == '-' && AllDigits(s[6..])
  }

  // ================================================================ formatCpf

  /** `formatCpf`: eleven digits are grouped as `XXX.XXX.XXX-XX`; anything else comes back unchanged. */
  function FormatCpf(cpf: string): string {
    var clean := OnlyNumbers(cpf);
    if |clean| == 11 then clean[..3] + "." + clean[3..6] + "." + clean[6..9] + "-" + clean[9..] else cpf
  }

  /** The grouped layout of eleven digits keeps the digits and fits `XXX.XXX.XXX-XX`. */
  lemma FormatCpfCase(c: string)
    requires AllDigits(c) && |c| == 11
    ensures var r := c[..3] + "." + c[3..6] + "." + c[6..9] + "-" + c[9..];
            OnlyNumbers(r) == c && CpfLayout(r)
  {
    var a, b, d, e := c[..3], c[3..6], c[6..9], c[9..];
    var r := a + "." + b + "." + d + "-" + e;
    CpfDigitsOfParts(a, b, d, e);
    assert a + b + d + e == c;
    assert r[..3] == a && r[4..7] == b && r[8..11] == d && r[12..] == e;
  }

  /** The digits of `a.b.d-e` are the four groups run together. */
  lemma CpfDigitsOfParts(a: string, b: string, d: string, e: string)
    requires AllDigits(a) && AllDigits(b) && AllDigits(d) && AllDigits(e)
    ensures OnlyNumbers(a + "." + b + "." + d + "-" + e) == a + b + d + e
  {
    GroupsDigits(a, b, d, e, ".", ".", "-");
  }

  /** Digit groups joined by separators without digits strip to the groups run together. */
  lemma GroupsDigits(a: string, b: string, d: string, e: string, s1: string, s2: string, s3: string)
    requires AllDigits(a) && AllDigits(b) && AllDigits(d) && AllDigits(e)
    requires forall i | 0 <= i < |s1| :: !IsDigit(s1[i])
    requires forall i | 0 <= i < |s2| :: !IsDigit(s2[i])
    requires forall i | 0 <= i < |s3| :: !IsDigit(s3[i])
    ensures OnlyNumbers(a + s1 + b + s2 + d + s3 + e) == a + b + d + e
  {
    OnlyNumbersFixesDigits(a);
    OnlyNumbersAppendSeparator(a, s1);
    OnlyNumbersAppendDigits(a + s1, b);
    OnlyNumbersAppendSeparator(a + s1 + b, s2);
    OnlyNumbersAppendDigits(a + s1 + b + s2, d);
    OnlyNumbersAppendSeparator(a + s1 + b + s2 + d, s3);
    OnlyNumbersAppendDigits(a + s1 + b + s2 + d + s3, e);
  }

  /**
   * Formatting a CPF keeps its digits, produces the grouped layout exactly when
   * the input holds eleven digits, and otherwise returns the input untouched.
   */
  lemma FormatCpfSpec(cpf: string)
    ensures OnlyNumbers(FormatCpf(cpf)) == OnlyNumbers(cpf)
    ensures |OnlyNumbers(cpf)| == 11 ==> CpfLayout(FormatCpf(cpf))
    ensures |OnlyNumbers(cpf)| != 11 ==> FormatCpf(cpf) == cpf
  {
    var c := OnlyNumbers(cpf);
    if |c| == 11 {
      FormatCpfCase(c);
    }
  }

  /** Formatting a CPF twice is the same as formatting it once. */
  lemma FormatCpfIdempotent(cpf: string)
    ensures FormatCpf(FormatCpf(cpf)) == FormatCpf(cpf)
  {
    FormatCpfSpec(cpf);
  }

  /** An already formatted CPF comes back unchanged. */
  lemma FormatCpfKeepsFormatted(s: string)
    requires CpfLayout(s)
    ensures FormatCpf(s) == s
  {
    var a, b, d, e := s[..3], s[4..7], s[8..11], s[12..];
    assert s == a + "." + b + "." + d + "-" + e;
    CpfDigitsOfParts(a, b, d, e);
    var c := OnlyNumbers(s);
    assert c == a + b + d + e;
    assert c[..3] == a && c[3..6] == b && c[6..9] == d && c[9..] == e;
  }

  // ================================================================ formatPhone

  /** `formatPhone`: eleven digits as `(XX) XXXXX-XXXX`, ten as `(XX) XXXX-XXXX`, anything else unchanged. */
  function FormatPhone(phone: string): string {
    var clean := OnlyNumbers(phone);
    if |clean| == 11 then "(" + clean[..2] + ") " + clean[2..7] + "-" + clean[7..]
    else if |clean| == 10 then "(" + clean[..2] + ") " + clean[2..6] + "-" + clean[6..]
    else phone
  }

  /** Both phone layouts, for `n` = 5 or 4 digits in the middle group. */
  lemma FormatPhoneCase(c: string, n: nat)
    requires AllDigits(c) && (n == 4 || n == 5) && |c| == n + 6
    ensures var r := "(" + c[..2] + ") " + c[2..2 + n] + "-" + c[2 + n..];
            OnlyNumbers(r) == c && PhoneLayout(r, n == 5)
  {
    var a, m, b := c[..2], c[2..2 + n], c[2 + n..];
    var r := "(" + a + ") " + m + "-" + b;
    PhoneDigitsOfParts(a, m, b);
    assert a + m + b == c;
    PhonePieces(a, m, b);
  }

  /** Where the three groups and the punctuation sit in `(aa) m-b`. */
  lemma PhonePieces(a: string, m: string, b: string)
    requires |a| == 2
    ensures var r := "(" + a + ") " + m + "-" + b;
            |r| == |m| + |b| + 6 && r[0] == '(' && r[3] == ')' && r[4] == ' ' && r[5 + |m|] == '-' &&
            r[1..3] == a && r[5..5 + |m|] == m && r[6 + |m|..] == b
  {
    var r := "(" + a + ") " + m + "-" + b;
    assert forall i | 0 <= i < 2 :: r[1 + i] == a[i];
    assert forall i | 0 <= i < |m| :: r[5 + i] == m[i];
    assert forall i | 0 <= i < |b| :: r[6 + |m| + i] == b[i];
  }

  /**
   * Formatting a phone keeps its digits and produces the long or short layout
   * exactly when the input holds eleven or ten digits; otherwise the input is returned.
   */
  lemma FormatPhoneSpec(phone: string)
    ensures OnlyNumbers(FormatPhone(phone)) == OnlyNumbers(phone)
    ensures |OnlyNumbers(phone)| == 11 ==> PhoneLayout(FormatPhone(phone), true)
    ensures |OnlyNumbers(phone)| == 10 ==> PhoneLayout(FormatPhone(phone), false)
    ensures |OnlyNumbers(phone)| != 10 && |OnlyNumbers(phone)| != 11 ==> FormatPhone(phone) == phone
  {
    var c := OnlyNumbers(phone);
    if |c| == 11 {
      FormatPhoneCase(c, 5);
    } else if |c| == 10 {
      FormatPhoneCase(c, 4);
    }
  }

  lemma FormatPhoneIdempotent(phone: string)
    ensures FormatPhone(FormatPhone(phone)) == FormatPhone(phone)
  {
    FormatPhoneSpec(phone);
  }

  /** The digits of `(aa) m-b` are `a`, `m` and `b` run together. */
  lemma PhoneDigitsOfParts(a: string, m: string, b: string)
    requires AllDigits(a) && AllDigits(m) && AllDigits(b)
    ensures OnlyNumbers("(" + a + ") " + m + "-" + b) == a + m + b
  {
    SeparatedGroupsDigits("(", a, ") ", m, "-", b);
  }

  /** A separator, then digit groups joined by separators: only the groups are kept. */
  lemma SeparatedGroupsDigits(s0: string, a: string, s1: string, m: string, s2: string, b: string)
    requires AllDigits(a) && AllDigits(m) && AllDigits(b)
    requires forall i | 0 <= i < |s0| :: !IsDigit(s0[i])
    requires forall i | 0 <= i < |s1| :: !IsDigit(s1[i])
    requires forall i | 0 <= i < |s2| :: !IsDigit(s2[i])
    ensures OnlyNumbers(s0 + a + s1 + m + s2 + b) == a + m + b
  {
    OnlyNumbersNoDigits(s0);
    OnlyNumbersAppendDigits(s0, a);
    assert [] + a == a;
    OnlyNumbersAppendSeparator(s0 + a, s1);
    OnlyNumbersAppendDigits(s0 + a + s1, m);
    OnlyNumbersAppendSeparator(s0 + a + s1 + m, s2);
    OnlyNumbersAppendDigits(s0 + a + s1 + m + s2, b);
  }

  /** The digits of a formatted phone number, and how the number is rebuilt from them. */
  lemma PhoneLayoutDigits(s: string, n: nat)
    requires (n == 4 || n == 5) && PhoneLayout(s, n == 5)
    ensures var c := OnlyNumbers(s);
            |c| == n + 6 && "(" + c[..2] + ") " + c[2..2 + n] + "-" + c[2 + n..] == s
  {
    var a, m, b := s[1..3], s[5..5 + n], s[6 + n..];
    assert s == "(" + a + ") " + m + "-" + b;
    PhoneDigitsOfParts(a, m, b);
    var c := OnlyNumbers(s);
    assert c == a + m + b;
    assert c[..2] == a && c[2..2 + n] == m && c[2 + n..] == b;
  }

  /** An already formatted phone number, in either layout, comes back unchanged. */
  lemma FormatPhoneKeepsFormatted(s: string, long: bool)
    requires PhoneLayout(s, long)
    ensures FormatPhone(s) == s
  {
    PhoneLayoutDigits(s, if long then 5 else 4);
  }

  // ================================================================ formatCep

  /** `formatCep`: eight digits as `XXXXX-XXX`, anything else unchanged. */
  function FormatCep(cep: string): string {
    var clean := OnlyNumbers(cep);
    if |clean| == 8 then clean[..5] + "-" + clean[5..] else cep
  }

  lemma FormatCepSpec(cep: string)
    ensures OnlyNumbers(FormatCep(cep)) == OnlyNumbers(cep)
    ensures |OnlyNumbers(cep)| == 8 ==> CepLayout(FormatCep(cep))
    ensures |OnlyNumbers(cep)| != 8 ==> FormatCep(cep) == cep
  {
    var c := OnlyNumbers(cep);
    if |c| == 8 {
      var r := FormatCep(cep);
      assert r == c[..5] + ['-'] + c[5..];
      OnlyNumbersSkip(c[..5], '-', c[5..]);
      OnlyNumbersFixesDigits(c[5..]);
      assert c[..5] + c[5..] == c;
      assert r[..5] == c[..5] && r[6..] == c[5..];
    }
  }

  lemma FormatCepIdempotent(cep: string)
    ensures FormatCep(FormatCep(cep)) == FormatCep(cep)
  {
    FormatCepSpec(cep);
  }

  lemma FormatCepKeepsFormatted(s: string)
    requires CepLayout(s)
    ensures FormatCep(s) == s
  {
    assert s == s[..5] + [s[5]] + s[6..];
    OnlyNumbersSkip(s[..5], s[5], s[6..]);
    OnlyNumbersFixesDigits(s[6..]);
    var c := OnlyNumbers(s);
    assert c[..5] == s[..5] && c[5..] == s[6..];
  }

  // ================================================================ formatDate / parseDate

  /** `formatDate`: `YYYY-MM-DD` to `DD/MM/YYYY`; empty stays empty, other shapes are returned unchanged. */
  function FormatDate(date: string): string {
    if date == [] then []
    else
      var parts := Split(date, '-');
      if |parts| != 3 then date else parts[2] + "/" + parts[1] + "/" + parts[0]
  }

  /**
   * The inputs `parseDate` accepts: with fewer than two `/`-parts `month` is
   * undefined and `month.padStart` throws.
   */
  predicate ParseDateAccepts(date: string) {
    date == [] || |Split(date, '/')| >= 2
  }

  /**
   * `parseDate`: `DD/MM/YYYY` to `YYYY-MM-DD`, zero-padding day and month to two
   * characters. A missing year prints as `undefined`, as a template literal does.
   */
  function ParseDate(date: string): string
    requires ParseDateAccepts(date)
  {
    if date == [] then []
    else
      var parts := Split(date, '/');
      var year := if |parts| >= 3 then parts[2] else "undefined";
      year + "-" + PadStart(parts[1], 2, '0') + "-" + PadStart(parts[0], 2, '0')
  }

  /** A three-part split is the three parts joined by two separators. */
  lemma JoinThree(s: string, sep: char)
    requires |Split(s, sep)| == 3
    ensures var p := Split(s, sep); s == p[0] + [sep] + (p[1] + [sep] + p[2])
  {
    var p := Split(s, sep);
    JoinSplit(s, sep);
    assert p[1..][0] == p[1] && p[1..][1..] == [p[2]];
    assert Join(p[1..], sep) == p[1] + [sep] + p[2];
  }

  /** Three parts joined by two separators split back into those parts. */
  lemma SplitThree(a: string, b: string, c: string, sep: char)
    requires sep !in a && sep !in b && sep !in c
    ensures Split(a + [sep] + b + [sep] + c, sep) == [a, b, c]
  {
    assert a + [sep] + b + [sep] + c == a + [sep] + (b + [sep] + c);
    SplitAround(a, sep, b + [sep] + c);
    SplitAround(b, sep, c);
    SplitNoSep(a, sep);
    SplitNoSep(b, sep);
    SplitNoSep(c, sep);
  }

  /**
   * `formatDate` reverses the three `-`-parts of a date into `/`-parts; the
   * empty string and strings without exactly three parts come back unchanged.
   */
  lemma FormatDateSpec(date: string)
    ensures date == [] ==> FormatDate(date) == []
    ensures |Split(date, '-')| != 3 ==> FormatDate(date) == date
    ensures var p := Split(date, '-');
            |p| == 3 ==> date == p[0] + "-" + p[1] + "-" + p[2] && FormatDate(date) == p[2] + "/" + p[1] + "/" + p[0]
    ensures |Split(date, '-')| == 3 && '/' !in date ==>
              var p := Split(date, '-');
              Split(FormatDate(date), '/') == [p[2], p[1], p[0]]
  {
    var p := Split(date, '-');
    if |p| == 3 {
      JoinThree(date, '-');
      assert date == p[0] + "-" + p[1] + "-" + p[2];
      if '/' !in date {
        SplitThree(p[2], p[1], p[0], '/');
      }
    }
  }

  /**
   * Round trip: an ISO date `y-m-d` whose month and day have at least two
   * characters (in particular every `YYYY-MM-DD`) is shown as `d/m/y`, and
   * `parseDate` of that gives the date back.
   */
  lemma DateRoundTrip(y: string, m: string, d: string)
    requires '-' !in y && '-' !in m && '-' !in d && '/' !in y && '/' !in m && '/' !in d
    requires |m| >= 2 && |d| >= 2
    ensures var date := y + "-" + m + "-" + d;
            FormatDate(date) == d + "/" + m + "/" + y &&
            ParseDateAccepts(FormatDate(date)) && ParseDate(FormatDate(date)) == date
  {
    var shown := d + "/" + m + "/" + y;
    assert FormatDate(y + "-" + m + "-" + d) == shown by {
      SplitThree(y, m, d, '-');
    }
    assert ParseDateAccepts(shown) && ParseDate(shown) == y + "-" + PadStart(m, 2, '0') + "-" + PadStart(d, 2, '0') by {
      SplitThree(d, m, y, '/');
    }
    assert PadStart(m, 2, '0') == m && PadStart(d, 2, '0') == d;
  }

  /** `parseDate` pads a one-character day or month with a leading zero and keeps longer ones. */
  lemma ParseDatePads(date: string)
    requires |Split(date, '/')| == 3 && '-' !in date && date != []
    ensures var p := Split(date, '/');
            var q := Split(ParseDate(date), '-');
            |q| == 3 && q[0] == p[2] &&
            (|p[1]| >= 2 ==> q[1] == p[1]) && (|p[1]| == 1 ==> q[1] == "0" + p[1]) &&
            (|p[0]| >= 2 ==> q[2] == p[0]) && (|p[0]| == 1 ==> q[2] == "0" + p[0])
  {
    var p := Split(date, '/');
    JoinThree(date, '/');
    var m := PadStart(p[1], 2, '0');
    var d := PadStart(p[0], 2, '0');
    PadStartShape(p[1], 2, '0');
    PadStartShape(p[0], 2, '0');
    assert '-' !in m && '-' !in d;
    SplitThree(p[2], m, d, '-');
    if |p[1]| == 1 { assert m == "0" + p[1]; }
    if |p[0]| == 1 { assert d == "0" + p[0]; }
  }

  // ================================================================ validateCpf

  /** The regex `^(\d)\1{10}$`: eleven repetitions of one digit. */
  predicate RepeatsOneDigit(s: string) {
    |s| == 11 && IsDigit(s[0]) && forall i | 0 <= i < 11 :: s[i] == s[0]
  }

  /** `Σ_{i<k} digit(d[i]) · (top - i)`, the sum each check-digit loop accumulates. */
  function WeightedSum(d: string, top: int, k: nat): int
    requires k <= |d| && AllDigits(d)
  {
    if k == 0 then 0 else WeightedSum(d, top, k - 1) + DigitValue(d[k - 1]) * (top - (k - 1))
  }

  /**
   * The check digit computed from the first `n` digits (weights `n+1` down to 2):
   * `(sum · 10) mod 11`, with the remainders 10 and 11 mapped to 0.
   */
  function CheckDigit(d: string, n: nat): (v: nat)
    requires n <= |d| && AllDigits(d)
    ensures v < 10
  {
    var remainder := (WeightedSum(d, n + 1, n) * 10) % 11;
    if remainder == 10 || remainder == 11 then 0 else remainder
  }

  /** What `validateCpf` accepts: eleven digits, not all equal, both check digits right. */
  predicate IsValidCpf(cpf: string) {
    var clean := OnlyNumbers(cpf);
    |clean| == 11 && !RepeatsOneDigit(clean) &&
    CheckDigit(clean, 9) == DigitValue(clean[9]) && CheckDigit(clean, 10) == DigitValue(clean[10])
  }

  /** `validateCpf`, with its two accumulating loops. */
  method ValidateCpf(cpf: string) returns (valid: bool)
    ensures |OnlyNumbers(cpf)| != 11 ==> !valid
    ensures RepeatsOneDigit(OnlyNumbers(cpf)) ==> !valid
    ensures valid <==> IsValidCpf(cpf)
  {
    var clean := OnlyNumbers(cpf);
    if |clean| != 11 {
      return false;
    }
    if RepeatsOneDigit(clean) {
      return false;
    }
    var sum := 0;
    for i := 0 to 9
      invariant sum == WeightedSum(clean, 10, i)
    {
      sum := sum + DigitValue(clean[i]) * (10 - i);
    }
    var remainder := (sum * 10) % 11;
    if remainder == 10 || remainder == 11 {
      remainder := 0;
    }
    if remainder != DigitValue(clean[9]) {
      return false;
    }
    sum := 0;
    for i := 0 to 10
      invariant sum == WeightedSum(clean, 11, i)
    {
      sum := sum + DigitValue(clean[i]) * (11 - i);
    }
    remainder := (sum * 10) % 11;
    if remainder == 10 || remainder == 11 {
      remainder := 0;
    }
    if remainder != DigitValue(clean[10]) {
      return false;
    }
    return true;
  }

  /** The first check digit written out: `(10·d0 + 9·d1 + … + 2·d8) · 10 mod 11`, 10 becoming 0. */
  lemma FirstCheckDigitFormula(d: string)
    requires |d| == 11 && AllDigits(d)
    ensures var v := (i: nat) requires i < 11 => DigitValue(d[i]);
            var r := ((10 * v(0) + 9 * v(1) + 8 * v(2) + 7 * v(3) + 6 * v(4) + 5 * v(5) +
                       4 * v(6) + 3 * v(7) + 2 * v(8)) * 10) % 11;
            CheckDigit(d, 9) == if r == 10 then 0 else r
  {
    assert WeightedSum(d, 10, 9) ==
      10 * DigitValue(d[0]) + 9 * DigitValue(d[1]) + 8 * DigitValue(d[2]) + 7 * DigitValue(d[3]) +
      6 * DigitValue(d[4]) + 5 * DigitValue(d[5]) + 4 * DigitValue(d[6]) + 3 * DigitValue(d[7]) +
      2 * DigitValue(d[8]) by {
      assert WeightedSum(d, 10, 1) == 10 * DigitValue(d[0]);
      assert WeightedSum(d, 10, 2) == WeightedSum(d, 10, 1) + 9 * DigitValue(d[1]);
      assert WeightedSum(d, 10, 3) == WeightedSum(d, 10, 2) + 8 * DigitValue(d[2]);
      assert WeightedSum(d, 10, 4) == WeightedSum(d, 10, 3) + 7 * DigitValue(d[3]);
      assert WeightedSum(d, 10, 5) == WeightedSum(d, 10, 4) + 6 * DigitValue(d[4]);
      assert WeightedSum(d, 10, 6) == WeightedSum(d, 10, 5) + 5 * DigitValue(d[5]);
      assert WeightedSum(d, 10, 7) == WeightedSum(d, 10, 6) + 4 * DigitValue(d[6]);
      assert WeightedSum(d, 10, 8) == WeightedSum(d, 10, 7) + 3 * DigitValue(d[7]);
    }
  }

  /** The second check digit written out: `(11·d0 + 10·d1 + … + 2·d9) · 10 mod 11`, 10 becoming 0. */
  lemma SecondCheckDigitFormula(d: string)
    requires |d| == 11 && AllDigits(d)
    ensures var v := (i: nat) requires i < 11 => DigitValue(d[i]);
            var r := ((11 * v(0) + 10 * v(1) + 9 * v(2) + 8 * v(3) + 7 * v(4) + 6 * v(5) +
                       5 * v(6) + 4 * v(7) + 3 * v(8) + 2 * v(9)) * 10) % 11;
            CheckDigit(d, 10) == if r == 10 then 0 else r
  {
    assert WeightedSum(d, 11, 10) ==
      11 * DigitValue(d[0]) + 10 * DigitValue(d[1]) + 9 * DigitValue(d[2]) + 8 * DigitValue(d[3]) +
      7 * DigitValue(d[4]) + 6 * DigitValue(d[5]) + 5 * DigitValue(d[6]) + 4 * DigitValue(d[7]) +
      3 * DigitValue(d[8]) + 2 * DigitValue(d[9]) by {
      assert WeightedSum(d, 11, 1) == 11 * DigitValue(d[0]);
      assert WeightedSum(d, 11, 2) == WeightedSum(d, 11, 1) + 10 * DigitValue(d[1]);
      assert WeightedSum(d, 11, 3) == WeightedSum(d, 11, 2) + 9 * DigitValue(d[2]);
      assert WeightedSum(d, 11, 4) == WeightedSum(d, 11, 3) + 8 * DigitValue(d[3]);
      assert WeightedSum(d, 11, 5) == WeightedSum(d, 11, 4) + 7 * DigitValue(d[4]);
      assert WeightedSum(d, 11, 6) == WeightedSum(d, 11, 5) + 6 * DigitValue(d[5]);
      assert WeightedSum(d, 11, 7) == WeightedSum(d, 11, 6) + 5 * DigitValue(d[6]);
      assert WeightedSum(d, 11, 8) == WeightedSum(d, 11, 7) + 4 * DigitValue(d[7]);
      assert WeightedSum(d, 11, 9) == WeightedSum(d, 11, 8) + 3 * DigitValue(d[8]);
    }
  }

  /** The verdict depends only on the digits: punctuation is ignored. */
  lemma ValidateCpfDigitsOnly(cpf: string)
    ensures IsValidCpf(cpf) == IsValidCpf(OnlyNumbers(cpf))
  {
    OnlyNumbersIdempotent(cpf);
  }

  /** Formatting a CPF does not change whether it is valid. */
  lemma FormatCpfKeepsValidity(cpf: string)
    ensures IsValidCpf(FormatCpf(cpf)) == IsValidCpf(cpf)
  {
    FormatCpfSpec(cpf);
  }

  /** The weighted sum reads only the first `k` digits. */
  lemma {:induction false} WeightedSumPrefix(a: string, b: string, top: int, k: nat)
    requires k <= |a| && k <= |b| && AllDigits(a) && AllDigits(b)
    requires a[..k] == b[..k]
    ensures WeightedSum(a, top, k) == WeightedSum(b, top, k)
  {
    if k > 0 {
      assert a[k - 1] == a[..k][k - 1] == b[..k][k - 1] == b[k - 1];
      assert a[..k - 1] == a[..k][..k - 1];
      assert b[..k - 1] == b[..k][..k - 1];
      WeightedSumPrefix(a, b, top, k - 1);
    }
  }

  /** The valid CPF with the given nine leading digits: both check digits appended. */
  function CompleteCpf(base: string): (c: string)
    requires |base| == 9 && AllDigits(base)
    ensures |c| == 11 && AllDigits(c) && c[..9] == base
  {
    var first := base + [DigitChar(CheckDigit(base, 9))];
    first + [DigitChar(CheckDigit(first, 10))]
  }

  /**
   * The check digits are determined by the first nine: eleven digits (not all
   * equal) form a valid CPF exactly when they are the completion of their first nine.
   */
  lemma ValidCpfIffComplete(c: string)
    requires |c| == 11 && AllDigits(c) && !RepeatsOneDigit(c)
    ensures IsValidCpf(c) <==> c == CompleteCpf(c[..9])
  {
    OnlyNumbersFixesDigits(c);
    var base := c[..9];
    var first := base + [DigitChar(CheckDigit(base, 9))];
    var full := CompleteCpf(base);
    assert full == first + [DigitChar(CheckDigit(first, 10))];
    WeightedSumPrefix(base, c, 10, 9);
    WeightedSumPrefix(full, c, 10, 9);
    assert CheckDigit(full, 9) == CheckDigit(c, 9) == CheckDigit(base, 9);
    if IsValidCpf(c) {
      assert c[..10] == first by {
        assert c[..10] == c[..9] + [c[9]];
        assert c[9] == DigitChar(DigitValue(c[9]));
      }
      assert first[..10] == c[..10];
      WeightedSumPrefix(first, c, 11, 10);
      assert c == c[..10] + [c[10]];
      assert c[10] == DigitChar(DigitValue(c[10]));
    }
    if c == full {
      assert full[..10] == first;
      assert first[..10] == first;
      WeightedSumPrefix(full, first, 11, 10);
      assert DigitValue(c[9]) == CheckDigit(base, 9);
      assert DigitValue(c[10]) == CheckDigit(first, 10);
    }
  }

  /** Changing either check digit of a valid CPF to another digit makes it invalid. */
  lemma CheckDigitTamperDetected(c: string, k: nat, x: char)
    requires |c| == 11 && AllDigits(c) && IsValidCpf(c)
    requires (k == 9 || k == 10) && IsDigit(x) && x != c[k]
    ensures !IsValidCpf(c[k := x])
  {
    var t := c[k := x];
    assert AllDigits(t) by {
      forall i | 0 <= i < |t| ensures IsDigit(t[i]) {
        if i != k { assert t[i] == c[i]; }
      }
    }
    OnlyNumbersFixesDigits(c);
    OnlyNumbersFixesDigits(t);
    assert t[..k] == c[..k];
    if k == 9 {
      WeightedSumPrefix(t, c, 10, 9);
      assert DigitValue(t[9]) != DigitValue(c[9]) by {
        assert DigitChar(DigitValue(t[9])) == t[9];
        assert DigitChar(DigitValue(c[9])) == c[9];
      }
    } else {
      WeightedSumPrefix(t, c, 11, 10);
      assert DigitValue(t[10]) != DigitValue(c[10]) by {
        assert DigitChar(DigitValue(t[10])) == t[10];
        assert DigitChar(DigitValue(c[10])) == c[10];
      }
    }
  }

  // ================================================================ validateEmail

  /** A character of the regex class `[^\s@]`. */
  predicate EmailChar(c: char) {
    !IsWhitespace(c) && c != '@'
  }

  /**
   * `validateEmail`: the regex `^[^\s@]+@[^\s@]+\.[^\s@]+$`, read as: an `@`
   * after at least one character, a `.` at least one character later and at
   * least one character before the end, and no other `@` and no white space.
   */
  predicate ValidateEmail(email: string) {
    exists at, dot | 0 < at < |email| && at + 1 < dot < |email| - 1 ::
      email[at] == '@' && email[dot] == '.' &&
      forall i | 0 <= i < |email| && i != at :: EmailChar(email[i])
  }

  /** An accepted e-mail contains no white space and exactly one `@`. */
  lemma ValidateEmailShape(email: string)
    requires ValidateEmail(email)
    ensures forall i | 0 <= i < |email| :: !IsWhitespace(email[i])
    ensures '@' in email
    ensures forall i, j | 0 <= i < j < |email| :: !(email[i] == '@' && email[j] == '@')
  {
    var at, dot :| 0 < at < |email| && at + 1 < dot < |email| - 1 &&
      email[at] == '@' && email[dot] == '.' &&
      forall i | 0 <= i < |email| && i != at :: EmailChar(email[i]);
    assert email[at] == '@';
  }

  /**
   * What the pattern rules out: no `@` at all, an `@` at the start or at the
   * end, white space anywhere, or no `.` before the last character.
   */
  lemma ValidateEmailRejects(email: string)
    ensures '@' !in email ==> !ValidateEmail(email)
    ensures |email| > 0 && (email[0] == '@' || email[|email| - 1] == '@') ==> !ValidateEmail(email)
    ensures (exists i | 0 <= i < |email| :: IsWhitespace(email[i])) ==> !ValidateEmail(email)
    ensures (forall i | 0 <= i < |email| - 1 :: email[i] != '.') ==> !ValidateEmail(email)
  {
    if ValidateEmail(email) {
      var at, dot :| 0 < at < |email| && at + 1 < dot < |email| - 1 &&
        email[at] == '@' && email[dot] == '.' &&
        forall i | 0 <= i < |email| && i != at :: EmailChar(email[i]);
      assert email[at] in email;
      assert EmailChar(email[0]) && EmailChar(email[|email| - 1]);
    }
  }

  /**
   * What the pattern lets through: a non-empty local part, an `@`, a non-empty
   * domain, a `.` and a non-empty last label, none of them holding `@` or white
   * space (the domain and the last label may hold further dots).
   */
  lemma ValidateEmailAccepts(local: string, domain: string, tld: string)
    requires local != [] && domain != [] && tld != []
    requires forall i | 0 <= i < |local| :: EmailChar(local[i])
    requires forall i | 0 <= i < |domain| :: EmailChar(domain[i])
    requires forall i | 0 <= i < |tld| :: EmailChar(tld[i])
    ensures ValidateEmail(local + "@" + domain + "." + tld)
  {
    var e := local + "@" + domain + "." + tld;
    var at, dot := |local|, |local| + 1 + |domain|;
    assert e[at] == '@' && e[dot] == '.';
    forall i | 0 <= i < |e| && i != at ensures EmailChar(e[i]) {
      if i < at { assert e[i] == local[i]; }
      else if i < dot { assert e[i] == domain[i - at - 1]; }
      else if i > dot { assert e[i] == tld[i - dot - 1]; }
    }
  }

  // ================================================================ capitalizeWords

  /** `word.charAt(0).toUpperCase() + word.slice(1)`. */
  function CapitalizeWord(word: string): string {
    if word == [] then [] else [UpperChar(word[0])] + word[1..]
  }

  function CapitalizeAll(words: seq<string>): (r: seq<string>)
    ensures |r| == |words|
  {
    if words == [] then [] else [CapitalizeWord(words[0])] + CapitalizeAll(words[1..])
  }

  /** `capitalizeWords`: lower-case everything, then upper-case the first character of each `' '`-separated word. */
  function CapitalizeWords(text: string): string {
    Join(CapitalizeAll(Split(Lower(text), ' ')), ' ')
  }

  lemma {:induction false} CapitalizeAllAppend(p: seq<string>, q: seq<string>)
    ensures CapitalizeAll(p + q) == CapitalizeAll(p) + CapitalizeAll(q)
  {
    if p == [] {
      assert p + q == q;
    } else {
      assert (p + q)[1..] == p[1..] + q;
      CapitalizeAllAppend(p[1..], q);
    }
  }

  /** A text without spaces is one word: lower-cased, with its first character upper-cased. */
  lemma CapitalizeSingleWord(text: string)
    requires ' ' !in text
    ensures CapitalizeWords(text) == CapitalizeWord(Lower(text))
  {
    assert ' ' !in Lower(text);
    SplitNoSep(Lower(text), ' ');
  }

  /** Words are capitalised independently: the function distributes over a separating space. */
  lemma CapitalizeAroundSpace(a: string, b: string)
    ensures CapitalizeWords(a + " " + b) == CapitalizeWords(a) + " " + CapitalizeWords(b)
  {
    assert Lower(a + " " + b) == Lower(a) + [' '] + Lower(b);
    SplitAround(Lower(a), ' ', Lower(b));
    CapitalizeAllAppend(Split(Lower(a), ' '), Split(Lower(b), ' '));
    JoinAppend(CapitalizeAll(Split(Lower(a), ' ')), CapitalizeAll(Split(Lower(b), ' ')), ' ');
  }

  // ================================================================ truncateText

  /**
   * `truncateText`: text of at most `maxLength` characters is returned as is;
   * longer text becomes `"..."` when `maxLength <= 3`, and otherwise its first
   * `maxLength - 3` characters followed by `"..."`.
   */
  function TruncateText(text: string, maxLength: int): (r: string)
    ensures |text| <= maxLength ==> r == text
    ensures |text| > maxLength ==>
              |r| == (if maxLength < 3 then 3 else maxLength) &&
              r[|r| - 3..] == "..." && r[..|r| - 3] == text[..|r| - 3]
  {
    if |text| <= maxLength then text
    else if maxLength <= 3 then "..."
    else text[..maxLength - 3] + "..."
  }
}
