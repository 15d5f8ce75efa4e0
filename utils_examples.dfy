/**
 * The concrete cases of `src/services/utils.test.ts`, derived from the model
 * of `Utils`. Each case is split into a general step over a parameter and the
 * arithmetic on the literal, which keeps every proof small.
 */
module UtilsExamples {
  import opened Strings
  import opened Utils

  /** A string of digits has no non-digit to strip. */
  lemma DigitsKept(s: string)
    requires AllDigits(s)
    ensures OnlyNumbers(s) == s
  {
    OnlyNumbersFixesDigits(s);
  }

  // ---------------------------------------------------------------- validateCpf

  lemma ValidFromCheckDigits(s: string)
    requires |s| == 11 && AllDigits(s) && s[3] != s[0]
    requires CheckDigit(s, 9) == DigitValue(s[9]) && CheckDigit(s, 10) == DigitValue(s[10])
    ensures IsValidCpf(s)
  {
    DigitsKept(s);
  }

  lemma InvalidFromLastDigit(s: string)
    requires |s| == 11 && AllDigits(s) && CheckDigit(s, 10) != DigitValue(s[10])
    ensures !IsValidCpf(s)
  {
    DigitsKept(s);
  }

  lemma Cpf35Facts()
    ensures var s := "11144477735";
            |s| == 11 && AllDigits(s) && s[3] != s[0] && DigitValue(s[9]) == 3 && DigitValue(s[10]) == 5
  {
  }

  lemma Cpf35FirstCheckDigit()
    ensures AllDigits("11144477735") && CheckDigit("11144477735", 9) == 3
  {
    assert WeightedSum("11144477735", 10, 9) == 162;
  }

  lemma Cpf35SecondCheckDigit()
    ensures AllDigits("11144477735") && CheckDigit("11144477735", 10) == 5
  {
    assert WeightedSum("11144477735", 11, 10) == 204;
  }

  lemma Cpf36Facts()
    ensures var s := "11144477736"; |s| == 11 && AllDigits(s) && DigitValue(s[10]) == 6
  {
  }

  lemma Cpf36SecondCheckDigit()
    ensures AllDigits("11144477736") && CheckDigit("11144477736", 10) == 5
  {
    assert WeightedSum("11144477736", 11, 10) == 204;
  }

  lemma Cpf01Facts()
    ensures var s := "12345678901"; |s| == 11 && AllDigits(s) && DigitValue(s[10]) == 1
  {
  }

  lemma Cpf01SecondCheckDigit()
    ensures AllDigits("12345678901") && CheckDigit("12345678901", 10) == 9
  {
    assert WeightedSum("12345678901", 11, 10) == 255;
  }

  /** `validateCpf('11144477735')` is true. */
  lemma ValidCpfExample()
    ensures IsValidCpf("11144477735")
  {
    Cpf35Facts();
    Cpf35FirstCheckDigit();
    Cpf35SecondCheckDigit();
    ValidFromCheckDigits("11144477735");
  }

  lemma Pieces11144477735()
    ensures AllDigits("111") && AllDigits("444") && AllDigits("777") && AllDigits("35")
    ensures "111" + "." + "444" + "." + "777" + "-" + "35" == "111.444.777-35"
    ensures "111" + "444" + "777" + "35" == "11144477735"
  {
  }

  lemma Digits11144477735()
    ensures OnlyNumbers("111.444.777-35") == "11144477735"
  {
    Pieces11144477735();
    CpfDigitsOfParts("111", "444", "777", "35");
  }

  lemma Pieces11144477736()
    ensures AllDigits("111") && AllDigits("444") && AllDigits("777") && AllDigits("36")
    ensures "111" + "." + "444" + "." + "777" + "-" + "36" == "111.444.777-36"
    ensures "111" + "444" + "777" + "36" == "11144477736"
  {
  }

  lemma Digits11144477736()
    ensures OnlyNumbers("111.444.777-36") == "11144477736"
  {
    Pieces11144477736();
    CpfDigitsOfParts("111", "444", "777", "36");
  }

  /** `validateCpf('111.444.777-35')` is true. */
  lemma ValidFormattedCpfExample()
    ensures IsValidCpf("111.444.777-35")
  {
    ValidCpfExample();
    Digits11144477735();
    ValidateCpfDigitsOnly("111.444.777-35");
  }

  /** `validateCpf('12345678901')` is false: the second check digit should be 9. */
  lemma WrongCheckDigitExample()
    ensures !IsValidCpf("12345678901")
  {
    Cpf01Facts();
    Cpf01SecondCheckDigit();
    InvalidFromLastDigit("12345678901");
  }

  lemma WrongCheckDigit11144477736()
    ensures !IsValidCpf("11144477736")
  {
    Cpf36Facts();
    Cpf36SecondCheckDigit();
    InvalidFromLastDigit("11144477736");
  }

  /** `validateCpf('111.444.777-36')` is false: the second check digit should be 5. */
  lemma WrongFormattedCheckDigitExample()
    ensures !IsValidCpf("111.444.777-36")
  {
    WrongCheckDigit11144477736();
    Digits11144477736();
    ValidateCpfDigitsOnly("111.444.777-36");
  }

  /** `validateCpf('11111111111')` is false. */
  lemma RepeatsRejected(s: string)
    requires AllDigits(s) && RepeatsOneDigit(s)
    ensures !IsValidCpf(s)
  {
    DigitsKept(s);
  }

  lemma OnesFacts()
    ensures AllDigits("11111111111") && RepeatsOneDigit("11111111111")
  {
  }

  lemma RepeatedDigitExample()
    ensures !IsValidCpf("11111111111")
  {
    OnesFacts();
    RepeatsRejected("11111111111");
  }

  lemma ZerosFacts()
    ensures AllDigits("000") && AllDigits("00")
    ensures "000" + "." + "000" + "." + "000" + "-" + "00" == "000.000.000-00"
    ensures "000" + "000" + "000" + "00" == "00000000000"
    ensures AllDigits("00000000000") && RepeatsOneDigit("00000000000")
  {
  }

  /** `validateCpf('000.000.000-00')` is false. */
  lemma RepeatedFormattedDigitExample()
    ensures !IsValidCpf("000.000.000-00")
  {
    ZerosFacts();
    CpfDigitsOfParts("000", "000", "000", "00");
    RepeatsRejected("00000000000");
    ValidateCpfDigitsOnly("000.000.000-00");
  }

  lemma WrongLengthRejected(s: string)
    requires AllDigits(s) && |s| != 11
    ensures !IsValidCpf(s)
  {
    DigitsKept(s);
  }

  lemma ShortAndLongFacts()
    ensures AllDigits("123") && |"123"| == 3
    ensures AllDigits("123456789012") && |"123456789012"| == 12
  {
  }

  /** `validateCpf` of `'123'`, `'123456789012'` and `''` is false. */
  lemma WrongLengthCpfExamples()
    ensures !IsValidCpf("123") && !IsValidCpf("123456789012") && !IsValidCpf("")
  {
    ShortAndLongFacts();
    WrongLengthRejected("123");
    WrongLengthRejected("123456789012");
    WrongLengthRejected("");
  }

  // ---------------------------------------------------------------- the formatters

  lemma FormatCpfOfDigits(c: string)
    requires AllDigits(c) && |c| == 11
    ensures FormatCpf(c) == c[..3] + "." + c[3..6] + "." + c[6..9] + "-" + c[9..]
  {
    DigitsKept(c);
  }

  lemma CpfSlices()
    ensures var c := "12345678901"; c[..3] + "." + c[3..6] + "." + c[6..9] + "-" + c[9..] == "123.456.789-01"
  {
  }

  /** `formatCpf('12345678901')` is `'123.456.789-01'`. */
  lemma FormatCpfExample()
    ensures FormatCpf("12345678901") == "123.456.789-01"
  {
    assert AllDigits("12345678901");
    FormatCpfOfDigits("12345678901");
    CpfSlices();
  }

  /** Inputs without eleven digits come back as they are. */
  lemma FormatCpfUnchangedExamples()
    ensures FormatCpf("123") == "123" && FormatCpf("") == ""
  {
    assert AllDigits("123");
    DigitsKept("123");
  }

  lemma FormatPhoneOfDigits(c: string)
    requires AllDigits(c)
    ensures |c| == 11 ==> FormatPhone(c) == "(" + c[..2] + ") " + c[2..7] + "-" + c[7..]
    ensures |c| == 10 ==> FormatPhone(c) == "(" + c[..2] + ") " + c[2..6] + "-" + c[6..]
  {
    DigitsKept(c);
  }

  lemma PhoneSlices()
    ensures var c := "11999999999"; "(" + c[..2] + ") " + c[2..7] + "-" + c[7..] == "(11) 99999-9999"
    ensures var c := "1199999999"; "(" + c[..2] + ") " + c[2..6] + "-" + c[6..] == "(11) 9999-9999"
  {
  }

  /** `formatPhone('11999999999')` is `'(11) 99999-9999'`. */
  lemma FormatLongPhoneExample()
    ensures FormatPhone("11999999999") == "(11) 99999-9999"
  {
    assert AllDigits("11999999999");
    FormatPhoneOfDigits("11999999999");
    PhoneSlices();
  }

  /** `formatPhone('1199999999')` is `'(11) 9999-9999'`. */
  lemma FormatShortPhoneExample()
    ensures FormatPhone("1199999999") == "(11) 9999-9999"
  {
    assert AllDigits("1199999999");
    FormatPhoneOfDigits("1199999999");
    PhoneSlices();
  }

  lemma FormatCepOfDigits(c: string)
    requires AllDigits(c) && |c| == 8
    ensures FormatCep(c) == c[..5] + "-" + c[5..]
  {
    DigitsKept(c);
  }

  /** `formatCep('01310100')` is `'01310-100'`. */
  lemma CepFacts()
    ensures AllDigits("01310100") && |"01310100"| == 8
    ensures "01310100"[..5] + "-" + "01310100"[5..] == "01310-100"
  {
  }

  lemma FormatCepExample()
    ensures FormatCep("01310100") == "01310-100"
  {
    CepFacts();
    FormatCepOfDigits("01310100");
  }

  /** Inputs without eight digits come back as they are. */
  lemma FormatCepOtherLength(s: string)
    requires AllDigits(s) && |s| != 8
    ensures FormatCep(s) == s
  {
    DigitsKept(s);
  }

  lemma FormatCepUnchangedExamples()
    ensures FormatCep("123456789") == "123456789" && FormatCep("123") == "123"
  {
    assert AllDigits("123456789") && |"123456789"| == 9;
    ShortAndLongFacts();
    FormatCepOtherLength("123456789");
    FormatCepOtherLength("123");
  }

  // ---------------------------------------------------------------- dates

  lemma FormatDateOfParts(y: string, m: string, d: string)
    requires '-' !in y && '-' !in m && '-' !in d
    ensures FormatDate(y + ['-'] + m + ['-'] + d) == d + "/" + m + "/" + y
  {
    SplitThree(y, m, d, '-');
  }

  /** `formatDate('1990-05-15')` is `'15/05/1990'`. */
  lemma FormatDateExample()
    ensures FormatDate("1990-05-15") == "15/05/1990"
  {
    IsoDatePieces();
    FormatDateOfParts("1990", "05", "15");
  }

  lemma IsoDatePieces()
    ensures "1990" + ['-'] + "05" + ['-'] + "15" == "1990-05-15"
    ensures "15" + "/" + "05" + "/" + "1990" == "15/05/1990"
  {
  }

  /** `formatDate('')` is `''` and `formatDate('invalid')` is `'invalid'`. */
  lemma FormatDateUnchangedExamples()
    ensures FormatDate("") == "" && FormatDate("invalid") == "invalid"
  {
    SplitNoSep("invalid", '-');
  }

  lemma ParseDateOfParts(d: string, m: string, y: string)
    requires '/' !in d && '/' !in m && '/' !in y
    ensures ParseDateAccepts(d + ['/'] + m + ['/'] + y)
    ensures ParseDate(d + ['/'] + m + ['/'] + y) == y + "-" + PadStart(m, 2, '0') + "-" + PadStart(d, 2, '0')
  {
    SplitThree(d, m, y, '/');
  }

  /** `parseDate('15/05/1990')` is `'1990-05-15'`. */
  lemma ParseDateExample()
    ensures ParseDateAccepts("15/05/1990") && ParseDate("15/05/1990") == "1990-05-15"
  {
    BrDatePieces();
    ParseDateOfParts("15", "05", "1990");
  }

  lemma BrDatePieces()
    ensures "15" + ['/'] + "05" + ['/'] + "1990" == "15/05/1990"
    ensures "1990" + "-" + PadStart("05", 2, '0') + "-" + PadStart("15", 2, '0') == "1990-05-15"
  {
  }

  /** `parseDate('5/5/1990')` is `'1990-05-05'`: single digits are padded. */
  lemma ParseDatePadsExample()
    ensures ParseDateAccepts("5/5/1990") && ParseDate("5/5/1990") == "1990-05-05"
  {
    ShortBrDatePieces();
    ParseDateOfParts("5", "5", "1990");
  }

  lemma ShortBrDatePieces()
    ensures "5" + ['/'] + "5" + ['/'] + "1990" == "5/5/1990"
    ensures "1990" + "-" + PadStart("5", 2, '0') + "-" + PadStart("5", 2, '0') == "1990-05-05"
  {
    assert PadStart("5", 2, '0') == "05";
  }

  // ---------------------------------------------------------------- e-mail, digits, words, truncation

  /** `validateEmail('test@example.com')` is true. */
  lemma ValidEmailExample()
    ensures ValidateEmail("test@example.com")
  {
    var e := "test@example.com";
    assert e[4] == '@' && e[12] == '.';
    assert forall i | 0 <= i < |e| && i != 4 :: EmailChar(e[i]);
  }

  /** `'test@'`, `''`, `'invalid-email'`, `'test.domain.com'` and `'@domain.com'` are rejected. */
  lemma InvalidEmailExamples()
    ensures !ValidateEmail("test@") && !ValidateEmail("") && !ValidateEmail("invalid-email")
    ensures !ValidateEmail("test.domain.com") && !ValidateEmail("@domain.com")
  {
    var n := "invalid-email";
    assert forall i | 0 <= i < |n| :: n[i] != '@';
    var t := "test.domain.com";
    assert forall i | 0 <= i < |t| :: t[i] != '@';
    var d := "@domain.com";
    assert forall i | 0 < i < |d| :: d[i] != '@';
  }

  /** `onlyNumbers('123abc456')` is `'123456'`. */
  lemma OnlyNumbersExample()
    ensures OnlyNumbers("123abc456") == "123456"
  {
    MixedFacts();
    OnlyNumbersDropsRun("123", "abc", "456");
  }

  lemma MixedFacts()
    ensures AllDigits("123") && AllDigits("456") && forall i | 0 <= i < |"abc"| :: !IsDigit("abc"[i])
    ensures "123" + "abc" + "456" == "123abc456" && "123" + "456" == "123456"
  {
  }

  /** A run of non-digits between two runs of digits disappears. */
  lemma OnlyNumbersDropsRun(a: string, junk: string, b: string)
    requires AllDigits(a) && AllDigits(b) && forall i | 0 <= i < |junk| :: !IsDigit(junk[i])
    ensures OnlyNumbers(a + junk + b) == a + b
  {
    assert OnlyNumbers(a + junk) == a by {
      DigitsKept(a);
      OnlyNumbersNoDigits(junk);
      OnlyNumbersConcat(a, junk);
    }
    DigitsKept(b);
    OnlyNumbersConcat(a + junk, b);
  }

  lemma CapitalizeOneWord(w: string, r: string)
    requires ' ' !in w && CapitalizeWord(Lower(w)) == r
    ensures CapitalizeWords(w) == r
  {
    CapitalizeSingleWord(w);
  }

  lemma CapitalizeMaria()
    ensures CapitalizeWords("MARIA") == "Maria"
  {
    assert Lower("MARIA") == "maria";
    CapitalizeOneWord("MARIA", "Maria");
  }

  lemma CapitalizeSantos()
    ensures CapitalizeWords("SANTOS") == "Santos"
  {
    assert Lower("SANTOS") == "santos";
    CapitalizeOneWord("SANTOS", "Santos");
  }

  lemma CapitalizeJoao()
    ensures CapitalizeWords("joão") == "João"
  {
    assert Lower("joão") == "joão";
    CapitalizeOneWord("joão", "João");
  }

  lemma CapitalizeSilva()
    ensures CapitalizeWords("silva") == "Silva"
  {
    assert Lower("silva") == "silva";
    CapitalizeOneWord("silva", "Silva");
  }

  /** Two words around one space are capitalised one by one. */
  lemma CapitalizeTwo(a: string, b: string, ra: string, rb: string)
    requires CapitalizeWords(a) == ra && CapitalizeWords(b) == rb
    ensures CapitalizeWords(a + " " + b) == ra + " " + rb
  {
    CapitalizeAroundSpace(a, b);
  }

  /** `capitalizeWords('MARIA SANTOS')` is `'Maria Santos'`. */
  lemma CapitalizeExample()
    ensures CapitalizeWords("MARIA SANTOS") == "Maria Santos"
  {
    CapitalizeMaria();
    CapitalizeSantos();
    CapitalizeTwo("MARIA", "SANTOS", "Maria", "Santos");
    MariaSantosPieces();
  }

  lemma MariaSantosPieces()
    ensures "MARIA" + " " + "SANTOS" == "MARIA SANTOS" && "Maria" + " " + "Santos" == "Maria Santos"
  {
  }

  lemma CapitalizeSpaceSilva()
    ensures CapitalizeWords(" silva") == " Silva"
  {
    CapitalizeOneWord("", "");
    CapitalizeSilva();
    CapitalizeTwo("", "silva", "", "Silva");
    assert "" + " " + "silva" == " silva";
    assert "" + " " + "Silva" == " Silva";
  }

  /** `capitalizeWords('joão  silva')` is `'João  Silva'`: the empty word between the spaces stays empty. */
  lemma CapitalizeDoubleSpaceExample()
    ensures CapitalizeWords("joão  silva") == "João  Silva"
  {
    CapitalizeJoao();
    CapitalizeSpaceSilva();
    CapitalizeTwo("joão", " silva", "João", " Silva");
    JoaoSilvaPieces();
  }

  lemma JoaoSilvaPieces()
    ensures "joão" + " " + " silva" == "joão  silva" && "João" + " " + " Silva" == "João  Silva"
  {
  }

  /** The `truncateText` cases: cut to ten with the ellipsis, kept, and `'...'` for a limit below three. */
  lemma TruncateExamples()
    ensures TruncateText("This is a long text", 10) == "This is..."
    ensures TruncateText("Short", 10) == "Short" && TruncateText("Exactly10!", 10) == "Exactly10!"
    ensures TruncateText("Test", 2) == "..." && TruncateText("", 10) == ""
  {
  }
}
