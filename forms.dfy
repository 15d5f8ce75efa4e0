/**
 * The field rules of the registration form (`userValidationSchema` in
 * `src/interfaces/Forms.ts`) as predicates, the empty initial values, and how
 * the rules relate to the formatters of `Utils`. `required` rejects the empty
 * string, `min`/`max`/`length` bound the length, `matches` tests the whole
 * string against the pattern. The schema's e-mail test belongs to the form
 * library and is a parameter here.
 */
module Forms {
  import opened Strings
  import opened Utils

  datatype UserFormData = UserFormData(
    name: string, email: string, phone: string, cpf: string, birthDate: string,
    cep: string, street: string, number: string, complement: string,
    neighborhood: string, city: string, state: string, uf: string)

  const InitialUserFormValues: UserFormData :=
    UserFormData("", "", "", "", "", "", "", "", "", "", "", "", "")

  predicate Required(s: string) {
    s != []
  }

  predicate NameRule(s: string) {
    Required(s) && 2 <= |s| <= 100
  }

  predicate EmailRule(s: string, isEmail: string -> bool) {
    Required(s) && isEmail(s)
  }

  /** `^\(\d{2}\)\s\d{n}-\d{4}$` for a middle group of `n` digits. */
  predicate PhonePattern(s: string, n: nat) {
    |s| == n + 10 && s[0] == '(' && AllDigits(s[1..3]) && s[3] == ')' && IsWhitespace(s[4]) &&
    AllDigits(s[5..5 + n]) && s[5 + n] == '-' && AllDigits(s[6 + n..])
  }

  /** `^\(\d{2}\)\s\d{4,5}-\d{4}$`. */
  predicate PhoneRule(s: string) {
    Required(s) && (PhonePattern(s, 4) || PhonePattern(s, 5))
  }

  /** `^\d{3}\.\d{3}\.\d{3}-\d{2}$`: the shape only, no check digits. */
  predicate CpfRule(s: string) {
    Required(s) && FitsMask(s, "###.###.###-##")
  }

  /** `^\d{4}-\d{2}-\d{2}$`: the shape only, no calendar check. */
  predicate BirthDateRule(s: string) {
    Required(s) && FitsMask(s, "####-##-##")
  }

  /** `^\d{5}-\d{3}$`. */
  predicate CepRule(s: string) {
    Required(s) && FitsMask(s, "#####-###")
  }

  predicate StreetRule(s: string) {
    Required(s) && |s| >= 5
  }

  predicate NumberRule(s: string) {
    Required(s) && |s| >= 1
  }

  /** Optional: only the length is bounded. */
  predicate ComplementRule(s: string) {
    |s| <= 100
  }

  predicate NeighborhoodRule(s: string) {
    Required(s) && |s| >= 2
  }

  predicate CityRule(s: string) {
    Required(s) && |s| >= 2
  }

  predicate StateRule(s: string) {
    Required(s) && |s| >= 2
  }

  /** Exactly two characters, already in upper case. */
  predicate UfRule(s: string) {
    Required(s) && |s| == 2 && Upper(s) == s
  }

  /** The whole schema. */
  predicate FormValid(f: UserFormData, isEmail: string -> bool) {
    NameRule(f.name) && EmailRule(f.email, isEmail) && PhoneRule(f.phone) && CpfRule(f.cpf) &&
    BirthDateRule(f.birthDate) && CepRule(f.cep) && StreetRule(f.street) && NumberRule(f.number) &&
    ComplementRule(f.complement) && NeighborhoodRule(f.neighborhood) && CityRule(f.city) &&
    StateRule(f.state) && UfRule(f.uf)
  }

  /** The empty form fails every required field, whatever the e-mail test, and passes the optional one. */
  lemma InitialValuesFailRequired(isEmail: string -> bool)
    ensures var f := InitialUserFormValues;
            !NameRule(f.name) && !EmailRule(f.email, isEmail) && !PhoneRule(f.phone) && !CpfRule(f.cpf) &&
            !BirthDateRule(f.birthDate) && !CepRule(f.cep) && !StreetRule(f.street) && !NumberRule(f.number) &&
            !NeighborhoodRule(f.neighborhood) && !CityRule(f.city) && !StateRule(f.state) && !UfRule(f.uf) &&
            ComplementRule(f.complement)
    ensures !FormValid(InitialUserFormValues, isEmail)
  {
  }

  // ---------------------------------------------------------------- the rules and the formatters

  /** The cpf pattern is the layout `formatCpf` produces. */
  lemma CpfRuleIsLayout(s: string)
    ensures CpfRule(s) <==> CpfLayout(s)
  {
    var m := "###.###.###-##";
    if CpfLayout(s) {
      forall i | 0 <= i < |s| ensures if m[i] == '#' then IsDigit(s[i]) else s[i] == m[i] {
        if i < 3 { assert s[..3][i] == s[i]; }
        else if 4 <= i < 7 { assert s[4..7][i - 4] == s[i]; }
        else if 8 <= i < 11 { assert s[8..11][i - 8] == s[i]; }
        else if i >= 12 { assert s[12..][i - 12] == s[i]; }
      }
    }
    if CpfRule(s) {
      assert forall i | 0 <= i < 3 :: s[..3][i] == s[i] && m[i] == '#';
      assert forall i | 0 <= i < 3 :: s[4..7][i] == s[i + 4] && m[i + 4] == '#';
      assert forall i | 0 <= i < 3 :: s[8..11][i] == s[i + 8] && m[i + 8] == '#';
      assert forall i | 0 <= i < 2 :: s[12..][i] == s[i + 12] && m[i + 12] == '#';
    }
  }

  /** The cep pattern is the layout `formatCep` produces. */
  lemma CepRuleIsLayout(s: string)
    ensures CepRule(s) <==> CepLayout(s)
  {
    var m := "#####-###";
    if CepLayout(s) {
      forall i | 0 <= i < |s| ensures if m[i] == '#' then IsDigit(s[i]) else s[i] == m[i] {
        if i < 5 { assert s[..5][i] == s[i]; }
        else if i >= 6 { assert s[6..][i - 6] == s[i]; }
      }
    }
    if CepRule(s) {
      assert forall i | 0 <= i < 5 :: s[..5][i] == s[i] && m[i] == '#';
      assert forall i | 0 <= i < 3 :: s[6..][i] == s[i + 6] && m[i + 6] == '#';
    }
  }

  /** What `formatPhone` produces fits the phone pattern (its space is one of the `\s` characters). */
  lemma PhoneLayoutFitsRule(s: string, long: bool)
    requires PhoneLayout(s, long)
    ensures PhoneRule(s)
  {
    var n := if long then 5 else 4;
    assert PhonePattern(s, n);
  }

  /** Eleven digits, formatted, pass the cpf rule. */
  lemma FormatCpfPassesRule(cpf: string)
    requires |OnlyNumbers(cpf)| == 11
    ensures CpfRule(FormatCpf(cpf))
  {
    FormatCpfSpec(cpf);
    CpfRuleIsLayout(FormatCpf(cpf));
  }

  /** Ten or eleven digits, formatted, pass the phone rule. */
  lemma FormatPhonePassesRule(phone: string)
    requires |OnlyNumbers(phone)| == 10 || |OnlyNumbers(phone)| == 11
    ensures PhoneRule(FormatPhone(phone))
  {
    FormatPhoneSpec(phone);
    PhoneLayoutFitsRule(FormatPhone(phone), |OnlyNumbers(phone)| == 11);
  }

  /** Eight digits, formatted, pass the cep rule. */
  lemma FormatCepPassesRule(cep: string)
    requires |OnlyNumbers(cep)| == 8
    ensures CepRule(FormatCep(cep))
  {
    FormatCepSpec(cep);
    CepRuleIsLayout(FormatCep(cep));
  }

  /** Digits are neither of the date separators. */
  lemma DigitsNoSeparator(s: string)
    requires AllDigits(s)
    ensures '-' !in s && '/' !in s
  {
  }

  /** A birth date the form accepts survives display and re-entry: `parseDate(formatDate(d)) == d`. */
  lemma BirthDateRoundTrip(d: string)
    requires BirthDateRule(d)
    ensures ParseDateAccepts(FormatDate(d)) && ParseDate(FormatDate(d)) == d
  {
    var m := "####-##-##";
    var y, mo, da := d[..4], d[5..7], d[8..];
    assert forall i | 0 <= i < |d| && m[i] == '#' :: IsDigit(d[i]);
    assert AllDigits(y) by {
      assert forall i | 0 <= i < 4 :: y[i] == d[i] && m[i] == '#';
    }
    assert AllDigits(mo) by {
      assert forall i | 0 <= i < 2 :: mo[i] == d[5 + i] && m[5 + i] == '#';
    }
    assert AllDigits(da) by {
      assert forall i | 0 <= i < 2 :: da[i] == d[8 + i] && m[8 + i] == '#';
    }
    DigitsNoSeparator(y);
    DigitsNoSeparator(mo);
    DigitsNoSeparator(da);
    assert d == y + "-" + mo + "-" + da;
    DateRoundTrip(y, mo, da);
  }
}
