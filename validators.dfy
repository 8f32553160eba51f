/**
  The validation rules an address and a package must pass before a step may
  be stored, and the rule on a whole shipment. Each schema is modelled as a
  predicate saying which raw inputs it accepts and a function that either
  returns the normalised record or the list of broken rules.
 */
module Validators {
  import opened Types

  // ---------------------------------------------------------------------
  // Text: trimming and the character classes the patterns use
  // ---------------------------------------------------------------------

  /** The characters ECMAScript's trim removes: WhiteSpace and LineTerminator. */
  predicate IsTrimmable(c: char)
  {
    c == '\t' || c == '\n' || c == '\U{B}' || c == '\U{C}' || c == '\r' || c == ' '
    || c == '\U{A0}' || c == '\U{1680}' || ('\U{2000}' <= c <= '\U{200A}')
    || c == '\U{2028}' || c == '\U{2029}' || c == '\U{202F}' || c == '\U{205F}'
    || c == '\U{3000}' || c == '\U{FEFF}'
  }

  /** The characters a regular-expression `.` does not match. */
  predicate IsLineTerminator(c: char)
  {
    c == '\n' || c == '\r' || c == '\U{2028}' || c == '\U{2029}'
  }

  /** `\d`: an ASCII digit. */
  predicate IsDigit(c: char)
  {
    '0' <= c <= '9'
  }

  /** Drops the leading trimmable characters. */
  function TrimStart(s: string): (r: string)
    ensures |r| <= |s| && r == s[|s| - |r|..]
    ensures r == [] || !IsTrimmable(r[0])
    ensures forall k :: 0 <= k < |s| - |r| ==> IsTrimmable(s[k])
  {
    if s != [] && IsTrimmable(s[0]) then TrimStart(s[1..]) else s
  }

  /** Drops the trailing trimmable characters. */
  function TrimEnd(s: string): (r: string)
    ensures |r| <= |s| && r == s[..|r|]
    ensures r == [] || !IsTrimmable(r[|r| - 1])
    ensures forall k :: |r| <= k < |s| ==> IsTrimmable(s[k])
  {
    if s != [] && IsTrimmable(s[|s| - 1]) then TrimEnd(s[..|s| - 1]) else s
  }

  /** String.prototype.trim: the longest middle part of s that neither starts nor ends with a trimmable character. */
  function Trim(s: string): (r: string)
    ensures |r| <= |s|
    ensures r == [] || (!IsTrimmable(r[0]) && !IsTrimmable(r[|r| - 1]))
  {
    var t := TrimStart(s);
    var r := TrimEnd(t);
    assert r != [] ==> r[0] == t[0];
    r
  }

  /** Trimming keeps a middle part of s and drops only trimmable characters around it. */
  lemma {:induction false} TrimIsMiddle(s: string)
    ensures exists a :: MiddleOf(s, Trim(s), a)
  {
    var t := TrimStart(s);
    var r := TrimEnd(t);
    assert r == Trim(s);
    MiddleOfParts(s, t, r, |s| - |t|);
  }

  /** A prefix r of the suffix t == s[a..], with only trimmable characters around it, is a middle of s. */
  lemma MiddleOfParts(s: string, t: string, r: string, a: int)
    requires 0 <= a <= |s| && t == s[a..] && |r| <= |t| && r == t[..|r|]
    requires forall k :: 0 <= k < a ==> IsTrimmable(s[k])
    requires forall k :: |r| <= k < |t| ==> IsTrimmable(t[k])
    ensures MiddleOf(s, r, a)
  {
    assert r == s[a..a + |r|];
    forall k | a + |r| <= k < |s|
      ensures IsTrimmable(s[k])
    {
      assert s[k] == t[k - a];
    }
  }

  /** r is s[a..a + |r|] and everything of s around it is trimmable. */
  ghost predicate MiddleOf(s: string, r: string, a: int)
  {
    0 <= a && a + |r| <= |s| && r == s[a..a + |r|]
    && (forall k :: 0 <= k < a ==> IsTrimmable(s[k]))
    && (forall k :: a + |r| <= k < |s| ==> IsTrimmable(s[k]))
  }

  /** Trimming changes nothing in a string that neither starts nor ends with a trimmable character. */
  lemma TrimmedIsFixed(s: string)
    requires s == [] || (!IsTrimmable(s[0]) && !IsTrimmable(s[|s| - 1]))
    ensures Trim(s) == s
  {
  }

  /** Trimming twice is trimming once. */
  lemma TrimIdempotent(s: string)
    ensures Trim(Trim(s)) == Trim(s)
  {
    TrimmedIsFixed(Trim(s));
  }

  /** `\d+` over the whole string. */
  predicate OnlyDigits(s: string)
  {
    |s| > 0 && forall i :: 0 <= i < |s| ==> IsDigit(s[i])
  }

  /**
    The pattern `^(?!\d+$).+$` of the city and state rules: at least one
    character, no line terminator (`.` does not match one), and not made of
    digits alone.
   */
  predicate NotOnlyDigits(s: string)
  {
    |s| > 0 && (forall i :: 0 <= i < |s| ==> !IsLineTerminator(s[i])) && !OnlyDigits(s)
  }

  // ---------------------------------------------------------------------
  // Address schema
  // ---------------------------------------------------------------------

  /** An address as the form submits it: the country is whatever text was selected. */
  datatype AddressInput = AddressInput(
    street: Option<string>,
    city: string,
    state: Option<string>,
    country: string,
    postalCode: string)

  datatype AddressField = City | State | Country | PostalCode

  datatype AddressRule = TooShort | TooLong | OnlyNumbers | Invalid | Unsupported

  datatype AddressError = AddressError(field: AddressField, rule: AddressRule)

  predicate CityAccepted(city: string)
  {
    2 <= |Trim(city)| <= 50 && NotOnlyDigits(Trim(city))
  }

  /** The state may be absent or exactly "", and is otherwise held to the city's pattern once trimmed. */
  predicate StateAccepted(state: Option<string>)
  {
    state.None? || state.value == "" || NotOnlyDigits(Trim(state.value))
  }

  predicate CountryAccepted(country: string)
  {
    country == "SA" || country == "EG" || country == "US"
  }

  /** Any characters at all, three to ten of them once trimmed. */
  predicate PostalCodeAccepted(postalCode: string)
  {
    3 <= |Trim(postalCode)| <= 10
  }

  predicate AddressAccepted(a: AddressInput)
  {
    CityAccepted(a.city) && StateAccepted(a.state) && CountryAccepted(a.country)
    && PostalCodeAccepted(a.postalCode)
  }

  /** The rule table: when a rule of the city, state, country or postal-code field is broken. */
  predicate RuleBroken(a: AddressInput, field: AddressField, rule: AddressRule)
  {
    match field
    case City =>
      var t := Trim(a.city);
      (rule == TooShort && |t| < 2) || (rule == TooLong && |t| > 50) || (rule == OnlyNumbers && !NotOnlyDigits(t))
    case State => rule == Invalid && !StateAccepted(a.state)
    case Country => rule == Unsupported && !CountryAccepted(a.country)
    case PostalCode =>
      var t := Trim(a.postalCode);
      (rule == TooShort && |t| < 3) || (rule == TooLong && |t| > 10)
  }

  function CheckErrors(field: AddressField, rule: AddressRule, broken: bool): (r: seq<AddressError>)
    ensures forall e :: e in r <==> broken && e == AddressError(field, rule)
  {
    if broken then [AddressError(field, rule)] else []
  }

  /** The city's failing checks, on the trimmed text. */
  function CityErrors(city: string): seq<AddressError>
  {
    CheckErrors(City, TooShort, |city| < 2)
    + CheckErrors(City, TooLong, |city| > 50)
    + CheckErrors(City, OnlyNumbers, !NotOnlyDigits(city))
  }

  /** The postal code's failing checks, on the trimmed text. */
  function PostalCodeErrors(code: string): seq<AddressError>
  {
    CheckErrors(PostalCode, TooShort, |code| < 3) + CheckErrors(PostalCode, TooLong, |code| > 10)
  }

  /** Every failing check of every field, in field order; a field may fail several checks. */
  function AddressErrors(a: AddressInput): seq<AddressError>
  {
    CityErrors(Trim(a.city))
    + CheckErrors(State, Invalid, !StateAccepted(a.state))
    + CheckErrors(Country, Unsupported, !CountryAccepted(a.country))
    + PostalCodeErrors(Trim(a.postalCode))
  }

  /** The address errors are exactly the broken rules. */
  lemma AddressErrorsExact(a: AddressInput)
    ensures forall e :: e in AddressErrors(a) <==> RuleBroken(a, e.field, e.rule)
  {
    forall e
      ensures e in AddressErrors(a) <==> RuleBroken(a, e.field, e.rule)
    {
      AddressErrorMember(a, e);
    }
  }

  /** One error is reported exactly when its rule is broken. */
  lemma AddressErrorMember(a: AddressInput, e: AddressError)
    ensures e in AddressErrors(a) <==> RuleBroken(a, e.field, e.rule)
  {
    var cityErrors := CityErrors(Trim(a.city));
    var stateErrors := CheckErrors(State, Invalid, !StateAccepted(a.state));
    var countryErrors := CheckErrors(Country, Unsupported, !CountryAccepted(a.country));
    var codeErrors := PostalCodeErrors(Trim(a.postalCode));
    assert e in AddressErrors(a) <==>
      e in cityErrors || e in stateErrors || e in countryErrors || e in codeErrors;
    CityErrorMember(Trim(a.city), e);
    PostalCodeErrorMember(Trim(a.postalCode), e);
  }

  lemma CityErrorMember(city: string, e: AddressError)
    ensures e in CityErrors(city) <==>
      e.field == City
      && ((e.rule == TooShort && |city| < 2) || (e.rule == TooLong && |city| > 50)
          || (e.rule == OnlyNumbers && !NotOnlyDigits(city)))
  {
    var short := CheckErrors(City, TooShort, |city| < 2);
    var long := CheckErrors(City, TooLong, |city| > 50);
    var digits := CheckErrors(City, OnlyNumbers, !NotOnlyDigits(city));
    assert e in CityErrors(city) <==> e in short || e in long || e in digits;
  }

  lemma PostalCodeErrorMember(code: string, e: AddressError)
    ensures e in PostalCodeErrors(code) <==>
      e.field == PostalCode && ((e.rule == TooShort && |code| < 3) || (e.rule == TooLong && |code| > 10))
  {
    var short := CheckErrors(PostalCode, TooShort, |code| < 3);
    var long := CheckErrors(PostalCode, TooLong, |code| > 10);
    assert e in PostalCodeErrors(code) <==> e in short || e in long;
  }

  /** No rule is broken exactly when every field is accepted. */
  lemma NoBrokenRuleIffAccepted(a: AddressInput)
    ensures AddressErrors(a) == [] <==> AddressAccepted(a)
  {
    var r := AddressErrors(a);
    AddressErrorsExact(a);
    if !CityAccepted(a.city) {
      if |Trim(a.city)| < 2 {
        assert AddressError(City, TooShort) in r;
      } else if |Trim(a.city)| > 50 {
        assert AddressError(City, TooLong) in r;
      } else {
        assert AddressError(City, OnlyNumbers) in r;
      }
    } else if !StateAccepted(a.state) {
      assert AddressError(State, Invalid) in r;
    } else if !CountryAccepted(a.country) {
      assert AddressError(Country, Unsupported) in r;
    } else if !PostalCodeAccepted(a.postalCode) {
      if |Trim(a.postalCode)| < 3 {
        assert AddressError(PostalCode, TooShort) in r;
      } else {
        assert AddressError(PostalCode, TooLong) in r;
      }
    }
  }

  /** The stored value of an accepted state: absent, the literal "", or the trimmed text. */
  function StateValue(state: Option<string>): Option<string>
  {
    match state
    case None => None
    case Some(s) => if s == "" then Some("") else Some(Trim(s))
  }

  function TrimmedStreet(street: Option<string>): Option<string>
  {
    match street
    case None => None
    case Some(s) => Some(Trim(s))
  }

  /**
    The address schema. It accepts exactly the inputs whose every field
    passes its rules, and then returns the address with every text field
    trimmed; otherwise it reports exactly the broken rules.
   */
  function ValidateAddress(a: AddressInput): (r: Result<Address, seq<AddressError>>)
    ensures r.Ok? <==> AddressAccepted(a)
    ensures r.Ok? ==> r.value == Address(TrimmedStreet(a.street), Trim(a.city), StateValue(a.state),
                                         ParseCountry(a.country).value, Trim(a.postalCode))
    ensures r.Err? ==> r.error != [] && forall e :: e in r.error <==> RuleBroken(a, e.field, e.rule)
  {
    var errors := AddressErrors(a);
    NoBrokenRuleIffAccepted(a);
    AddressErrorsExact(a);
    if errors == [] then
      Ok(Address(TrimmedStreet(a.street), Trim(a.city), StateValue(a.state),
                 ParseCountry(a.country).value, Trim(a.postalCode)))
    else
      Err(errors)
  }

  /** The form input that shows a stored address again. */
  function AddressInputOf(a: Address): AddressInput
  {
    AddressInput(a.street, a.city, a.state, CountryText(a.country), a.postalCode)
  }

  /** An address the schema produced: validating it again gives it back. */
  predicate IsValidatedAddress(a: Address)
  {
    ValidateAddress(AddressInputOf(a)) == Ok(a)
  }

  /** Re-validating the schema's own output succeeds and changes nothing. */
  lemma {:induction false} AddressRoundTrip(input: AddressInput)
    requires ValidateAddress(input).Ok?
    ensures IsValidatedAddress(ValidateAddress(input).value)
  {
    var a := ValidateAddress(input).value;
    TrimIdempotent(input.city);
    TrimIdempotent(input.postalCode);
    CountryTextRoundTrip(a.country);
    match input.street {
      case None =>
      case Some(s) => TrimIdempotent(s);
    }
    match input.state {
      case None =>
      case Some(s) => TrimIdempotent(s);
    }
  }

  // ---------------------------------------------------------------------
  // Numeric text: the pattern ^(0|[1-9]\d*)(\.\d+)?$ and its value
  // ---------------------------------------------------------------------

  /** The position of the first '.', or |s| when there is none. */
  function DotIndex(s: string): (k: nat)
    ensures k <= |s|
    ensures k < |s| ==> s[k] == '.'
    ensures forall i :: 0 <= i < k ==> s[i] != '.'
  {
    if s == [] || s[0] == '.' then 0 else 1 + DotIndex(s[1..])
  }

  /** `0|[1-9]\d*` */
  predicate WholePart(s: string)
  {
    s == "0" || (|s| > 0 && '1' <= s[0] <= '9' && forall i :: 1 <= i < |s| ==> IsDigit(s[i]))
  }

  /** `^(0|[1-9]\d*)(\.\d+)?$`: no sign, no leading zero before a whole part, at least one digit after a dot. */
  predicate DecimalText(s: string)
  {
    var k := DotIndex(s);
    WholePart(s[..k]) && (k == |s| || OnlyDigits(s[k + 1..]))
  }

  function DigitValue(c: char): nat
    requires IsDigit(c)
  {
    c as int - '0' as int
  }

  /** The value of a string of digits read as a whole number. */
  function WholeNumber(s: string): nat
    requires forall i :: 0 <= i < |s| ==> IsDigit(s[i])
  {
    if s == [] then 0 else 10 * WholeNumber(s[..|s| - 1]) + DigitValue(s[|s| - 1])
  }

  /** The value of a string of digits read after a decimal point. */
  function FractionValue(s: string): (r: real)
    requires forall i :: 0 <= i < |s| ==> IsDigit(s[i])
    ensures 0.0 <= r < 1.0
  {
    if s == [] then 0.0 else (DigitValue(s[0]) as real + FractionValue(s[1..])) / 10.0
  }

  /** Number(s) for a string the pattern accepts: its whole part is the floor of the value. */
  function DecimalValue(s: string): (r: real)
    requires DecimalText(s)
    ensures r >= 0.0
    ensures r.Floor == WholeNumber(s[..DotIndex(s)])
  {
    var k := DotIndex(s);
    WholeNumber(s[..k]) as real + if k == |s| then 0.0 else FractionValue(s[k + 1..])
  }

  function Pow10(n: nat): (r: nat)
    ensures r >= 1
  {
    if n == 0 then 1 else 10 * Pow10(n - 1)
  }

  /** n is hi shifted left by p (a power of ten) plus lo. */
  predicate ShiftedSum(n: nat, hi: nat, p: nat, lo: nat)
  {
    n == hi * p + lo
  }

  /** Reading digits a then digits b: a's value shifted past b's digits, plus b's value. */
  lemma {:induction false} WholeNumberAppend(a: string, b: string)
    requires forall i :: 0 <= i < |a| ==> IsDigit(a[i])
    requires forall i :: 0 <= i < |b| ==> IsDigit(b[i])
    ensures forall i :: 0 <= i < |a + b| ==> IsDigit((a + b)[i])
    ensures ShiftedSum(WholeNumber(a + b), WholeNumber(a), Pow10(|b|), WholeNumber(b))
    decreases |b|
  {
    if b == [] {
      assert a + b == a;
    } else {
      var front := b[..|b| - 1];
      assert (a + b)[..|a + b| - 1] == a + front;
      assert (a + b)[|a + b| - 1] == b[|b| - 1];
      WholeNumberAppend(a, front);
      AppendStep(WholeNumber(a + b), WholeNumber(a + front), WholeNumber(a),
                 Pow10(|b|), Pow10(|front|), WholeNumber(b), WholeNumber(front), DigitValue(b[|b| - 1]));
    }
  }

  /** One more digit on the right of both n and lo: the arithmetic step of WholeNumberAppend. */
  lemma AppendStep(n: nat, n': nat, hi: nat, p: nat, p': nat, lo: nat, lo': nat, d: nat)
    requires n == 10 * n' + d && p == 10 * p' && lo == 10 * lo' + d
    requires ShiftedSum(n', hi, p', lo')
    ensures ShiftedSum(n, hi, p, lo)
  {
    assert hi * p == 10 * (hi * p');
  }

  /** x times p is exactly w. */
  predicate ScaledTo(x: real, p: nat, w: nat)
  {
    x * p as real == w as real
  }

  /** The first digit's value shifted past the others, plus the others' value. */
  lemma FirstDigit(d: string)
    requires d != [] && forall i :: 0 <= i < |d| ==> IsDigit(d[i])
    ensures ShiftedSum(WholeNumber(d), DigitValue(d[0]), Pow10(|d| - 1), WholeNumber(d[1..]))
  {
    var x, rest := [d[0]], d[1..];
    assert WholeNumber(x) == DigitValue(d[0]) by {
      assert x[..0] == [];
    }
    assert x + rest == d;
    WholeNumberAppend(x, rest);
  }

  /** The digits after the point, shifted left by their own count, read as a whole number. */
  lemma {:induction false} FractionScaled(d: string)
    requires forall i :: 0 <= i < |d| ==> IsDigit(d[i])
    ensures ScaledTo(FractionValue(d), Pow10(|d|), WholeNumber(d))
  {
    if d == [] {
      assert FractionValue(d) == 0.0 && WholeNumber(d) == 0;
    } else {
      FractionScaled(d[1..]);
      FirstDigit(d);
      ShiftDigit(FractionValue(d), Pow10(|d|), WholeNumber(d),
                 DigitValue(d[0]), FractionValue(d[1..]), Pow10(|d| - 1), WholeNumber(d[1..]));
    }
  }

  /** One digit moved in front of a shifted fraction: the arithmetic step of FractionScaled. */
  lemma ShiftDigit(x: real, bigP: nat, bigW: nat, v: nat, f: real, p: nat, w: nat)
    requires x == (v as real + f) / 10.0 && bigP == 10 * p && ShiftedSum(bigW, v, p, w)
    requires ScaledTo(f, p, w)
    ensures ScaledTo(x, bigP, bigW)
  {
    assert bigP as real == 10.0 * p as real;
    assert (v * p) as real == v as real * p as real;
    assert x * (10.0 * p as real) == (v as real + f) * p as real;
  }

  /** The digits after the point of a decimal text; none when it has no point. */
  function FractionDigits(s: string): (r: string)
    requires DecimalText(s)
    ensures forall i :: 0 <= i < |r| ==> IsDigit(r[i])
  {
    var k := DotIndex(s);
    if k == |s| then [] else s[k + 1..]
  }

  /** The digits of a decimal text with the point taken out. */
  function DigitsOf(s: string): (r: string)
    requires DecimalText(s)
    ensures forall i :: 0 <= i < |r| ==> IsDigit(r[i])
  {
    var k := DotIndex(s);
    assert s[..k] + [] == s[..k];
    WholeNumberAppend(s[..k], FractionDigits(s));
    s[..k] + FractionDigits(s)
  }

  /**
    Number(s) for a decimal text: the value times ten to the number of
    digits after the point is the digits read without the point; with no
    point it is the digits read as a whole number.
   */
  lemma DecimalValueExact(s: string)
    requires DecimalText(s)
    ensures ScaledTo(DecimalValue(s), Pow10(|FractionDigits(s)|), WholeNumber(DigitsOf(s)))
    ensures DotIndex(s) == |s| ==> DigitsOf(s) == s && DecimalValue(s) == WholeNumber(s) as real
  {
    var k, d := DotIndex(s), FractionDigits(s);
    assert DecimalValue(s) == WholeNumber(s[..k]) as real + FractionValue(d);
    WholeNumberAppend(s[..k], d);
    FractionScaled(d);
    ShiftPoint(WholeNumber(s[..k]), FractionValue(d), Pow10(|d|), WholeNumber(d), WholeNumber(DigitsOf(s)));
    if k == |s| {
      assert s[..k] == s && d == [];
      assert DigitsOf(s) == s;
    }
  }

  /** Whole part plus shifted fraction: the arithmetic step of DecimalValueExact. */
  lemma ShiftPoint(w: nat, f: real, p: nat, n: nat, m: nat)
    requires ScaledTo(f, p, n) && ShiftedSum(m, w, p, n)
    ensures ScaledTo(w as real + f, p, m)
  {
    assert (w * p) as real == w as real * p as real;
  }

  /**
    Whether ECMAScript writes the number x in plain decimal notation (no
    sign, no exponent), so that String(x) can match the pattern and
    Number(String(x)) is x again.
   */
  predicate PrintsAsDecimal(x: real)
  {
    x == 0.0 || (0.000001 <= x < 1000000000000000000000.0)
  }

  // ---------------------------------------------------------------------
  // Package schema
  // ---------------------------------------------------------------------

  /** A raw numeric form value: typed text, a number, null or undefined. */
  datatype NumericInput = Text(text: string) | Num(number: real) | Null | Undefined

  /** A package as the form submits it. */
  datatype PackageInput = PackageInput(
    weight: NumericInput,
    length: NumericInput,
    width: NumericInput,
    height: NumericInput,
    unit: string)

  datatype PackageField = Weight | Length | Width | Height | Unit

  datatype PackageRule = Required | WrongType | LeadingZeros | BelowMinimum | AboveMaximum
                       | NotPositive | UnsupportedUnit

  datatype PackageError = PackageError(field: PackageField, rule: PackageRule)

  /** The number a raw value stands for when it is written as the pattern allows; None otherwise. */
  function NumberOf(v: NumericInput): (r: Option<real>)
    ensures r.Some? <==> (v.Text? && DecimalText(v.text)) || (v.Num? && PrintsAsDecimal(v.number))
    ensures r.Some? ==> r.value >= 0.0
    ensures r.Some? && v.Num? ==> r.value == v.number
    ensures r.Some? && v.Text? ==> r.value == DecimalValue(v.text)
  {
    match v
    case Text(s) => if DecimalText(s) then Some(DecimalValue(s)) else None
    case Num(x) => if PrintsAsDecimal(x) then Some(x) else None
    case Null => None
    case Undefined => None
  }

  /** An optional field counts as not given when it is "", null or undefined. */
  predicate Absent(v: NumericInput)
  {
    v == Text("") || v == Null || v == Undefined
  }

  predicate WeightAccepted(v: NumericInput)
  {
    NumberOf(v).Some? && 0.1 <= NumberOf(v).value <= 1000.0
  }

  predicate DimensionAccepted(v: NumericInput)
  {
    Absent(v) || (NumberOf(v).Some? && NumberOf(v).value > 0.0)
  }

  predicate UnitAccepted(unit: string)
  {
    unit == "kg" || unit == "lb"
  }

  predicate PackageAccepted(p: PackageInput)
  {
    WeightAccepted(p.weight) && DimensionAccepted(p.length) && DimensionAccepted(p.width)
    && DimensionAccepted(p.height) && UnitAccepted(p.unit)
  }

  /** The required numeric field: presence, then the pattern, then Number. */
  function RequiredNumber(field: PackageField, v: NumericInput): (r: Result<real, PackageError>)
    ensures r.Ok? <==> NumberOf(v).Some?
    ensures r.Ok? ==> r.value == NumberOf(v).value
    ensures r.Err? ==> r.error.field == field
    ensures r == Err(PackageError(field, Required)) <==> (v == Undefined || v == Text(""))
  {
    match v
    case Undefined => Err(PackageError(field, Required))
    case Null => Err(PackageError(field, WrongType))
    case Text(s) =>
      if s == "" then Err(PackageError(field, Required))
      else if DecimalText(s) then Ok(DecimalValue(s))
      else Err(PackageError(field, LeadingZeros))
    case Num(x) => if PrintsAsDecimal(x) then Ok(x) else Err(PackageError(field, LeadingZeros))
  }

  /**
    The weight: a required number, at least 0.1 and at most 1000. The first
    failing stage is the one reported.
   */
  function WeightResult(v: NumericInput): (r: Result<real, PackageError>)
    ensures r.Ok? <==> WeightAccepted(v)
    ensures r.Ok? ==> r.value == NumberOf(v).value
    ensures r.Err? ==> r.error.field == Weight
    ensures r == Err(PackageError(Weight, BelowMinimum)) <==> (NumberOf(v).Some? && NumberOf(v).value < 0.1)
    ensures r == Err(PackageError(Weight, AboveMaximum)) <==> (NumberOf(v).Some? && NumberOf(v).value > 1000.0)
  {
    match RequiredNumber(Weight, v)
    case Err(e) => Err(e)
    case Ok(w) =>
      if w < 0.1 then Err(PackageError(Weight, BelowMinimum))
      else if w > 1000.0 then Err(PackageError(Weight, AboveMaximum))
      else Ok(w)
  }

  /** An optional dimension: absent, or a number written as the pattern allows that is strictly positive. */
  function DimensionResult(field: PackageField, v: NumericInput): (r: Result<Option<real>, PackageError>)
    ensures r.Ok? <==> DimensionAccepted(v)
    ensures r.Ok? ==> (r.value.None? <==> Absent(v))
    ensures r.Ok? && r.value.Some? ==> r.value.value == NumberOf(v).value > 0.0
    ensures r.Err? ==> r.error.field == field
  {
    if Absent(v) then Ok(None)
    else match NumberOf(v)
      case None => Err(PackageError(field, LeadingZeros))
      case Some(x) => if x > 0.0 then Ok(Some(x)) else Err(PackageError(field, NotPositive))
  }

  function ErrorsOf<T>(r: Result<T, PackageError>): seq<PackageError>
  {
    match r
    case Ok(_) => []
    case Err(e) => [e]
  }

  /** Every field is checked; each failing field contributes its first failing rule. */
  function PackageErrors(p: PackageInput): seq<PackageError>
  {
    ErrorsOf(WeightResult(p.weight))
    + ErrorsOf(DimensionResult(Length, p.length))
    + ErrorsOf(DimensionResult(Width, p.width))
    + ErrorsOf(DimensionResult(Height, p.height))
    + (if UnitAccepted(p.unit) then [] else [PackageError(Unit, UnsupportedUnit)])
  }

  predicate PackageFieldAccepted(p: PackageInput, f: PackageField)
  {
    match f
    case Weight => WeightAccepted(p.weight)
    case Length => DimensionAccepted(p.length)
    case Width => DimensionAccepted(p.width)
    case Height => DimensionAccepted(p.height)
    case Unit => UnitAccepted(p.unit)
  }

  /** Whether some error in the list is about field f. */
  predicate ReportsField(errors: seq<PackageError>, f: PackageField)
  {
    exists e :: e in errors && e.field == f
  }

  /**
    The package schema. It accepts exactly the inputs whose every field
    passes, returning the numbers the fields denote; otherwise every failing
    field is reported, and no passing one.
   */
  function ValidatePackage(p: PackageInput): (r: Result<PackageDimensions, seq<PackageError>>)
    ensures r.Ok? <==> PackageAccepted(p)
    ensures r.Ok? ==> r.value.weight == NumberOf(p.weight).value && ParseUnit(p.unit) == Some(r.value.unit)
    ensures r.Ok? ==> r.value.length == (if Absent(p.length) then None else NumberOf(p.length))
    ensures r.Ok? ==> r.value.width == (if Absent(p.width) then None else NumberOf(p.width))
    ensures r.Ok? ==> r.value.height == (if Absent(p.height) then None else NumberOf(p.height))
    ensures r.Err? ==> forall f :: ReportsField(r.error, f) <==> !PackageFieldAccepted(p, f)
  {
    var errors := PackageErrors(p);
    PackageErrorsNone(p);
    PackageErrorsExact(p);
    if errors == [] then
      Ok(PackageDimensions(WeightResult(p.weight).value, DimensionResult(Length, p.length).value,
                           DimensionResult(Width, p.width).value, DimensionResult(Height, p.height).value,
                           ParseUnit(p.unit).value))
    else
      Err(errors)
  }

  /** No package error is reported exactly when every field is accepted. */
  lemma PackageErrorsNone(p: PackageInput)
    ensures PackageErrors(p) == [] <==> PackageAccepted(p)
  {
    var w := WeightResult(p.weight);
    var l, wd, h := DimensionResult(Length, p.length), DimensionResult(Width, p.width), DimensionResult(Height, p.height);
    assert PackageErrors(p) == [] <==> w.Ok? && l.Ok? && wd.Ok? && h.Ok? && UnitAccepted(p.unit);
  }

  /** A field is reported exactly when it is not accepted. */
  lemma PackageErrorsExact(p: PackageInput)
    ensures forall f :: ReportsField(PackageErrors(p), f) <==> !PackageFieldAccepted(p, f)
  {
    forall f
      ensures ReportsField(PackageErrors(p), f) <==> !PackageFieldAccepted(p, f)
    {
      PackageFieldReported(p, f);
    }
  }

  lemma PackageFieldReported(p: PackageInput, f: PackageField)
    ensures ReportsField(PackageErrors(p), f) <==> !PackageFieldAccepted(p, f)
  {
    var w := WeightResult(p.weight);
    var l := DimensionResult(Length, p.length);
    var wd := DimensionResult(Width, p.width);
    var h := DimensionResult(Height, p.height);
    var u := if UnitAccepted(p.unit) then [] else [PackageError(Unit, UnsupportedUnit)];
    ReportsFieldAppend(ErrorsOf(w) + ErrorsOf(l) + ErrorsOf(wd) + ErrorsOf(h), u, f);
    ReportsFieldAppend(ErrorsOf(w) + ErrorsOf(l) + ErrorsOf(wd), ErrorsOf(h), f);
    ReportsFieldAppend(ErrorsOf(w) + ErrorsOf(l), ErrorsOf(wd), f);
    ReportsFieldAppend(ErrorsOf(w), ErrorsOf(l), f);
    ReportsFieldErrorsOf(w, Weight, f);
    ReportsFieldErrorsOf(l, Length, f);
    ReportsFieldErrorsOf(wd, Width, f);
    ReportsFieldErrorsOf(h, Height, f);
    assert ReportsField(u, f) <==> !UnitAccepted(p.unit) && f == Unit by {
      if !UnitAccepted(p.unit) {
        assert u[0] in u;
      }
    }
  }

  lemma ReportsFieldAppend(a: seq<PackageError>, b: seq<PackageError>, f: PackageField)
    ensures ReportsField(a + b, f) <==> ReportsField(a, f) || ReportsField(b, f)
  {
    if ReportsField(a + b, f) {
      var e :| e in a + b && e.field == f;
      assert e in a || e in b;
    }
    if ReportsField(a, f) {
      var e :| e in a && e.field == f;
      assert e in a + b;
    }
    if ReportsField(b, f) {
      var e :| e in b && e.field == f;
      assert e in a + b;
    }
  }

  lemma ReportsFieldErrorsOf<T>(r: Result<T, PackageError>, g: PackageField, f: PackageField)
    requires r.Err? ==> r.error.field == g
    ensures ReportsField(ErrorsOf(r), f) <==> r.Err? && g == f
  {
    if r.Err? {
      assert r.error in ErrorsOf(r);
    }
  }

  /** What a stored package must satisfy: the bounds the schema enforces. */
  predicate InPackageBounds(p: PackageDimensions)
  {
    0.1 <= p.weight <= 1000.0
    && (p.length.Some? ==> p.length.value > 0.0)
    && (p.width.Some? ==> p.width.value > 0.0)
    && (p.height.Some? ==> p.height.value > 0.0)
  }

  /** Every package the schema returns keeps the bounds. */
  lemma ValidatedPackageInBounds(p: PackageInput)
    requires ValidatePackage(p).Ok?
    ensures InPackageBounds(ValidatePackage(p).value)
  {
  }

  // ---------------------------------------------------------------------
  // Whole-shipment schema
  // ---------------------------------------------------------------------

  datatype ShippingFormInput = ShippingFormInput(
    origin: AddressInput,
    destination: AddressInput,
    package: PackageInput,
    isInternational: bool)

  datatype FormIssue =
    | OriginIssue(address: AddressError)
    | DestinationIssue(address: AddressError)
    | PackageIssue(package: PackageError)
    | SameCountryInternational

  function OriginIssues(errors: seq<AddressError>): (r: seq<FormIssue>)
    ensures |r| == |errors|
    ensures forall k :: 0 <= k < |r| ==> r[k] == OriginIssue(errors[k])
  {
    if errors == [] then [] else [OriginIssue(errors[0])] + OriginIssues(errors[1..])
  }

  function DestinationIssues(errors: seq<AddressError>): (r: seq<FormIssue>)
    ensures |r| == |errors|
    ensures forall k :: 0 <= k < |r| ==> r[k] == DestinationIssue(errors[k])
  {
    if errors == [] then [] else [DestinationIssue(errors[0])] + DestinationIssues(errors[1..])
  }

  function PackageIssues(errors: seq<PackageError>): (r: seq<FormIssue>)
    ensures |r| == |errors|
    ensures forall k :: 0 <= k < |r| ==> r[k] == PackageIssue(errors[k])
  {
    if errors == [] then [] else [PackageIssue(errors[0])] + PackageIssues(errors[1..])
  }

  /**
    Whether a broken package rule stops the parse of the whole object. A
    value of the wrong type, an empty required value and text off the
    numeric pattern are followed by a transform, which does not run on a
    failed value; an unknown unit fails an enum. The bounds checks
    (minimum, maximum, positive) only mark the value as failed.
   */
  predicate PackageRuleAborts(rule: PackageRule)
  {
    rule == Required || rule == WrongType || rule == LeadingZeros || rule == UnsupportedUnit
  }

  /**
    Whether the parse of a shipment stops before its object-level check: a
    country outside the enum on either address, or an aborting package
    rule. The address string checks (length, patterns) only mark the value
    as failed, so the object-level check still runs after them.
   */
  predicate FormAborts(f: ShippingFormInput)
  {
    !CountryAccepted(f.origin.country) || !CountryAccepted(f.destination.country) || PackageAborts(f.package)
  }

  /**
    Whether the package's parse stops: a weight that is missing, of the
    wrong type or off the pattern, a given dimension off the pattern, or a
    unit outside the enum.
   */
  predicate PackageAborts(p: PackageInput)
  {
    NumberOf(p.weight).None?
    || (!Absent(p.length) && NumberOf(p.length).None?)
    || (!Absent(p.width) && NumberOf(p.width).None?)
    || (!Absent(p.height) && NumberOf(p.height).None?)
    || !UnitAccepted(p.unit)
  }

  /** The object-level check: a shipment flagged international must join two different countries. */
  predicate CountriesRefused(f: ShippingFormInput)
  {
    f.isInternational && f.origin.country == f.destination.country
  }

  /**
    The whole-shipment schema: the three parts must pass, and a shipment
    flagged international must join two different countries. A shipment
    not flagged international is not checked against its countries at all.
    The issues are those of the origin, the destination and the package,
    in that order, followed by the country issue whenever the object-level
    check runs and fails, which it does even after failed parts unless
    their parse stopped.
   */
  function ValidateShippingForm(f: ShippingFormInput): (r: Result<ShippingFormData, seq<FormIssue>>)
    ensures r.Ok? <==> AddressAccepted(f.origin) && AddressAccepted(f.destination)
                       && PackageAccepted(f.package)
                       && (f.isInternational ==> f.origin.country != f.destination.country)
    ensures r.Ok? ==> r.value.isInternational == f.isInternational
    ensures r.Ok? ==> (r.value.isInternational ==> r.value.origin.country != r.value.destination.country)
    ensures r.Err? ==> r.error != []
    ensures r.Err? ==> (SameCountryInternational in r.error <==> !FormAborts(f) && CountriesRefused(f))
  {
    var o := ValidateAddress(f.origin);
    var d := ValidateAddress(f.destination);
    var p := ValidatePackage(f.package);
    assert p.Err? ==> p.error != [] by {
      PackageErrorsNone(f.package);
    }
    if o.Ok? && d.Ok? && p.Ok? then
      AcceptedPartsGoOn(f);
      if CountriesRefused(f) then Err([SameCountryInternational])
      else Ok(ShippingFormData(o.value, d.value, p.value, f.isInternational))
    else
      Err(PartIssues(o, d, p) + (if !FormAborts(f) && CountriesRefused(f) then [SameCountryInternational] else []))
  }

  /** An accepted package does not stop the parse. */
  lemma AcceptedPackageGoesOn(p: PackageInput)
    requires PackageAccepted(p)
    ensures !PackageAborts(p)
  {
  }

  /** Parts that pass do not stop the parse, and their countries compare as their texts do. */
  lemma AcceptedPartsGoOn(f: ShippingFormInput)
    requires AddressAccepted(f.origin) && AddressAccepted(f.destination) && PackageAccepted(f.package)
    ensures !FormAborts(f)
    ensures ParseCountry(f.origin.country) == ParseCountry(f.destination.country) <==> f.origin.country == f.destination.country
  {
  }

  /** The issues of the three parts, origin first; empty exactly when all three pass. */
  function PartIssues(o: Result<Address, seq<AddressError>>, d: Result<Address, seq<AddressError>>,
                      p: Result<PackageDimensions, seq<PackageError>>): (r: seq<FormIssue>)
    requires o.Err? ==> o.error != []
    requires d.Err? ==> d.error != []
    requires p.Err? ==> p.error != []
    ensures r == [] <==> o.Ok? && d.Ok? && p.Ok?
    ensures SameCountryInternational !in r
  {
    (if o.Err? then OriginIssues(o.error) else [])
    + (if d.Err? then DestinationIssues(d.error) else [])
    + (if p.Err? then PackageIssues(p.error) else [])
  }

  /**
    The issue list of a refused shipment, item by item: each broken
    origin and destination rule, each failing package field's rule, and
    the country issue exactly when the object-level check ran and failed.
   */
  ghost predicate IssuesExact(f: ShippingFormInput, issues: seq<FormIssue>)
  {
    (forall e :: OriginIssue(e) in issues <==> RuleBroken(f.origin, e.field, e.rule))
    && (forall e :: DestinationIssue(e) in issues <==> RuleBroken(f.destination, e.field, e.rule))
    && (forall e :: PackageIssue(e) in issues <==> e in PackageErrors(f.package))
    && (SameCountryInternational in issues <==> !FormAborts(f) && CountriesRefused(f))
  }

  /** A refused shipment reports exactly its broken rules and, when the object-level check failed, the country issue. */
  lemma ShippingFormIssues(f: ShippingFormInput)
    requires ValidateShippingForm(f).Err?
    ensures IssuesExact(f, ValidateShippingForm(f).error)
  {
    var o := ValidateAddress(f.origin);
    var d := ValidateAddress(f.destination);
    var p := ValidatePackage(f.package);
    if o.Ok? && d.Ok? && p.Ok? {
      OnlyCountryIssue(f);
    } else {
      PartIssuesMembers(f, o, d, p);
    }
  }

  /** When every part passes, a refused shipment reports the country issue alone. */
  lemma OnlyCountryIssue(f: ShippingFormInput)
    requires AddressAccepted(f.origin) && AddressAccepted(f.destination) && PackageAccepted(f.package)
    requires ValidateShippingForm(f).Err?
    ensures IssuesExact(f, ValidateShippingForm(f).error)
  {
    AcceptedPartsRefused(f);
    PackageErrorsNone(f.package);
    NoRuleBroken(f.origin);
    NoRuleBroken(f.destination);
    CountryIssueAlone(f, ValidateShippingForm(f).error);
  }

  lemma CountryIssueAlone(f: ShippingFormInput, issues: seq<FormIssue>)
    requires forall e: AddressError :: !RuleBroken(f.origin, e.field, e.rule)
    requires forall e: AddressError :: !RuleBroken(f.destination, e.field, e.rule)
    requires PackageErrors(f.package) == []
    requires !FormAborts(f) && CountriesRefused(f)
    requires issues == [SameCountryInternational]
    ensures IssuesExact(f, issues)
  {
  }

  /** When every part passes, only the object-level check can refuse the shipment. */
  lemma AcceptedPartsRefused(f: ShippingFormInput)
    requires AddressAccepted(f.origin) && AddressAccepted(f.destination) && PackageAccepted(f.package)
    requires ValidateShippingForm(f).Err?
    ensures ValidateShippingForm(f).error == [SameCountryInternational]
    ensures !FormAborts(f) && CountriesRefused(f)
  {
    AcceptedPartsGoOn(f);
  }

  /** An accepted address breaks no rule. */
  lemma NoRuleBroken(a: AddressInput)
    requires AddressAccepted(a)
    ensures forall e: AddressError :: !RuleBroken(a, e.field, e.rule)
  {
    NoBrokenRuleIffAccepted(a);
    AddressErrorsExact(a);
  }

  /** The membership half of the issue list when some part fails. */
  lemma PartIssuesMembers(f: ShippingFormInput, o: Result<Address, seq<AddressError>>,
                          d: Result<Address, seq<AddressError>>, p: Result<PackageDimensions, seq<PackageError>>)
    requires o == ValidateAddress(f.origin) && d == ValidateAddress(f.destination)
    requires p == ValidatePackage(f.package)
    requires o.Err? || d.Err? || p.Err?
    ensures IssuesExact(f, ValidateShippingForm(f).error)
  {
    var issues := ValidateShippingForm(f).error;
    PackageErrorsNone(f.package);
    if o.Ok? {
      NoBrokenRuleIffAccepted(f.origin);
      AddressErrorsExact(f.origin);
    }
    if d.Ok? {
      NoBrokenRuleIffAccepted(f.destination);
      AddressErrorsExact(f.destination);
    }
    forall e
      ensures OriginIssue(e) in issues <==> RuleBroken(f.origin, e.field, e.rule)
    {
      IssueMember(f, o, d, p, OriginIssue(e));
    }
    forall e
      ensures DestinationIssue(e) in issues <==> RuleBroken(f.destination, e.field, e.rule)
    {
      IssueMember(f, o, d, p, DestinationIssue(e));
    }
    forall e
      ensures PackageIssue(e) in issues <==> e in PackageErrors(f.package)
    {
      IssueMember(f, o, d, p, PackageIssue(e));
    }
    IssueMember(f, o, d, p, SameCountryInternational);
  }

  /** Where one issue of a refused shipment with a failing part comes from. */
  lemma IssueMember(f: ShippingFormInput, o: Result<Address, seq<AddressError>>,
                    d: Result<Address, seq<AddressError>>, p: Result<PackageDimensions, seq<PackageError>>, x: FormIssue)
    requires o == ValidateAddress(f.origin) && d == ValidateAddress(f.destination)
    requires p == ValidatePackage(f.package)
    requires o.Err? || d.Err? || p.Err?
    ensures x in ValidateShippingForm(f).error <==>
              (o.Err? && x.OriginIssue? && x.address in o.error)
              || (d.Err? && x.DestinationIssue? && x.address in d.error)
              || (p.Err? && x.PackageIssue? && x.package in PackageErrors(f.package))
              || (x == SameCountryInternational && !FormAborts(f) && CountriesRefused(f))
  {
    var os := if o.Err? then OriginIssues(o.error) else [];
    var ds := if d.Err? then DestinationIssues(d.error) else [];
    var ps := if p.Err? then PackageIssues(p.error) else [];
    var tail := if !FormAborts(f) && CountriesRefused(f) then [SameCountryInternational] else [];
    var issues := ValidateShippingForm(f).error;
    assert issues == os + ds + ps + tail;
    assert x in issues <==> x in os || x in ds || x in ps || x in tail;
    assert x in tail <==> x == SameCountryInternational && !FormAborts(f) && CountriesRefused(f);
    assert p.Err? ==> p.error == PackageErrors(f.package);
    if o.Err? {
      OriginIssuesMember(o.error, x);
    }
    if d.Err? {
      DestinationIssuesMember(d.error, x);
    }
    if p.Err? {
      PackageIssuesMember(p.error, x);
    }
  }

  lemma OriginIssuesMember(errors: seq<AddressError>, x: FormIssue)
    ensures x in OriginIssues(errors) <==> x.OriginIssue? && x.address in errors
  {
    var r := OriginIssues(errors);
    if x.OriginIssue? && x.address in errors {
      var k :| 0 <= k < |errors| && errors[k] == x.address;
      assert r[k] == x;
    }
  }

  lemma DestinationIssuesMember(errors: seq<AddressError>, x: FormIssue)
    ensures x in DestinationIssues(errors) <==> x.DestinationIssue? && x.address in errors
  {
    var r := DestinationIssues(errors);
    if x.DestinationIssue? && x.address in errors {
      var k :| 0 <= k < |errors| && errors[k] == x.address;
      assert r[k] == x;
    }
  }

  lemma PackageIssuesMember(errors: seq<PackageError>, x: FormIssue)
    ensures x in PackageIssues(errors) <==> x.PackageIssue? && x.package in errors
  {
    var r := PackageIssues(errors);
    if x.PackageIssue? && x.package in errors {
      var k :| 0 <= k < |errors| && errors[k] == x.package;
      assert r[k] == x;
    }
  }

  /** Whether some error in the list is one that stops the parse. */
  predicate ReportsAbort(errors: seq<PackageError>)
  {
    exists e :: e in errors && PackageRuleAborts(e.rule)
  }

  /**
    A package whose parse stops is one that reports an aborting rule, so
    the stopping condition is read off the reported package errors.
   */
  lemma PackageAbortsIffReported(p: PackageInput)
    ensures PackageAborts(p) <==> ReportsAbort(PackageErrors(p))
  {
    var w := ErrorsOf(WeightResult(p.weight));
    var l := ErrorsOf(DimensionResult(Length, p.length));
    var wd := ErrorsOf(DimensionResult(Width, p.width));
    var h := ErrorsOf(DimensionResult(Height, p.height));
    var u := if UnitAccepted(p.unit) then [] else [PackageError(Unit, UnsupportedUnit)];
    ReportsAbortAppend(w + l + wd + h, u);
    ReportsAbortAppend(w + l + wd, h);
    ReportsAbortAppend(w + l, wd);
    ReportsAbortAppend(w, l);
    WeightAborts(p.weight);
    DimensionAborts(Length, p.length);
    DimensionAborts(Width, p.width);
    DimensionAborts(Height, p.height);
    assert ReportsAbort(u) <==> !UnitAccepted(p.unit) by {
      if !UnitAccepted(p.unit) {
        assert u[0] in u;
      }
    }
  }

  lemma ReportsAbortAppend(a: seq<PackageError>, b: seq<PackageError>)
    ensures ReportsAbort(a + b) <==> ReportsAbort(a) || ReportsAbort(b)
  {
    if ReportsAbort(a + b) {
      var e :| e in a + b && PackageRuleAborts(e.rule);
      assert e in a || e in b;
    }
    if ReportsAbort(a) {
      var e :| e in a && PackageRuleAborts(e.rule);
      assert e in a + b;
    }
    if ReportsAbort(b) {
      var e :| e in b && PackageRuleAborts(e.rule);
      assert e in a + b;
    }
  }

  lemma WeightAborts(v: NumericInput)
    ensures ReportsAbort(ErrorsOf(WeightResult(v))) <==> NumberOf(v).None?
  {
    var r := WeightResult(v);
    if r.Err? {
      assert r.error in ErrorsOf(r);
    }
  }

  lemma DimensionAborts(field: PackageField, v: NumericInput)
    ensures ReportsAbort(ErrorsOf(DimensionResult(field, v))) <==> !Absent(v) && NumberOf(v).None?
  {
    var r := DimensionResult(field, v);
    if r.Err? {
      assert r.error in ErrorsOf(r);
    }
  }

  /**
    A one-letter origin city on an Egypt-to-Egypt shipment flagged
    international: the city issue and the country issue are both
    reported, in that order.
   */
  lemma ShortCityKeepsCountryIssue(f: ShippingFormInput)
    requires f.origin == AddressInput(None, "a", None, "EG", "12345")
    requires f.destination == AddressInput(None, "Cairo", None, "EG", "12345")
    requires PackageAccepted(f.package) && f.isInternational
    ensures ValidateShippingForm(f) == Err([OriginIssue(AddressError(City, TooShort)), SameCountryInternational])
  {
    var e := AddressError(City, TooShort);
    ShortCityRefused();
    CairoAccepted();
    OnlyOriginFails(f, [e]);
    assert OriginIssues([e]) == [OriginIssue(e)];
    assert CountriesRefused(f);
    IssuePair(OriginIssue(e), SameCountryInternational);
  }

  lemma IssuePair(x: FormIssue, y: FormIssue)
    ensures [x] + [y] == [x, y]
  {
  }

  /** A shipment whose origin alone fails, on checks that do not stop the parse. */
  lemma OnlyOriginFails(f: ShippingFormInput, errors: seq<AddressError>)
    requires ValidateAddress(f.origin) == Err(errors)
    requires CountryAccepted(f.origin.country)
    requires AddressAccepted(f.destination) && PackageAccepted(f.package)
    ensures ValidateShippingForm(f)
            == Err(OriginIssues(errors) + (if CountriesRefused(f) then [SameCountryInternational] else []))
  {
    AcceptedPackageGoesOn(f.package);
    assert !FormAborts(f);
    var o, d, p := ValidateAddress(f.origin), ValidateAddress(f.destination), ValidatePackage(f.package);
    assert d.Ok? && p.Ok?;
    OriginIssuesAlone(o, d, p);
  }

  lemma OriginIssuesAlone(o: Result<Address, seq<AddressError>>, d: Result<Address, seq<AddressError>>,
                          p: Result<PackageDimensions, seq<PackageError>>)
    requires o.Err? && o.error != [] && d.Ok? && p.Ok?
    ensures PartIssues(o, d, p) == OriginIssues(o.error)
  {
    assert OriginIssues(o.error) + [] + [] == OriginIssues(o.error);
  }

  lemma ShortCityRefused()
    ensures ValidateAddress(AddressInput(None, "a", None, "EG", "12345")) == Err([AddressError(City, TooShort)])
  {
    OneLetterCity();
    DigitsTrimmed();
    OnlyCityTooShort(AddressInput(None, "a", None, "EG", "12345"));
  }

  lemma CairoAccepted()
    ensures AddressAccepted(AddressInput(None, "Cairo", None, "EG", "12345"))
  {
    CityNameAccepted();
    DigitsTrimmed();
  }

  lemma OneLetterCity()
    ensures |Trim("a")| < 2 && NotOnlyDigits(Trim("a"))
  {
    TrimmedIsFixed("a");
    assert !IsDigit("a"[0]);
  }

  /** An address whose only fault is a city too short but not made of digits reports that alone. */
  lemma OnlyCityTooShort(a: AddressInput)
    requires |Trim(a.city)| < 2 && NotOnlyDigits(Trim(a.city))
    requires StateAccepted(a.state) && CountryAccepted(a.country) && PostalCodeAccepted(a.postalCode)
    ensures ValidateAddress(a) == Err([AddressError(City, TooShort)])
  {
    var e := AddressError(City, TooShort);
    assert [e] + [] == [e];
    assert CityErrors(Trim(a.city)) == [e];
    assert AddressErrors(a) == [e];
  }

  // ---------------------------------------------------------------------
  // The documented examples
  // ---------------------------------------------------------------------

  /** A city of digits only is refused. */
  lemma CityOfDigitsRefused()
    ensures !CityAccepted("12345")
  {
    DigitsTrimmed();
    DigitsOnly();
  }

  lemma DigitsTrimmed()
    ensures Trim("12345") == "12345"
  {
    var s := "12345";
    assert !IsTrimmable(s[0]) && !IsTrimmable(s[4]);
    TrimmedIsFixed(s);
  }

  lemma DigitsOnly()
    ensures OnlyDigits("12345")
  {
    var s := "12345";
    assert IsDigit(s[0]) && IsDigit(s[1]) && IsDigit(s[2]) && IsDigit(s[3]) && IsDigit(s[4]);
  }

  /** A plain city name is accepted. */
  lemma CityNameAccepted()
    ensures CityAccepted("Cairo")
  {
    TrimmedIsFixed("Cairo");
    assert !IsDigit("Cairo"[0]);
  }

  /** Surrounding blanks do not count towards a city's length. */
  lemma CityTrimmedBeforeLength()
    ensures !CityAccepted(" C ")
  {
    assert TrimStart(" C ") == "C " by { assert " C "[1..] == "C "; }
    assert TrimEnd("C ") == "C" by { assert "C "[..1] == "C"; }
  }

  /** The numeric pattern refuses leading zeros, a bare dot on either side and a sign. */
  lemma DecimalTextExamples()
    ensures !DecimalText("01") && !DecimalText("00.5") && !DecimalText(".5")
    ensures !DecimalText("1.") && !DecimalText("-1")
    ensures DecimalText("0.5") && DecimalValue("0.5") == 0.5
  {
    assert DotIndex("01") == 2 by { assert "01"[1..] == "1"; assert "1"[1..] == ""; }
    assert "01"[..2] == "01";
    assert DotIndex("00.5") == 2 by { assert "00.5"[1..] == "0.5"; assert "0.5"[1..] == ".5"; }
    assert "00.5"[..2] == "00";
    assert DotIndex(".5") == 0;
    assert ".5"[..0] == "";
    assert DotIndex("1.") == 1 by { assert "1."[1..] == "."; }
    assert "1."[1 + 1..] == "";
    assert DotIndex("-1") == 2 by { assert "-1"[1..] == "1"; assert "1"[1..] == ""; }
    assert "-1"[..2] == "-1";
    assert DotIndex("0.5") == 1 by { assert "0.5"[1..] == ".5"; }
    assert "0.5"[..1] == "0";
    assert "0.5"[1 + 1..] == "5";
    assert WholeNumber("0") == 0 by { assert "0"[..0] == ""; }
    assert FractionValue("5") == 0.5 by { assert "5"[1..] == ""; }
  }

  /** A weight of 0.05 is too light. */
  lemma WeightBelowMinimumExample()
    ensures WeightResult(Text("0.05")) == Err(PackageError(Weight, BelowMinimum))
  {
    assert DotIndex("0.05") == 1 by { assert "0.05"[1..] == ".05"; }
    assert "0.05"[..1] == "0" && "0.05"[1 + 1..] == "05";
    assert WholeNumber("0") == 0 by { assert "0"[..0] == ""; }
    assert FractionValue("05") == 0.05 by {
      assert "05"[1..] == "5";
      assert FractionValue("5") == 0.5 by { assert "5"[1..] == ""; }
    }
  }

  /** A weight of 1000.01 is too heavy. */
  lemma WeightAboveMaximumExample()
    ensures WeightResult(Text("1000.01")) == Err(PackageError(Weight, AboveMaximum))
  {
    ThousandPointOhOne();
  }

  lemma ThousandPointOhOne()
    ensures DecimalText("1000.01") && DecimalValue("1000.01") == 1000.01
  {
    var s := "1000.01";
    assert DotIndex(s) == 4 by {
      assert s[0] != '.' && s[1] != '.' && s[2] != '.' && s[3] != '.' && s[4] == '.';
    }
    assert s[..4] == "1000" && s[4 + 1..] == "01";
    ThousandValue();
    OneHundredth();
  }

  lemma OneHundredth()
    ensures FractionValue("01") == 0.01
  {
    assert "01"[1..] == "1";
    assert FractionValue("1") == 0.1 by { assert "1"[1..] == ""; }
  }

  lemma ThousandValue()
    ensures WholeNumber("1000") == 1000
  {
    assert "1000"[..3] == "100";
    assert "100"[..2] == "10";
    assert "10"[..1] == "1";
    assert "1"[..0] == "";
  }

  /** A weight of exactly 0.1 is allowed. */
  lemma WeightAtMinimumExample()
    ensures WeightResult(Text("0.1")) == Ok(0.1)
  {
    assert DotIndex("0.1") == 1 by { assert "0.1"[1..] == ".1"; }
    assert "0.1"[..1] == "0" && "0.1"[1 + 1..] == "1";
    assert WholeNumber("0") == 0 by { assert "0"[..0] == ""; }
    assert FractionValue("1") == 0.1 by { assert "1"[1..] == ""; }
  }

  /** An empty weight is reported as missing. */
  lemma WeightMissingExample()
    ensures WeightResult(Text("")) == Err(PackageError(Weight, Required))
  {
  }

  /** A zero dimension is refused; an empty one is simply absent. */
  lemma DimensionExamples()
    ensures DimensionResult(Length, Text("0")) == Err(PackageError(Length, NotPositive))
    ensures DimensionResult(Length, Text("")) == Ok(None)
    ensures DimensionResult(Height, Null) == Ok(None)
  {
    assert DotIndex("0") == 1 by { assert "0"[1..] == ""; }
    assert "0"[..1] == "0";
    assert WholeNumber("0") == 0 by { assert "0"[..0] == ""; }
    assert DecimalValue("0") == 0.0;
  }
}
