/** Amount normalisation (`InvoiceProcessor.clean_decimal`) and the
    two-decimal rendering used wherever an amount is shown. Amounts are
    integer cents. */
module Amounts {
  import opened Wrappers
  import opened Text

  /** The decimal literals modelled: sign? digits ('.' digits)?, with at
      least one digit in all. Exponents, NaN, Infinity and underscores are
      not modelled. */
  datatype Sign = Unsigned | Plus | Minus
  datatype Literal = Literal(sign: Sign, intDigits: string, point: bool, fracDigits: string)

  predicate WellFormed(lit: Literal) {
    && AllDigits(lit.intDigits)
    && AllDigits(lit.fracDigits)
    && |lit.intDigits| + |lit.fracDigits| >= 1
    && (!lit.point ==> lit.fracDigits == [])
  }

  function SignText(sign: Sign): string {
    match sign
    case Unsigned => ""
    case Plus => "+"
    case Minus => "-"
  }

  /** The text of a literal. */
  function Render(lit: Literal): string {
    SignText(lit.sign) + lit.intDigits + (if lit.point then "." + lit.fracDigits else "")
  }

  /** Length of the longest run of digits at the start of `s`. */
  function LeadingDigits(s: string): (n: nat)
    ensures n <= |s| && AllDigits(s[..n])
    ensures n < |s| ==> !IsDigit(s[n])
  {
    if s != [] && IsDigit(s[0]) then
      var n := 1 + LeadingDigits(s[1..]);
      assert s[..n] == [s[0]] + s[1..][..n - 1];
      n
    else 0
  }

  lemma {:induction false} LeadingDigitsOf(d: string, t: string)
    requires AllDigits(d)
    requires t == [] || !IsDigit(t[0])
    ensures LeadingDigits(d + t) == |d|
  {
    if d == [] {
      assert d + t == t;
    } else {
      assert (d + t)[0] == d[0];
      assert (d + t)[1..] == d[1..] + t;
      LeadingDigitsOf(d[1..], t);
    }
  }

  /** The optional sign at the start of `s`, and what follows it. */
  function SplitSign(s: string): (r: (Sign, string))
    ensures s == SignText(r.0) + r.1
  {
    if s != [] && s[0] == '-' then (Minus, s[1..])
    else if s != [] && s[0] == '+' then (Plus, s[1..])
    else (Unsigned, s)
  }

  /** The unsigned part of a literal: digits, then optionally '.' and digits. */
  function ParseUnsigned(sign: Sign, body: string): (r: Option<Literal>)
    ensures r.Some? ==> WellFormed(r.value) && Render(r.value) == SignText(sign) + body
  {
    var n := LeadingDigits(body);
    var rest := body[n..];
    assert body == body[..n] + rest;
    if rest == [] then
      if n > 0 then Some(Literal(sign, body[..n], false, [])) else None
    else if rest[0] == '.' && AllDigits(rest[1..]) && n + |rest| > 1 then
      assert rest == "." + rest[1..];
      Some(Literal(sign, body[..n], true, rest[1..]))
    else None
  }

  /** Python's `Decimal(s)` on the modelled grammar: None where it raises. */
  function ParseDecimal(s: string): (r: Option<Literal>)
    ensures r.Some? ==> WellFormed(r.value) && Render(r.value) == s
  {
    var (sign, body) := SplitSign(s);
    ParseUnsigned(sign, body)
  }

  /** Parsing is the inverse of rendering: together with the contract of
      ParseDecimal, ParseDecimal(s) == Some(lit) exactly when lit is well
      formed and s is its text. */
  lemma ParseRender(lit: Literal)
    requires WellFormed(lit)
    ensures ParseDecimal(Render(lit)) == Some(lit)
  {
    var tail := if lit.point then "." + lit.fracDigits else "";
    var body := lit.intDigits + tail;
    assert Render(lit) == SignText(lit.sign) + body;
    SplitSignOf(lit.sign, body);
    ParseUnsignedOf(lit);
  }

  lemma SplitSignOf(sign: Sign, body: string)
    requires body == [] || (body[0] != '-' && body[0] != '+')
    ensures SplitSign(SignText(sign) + body) == (sign, body)
  {
    match sign
    case Unsigned => assert SignText(sign) + body == body;
    case Plus => assert (SignText(sign) + body)[1..] == body;
    case Minus => assert (SignText(sign) + body)[1..] == body;
  }

  lemma ParseUnsignedOf(lit: Literal)
    requires WellFormed(lit)
    ensures var tail := if lit.point then "." + lit.fracDigits else "";
            var body := lit.intDigits + tail;
            (body == [] || (body[0] != '-' && body[0] != '+')) &&
            ParseUnsigned(lit.sign, body) == Some(lit)
  {
    var tail := if lit.point then "." + lit.fracDigits else "";
    var body := lit.intDigits + tail;
    LeadingDigitsOf(lit.intDigits, tail);
    assert body[..|lit.intDigits|] == lit.intDigits;
    assert body[|lit.intDigits|..] == tail;
    if lit.intDigits != [] {
      assert body[0] == lit.intDigits[0];
    }
  }

  /** Default context precision of Python's `decimal` module: `quantize`
      raises InvalidOperation when the result needs more digits than this. */
  const Precision: nat := 28

  /** floor(n / d + 1/2): the round-half-up quotient. */
  function RoundHalfUp(n: nat, d: nat): nat
    requires d > 0
  {
    (2 * n + d) / (2 * d)
  }

  /** `q` is n / d rounded to the nearest integer, ties going up:
      n/d - 1/2 < q <= n/d + 1/2. Exactly one natural number satisfies it. */
  predicate IsHalfUpQuotient(n: nat, d: nat, q: nat) {
    2 * n - d < 2 * d * q <= 2 * n + d
  }

  lemma RoundHalfUpCorrect(n: nat, d: nat)
    requires d > 0
    ensures IsHalfUpQuotient(n, d, RoundHalfUp(n, d))
  {
    var q := RoundHalfUp(n, d);
    var m := (2 * n + d) % (2 * d);
    assert 2 * d * q + m == 2 * n + d;
  }

  /** The exact value of a literal is DigitsValue(int ++ frac) / 10^|frac|;
      its magnitude in cents, rounded half up. */
  function Magnitude(lit: Literal): nat
    requires WellFormed(lit)
  {
    DigitsValueAppend(lit.intDigits, lit.fracDigits);
    RoundHalfUp(DigitsValue(lit.intDigits + lit.fracDigits) * 100, Pow10(|lit.fracDigits|))
  }

  /** `c` is the literal's value in cents, rounded half away from zero
      (ROUND_HALF_UP on the magnitude, the sign kept). */
  predicate IsRoundedCents(lit: Literal, c: int)
    requires WellFormed(lit)
  {
    DigitsValueAppend(lit.intDigits, lit.fracDigits);
    && IsHalfUpQuotient(DigitsValue(lit.intDigits + lit.fracDigits) * 100, Pow10(|lit.fracDigits|),
                        Abs(c))
    && (lit.sign == Minus ==> c <= 0)
    && (lit.sign != Minus ==> c >= 0)
  }

  /** `Decimal(lit).quantize(Decimal('0.01'), rounding=ROUND_HALF_UP)`;
      None where quantize raises because the result exceeds Precision digits. */
  function Quantize(lit: Literal): (r: Option<int>)
    requires WellFormed(lit)
    ensures r.Some? <==> Magnitude(lit) < Pow10(Precision)
  {
    var m := Magnitude(lit);
    if m >= Pow10(Precision) then None
    else
      var v: int := if lit.sign == Minus then -(m as int) else m;
      Some(v)
  }

  /** Quantizing rounds half away from zero to whole cents. */
  lemma QuantizeRounds(lit: Literal)
    requires WellFormed(lit)
    ensures Quantize(lit).Some? ==> IsRoundedCents(lit, Quantize(lit).value)
  {
    DigitsValueAppend(lit.intDigits, lit.fracDigits);
    RoundHalfUpCorrect(DigitsValue(lit.intDigits + lit.fracDigits) * 100, Pow10(|lit.fracDigits|));
  }

  /** The text `clean_decimal` hands to `Decimal`: stripped, every ',' made '.'. */
  function CleanText(s: string): string {
    ReplaceChar(Strip(s), ',', '.')
  }

  /** No comma survives the cleaning. */
  lemma CleanTextHasNoComma(s: string)
    ensures ',' !in CleanText(s)
  {
    ReplaceCharRemoves(Strip(s), ',', '.');
  }

  /** `clean_decimal`: a missing cell is 0.00; otherwise the cleaned text is
      parsed and rounded half up to cents; anything that raises is 0.00.
      The rounding itself is stated by CleanDecimalRounds. */
  function CleanDecimal(cell: Option<string>): (r: int)
    ensures cell.None? ==> r == 0
    ensures cell.Some? && ParseDecimal(CleanText(cell.value)).None? ==> r == 0
  {
    match cell
    case None => 0
    case Some(v) =>
      match ParseDecimal(CleanText(v))
      case None => 0
      case Some(lit) =>
        match Quantize(lit)
        case None => 0
        case Some(c) => c
  }

  /** A cell whose cleaned text is a decimal literal yields that literal's
      value rounded half away from zero to cents, or 0.00 when the rounded
      value needs more than Precision digits. */
  lemma CleanDecimalRounds(v: string)
    requires ParseDecimal(CleanText(v)).Some?
    ensures var lit := ParseDecimal(CleanText(v)).value;
            (Magnitude(lit) < Pow10(Precision) ==> IsRoundedCents(lit, CleanDecimal(Some(v)))) &&
            (Magnitude(lit) >= Pow10(Precision) ==> CleanDecimal(Some(v)) == 0)
  {
    QuantizeRounds(ParseDecimal(CleanText(v)).value);
  }

  /** The two digits of the cents part of `c`. */
  function CentsDigits(c: nat): (r: string)
    ensures |r| == 2 && AllDigits(r) && DigitsValue(r) == c % 100
  {
    var r := [DigitChar((c % 100) / 10), DigitChar(c % 10)];
    assert r[..1] == [r[0]] && [r[0]][..0] == [];
    assert DigitsValue(r[..1]) == DigitValue(r[0]);
    r
  }

  function Abs(c: int): nat {
    if c < 0 then -c else c
  }

  /** f"{amount:.2f}" for an amount with two fractional digits. */
  function FormatCents(c: int): (r: string)
    ensures |r| >= 4 && r[|r| - 3] == '.'
    ensures IsDigit(r[|r| - 2]) && IsDigit(r[|r| - 1])
    ensures r[0] == '-' <==> c < 0
  {
    var whole := NatToString(Abs(c) / 100);
    var r := (if c < 0 then "-" else "") + whole + "." + CentsDigits(Abs(c));
    assert c >= 0 ==> r[0] == whole[0];
    r
  }

  /** The literal FormatCents writes for `c`. */
  function FormatLiteral(c: int): (lit: Literal)
    ensures WellFormed(lit) && Render(lit) == FormatCents(c)
  {
    Literal(if c < 0 then Minus else Unsigned, NatToString(Abs(c) / 100), true, CentsDigits(Abs(c)))
  }

  /** A formatted amount has no whitespace at its ends. */
  lemma FormatCentsTrimmed(c: int)
    ensures Trimmed(FormatCents(c))
  {
    var s := FormatCents(c);
    var whole := NatToString(Abs(c) / 100);
    assert s[0] == '-' || s[0] == whole[0];
  }

  lemma FormatParses(c: int)
    ensures ParseDecimal(CleanText(FormatCents(c))) == Some(FormatLiteral(c))
  {
    var s := FormatCents(c);
    FormatCentsTrimmed(c);
    StripTrimmed(s);
    ReplaceCharAbsent(s, ',', '.');
    ParseRender(FormatLiteral(c));
  }

  lemma FormatMagnitude(c: int)
    ensures Magnitude(FormatLiteral(c)) == Abs(c)
  {
    var lit := FormatLiteral(c);
    DigitsValueAppend(lit.intDigits, lit.fracDigits);
    var v := DigitsValue(lit.intDigits + lit.fracDigits);
    assert Pow10(2) == 100;
    assert v == Abs(c);
    assert RoundHalfUp(v * 100, 100) == v;
  }

  /** Formatting then cleaning gives the amount back, for every amount
      small enough for the decimal context. */
  lemma CleanFormatRoundTrip(c: int)
    requires Abs(c) < Pow10(Precision)
    ensures CleanDecimal(Some(FormatCents(c))) == c
  {
    FormatParses(c);
    FormatMagnitude(c);
  }

  /** Thousands separators are not understood: "1,234.5" becomes "1.234.5",
      which Decimal rejects, so the amount degrades to 0.00. */
  lemma ThousandsSeparatorDegradesToZero()
    ensures CleanDecimal(Some("1,234.5")) == 0
  {
    var s := "1.234.5";
    assert StripLeft("1,234.5") == "1,234.5";
    assert StripRight("1,234.5") == "1,234.5";
    assert CleanText("1,234.5") == s;
    assert SplitSign(s) == (Unsigned, s);
    assert s == "1" + ".234.5";
    LeadingDigitsOf("1", ".234.5");
    assert !AllDigits(s[1..][1..]) by {
      assert s[1..][1..][3] == '.';
    }
    assert ParseDecimal(s) == None;
  }

  /** The cleaned value of a cell whose cleaned text is a representable literal. */
  lemma CleanDecimalOfLiteral(v: string, lit: Literal)
    requires WellFormed(lit) && CleanText(v) == Render(lit)
    requires Magnitude(lit) < Pow10(Precision)
    ensures CleanDecimal(Some(v)) == if lit.sign == Minus then -(Magnitude(lit) as int) else Magnitude(lit)
  {
    ParseRender(lit);
  }

  lemma MagnitudeOf(lit: Literal, digits: nat)
    requires WellFormed(lit)
    requires DigitsValue(lit.intDigits + lit.fracDigits) == digits
    ensures Magnitude(lit) == RoundHalfUp(digits * 100, Pow10(|lit.fracDigits|))
  {
  }

  /** A decimal comma is understood: " 1234,50 " is 1234.50. */
  lemma DecimalCommaAccepted()
    ensures CleanDecimal(Some(" 1234,50 ")) == 123450
  {
    var lit := Literal(Unsigned, "1234", true, "50");
    CommaExampleText(lit);
    CommaExampleMagnitude(lit);
    CleanDecimalOfLiteral(" 1234,50 ", lit);
  }

  lemma CommaExampleText(lit: Literal)
    requires lit == Literal(Unsigned, "1234", true, "50")
    ensures CleanText(" 1234,50 ") == Render(lit)
  {
    assert StripLeft(" 1234,50 ") == "1234,50 ";
    assert StripRight("1234,50 ") == "1234,50";
  }

  lemma CommaExampleMagnitude(lit: Literal)
    requires lit == Literal(Unsigned, "1234", true, "50")
    ensures WellFormed(lit) && Magnitude(lit) == 123450
  {
    assert lit.intDigits + lit.fracDigits == "123450";
    CommaExampleDigits();
    MagnitudeOf(lit, 123450);
    assert Pow10(2) == 100;
  }

  lemma CommaExampleDigits()
    ensures AllDigits("123450") && DigitsValue("123450") == 123450
  {
    assert NatToString(1234) == "1234";
    assert NatToString(50) == "50";
    DigitsValueAppend("1234", "50");
    assert "1234" + "50" == "123450";
    assert Pow10(2) == 100;
  }

  /** Ties are rounded away from zero: 2.675 is 2.68 ... */
  lemma HalfUpRoundsPositiveTieUp()
    ensures CleanDecimal(Some("2.675")) == 268
  {
    var a := Literal(Unsigned, "2", true, "675");
    TieExampleText(a, "2.675");
    TieExampleMagnitude(a);
    CleanDecimalOfLiteral("2.675", a);
  }

  /** ... and -2.675 is -2.68. */
  lemma HalfUpRoundsNegativeTieDown()
    ensures CleanDecimal(Some("-2.675")) == -268
  {
    var b := Literal(Minus, "2", true, "675");
    TieExampleText(b, "-2.675");
    TieExampleMagnitude(b);
    CleanDecimalOfLiteral("-2.675", b);
  }

  lemma TieExampleText(lit: Literal, v: string)
    requires WellFormed(lit) && v == Render(lit) && Trimmed(v) && ',' !in v
    ensures CleanText(v) == Render(lit)
  {
    StripTrimmed(v);
  }

  lemma TieExampleMagnitude(lit: Literal)
    requires lit.intDigits == "2" && lit.point && lit.fracDigits == "675"
    ensures WellFormed(lit) && Magnitude(lit) == 268
  {
    assert lit.intDigits + lit.fracDigits == "2675";
    TieExampleDigits();
    MagnitudeOf(lit, 2675);
    assert Pow10(3) == 1000;
  }

  lemma TieExampleDigits()
    ensures AllDigits("2675") && DigitsValue("2675") == 2675
  {
    assert NatToString(2675) == "2675";
  }
}
