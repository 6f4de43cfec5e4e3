/** Cluster resource quantities: the text used for requests, limits and usage
    metrics, and the canonical number it denotes (cores for CPU, MiB for memory).

    Parsing lower-cases the text, strips one of the suffixes `m`, `mi`, `gi`
    (checked in that order), converts the rest as a floating-point literal and
    scales it.  A value that is already numeric passes through unchanged. */
module QuantityCodec {

  datatype Option<T> = None | Some(value: T)

  /** A field value as it arrives: already a number, or quantity text. */
  datatype RawValue = Number(number: real) | Text(text: string)

  /** The float conversion refused this mantissa text (after lower-casing and
      suffix removal), as the conversion error quotes it. */
  datatype ParseError = InvalidNumber(mantissa: string)

  datatype Result<T> = Ok(value: T) | Err(error: ParseError)

  /** The suffixes the parser recognises; `NoSuffix` means the text is a bare number. */
  datatype Suffix = Milli | Mebi | Gibi | NoSuffix

  /* ---------------- lower-casing ---------------- */

  predicate IsUpper(c: char) { 'A' <= c <= 'Z' }

  function LowerChar(c: char): (r: char)
    ensures !IsUpper(r)
    ensures !IsUpper(c) ==> r == c
  {
    if IsUpper(c) then (c as int + 32) as char else c
  }

  /** ASCII lower-casing, character by character. */
  function Lower(s: string): (r: string)
    ensures |r| == |s|
    ensures forall i | 0 <= i < |s| :: r[i] == LowerChar(s[i])
  {
    seq(|s|, i requires 0 <= i < |s| => LowerChar(s[i]))
  }

  lemma LowerAppend(a: string, b: string)
    ensures Lower(a + b) == Lower(a) + Lower(b)
  {
    assert forall i | 0 <= i < |a + b| :: Lower(a + b)[i] == (Lower(a) + Lower(b))[i];
  }

  lemma LowerKeepsNonUpper(s: string)
    requires forall i | 0 <= i < |s| :: !IsUpper(s[i])
    ensures Lower(s) == s
  {
  }

  /* ---------------- decimal digits ---------------- */

  predicate IsDigit(c: char) { '0' <= c <= '9' }

  predicate AllDigits(s: string) { forall i | 0 <= i < |s| :: IsDigit(s[i]) }

  function DigitValue(c: char): nat
    requires IsDigit(c)
  {
    c as int - '0' as int
  }

  /** The natural number a digit string spells, most significant digit first. */
  function DigitsValue(s: string): nat
    requires AllDigits(s)
    decreases |s|
  {
    if s == [] then 0 else 10 * DigitsValue(s[..|s| - 1]) + DigitValue(s[|s| - 1])
  }

  function Pow10(n: nat): (r: nat)
    ensures r >= 1
  {
    if n == 0 then 1 else 10 * Pow10(n - 1)
  }

  /** The first position of `c` in `s`, if any. */
  function Find(s: string, c: char): (r: Option<nat>)
    ensures r.None? <==> c !in s
    ensures r.Some? ==> r.value < |s| && s[r.value] == c
    ensures r.Some? ==> forall j | 0 <= j < r.value :: s[j] != c
  {
    if s == [] then None
    else if s[0] == c then Some(0)
    else
      assert s == [s[0]] + s[1..];
      match Find(s[1..], c)
      case None => None
      case Some(k) => Some(k + 1)
  }

  lemma FindFirst(a: string, c: char, b: string)
    requires c !in a
    ensures Find(a + [c] + b, c) == Some(|a|)
  {
    var s := a + [c] + b;
    assert s[|a|] == c;
    assert s[..|a|] == a;
    assert s[..|a| + 1] == a + [c];
  }

  /* ---------------- the floating-point literal ---------------- */

  /** Digits with at most one '.', and at least one digit in all. */
  function ParseUnsigned(s: string): Option<real>
  {
    match Find(s, '.')
    case None =>
      if s != [] && AllDigits(s) then Some(DigitsValue(s) as real) else None
    case Some(k) =>
      var whole, frac := s[..k], s[k + 1..];
      if AllDigits(whole) && AllDigits(frac) && |whole| + |frac| > 0
      then Some(DigitsValue(whole) as real + OverPow10(DigitsValue(frac) as real, |frac|))
      else None
  }

  /** An unsigned decimal with an optional leading '+' or '-'. */
  function ParseSigned(s: string): Option<real>
  {
    if s != [] && s[0] == '-' then
      match ParseUnsigned(s[1..])
      case Some(x) => Some(-x)
      case None => None
    else if s != [] && s[0] == '+' then ParseUnsigned(s[1..])
    else ParseUnsigned(s)
  }

  /** A decimal exponent: an optional sign and at least one digit. */
  function ParseExponent(s: string): Option<int>
  {
    var negative := s != [] && s[0] == '-';
    var digits := if s != [] && (s[0] == '-' || s[0] == '+') then s[1..] else s;
    if digits != [] && AllDigits(digits)
    then Some(if negative then -(DigitsValue(digits) as int) else DigitsValue(digits) as int)
    else None
  }

  /** `x · 10^n`, one factor of ten at a time. */
  function TimesPow10(x: real, n: nat): real
  {
    if n == 0 then x else 10.0 * TimesPow10(x, n - 1)
  }

  /** `x / 10^n`, one factor of ten at a time. */
  function OverPow10(x: real, n: nat): real
  {
    if n == 0 then x else OverPow10(x, n - 1) / 10.0
  }

  /** The digit-by-digit scalings are multiplication and division by 10^n. */
  lemma {:induction false} PowersOfTen(x: real, n: nat)
    ensures TimesPow10(x, n) == x * Pow10(n) as real
    ensures OverPow10(x, n) == x / Pow10(n) as real
  {
    if n > 0 {
      PowersOfTen(x, n - 1);
      var p := Pow10(n - 1) as real;
      assert Pow10(n) as real == 10.0 * p;
      assert 10.0 * (x * p) == x * (10.0 * p);
      assert (x / p) / 10.0 == x / (10.0 * p);
    }
  }

  function ScaleByPow10(x: real, e: int): real
  {
    if e >= 0 then TimesPow10(x, e) else OverPow10(x, -e)
  }

  /** The float conversion applied to lower-case text: a signed decimal,
      optionally followed by `e` and an exponent. */
  function ParseFloat(s: string): Option<real>
  {
    match Find(s, 'e')
    case None => ParseSigned(s)
    case Some(k) =>
      match (ParseSigned(s[..k]), ParseExponent(s[k + 1..]))
      case (Some(m), Some(e)) => Some(ScaleByPow10(m, e))
      case _ => None
  }

  /** Whatever the conversion accepts ends in a digit or in the decimal point. */
  lemma ParsedTextEnd(s: string)
    requires ParseFloat(s).Some?
    ensures s != [] && (IsDigit(s[|s| - 1]) || s[|s| - 1] == '.')
  {
    match Find(s, 'e')
    case None => SignedTextEnd(s);
    case Some(k) =>
      var e := s[k + 1..];
      ExponentTextEnd(e);
      assert e[|e| - 1] == s[|s| - 1];
  }

  lemma ExponentTextEnd(e: string)
    requires ParseExponent(e).Some?
    ensures e != [] && IsDigit(e[|e| - 1])
  {
    var digits := if e != [] && (e[0] == '-' || e[0] == '+') then e[1..] else e;
    assert digits[|digits| - 1] == e[|e| - 1];
  }

  lemma SignedTextEnd(s: string)
    requires ParseSigned(s).Some?
    ensures s != [] && (IsDigit(s[|s| - 1]) || s[|s| - 1] == '.')
  {
    if s != [] && (s[0] == '-' || s[0] == '+') {
      UnsignedTextEnd(s[1..]);
    } else {
      UnsignedTextEnd(s);
    }
  }

  lemma UnsignedTextEnd(s: string)
    requires ParseUnsigned(s).Some?
    ensures s != [] && (IsDigit(s[|s| - 1]) || s[|s| - 1] == '.')
  {
    match Find(s, '.')
    case None =>
    case Some(k) =>
      var frac := s[k + 1..];
      if frac != [] {
        assert frac[|frac| - 1] == s[|s| - 1];
      }
  }

  /* ---------------- suffixes ---------------- */

  /** The suffix as a caller conventionally writes it. */
  function SuffixText(u: Suffix): string
  {
    match u
    case Milli => "m"
    case Mebi => "Mi"
    case Gibi => "Gi"
    case NoSuffix => ""
  }

  /** Splits lower-case text into suffix and mantissa, testing `m` first, then
      `mi`, then `gi`. */
  function SplitSuffix(v: string): (Suffix, string)
  {
    if |v| >= 1 && v[|v| - 1] == 'm' then (Milli, v[..|v| - 1])
    else if |v| >= 2 && v[|v| - 2..] == "mi" then (Mebi, v[..|v| - 2])
    else if |v| >= 2 && v[|v| - 2..] == "gi" then (Gibi, v[..|v| - 2])
    else (NoSuffix, v)
  }

  /** Splitting loses nothing: the text is the mantissa followed by the
      lower-case spelling of the suffix found. */
  lemma SplitSuffixDecomposes(v: string)
    ensures v == SplitSuffix(v).1 + Lower(SuffixText(SplitSuffix(v).0))
  {
    assert Lower("m") == "m" && Lower("Mi") == "mi" && Lower("Gi") == "gi" && Lower("") == "";
  }

  /** The value a mantissa denotes once its suffix is applied. */
  function ApplySuffix(u: Suffix, x: real): real
  {
    match u
    case Milli => x / 1000.0
    case Mebi => x
    case Gibi => x * 1024.0
    case NoSuffix => x
  }

  /** Canonical value of a raw field: numbers pass through; text is lower-cased,
      split into mantissa and suffix, converted and scaled. */
  function Parse(raw: RawValue): (r: Result<real>)
    ensures raw.Number? ==> r == Ok(raw.number)
    ensures raw.Text? && r.Err? ==> ParseFloat(r.error.mantissa).None?
  {
    match raw
    case Number(x) => Ok(x)
    case Text(s) =>
      var (u, mantissa) := SplitSuffix(Lower(s));
      match ParseFloat(mantissa)
      case Some(x) => Ok(ApplySuffix(u, x))
      case None => Err(InvalidNumber(mantissa))
  }

  /** Upper and lower case are indistinguishable to the parser, error text included. */
  lemma {:induction false} ParseIgnoresCase(s: string, t: string)
    requires Lower(s) == Lower(t)
    ensures Parse(Text(s)) == Parse(Text(t))
  {
  }

  /** The suffix test never mistakes a `mi` or `gi` quantity for a milli one:
      after any accepted mantissa each suffix is recognised as itself and the
      mantissa is recovered intact. */
  lemma {:induction false} SplitSuffixRecovers(m: string, u: Suffix)
    requires m != [] && (IsDigit(m[|m| - 1]) || m[|m| - 1] == '.')
    ensures SplitSuffix(m + Lower(SuffixText(u))) == (u, m)
  {
    var v := m + Lower(SuffixText(u));
    match u
    case Milli =>
      assert v[..|v| - 1] == m;
    case Mebi =>
      assert Lower("Mi") == "mi";
      assert v[|v| - 2..] == "mi";
      assert v[..|v| - 2] == m;
    case Gibi =>
      assert Lower("Gi") == "gi";
      assert v[|v| - 2..] == "gi";
      assert v[..|v| - 2] == m;
    case NoSuffix =>
      assert v == m;
      if |v| >= 2 {
        assert v[|v| - 2..][1] == m[|m| - 1];
      }
  }

  /** Suffix semantics: a mantissa the conversion accepts, followed by `m`,
      `Mi`, `Gi` or nothing (in any case), denotes the mantissa divided by
      1000, unchanged, multiplied by 1024, or unchanged. */
  lemma {:induction false} ParseSuffixed(m: string, u: Suffix, x: real)
    requires ParseFloat(Lower(m)) == Some(x)
    ensures Parse(Text(m + SuffixText(u))) == Ok(ApplySuffix(u, x))
    ensures u == Milli ==> Parse(Text(m + SuffixText(u))) == Ok(x / 1000.0)
    ensures u == Gibi ==> Parse(Text(m + SuffixText(u))) == Ok(x * 1024.0)
    ensures u in {Mebi, NoSuffix} ==> Parse(Text(m + SuffixText(u))) == Ok(x)
  {
    LowerAppend(m, SuffixText(u));
    ParsedTextEnd(Lower(m));
    SplitSuffixRecovers(Lower(m), u);
  }

  /** Any other trailing letter (`Ki`, `Ti`, `k`, ...) leaves a mantissa the
      conversion rejects, so the whole parse fails. */
  lemma {:induction false} UnknownSuffixFails(s: string)
    requires var v := Lower(s);
      v != [] && !IsDigit(v[|v| - 1]) && v[|v| - 1] != '.' && v[|v| - 1] != 'm'
      && !(|v| >= 2 && (v[|v| - 2..] == "mi" || v[|v| - 2..] == "gi"))
    ensures Parse(Text(s)).Err?
    ensures Parse(Text(s)).error.mantissa == Lower(s)
  {
    var v := Lower(s);
    assert SplitSuffix(v) == (NoSuffix, v);
    if ParseFloat(v).Some? {
      ParsedTextEnd(v);
    }
  }

  /** Text converts only when it is an accepted mantissa followed by one of
      the recognised suffixes, in any case. */
  lemma {:induction false} AcceptedIsQuantity(s: string)
    requires Parse(Text(s)).Ok?
    ensures exists m: string, u: Suffix :: Lower(s) == m + Lower(SuffixText(u)) && ParseFloat(m).Some?
  {
    var (u, m) := SplitSuffix(Lower(s));
    SplitSuffixDecomposes(Lower(s));
    assert ParseFloat(m).Some?;
  }

  /** A mantissa the float conversion rejects and that ends in a digit or a
      point fails whatever supported suffix follows it, and the error names
      the lower-cased mantissa. */
  lemma {:induction false} MalformedMantissaFails(m: string, u: Suffix)
    requires ParseFloat(Lower(m)).None?
    requires m != [] && (IsDigit(m[|m| - 1]) || m[|m| - 1] == '.')
    ensures Parse(Text(m + SuffixText(u))) == Err(InvalidNumber(Lower(m)))
  {
    LowerAppend(m, SuffixText(u));
    SplitSuffixRecovers(Lower(m), u);
  }

  /** "1.2.3m" has two decimal points too many to be a number. */
  lemma {:induction false} TwoPointsExample()
    ensures Parse(Text("1.2.3m")) == Err(InvalidNumber("1.2.3"))
  {
    var m := "1.2.3";
    assert Lower(m) == m;
    assert Find(m, 'e').None?;
    assert Find(m, '.') == Some(1);
    assert m[2..][1] == '.';
    assert ParseFloat(m).None?;
    MalformedMantissaFails(m, Milli);
    assert m + SuffixText(Milli) == "1.2.3m";
  }

  /* ---------------- rendering ---------------- */

  /** A decimal number `±(whole + fraction / 10^places)`. */
  datatype Decimal = Decimal(negative: bool, whole: nat, fraction: nat, places: nat)

  predicate WellFormed(d: Decimal) { d.fraction < Pow10(d.places) }

  function DecimalValue(d: Decimal): real
  {
    if d.negative then -Magnitude(d) else Magnitude(d)
  }

  function DigitChar(k: nat): (c: char)
    requires k < 10
    ensures IsDigit(c) && DigitValue(c) == k
  {
    ('0' as int + k) as char
  }

  /** The shortest decimal spelling of `n`. */
  function NatToString(n: nat): (r: string)
    ensures r != [] && AllDigits(r)
    ensures DigitsValue(r) == n
    decreases n
  {
    if n < 10 then [DigitChar(n)]
    else
      var r := NatToString(n / 10) + [DigitChar(n % 10)];
      assert r[..|r| - 1] == NatToString(n / 10);
      r
  }

  lemma {:induction false} NatToStringLength(n: nat, k: nat)
    requires k >= 1 && n < Pow10(k)
    ensures |NatToString(n)| <= k
    decreases n
  {
    if n >= 10 {
      assert n / 10 < Pow10(k - 1);
      NatToStringLength(n / 10, k - 1);
    }
  }

  function Zeros(n: nat): (r: string)
    ensures |r| == n && AllDigits(r)
  {
    if n == 0 then [] else Zeros(n - 1) + ['0']
  }

  lemma {:induction false} LeadingZerosValue(n: nat, s: string)
    requires AllDigits(s)
    ensures AllDigits(Zeros(n) + s)
    ensures DigitsValue(Zeros(n) + s) == DigitsValue(s)
    decreases |s|
  {
    var z := Zeros(n) + s;
    if s == [] {
      assert z == Zeros(n);
      ZerosValue(n);
    } else {
      var p := s[..|s| - 1];
      LeadingZerosValue(n, p);
      assert z[..|z| - 1] == Zeros(n) + p;
    }
  }

  lemma {:induction false} ZerosValue(n: nat)
    ensures DigitsValue(Zeros(n)) == 0
  {
    if n > 0 {
      var z := Zeros(n);
      assert z[..|z| - 1] == Zeros(n - 1);
      ZerosValue(n - 1);
    }
  }

  /** `n` written with exactly `k` digits, padded with leading zeros. */
  function PaddedDigits(n: nat, k: nat): (r: string)
    requires k >= 1 && n < Pow10(k)
    ensures |r| == k && AllDigits(r)
    ensures DigitsValue(r) == n
  {
    NatToStringLength(n, k);
    var digits := NatToString(n);
    LeadingZerosValue(k - |digits|, digits);
    Zeros(k - |digits|) + digits
  }

  lemma DigitsAreNumeral(s: string)
    requires AllDigits(s)
    ensures '.' !in s && 'e' !in s && '-' !in s
    ensures forall i | 0 <= i < |s| :: !IsUpper(s[i])
  {
  }

  function Magnitude(d: Decimal): real
  {
    d.whole as real + OverPow10(d.fraction as real, d.places)
  }

  /** The unsigned part of the spelling: whole digits, then `.` and exactly
      `places` fraction digits when there are any places. */
  function RenderMagnitude(d: Decimal): string
    requires WellFormed(d)
  {
    if d.places == 0 then NatToString(d.whole)
    else NatToString(d.whole) + "." + PaddedDigits(d.fraction, d.places)
  }

  /** The plain decimal spelling of `d`. */
  function Render(d: Decimal): string
    requires WellFormed(d)
  {
    if d.negative then "-" + RenderMagnitude(d) else RenderMagnitude(d)
  }

  /** The quantity text for `d` with suffix `u`: `"1.5"`, `"250m"`, `"512Mi"`, `"2Gi"`. */
  function Format(d: Decimal, u: Suffix): string
    requires WellFormed(d)
  {
    Render(d) + SuffixText(u)
  }

  lemma {:induction false} WholeMagnitudeValue(d: Decimal)
    requires WellFormed(d) && d.places == 0
    ensures ParseUnsigned(RenderMagnitude(d)) == Some(Magnitude(d))
  {
    var w := NatToString(d.whole);
    assert RenderMagnitude(d) == w;
    DigitsAreNumeral(w);
    assert Find(w, '.') == None;
    assert d.fraction == 0;
  }

  /** Whole digits, a point and fraction digits convert to whole + fraction / 10^|fraction|. */
  lemma {:induction false} PointedDigitsValue(w: string, f: string)
    requires AllDigits(w) && AllDigits(f) && w != []
    ensures ParseUnsigned(w + ['.'] + f) == Some(DigitsValue(w) as real + OverPow10(DigitsValue(f) as real, |f|))
  {
    var s := w + ['.'] + f;
    DigitsAreNumeral(w);
    FindFirst(w, '.', f);
    assert s[..|w|] == w;
    assert s[|w| + 1..] == f;
  }

  lemma {:induction false} FractionMagnitudeValue(d: Decimal)
    requires WellFormed(d) && d.places > 0
    ensures ParseUnsigned(RenderMagnitude(d)) == Some(Magnitude(d))
  {
    var w := NatToString(d.whole);
    var f := PaddedDigits(d.fraction, d.places);
    assert RenderMagnitude(d) == w + ['.'] + f;
    PointedDigitsValue(w, f);
  }

  /** Digits, decimal points and minus signs only. */
  predicate NumeralChars(s: string)
  {
    forall i | 0 <= i < |s| :: IsDigit(s[i]) || s[i] == '.' || s[i] == '-'
  }

  lemma NumeralCharsConcat(a: string, b: string)
    requires NumeralChars(a) && NumeralChars(b)
    ensures NumeralChars(a + b)
  {
    forall i | 0 <= i < |a + b|
      ensures IsDigit((a + b)[i]) || (a + b)[i] == '.' || (a + b)[i] == '-'
    {
      if i >= |a| {
        assert (a + b)[i] == b[i - |a|];
      }
    }
  }

  lemma NumeralCharsAreLower(s: string)
    requires NumeralChars(s)
    ensures 'e' !in s && Lower(s) == s
  {
    LowerKeepsNonUpper(s);
  }

  lemma {:induction false} RenderMagnitudeChars(d: Decimal)
    requires WellFormed(d)
    ensures var body := RenderMagnitude(d);
      body != [] && IsDigit(body[0]) && NumeralChars(body)
  {
    var w := NatToString(d.whole);
    assert NumeralChars(w);
    if d.places > 0 {
      var f := PaddedDigits(d.fraction, d.places);
      assert NumeralChars(f);
      assert NumeralChars(".");
      NumeralCharsConcat(".", f);
      NumeralCharsConcat(w, "." + f);
      assert RenderMagnitude(d) == w + ("." + f);
    } else {
      assert RenderMagnitude(d) == w;
    }
  }

  /** The rendered text has no upper-case letter and no exponent marker. */
  lemma {:induction false} RenderIsLower(d: Decimal)
    requires WellFormed(d)
    ensures Lower(Render(d)) == Render(d) && 'e' !in Render(d)
  {
    RenderMagnitudeChars(d);
    if d.negative {
      assert NumeralChars("-");
      NumeralCharsConcat("-", RenderMagnitude(d));
      assert Render(d) == "-" + RenderMagnitude(d);
    } else {
      assert Render(d) == RenderMagnitude(d);
    }
    NumeralCharsAreLower(Render(d));
  }

  /** A leading minus negates what the rest converts to; text that starts
      with a digit converts as an unsigned decimal. */
  lemma {:induction false} SignedText(negative: bool, t: string, x: real)
    requires ParseUnsigned(t) == Some(x) && t != [] && IsDigit(t[0])
    ensures ParseSigned(if negative then "-" + t else t) == Some(if negative then -x else x)
  {
    if negative {
      assert ("-" + t)[0] == '-' && ("-" + t)[1..] == t;
    }
  }

  /** The rendered text converts to the decimal's value. */
  lemma {:induction false} RenderValue(d: Decimal)
    requires WellFormed(d)
    ensures ParseFloat(Render(d)) == Some(DecimalValue(d))
  {
    RenderMagnitudeChars(d);
    RenderIsLower(d);
    if d.places == 0 {
      WholeMagnitudeValue(d);
    } else {
      FractionMagnitudeValue(d);
    }
    SignedText(d.negative, RenderMagnitude(d), Magnitude(d));
    assert Find(Render(d), 'e') == None;
  }

  /** Rendering and then converting gives back the decimal's value. */
  lemma {:induction false} RenderRoundTrip(d: Decimal)
    requires WellFormed(d)
    ensures Lower(Render(d)) == Render(d)
    ensures ParseFloat(Render(d)) == Some(DecimalValue(d))
  {
    RenderIsLower(d);
    RenderValue(d);
  }

  /** Codec round trip: every formatted quantity parses back to the value of
      its decimal with the suffix's scale applied. */
  lemma {:induction false} FormatRoundTrip(d: Decimal, u: Suffix)
    requires WellFormed(d)
    ensures Parse(Text(Format(d, u))) == Ok(ApplySuffix(u, DecimalValue(d)))
  {
    RenderRoundTrip(d);
    ParseSuffixed(Render(d), u, DecimalValue(d));
  }

  lemma WholeDecimalValue(d: Decimal)
    requires !d.negative && d.fraction == 0
    ensures DecimalValue(d) == d.whole as real
  {
    PowersOfTen(0.0, d.places);
  }

  /** "100m" is a tenth of a core. */
  lemma {:induction false} MilliExample()
    ensures Parse(Text("100m")) == Ok(0.1)
  {
    var d := Decimal(false, 100, 0, 0);
    assert NatToString(10) == "10";
    assert NatToString(100) == "100";
    assert Render(d) == "100";
    assert Format(d, Milli) == "100m";
    WholeDecimalValue(d);
    FormatRoundTrip(d, Milli);
  }

  /** "512Mi" is 512 MiB. */
  lemma {:induction false} MebiExample()
    ensures Parse(Text("512Mi")) == Ok(512.0)
  {
    var d := Decimal(false, 512, 0, 0);
    assert NatToString(51) == "51";
    assert NatToString(512) == "512";
    assert Render(d) == "512";
    assert Format(d, Mebi) == "512Mi";
    WholeDecimalValue(d);
    FormatRoundTrip(d, Mebi);
  }

  /** "1Gi" is 1024 MiB. */
  lemma {:induction false} GibiExample()
    ensures Parse(Text("1Gi")) == Ok(1024.0)
  {
    var d := Decimal(false, 1, 0, 0);
    assert Format(d, Gibi) == "1Gi";
    WholeDecimalValue(d);
    FormatRoundTrip(d, Gibi);
  }

  /** "1Ki" is rejected: `ki` is not a recognised suffix. */
  lemma {:induction false} KibiExample()
    ensures Parse(Text("1Ki")) == Err(InvalidNumber("1ki"))
  {
    assert Lower("1Ki") == "1ki";
    UnknownSuffixFails("1Ki");
  }

  /** "100M" is read as 100 milli (0.1), not as 100 mega: lower-casing erases
      the difference. */
  lemma {:induction false} UpperCaseMExample()
    ensures Parse(Text("100M")) == Ok(0.1)
  {
    assert Lower("100M") == Lower("100m");
    ParseIgnoresCase("100M", "100m");
    MilliExample();
  }
}
