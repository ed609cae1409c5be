/** Python's `float(str)`: the literals it accepts (ASCII digits only) and the exact value
    of the plain decimals among them. */
module PyFloat {
  import opened Chars
  import opened Strings

  /** The result of a conversion. `Exact(x)` is the number `x` (a rational; the rounding to
      a binary double is not modelled). `FloatOf(t)` is `float(t)` for a literal Python accepts
      that is not a plain decimal, such as "-5", "1e3", "1_000", "inf" or "NaN": its value is
      left unspecified. */
  datatype Money = Exact(amount: real) | FloatOf(literal: string)

  /** The whitespace `float()` ignores around its argument: ASCII tab to carriage return and
      space, and every non-ASCII character `str.isspace` accepts (unlike `strip()`, not the
      ASCII separators U+001C..U+001F). */
  predicate IsFloatSpace(c: char) {
    IsSpace(c) && !('\U{001C}' <= c <= '\U{001F}')
  }

  /** ASCII-only lower-casing, the comparison `float()` uses for "inf" and "nan". */
  function AsciiLowerChar(c: char): (r: char)
    ensures r == c || 'A' <= c <= 'Z'
  {
    if 'A' <= c <= 'Z' then (c as int + 32) as char else c
  }

  /** The state of a left-to-right scan of the float grammar
      `ws* [sign] (digitpart ["." [digitpart]] | "." digitpart) [("e"|"E") [sign] digitpart] ws*`
      (or `ws* [sign] ("inf" | "infinity" | "nan") ws*`, ignoring case), where
      `digitpart = digit (["_"] digit)*`. */
  datatype Scan =
    | Lead                 // leading whitespace
    | Signed               // after the sign
    | Whole                // after a digit of the integer part
    | WholeSep             // after an '_' of the integer part
    | BarePoint            // a '.' with no integer digits before it
    | Point                // a '.' after integer digits
    | Fraction             // after a fraction digit
    | FractionSep          // after an '_' of the fraction
    | ExpMark              // after 'e' or 'E'
    | ExpSign              // after the exponent's sign
    | ExpDigits            // after an exponent digit
    | ExpSep               // after an '_' of the exponent
    | Spell(seen: string)  // a lower-cased prefix of "infinity" or "nan"
    | Trail                // trailing whitespace
    | Reject

  predicate IsSign(c: char) {
    c == '+' || c == '-'
  }

  predicate IsWord(w: string) {
    w == "inf" || w == "infinity" || w == "nan"
  }

  /** Extends a spelled prefix by one letter. */
  function SpellStep(seen: string, c: char): Scan {
    var next := seen + [AsciiLowerChar(c)];
    if StartsWith("infinity", next) || StartsWith("nan", next) then Spell(next) else Reject
  }

  /** A letter that continues the spelling of "nan" is read as such. */
  lemma SpellsNan(seen: string, c: char)
    requires StartsWith("nan", seen + [AsciiLowerChar(c)])
    ensures SpellStep(seen, c) == Spell(seen + [AsciiLowerChar(c)])
  {
  }

  /** A letter that continues no word rejects the scan. */
  lemma SpellsNothing(seen: string, c: char)
    requires !StartsWith("nan", seen + [AsciiLowerChar(c)])
    requires !StartsWith("infinity", seen + [AsciiLowerChar(c)])
    ensures SpellStep(seen, c) == Reject
  {
  }

  /** The first character of the number itself. */
  function Begin(c: char): Scan {
    if IsDigit(c) then Whole else if c == '.' then BarePoint else SpellStep("", c)
  }

  function Step(st: Scan, c: char): Scan {
    match st
    case Lead => if IsFloatSpace(c) then Lead else if IsSign(c) then Signed else Begin(c)
    case Signed => Begin(c)
    case Whole =>
      if IsDigit(c) then Whole else if c == '_' then WholeSep else if c == '.' then Point
      else if c == 'e' || c == 'E' then ExpMark else if IsFloatSpace(c) then Trail else Reject
    case WholeSep => if IsDigit(c) then Whole else Reject
    case BarePoint => if IsDigit(c) then Fraction else Reject
    case Point =>
      if IsDigit(c) then Fraction else if c == 'e' || c == 'E' then ExpMark
      else if IsFloatSpace(c) then Trail else Reject
    case Fraction =>
      if IsDigit(c) then Fraction else if c == '_' then FractionSep
      else if c == 'e' || c == 'E' then ExpMark else if IsFloatSpace(c) then Trail else Reject
    case FractionSep => if IsDigit(c) then Fraction else Reject
    case ExpMark => if IsSign(c) then ExpSign else if IsDigit(c) then ExpDigits else Reject
    case ExpSign => if IsDigit(c) then ExpDigits else Reject
    case ExpDigits =>
      if IsDigit(c) then ExpDigits else if c == '_' then ExpSep
      else if IsFloatSpace(c) then Trail else Reject
    case ExpSep => if IsDigit(c) then ExpDigits else Reject
    case Spell(seen) => if IsFloatSpace(c) && IsWord(seen) then Trail else SpellStep(seen, c)
    case Trail => if IsFloatSpace(c) then Trail else Reject
    case Reject => Reject
  }

  /** The states in which the literal may end. */
  predicate IsFinal(st: Scan) {
    st.Whole? || st.Point? || st.Fraction? || st.ExpDigits? || st.Trail?
    || (st.Spell? && IsWord(st.seen))
  }

  /** The rest of the text `s` completes a literal from state `st`. */
  predicate Accepts(st: Scan, s: string)
    decreases |s|
  {
    if |s| == 0 then IsFinal(st) else Accepts(Step(st, s[0]), s[1..])
  }

  /** The strings `float()` accepts (with ASCII digits). */
  predicate IsFloatLiteral(t: string) {
    Accepts(Lead, t)
  }

  /** Digits, at most one '.', and at least one digit: "12", "12.5", "12.", ".5". */
  predicate IsPlainDecimal(t: string) {
    var k := IndexOf(t, '.');
    AllDigits(t[..k]) && AllDigits(t[k + (if k < |t| then 1 else 0)..]) && |t| > (if k < |t| then 1 else 0)
  }

  lemma QuotientBelowOne(n: nat, d: nat)
    requires n < d
    ensures 0.0 <= n as real / d as real < 1.0
  {
    var q := n as real / d as real;
    assert q * d as real == n as real;
  }

  /** The value of the digits after a decimal point: "05" is 0.05. */
  function FractionValue(f: string): (x: real)
    requires AllDigits(f)
    ensures 0.0 <= x < 1.0
  {
    DigitsBelowPow10(f);
    QuotientBelowOne(DigitsValue(f), Pow10(|f|));
    DigitsValue(f) as real / Pow10(|f|) as real
  }

  /** The exact value of a plain decimal. */
  function PlainDecimalValue(t: string): (x: real)
    requires IsPlainDecimal(t)
    ensures x >= 0.0
  {
    var k := IndexOf(t, '.');
    if k == |t| then DigitsValue(t) as real else DigitsValue(t[..k]) as real + FractionValue(t[k + 1..])
  }

  /** `float(t)`: the exact value of a plain decimal, an unspecified value for any other
      literal Python accepts, and 0.0 (the `except ValueError` branch) for the rest. */
  function FloatValue(t: string): (m: Money)
    ensures !IsFloatLiteral(t) ==> m == Exact(0.0)
    ensures m.FloatOf? ==> m.literal == t && IsFloatLiteral(t)
    ensures m.Exact? ==> m.amount >= 0.0
  {
    if IsPlainDecimal(t) then
      PlainDecimalIsFloatLiteral(t);
      Exact(PlainDecimalValue(t))
    else if IsFloatLiteral(t) then FloatOf(t)
    else Exact(0.0)
  }

  /** Nothing completes a rejected scan. */
  lemma {:induction false} RejectIsFinal(s: string)
    ensures !Accepts(Reject, s)
    decreases |s|
  {
    if |s| > 0 {
      RejectIsFinal(s[1..]);
    }
  }

  /** How many '.' a scan in state `st` may still read. */
  function DotsLeft(st: Scan): nat {
    if st.Lead? || st.Signed? || st.Whole? || st.WholeSep? then 1 else 0
  }

  /** No spelled word has a '.' in it. */
  lemma SpellRejectsDot(seen: string)
    ensures SpellStep(seen, '.') == Reject
  {
    var next := seen + ['.'];
    StartsWithIsPrefix("infinity", next);
    StartsWithIsPrefix("nan", next);
    assert next[|next| - 1] == '.';
    assert '.' !in "infinity" && '.' !in "nan";
  }

  /** No step adds to the dots left, and reading a '.' uses one up. */
  lemma StepDots(st: Scan, c: char)
    ensures Step(st, c).Reject? || DotsLeft(Step(st, c)) + (if c == '.' then 1 else 0) <= DotsLeft(st)
  {
    if st.Spell? && c == '.' {
      SpellRejectsDot(st.seen);
    }
  }

  lemma {:induction false} AcceptsDots(st: Scan, s: string)
    requires Accepts(st, s)
    ensures Count(s, '.') <= DotsLeft(st)
    decreases |s|
  {
    if |s| > 0 {
      var next := Step(st, s[0]);
      if next.Reject? {
        RejectIsFinal(s[1..]);
      } else {
        StepDots(st, s[0]);
        AcceptsDots(next, s[1..]);
      }
    }
  }

  /** `float()` never accepts a string with two '.' characters. */
  lemma FloatLiteralDots(t: string)
    requires IsFloatLiteral(t)
    ensures Count(t, '.') <= 1
  {
    AcceptsDots(Lead, t);
  }

  /** Digits leave a scan in the integer part or the fraction where it is. */
  lemma {:induction false} DigitsThen(st: Scan, a: string, rest: string)
    requires st.Whole? || st.Fraction?
    requires AllDigits(a)
    ensures Accepts(st, a + rest) == Accepts(st, rest)
    decreases |a|
  {
    if |a| > 0 {
      assert (a + rest)[0] == a[0] && (a + rest)[1..] == a[1..] + rest;
      DigitsThen(st, a[1..], rest);
    } else {
      assert a + rest == rest;
    }
  }

  lemma DigitsAccepted(st: Scan, a: string)
    requires st.Whole? || st.Fraction?
    requires AllDigits(a)
    ensures Accepts(st, a)
  {
    DigitsThen(st, a, "");
    assert a + "" == a;
  }

  lemma DecimalPoint(a: string, b: string)
    requires AllDigits(a) && AllDigits(b) && |a| + |b| > 0
    ensures IndexOf(a + "." + b, '.') == |a|
    ensures IsPlainDecimal(a + "." + b)
  {
    var t := a + "." + b;
    assert t[..|a|] == a && t[|a|] == '.' && t[|a| + 1..] == b;
    assert '.' !in a;
    IndexOfFirst(t, '.', |a|);
  }

  /** The point of a plain decimal splits it into its integer and fraction digits. */
  lemma DecimalPointValue(a: string, b: string)
    requires AllDigits(a) && AllDigits(b) && |a| + |b| > 0
    ensures IsPlainDecimal(a + "." + b)
    ensures PlainDecimalValue(a + "." + b)
      == DigitsValue(a) as real + FractionValue(b)
  {
    DecimalPoint(a, b);
    var t := a + "." + b;
    assert t[..|a|] == a && t[|a| + 1..] == b;
  }

  /** The first step of a scan over a digit or a '.'. */
  lemma LeadStep(c: char)
    requires IsDigit(c) || c == '.'
    ensures Step(Lead, c) == if c == '.' then BarePoint else Whole
  {
  }

  lemma IntegerAccepted(a: string)
    requires |a| > 0 && AllDigits(a)
    ensures Accepts(Lead, a)
  {
    LeadStep(a[0]);
    DigitsAccepted(Whole, a[1..]);
  }

  lemma DecimalAccepted(a: string, b: string)
    requires AllDigits(a) && AllDigits(b) && |a| + |b| > 0
    ensures Accepts(Lead, a + "." + b)
  {
    var t := a + "." + b;
    LeadStep(t[0]);
    if |a| == 0 {
      assert t == "." + b && t[1..] == b;
      assert Accepts(BarePoint, b) == Accepts(Fraction, b[1..]);
      DigitsAccepted(Fraction, b[1..]);
    } else {
      assert t[0] == a[0] && t[1..] == a[1..] + ("." + b);
      DigitsThen(Whole, a[1..], "." + b);
      assert ("." + b)[1..] == b;
      assert Accepts(Whole, "." + b) == Accepts(Point, b);
      if |b| > 0 {
        assert Accepts(Point, b) == Accepts(Fraction, b[1..]);
        DigitsAccepted(Fraction, b[1..]);
      }
    }
  }

  /** A plain decimal is a literal `float()` accepts, so `Exact` values only come from
      strings Python converts. */
  lemma PlainDecimalIsFloatLiteral(t: string)
    requires IsPlainDecimal(t)
    ensures IsFloatLiteral(t)
  {
    var k := IndexOf(t, '.');
    if k == |t| {
      assert t[..k] == t;
      IntegerAccepted(t);
    } else {
      assert t == t[..k] + "." + t[k + 1..];
      DecimalAccepted(t[..k], t[k + 1..]);
    }
  }
}
