/** `converter_valor_br`: a Brazilian currency string ("R$ 1.234,56") turned into a number.
    The rewrite of the string is modelled exactly; Python's `float()` is modelled by the set
    of strings it accepts, and by its value on plain decimals. */
module Currency {
  import opened Chars
  import opened Strings
  import opened PyFloat

  /** The cell texts treated as missing. */
  const Sentinels: seq<string> := ["N/A", "nan", ""]

  /** The string `converter_valor_br` hands to `float()`: every "R$" removed, the rest
      stripped, and, when a comma is left, every '.' deleted and every ',' turned into '.'. */
  function Rewrite(v: string): (r: string)
    ensures ',' !in r
  {
    var cleaned := Strip(ReplaceAll(v, "R$", ""));
    if ',' in cleaned then
      ReplaceCharCount(ReplaceAll(cleaned, ".", ""), ',', '.');
      ReplaceAll(ReplaceAll(cleaned, ".", ""), ",", ".")
    else cleaned
  }

  /** `converter_valor_br(v)`: 0.0 for the sentinels, otherwise `float` of the rewrite. An
      exact amount is never negative: a negative (or NaN) value can only be the `float` of a
      literal such as "-5", which has no comma left in it. */
  function ConvertBR(v: string): (m: Money)
    ensures v in Sentinels ==> m == Exact(0.0)
    ensures m.Exact? ==> m.amount >= 0.0
    ensures m.FloatOf? ==> IsFloatLiteral(m.literal) && ',' !in m.literal
  {
    if v in Sentinels then Exact(0.0) else FloatValue(Rewrite(v))
  }

  /** The three sentinel texts convert to 0.0. */
  lemma SentinelsAreZero()
    ensures ConvertBR("N/A") == Exact(0.0)
    ensures ConvertBR("nan") == Exact(0.0)
    ensures ConvertBR("") == Exact(0.0)
  {
  }

  /** After the rewrite of a string with a comma, no comma is left and every '.' stands for
      one of the original commas. */
  lemma RewriteWithComma(v: string)
    requires ',' in Strip(ReplaceAll(v, "R$", ""))
    ensures ',' !in Rewrite(v)
    ensures Count(Rewrite(v), '.') == Count(Strip(ReplaceAll(v, "R$", "")), ',')
  {
    var c := Strip(ReplaceAll(v, "R$", ""));
    var d := ReplaceAll(c, ".", "");
    DeleteChar(c, '.');
    ReplaceCharCount(d, ',', '.');
    CountAbsent(d, '.');
  }

  /** Without a comma, the stripped string goes to `float()` unchanged: '.' stays the
      decimal point. */
  lemma RewriteWithoutComma(v: string)
    requires ',' !in Strip(ReplaceAll(v, "R$", ""))
    ensures Rewrite(v) == Strip(ReplaceAll(v, "R$", ""))
  {
  }

  /** Two or more commas ("1,2,3") rewrite to a string with two or more '.', which `float()`
      rejects: the result is 0.0. */
  lemma ManyCommasGiveZero(v: string)
    requires Count(Strip(ReplaceAll(v, "R$", "")), ',') >= 2
    ensures ConvertBR(v) == Exact(0.0)
  {
    var c := Strip(ReplaceAll(v, "R$", ""));
    if ',' !in c {
      CountAbsent(c, ',');
    }
    RewriteWithComma(v);
    var t := Rewrite(v);
    if IsFloatLiteral(t) {
      FloatLiteralDots(t);
    }
    if IsPlainDecimal(t) {
      PlainDecimalIsFloatLiteral(t);
    }
  }

  /** The digits of a grouped integer part ("400.000") with its dots deleted. */
  function Ungrouped(p: string): (d: string)
    requires forall i :: 0 <= i < |p| ==> IsDigit(p[i]) || p[i] == '.'
    ensures AllDigits(d) && '.' !in d && ',' !in d
    ensures |p| > 0 && p[0] != '.' ==> |d| > 0
  {
    DeleteChar(p, '.');
    StartsWithChar(p, '.');
    var d := ReplaceAll(p, ".", "");
    assert forall i :: 0 <= i < |d| ==> IsDigit(d[i]) by {
      forall i | 0 <= i < |d| ensures IsDigit(d[i]) {
        assert d[i] in p;
        var j :| 0 <= j < |p| && p[j] == d[i];
      }
    }
    d
  }

  lemma NoCurrencySymbol(s: string)
    requires 'R' !in s
    ensures !Contains(s, "R$")
    ensures ReplaceAll(s, "R$", "") == s
  {
    if Contains(s, "R$") {
      ContainsFirstChar(s, "R$");
    }
    ReplaceAbsent(s, "R$", "");
  }

  lemma StripNoSpaceEnds(s: string)
    requires |s| > 0 && !IsSpace(s[0]) && !IsSpace(s[|s| - 1])
    ensures Strip(s) == s
  {
  }

  /** A literal made of digits, one '.' and digits has the value with the '.' as decimal
      point. */
  lemma DecimalValue(a: string, b: string)
    requires AllDigits(a) && AllDigits(b) && |a| + |b| > 0
    ensures FloatValue(a + "." + b)
      == Exact(DigitsValue(a) as real + FractionValue(b))
  {
    DecimalPointValue(a, b);
    PlainDecimalFloat(a + "." + b);
  }

  lemma PlainDecimalFloat(t: string)
    requires IsPlainDecimal(t)
    ensures FloatValue(t) == Exact(PlainDecimalValue(t))
  {
  }

  /** The texts "N/A" and "" are sentinels, but `float()` would reject them too. */
  lemma SentinelTextsRejected()
    ensures FloatValue("N/A") == Exact(0.0)
    ensures FloatValue("") == Exact(0.0)
  {
    NotAvailableNotDecimal();
    NotAvailableRejected();
  }

  lemma NotAvailableNotDecimal()
    ensures !IsPlainDecimal("N/A")
  {
    assert IndexOf("N/A", '.') == 3;
    assert !IsDigit("N/A"[0]);
  }

  /** The scan of "N/A" spells "n", then '/' continues no word. */
  lemma NotAvailableRejected()
    ensures !IsFloatLiteral("N/A")
  {
    assert Step(Lead, 'N') == Spell("n") by {
      assert "" + [AsciiLowerChar('N')] == "n";
      assert StartsWith("nan", "n");
    }
    assert Step(Spell("n"), '/') == Reject by {
      assert "n" + [AsciiLowerChar('/')] == "n/";
      assert !StartsWith("nan", "n/") && !StartsWith("infinity", "n/");
    }
    assert "N/A"[1..] == "/A" && "/A"[1..] == "A";
    assert Accepts(Lead, "N/A") == Accepts(Spell("n"), "/A");
    assert Accepts(Spell("n"), "/A") == Accepts(Reject, "A");
    RejectIsFinal("A");
  }

  /** A string of digits, '.' and ',' that starts and ends with neither space is what
      `converter_valor_br` strips it to. */
  lemma CleanedUnchanged(v: string)
    requires 'R' !in v
    requires |v| > 0 ==> !IsSpace(v[0]) && !IsSpace(v[|v| - 1])
    ensures Strip(ReplaceAll(v, "R$", "")) == v
  {
    NoCurrencySymbol(v);
    StripTrimmed(v);
  }

  /** A text with no "R$", no comma and no space at either end that is not a sentinel goes
      to `float()` as it is. */
  lemma PassesThrough(v: string)
    requires !Contains(v, "R$") && ',' !in v && v !in Sentinels
    requires |v| > 0 ==> !IsSpace(v[0]) && !IsSpace(v[|v| - 1])
    ensures ConvertBR(v) == FloatValue(v)
  {
    ReplaceAbsent(v, "R$", "");
    StripTrimmed(v);
  }

  lemma AmountCharsPlain(v: string)
    requires forall i :: 0 <= i < |v| ==> IsDigit(v[i]) || v[i] == '.' || v[i] == ','
    ensures 'R' !in v
    ensures |v| > 0 ==> !IsSpace(v[0]) && !IsSpace(v[|v| - 1])
  {
  }

  lemma AmountChars(p: string, f: string)
    requires forall i :: 0 <= i < |p| ==> IsDigit(p[i]) || p[i] == '.'
    requires AllDigits(f)
    ensures forall i :: 0 <= i < |p + "," + f| ==>
      IsDigit((p + "," + f)[i]) || (p + "," + f)[i] == '.' || (p + "," + f)[i] == ','
  {
    var v := p + "," + f;
    forall i | 0 <= i < |v| ensures IsDigit(v[i]) || v[i] == '.' || v[i] == ',' {
      if i < |p| { assert v[i] == p[i]; } else if i > |p| { assert v[i] == f[i - |p| - 1]; }
    }
  }

  /** Deleting the dots of "p,f" deletes those of `p`. */
  lemma DeleteDots(p: string, f: string)
    requires forall i :: 0 <= i < |p| ==> IsDigit(p[i]) || p[i] == '.'
    requires AllDigits(f)
    ensures ReplaceAll(p + "," + f, ".", "") == Ungrouped(p) + "," + f
  {
    assert '.' !in f;
    assert p + "," + f == p + ("," + f);
    ReplaceCharAppend(p, "," + f, '.', "");
    ReplaceCharAppend(",", f, '.', "");
    ReplaceCharAbsent(",", '.', "");
    ReplaceCharAbsent(f, '.', "");
  }

  /** The one comma of "d,f" becomes the decimal point. */
  lemma CommaToPoint(d: string, f: string)
    requires ',' !in d && AllDigits(f)
    ensures ReplaceAll(d + "," + f, ",", ".") == d + "." + f
  {
    assert ',' !in f;
    assert d + "," + f == d + ("," + f);
    ReplaceCharAppend(d, "," + f, ',', ".");
    ReplaceCharAppend(",", f, ',', ".");
    ReplaceCharAbsent(d, ',', ".");
    ReplaceCharAbsent(f, ',', ".");
    assert ReplaceAll(",", ",", ".") == ".";
  }

  /** The dots of a grouped integer part are deleted, and the comma turns into '.'. */
  lemma RewriteBrazilian(p: string, f: string)
    requires forall i :: 0 <= i < |p| ==> IsDigit(p[i]) || p[i] == '.'
    requires AllDigits(f)
    ensures Rewrite(p + "," + f) == Ungrouped(p) + "." + f
  {
    var v := p + "," + f;
    assert v[|p|] == ',';
    AmountChars(p, f);
    AmountCharsPlain(v);
    CleanedUnchanged(v);
    DeleteDots(p, f);
    CommaToPoint(Ungrouped(p), f);
  }

  /** A Brazilian amount: an integer part of digits and thousands dots, a comma, and decimal
      digits. The dots are dropped and the comma is the decimal point. */
  lemma BrazilianAmount(p: string, f: string)
    requires |p| > 0 && IsDigit(p[0])
    requires forall i :: 0 <= i < |p| ==> IsDigit(p[i]) || p[i] == '.'
    requires AllDigits(f)
    ensures ConvertBR(p + "," + f)
      == Exact(DigitsValue(Ungrouped(p)) as real + FractionValue(f))
  {
    var v := p + "," + f;
    assert v[|p|] == ',';
    CommaNotSentinel(v);
    RewriteBrazilian(p, f);
    UngroupedValue(p, f);
  }

  /** No sentinel has a comma. */
  lemma CommaNotSentinel(v: string)
    requires ',' in v
    ensures v !in Sentinels
  {
    assert ',' !in "N/A" && ',' !in "nan";
  }

  /** The value of the ungrouped integer digits with the decimals after a point. */
  lemma UngroupedValue(p: string, f: string)
    requires |p| > 0 && IsDigit(p[0])
    requires forall i :: 0 <= i < |p| ==> IsDigit(p[i]) || p[i] == '.'
    requires AllDigits(f)
    ensures FloatValue(Ungrouped(p) + "." + f) == Exact(DigitsValue(Ungrouped(p)) as real + FractionValue(f))
  {
    var d := Ungrouped(p);
    assert |d| > 0 && AllDigits(d);
    DecimalValue(d, f);
  }

  /** Digits, '.', digits reach `float()` unchanged. */
  lemma RewriteDotDecimal(a: string, b: string)
    requires |a| > 0 && AllDigits(a) && AllDigits(b)
    ensures Rewrite(a + "." + b) == a + "." + b
  {
    var v := a + "." + b;
    DecimalChars(a, b);
    AmountCharsPlain(v);
    CleanedUnchanged(v);
    RewriteWithoutComma(v);
  }

  lemma DecimalChars(a: string, b: string)
    requires AllDigits(a) && AllDigits(b)
    ensures forall i :: 0 <= i < |a + "." + b| ==> IsDigit((a + "." + b)[i]) || (a + "." + b)[i] == '.'
    ensures ',' !in a + "." + b
  {
    var v := a + "." + b;
    forall i | 0 <= i < |v| ensures IsDigit(v[i]) || v[i] == '.' {
      if i < |a| { assert v[i] == a[i]; } else if i > |a| { assert v[i] == b[i - |a| - 1]; }
    }
  }

  /** An amount without a comma keeps '.' as the decimal point ("1.234" is 1.234). */
  lemma DotDecimal(a: string, b: string)
    requires |a| > 0 && AllDigits(a) && AllDigits(b)
    ensures ConvertBR(a + "." + b) == Exact(DigitsValue(a) as real + FractionValue(b))
  {
    var v := a + "." + b;
    assert v[|a|] == '.';
    assert v !in Sentinels by {
      assert '.' !in "N/A" && '.' !in "nan" && '.' in v;
    }
    RewriteDotDecimal(a, b);
    DecimalValue(a, b);
  }

  lemma SymbolRemoved(x: string)
    ensures ReplaceAll("R$ " + x, "R$", "") == " " + ReplaceAll(x, "R$", "")
  {
    var v := "R$ " + x;
    assert StartsWith(v, "R$");
    assert v[2..] == " " + x;
    assert !StartsWith(" " + x, "R$");
    assert (" " + x)[1..] == x;
  }

  /** "R$ " in front of a text does not change what reaches `float()`. */
  lemma RewriteIgnoresSymbol(x: string)
    ensures Rewrite("R$ " + x) == Rewrite(x)
  {
    SymbolRemoved(x);
    StripLeadingSpace(' ', ReplaceAll(x, "R$", ""));
    assert Strip(ReplaceAll("R$ " + x, "R$", "")) == Strip(ReplaceAll(x, "R$", ""));
  }

  /** A leading "R$ " makes no difference (except before "nan", which is only a sentinel
      without the symbol). */
  lemma CurrencySymbolIgnored(x: string)
    requires x != "nan"
    ensures ConvertBR("R$ " + x) == ConvertBR(x)
  {
    var v := "R$ " + x;
    assert v[0] == 'R';
    assert v !in Sentinels;
    RewriteIgnoresSymbol(x);
    if x == "N/A" {
      SentinelRewrites();
      SentinelTextsRejected();
    } else if x == "" {
      SentinelRewrites();
      SentinelTextsRejected();
    }
  }

  /** The two sentinels `float()` would see through a leading "R$ " reach it unchanged. */
  lemma SentinelRewrites()
    ensures Rewrite("N/A") == "N/A" && Rewrite("") == ""
  {
    NotAvailableRewrite();
    assert ReplaceAll("", "R$", "") == "" && Strip("") == "";
  }

  lemma NotAvailableRewrite()
    ensures Rewrite("N/A") == "N/A"
  {
    assert !IsSpace('N') && !IsSpace('A');
    CleanedUnchanged("N/A");
  }
}
