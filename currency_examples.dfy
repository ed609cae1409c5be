/** `converter_valor_br` on the kinds of cell the lead spreadsheets hold. */
module CurrencyExamples {
  import opened Chars
  import opened Strings
  import opened PyFloat
  import opened Currency

  lemma FourDigitsValue()
    ensures AllDigits("1234") && DigitsValue("1234") == 1234
  {
    assert "1234"[..3] == "123" && "123"[..2] == "12" && "12"[..1] == "1" && "1"[..0] == "";
  }

  lemma TwoDigitFraction(f: string, n: nat)
    requires |f| == 2 && AllDigits(f) && DigitsValue(f) == n
    ensures FractionValue(f) == n as real / 100.0
  {
    assert Pow10(2) == 100;
  }

  lemma UngroupedThousands()
    ensures Ungrouped("1.234") == "1234"
  {
    assert "1.234"[1..] == ".234" && ".234"[1..] == "234";
    assert StartsWith("1.234", ".") == false && StartsWith(".234", ".");
    assert ReplaceAll("234", ".", "") == "234" by {
      ReplaceCharAbsent("234", '.', "");
    }
  }

  /** "1.234,56" is one thousand two hundred thirty-four and 56 cents. */
  lemma BrazilianThousands()
    ensures ConvertBR("1.234,56") == Exact(1234.56)
  {
    assert "1.234" + "," + "56" == "1.234,56";
    ThousandsChars();
    BrazilianAmount("1.234", "56");
    ThousandsParts();
  }

  lemma ThousandsChars()
    ensures forall i :: 0 <= i < |"1.234"| ==> IsDigit("1.234"[i]) || "1.234"[i] == '.'
    ensures IsDigit("1.234"[0]) && AllDigits("56")
  {
  }

  lemma ThousandsParts()
    ensures forall i :: 0 <= i < |"1.234"| ==> IsDigit("1.234"[i]) || "1.234"[i] == '.'
    ensures AllDigits("56")
    ensures DigitsValue(Ungrouped("1.234")) == 1234
    ensures FractionValue("56") == 0.56
  {
    UngroupedThousands();
    FourDigitsValue();
    assert "56"[..1] == "5" && "5"[..0] == "";
    TwoDigitFraction("56", 56);
  }

  /** The docstring's own example: "1.000,00" is 1000.00. */
  lemma DocstringAmount()
    ensures ConvertBR("1.000,00") == Exact(1000.0)
  {
    assert "1.000" + "," + "00" == "1.000,00";
    DocstringChars();
    BrazilianAmount("1.000", "00");
    DocstringParts();
  }

  lemma DocstringChars()
    ensures forall i :: 0 <= i < |"1.000"| ==> IsDigit("1.000"[i]) || "1.000"[i] == '.'
    ensures IsDigit("1.000"[0]) && AllDigits("00")
  {
  }

  lemma DocstringParts()
    ensures forall i :: 0 <= i < |"1.000"| ==> IsDigit("1.000"[i]) || "1.000"[i] == '.'
    ensures AllDigits("00")
    ensures DigitsValue(Ungrouped("1.000")) == 1000
    ensures FractionValue("00") == 0.0
  {
    UngroupedOneThousand();
    OneThousandValue();
    assert "00"[..1] == "0" && "0"[..0] == "";
    TwoDigitFraction("00", 0);
  }

  lemma OneThousandValue()
    ensures AllDigits("1000") && DigitsValue("1000") == 1000
  {
    assert "1000"[..3] == "100" && "100"[..2] == "10" && "10"[..1] == "1" && "1"[..0] == "";
  }

  lemma UngroupedOneThousand()
    ensures Ungrouped("1.000") == "1000"
  {
    assert "1.000"[1..] == ".000" && ".000"[1..] == "000";
    assert StartsWith("1.000", ".") == false && StartsWith(".000", ".");
    assert ReplaceAll("000", ".", "") == "000" by {
      ReplaceCharAbsent("000", '.', "");
    }
  }

  lemma SixDigitsValue()
    ensures AllDigits("400000") && DigitsValue("400000") == 400000
  {
    assert "400000"[..5] == "40000" && "40000"[..4] == "4000" && "4000"[..3] == "400";
    assert "400"[..2] == "40" && "40"[..1] == "4" && "4"[..0] == "";
  }

  lemma UngroupedLarge()
    ensures Ungrouped("400.000") == "400000"
  {
    assert "400.000" == "400" + ("." + "000");
    ReplaceCharAppend("400", "." + "000", '.', "");
    ReplaceCharAppend(".", "000", '.', "");
    ReplaceCharAbsent("400", '.', "");
    ReplaceCharAbsent("000", '.', "");
    assert StartsWith(".", ".") && "."[1..] == "";
  }

  /** "400.000,00": the thousands dot is dropped. */
  lemma LargeAmount()
    ensures ConvertBR("400.000,00") == Exact(400000.0)
  {
    assert "400.000" + "," + "00" == "400.000,00";
    LargeAmountChars();
    BrazilianAmount("400.000", "00");
    LargeAmountParts();
  }

  lemma LargeAmountChars()
    ensures forall i :: 0 <= i < |"400.000"| ==> IsDigit("400.000"[i]) || "400.000"[i] == '.'
    ensures IsDigit("400.000"[0]) && AllDigits("00")
  {
  }

  lemma LargeAmountParts()
    ensures forall i :: 0 <= i < |"400.000"| ==> IsDigit("400.000"[i]) || "400.000"[i] == '.'
    ensures AllDigits("00")
    ensures DigitsValue(Ungrouped("400.000")) == 400000
    ensures FractionValue("00") == 0.0
  {
    UngroupedLarge();
    SixDigitsValue();
    assert "00"[..1] == "0" && "0"[..0] == "";
    TwoDigitFraction("00", 0);
  }

  /** "R$ 400.000,00": the symbol makes no difference. */
  lemma LargeAmountWithSymbol()
    ensures ConvertBR("R$ 400.000,00") == Exact(400000.0)
  {
    assert "R$ 400.000,00" == "R$ " + "400.000,00";
    assert 'R' !in "400.000,00";
    CurrencySymbolIgnored("400.000,00");
    LargeAmount();
  }

  /** Without a comma the dot is a decimal point: "1.234" is 1.234, not 1234. */
  lemma DotWithoutComma()
    ensures ConvertBR("1.234") == Exact(1.234)
  {
    assert "1" + "." + "234" == "1.234";
    DotDecimal("1", "234");
    assert "1"[..0] == "" && DigitsValue("1") == 1;
    ThreeDigitFraction();
    assert 1.0 + 0.234 == 1.234;
  }

  lemma ThreeDigitFraction()
    ensures AllDigits("234") && FractionValue("234") == 0.234
  {
    assert "234"[..2] == "23" && "23"[..1] == "2" && "2"[..0] == "";
    assert DigitsValue("234") == 234;
    assert Pow10(3) == 1000;
  }

  /** Two commas make the rewritten text "1.2.3", which `float()` rejects. */
  lemma TwoCommas()
    ensures ConvertBR("1,2,3") == Exact(0.0)
  {
    NoCurrencySymbol("1,2,3");
    StripTrimmed("1,2,3");
    CountTwoCommas();
    ManyCommasGiveZero("1,2,3");
  }

  lemma CountTwoCommas()
    ensures Count("1,2,3", ',') == 2
  {
    assert "1,2,3"[1..] == ",2,3" && ",2,3"[1..] == "2,3" && "2,3"[1..] == ",3";
    assert ",3"[1..] == "3" && "3"[1..] == "";
    assert Count("3", ',') == 0;
    assert Count(",3", ',') == 1;
    assert Count("2,3", ',') == 1;
    assert Count(",2,3", ',') == 2;
  }

  /** A sign passes through: "-5" is an accepted literal that is not a plain decimal. */
  lemma NegativeAmount()
    ensures ConvertBR("-5") == FloatOf("-5")
  {
    assert !IsSpace('-') && !IsSpace('5');
    NoCurrencySymbol("-5");
    PassesThrough("-5");
    NegativeNotDecimal();
    NegativeAccepted();
  }

  lemma NegativeNotDecimal()
    ensures !IsPlainDecimal("-5")
  {
    assert IndexOf("-5", '.') == 2;
    assert !IsDigit("-5"[0]);
  }

  /** The scan of "-5" reads a sign, then a digit of the integer part. */
  lemma NegativeAccepted()
    ensures IsFloatLiteral("-5")
  {
    assert Step(Lead, '-') == Signed && Step(Signed, '5') == Whole;
    assert "-5"[1..] == "5" && "5"[1..] == "";
    assert Accepts(Lead, "-5") == Accepts(Signed, "5");
  }

  /** Only the lower-case "nan" is a sentinel: "NaN" reaches `float()` and stays a NaN. */
  lemma CapitalisedNaN()
    ensures ConvertBR("NaN") == FloatOf("NaN")
  {
    assert !IsSpace('N');
    NoCurrencySymbol("NaN");
    PassesThrough("NaN");
    NaNLiteral();
  }

  lemma NaNLiteral()
    ensures FloatValue("NaN") == FloatOf("NaN")
  {
    NaNNotDecimal();
    NaNSpelled();
  }

  lemma NaNNotDecimal()
    ensures !IsPlainDecimal("NaN")
  {
    assert IndexOf("NaN", '.') == 3;
    assert !IsDigit("NaN"[0]);
  }

  /** The scan of "NaN" spells "n", "na", "nan", a word `float()` accepts. */
  lemma NaNSpelled()
    ensures IsFloatLiteral("NaN")
  {
    NaNFirstStep();
    NaNLaterSteps();
    assert "NaN"[1..] == "aN" && "aN"[1..] == "N" && "N"[1..] == "";
    assert Accepts(Lead, "NaN") == Accepts(Spell("n"), "aN");
    assert Accepts(Spell("n"), "aN") == Accepts(Spell("na"), "N");
    assert Accepts(Spell("na"), "N") == Accepts(Spell("nan"), "");
  }

  lemma NaNFirstStep()
    ensures Step(Lead, 'N') == Spell("n")
  {
    NanPrefixes();
    assert "" + [AsciiLowerChar('N')] == "n";
    SpellsNan("", 'N');
  }

  lemma NaNLaterSteps()
    ensures Step(Spell("n"), 'a') == Spell("na")
    ensures Step(Spell("na"), 'N') == Spell("nan")
  {
    NanPrefixes();
    assert "n" + [AsciiLowerChar('a')] == "na" && "na" + [AsciiLowerChar('N')] == "nan";
    SpellsNan("n", 'a');
    SpellsNan("na", 'N');
  }

  lemma NanPrefixes()
    ensures StartsWith("nan", "n") && StartsWith("nan", "na") && StartsWith("nan", "nan")
  {
    assert "nan"[1..] == "an" && "an"[1..] == "n" && "n"[1..] == "";
    assert "na"[1..] == "a" && "a"[1..] == "";
  }
}
