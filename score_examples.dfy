/** `extrair_nota_segura` and the reply parsing of `pontuar_lead` on sample replies. */
module ScoreExamples {
  import opened Chars
  import opened Strings
  import opened Options
  import opened ScoreParser

  /** An out-of-range number is skipped, and with nothing else the score is 0. */
  lemma OutOfRangeIsSkipped()
    ensures SafeScore("105 ") == 0
  {
    var s := "105 ";
    assert RunEnd(s, 0) == 3;
    assert FindNumbers(s, 3) == [];
    assert s[0..3] == "105";
    assert FindAllNumbers(s) == ["105"];
    assert "105"[..2] == "10" && "10"[..1] == "1" && "1"[..0] == "";
    assert DigitsValue("105") == 105;
  }

  /** After an out-of-range number, the next one in range is the score. */
  lemma NextInRangeIsTaken()
    ensures SafeScore("150 or 85") == 85
  {
    TwoNumbersFound();
    assert "150"[..2] == "15" && "15"[..1] == "1" && "1"[..0] == "";
    assert DigitsValue("150") == 150;
    assert "85"[..1] == "8" && "8"[..0] == "";
    assert DigitsValue("85") == 85;
  }

  lemma TwoNumbersFound()
    ensures FindAllNumbers("150 or 85") == ["150", "85"]
  {
    var s := "150 or 85";
    assert RunEnd(s, 0) == 3 && s[0..3] == "150";
    SkipNonDigits(s, 3, 7);
    assert RunEnd(s, 7) == 9 && s[7..9] == "85";
    assert FindNumbers(s, 7) == ["85"];
  }

  /** A number glued to a word character on either side is not a match. */
  lemma GluedNumbersAreIgnored()
    ensures SafeScore("abc85") == 0
    ensures SafeScore("85a") == 0
  {
    GluedAfterWord();
    GluedBeforeWord();
  }

  lemma GluedAfterWord()
    ensures FindAllNumbers("abc85") == []
  {
    var s := "abc85";
    SkipNonDigits(s, 0, 3);
    assert IsWordChar(s[2]);
    assert FindNumbers(s, 3) == FindNumbers(s, 4);
    assert FindNumbers(s, 4) == FindNumbers(s, 5);
  }

  lemma GluedBeforeWord()
    ensures FindAllNumbers("85a") == []
  {
    var s := "85a";
    assert RunEnd(s, 0) == 2 && IsWordChar(s[2]);
    assert FindNumbers(s, 0) == FindNumbers(s, 2);
    SkipNonDigits(s, 2, 3);
  }

  /** A number followed by a vulgar fraction ("85½") has no word boundary after it: ½ is
      alphanumeric to Python, so nothing is found and the score is 0. */
  lemma GluedFractionIsIgnored()
    ensures SafeScore("85\U{00BD}") == 0
  {
    GluedBeforeFraction();
  }

  lemma GluedBeforeFraction()
    ensures FindAllNumbers("85\U{00BD}") == []
  {
    var s := "85\U{00BD}";
    assert RunEnd(s, 0) == 2 && IsWordChar(s[2]);
    assert FindNumbers(s, 0) == FindNumbers(s, 2);
    SkipNonDigits(s, 2, 3);
  }

  lemma PlainNumber()
    ensures SafeScore("85 ") == 85
  {
    var s := "85 ";
    assert RunEnd(s, 0) == 2;
    assert FindNumbers(s, 2) == [];
    assert s[0..2] == "85";
    assert FindAllNumbers(s) == ["85"];
    assert "85"[..1] == "8" && "8"[..0] == "";
    assert DigitsValue("85") == 85;
  }

  const SentenceReply: string := "an 85% fit"

  lemma SentenceFindsOnlyEightyFive()
    ensures FindAllNumbers(SentenceReply) == ["85"]
  {
    var s := SentenceReply;
    SkipNonDigits(s, 0, 3);
    assert RunEnd(s, 3) == 5 && s[3..5] == "85";
    assert FindNumbers(s, 3) == ["85"] + FindNumbers(s, 5);
    SkipNonDigits(s, 5, |s|);
  }

  /** A number followed by '%' and prose around it is still found. */
  lemma NumberInsideSentence()
    ensures SafeScore(SentenceReply) == 85
  {
    SentenceFindsOnlyEightyFive();
    assert "85"[..1] == "8" && "8"[..0] == "";
    assert DigitsValue("85") == 85;
  }

  lemma NoNumberScoresZero()
    ensures SafeScore("no numbers here") == 0
  {
    var s := "no numbers here";
    SkipNonDigits(s, 0, |s|);
  }

  /** The reply format the prompt asks for: "NOTA | MOTIVO". */
  lemma WellFormedReply()
    ensures ParseReply("85 | good fit") == ScoreResult(85, "good fit")
  {
    assert "85 | good fit" == "85 " + "| " + "good fit";
    assert "good fit"[0] == 'g' && "good fit"[7] == 't';
    ReplyWithReason("85 ", "good fit");
    PlainNumber();
  }

  /** Without a '|', the reason is the entire reply. */
  lemma ReplyWithoutSeparator()
    ensures ParseReply("maybe?") == ScoreResult(0, "maybe?")
  {
    assert '|' !in "maybe?";
    ReplyWithoutPipe("maybe?");
    MaybeScoresZero();
  }

  lemma MaybeScoresZero()
    ensures SafeScore("maybe?") == 0
  {
    SkipNonDigits("maybe?", 0, 6);
  }

  /** A failed call. */
  lemma FailedCall()
    ensures LeadScore(None) == ScoreResult(0, "Erro")
  {
  }
}
