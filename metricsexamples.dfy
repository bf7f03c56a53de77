/**
 * The parsers' worked examples: concrete inputs and what each parse returns.
 */
module MetricsExamples {
  import opened Wrappers
  import opened JsText
  import opened Metrics

  // ---------------------------------------------------------------------------
  // Digit runs of one, two and three characters
  // ---------------------------------------------------------------------------

  lemma OneDigitValue(s: string, i: nat)
    requires i < |s| && IsDigit(s[i])
    ensures AllDigits(s[i..i + 1]) && DigitsValue(s[i..i + 1]) == DigitValue(s[i])
  {
    assert s[i..i + 1][..0] == [];
  }

  lemma TwoDigitValue(s: string, i: nat)
    requires i + 2 <= |s| && IsDigit(s[i]) && IsDigit(s[i + 1])
    ensures AllDigits(s[i..i + 2]) && DigitsValue(s[i..i + 2]) == 10 * DigitValue(s[i]) + DigitValue(s[i + 1])
  {
    assert s[i..i + 2][..1] == s[i..i + 1];
    OneDigitValue(s, i);
  }

  lemma ThreeDigitValue(s: string, i: nat)
    requires i + 3 <= |s| && IsDigit(s[i]) && IsDigit(s[i + 1]) && IsDigit(s[i + 2])
    ensures AllDigits(s[i..i + 3])
    ensures DigitsValue(s[i..i + 3]) == 100 * DigitValue(s[i]) + 10 * DigitValue(s[i + 1]) + DigitValue(s[i + 2])
  {
    assert s[i..i + 3][..2] == s[i..i + 2];
    TwoDigitValue(s, i);
  }

  // ---------------------------------------------------------------------------
  // Heights
  // ---------------------------------------------------------------------------

  /** "NH" is a height of zero. */
  lemma NoHeightAbbreviation(s: string)
    requires s == "NH"
    ensures ParseHeightToMeters(Some(s)) == Some(0.0)
  {
    assert NormalizeQuotes("NH") == "NH";
    UnpaddedInput(s);
    NoHeightAbbreviationText(NormalizeQuotes(s));
  }

  lemma NoHeightAbbreviationText(s: string)
    requires s == "NH"
    ensures HeightOfText(s) == Some(0.0)
  {
    NoHeightLetters(s);
    NoHeightAbbreviatedHere(s, 0);
    NoHeightWins(s, 0);
  }

  lemma NoHeightLetters(s: string)
    requires s == "NH"
    ensures IsBoundary(s, 0) && CiAt(s, 0, "nh") && IsBoundary(s, 2)
  {
  }

  /** "No height" is a height of zero as well. */
  lemma NoHeightSpelledOut(s: string)
    requires s == "No height"
    ensures ParseHeightToMeters(Some(s)) == Some(0.0)
  {
    assert NormalizeQuotes("No height") == "No height";
    UnpaddedInput(s);
    NoHeightSpelledText(NormalizeQuotes(s));
  }

  lemma NoHeightSpelledText(s: string)
    requires s == "No height"
    ensures HeightOfText(s) == Some(0.0)
  {
    NoHeightWords(s);
    NoHeightSpelledHere(s, 0);
    NoHeightWins(s, 0);
  }

  lemma NoHeightWords(s: string)
    requires s == "No height"
    ensures IsBoundary(s, 0) && CiAt(s, 0, "no height") && IsBoundary(s, 9)
  {
  }

  /** A metric value wins over the imperial one written beside it. */
  lemma MetersPreferred(raw: string)
    requires raw == "4.60m (15’1”)"
    ensures ParseHeightToMeters(Some(raw)) == Some(4.6)
  {
    assert NormalizeQuotes("4.60m (15’1”)") == "4.60m (15'1\")";
    UnpaddedInput(raw);
    MetersPreferredText(NormalizeQuotes(raw));
  }

  lemma MetersPreferredText(s: string)
    requires s == "4.60m (15'1\")"
    ensures HeightOfText(s) == Some(4.6)
  {
    NoNNoHeight(s);
    assert DigitsEnd(s, 0) == 1 by { assert DigitsEnd(s, 1) == 1; }
    assert DigitsEnd(s, 2) == 4 by { assert DigitsEnd(s, 4) == 4; assert DigitsEnd(s, 3) == 4; }
    assert NumberAt(s, 0) == Some(Numeral(0, 1, 4));
    assert SpacesEnd(s, 4) == 4;
    MetersHere(s, 0, 4);
    MetricWins(s, 0);
    FourPointSix(s);
  }

  lemma FourPointSix(s: string)
    requires s == "4.60m (15'1\")"
    ensures IsNumeralAt(s, Numeral(0, 1, 4)) && NumeralValue(s, Numeral(0, 1, 4)) == 4.6
  {
    OneDigitValue(s, 0);
    TwoDigitValue(s, 2);
  }

  /** Feet and inches are converted at 0.0254 m per inch. */
  lemma FeetAndInchesHeight(s: string)
    requires s == "15'1\""
    ensures ParseHeightToMeters(Some(s)) == Some(4.5974)
  {
    assert NormalizeQuotes("15'1\"") == "15'1\"";
    UnpaddedInput(s);
    FeetAndInchesHeightText(NormalizeQuotes(s));
  }

  lemma FeetAndInchesHeightText(s: string)
    requires s == "15'1\""
    ensures HeightOfText(s) == Some(4.5974)
  {
    NoNNoHeight(s);
    NoMetersInFifteenOne(s);
    FifteenOneFeetInches(s);
    SearchFindsNothing(NoHeight, s, 0);
    SearchFindsNothing(Meters, s, 0);
  }

  lemma NoMetersInFifteenOne(s: string)
    requires s == "15'1\""
    ensures NoMatchIn(Meters, s, 0, |s| + 1)
  {
    assert DigitsEnd(s, 0) == 2 by { assert DigitsEnd(s, 1) == 2; }
    assert DigitsEnd(s, 3) == 4;
    assert NumberAt(s, 0) == Some(Numeral(0, 2, 2)) && NumberAt(s, 1) == Some(Numeral(1, 2, 2));
    assert NumberAt(s, 3) == Some(Numeral(3, 4, 4));
    assert SpacesEnd(s, 2) == 2 && SpacesEnd(s, 4) == 4;
    assert !CiAt(s, 2, "m") && !CiAt(s, 4, "m");
    KeywordMissing(Meters, s, 0, "m");
    KeywordMissing(Meters, s, 1, "m");
    KeywordMissing(Meters, s, 3, "m");
    NotDigitNoMatch(Meters, s, 2);
    NotDigitNoMatch(Meters, s, 4);
    NotDigitNoMatch(Meters, s, 5);
    MissesEverywhere(Meters, s, 0, 6);
  }

  lemma FifteenOneFeetInches(s: string)
    requires s == "15'1\""
    ensures ParseFeetInches(s) == Some(FeetInches(15.0, 1.0))
  {
    assert DigitsEnd(s, 0) == 2 by { assert DigitsEnd(s, 1) == 2; }
    assert DigitsEnd(s, 3) == 4;
    assert NumberAt(s, 0) == Some(Numeral(0, 2, 2)) && NumberAt(s, 3) == Some(Numeral(3, 4, 4));
    assert SpacesEnd(s, 2) == 2 && SpacesEnd(s, 3) == 3 && SpacesEnd(s, 4) == 4;
    FifteenAndOne(s);
    FeetAndInchesHere(s, 0, 2, 3, 4);
    FeetAndInchesFirst(s, 0);
  }

  lemma FifteenAndOne(s: string)
    requires s == "15'1\""
    ensures IsNumeralAt(s, Numeral(0, 2, 2)) && NumeralValue(s, Numeral(0, 2, 2)) == 15.0
    ensures IsNumeralAt(s, Numeral(3, 4, 4)) && NumeralValue(s, Numeral(3, 4, 4)) == 1.0
  {
    TwoDigitValue(s, 0);
    OneDigitValue(s, 3);
  }

  /** Text that is not a height has none. */
  lemma JunkHeight(s: string)
    requires s == "not a height"
    ensures ParseHeightToMeters(Some(s)) == None
  {
    assert NormalizeQuotes("not a height") == "not a height";
    UnpaddedInput(s);
    JunkHeightText(NormalizeQuotes(s));
  }

  lemma JunkHeightText(s: string)
    requires s == "not a height"
    ensures HeightOfText(s) == None
  {
    assert forall k :: 0 <= k < |s| ==> !IsDigit(s[k]) && s[k] != '\'';
    assert !CiAt(s, 0, "nh") && !CiAt(s, 0, "no height");
    assert forall k :: 0 < k < |s| ==> Lower(s[k]) != 'n';
    NoHeightNowhere(s);
    NoDigitsNoMatch(Meters, s, 0, |s| + 1);
    NoMarkNoFeetInches(s);
    SearchFindsNothing(NoHeight, s, 0);
    SearchFindsNothing(Meters, s, 0);
  }

  // ---------------------------------------------------------------------------
  // Takeoffs
  // ---------------------------------------------------------------------------

  /** Curly quotes are read as straight ones: 12 feet 3 inches is 12.25 feet. */
  lemma CurlyFeetAndInchesTakeoff(raw: string)
    requires raw == "12’ 3”"
    ensures ParseTakeoffToFeet(Some(raw)) == Some(12.25)
  {
    assert NormalizeQuotes("12’ 3”") == "12' 3\"";
    UnpaddedInput(raw);
    TwelveThreeTakeoff(NormalizeQuotes(raw));
  }

  lemma TwelveThreeTakeoff(s: string)
    requires s == "12' 3\""
    ensures TakeoffOfText(s) == Some(12.25)
  {
    TwelveThreeFeetInches(s);
  }

  lemma TwelveThreeFeetInches(s: string)
    requires s == "12' 3\""
    ensures ParseFeetInches(s) == Some(FeetInches(12.0, 3.0))
  {
    assert DigitsEnd(s, 0) == 2 by { assert DigitsEnd(s, 1) == 2; }
    assert DigitsEnd(s, 4) == 5;
    assert NumberAt(s, 0) == Some(Numeral(0, 2, 2)) && NumberAt(s, 4) == Some(Numeral(4, 5, 5));
    assert SpacesEnd(s, 2) == 2 && SpacesEnd(s, 3) == 4 && SpacesEnd(s, 5) == 5;
    TwelveAndThree(s);
    FeetAndInchesHere(s, 0, 2, 4, 5);
    FeetAndInchesFirst(s, 0);
  }

  lemma TwelveAndThree(s: string)
    requires s == "12' 3\""
    ensures IsNumeralAt(s, Numeral(0, 2, 2)) && NumeralValue(s, Numeral(0, 2, 2)) == 12.0
    ensures IsNumeralAt(s, Numeral(4, 5, 5)) && NumeralValue(s, Numeral(4, 5, 5)) == 3.0
  {
    TwoDigitValue(s, 0);
    OneDigitValue(s, 4);
  }

  /** Feet alone: 12 feet. */
  lemma FeetOnlyTakeoff(s: string)
    requires s == "12'"
    ensures ParseTakeoffToFeet(Some(s)) == Some(12.0)
  {
    assert NormalizeQuotes("12'") == "12'";
    UnpaddedInput(s);
    TwelveFeetTakeoff(NormalizeQuotes(s));
  }

  lemma TwelveFeetTakeoff(s: string)
    requires s == "12'"
    ensures TakeoffOfText(s) == Some(12.0)
  {
    TwelveFeet(s);
  }

  lemma TwelveFeet(s: string)
    requires |s| == 3 && s[0] == '1' && s[1] == '2' && s[2] == '\''
    ensures ParseFeetInches(s) == Some(FeetInches(12.0, 0.0))
  {
    assert DigitsEnd(s, 0) == 2 by { assert DigitsEnd(s, 1) == 2; }
    assert NumberAt(s, 0) == Some(Numeral(0, 2, 2)) && SpacesEnd(s, 2) == 2;
    TwoDigitValue(s, 0);
    TwelveFeetNoPair(s);
    FeetOnlyHere(s, 0, 2);
    FeetOnlyFallback(s, 0);
  }

  lemma TwelveFeetNoPair(s: string)
    requires |s| == 3 && s[0] == '1' && s[1] == '2' && s[2] == '\''
    ensures NoMatchIn(FeetAndInches, s, 0, |s| + 1)
  {
    assert DigitsEnd(s, 0) == 2 by { assert DigitsEnd(s, 1) == 2; }
    assert NumberAt(s, 0) == Some(Numeral(0, 2, 2)) && NumberAt(s, 1) == Some(Numeral(1, 2, 2));
    assert SpacesEnd(s, 2) == 2 && SpacesEnd(s, 3) == 3 && NumberAt(s, 3).None?;
    FeetAndInchesMissing(s, 0);
    FeetAndInchesMissing(s, 1);
    NotDigitNoMatch(FeetAndInches, s, 2);
    NotDigitNoMatch(FeetAndInches, s, 3);
    MissesEverywhere(FeetAndInches, s, 0, 4);
  }

  /** Text without an apostrophe is not a takeoff. */
  lemma JunkTakeoff(s: string)
    requires s == "junk"
    ensures ParseTakeoffToFeet(Some(s)) == None
  {
    assert NormalizeQuotes("junk") == "junk";
    UnpaddedInput(s);
    JunkTakeoffText(NormalizeQuotes(s));
  }

  lemma JunkTakeoffText(s: string)
    requires s == "junk"
    ensures TakeoffOfText(s) == None
  {
    JunkFeetInches(s);
  }

  lemma JunkFeetInches(s: string)
    requires s == "junk"
    ensures ParseFeetInches(s).None?
  {
    assert forall k :: 0 <= k < |s| ==> s[k] != '\'';
    NoMarkNoFeetInches(s);
  }

  // ---------------------------------------------------------------------------
  // Pole descriptions: "15’ 170lbs 18.5"
  // ---------------------------------------------------------------------------

  /** Length, rating and flex: the flex is the last numeral, outside the
      length and the rating, since both were found. */
  lemma PoleLengthRatingFlex(raw: string)
    requires raw == "15’ 170lbs 18.5"
    ensures ParsePole(Some(raw)) == ParsedPole(Some(15.0), Some(170.0), Some(18.5), raw)
  {
    assert NormalizeQuotes("15’ 170lbs 18.5") == "15' 170lbs 18.5";
    UnpaddedInput(raw);
    var s := Normalized(Some(raw));
    PoleOneLength(s);
    PoleOneRating(s);
    PoleOneNoFlexLabel(s);
    PoleOneTokens(s);
    PoleOneValues(s);
    PoleFallbackFlex(Some(raw), 2);
  }

  /** The numerals of "15' 170lbs 18.5" and the spaces after them: the length... */
  lemma PoleOneLengthNumbers(s: string)
    requires s == "15' 170lbs 18.5"
    ensures NumberAt(s, 0) == Some(Numeral(0, 2, 2)) && NumberAt(s, 1) == Some(Numeral(1, 2, 2))
    ensures SpacesEnd(s, 2) == 2 && SpacesEnd(s, 3) == 4
  {
    assert DigitsEnd(s, 0) == 2 by { assert DigitsEnd(s, 1) == 2; }
  }

  /** ...the rating... */
  lemma PoleOneRatingNumbers(s: string)
    requires s == "15' 170lbs 18.5"
    ensures NumberAt(s, 4) == Some(Numeral(4, 7, 7)) && NumberAt(s, 5) == Some(Numeral(5, 7, 7))
    ensures NumberAt(s, 6) == Some(Numeral(6, 7, 7)) && SpacesEnd(s, 7) == 7
  {
    assert DigitsEnd(s, 4) == 7 by { assert DigitsEnd(s, 6) == 7; assert DigitsEnd(s, 5) == 7; }
  }

  /** ...and the flex. */
  lemma PoleOneFlexNumbers(s: string)
    requires s == "15' 170lbs 18.5"
    ensures NumberAt(s, 11) == Some(Numeral(11, 13, 15)) && NumberAt(s, 12) == Some(Numeral(12, 13, 15))
    ensures NumberAt(s, 14) == Some(Numeral(14, 15, 15)) && SpacesEnd(s, 15) == 15
  {
    assert DigitsEnd(s, 11) == 13 by { assert DigitsEnd(s, 12) == 13; }
    assert DigitsEnd(s, 14) == 15;
  }

  lemma PoleOneValues(s: string)
    requires s == "15' 170lbs 18.5"
    ensures IsNumeralAt(s, Numeral(0, 2, 2)) && NumeralValue(s, Numeral(0, 2, 2)) == 15.0
    ensures IsNumeralAt(s, Numeral(4, 7, 7)) && NumeralValue(s, Numeral(4, 7, 7)) == 170.0
    ensures IsNumeralAt(s, Numeral(11, 13, 15)) && NumeralValue(s, Numeral(11, 13, 15)) == 18.5
  {
    FifteenFeet(s);
    OneSeventyPounds(s);
    EighteenPointFive(s);
  }

  lemma FifteenFeet(s: string)
    requires s == "15' 170lbs 18.5"
    ensures IsNumeralAt(s, Numeral(0, 2, 2)) && NumeralValue(s, Numeral(0, 2, 2)) == 15.0
  {
    TwoDigitValue(s, 0);
  }

  lemma OneSeventyPounds(s: string)
    requires s == "15' 170lbs 18.5"
    ensures IsNumeralAt(s, Numeral(4, 7, 7)) && NumeralValue(s, Numeral(4, 7, 7)) == 170.0
  {
    ThreeDigitValue(s, 4);
  }

  lemma EighteenPointFive(s: string)
    requires s == "15' 170lbs 18.5"
    ensures IsNumeralAt(s, Numeral(11, 13, 15)) && NumeralValue(s, Numeral(11, 13, 15)) == 18.5
  {
    TwoDigitValue(s, 11);
    OneDigitValue(s, 14);
  }

  /** No feet-and-inches form in the first half of the text... */
  lemma PoleOneNoFeetAndInchesBefore(s: string)
    requires s == "15' 170lbs 18.5"
    ensures forall q :: 0 <= q < 8 ==> MatchAt(FeetAndInches, s, q).None?
  {
    PoleOneNoFeetAndInchesInLength(s);
    PoleOneRatingNumbers(s);
    assert s[7] != '\'';
    FeetAndInchesMissing(s, 4);
    FeetAndInchesMissing(s, 5);
    FeetAndInchesMissing(s, 6);
    NotDigitNoMatch(FeetAndInches, s, 7);
  }

  lemma PoleOneNoFeetAndInchesInLength(s: string)
    requires s == "15' 170lbs 18.5"
    ensures forall q :: 0 <= q < 4 ==> MatchAt(FeetAndInches, s, q).None?
  {
    PoleOneLengthNumbers(s);
    PoleOneRatingNumbers(s);
    assert !InchMark(s, 7);
    FeetAndInchesMissing(s, 0);
    FeetAndInchesMissing(s, 1);
    NotDigitNoMatch(FeetAndInches, s, 2);
    NotDigitNoMatch(FeetAndInches, s, 3);
  }

  /** ...nor in the second. */
  lemma PoleOneNoFeetAndInchesAfter(s: string)
    requires s == "15' 170lbs 18.5"
    ensures forall q :: 8 <= q < 16 ==> MatchAt(FeetAndInches, s, q).None?
  {
    PoleOneFlexNumbers(s);
    NotDigitNoMatch(FeetAndInches, s, 8);
    NotDigitNoMatch(FeetAndInches, s, 9);
    NotDigitNoMatch(FeetAndInches, s, 10);
    FeetAndInchesMissing(s, 11);
    FeetAndInchesMissing(s, 12);
    NotDigitNoMatch(FeetAndInches, s, 13);
    FeetAndInchesMissing(s, 14);
    NotDigitNoMatch(FeetAndInches, s, 15);
  }

  /** The length: no feet-and-inches form, so the leftmost feet form, 15'. */
  lemma PoleOneLength(s: string)
    requires s == "15' 170lbs 18.5"
    ensures LengthFound(s) == Some(Found(15.0, Range(0, 3)))
  {
    PoleOneLengthNumbers(s);
    FifteenFeet(s);
    PoleOneNoFeetAndInchesBefore(s);
    PoleOneNoFeetAndInchesAfter(s);
    MissesEverywhere(FeetAndInches, s, 0, 16);
    SearchFindsNothing(FeetAndInches, s, 0);
    PoleFeetHere(s, 0, 2);
    SearchFindsLeftmost(PoleFeet, s, 0, 0);
  }

  /** The rating: 170lbs. */
  lemma PoleOneRating(s: string)
    requires s == "15' 170lbs 18.5"
    ensures RatingFound(s) == Some(Found(170.0, Range(4, 10)))
  {
    assert CiAt(s, 7, "lb") && Lower(s[9]) == 's' && IsBoundary(s, 10);
    PoleOneRatingNumbers(s);
    OneSeventyPounds(s);
    PoleOneNoRatingBefore(s);
    RatingHere(s, 4, 7);
    SearchFindsLeftmost(Rating, s, 0, 4);
  }

  lemma PoleOneNoRatingBefore(s: string)
    requires s == "15' 170lbs 18.5"
    ensures NoMatchIn(Rating, s, 0, 4)
  {
    assert !CiAt(s, 2, "lb");
    PoleOneLengthNumbers(s);
    KeywordMissing(Rating, s, 0, "lb");
    KeywordMissing(Rating, s, 1, "lb");
    NotDigitNoMatch(Rating, s, 2);
    NotDigitNoMatch(Rating, s, 3);
    MissesEverywhere(Rating, s, 0, 4);
  }

  lemma PoleOneNoFlexLabel(s: string)
    requires s == "15' 170lbs 18.5"
    ensures FlexLabelFound(s).None?
  {
    assert forall k :: 0 <= k < |s| ==> Lower(s[k]) != 'f';
    NoFNoFlex(s);
  }

  /** The numerals, left to right: 15, 170 and 18.5. */
  lemma PoleOneTokens(s: string)
    requires s == "15' 170lbs 18.5"
    ensures NumberTokens(s, 0) == [Match(0, 2, [Numeral(0, 2, 2)]), Match(4, 7, [Numeral(4, 7, 7)]),
                                   Match(11, 15, [Numeral(11, 13, 15)])]
  {
    var m0, m1, m2 := Match(0, 2, [Numeral(0, 2, 2)]), Match(4, 7, [Numeral(4, 7, 7)]), Match(11, 15, [Numeral(11, 13, 15)]);
    NoDigitsNoMatch(NumberToken, s, 15, 16);
    SearchFindsNothing(NumberToken, s, 15);
    assert NumberTokens(s, 15) == [];
    PoleOneThirdToken(s);
    assert NumberTokens(s, 7) == [m2];
    PoleOneSecondToken(s);
    assert NumberTokens(s, 2) == [m1] + [m2];
    PoleOneFirstToken(s);
    assert NumberTokens(s, 0) == [m0] + [m1, m2];
  }

  lemma PoleOneFirstToken(s: string)
    requires s == "15' 170lbs 18.5"
    ensures Search(NumberToken, s, 0) == Some(Match(0, 2, [Numeral(0, 2, 2)]))
  {
    PoleOneLengthNumbers(s);
    NumberTokenAt(s, 0);
    SearchFindsLeftmost(NumberToken, s, 0, 0);
  }

  lemma PoleOneSecondToken(s: string)
    requires s == "15' 170lbs 18.5"
    ensures Search(NumberToken, s, 2) == Some(Match(4, 7, [Numeral(4, 7, 7)]))
  {
    assert forall k :: 2 <= k < 4 ==> !IsDigit(s[k]);
    PoleOneRatingNumbers(s);
    NumberTokenAt(s, 4);
    NoDigitsNoMatch(NumberToken, s, 2, 4);
    SearchFindsLeftmost(NumberToken, s, 2, 4);
  }

  lemma PoleOneThirdToken(s: string)
    requires s == "15' 170lbs 18.5"
    ensures Search(NumberToken, s, 7) == Some(Match(11, 15, [Numeral(11, 13, 15)]))
  {
    assert forall k :: 7 <= k < 11 ==> !IsDigit(s[k]);
    PoleOneFlexNumbers(s);
    NumberTokenAt(s, 11);
    NoDigitsNoMatch(NumberToken, s, 7, 11);
    SearchFindsLeftmost(NumberToken, s, 7, 11);
  }

  // ---------------------------------------------------------------------------
  // Pole descriptions: "170 lbs 15'6\" 18.5"
  // ---------------------------------------------------------------------------

  /** An explicit feet-and-inches length is read with its inches, and the
      flex is again the last numeral. */
  lemma PoleInchesGiven(raw: string)
    requires raw == "170 lbs 15'6\" 18.5"
    ensures ParsePole(Some(raw)) == ParsedPole(Some(15.5), Some(170.0), Some(18.5), raw)
  {
    assert NormalizeQuotes("170 lbs 15'6\" 18.5") == "170 lbs 15'6\" 18.5";
    UnpaddedInput(raw);
    var s := Normalized(Some(raw));
    PoleTwoLength(s);
    PoleTwoRating(s);
    PoleTwoNoFlexLabel(s);
    PoleTwoTokens(s);
    PoleTwoFlexValue(s);
    PoleFallbackFlex(Some(raw), 3);
  }

  /** The rating's numeral, 170, and the spaces after it. */
  lemma PoleTwoRatingNumber(s: string)
    requires s == "170 lbs 15'6\" 18.5"
    ensures NumberAt(s, 0) == Some(Numeral(0, 3, 3)) && NumberAt(s, 1) == Some(Numeral(1, 3, 3))
    ensures NumberAt(s, 2) == Some(Numeral(2, 3, 3)) && SpacesEnd(s, 3) == 4
  {
    assert DigitsEnd(s, 0) == 3 by { assert DigitsEnd(s, 2) == 3; assert DigitsEnd(s, 1) == 3; }
    assert SpacesEnd(s, 4) == 4;
  }

  /** The length's numerals, 15 and 6, and the spaces after them. */
  lemma PoleTwoLengthNumbers(s: string)
    requires s == "170 lbs 15'6\" 18.5"
    ensures NumberAt(s, 8) == Some(Numeral(8, 10, 10)) && NumberAt(s, 11) == Some(Numeral(11, 12, 12))
    ensures SpacesEnd(s, 10) == 10 && SpacesEnd(s, 11) == 11 && SpacesEnd(s, 12) == 12
  {
    assert DigitsEnd(s, 8) == 10 by { assert DigitsEnd(s, 9) == 10; }
    assert DigitsEnd(s, 11) == 12;
  }

  /** The flex numeral, 18.5. */
  lemma PoleTwoFlexNumber(s: string)
    requires s == "170 lbs 15'6\" 18.5"
    ensures NumberAt(s, 14) == Some(Numeral(14, 16, 18))
  {
    assert DigitsEnd(s, 14) == 16 by { assert DigitsEnd(s, 15) == 16; }
    assert DigitsEnd(s, 17) == 18;
  }

  lemma PoleTwoLengthValues(s: string)
    requires s == "170 lbs 15'6\" 18.5"
    ensures IsNumeralAt(s, Numeral(8, 10, 10)) && NumeralValue(s, Numeral(8, 10, 10)) == 15.0
    ensures IsNumeralAt(s, Numeral(11, 12, 12)) && NumeralValue(s, Numeral(11, 12, 12)) == 6.0
  {
    TwoDigitValue(s, 8);
    OneDigitValue(s, 11);
  }

  lemma PoleTwoRatingValue(s: string)
    requires s == "170 lbs 15'6\" 18.5"
    ensures IsNumeralAt(s, Numeral(0, 3, 3)) && NumeralValue(s, Numeral(0, 3, 3)) == 170.0
  {
    ThreeDigitValue(s, 0);
  }

  lemma PoleTwoFlexValue(s: string)
    requires s == "170 lbs 15'6\" 18.5"
    ensures IsNumeralAt(s, Numeral(14, 16, 18)) && NumeralValue(s, Numeral(14, 16, 18)) == 18.5
  {
    TwoDigitValue(s, 14);
    OneDigitValue(s, 17);
  }

  /** The length: the feet-and-inches form 15'6", read as 15.5 feet. */
  lemma PoleTwoLength(s: string)
    requires s == "170 lbs 15'6\" 18.5"
    ensures LengthFound(s) == Some(Found(15.5, Range(8, 13)))
  {
    assert s[10] == '\'' && s[12] == '"';
    PoleTwoLengthNumbers(s);
    PoleTwoLengthValues(s);
    PoleTwoNoFeetAndInchesBefore(s);
    FeetAndInchesHere(s, 8, 10, 11, 12);
    SearchFindsLeftmost(FeetAndInches, s, 0, 8);
  }

  lemma PoleTwoNoFeetAndInchesBefore(s: string)
    requires s == "170 lbs 15'6\" 18.5"
    ensures NoMatchIn(FeetAndInches, s, 0, 8)
  {
    PoleTwoNoFeetAndInchesInRating(s);
    assert forall k :: 3 <= k < 8 ==> !IsDigit(s[k]);
    NotDigitNoMatch(FeetAndInches, s, 3);
    NotDigitNoMatch(FeetAndInches, s, 4);
    NotDigitNoMatch(FeetAndInches, s, 5);
    NotDigitNoMatch(FeetAndInches, s, 6);
    NotDigitNoMatch(FeetAndInches, s, 7);
    MissesEverywhere(FeetAndInches, s, 0, 8);
  }

  lemma PoleTwoNoFeetAndInchesInRating(s: string)
    requires s == "170 lbs 15'6\" 18.5"
    ensures forall q :: 0 <= q < 3 ==> MatchAt(FeetAndInches, s, q).None?
  {
    assert s[4] != '\'';
    PoleTwoRatingNumber(s);
    FeetAndInchesMissing(s, 0);
    FeetAndInchesMissing(s, 1);
    FeetAndInchesMissing(s, 2);
  }

  /** The rating: 170 lbs, at the start. */
  lemma PoleTwoRating(s: string)
    requires s == "170 lbs 15'6\" 18.5"
    ensures RatingFound(s) == Some(Found(170.0, Range(0, 7)))
  {
    assert CiAt(s, 4, "lb") && Lower(s[6]) == 's' && IsBoundary(s, 7);
    PoleTwoRatingNumber(s);
    PoleTwoRatingValue(s);
    RatingHere(s, 0, 4);
    SearchFindsLeftmost(Rating, s, 0, 0);
  }

  lemma PoleTwoNoFlexLabel(s: string)
    requires s == "170 lbs 15'6\" 18.5"
    ensures FlexLabelFound(s).None?
  {
    assert forall k :: 0 <= k < |s| ==> Lower(s[k]) != 'f';
    NoFNoFlex(s);
  }

  /** The numerals, left to right: 170, 15, 6 and 18.5. */
  lemma PoleTwoTokens(s: string)
    requires s == "170 lbs 15'6\" 18.5"
    ensures NumberTokens(s, 0) == [Match(0, 3, [Numeral(0, 3, 3)]), Match(8, 10, [Numeral(8, 10, 10)]),
                                   Match(11, 12, [Numeral(11, 12, 12)]), Match(14, 18, [Numeral(14, 16, 18)])]
  {
    var m0, m1 := Match(0, 3, [Numeral(0, 3, 3)]), Match(8, 10, [Numeral(8, 10, 10)]);
    var m2, m3 := Match(11, 12, [Numeral(11, 12, 12)]), Match(14, 18, [Numeral(14, 16, 18)]);
    NoDigitsNoMatch(NumberToken, s, 18, 19);
    SearchFindsNothing(NumberToken, s, 18);
    assert NumberTokens(s, 18) == [];
    PoleTwoLaterTokens(s);
    assert NumberTokens(s, 12) == [m3];
    assert NumberTokens(s, 10) == [m2] + [m3];
    PoleTwoEarlierTokens(s);
    assert NumberTokens(s, 3) == [m1] + [m2, m3];
    assert NumberTokens(s, 0) == [m0] + [m1, m2, m3];
  }

  lemma PoleTwoEarlierTokens(s: string)
    requires s == "170 lbs 15'6\" 18.5"
    ensures Search(NumberToken, s, 0) == Some(Match(0, 3, [Numeral(0, 3, 3)]))
    ensures Search(NumberToken, s, 3) == Some(Match(8, 10, [Numeral(8, 10, 10)]))
  {
    assert forall k :: 3 <= k < 8 ==> !IsDigit(s[k]);
    PoleTwoRatingNumber(s);
    PoleTwoLengthNumbers(s);
    NumberTokenAt(s, 0);
    SearchFindsLeftmost(NumberToken, s, 0, 0);
    NumberTokenAt(s, 8);
    NoDigitsNoMatch(NumberToken, s, 3, 8);
    SearchFindsLeftmost(NumberToken, s, 3, 8);
  }

  lemma PoleTwoLaterTokens(s: string)
    requires s == "170 lbs 15'6\" 18.5"
    ensures Search(NumberToken, s, 10) == Some(Match(11, 12, [Numeral(11, 12, 12)]))
    ensures Search(NumberToken, s, 12) == Some(Match(14, 18, [Numeral(14, 16, 18)]))
  {
    PoleTwoInchesToken(s);
    PoleTwoFlexToken(s);
  }

  lemma PoleTwoInchesToken(s: string)
    requires s == "170 lbs 15'6\" 18.5"
    ensures Search(NumberToken, s, 10) == Some(Match(11, 12, [Numeral(11, 12, 12)]))
  {
    assert !IsDigit(s[10]);
    PoleTwoLengthNumbers(s);
    NumberTokenAt(s, 11);
    NoDigitsNoMatch(NumberToken, s, 10, 11);
    SearchFindsLeftmost(NumberToken, s, 10, 11);
  }

  lemma PoleTwoFlexToken(s: string)
    requires s == "170 lbs 15'6\" 18.5"
    ensures Search(NumberToken, s, 12) == Some(Match(14, 18, [Numeral(14, 16, 18)]))
  {
    assert !IsDigit(s[12]) && !IsDigit(s[13]);
    PoleTwoFlexNumber(s);
    NumberTokenAt(s, 14);
    NoDigitsNoMatch(NumberToken, s, 12, 14);
    SearchFindsLeftmost(NumberToken, s, 12, 14);
  }
}
