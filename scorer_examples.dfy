/**
 * Worked receipts: a short sample receipt that earns something under
 * every rule, the boundary cases of the time rules, and the inputs behind
 * the null-dereference and negative-score findings.
 */
module ScorerExamples {
  import opened Wrappers
  import opened Strings
  import opened Strconv
  import opened Calendar
  import opened Money
  import opened Scorer

  lemma ReadTwoDigits(s: string)
    requires |s| == 2 && AllDigits(s)
    ensures Atoi(s) == Some(10 * DigitValue(s[0]) + DigitValue(s[1]))
  {
    DigitsValue2(s);
    AtoiAccepts(s);
  }

  /** A time written HH:MM is the hour and minute its digits spell, if both are in range. */
  lemma ParseTimeDigits(s: string)
    requires |s| == 5 && s[2] == ':' && IsDigit(s[0]) && IsDigit(s[1]) && IsDigit(s[3]) && IsDigit(s[4])
    ensures var hour := 10 * DigitValue(s[0]) + DigitValue(s[1]);
      var minute := 10 * DigitValue(s[3]) + DigitValue(s[4]);
      ParseTime(s) == if hour <= 23 && minute <= 59 then Some(Clock(hour, minute)) else None
  {
    assert s == s[..2] + [':'] + s[3..];
    ReadTwoDigits(s[..2]);
    ReadTwoDigits(s[3..]);
    ParseTimeOfParts(s[..2], s[3..]);
  }

  /** "13:01" is one minute past one in the afternoon. */
  lemma TimeThirteenOhOne()
    ensures ParseTime("13:01") == Some(Clock(13, 1))
  {
    var s := "13:01";
    assert s[0] == '1' && s[1] == '3' && s[2] == ':' && s[3] == '0' && s[4] == '1';
    ParseTimeDigits(s);
  }

  /** Atoi accepts a one-digit minute, so the time check does too. */
  lemma OneDigitMinute()
    ensures ParseTime("14:5") == Some(Clock(14, 5))
  {
    var s := "14:5";
    assert s == s[..2] + [':'] + s[3..];
    assert s[0] == '1' && s[1] == '4' && s[3] == '5';
    ReadTwoDigits(s[..2]);
    AtoiAccepts(s[3..]);
    ParseTimeOfParts(s[..2], s[3..]);
  }

  /** Atoi accepts a leading sign, so the time check does too. */
  lemma SignedHour()
    ensures ParseTime("+14:05") == Some(Clock(14, 5))
  {
    var s := "+14:05";
    assert s == s[..3] + [':'] + s[4..];
    assert s[..3] == ['+'] + s[1..3];
    assert s[1] == '1' && s[2] == '4' && s[4] == '0' && s[5] == '5';
    DigitsValue2(s[1..3]);
    AtoiAccepts(s[1..3]);
    ReadTwoDigits(s[4..]);
    ParseTimeOfParts(s[..3], s[4..]);
  }

  /** The hour 24 is out of range. */
  lemma HourTwentyFourRejected()
    ensures ParseTime("24:00") == None
  {
    var s := "24:00";
    assert s[0] == '2' && s[1] == '4' && s[2] == ':' && s[3] == '0' && s[4] == '0';
    ParseTimeDigits(s);
  }

  /** The minute 60 is out of range. */
  lemma MinuteSixtyRejected()
    ensures ParseTime("12:60") == None
  {
    var s := "12:60";
    assert s[0] == '1' && s[1] == '2' && s[2] == ':' && s[3] == '6' && s[4] == '0';
    ParseTimeDigits(s);
  }

  /** A time without exactly one colon is rejected, seconds included. */
  lemma ColonCountRejected()
    ensures ParseTime("1200") == None
    ensures ParseTime("12:00:00") == None
  {
    ParseTimeOneColon("1200");
    assert Occurrences("1200", ':') == 0;
    ParseTimeOneColon("12:00:00");
    assert Occurrences("12:00:00", ':') == 2;
  }

  /** 16:00 is the last minute of the afternoon window; 13:59 and 16:01 fall outside it. */
  lemma AfternoonBoundaries()
    ensures AfternoonPoints(Clock(14, 0)) == 10
    ensures AfternoonPoints(Clock(16, 0)) == 10
    ensures AfternoonPoints(Clock(16, 1)) == 0
    ensures AfternoonPoints(Clock(13, 59)) == 0
  {
  }

  /** "2022-01-01" is the first of January 2022. */
  lemma NewYearsDay()
    ensures ParseDate("2022-01-01") == Some(Date(2022, 1, 1))
  {
    var s := "2022-01-01";
    assert s[0] == '2' && s[1] == '0' && s[2] == '2' && s[3] == '2'
      && s[5] == '0' && s[6] == '1' && s[8] == '0' && s[9] == '1';
    ParseDateDigits(s);
  }

  /** "2022-03-21" is the twenty-first of March 2022, an odd day. */
  lemma TwentyFirstOfMarch()
    ensures ParseDate("2022-03-21") == Some(Date(2022, 3, 21))
  {
    var s := "2022-03-21";
    assert s[0] == '2' && s[1] == '0' && s[2] == '2' && s[3] == '2'
      && s[5] == '0' && s[6] == '3' && s[8] == '2' && s[9] == '1';
    ParseDateDigits(s);
  }

  /** The sample's two items: " abc " and "ab", both at 2.25. */
  function SampleItemList(): seq<Option<Item>>
  {
    [Some(Item(Some(" abc "), Some(Decimal(225, 2)))), Some(Item(Some("ab"), Some(Decimal(225, 2))))]
  }

  /** A receipt that earns something under every rule but the afternoon and odd-day ones, which depend on its time and date. */
  function Sample(time: string, date: string): Receipt
  {
    Receipt(Some("M&M"), Some(date), Some(time), Some(Decimal(900, 2)), Some(SampleItemList()))
  }

  /** "M&M" keeps its two letters; the ampersand earns nothing. */
  lemma SampleRetailer()
    ensures RetailerPoints("M&M") == 2
  {
    RetailerPointsPerCharacter("M", '&', "M");
    RetailerPointsAllAlnum("MM");
  }

  /** " abc " trims to three characters and earns ceil(2.25 * 0.2) = 1. */
  lemma PaddedLineEarnsOne()
    ensures LinePoints(Line(" abc ", Decimal(225, 2))) == 1
  {
    TrimSpaceSurrounded(" ", "abc", " ");
    assert " " + "abc" + " " == " abc ";
    CentsRules(225);
  }

  /** "ab" has two characters and earns nothing. */
  lemma ShortLineEarnsNothing()
    ensures LinePoints(Line("ab", Decimal(225, 2))) == 0
  {
    TrimSpaceSurrounded([], "ab", []);
    assert [] + "ab" + [] == "ab";
  }

  /** The bonus of two lines is the sum of theirs. */
  lemma LinesPointsOfTwo(lines: seq<Line>)
    requires |lines| == 2
    ensures LinesPoints(lines) == LinePoints(lines[0]) + LinePoints(lines[1])
  {
    LinesPointsPrefix(lines, 0);
    LinesPointsPrefix(lines, 1);
    assert lines[..0] == [] && lines[..2] == lines;
  }

  /** The sample's items are complete and earn 1 + 0. */
  lemma SampleItems()
    ensures AllComplete(SampleItemList())
    ensures LinesPoints(Lines(SampleItemList())) == 1
  {
    var lines := Lines(SampleItemList());
    assert lines[0] == Line(" abc ", Decimal(225, 2)) && lines[1] == Line("ab", Decimal(225, 2));
    PaddedLineEarnsOne();
    ShortLineEarnsNothing();
    LinesPointsOfTwo(lines);
  }

  /** 9.00 is a whole amount: 50 + 25. */
  lemma SampleTotal()
    ensures TotalPoints(Decimal(900, 2)) == 75
  {
    TotalPointsInCents(900);
  }

  /** Whatever its time and date, the sample earns 2 + 75 + 5 + 1 = 83 plus the afternoon and odd-day bonuses. */
  lemma SampleScores(time: string, t: Clock, date: string, d: Date)
    requires ParseTime(time) == Some(t) && ParseDate(date) == Some(d)
    ensures Score(Some(Sample(time, date))) == Ok(83 + AfternoonPoints(t) + OddDayPoints(d))
  {
    SampleItems();
    SampleRetailer();
    SampleTotal();
    ScoreOfFields("M&M", date, time, Decimal(900, 2), SampleItemList(), t, d);
  }

  /** "16:00" reads as 16 hours and 0 minutes. */
  lemma FourOClock()
    ensures ParseTime("16:00") == Some(Clock(16, 0))
  {
    var s := "16:00";
    assert s[0] == '1' && s[1] == '6' && s[2] == ':' && s[3] == '0' && s[4] == '0';
    ParseTimeDigits(s);
  }

  /** "16:01" reads as 16 hours and 1 minute. */
  lemma OneMinutePastFour()
    ensures ParseTime("16:01") == Some(Clock(16, 1))
  {
    var s := "16:01";
    assert s[0] == '1' && s[1] == '6' && s[2] == ':' && s[3] == '0' && s[4] == '1';
    ParseTimeDigits(s);
  }

  /** At a time that reads 16:00 (FourOClock) on a date that reads 2022-03-21 (TwentyFirstOfMarch), the sample scores 83 + 10 + 6 = 99. */
  lemma SampleAtFourScores99(time: string, date: string)
    requires ParseTime(time) == Some(Clock(16, 0)) && ParseDate(date) == Some(Date(2022, 3, 21))
    ensures Score(Some(Sample(time, date))) == Ok(99)
  {
    SampleScores(time, Clock(16, 0), date, Date(2022, 3, 21));
  }

  /** One minute later (OneMinutePastFour) the afternoon bonus is gone: 89. */
  lemma SampleAtFourOhOneScores89(time: string, date: string)
    requires ParseTime(time) == Some(Clock(16, 1)) && ParseDate(date) == Some(Date(2022, 3, 21))
    ensures Score(Some(Sample(time, date))) == Ok(89)
  {
    SampleScores(time, Clock(16, 1), date, Date(2022, 3, 21));
  }

  /** A total of 100.00 earns both the round-dollar and the quarter bonus; 35.35 earns neither. */
  lemma TotalExamples()
    ensures TotalPoints(Decimal(10000, 2)) == 75
    ensures TotalPoints(Decimal(3535, 2)) == 0
    ensures TotalPoints(Decimal(3525, 2)) == 25
  {
    TotalPointsInCents(10000);
    TotalPointsInCents(3535);
    TotalPointsInCents(3525);
  }

  // ---------------------------------------------------------------------
  // Findings

  /** A JSON body `null` decodes to a null receipt, which the service dereferences; the model calls it invalid. */
  lemma NullBodyPanics()
    ensures ScoreAsWritten(None) == NullDereference
    ensures Score(None) == Invalid
  {
  }

  /** A receipt otherwise valid whose items are `[null]`. */
  function NullItemReceipt(): Receipt
  {
    Receipt(Some("T"), Some("2022-01-01"), Some("13:01"), Some(Decimal(100, 2)), Some([None]))
  }

  /** The item loop dereferences the null item; the model calls the receipt invalid. */
  lemma NullItemPanics()
    ensures ScoreAsWritten(Some(NullItemReceipt())) == NullDereference
    ensures Score(Some(NullItemReceipt())) == Invalid
  {
    TimeThirteenOhOne();
    NewYearsDay();
  }

  /** "abc" qualifies, and ceil(-100.00 * 0.2) = -20. */
  lemma NegativeLineEarnsMinusTwenty()
    ensures LinePoints(Line("abc", Decimal(-10000, 2))) == -20
  {
    TrimSpaceSurrounded([], "abc", []);
    assert [] + "abc" + [] == "abc";
    CentsRules(-10000);
  }

  /** The one item of the negative-price receipt. */
  function NegativeItemList(): seq<Option<Item>>
  {
    [Some(Item(Some("abc"), Some(Decimal(-10000, 2))))]
  }

  /** The item is complete and its bonus is -20. */
  lemma NegativeItems()
    ensures AllComplete(NegativeItemList())
    ensures LinesPoints(Lines(NegativeItemList())) == -20
  {
    var lines := Lines(NegativeItemList());
    assert lines[0] == Line("abc", Decimal(-10000, 2));
    NegativeLineEarnsMinusTwenty();
    LinesPointsPrefix(lines, 0);
    assert lines[..0] == [] && lines[..1] == lines;
  }

  /** A receipt from an unnamed retailer totalling 0.01 whose one item has a qualifying description and a price of -100.00. */
  function NegativePriceReceipt(time: string, date: string): Receipt
  {
    Receipt(Some(""), Some(date), Some(time), Some(Decimal(1, 2)), Some(NegativeItemList()))
  }

  /**
   * Nothing rejects a negative price: the receipt is accepted at every
   * valid time and date, and the item's -20 outweighs the 16 points of
   * bonus it can earn at most, so its score is negative.
   */
  lemma NegativePriceScores(time: string, t: Clock, date: string, d: Date)
    requires ParseTime(time) == Some(t) && ParseDate(date) == Some(d)
    ensures Score(Some(NegativePriceReceipt(time, date))) == Ok(-20 + AfternoonPoints(t) + OddDayPoints(d))
    ensures Score(Some(NegativePriceReceipt(time, date))).points <= -4
  {
    NegativeItems();
    TotalPointsInCents(1);
    assert RetailerPoints("") == 0;
    ScoreOfFields("", date, time, Decimal(1, 2), NegativeItemList(), t, d);
  }
}
