/**
 * The receipt validator and scorer (calculatePoints): a receipt with every
 * field present, a well-formed purchase time and date and complete items
 * earns the sum of seven independent contributions; any other receipt is
 * invalid. `Score` states the rules as a function; `CalculatePoints`
 * computes the same result the way the service does, by successive
 * additions and two passes over the items.
 */
module Scorer {
  import opened Wrappers
  import opened Strings
  import opened Strconv
  import opened Calendar
  import opened Money

  /** One line of a decoded receipt; a field the document omits is `None`. */
  datatype Item = Item(shortDescription: Option<string>, price: Option<Decimal>)

  /** A decoded receipt; `items` is a list of possibly-null items, itself possibly absent. */
  datatype Receipt = Receipt(
    retailer: Option<string>,
    purchaseDate: Option<string>,
    purchaseTime: Option<string>,
    total: Option<Decimal>,
    items: Option<seq<Option<Item>>>)

  /** An item with both of its fields present. */
  datatype Line = Line(description: string, price: Decimal)

  /** Hour and minute of the purchase time. */
  datatype Clock = Clock(hour: int, minute: int)

  /** The scorer's answer: a score, or the single validation error. */
  datatype Outcome = Ok(points: int) | Invalid

  // ---------------------------------------------------------------------
  // Validation

  /**
   * The purchase time: exactly one `:`, both sides read by strconv.Atoi
   * (so a sign, one digit or extra leading zeros are all accepted), the
   * hour in 0..23 and the minute in 0..59.
   */
  function ParseTime(s: string): (t: Option<Clock>)
    ensures t.Some? ==> 0 <= t.value.hour <= 23 && 0 <= t.value.minute <= 59
  {
    var parts := Split(s, ':');
    if |parts| != 2 then None
    else
      var hour := Atoi(parts[0]);
      if hour.None? || hour.value < 0 || hour.value > 23 then None
      else
        var minute := Atoi(parts[1]);
        if minute.None? || minute.value < 0 || minute.value > 59 then None
        else Some(Clock(hour.value, minute.value))
  }

  /** An accepted time holds exactly one colon. */
  lemma ParseTimeOneColon(s: string)
    ensures ParseTime(s).Some? ==> Occurrences(s, ':') == 1
  {
    SplitPieces(s, ':');
  }

  /** A time with one colon is accepted exactly when both sides are integers in range. */
  lemma ParseTimeOfParts(a: string, b: string)
    requires ':' !in a && ':' !in b
    ensures ParseTime(a + [':'] + b) ==
      if Atoi(a).Some? && Atoi(b).Some? && 0 <= Atoi(a).value <= 23 && 0 <= Atoi(b).value <= 59
      then Some(Clock(Atoi(a).value, Atoi(b).value))
      else None
  {
    assert Join([a, b], ':') == a + [':'] + b by {
      assert [a, b][1..] == [b];
    }
    SplitJoin([a, b], ':');
  }

  /** Every in-range clock time is accepted in its "HH:MM" form. */
  lemma ParseTimeFormat(hour: nat, minute: nat)
    requires hour <= 23 && minute <= 59
    ensures ParseTime(PadDigits(hour, 2) + [':'] + PadDigits(minute, 2)) == Some(Clock(hour, minute))
  {
    AtoiPadded(hour, 2);
    AtoiPadded(minute, 2);
    ParseTimeOfParts(PadDigits(hour, 2), PadDigits(minute, 2));
  }

  predicate IsComplete(item: Option<Item>)
  {
    item.Some? && item.value.shortDescription.Some? && item.value.price.Some?
  }

  predicate AllComplete(items: seq<Option<Item>>)
  {
    forall i :: 0 <= i < |items| ==> IsComplete(items[i])
  }

  function ToLine(item: Option<Item>): Line
    requires IsComplete(item)
  {
    Line(item.value.shortDescription.value, item.value.price.value)
  }

  /** The complete items as lines, in order. */
  function Lines(items: seq<Option<Item>>): (lines: seq<Line>)
    requires AllComplete(items)
    ensures |lines| == |items|
    ensures forall i :: 0 <= i < |items| ==>
      lines[i].description == items[i].value.shortDescription.value
      && lines[i].price == items[i].value.price.value
  {
    seq(|items|, i requires 0 <= i < |items| => ToLine(items[i]))
  }

  // ---------------------------------------------------------------------
  // The seven contributions

  /** One point per ASCII letter or digit of the retailer name (the byte length of the filtered name). */
  function RetailerPoints(retailer: string): (n: nat)
  {
    Utf8Len(StripNonAlnum(retailer))
  }

  /** The retailer score is the number of letters and digits the filter keeps. */
  lemma RetailerPointsCountsKept(retailer: string)
    ensures RetailerPoints(retailer) == |StripNonAlnum(retailer)| <= |retailer|
  {
    Utf8LenAscii(StripNonAlnum(retailer));
  }

  /** A letter or digit adds one point wherever it stands; any other character adds nothing. */
  lemma RetailerPointsPerCharacter(a: string, c: char, b: string)
    ensures RetailerPoints(a + [c] + b) == RetailerPoints(a + b) + (if IsAsciiAlnum(c) then 1 else 0)
  {
    StripNonAlnumAppend(a + [c], b);
    StripNonAlnumAppend(a, [c]);
    StripNonAlnumAppend(a, b);
    assert StripNonAlnum([c]) == (if IsAsciiAlnum(c) then [c] else []) by {
      assert [c][1..] == [];
    }
    RetailerPointsCountsKept(a + [c] + b);
    RetailerPointsCountsKept(a + b);
  }

  /** A name made only of letters and digits scores its length. */
  lemma RetailerPointsAllAlnum(retailer: string)
    requires forall i :: 0 <= i < |retailer| ==> IsAsciiAlnum(retailer[i])
    ensures RetailerPoints(retailer) == |retailer|
  {
    StripNonAlnumKeepsAlnum(retailer);
    RetailerPointsCountsKept(retailer);
  }

  /** 50 points for a whole total, and 25 more for a total that is a multiple of 0.25. */
  function TotalPoints(total: Decimal): (n: nat)
  {
    (if IsWhole(total) then 50 else 0) + (if IsQuarterMultiple(total) then 25 else 0)
  }

  /** A whole total earns 75 in all, any other multiple of 0.25 earns 25, the rest nothing. */
  lemma TotalPointsCases(total: Decimal)
    ensures TotalPoints(total) ==
      if IsWhole(total) then 75 else if IsQuarterMultiple(total) then 25 else 0
  {
    if IsWhole(total) {
      WholeIsQuarterMultiple(total);
    }
  }

  /** The total rules on an amount written with two decimals, in whole cents. */
  lemma TotalPointsInCents(cents: int)
    ensures TotalPoints(Decimal(cents, 2)) ==
      if cents % 100 == 0 then 75 else if cents % 25 == 0 then 25 else 0
  {
    CentsRules(cents);
    TotalPointsCases(Decimal(cents, 2));
  }

  /** Five points per complete pair of items. */
  function PairPoints(count: nat): nat
  {
    5 * (count / 2)
  }

  /** The pair bonus is 5 times a number `k` of pairs with 2k items, or 2k + 1 when one is left over. */
  lemma PairPointsPerPair(count: nat)
    ensures PairPoints(count) % 5 == 0
    ensures 2 * (PairPoints(count) / 5) <= count <= 2 * (PairPoints(count) / 5) + 1
  {
  }

  /** The trimmed description's byte length is a multiple of 3 (an empty one included). */
  predicate Qualifies(line: Line)
  {
    Utf8Len(TrimSpace(line.description)) % 3 == 0
  }

  /** A qualifying line earns the ceiling of a fifth of its price; any other line nothing. */
  function LinePoints(line: Line): int
  {
    if Qualifies(line) then FifthCeil(line.price) else 0
  }

  /**
   * A qualifying line earns the least integer `n` with price <= 5 * n,
   * i.e. ceil(price * 0.2); any other line earns nothing.
   */
  lemma LinePointsRule(line: Line)
    ensures var n := LinePoints(line);
      && (!Qualifies(line) ==> n == 0)
      && (Qualifies(line) ==>
            (n - 1) * (5 * Pow10(line.price.scale)) < line.price.units <= n * (5 * Pow10(line.price.scale)))
  {
    if Qualifies(line) {
      FifthCeilIsCeiling(line.price);
    }
  }

  /** The description bonus summed over the lines. */
  function LinesPoints(lines: seq<Line>): int
  {
    if lines == [] then 0 else LinesPoints(lines[..|lines| - 1]) + LinePoints(lines[|lines| - 1])
  }

  /** The description bonus of a list is the sum of its parts'. */
  lemma {:induction false} LinesPointsAppend(a: seq<Line>, b: seq<Line>)
    ensures LinesPoints(a + b) == LinesPoints(a) + LinesPoints(b)
  {
    if b == [] {
      assert a + b == a;
    } else {
      var init := b[..|b| - 1];
      assert (a + b)[..|a + b| - 1] == a + init;
      LinesPointsAppend(a, init);
    }
  }

  /** Extending a prefix by one line adds that line's bonus. */
  lemma LinesPointsPrefix(lines: seq<Line>, i: nat)
    requires i < |lines|
    ensures LinesPoints(lines[..i + 1]) == LinesPoints(lines[..i]) + LinePoints(lines[i])
  {
    assert lines[..i + 1][..i] == lines[..i];
  }

  /** Lines none of which qualifies earn no description bonus. */
  lemma {:induction false} LinesPointsNoneQualify(lines: seq<Line>)
    requires forall i :: 0 <= i < |lines| ==> !Qualifies(lines[i])
    ensures LinesPoints(lines) == 0
  {
    if lines != [] {
      LinesPointsNoneQualify(lines[..|lines| - 1]);
    }
  }

  /** With no negative price, the description bonus is never negative. */
  lemma {:induction false} LinesPointsNonNegative(lines: seq<Line>)
    requires forall i :: 0 <= i < |lines| ==> lines[i].price.units >= 0
    ensures LinesPoints(lines) >= 0
  {
    if lines != [] {
      var init := lines[..|lines| - 1];
      assert forall i :: 0 <= i < |init| ==> init[i] == lines[i];
      LinesPointsNonNegative(init);
      FifthCeilNonNegative(lines[|lines| - 1].price);
    }
  }

  /** 10 points for a purchase from 14:00 up to and including 16:00. */
  function AfternoonPoints(t: Clock): (n: nat)
  {
    if (t.hour >= 14 && t.hour < 16) || (t.hour == 16 && t.minute == 0) then 10 else 0
  }

  /** For a valid time, the bonus is paid exactly inside the window [14:00, 16:00] of minutes since midnight. */
  lemma AfternoonWindow(t: Clock)
    requires 0 <= t.hour <= 23 && 0 <= t.minute <= 59
    ensures AfternoonPoints(t) == (if 14 * 60 <= 60 * t.hour + t.minute <= 16 * 60 then 10 else 0)
  {
  }

  /** 6 points for an odd day of the month. */
  function OddDayPoints(d: Date): (n: nat)
  {
    if d.day % 2 == 1 then 6 else 0
  }

  /** The odd-day bonus of a parsed date is read off the last digit of its text. */
  lemma OddDayFromText(s: string, d: Date)
    requires ParseDate(s) == Some(d)
    ensures |s| == 10 && IsDigit(s[9])
    ensures OddDayPoints(d) == if DigitValue(s[9]) % 2 == 1 then 6 else 0
  {
    var dd := s[8..];
    assert |s| == 10 && AllDigits(dd) && d.day == DigitsValue(dd);
    assert dd[1] == s[9];
    DigitsValue2(dd);
  }

  /** The score of a receipt that passed validation. */
  function Points(retailer: string, total: Decimal, lines: seq<Line>, t: Clock, d: Date): int
  {
    RetailerPoints(retailer) + TotalPoints(total) + PairPoints(|lines|) + LinesPoints(lines)
    + AfternoonPoints(t) + OddDayPoints(d)
  }

  // ---------------------------------------------------------------------
  // The scorer

  /** Some required part of the receipt is absent: the receipt itself, one of its five fields, an item, or an item's field. */
  predicate Incomplete(receipt: Option<Receipt>)
  {
    receipt.None?
    || receipt.value.retailer.None? || receipt.value.purchaseDate.None?
    || receipt.value.purchaseTime.None? || receipt.value.total.None? || receipt.value.items.None?
    || !AllComplete(receipt.value.items.value)
  }

  /**
   * The validation and scoring rules. A null receipt is invalid here; the
   * service as written dereferences it instead (see ScoreAsWritten).
   */
  function Score(receipt: Option<Receipt>): (out: Outcome)
    ensures Incomplete(receipt) ==> out == Invalid
  {
    if receipt.None? then Invalid
    else
      var r := receipt.value;
      if r.retailer.None? || r.purchaseDate.None? || r.purchaseTime.None? || r.total.None? || r.items.None? then
        Invalid
      else
        match ParseTime(r.purchaseTime.value)
        case None => Invalid
        case Some(t) =>
          match ParseDate(r.purchaseDate.value)
          case None => Invalid
          case Some(d) =>
            if !AllComplete(r.items.value) then Invalid
            else Ok(Points(r.retailer.value, r.total.value, Lines(r.items.value), t, d))
  }

  /** A receipt with a malformed purchase time or date is invalid. */
  lemma ScoreRejectsMalformed(receipt: Option<Receipt>)
    requires receipt.Some? && receipt.value.purchaseTime.Some? && receipt.value.purchaseDate.Some?
    requires ParseTime(receipt.value.purchaseTime.value) == None
          || ParseDate(receipt.value.purchaseDate.value) == None
    ensures Score(receipt) == Invalid
  {
  }

  /** Every complete receipt with a well-formed time and date is scored, with the sum of the seven contributions. */
  lemma ScoreAccepts(receipt: Option<Receipt>, t: Clock, d: Date)
    requires !Incomplete(receipt)
    requires ParseTime(receipt.value.purchaseTime.value) == Some(t)
    requires ParseDate(receipt.value.purchaseDate.value) == Some(d)
    ensures Score(receipt) == Ok(
      RetailerPoints(receipt.value.retailer.value) + TotalPoints(receipt.value.total.value)
      + PairPoints(|receipt.value.items.value|) + LinesPoints(Lines(receipt.value.items.value))
      + AfternoonPoints(t) + OddDayPoints(d))
  {
  }

  /** ScoreAccepts for a receipt given field by field. */
  lemma ScoreOfFields(retailer: string, date: string, time: string, total: Decimal, items: seq<Option<Item>>, t: Clock, d: Date)
    requires AllComplete(items) && ParseTime(time) == Some(t) && ParseDate(date) == Some(d)
    ensures Score(Some(Receipt(Some(retailer), Some(date), Some(time), Some(total), Some(items))))
      == Ok(Points(retailer, total, Lines(items), t, d))
  {
  }

  /** When no price is negative, a score is never negative. */
  lemma ScoreNonNegative(receipt: Option<Receipt>)
    requires Score(receipt).Ok?
    requires forall i :: 0 <= i < |receipt.value.items.value| ==>
      receipt.value.items.value[i].Some? && receipt.value.items.value[i].value.price.Some? &&
      receipt.value.items.value[i].value.price.value.units >= 0
    ensures Score(receipt).points >= 0
  {
    LinesPointsNonNegative(Lines(receipt.value.items.value));
  }

  /**
   * calculatePoints: the checks in the service's order, then the score
   * accumulated in `points` by successive additions, with one pass over
   * the items to check their fields and one to add their description bonus.
   */
  method CalculatePoints(receipt: Option<Receipt>) returns (out: Outcome)
    ensures out == Score(receipt)
  {
    if receipt.None? {
      return Invalid;
    }
    var r := receipt.value;
    if r.retailer.None? || r.purchaseDate.None? || r.purchaseTime.None? || r.total.None? || r.items.None? {
      return Invalid;
    }
    var time := ParseTime(r.purchaseTime.value);
    if time.None? {
      return Invalid;
    }
    var date := ParseDate(r.purchaseDate.value);
    if date.None? {
      return Invalid;
    }
    var items := r.items.value;
    var i := 0;
    while i < |items|
      invariant 0 <= i <= |items|
      invariant forall j :: 0 <= j < i ==> IsComplete(items[j])
    {
      if items[i].None? || items[i].value.shortDescription.None? || items[i].value.price.None? {
        return Invalid;
      }
      i := i + 1;
    }
    var points := RetailerPoints(r.retailer.value);
    if IsWhole(r.total.value) {
      points := points + 50;
    }
    if IsQuarterMultiple(r.total.value) {
      points := points + 25;
    }
    points := points + 5 * (|items| / 2);
    assert AllComplete(items);
    ghost var lines := Lines(items);
    ghost var base := points;
    assert base == RetailerPoints(r.retailer.value) + TotalPoints(r.total.value) + PairPoints(|lines|);
    i := 0;
    while i < |items|
      invariant 0 <= i <= |items|
      invariant points == base + LinesPoints(lines[..i])
    {
      var item := items[i].value;
      LinesPointsPrefix(lines, i);
      assert lines[i] == Line(item.shortDescription.value, item.price.value);
      if Utf8Len(TrimSpace(item.shortDescription.value)) % 3 == 0 {
        points := points + FifthCeil(item.price.value);
      }
      assert points == base + LinesPoints(lines[..i + 1]);
      i := i + 1;
    }
    assert lines[..|items|] == lines;
    var hour, minute := time.value.hour, time.value.minute;
    if (hour >= 14 && hour < 16) || (hour == 16 && minute == 0) {
      points := points + 10;
    }
    if date.value.day % 2 == 1 {
      points := points + 6;
    }
    assert points == Points(r.retailer.value, r.total.value, lines, time.value, date.value);
    ScoreAccepts(receipt, time.value, date.value);
    return Ok(points);
  }

  // ---------------------------------------------------------------------
  // The scorer as written, null dereferences included

  /** How the item check of the service ends: all fields present, a field missing, or a null item dereferenced. */
  datatype ItemsCheck = AllPresent | FieldMissing | NullItem

  /** The service's item loop: items are checked in order, and the first bad one decides. */
  function CheckItemsAsWritten(items: seq<Option<Item>>): (c: ItemsCheck)
    ensures c == AllPresent <==> AllComplete(items)
    ensures c == NullItem ==> exists i :: 0 <= i < |items| && items[i].None?
  {
    if items == [] then AllPresent
    else if items[0].None? then NullItem
    else if items[0].value.shortDescription.None? || items[0].value.price.None? then FieldMissing
    else
      var rest := CheckItemsAsWritten(items[1..]);
      assert AllComplete(items) <==> AllComplete(items[1..]) by {
        if AllComplete(items[1..]) {
          forall i | 0 <= i < |items| ensures IsComplete(items[i]) {
            if i > 0 { assert items[i] == items[1..][i - 1]; }
          }
        }
      }
      assert rest == NullItem ==> exists i :: 0 <= i < |items| && items[i].None? by {
        if rest == NullItem {
          var j :| 0 <= j < |items[1..]| && items[1..][j].None?;
          assert items[j + 1].None?;
        }
      }
      rest
  }

  /** A run of the service's scorer: it returns an outcome, or it dereferences a null pointer and panics. */
  datatype Run = Returned(outcome: Outcome) | NullDereference

  /**
   * calculatePoints as written: a null receipt is dereferenced on its
   * first field, and a null item is dereferenced when the item loop reaches
   * it. Wherever it returns it agrees with `Score`, and wherever it panics
   * `Score` reports the receipt invalid.
   */
  function ScoreAsWritten(receipt: Option<Receipt>): (run: Run)
    ensures run.Returned? ==> run.outcome == Score(receipt)
    ensures run == NullDereference ==> Score(receipt) == Invalid
  {
    if receipt.None? then NullDereference
    else
      var r := receipt.value;
      if r.retailer.None? || r.purchaseDate.None? || r.purchaseTime.None? || r.total.None? || r.items.None? then
        Returned(Invalid)
      else
        match ParseTime(r.purchaseTime.value)
        case None => Returned(Invalid)
        case Some(t) =>
          match ParseDate(r.purchaseDate.value)
          case None => Returned(Invalid)
          case Some(d) =>
            match CheckItemsAsWritten(r.items.value)
            case NullItem => NullDereference
            case FieldMissing => Returned(Invalid)
            case AllPresent => Returned(Ok(Points(r.retailer.value, r.total.value, Lines(r.items.value), t, d)))
  }
}
