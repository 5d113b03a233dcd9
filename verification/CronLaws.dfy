/**
 What the portable cron contract (contract/cron.ts) promises over whole inputs: when the bounded
 search fails, and when normalizing an expression keeps its meaning.
 */
module CronLaws {
  import opened Text
  import opened Calendar
  import opened CronFields
  import opened Cron

  // ----- when the bounded search fails -----

  /** The search raises its RangeError: no matching minute in the window. */
  ghost predicate Throws(c: Cron, after: int) { forall t :: !Candidate(c, after, t) }

  /** Every allowed month and day is missing from common years. */
  ghost predicate NeverInCommonYears(c: Cron) {
    forall m, d :: m in c.month.values && d in c.dayOfMonth.values && 1 <= m <= 12 ==> d > MonthLength(false, m)
  }

  /** Minute `minute` of 29 February of leap year `y` is allowed, after `after` and inside the window. */
  ghost predicate LeapMinute(c: Cron, after: int, y: int, minute: int) {
    && IsLeap(y) && MatchesMinute(c, minute)
    && var day := MakeDay(y, 2, 29);
       && DayOf(after) <= day <= DayOf(after) + MAX_SEARCH_DAYS
       && (DayOf(after) < day || MinuteOfDay(after) < minute)
  }

  ghost predicate LeapDayAhead(c: Cron, after: int) {
    2 in c.month.values && 29 in c.dayOfMonth.values && exists y, minute :: LeapMinute(c, after, y, minute)
  }

  lemma AnyMinute(c: Cron) returns (m: int)
    requires c.Valid()
    ensures MatchesMinute(c, m)
  {
    var h :| h in c.hour.values;
    var k :| k in c.minute.values;
    HourMinute(h, k);
    m := h * 60 + k;
  }

  /** A matching minute of a matching day in the window is a candidate. */
  lemma CandidateOn(c: Cron, after: int, day: int, m: int)
    requires MatchesMinute(c, m) && Month(day) in c.month.values && MatchesDay(c, day)
    requires DayOf(after) <= day <= DayOf(after) + MAX_SEARCH_DAYS
    requires DayOf(after) < day || MinuteOfDay(after) < m
    ensures Candidate(c, after, Instant(day, m))
  {
    hide Month, MatchesDay;
    InstantParts(day, m);
    InstantOrder(Instant(day, m), after);
  }

  /** Every date that exists in common years comes within 731 days. */
  lemma NextYearDate(today: int, m: int, d: int) returns (day: int)
    requires 1 <= m <= 12 && 1 <= d <= MonthLength(false, m)
    ensures today < day <= today + 731
    ensures Month(day) == m && Date(day) == d
  {
    hide Month, Date, YearStart;
    var y := Year(today) + 1;
    YearStep(y - 1);
    YearStep(y);
    assert MonthLength(false, m) <= MonthLength(IsLeap(y), m);
    PartsOfMakeDay(y, m, d);
    day := MakeDay(y, m, d);
  }

  /** Every month has every weekday in its first seven days. */
  lemma NextYearWeekday(today: int, m: int, w: int) returns (day: int)
    requires 1 <= m <= 12 && 0 <= w <= 6
    ensures today < day <= today + 731
    ensures Month(day) == m && 1 <= Date(day) <= 7 && WeekDay(day) == w
  {
    hide Month, Date, YearStart;
    var y := Year(today) + 1;
    YearStep(y - 1);
    YearStep(y);
    MonthsGrow(IsLeap(y), m);
    var k := (w - WeekDay(MakeDay(y, m, 1))) % 7;
    PartsOfMakeDay(y, m, 1 + k);
    day := MakeDay(y, m, 1 + k);
    assert day == MakeDay(y, m, 1) + k;
    WeekdayShift(MakeDay(y, m, 1), w);
  }

  lemma WeekdayShift(first: int, w: int)
    requires 0 <= w <= 6
    ensures WeekDay(first + (w - WeekDay(first)) % 7) == w
  {
  }

  /** Unless only impossible or leap dates are allowed, there is always an occurrence. */
  lemma OccursInOrdinaryYears(c: Cron, after: int)
    requires c.Valid()
    requires !(c.dayOfWeek.unrestricted && !c.dayOfMonth.unrestricted && NeverInCommonYears(c))
    ensures !Throws(c, after)
  {
    hide Month, Date, Candidate, MatchesMinute;
    var minute := AnyMinute(c);
    var day;
    if c.dayOfMonth.unrestricted || !c.dayOfWeek.unrestricted {
      var m :| m in c.month.values;
      var w :| w in c.dayOfWeek.values;
      day := NextYearWeekday(DayOf(after), m, w);
    } else {
      var m, d :| m in c.month.values && d in c.dayOfMonth.values && 1 <= m <= 12 && d <= MonthLength(false, m);
      day := NextYearDate(DayOf(after), m, d);
      assert 0 <= WeekDay(day) <= 6;
    }
    CandidateOn(c, after, day, minute);
  }

  lemma OccursOnLeapDay(c: Cron, after: int)
    requires c.Valid() && c.dayOfWeek.unrestricted && LeapDayAhead(c, after)
    ensures !Throws(c, after)
  {
    hide Month, Date, Candidate, MatchesMinute, YearStart;
    var y, minute :| LeapMinute(c, after, y, minute);
    PartsOfMakeDay(y, 2, 29);
    assert 0 <= WeekDay(MakeDay(y, 2, 29)) <= 6;
    CandidateOn(c, after, MakeDay(y, 2, 29), minute);
  }

  /** A day that matches dates absent from common years is 29 February of a leap year. */
  lemma OnlyLeapDays(c: Cron, after: int, t: int)
    requires c.Valid() && c.dayOfWeek.unrestricted && !c.dayOfMonth.unrestricted && NeverInCommonYears(c)
    requires Candidate(c, after, t)
    ensures LeapDayAhead(c, after)
  {
    hide Year, YearStart, MatchesMinute;
    var day := DayOf(t);
    InstantOrder(t, after);
    MakeDayOfParts(day);
    assert Date(day) > MonthLength(false, Month(day));
    assert Month(day) == 2 && Date(day) == 29 && IsLeap(Year(day));
    assert LeapMinute(c, after, Year(day), MinuteOfDay(t));
  }

  /**
   The search fails exactly when day-of-week has a bare `*`, day-of-month has none, every allowed
   date is absent from common years, and no allowed minute of a leap day lies in the window.
   */
  lemma ThrowsIff(c: Cron, after: int)
    requires c.Valid()
    ensures Throws(c, after) <==>
              && c.dayOfWeek.unrestricted && !c.dayOfMonth.unrestricted
              && NeverInCommonYears(c) && !LeapDayAhead(c, after)
  {
    hide Candidate, NeverInCommonYears, LeapDayAhead, Cron.Valid;
    if !(c.dayOfWeek.unrestricted && !c.dayOfMonth.unrestricted && NeverInCommonYears(c)) {
      OccursInOrdinaryYears(c, after);
    } else if LeapDayAhead(c, after) {
      OccursOnLeapDay(c, after);
    } else {
      forall t ensures !Candidate(c, after, t) {
        if Candidate(c, after, t) { OnlyLeapDays(c, after, t); }
      }
    }
  }

  /** 29 February alone, asked for at the start of 2097: 2100 is not a leap year and 2104 is too far. */
  lemma LeapDayCanBeTooFar(c: Cron, after: int)
    requires c.Valid() && after == Instant(YearStart(2097), 0)
    requires c.dayOfWeek.unrestricted && !c.dayOfMonth.unrestricted
    requires c.month.values == {2} && c.dayOfMonth.values == {29}
    ensures Throws(c, after)
  {
    hide Candidate, Cron.Valid, MatchesMinute;
    InstantParts(YearStart(2097), 0);
    forall y, minute ensures !LeapMinute(c, after, y, minute) {
      if y <= 2096 { YearsGrow(y + 1, 2097); YearStep(y); }
      else if y >= 2104 { YearsGrow(2104, y); }
    }
    ThrowsIff(c, after);
  }

  // ----- which text the parser accepts -----

  predicate IsFieldChar(c: char) { IsDigit(c) || c == ',' || c == '-' || c == '/' || c == '*' }

  predicate AllChars(s: string, p: char -> bool) { forall k :: 0 <= k < |s| ==> p(s[k]) }

  lemma {:induction false} JoinChars(parts: seq<string>, sep: char)
    requires IsFieldChar(sep) && forall k :: 0 <= k < |parts| ==> AllChars(parts[k], IsFieldChar)
    ensures AllChars(Join(parts, sep), IsFieldChar)
  {
    if |parts| > 1 { JoinChars(parts[1..], sep); }
  }

  lemma BoundedChars(s: string, low: nat, high: nat)
    requires ParseBounded(s, low, high).Some?
    ensures s != "" && AllChars(s, IsFieldChar)
  {
  }

  lemma BaseChars(base: string, i: FieldIndex)
    requires ParseBase(base, i).Some?
    ensures base != "" && AllChars(base, IsFieldChar)
  {
    hide Split, Join, ParseBounded, IsDigits;
    var ends := Split(base, '-');
    JoinOfSplit(base, '-');
    if base == "*" {
    } else if IsDigits(base) {
      BoundedChars(base, Low(i), High(i));
    } else {
      BoundedChars(ends[0], Low(i), High(i));
      BoundedChars(ends[1], Low(i), High(i));
      JoinChars(ends, '-');
      JoinHead(ends, '-');
    }
  }

  lemma ItemChars(part: string, i: FieldIndex)
    requires ParseItem(part, i).Some?
    ensures part != "" && AllChars(part, IsFieldChar)
  {
    hide Split, Join, AllChars, ParseBase, ParseBounded;
    var slash := Split(part, '/');
    JoinOfSplit(part, '/');
    BaseChars(slash[0], i);
    if |slash| == 2 { BoundedChars(slash[1], 1, MAX_SAFE_INTEGER); }
    JoinChars(slash, '/');
    assert |slash| == 1 ==> Join(slash, '/') == slash[0] by { JoinHead(slash, '/'); }
    assert |slash| == 2 ==> |Join(slash, '/')| > 0 by { JoinHead(slash, '/'); }
  }

  /** Accepted field text is made of digits, commas, hyphens, slashes and stars. */
  lemma FieldChars(source: string, i: FieldIndex)
    requires ParseField(source, i).Some?
    ensures source != "" && AllChars(source, IsFieldChar)
  {
    hide ParseItem, FieldTexts, FieldValues, Dedupe, Split, Join;
    var parts := Split(source, ',');
    forall k | 0 <= k < |parts| ensures parts[k] != "" && AllChars(parts[k], IsFieldChar) {
      ItemChars(parts[k], i);
    }
    JoinChars(parts, ',');
    JoinOfSplit(source, ',');
    JoinNonEmpty(parts, ',');
  }

  lemma JoinNonEmpty(parts: seq<string>, sep: char)
    requires parts != [] && parts[0] != ""
    ensures Join(parts, sep) != "" && Join(parts, sep)[0] == parts[0][0]
  {
  }

  // ----- words -----

  predicate IsWord(w: string) { w != "" && AllChars(w, IsInk) }

  lemma FieldIsWord(source: string, i: FieldIndex)
    requires ParseField(source, i).Some?
    ensures IsWord(source)
  {
    hide ParseField;
    FieldChars(source, i);
  }

  /** A word stands at `at`, and it ends there or a space follows. */
  lemma WordAt(s: string, at: nat, w: string)
    requires IsWord(w) && at + |w| <= |s| && s[at..at + |w|] == w
    requires at + |w| == |s| || IsWhitespace(s[at + |w|])
    ensures SkipWhile(s, at, |s|, IsWhitespace) == at && SkipWhile(s, at, |s|, IsInk) == at + |w|
  {
    forall k | at <= k < at + |w| ensures IsInk(s[k]) { assert s[at..at + |w|][k - at] == w[k - at]; }
    SkipExact(s, at, |s|, IsWhitespace, at);
    SkipExact(s, at, |s|, IsInk, at + |w|);
  }

  /** Splitting words joined by single spaces gives them back, from any offset. */
  lemma {:induction false} WordsOfJoin(words: seq<string>, s: string, at: nat)
    requires words != [] && forall k :: 0 <= k < |words| ==> IsWord(words[k])
    requires at <= |s| && s[at..] == Join(words, ' ')
    ensures WordsFrom(s, at) == words
    decreases words
  {
    hide IsWord, SkipWhile, WordsFrom, Join;
    var w := words[0];
    var end := at + |w|;
    NonEmptyWord(w);
    JoinHead(words, ' ');
    if |words| == 1 {
      assert s[at..end] == w && end == |s|;
      FirstWord(s, at, w);
      NoMoreWords(s);
      assert words == [w];
    } else {
      var rest := Join(words[1..], ' ');
      assert s[at..end] == s[at..][..|w|] == w;
      assert s[end] == s[at..][|w|] == ' ';
      assert s[end + 1..] == s[at..][|w| + 1..] == rest;
      FirstWord(s, at, w);
      WordsOfJoin(words[1..], s, end + 1);
      SpaceThenWords(s, end);
      assert words == [w] + words[1..];
    }
  }

  lemma JoinHead(words: seq<string>, sep: char)
    requires words != []
    ensures Join(words, sep) == if |words| == 1 then words[0] else words[0] + [sep] + Join(words[1..], sep)
  {
  }

  lemma FirstWord(s: string, at: nat, w: string)
    requires IsWord(w) && at + |w| <= |s| && s[at..at + |w|] == w
    requires at + |w| == |s| || IsWhitespace(s[at + |w|])
    ensures WordsFrom(s, at) == [w] + WordsFrom(s, at + |w|)
  {
    WordAt(s, at, w);
  }

  lemma NoMoreWords(s: string)
    ensures WordsFrom(s, |s|) == []
  {
  }

  lemma NonEmptyWord(w: string)
    requires IsWord(w)
    ensures w != ""
  {
  }

  lemma SpaceThenWords(s: string, at: nat)
    requires at < |s| && s[at] == ' '
    ensures WordsFrom(s, at) == WordsFrom(s, at + 1)
  {
  }

  lemma {:induction false} JoinEnds(words: seq<string>)
    requires words != [] && forall k :: 0 <= k < |words| ==> IsWord(words[k])
    ensures var s := Join(words, ' '); s != "" && IsInk(s[0]) && IsInk(s[|s| - 1])
  {
    if |words| > 1 { JoinEnds(words[1..]); }
  }

  // ----- normalizing and parsing again -----

  function Texts(c: Cron): seq<string> {
    [c.minute.normalized, c.hour.normalized, c.dayOfMonth.normalized, c.month.normalized, c.dayOfWeek.normalized]
  }

  /** The cron that its own normalized text parses to. */
  function Renormalized(c: Cron): Cron { c.(dayOfWeek := c.dayOfWeek.(unrestricted := false)) }

  lemma WordsReparse(words: seq<string>)
    requires ParseWords(words).Some?
    ensures var c := ParseWords(words).value;
            && ParseWords(Texts(c)) == Some(Renormalized(c))
            && forall k :: 0 <= k < 5 ==> IsWord(Texts(c)[k])
  {
    hide ParseField, IsWord, Cron.Valid, Sane;
    FieldReparse(words[0], 0);
    FieldReparse(words[1], 1);
    FieldReparse(words[2], 2);
    FieldReparse(words[3], 3);
    FieldReparse(words[4], 4);
    var c := ParseWords(words).value;
    FieldIsWord(c.minute.normalized, 0);
    FieldIsWord(c.hour.normalized, 1);
    FieldIsWord(c.dayOfMonth.normalized, 2);
    FieldIsWord(c.month.normalized, 3);
    FieldIsWord(c.dayOfWeek.normalized, 4);
  }

  /** Normalized text parses again exactly when it fits the length bound, and only loses the bare day-of-week `*`. */
  lemma ExpressionReparse(expression: string)
    requires Parse(expression).Some?
    ensures var c := Parse(expression).value;
            Parse(c.Normalized()) == if |c.Normalized()| <= MAX_EXPRESSION then Some(Renormalized(c)) else None
  {
    hide ParseWords, WordsFrom, IsWord, Join, Trim, Cron.Valid;
    var words := WordsFrom(Trim(expression), 0);
    WordsReparse(words);
    var c := Parse(expression).value;
    var s := c.Normalized();
    JoinEnds(Texts(c));
    TrimmedStays(s);
    assert s[0..] == s;
    WordsOfJoin(Texts(c), s, 0);
  }

  /** Some date of an allowed month is not an allowed day of the month. */
  ghost predicate SkipsDates(c: Cron) {
    exists m, d :: m in c.month.values && 1 <= m <= 12 && 1 <= d <= MonthLength(true, m) && d !in c.dayOfMonth.values
  }

  /**
   Normalizing keeps the match relation exactly when it is not the case that day-of-week has a bare
   `*`, day-of-month has none, and some date of an allowed month is not allowed.
   */
  lemma NormalizedMatchesIff(c: Cron)
    requires c.Valid()
    ensures (forall t :: Matches(c, t) <==> Matches(Renormalized(c), t))
            <==> !(c.dayOfWeek.unrestricted && !c.dayOfMonth.unrestricted && SkipsDates(c))
  {
    hide Month, Date;
    if c.dayOfWeek.unrestricted && !c.dayOfMonth.unrestricted && SkipsDates(c) {
      var m, d :| m in c.month.values && 1 <= m <= 12 && 1 <= d <= MonthLength(true, m) && d !in c.dayOfMonth.values;
      var minute := AnyMinute(c);
      PartsOfMakeDay(2000, m, d);
      var day := MakeDay(2000, m, d);
      InstantParts(day, minute);
      assert 0 <= WeekDay(day) <= 6;
      assert Matches(Renormalized(c), Instant(day, minute)) && !Matches(c, Instant(day, minute));
    } else {
      forall t ensures Matches(c, t) <==> Matches(Renormalized(c), t) { SameMatch(c, t); }
    }
  }

  lemma SameMatch(c: Cron, t: int)
    requires c.Valid()
    requires !(c.dayOfWeek.unrestricted && !c.dayOfMonth.unrestricted && SkipsDates(c))
    ensures Matches(c, t) <==> Matches(Renormalized(c), t)
  {
    hide Month, Date, MinuteOfDay, DayOf, WeekDay, MonthLength, SkipsDates;
    var day := DayOf(t);
    DayParts(day);
    SkippedDate(c, Month(day), Date(day));
    assert c.dayOfWeek.unrestricted ==> WeekDay(day) in c.dayOfWeek.values;
  }

  lemma SkippedDate(c: Cron, m: int, d: int)
    requires 1 <= m <= 12 && 1 <= d <= MonthLength(true, m)
    ensures m in c.month.values && d !in c.dayOfMonth.values ==> SkipsDates(c)
  {
  }

  lemma DayParts(day: int)
    ensures 1 <= Date(day) <= MonthLength(true, Month(day)) && 0 <= WeekDay(day) <= 6
  {
    hide Month, Year;
    LeapMonthsAreLonger(Month(day));
  }

  lemma LeapMonthsAreLonger(m: int)
    requires 1 <= m <= 12
    ensures MonthLength(false, m) <= MonthLength(true, m)
  {
  }

  /** The whole promise about one expression. */
  lemma NormalizedExpressionMatchesIff(expression: string)
    requires Parse(expression).Some? && |Parse(expression).value.Normalized()| <= MAX_EXPRESSION
    ensures Parse(Parse(expression).value.Normalized()).Some?
    ensures var c, again := Parse(expression).value, Parse(Parse(expression).value.Normalized()).value;
            (forall t :: Matches(c, t) <==> Matches(again, t))
            <==> !(c.dayOfWeek.unrestricted && !c.dayOfMonth.unrestricted && SkipsDates(c))
  {
    hide Parse, Matches, SkipsDates;
    ExpressionReparse(expression);
    NormalizedMatchesIff(Parse(expression).value);
  }

  // ----- an accepted expression whose normalized text is refused -----

  const LONG_STEP := 1_000_000_000_000_000
  const LONG_COUNT := 53

  function LongItem(k: nat): Item { Item(Single(0), Some(LONG_STEP + k)) }

  /** `0/1000000000000000,0/1000000000000001,...`, a minute field of 53 pieces. */
  function LongPieces(): (pieces: seq<string>)
    ensures |pieces| == LONG_COUNT
    ensures forall k :: 0 <= k < LONG_COUNT ==> pieces[k] == ItemText(LongItem(k))
  {
    seq(LONG_COUNT, k requires 0 <= k < LONG_COUNT => ItemText(LongItem(k)))
  }

  lemma {:induction false} DecimalLength(n: nat, digits: nat)
    requires digits >= 1 && n < Pow10(digits) && (digits > 1 ==> Pow10(digits - 1) <= n)
    ensures |Decimal(n)| == digits
    decreases digits
  {
    if digits > 1 {
      assert Pow10(digits) == 10 * Pow10(digits - 1);
      PowAtLeastTen(digits - 1);
      if digits > 2 { assert Pow10(digits - 1) == 10 * Pow10(digits - 2); }
      DecimalLength(n / 10, digits - 1);
    }
  }

  lemma {:induction false} PowAtLeastTen(n: nat)
    requires n >= 1
    ensures Pow10(n) >= 10
  {
    if n > 1 { PowAtLeastTen(n - 1); }
  }

  lemma LongPieceLength(k: nat)
    requires k < LONG_COUNT
    ensures |ItemText(LongItem(k))| == 18
  {
    var step := LONG_STEP + k;
    assert Pow10(5) == 100_000;
    assert Pow10(10) == 10_000_000_000;
    assert Pow10(15) == LONG_STEP;
    assert Pow10(16) == 10 * LONG_STEP;
    DecimalLength(step, 16);
    JoinCons(Decimal(0), [Decimal(step)], '/');
    assert [Decimal(0)] + [Decimal(step)] == [Decimal(0), Decimal(step)];
  }

  lemma {:induction false} JoinLength(parts: seq<string>, sep: char, len: nat)
    requires parts != [] && forall k :: 0 <= k < |parts| ==> |parts[k]| == len
    ensures |Join(parts, sep)| == |parts| * (len + 1) - 1
  {
    if |parts| > 1 { JoinLength(parts[1..], sep, len); }
  }

  /** Distinct settled pieces joined by commas are already normalized. */
  lemma SettledFieldIsNormal(pieces: seq<string>, i: FieldIndex)
    requires pieces != [] && forall k :: 0 <= k < |pieces| ==> Settled(pieces[k], i)
    requires forall j, k :: 0 <= j < k < |pieces| ==> pieces[j] != pieces[k]
    ensures ParseField(Join(pieces, ','), i).Some?
    ensures ParseField(Join(pieces, ','), i).value.normalized == Join(pieces, ',')
  {
    hide Settled, ParseItems, FieldTexts, FieldValues, Dedupe, Join, Split;
    forall k | 0 <= k < |pieces| ensures ',' !in pieces[k] { SettledHasNoComma(pieces[k], i); }
    SplitOfJoin(pieces, ',');
    PiecesReparse(pieces, i);
    DedupeDistinct(pieces);
  }

  lemma LongField()
    ensures ParseField(Join(LongPieces(), ','), 0).Some?
    ensures ParseField(Join(LongPieces(), ','), 0).value.normalized == Join(LongPieces(), ',')
    ensures |Join(LongPieces(), ',')| == 1006
  {
    hide Settled, ParseField, Join, LongPieces, ParseItem, ItemText;
    var pieces := LongPieces();
    forall k | 0 <= k < LONG_COUNT ensures Settled(pieces[k], 0) && |pieces[k]| == 18 {
      SettledText(LongItem(k), 0);
      LongPieceLength(k);
    }
    forall j, k | 0 <= j < k < LONG_COUNT ensures pieces[j] != pieces[k] {
      ParseItemText(LongItem(j), 0);
      ParseItemText(LongItem(k), 0);
    }
    SettledFieldIsNormal(pieces, 0);
    JoinLength(pieces, ',', 18);
  }

  lemma StarField(i: FieldIndex)
    requires i != 4
    ensures ParseField("*", i).Some? && ParseField("*", i).value.normalized == "*"
  {
    hide Settled, ParseField;
    SettledText(Item(Wildcard, None), i);
    SettledFieldIsNormal(["*"], i);
    assert Join(["*"], ',') == "*";
  }

  lemma WeekdayStar()
    ensures ParseField("*", 4).Some? && |ParseField("*", 4).value.normalized| == 13
  {
    hide Dedupe, ParseItems, Split, ItemTexts, Join, Decimal, FieldValues;
    var item := Item(Wildcard, None);
    WeekdayItems();
    WeekdayTexts();
    var texts := ItemTexts(item, 4);
    assert [item][..0] == [];
    assert FieldTexts([item], 4) == FieldTexts([], 4) + texts == texts;
    DedupeDistinct(texts);
    JoinLength(texts, ',', 1);
  }

  lemma WeekdayItems()
    ensures Split("*", ',') == ["*"] && ParseItems(["*"], 4) == Some([Item(Wildcard, None)])
  {
    var item := Item(Wildcard, None);
    ParseItemText(item, 4);
    assert ItemText(item) == "*";
    SplitOfJoin(["*"], ',');
    var parsed := ParseItems(["*"], 4);
    assert ParseItem(["*"][0], 4) == Some(item);
    assert parsed.Some? && parsed.value == [parsed.value[0]];
  }

  lemma WeekdayTexts()
    ensures var texts := ItemTexts(Item(Wildcard, None), 4);
            && |texts| == 7 && (forall k :: 0 <= k < 7 ==> |texts[k]| == 1)
            && forall j, k :: 0 <= j < k < 7 ==> texts[j] != texts[k]
  {
    hide Dedupe, ItemList;
    WeekdayList();
    var texts := ItemTexts(Item(Wildcard, None), 4);
    assert texts == Decimals([0, 1, 2, 3, 4, 5, 6]);
    forall j, k | 0 <= j < k < 7 ensures texts[j] != texts[k] {
      DecimalRoundTrip(j);
      DecimalRoundTrip(k);
    }
  }

  lemma WeekdayList()
    ensures Dedupe(ItemList(Item(Wildcard, None), 4)) == [0, 1, 2, 3, 4, 5, 6]
  {
    var list, week := ItemList(Item(Wildcard, None), 4), [0, 1, 2, 3, 4, 5, 6];
    ListedWeek();
    assert list == week + [0];
    DedupeDistinct(week);
    DedupeSnoc(week, 0);
    assert week[0] in week;
  }

  lemma DedupeSnoc(s: seq<nat>, x: nat)
    ensures Dedupe(s + [x]) == if x in s then Dedupe(s) else Dedupe(s) + [x]
  {
    assert (s + [x])[..|s|] == s;
  }

  lemma ListedWeek()
    ensures Listed(0, 7, 1) == [0, 1, 2, 3, 4, 5, 6, 7]
  {
    assert Listed(6, 7, 1) == [6, 7];
    assert Listed(4, 7, 1) == [4, 5] + Listed(6, 7, 1);
    assert Listed(2, 7, 1) == [2, 3] + Listed(4, 7, 1);
    assert Listed(0, 7, 1) == [0, 1] + Listed(2, 7, 1);
  }

  /** Normalizing can make an accepted expression too long to be accepted again. */
  lemma NormalizedCanBeTooLong() returns (expression: string)
    ensures |expression| == 1014 && Parse(expression).Some?
    ensures |Parse(expression).value.Normalized()| == 1026
    ensures Parse(Parse(expression).value.Normalized()).None?
  {
    hide ParseField, Join, WordsFrom, Trim, IsWord, LongPieces, Sane;
    var words := [Join(LongPieces(), ','), "*", "*", "*", "*"];
    LongField();
    StarField(1); StarField(2); StarField(3);
    WeekdayStar();
    FieldIsWord(words[0], 0); FieldIsWord(words[1], 1); FieldIsWord(words[2], 2);
    FieldIsWord(words[3], 3); FieldIsWord(words[4], 4);
    expression := Join(words, ' ');
    JoinFive(words, ' ');
    JoinEnds(words);
    TrimmedStays(expression);
    assert expression[0..] == expression;
    WordsOfJoin(words, expression, 0);
    var c := Parse(expression).value;
    JoinFive(Texts(c), ' ');
    ExpressionReparse(expression);
  }

  lemma JoinFive(words: seq<string>, sep: char)
    requires |words| == 5
    ensures |Join(words, sep)| == |words[0]| + |words[1]| + |words[2]| + |words[3]| + |words[4]| + 4
  {
    assert words[1..][1..] == words[2..];
    assert words[2..][1..] == words[3..];
    assert words[3..][1..] == words[4..];
    JoinHead(words, sep);
    JoinHead(words[1..], sep);
    JoinHead(words[2..], sep);
    JoinHead(words[3..], sep);
    JoinHead(words[4..], sep);
  }

  // ----- two expressions -----

  lemma LoneItem(source: string, item: Item, i: FieldIndex)
    requires ',' !in source && ParseItem(source, i) == Some(item)
    ensures ParseField(source, i).Some?
    ensures ParseField(source, i).value.values == ItemValues(item, i)
    ensures ParseField(source, i).value.unrestricted <==> item.Bare()
  {
    hide ParseItem, ParseField, ParseItems, Dedupe, FieldTexts, FieldValues, ItemValues, Join, Split, Item.Valid,
         Item.Bare;
    JoinHead([source], ',');
    SplitOfJoin([source], ',');
    LoneItems(source, item, i);
    FieldSucceeds(source, i, [item]);
    LoneValues(item, i);
  }

  lemma LoneItems(source: string, item: Item, i: FieldIndex)
    requires ParseItem(source, i) == Some(item)
    ensures ParseItems([source], i) == Some([item])
  {
    hide ParseItem, ParseItems;
    var parsed := ParseItems([source], i);
    assert ParseItem([source][0], i) == Some(item);
    assert parsed.value == [item];
  }

  lemma LoneValues(item: Item, i: FieldIndex)
    requires item.Valid(i)
    ensures FieldValues([item], i) == ItemValues(item, i) && (HasBare([item]) <==> item.Bare())
  {
    hide ItemValues, Item.Valid, Item.Bare;
    assert [item][..0] == [];
    assert [item][0].Bare() <==> item.Bare();
  }

  lemma NumberField(n: nat, i: FieldIndex)
    requires Low(i) <= n <= High(i) && i != 4
    ensures ParseField(Decimal(n), i).Some?
    ensures ParseField(Decimal(n), i).value.values == {n} && !ParseField(Decimal(n), i).value.unrestricted
  {
    hide Decimal, ParseItem, ParseField;
    var item := Item(Single(n), None);
    ParseItemText(item, i);
    DecimalHas(n, ',');
    LoneItem(Decimal(n), item, i);
    ListedOne(n);
    assert ItemList(item, i) == [n];
  }

  lemma OpenField(i: FieldIndex)
    ensures ParseField("*", i).Some? && ParseField("*", i).value.unrestricted
  {
    hide ParseItem, ParseField, ItemValues;
    ParseItemText(Item(Wildcard, None), i);
    LoneItem("*", Item(Wildcard, None), i);
  }

  /** Five accepted fields joined by spaces are an accepted expression. */
  lemma ParsesWords(words: seq<string>)
    requires |words| == 5 && ParseWords(words).Some? && |Join(words, ' ')| <= MAX_EXPRESSION
    ensures Parse(Join(words, ' ')) == ParseWords(words)
  {
    hide ParseField, Join, WordsFrom, Trim, IsWord, Sane;
    FieldIsWord(words[0], 0); FieldIsWord(words[1], 1); FieldIsWord(words[2], 2);
    FieldIsWord(words[3], 3); FieldIsWord(words[4], 4);
    var expression := Join(words, ' ');
    JoinEnds(words);
    TrimmedStays(expression);
    assert expression[0..] == expression;
    WordsOfJoin(words, expression, 0);
  }

  lemma SmallNumbers()
    ensures Decimal(0) == "0" && Decimal(1) == "1" && Decimal(2) == "2" && Decimal(29) == "29"
  {
    assert Decimal(2) == "2" && DigitChar(9) == '9';
    assert Decimal(29) == Decimal(2) + [DigitChar(9)];
  }

  lemma JoinBefore(word: string, rest: seq<string>)
    requires rest != []
    ensures Join([word] + rest, ' ') == word + " " + Join(rest, ' ')
  {
    hide Join;
    var words := [word] + rest;
    assert words[1..] == rest;
    JoinHead(words, ' ');
  }

  lemma JoinedFive(a: string, b: string, c: string, d: string, e: string)
    ensures Join([a, b, c, d, e], ' ') == a + " " + b + " " + c + " " + d + " " + e
  {
    hide Join;
    assert [d] + [e] == [d, e] && [c] + [d, e] == [c, d, e] && [b] + [c, d, e] == [b, c, d, e];
    assert [a] + [b, c, d, e] == [a, b, c, d, e];
    JoinHead([e], ' ');
    var de, cde, bcde := d + " " + e, c + " " + d + " " + e, b + " " + c + " " + d + " " + e;
    JoinBefore(d, [e]);
    JoinBefore(c, [d, e]);
    assert cde == c + " " + de;
    JoinBefore(b, [c, d, e]);
    assert bcde == b + " " + cde;
    JoinBefore(a, [b, c, d, e]);
    assert a + " " + b + " " + c + " " + d + " " + e == a + " " + bcde;
  }

  /** `0 0 29 2 *`, asked for at the start of 2097, has no occurrence in the window. */
  lemma LeapDayExpressionCanBeTooFar()
    ensures Parse("0 0 29 2 *").Some? && Throws(Parse("0 0 29 2 *").value, Instant(YearStart(2097), 0))
  {
    hide ParseField, Join, WordsFrom, Trim, IsWord, Sane, Decimal, Throws, Parse, YearStart;
    var words := ["0", "0", "29", "2", "*"];
    SmallNumbers();
    NumberField(0, 0); NumberField(0, 1); NumberField(29, 2); NumberField(2, 3);
    OpenField(4);
    JoinedFive("0", "0", "29", "2", "*");
    assert Join(words, ' ') == "0 0 29 2 *";
    ParsesWords(words);
    LeapDayCanBeTooFar(Parse("0 0 29 2 *").value, Instant(YearStart(2097), 0));
  }

  /** `0 0 1 * *` means the first of every month; its normalised text also matches the second of January 1970. */
  lemma NormalizingChangesMeaning()
    ensures Parse("0 0 1 * *").Some?
    ensures var c, t := Parse("0 0 1 * *").value, Instant(MakeDay(1970, 1, 2), 0);
            Parse(c.Normalized()).Some? && Matches(Parse(c.Normalized()).value, t) && !Matches(c, t)
  {
    hide ParseField, Join, WordsFrom, Trim, IsWord, Sane, Decimal, Parse, Cron.Valid, Matches, MakeDay, Cron.Normalized;
    var words := ["0", "0", "1", "*", "*"];
    SmallNumbers();
    NumberField(0, 0); NumberField(0, 1); NumberField(1, 2);
    OpenField(3); OpenField(4);
    JoinedFive("0", "0", "1", "*", "*");
    assert Join(words, ' ') == "0 0 1 * *";
    ParsesWords(words);
    var c := Parse("0 0 1 * *").value;
    ShortNormal(c);
    ExpressionReparse("0 0 1 * *");
    OnTheSecond(c, MakeDay(1970, 1, 2));
  }

  lemma OnTheSecond(c: Cron, day: int)
    requires c.Valid() && day == MakeDay(1970, 1, 2)
    requires c.minute.values == {0} && c.hour.values == {0} && c.dayOfMonth.values == {1} && !c.dayOfMonth.unrestricted
    requires c.month.unrestricted && c.dayOfWeek.unrestricted
    ensures Matches(Renormalized(c), Instant(day, 0)) && !Matches(c, Instant(day, 0))
  {
    hide Month, Date, Year, MakeDay, Cron.Valid;
    PartsOfMakeDay(1970, 1, 2);
    InstantParts(day, 0);
    FullMonth(c);
  }

  lemma ShortNormal(c: Cron)
    requires ParseWords(["0", "0", "1", "*", "*"]) == Some(c)
    ensures |c.Normalized()| <= MAX_EXPRESSION
  {
    hide ParseField, Join, Sane, Decimal, Settled;
    SmallNumbers();
    StarField(3);
    WeekdayStar();
    SettledText(Item(Single(0), None), 0);
    SettledFieldIsNormal(["0"], 0);
    SettledText(Item(Single(0), None), 1);
    SettledFieldIsNormal(["0"], 1);
    SettledText(Item(Single(1), None), 2);
    SettledFieldIsNormal(["1"], 2);
    JoinHead(["0"], ',');
    JoinHead(["1"], ',');
    JoinFive(Texts(c), ' ');
  }

  lemma FullMonth(c: Cron)
    requires c.Valid() && c.month.unrestricted && c.dayOfWeek.unrestricted
    ensures 1 in c.month.values && forall d :: 0 <= d <= 6 ==> d in c.dayOfWeek.values
  {
  }
}
