/**
 * The examples of `command/command_test.go`, stated as facts about the
 * model: the valid and invalid times and durations, and the four commands
 * read with "then" standing for 01:00.
 */
module CommandExamples {
  import opened Wrappers
  import opened Text
  import opened Day
  import opened Int64
  import opened Command

  // ---------------------------------------------------------------------------
  // Helpers: a word's reading in terms of what `strconv.Atoi` makes of its pieces.

  /** Two digits read as a number of two decimal places. */
  lemma AtoiTwoDigits(s: string)
    requires |s| == 2 && AllDigits(s)
    ensures Atoi(s) == Some(10 * DigitValue(s[0]) + DigitValue(s[1]))
  {
    assert s[..1][..0] == [];
    assert DigitsValue(s[..1]) == DigitValue(s[0]);
    assert DigitsValue(s) == 10 * DigitValue(s[0]) + DigitValue(s[1]);
  }

  /** "HH:MM" with two digits on each side and both in range reads as its minutes. */
  lemma ReadClockText(hh: string, mm: string)
    requires |hh| == 2 && |mm| == 2 && AllDigits(hh) && AllDigits(mm)
    requires var h, m := 10 * DigitValue(hh[0]) + DigitValue(hh[1]), 10 * DigitValue(mm[0]) + DigitValue(mm[1]);
      h <= 24 && m <= 59 && (h == 24 ==> m == 0)
    ensures TimeMinutes(hh + ":" + mm)
      == Success((10 * DigitValue(hh[0]) + DigitValue(hh[1])) * 60 + 10 * DigitValue(mm[0]) + DigitValue(mm[1]))
  {
    AtoiTwoDigits(hh);
    AtoiTwoDigits(mm);
    DigitsLack(hh, ':');
    CutAt(hh, ':', mm);
  }

  /** "HH:MM" is refused when either half is out of range. */
  lemma ClockTextRefused(hh: string, mm: string, h: int, m: int)
    requires |hh| == 2 && |mm| == 2 && ':' !in hh
    requires Atoi(hh) == Some(h) && Atoi(mm) == Some(m)
    requires !(0 <= h <= 24 && 0 <= m <= 59 && (h == 24 ==> m == 0))
    ensures TimeMinutes(hh + ":" + mm) == Failure(InvalidTime(hh + ":" + mm))
  {
    CutAt(hh, ':', mm);
  }

  // ---------------------------------------------------------------------------
  // Times.

  /** Whole hours: "1", "01" and "17". */
  lemma ValidHours()
    ensures TimeMinutes("1") == Success(60)
    ensures TimeMinutes("01") == Success(60)
    ensures TimeMinutes("17") == Success(17 * 60)
  {
    assert "01"[..1] == "0";
    assert "17"[..1] == "1";
  }

  /** "00:00" is midnight. */
  lemma Midnight()
    ensures TimeMinutes("00:00") == Success(0)
  {
    ReadClockText("00", "00");
    assert "00" + ":" + "00" == "00:00";
  }

  /** "00:30" is half an hour after midnight. */
  lemma HalfPastMidnight()
    ensures TimeMinutes("00:30") == Success(30)
  {
    ReadClockText("00", "30");
    assert "00" + ":" + "30" == "00:30";
  }

  /** "15:00" is three in the afternoon. */
  lemma ThreePm()
    ensures TimeMinutes("15:00") == Success(15 * 60)
  {
    ReadClockText("15", "00");
    assert "15" + ":" + "00" == "15:00";
  }

  /** "15:30" is half past three in the afternoon. */
  lemma HalfPastThreePm()
    ensures TimeMinutes("15:30") == Success(15 * 60 + 30)
  {
    ReadClockText("15", "30");
    assert "15" + ":" + "30" == "15:30";
  }

  /** "16:30" is half past four in the afternoon. */
  lemma HalfPastFourPm()
    ensures TimeMinutes("16:30") == Success(16 * 60 + 30)
  {
    ReadClockText("16", "30");
    assert "16" + ":" + "30" == "16:30";
  }

  /** "16:00" is four in the afternoon. */
  lemma FourPm()
    ensures TimeMinutes("16:00") == Success(16 * 60)
  {
    ReadClockText("16", "00");
    assert "16" + ":" + "00" == "16:00";
  }

  /** "24:00" is the end of the day. */
  lemma EndOfDay()
    ensures TimeMinutes("24:00") == Success(24 * 60)
  {
    ReadClockText("24", "00");
    assert "24" + ":" + "00" == "24:00";
  }

  /** Refused times: "", ":", "-1", "25". */
  lemma InvalidShortTimes()
    ensures TimeMinutes("").Failure?
    ensures TimeMinutes(":").Failure?
    ensures TimeMinutes("-1").Failure?
    ensures TimeMinutes("25").Failure?
  {
    assert "-1"[1..] == "1";
    assert "25"[..1] == "2";
  }

  /** "24:30": past the end of the day. */
  lemma PastEndOfDay()
    ensures TimeMinutes("24:30").Failure?
  {
    assert "24"[..1] == "2" && "30"[..1] == "3";
    AtoiTwoDigits("24");
    AtoiTwoDigits("30");
    ClockTextRefused("24", "30", 24, 30);
    assert "24" + ":" + "30" == "24:30";
  }

  /** "00:89": more than 59 minutes. */
  lemma TooManyMinutes()
    ensures TimeMinutes("00:89").Failure?
  {
    assert "00"[..1] == "0" && "89"[..1] == "8";
    AtoiTwoDigits("00");
    AtoiTwoDigits("89");
    ClockTextRefused("00", "89", 0, 89);
    assert "00" + ":" + "89" == "00:89";
  }

  /** "15:-2": negative minutes. */
  lemma NegativeMinutes()
    ensures TimeMinutes("15:-2").Failure?
  {
    assert "15"[..1] == "1" && "-2"[1..] == "2";
    AtoiTwoDigits("15");
    assert DigitsValue("2") == 2;
    ClockTextRefused("15", "-2", 15, -2);
    assert "15" + ":" + "-2" == "15:-2";
  }

  // ---------------------------------------------------------------------------
  // Durations.

  /** The decimal text of a two-digit number: its tens digit, then its units digit. */
  lemma TwoDigitText(n: nat, s: string)
    requires 10 <= n < 100 && |s| == 2
    requires s[0] == DigitChar(n / 10) && s[1] == DigitChar(n % 10)
    ensures Decimal(n) == s
  {
    assert Decimal(n / 10) == [s[0]];
  }

  /** "15m": fifteen minutes. */
  lemma FifteenMinutes()
    ensures DurationMinutes("15m") == Success(15)
  {
    ReadMinutes(15);
    TwoDigitText(15, "15");
    assert Decimal(15) + "m" == "15m";
  }

  /** "1m": one minute. */
  lemma OneMinute()
    ensures DurationMinutes("1m") == Success(1)
  {
    ReadMinutes(1);
    assert Decimal(1) == "1";
    assert Decimal(1) + "m" == "1m";
  }

  /** "1h": one hour. */
  lemma OneHour()
    ensures DurationMinutes("1h") == Success(60)
  {
    ReadHours(1);
    assert Decimal(1) == "1";
    assert Decimal(1) + "h" == "1h";
  }

  /** "10h": ten hours. */
  lemma TenHours()
    ensures DurationMinutes("10h") == Success(10 * 60)
  {
    ReadHours(10);
    TwoDigitText(10, "10");
    assert Decimal(10) + "h" == "10h";
  }

  /** "45m": forty-five minutes. */
  lemma FortyFiveMinutes()
    ensures DurationMinutes("45m") == Success(45)
  {
    ReadMinutes(45);
    TwoDigitText(45, "45");
    assert Decimal(45) + "m" == "45m";
  }

  /** "5h5m": five hours and five minutes. */
  lemma FiveHoursFiveMinutes()
    ensures DurationMinutes("5h5m") == Success(5 * 60 + 5)
  {
    ReadHoursMinutes(5, 5);
    assert Decimal(5) == "5";
    assert "5" + "h" == "5h";
    assert "5h" + "5" == "5h5";
    assert "5h5" + "m" == "5h5m";
    assert Add(MinFromHour(5), 5) == 305;
  }

  /** "10h10m": ten hours and ten minutes. */
  lemma TenHoursTenMinutes()
    ensures DurationMinutes("10h10m") == Success(10 * 60 + 10)
  {
    ReadHoursMinutes(10, 10);
    TwoDigitText(10, "10");
    assert "10" + "h" == "10h";
    assert "10h" + "10" == "10h10";
    assert "10h10" + "m" == "10h10m";
    assert Add(MinFromHour(10), 10) == 610;
  }

  /** "", "10" and "0h0m": no hours and no minutes. */
  lemma NothingDurations()
    ensures DurationMinutes("").Failure?
    ensures DurationMinutes("10").Failure?
    ensures DurationMinutes("0h0m").Failure?
  {
    CutMissing("", 'h');
    CutMissing("", 'm');
    CutMissing("10", 'h');
    CutMissing("10", 'm');
    assert "0h0m" == "0" + ['h'] + "0m";
    CutAt("0", 'h', "0m");
    assert "0m" == "0" + ['m'] + "";
    CutAt("0", 'm', "");
  }

  /** "-1h": a negative number of hours. */
  lemma NegativeHours()
    ensures DurationMinutes("-1h").Failure?
  {
    NegativeHoursRefused(1, "");
    assert Decimal(1) == "1";
    assert "-" + "1" + "h" + "" == "-1h";
  }

  /** "-30m": a negative number of minutes. */
  lemma NegativeMinuteCount()
    ensures DurationMinutes("-30m").Failure?
  {
    NegativeMinutesRefused(30, "");
    TwoDigitText(30, "30");
    assert "-" + "30" == "-30";
    assert "-30" + "m" == "-30m";
    assert "-30m" + "" == "-30m";
  }

  /** "home": nothing before its 'h'. */
  lemma HomeIsNoDuration()
    ensures DurationMinutes("home").Failure?
  {
    assert "home" == "" + ['h'] + "ome";
    CutAt("", 'h', "ome");
  }

  /** "10h-2m": negative minutes. */
  lemma NegativeMinutesDuration()
    ensures DurationMinutes("10h-2m").Failure?
  {
    assert "10h-2m" == "10" + ['h'] + "-2m";
    CutAt("10", 'h', "-2m");
    assert "-2m" == "-2" + ['m'] + "";
    CutAt("-2", 'm', "");
    assert "-2"[1..] == "2";
    assert "10"[..1] == "1";
  }

  // ---------------------------------------------------------------------------
  // Readings that follow from `strconv.Atoi` and `strings.Cut`.

  /** "+1": a signed hour is one hour. */
  lemma SignedHour()
    ensures TimeMinutes("+1") == Success(60)
  {
    ReadSignedHour(1);
    assert Decimal(1) == "1";
    assert "+" + "1" == "+1";
  }

  /** "9:30": an unpadded hour before the colon. */
  lemma UnpaddedClock()
    ensures TimeMinutes("9:30") == Success(9 * 60 + 30)
  {
    ReadShortClock(9, 30);
    assert Decimal(9) == "9";
    TwoDigitText(30, "30");
    assert Pad2(30) == "30";
    assert "9" + ":" == "9:";
    assert "9:" + "30" == "9:30";
  }

  /** "1h30mx": what follows the 'm' is ignored. */
  lemma TrailingTextIgnored()
    ensures DurationMinutes("1h30mx") == Success(90)
  {
    assert Decimal(1) + "h" + Decimal(30) + "m" + "x" == "1h30mx" by {
      assert Decimal(1) == "1";
      TwoDigitText(30, "30");
      assert "1" + "h" == "1h";
      assert "1h" + "30" == "1h30";
      assert "1h30" + "m" == "1h30m";
      assert "1h30m" + "x" == "1h30mx";
    }
    ReadDurationPrefix(1, 30, "x");
    assert Add(MinFromHour(1), 30) == 90;
  }

  /** "2h30": minutes without their 'm' are no minutes. */
  lemma UnmarkedMinutesIgnored()
    ensures DurationMinutes("2h30") == Success(120)
  {
    ReadHoursPrefix(2, "30");
    assert Decimal(2) == "2";
    assert "2" + "h" == "2h";
    assert "2h" + "30" == "2h30";
  }

  /** "-1h90m": negative hours are refused even with minutes after them. */
  lemma NegativeHoursWithMinutes()
    ensures DurationMinutes("-1h90m").Failure?
  {
    NegativeHoursRefused(1, "90m");
    assert Decimal(1) == "1";
    assert "-" + "1" == "-1";
    assert "-1" + "h" == "-1h";
    assert "-1h" + "90m" == "-1h90m";
  }

  // ---------------------------------------------------------------------------
  // Whole commands, with "then" standing for 01:00.

  /** A word that is no time, no duration, no keyword and neither "now" nor "clear" is a name part. */
  lemma NamePart(token: string, now: Minute)
    requires token != TimeNow && token != NameClear && !IsKeyword(token)
    requires TimeMinutes(token).Failure? && DurationMinutes(token).Failure?
    ensures PartOf(token, now) == Name(token)
  {
  }

  /** A keyword's word that is no time and no duration is a keyword part. */
  lemma KeywordPart(k: Keyword, now: Minute)
    requires TimeMinutes(KeywordText(k)).Failure? && DurationMinutes(KeywordText(k)).Failure?
    ensures PartOf(KeywordText(k), now) == Kw(k)
  {
    var token := KeywordText(k);
    assert token != TimeNow by {
      assert |TimeNow| == 3 && TimeNow[0] == 'n';
    }
    assert ParseTime([token], now).Failure?;
    assert ParseDuration([token]).Failure?;
    assert KeywordOf(token) == Some(k);
    assert ParseKeyword([token]) == Success(Parsed(Kw(k), 1));
  }

  /** "work" is neither "now", "clear" nor a keyword. */
  lemma WorkNoKeyword()
    ensures "work" != TimeNow && "work" != NameClear && !IsKeyword("work")
  {
    assert "work"[0] == 'w';
  }

  /** "work": no colon, so no time. */
  lemma WorkNoTime()
    ensures TimeMinutes("work").Failure?
  {
    CutMissing("work", ':');
  }

  /** "work": no 'h' and no 'm', so a duration of nothing. */
  lemma WorkNoDuration()
    ensures DurationMinutes("work").Failure?
  {
    CutMissing("work", 'h');
    CutMissing("work", 'm');
  }


  /** A word other than "now" that reads as a time is a time part. */
  lemma TimePart(token: string, now: Minute, m: Minute)
    requires token != TimeNow && TimeMinutes(token) == Success(m)
    ensures PartOf(token, now) == Time(m)
  {
  }

  /** A word other than "now" that is no time but reads as a duration is a duration part. */
  lemma DurationPart(token: string, now: Minute, d: Minute)
    requires token != TimeNow && TimeMinutes(token).Failure? && DurationMinutes(token) == Success(d)
    ensures PartOf(token, now) == Duration(d)
  {
  }

  /** The parts of a single word. */
  lemma SinglePart(token: string, now: Minute)
    ensures Parts([token], now) == [PartOf(token, now)]
  {
  }

  /** The parts of two lists of words, one after the other. */
  lemma PartsConcat(u: seq<string>, v: seq<string>, now: Minute)
    ensures Parts(u + v, now) == Parts(u, now) + Parts(v, now)
  {
  }

  // Each command below is given by its words; `Text.FieldsJoin` shows that
  // splitting the words joined by single spaces gives them back. The words
  // are read one at a time.

  /** "then" is the keyword. */
  lemma ThenPart(now: Minute)
    ensures Parts(["then"], now) == [Kw(Then)]
  {
    SinglePart("then", now);
    ThenNoTime();
    KeywordPart(Then, now);
  }

  /** "work" is a name: no time, no duration and no keyword. */
  lemma WorkPart(now: Minute)
    ensures Parts(["work"], now) == [Name("work")]
  {
    SinglePart("work", now);
    WorkNoTime();
    WorkNoDuration();
    WorkNoKeyword();
    NamePart("work", now);
  }

  /** "for" is the keyword. */
  lemma ForPart(now: Minute)
    ensures Parts(["for"], now) == [Kw(For)]
  {
    SinglePart("for", now);
    ForNoTime();
    KeywordPart(For, now);
  }

  /** "until" is the keyword. */
  lemma UntilPart(now: Minute)
    ensures Parts(["until"], now) == [Kw(Until)]
  {
    SinglePart("until", now);
    UntilNoTime();
    UntilNoDuration();
    KeywordPart(Until, now);
  }

  /** "to" is the keyword. */
  lemma ToPart(now: Minute)
    ensures Parts(["to"], now) == [Kw(To)]
  {
    SinglePart("to", now);
    ToNoTime();
    KeywordPart(To, now);
  }

  /** "from" is the keyword. */
  lemma FromPart(now: Minute)
    ensures Parts(["from"], now) == [Kw(From)]
  {
    SinglePart("from", now);
    FromNoTime();
    FromNoDuration();
    KeywordPart(From, now);
  }

  /** "15m" is a duration of fifteen minutes. */
  lemma FifteenMinutesPart(now: Minute)
    ensures Parts(["15m"], now) == [Duration(15)]
  {
    SinglePart("15m", now);
    FifteenMinutes();
    DurationPart("15m", now, 15);
    assert PartOf("15m", now) == Duration(15);
  }

  /** "45m" is a duration of forty-five minutes. */
  lemma FortyFiveMinutesPart(now: Minute)
    ensures Parts(["45m"], now) == [Duration(45)]
  {
    SinglePart("45m", now);
    FortyFiveMinutes();
    DurationPart("45m", now, 45);
    assert PartOf("45m", now) == Duration(45);
  }

  /** "15:00" is a time. */
  lemma ThreePmPart(now: Minute)
    ensures Parts(["15:00"], now) == [Time(900)]
  {
    SinglePart("15:00", now);
    ThreePm();
    TimePart("15:00", now, 900);
    assert PartOf("15:00", now) == Time(900);
  }

  /** "16:30" is a time. */
  lemma HalfPastFourPmPart(now: Minute)
    ensures Parts(["16:30"], now) == [Time(990)]
  {
    SinglePart("16:30", now);
    HalfPastFourPm();
    TimePart("16:30", now, 990);
    assert PartOf("16:30", now) == Time(990);
  }

  /** "16:00" is a time. */
  lemma FourPmPart(now: Minute)
    ensures Parts(["16:00"], now) == [Time(960)]
  {
    SinglePart("16:00", now);
    FourPm();
    TimePart("16:00", now, 960);
    assert PartOf("16:00", now) == Time(960);
  }

  /** "then work". */
  lemma ThenWorkParts(now: Minute)
    ensures Parts(["then", "work"], now) == [Kw(Then), Name("work")]
  {
    ThenPart(now);
    WorkPart(now);
    PartsConcat(["then"], ["work"], now);
    assert ["then"] + ["work"] == ["then", "work"];
  }

  /** "for 15m". */
  lemma ForFifteenParts(now: Minute)
    ensures Parts(["for", "15m"], now) == [Kw(For), Duration(15)]
  {
    ForPart(now);
    FifteenMinutesPart(now);
    PartsConcat(["for"], ["15m"], now);
    assert ["for"] + ["15m"] == ["for", "15m"];
  }

  /** "until 15:00". */
  lemma UntilThreePmParts(now: Minute)
    ensures Parts(["until", "15:00"], now) == [Kw(Until), Time(900)]
  {
    UntilPart(now);
    ThreePmPart(now);
    PartsConcat(["until"], ["15:00"], now);
    assert ["until"] + ["15:00"] == ["until", "15:00"];
  }

  /** "work from". */
  lemma WorkFromParts(now: Minute)
    ensures Parts(["work", "from"], now) == [Name("work"), Kw(From)]
  {
    WorkPart(now);
    FromPart(now);
    PartsConcat(["work"], ["from"], now);
    assert ["work"] + ["from"] == ["work", "from"];
  }

  /** "to 16:30". */
  lemma ToHalfPastFourParts(now: Minute)
    ensures Parts(["to", "16:30"], now) == [Kw(To), Time(990)]
  {
    ToPart(now);
    HalfPastFourPmPart(now);
    PartsConcat(["to"], ["16:30"], now);
    assert ["to"] + ["16:30"] == ["to", "16:30"];
  }

  /** "to 16:00". */
  lemma ToFourParts(now: Minute)
    ensures Parts(["to", "16:00"], now) == [Kw(To), Time(960)]
  {
    ToPart(now);
    FourPmPart(now);
    PartsConcat(["to"], ["16:00"], now);
    assert ["to"] + ["16:00"] == ["to", "16:00"];
  }

  /** "for 45m". */
  lemma ForFortyFiveParts(now: Minute)
    ensures Parts(["for", "45m"], now) == [Kw(For), Duration(45)]
  {
    ForPart(now);
    FortyFiveMinutesPart(now);
    PartsConcat(["for"], ["45m"], now);
    assert ["for"] + ["45m"] == ["for", "45m"];
  }

  /** The parts of "then work for 15m". */
  lemma ThenWorkForParts(now: Minute)
    ensures Parts(["then", "work", "for", "15m"], now) == [Kw(Then), Name("work"), Kw(For), Duration(15)]
  {
    ThenWorkParts(now);
    ForFifteenParts(now);
    PartsConcat(["then", "work"], ["for", "15m"], now);
    assert ["then", "work"] + ["for", "15m"] == ["then", "work", "for", "15m"];
  }

  /** "then NAME for D": from the "then" time for D minutes. */
  lemma ThenForShape(name: string, d: Minute, thenMinutes: Minute)
    requires thenMinutes < Add(thenMinutes, d)
    ensures Interpret([Kw(Then), Name(name), Kw(For), Duration(d)], thenMinutes)
            == Success(Entry(thenMinutes, Add(thenMinutes, d), name))
  {
    InterpretAccepts([Kw(Then), Name(name), Kw(For), Duration(d)], thenMinutes, Entry(thenMinutes, Add(thenMinutes, d), name));
  }

  /** "then NAME until T" (or "to T"): from the "then" time to T. */
  lemma ThenUntilShape(name: string, k: Keyword, to: Minute, thenMinutes: Minute)
    requires (k == Until || k == To) && thenMinutes < to
    ensures Interpret([Kw(Then), Name(name), Kw(k), Time(to)], thenMinutes) == Success(Entry(thenMinutes, to, name))
  {
    InterpretAccepts([Kw(Then), Name(name), Kw(k), Time(to)], thenMinutes, Entry(thenMinutes, to, name));
  }

  /** "NAME from F for D": from F for D minutes. */
  lemma FromForShape(name: string, from: Minute, d: Minute, thenMinutes: Minute)
    requires from < Add(from, d)
    ensures Interpret([Name(name), Kw(From), Time(from), Kw(For), Duration(d)], thenMinutes)
            == Success(Entry(from, Add(from, d), name))
  {
    InterpretAccepts([Name(name), Kw(From), Time(from), Kw(For), Duration(d)], thenMinutes, Entry(from, Add(from, d), name));
  }

  /** "NAME from F until T" (or "to T"): from F to T. */
  lemma FromUntilShape(name: string, from: Minute, k: Keyword, to: Minute, thenMinutes: Minute)
    requires (k == Until || k == To) && from < to
    ensures Interpret([Name(name), Kw(From), Time(from), Kw(k), Time(to)], thenMinutes) == Success(Entry(from, to, name))
  {
    InterpretAccepts([Name(name), Kw(From), Time(from), Kw(k), Time(to)], thenMinutes, Entry(from, to, name));
  }

  /** "then work for 15m": from 01:00 for fifteen minutes. */
  lemma ThenWorkFor(now: Minute)
    ensures Interpret(Parts(["then", "work", "for", "15m"], now), 60) == Success(Entry(60, 75, "work"))
  {
    ThenWorkForParts(now);
    assert Add(60, 15) == 75;
    ThenForShape("work", 15, 60);
  }

  /** The parts of "then work until 15:00". */
  lemma ThenWorkUntilParts(now: Minute)
    ensures Parts(["then", "work", "until", "15:00"], now) == [Kw(Then), Name("work"), Kw(Until), Time(900)]
  {
    ThenWorkParts(now);
    UntilThreePmParts(now);
    PartsConcat(["then", "work"], ["until", "15:00"], now);
    assert ["then", "work"] + ["until", "15:00"] == ["then", "work", "until", "15:00"];
  }

  /** "then work until 15:00": from 01:00 to three in the afternoon. */
  lemma ThenWorkUntil(now: Minute)
    ensures Interpret(Parts(["then", "work", "until", "15:00"], now), 60) == Success(Entry(60, 900, "work"))
  {
    ThenWorkUntilParts(now);
    ThenUntilShape("work", Until, 900, 60);
  }

  /** The parts of "work from 15:00 to 16:30". */
  lemma WorkFromToParts(now: Minute)
    ensures Parts(["work", "from", "15:00", "to", "16:30"], now) == [Name("work"), Kw(From), Time(900), Kw(To), Time(990)]
  {
    WorkFromParts(now);
    ThreePmPart(now);
    ToHalfPastFourParts(now);
    PartsConcat(["work", "from"], ["15:00"], now);
    PartsConcat(["work", "from", "15:00"], ["to", "16:30"], now);
    assert ["work", "from"] + ["15:00"] == ["work", "from", "15:00"];
    assert ["work", "from", "15:00"] + ["to", "16:30"] == ["work", "from", "15:00", "to", "16:30"];
  }

  /** "work from 15:00 to 16:30": from three to half past four in the afternoon. */
  lemma WorkFromTo(now: Minute)
    ensures Interpret(Parts(["work", "from", "15:00", "to", "16:30"], now), 60) == Success(Entry(900, 990, "work"))
  {
    WorkFromToParts(now);
    FromUntilShape("work", 900, To, 990, 60);
  }

  /** The parts of "work from 15:00 to 16:00". */
  lemma WorkFromToFourParts(now: Minute)
    ensures Parts(["work", "from", "15:00", "to", "16:00"], now) == [Name("work"), Kw(From), Time(900), Kw(To), Time(960)]
  {
    WorkFromParts(now);
    ThreePmPart(now);
    ToFourParts(now);
    PartsConcat(["work", "from"], ["15:00"], now);
    PartsConcat(["work", "from", "15:00"], ["to", "16:00"], now);
    assert ["work", "from"] + ["15:00"] == ["work", "from", "15:00"];
    assert ["work", "from", "15:00"] + ["to", "16:00"] == ["work", "from", "15:00", "to", "16:00"];
  }

  /** "work from 15:00 to 16:00": from three to four in the afternoon. */
  lemma WorkFromToFour(now: Minute)
    ensures Interpret(Parts(["work", "from", "15:00", "to", "16:00"], now), 60) == Success(Entry(900, 960, "work"))
  {
    WorkFromToFourParts(now);
    FromUntilShape("work", 900, To, 960, 60);
  }

  /** The parts of "work from 15:00 for 45m". */
  lemma WorkFromForParts(now: Minute)
    ensures Parts(["work", "from", "15:00", "for", "45m"], now) == [Name("work"), Kw(From), Time(900), Kw(For), Duration(45)]
  {
    WorkFromParts(now);
    ThreePmPart(now);
    ForFortyFiveParts(now);
    PartsConcat(["work", "from"], ["15:00"], now);
    PartsConcat(["work", "from", "15:00"], ["for", "45m"], now);
    assert ["work", "from"] + ["15:00"] == ["work", "from", "15:00"];
    assert ["work", "from", "15:00"] + ["for", "45m"] == ["work", "from", "15:00", "for", "45m"];
  }

  /** "work from 15:00 for 45m": from three in the afternoon for forty-five minutes. */
  lemma WorkFromFor(now: Minute)
    ensures Interpret(Parts(["work", "from", "15:00", "for", "45m"], now), 60) == Success(Entry(900, 945, "work"))
  {
    WorkFromForParts(now);
    assert Add(900, 45) == 945;
    FromForShape("work", 900, 45, 60);
  }
}
