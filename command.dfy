/**
 * The `command` package: a one-line command such as "then work for 15m" or
 * "work from 15:00 to 16:30" is split into words, each word is classified
 * as a time, a duration, a keyword or a name, and the parts are read into a
 * schedule entry.
 */
module Command {
  import opened Wrappers
  import opened Int64
  import opened Text
  import opened Day
  import Schedule

  // ---------------------------------------------------------------------------
  // Parts of a command.

  datatype Keyword = Then | From | Until | To | For

  /** The spelling of each keyword. */
  function KeywordText(k: Keyword): string
  {
    match k
    case Then => "then"
    case From => "from"
    case Until => "until"
    case To => "to"
    case For => "for"
  }

  /** The table of keywords: the keyword a word spells, if any (`isKeyword`). */
  function KeywordOf(token: string): (r: Option<Keyword>)
    ensures r.Some? ==> KeywordText(r.value) == token
    ensures r.None? ==> forall k :: KeywordText(k) != token
  {
    if token == "then" then Some(Then)
    else if token == "from" then Some(From)
    else if token == "until" then Some(Until)
    else if token == "to" then Some(To)
    else if token == "for" then Some(For)
    else None
  }

  /** `isKeyword`: the word is in the keyword table. */
  predicate IsKeyword(token: string)
    ensures IsKeyword(token) <==> exists k :: KeywordText(k) == token
  {
    assert KeywordOf(token).Some? ==> KeywordText(KeywordOf(token).value) == token;
    KeywordOf(token).Some?
  }

  /** A classified word: the type tag and value of `CmdPart`. */
  datatype Part =
    | Kw(keyword: Keyword)
    | Name(name: string)
    | Time(minutes: Minute)
    | Duration(length: Minute)

  /** What a parser yields: the part and how many words it used. */
  datatype Parsed = Parsed(part: Part, consumed: nat)

  /** Why a single parser refused the words in front of it. */
  datatype ParseError =
    | TooShort
    | InvalidTime(got: string)
    | InvalidDuration(got: string)
    | ExpectedName(got: string)
    | ExpectedKeyword(got: string)

  /** Why a command was refused. */
  datatype CommandError =
    | UnparsableToken(token: string)
    | ExpectedThenOrName
    | InvalidStructure
    | ExpectedStartTime
    | ExpectedForOrUntil
    | NonPositiveDuration

  const NameClear: string := "clear"
  const TimeNow: string := "now"

  // ---------------------------------------------------------------------------
  // Times and durations.

  /** `minFromHour`: hours as minutes, in 64-bit arithmetic. */
  function MinFromHour(hours: int): (r: Minute)
    ensures MinInt64 <= hours * 60 <= MaxInt64 ==> r == hours * 60
  {
    Mul(hours, 60)
  }

  /**
   * `minutesFromTimeString`: "H" or "HH" is a whole hour from 0 to 24;
   * "H:MM" or "HH:MM" (four or five characters around the first colon) adds
   * minutes from 0 to 59, with 24 allowed only as "24:00". Every time read is
   * a minute of the day from 0 to 1440.
   */
  function TimeMinutes(token: string): (r: Result<Minute, ParseError>)
    ensures r.Success? ==> 0 <= r.value <= DayEnd
    ensures r.Success? ==> |token| == 1 || |token| == 2 || |token| == 4 || |token| == 5
    ensures r.Failure? ==> r.error == InvalidTime(token)
  {
    if |token| == 1 || |token| == 2 then
      match Atoi(token)
      case None => Failure(InvalidTime(token))
      case Some(hours) =>
        if hours < 0 || hours > 24 then Failure(InvalidTime(token))
        else Success(MinFromHour(hours))
    else if |token| == 4 || |token| == 5 then
      var split := Cut(token, ':');
      var hours := Atoi(split.before);
      var minutes := Atoi(split.after);
      if !split.found || hours.None? || minutes.None? then Failure(InvalidTime(token))
      else if hours.value < 0 || hours.value > 24 || minutes.value < 0 || minutes.value > 59
              || (hours.value == 24 && minutes.value != 0) then
        Failure(InvalidTime(token))
      else Success(Add(MinFromHour(hours.value), minutes.value))
    else Failure(InvalidTime(token))
  }

  /**
   * `minutesFromDurationString`: the hours are the text before the first 'h'
   * (none without an 'h'); the minutes are the text before the first 'm' of
   * what follows the 'h' (the whole word without an 'h'), none without an
   * 'm'; text after the 'm' is ignored. Negative counts and a total of no
   * hours and no minutes are refused. A word of at most 17 characters never
   * reaches the 64-bit limit, so its duration is positive.
   */
  function DurationMinutes(token: string): (r: Result<Minute, ParseError>)
    ensures r.Success? && |token| <= 17 ==> r.value > 0
    ensures r.Failure? ==> r.error == InvalidDuration(token)
  {
    var hSplit := Cut(token, 'h');
    var hours := if hSplit.found then Atoi(hSplit.before) else Some(0);
    var minutesPart := if hSplit.found then hSplit.after else token;
    var mSplit := Cut(minutesPart, 'm');
    var minutes := if mSplit.found then Atoi(mSplit.before) else Some(0);
    if hours.None? || minutes.None? then Failure(InvalidDuration(token))
    else if hours.value < 0 || minutes.value < 0 || (hours.value == 0 && minutes.value == 0) then
      Failure(InvalidDuration(token))
    else
      assert |token| <= 17 ==> Add(MinFromHour(hours.value), minutes.value) > 0 by {
        if |token| <= 17 {
          if hSplit.found {
            Pow10Monotone(|hSplit.before|, 16);
          }
          if mSplit.found {
            Pow10Monotone(|mSplit.before|, 16);
          }
          ShortCountsFit(hours.value, minutes.value);
        }
      }
      Success(Add(MinFromHour(hours.value), minutes.value))
  }

  /** Counts below 10^16 of hours and minutes add up to a positive 64-bit number of minutes. */
  lemma ShortCountsFit(hours: int, minutes: int)
    requires 0 <= hours < Pow10(16) && 0 <= minutes < Pow10(16) && !(hours == 0 && minutes == 0)
    ensures Add(MinFromHour(hours), minutes) > 0
  {
    assert Pow10(4) == 10_000 by {
      assert Pow10(1) == 10 && Pow10(2) == 100 && Pow10(3) == 1000;
    }
    assert Pow10(8) == 100_000_000 by {
      assert Pow10(5) == 100_000 && Pow10(6) == 1_000_000 && Pow10(7) == 10_000_000;
    }
    assert Pow10(12) == 1_000_000_000_000 by {
      assert Pow10(9) == 1_000_000_000 && Pow10(10) == 10_000_000_000 && Pow10(11) == 100_000_000_000;
    }
    assert Pow10(16) == 10_000_000_000_000_000 by {
      assert Pow10(13) == 10_000_000_000_000 && Pow10(14) == 100_000_000_000_000;
      assert Pow10(15) == 1_000_000_000_000_000;
    }
  }

  // ---------------------------------------------------------------------------
  // The word parsers, tried in the order time, duration, keyword, name.

  /** `parseTime`: the first word as a time; "now" is the current minute of the day. */
  function ParseTime(tokens: seq<string>, now: Minute): (r: Result<Parsed, ParseError>)
    ensures r.Success? ==> r.value.consumed == 1 && r.value.part.Time? && 0 <= r.value.part.minutes <= DayEnd
    ensures |tokens| == 0 <==> r == Failure(TooShort)
  {
    if |tokens| < 1 then Failure(TooShort)
    else
      var token := if tokens[0] == TimeNow then Clock(now) else tokens[0];
      match TimeMinutes(token)
      case Success(minutes) => Success(Parsed(Time(minutes), 1))
      case Failure(e) => Failure(e)
  }

  /** `parseDuration`: the first word as a duration. */
  function ParseDuration(tokens: seq<string>): (r: Result<Parsed, ParseError>)
    ensures r.Success? ==> r.value.consumed == 1 && r.value.part.Duration?
    ensures r.Success? ==> |tokens| > 0 && (|tokens[0]| <= 17 ==> r.value.part.length > 0)
    ensures |tokens| == 0 <==> r == Failure(TooShort)
  {
    if |tokens| < 1 then Failure(TooShort)
    else
      match DurationMinutes(tokens[0])
      case Success(minutes) => Success(Parsed(Duration(minutes), 1))
      case Failure(e) => Failure(e)
  }

  /** `parseKeyword`: the first word, when it is one of the five keywords. */
  function ParseKeyword(tokens: seq<string>): (r: Result<Parsed, ParseError>)
    ensures r.Success? <==> |tokens| >= 1 && IsKeyword(tokens[0])
    ensures r.Success? ==> r.value.consumed == 1 && r.value.part.Kw?
                           && KeywordText(r.value.part.keyword) == tokens[0]
  {
    if |tokens| < 1 then Failure(TooShort)
    else if !IsKeyword(tokens[0]) then Failure(ExpectedKeyword(tokens[0]))
    else Success(Parsed(Kw(KeywordOf(tokens[0]).value), 1))
  }

  /** `parseName`: the first word, unless it is a keyword; "clear" is the empty name. */
  function ParseName(tokens: seq<string>): (r: Result<Parsed, ParseError>)
    ensures r.Success? <==> |tokens| >= 1 && !IsKeyword(tokens[0])
    ensures r.Success? ==> r.value.consumed == 1 && r.value.part.Name?
    ensures r.Success? && tokens[0] != NameClear ==> r.value.part.name == tokens[0]
    ensures r.Success? && tokens[0] == NameClear ==> r.value.part.name == ""
  {
    if |tokens| < 1 then Failure(TooShort)
    else if IsKeyword(tokens[0]) then Failure(ExpectedName(tokens[0]))
    else Success(Parsed(Name(if tokens[0] == NameClear then "" else tokens[0]), 1))
  }

  /** The part a single word becomes: the first parser in the fixed order that accepts it. */
  function PartOf(token: string, now: Minute): Part
  {
    match ParseTime([token], now)
    case Success(p) => p.part
    case Failure(_) =>
      match ParseDuration([token])
      case Success(p) => p.part
      case Failure(_) =>
        match ParseKeyword([token])
        case Success(p) => p.part
        case Failure(_) => ParseName([token]).value.part
  }

  /**
   * The kind of a word's part names the parser that accepted it, and every
   * parser before that one in the order time, duration, keyword, name refused it.
   */
  lemma PartOrder(token: string, now: Minute)
    ensures var r := PartOf(token, now);
      && (r.Time? <==> ParseTime([token], now).Success?)
      && (r.Time? ==> ParseTime([token], now) == Success(Parsed(r, 1)))
      && (r.Duration? <==> ParseTime([token], now).Failure? && ParseDuration([token]).Success?)
      && (r.Duration? ==> ParseDuration([token]) == Success(Parsed(r, 1)))
      && (r.Kw? ==> ParseTime([token], now).Failure? && ParseDuration([token]).Failure?
                    && ParseKeyword([token]) == Success(Parsed(r, 1)))
      && (r.Name? ==> ParseTime([token], now).Failure? && ParseDuration([token]).Failure?
                      && ParseKeyword([token]).Failure? && ParseName([token]) == Success(Parsed(r, 1)))
  {
  }

  /** The parts of a list of words: one per word, in order. */
  function Parts(tokens: seq<string>, now: Minute): (r: seq<Part>)
    ensures |r| == |tokens|
  {
    seq(|tokens|, i requires 0 <= i < |tokens| => PartOf(tokens[i], now))
  }

  /** A word without a digit is no number. */
  lemma NoDigitNoNumber(s: string)
    requires forall i :: 0 <= i < |s| ==> !IsDigit(s[i])
    requires |s| > 0 && s[0] != '+' && s[0] != '-'
    ensures Atoi(s).None?
  {
    assert !IsDigit(s[0]);
  }

  /** A word without the separator does not split. */
  lemma CutMissing(s: string, sep: char)
    requires sep !in s
    ensures !Cut(s, sep).found && Cut(s, sep).before == s
  {
  }

  /** "then": no colon to read as a time, and "t" before its 'h' is no number of hours. */
  lemma ThenNoTime()
    ensures TimeMinutes("then").Failure? && DurationMinutes("then").Failure?
  {
    assert "then" == "t" + ['h'] + "en";
    CutMissing("then", ':');
    CutAt("t", 'h', "en");
    NoDigitNoNumber("t");
  }

  /** "from": no colon, so no time. */
  lemma FromNoTime()
    ensures TimeMinutes("from").Failure?
  {
    CutMissing("from", ':');
  }

  /** "from": no 'h', and "fro" before its 'm' is no number of minutes. */
  lemma FromNoDuration()
    ensures DurationMinutes("from").Failure?
  {
    CutMissing("from", 'h');
    assert "from" == "fro" + ['m'] + "";
    CutAt("fro", 'm', "");
    NoDigitNoNumber("fro");
  }

  /** "until": no colon, so no time. */
  lemma UntilNoTime()
    ensures TimeMinutes("until").Failure?
  {
    CutMissing("until", ':');
  }

  /** "until": no 'h' and no 'm', so a duration of nothing. */
  lemma UntilNoDuration()
    ensures DurationMinutes("until").Failure?
  {
    CutMissing("until", 'h');
    CutMissing("until", 'm');
  }

  /** "to": no number of hours, no 'h' and no 'm'. */
  lemma ToNoTime()
    ensures TimeMinutes("to").Failure? && DurationMinutes("to").Failure?
  {
    NoDigitNoNumber("to");
    CutMissing("to", 'h');
    CutMissing("to", 'm');
  }

  /** "for": three characters are no time, and no 'h' and no 'm'. */
  lemma ForNoTime()
    ensures TimeMinutes("for").Failure? && DurationMinutes("for").Failure?
  {
    CutMissing("for", 'h');
    CutMissing("for", 'm');
  }

  /** No keyword reads as a time or as a duration. */
  lemma KeywordNotTimeOrDuration(k: Keyword)
    ensures TimeMinutes(KeywordText(k)).Failure? && DurationMinutes(KeywordText(k)).Failure?
  {
    match k
    case Then => ThenNoTime();
    case From => FromNoTime(); FromNoDuration();
    case Until => UntilNoTime(); UntilNoDuration();
    case To => ToNoTime();
    case For => ForNoTime();
  }

  /** Keywords are exactly the words that become keyword parts; names never carry a keyword. */
  lemma KeywordParts(token: string, now: Minute)
    ensures PartOf(token, now).Kw? <==> IsKeyword(token)
    ensures PartOf(token, now).Name? ==> !IsKeyword(PartOf(token, now).name)
  {
    if IsKeyword(token) {
      KeywordNotTimeOrDuration(KeywordOf(token).value);
    }
  }

  /** The parsers in the order they are tried (`parsers`). */
  function Parsers(now: Minute): (ps: seq<seq<string> -> Result<Parsed, ParseError>>)
    ensures |ps| == 4
    ensures forall ts :: ps[0](ts) == ParseTime(ts, now) && ps[1](ts) == ParseDuration(ts)
    ensures forall ts :: ps[2](ts) == ParseKeyword(ts) && ps[3](ts) == ParseName(ts)
  {
    [ts => ParseTime(ts, now), ParseDuration, ParseKeyword, ParseName]
  }

  /** The first parser to accept a list of words yields the part of its first word, using that word only. */
  lemma FirstAccepting(tokens: seq<string>, now: Minute, j: nat)
    requires |tokens| > 0 && j < 4
    requires forall k :: 0 <= k < j ==> Parsers(now)[k](tokens).Failure?
    requires Parsers(now)[j](tokens).Success?
    ensures Parsers(now)[j](tokens).value == Parsed(PartOf(tokens[0], now), 1)
  {
    var ps := Parsers(now);
    var t := tokens[0];
    assert ps[0](tokens) == ParseTime(tokens, now) && ps[1](tokens) == ParseDuration(tokens);
    assert ps[2](tokens) == ParseKeyword(tokens) && ps[3](tokens) == ParseName(tokens);
    assert ParseTime(tokens, now) == ParseTime([t], now);
    assert ParseDuration(tokens) == ParseDuration([t]);
    if j >= 2 {
      assert ParseKeyword(tokens) == ParseKeyword([t]);
    }
    if j == 3 {
      assert ParseName(tokens) == ParseName([t]);
    }
  }

  /** Every word is a keyword or a name, so some parser always accepts it. */
  lemma SomeParserAccepts(tokens: seq<string>, now: Minute)
    ensures |tokens| > 0 ==> Parsers(now)[2](tokens).Success? || Parsers(now)[3](tokens).Success?
  {
  }

  /**
   * `parseCommand`: classify the words one by one, trying the parsers in
   * their fixed order; the first that accepts the word decides its part.
   */
  method ParseCommand(tokens: seq<string>, now: Minute) returns (r: Result<seq<Part>, CommandError>)
    ensures r == Success(Parts(tokens, now))
  {
    var parsers := Parsers(now);
    var result: seq<Part> := [];
    var rest := tokens;
    while |rest| > 0
      invariant |result| + |rest| == |tokens| && rest == tokens[|result|..]
      invariant forall i :: 0 <= i < |result| ==> result[i] == PartOf(tokens[i], now)
    {
      var token := rest[0];
      var parsed := false;
      var j := 0;
      while j < |parsers|
        invariant 0 <= j <= |parsers|
        invariant !parsed
        invariant forall k :: 0 <= k < j ==> parsers[k](rest).Failure?
      {
        var outcome := parsers[j](rest);
        if outcome.Success? {
          FirstAccepting(rest, now, j);
          assert rest[0] == tokens[|result|];
          parsed := true;
          result := result + [outcome.value.part];
          rest := rest[outcome.value.consumed..];
          break;
        }
        j := j + 1;
      }
      if !parsed {
        SomeParserAccepts(rest, now);
        assert false;
        return Failure(UnparsableToken(token));
      }
    }
    assert result == Parts(tokens, now);
    return Success(result);
  }

  // ---------------------------------------------------------------------------
  // Reading the parts into an entry.

  /** A command: "then", or a name, comes first. */
  function Interpret(parts: seq<Part>, thenMinutes: Minute): (r: Result<Entry, CommandError>)
    ensures r.Success? ==> r.value.from < r.value.to
  {
    if parts == [] then Failure(InvalidStructure)
    else if parts[0] == Kw(Then) then AfterThen(parts[1..], thenMinutes)
    else if parts[0].Name? then AfterName(parts[1..], parts[0].name)
    else Failure(ExpectedThenOrName)
  }

  /** After "then": the name. */
  function AfterThen(rest: seq<Part>, from: Minute): (r: Result<Entry, CommandError>)
    ensures rest == [] ==> r == Failure(InvalidStructure)
    ensures rest != [] && !rest[0].Name? ==> r == Failure(ExpectedThenOrName)
    ensures r.Success? ==> rest[0] == Name(r.value.name) && r.value.from == from
  {
    if rest == [] then Failure(InvalidStructure)
    else if rest[0].Name? then Ending(rest[1..], rest[0].name, from)
    else Failure(ExpectedThenOrName)
  }

  /** After a leading name: "from" and the start time. */
  function AfterName(rest: seq<Part>, name: string): (r: Result<Entry, CommandError>)
    ensures |rest| < 2 ==> r == Failure(InvalidStructure)
    ensures |rest| >= 2 && !(rest[0] == Kw(From) && rest[1].Time?) ==> r == Failure(ExpectedStartTime)
    ensures r.Success? ==> rest[..2] == [Kw(From), Time(r.value.from)] && r.value.name == name
  {
    if |rest| < 2 then Failure(InvalidStructure)
    else if rest[0] == Kw(From) && rest[1].Time? then Ending(rest[2..], name, rest[1].minutes)
    else Failure(ExpectedStartTime)
  }

  /** After the name and the start: "for" and a duration, or "until"/"to" and an end time. */
  function Ending(rest: seq<Part>, name: string, from: Minute): (r: Result<Entry, CommandError>)
    ensures |rest| < 2 ==> r == Failure(InvalidStructure)
    ensures |rest| >= 2 && rest[0] != Kw(For) && rest[0] != Kw(Until) && rest[0] != Kw(To)
            ==> r == Failure(ExpectedForOrUntil)
    ensures r.Success? ==> |rest| == 2 && EndClause(rest[0], rest[1], r.value)
    ensures r.Success? ==> r.value.name == name && r.value.from == from && r.value.from < r.value.to
  {
    if |rest| < 2 then Failure(InvalidStructure)
    else if rest[0] == Kw(For) then
      if rest[1].Duration? then Finish(rest[2..], Entry(from, Add(from, rest[1].length), name))
      else Failure(InvalidStructure)
    else if rest[0] == Kw(Until) || rest[0] == Kw(To) then
      if rest[1].Time? then Finish(rest[2..], Entry(from, rest[1].minutes, name))
      else Failure(InvalidStructure)
    else Failure(ExpectedForOrUntil)
  }

  /** Nothing may follow the end, and the entry must not be empty. */
  function Finish(rest: seq<Part>, e: Entry): (r: Result<Entry, CommandError>)
    ensures r.Success? <==> rest == [] && e.from < e.to
    ensures r.Success? ==> r.value == e
  {
    if rest != [] then Failure(InvalidStructure)
    else if e.from >= e.to then Failure(NonPositiveDuration)
    else Success(e)
  }

  /** The end of a command: "for" a duration, or "until"/"to" a time. */
  predicate EndClause(kw: Part, arg: Part, e: Entry)
  {
    || (kw == Kw(For) && arg.Duration? && e.to == Add(e.from, arg.length))
    || ((kw == Kw(Until) || kw == Kw(To)) && arg == Time(e.to))
  }

  /** The two command shapes: "then NAME END" and "NAME from TIME END". */
  predicate Accepted(parts: seq<Part>, thenMinutes: Minute, e: Entry)
  {
    || (|parts| == 4 && parts[0] == Kw(Then) && parts[1] == Name(e.name) && e.from == thenMinutes
        && EndClause(parts[2], parts[3], e))
    || (|parts| == 5 && parts[0] == Name(e.name) && parts[1] == Kw(From) && parts[2] == Time(e.from)
        && EndClause(parts[3], parts[4], e))
  }

  /** A command yields an entry exactly when it has one of the two shapes and the entry is not empty. */
  lemma InterpretAccepts(parts: seq<Part>, thenMinutes: Minute, e: Entry)
    ensures Interpret(parts, thenMinutes) == Success(e) <==> Accepted(parts, thenMinutes, e) && e.from < e.to
  {
    if Accepted(parts, thenMinutes, e) && e.from < e.to {
      if parts[0] == Kw(Then) {
        assert parts[1..][1..][2..] == [];
      } else {
        assert parts[1..][2..][2..] == [];
      }
    }
  }

  /**
   * `GenerateEntryFromCommand`: split the command into words, classify them,
   * then read the parts with the flags name/start/end found; "then" takes the
   * start from `thenMinutes`, and `now` stands for the clock read by "now".
   */
  method GenerateEntryFromCommand(command: string, thenMinutes: Minute, now: Minute)
    returns (r: Result<Entry, CommandError>)
    ensures r == Interpret(Parts(Fields(command), now), thenMinutes)
  {
    var tokens := Fields(command);
    var parsedParts := ParseCommand(tokens, now);
    var parts: seq<Part>;
    match parsedParts {
      case Failure(err) =>
        assert false;
        return Failure(err);
      case Success(ps) =>
        parts := ps;
    }
    ghost var all := parts;

    var entry := Entry(0, 0, "");
    var nameFound := false;
    var startTimeFound := false;
    var endTimeFound := false;

    while |parts| > 0
      invariant !nameFound && !startTimeFound ==> !endTimeFound && parts == all && entry == Entry(0, 0, "")
      invariant !nameFound && startTimeFound ==> !endTimeFound && Interpret(all, thenMinutes) == AfterThen(parts, entry.from)
      invariant nameFound && !startTimeFound ==> !endTimeFound && Interpret(all, thenMinutes) == AfterName(parts, entry.name)
      invariant nameFound && startTimeFound && !endTimeFound ==>
        Interpret(all, thenMinutes) == Ending(parts, entry.name, entry.from)
      invariant endTimeFound ==> nameFound && startTimeFound && Interpret(all, thenMinutes) == Finish(parts, entry)
      decreases |parts|
    {
      if !nameFound && !startTimeFound {
        // "then" or the entry name
        var part := parts[0];
        if part == Kw(Then) {
          entry := entry.(from := thenMinutes);
          startTimeFound := true;
        } else if part.Name? {
          entry := entry.(name := part.name);
          nameFound := true;
        } else {
          return Failure(ExpectedThenOrName);
        }
        parts := parts[1..];
      } else if !nameFound {
        // the entry name
        var part := parts[0];
        if !part.Name? {
          return Failure(ExpectedThenOrName);
        }
        entry := entry.(name := part.name);
        nameFound := true;
        parts := parts[1..];
      } else if nameFound && !startTimeFound {
        // the start time, when the command did not start with "then"
        if |parts| < 2 {
          return Failure(InvalidStructure);
        }
        var fromKwd := parts[0];
        var fromTime := parts[1];
        if fromKwd != Kw(From) || !fromTime.Time? {
          return Failure(ExpectedStartTime);
        }
        entry := entry.(from := fromTime.minutes);
        startTimeFound := true;
        parts := parts[2..];
      } else if nameFound && startTimeFound && !endTimeFound {
        // the end time or the duration
        if |parts| < 2 {
          return Failure(InvalidStructure);
        }
        var kwd := parts[0];
        if kwd == Kw(For) {
          var duration := parts[1];
          if !duration.Duration? {
            return Failure(InvalidStructure);
          }
          entry := entry.(to := Add(entry.from, duration.length));
          endTimeFound := true;
        } else if kwd == Kw(Until) || kwd == Kw(To) {
          var time := parts[1];
          if !time.Time? {
            return Failure(InvalidStructure);
          }
          entry := entry.(to := time.minutes);
          endTimeFound := true;
        } else {
          return Failure(ExpectedForOrUntil);
        }
        parts := parts[2..];
      } else {
        return Failure(InvalidStructure);
      }
    }

    if !nameFound || !startTimeFound || !endTimeFound {
      return Failure(InvalidStructure);
    }
    if entry.from >= entry.to {
      return Failure(NonPositiveDuration);
    }
    return Success(entry);
  }

  // ---------------------------------------------------------------------------
  // Round trips with the renderers, and the documented examples.

  /** Digits never include a given non-digit. */
  lemma DigitsLack(s: string, c: char)
    requires AllDigits(s) && !IsDigit(c)
    ensures c !in s
  {
  }

  /** Minutes split into hours and the rest, put back together in 64-bit arithmetic. */
  lemma Recombine(d: int)
    requires 0 <= d <= MaxInt64
    ensures Add(MinFromHour(d / 60), d % 60) == d
  {
  }

  /** A zero-padded "HH:MM" within the day reads as its minutes. */
  lemma ReadClock(h: nat, mm: nat)
    requires h <= 24 && mm <= 59 && (h == 24 ==> mm == 0)
    ensures TimeMinutes(Pad2(h) + ":" + Pad2(mm)) == Success(Add(MinFromHour(h), mm))
  {
    var token := Pad2(h) + ":" + Pad2(mm);
    assert token == Pad2(h) + [':'] + Pad2(mm);
    AtoiPad2(h);
    AtoiPad2(mm);
    DigitsLack(Pad2(h), ':');
    CutAt(Pad2(h), ':', Pad2(mm));
  }

  /** A whole hour from 0 to 24, written with one or two digits, reads as that many hours. */
  lemma ReadHour(h: nat)
    requires h <= 24
    ensures TimeMinutes(Decimal(h)) == Success(h * 60)
  {
    AtoiDecimal(h);
    assert |Decimal(h)| == if h < 10 then 1 else 2;
  }

  /** A signed one-digit hour: `+` reads as the hour, `-` only as "-0". */
  lemma ReadSignedHour(h: nat)
    requires h < 10
    ensures TimeMinutes("+" + Decimal(h)) == Success(h * 60)
    ensures h > 0 ==> TimeMinutes("-" + Decimal(h)).Failure?
    ensures TimeMinutes("-" + Decimal(0)) == Success(0)
  {
    AtoiSigned(h);
    AtoiSigned(0);
  }

  /** An unpadded "H:MM" reads like "0H:MM". */
  lemma ReadShortClock(h: nat, mm: nat)
    requires h < 10 && mm <= 59
    ensures TimeMinutes(Decimal(h) + ":" + Pad2(mm)) == Success(h * 60 + mm)
  {
    AtoiDecimal(h);
    AtoiPad2(mm);
    DigitsLack(Decimal(h), ':');
    ReadClockParts(Decimal(h), Pad2(mm), h, mm);
  }

  /** Four or five characters split at a colon into an hour and a minute in range read as the minute of the day. */
  lemma ReadClockParts(hh: string, mm: string, h: int, m: int)
    requires ':' !in hh && (|hh + ":" + mm| == 4 || |hh + ":" + mm| == 5)
    requires Atoi(hh) == Some(h) && Atoi(mm) == Some(m)
    requires 0 <= h <= 24 && 0 <= m <= 59 && (h == 24 ==> m == 0)
    ensures TimeMinutes(hh + ":" + mm) == Success(h * 60 + m)
  {
    assert hh + ":" + mm == hh + [':'] + mm;
    CutAt(hh, ':', mm);
  }

  /** Every clock reading of the day reads back as the same minute. */
  lemma TimeRoundTrip(m: Minute)
    requires 0 <= m <= DayEnd
    ensures TimeMinutes(Clock(m)) == Success(m)
  {
    assert Clock(m) == Pad2(m / 60) + ":" + Pad2(m % 60);
    ReadClock(m / 60, m % 60);
    Recombine(m);
  }

  /** The word "now" is the current minute of the day. */
  lemma NowIsCurrentMinute(now: Minute)
    requires 0 <= now < DayEnd
    ensures ParseTime([TimeNow], now) == Success(Parsed(Time(now), 1))
  {
    TimeRoundTrip(now);
  }

  /** "{h}h{m}m" reads as h hours and m minutes. */
  lemma ReadHoursMinutes(h: nat, m: nat)
    requires 0 < h <= MaxInt64 && 0 < m <= MaxInt64
    ensures DurationMinutes(Decimal(h) + "h" + Decimal(m) + "m") == Success(Add(MinFromHour(h), m))
  {
    AtoiDecimal(h);
    AtoiDecimal(m);
    DigitsLack(Decimal(h), 'h');
    DigitsLack(Decimal(m), 'm');
    assert Decimal(h) + "h" + Decimal(m) + "m" == Decimal(h) + ['h'] + (Decimal(m) + "m");
    CutAt(Decimal(h), 'h', Decimal(m) + "m");
    assert Decimal(m) + "m" == Decimal(m) + ['m'] + "";
    CutAt(Decimal(m), 'm', "");
  }

  /** "{h}h" reads as h hours. */
  lemma ReadHours(h: nat)
    requires 0 < h <= MaxInt64
    ensures DurationMinutes(Decimal(h) + "h") == Success(Add(MinFromHour(h), 0))
  {
    AtoiDecimal(h);
    DigitsLack(Decimal(h), 'h');
    assert Decimal(h) + "h" == Decimal(h) + ['h'] + "";
    CutAt(Decimal(h), 'h', "");
    CutMissing("", 'm');
  }

  /** "{m}m" reads as m minutes. */
  lemma ReadMinutes(m: nat)
    requires 0 < m <= MaxInt64
    ensures DurationMinutes(Decimal(m) + "m") == Success(Add(MinFromHour(0), m))
  {
    AtoiDecimal(m);
    DigitsLack(Decimal(m), 'h');
    DigitsLack(Decimal(m), 'm');
    var token := Decimal(m) + "m";
    assert token == Decimal(m) + ['m'] + "";
    assert 'h' !in token;
    CutMissing(token, 'h');
    CutAt(Decimal(m), 'm', "");
  }

  /**
   * "{h}h{m}m" followed by anything reads as h hours and m minutes: what
   * follows the 'm' is ignored, and no hours and no minutes is refused.
   */
  lemma ReadDurationPrefix(h: nat, m: nat, rest: string)
    requires h <= MaxInt64 && m <= MaxInt64
    ensures var token := Decimal(h) + "h" + Decimal(m) + "m" + rest;
            DurationMinutes(token)
            == if h == 0 && m == 0 then Failure(InvalidDuration(token)) else Success(Add(MinFromHour(h), m))
  {
    var token := Decimal(h) + "h" + Decimal(m) + "m" + rest;
    AtoiDecimal(h);
    AtoiDecimal(m);
    DigitsLack(Decimal(h), 'h');
    DigitsLack(Decimal(m), 'm');
    assert token == Decimal(h) + ['h'] + (Decimal(m) + "m" + rest);
    CutAt(Decimal(h), 'h', Decimal(m) + "m" + rest);
    assert Decimal(m) + "m" + rest == Decimal(m) + ['m'] + rest;
    CutAt(Decimal(m), 'm', rest);
  }

  /** "{h}h" followed by text without an 'm' reads as h hours: the text is no minutes at all. */
  lemma ReadHoursPrefix(h: nat, rest: string)
    requires 0 < h <= MaxInt64 && 'm' !in rest
    ensures DurationMinutes(Decimal(h) + "h" + rest) == Success(Add(MinFromHour(h), 0))
  {
    AtoiDecimal(h);
    DigitsLack(Decimal(h), 'h');
    assert Decimal(h) + "h" + rest == Decimal(h) + ['h'] + rest;
    CutAt(Decimal(h), 'h', rest);
    CutMissing(rest, 'm');
  }

  /** A negative number of hours is refused, whatever follows the 'h'. */
  lemma NegativeHoursRefused(h: nat, rest: string)
    requires 0 < h <= MaxInt64
    ensures DurationMinutes("-" + Decimal(h) + "h" + rest).Failure?
  {
    AtoiSigned(h);
    DigitsLack(Decimal(h), 'h');
    assert "-" + Decimal(h) + "h" + rest == ("-" + Decimal(h)) + ['h'] + rest;
    CutAt("-" + Decimal(h), 'h', rest);
  }

  /** A negative number of minutes is refused, whatever follows the 'm'. */
  lemma NegativeMinutesRefused(m: nat, rest: string)
    requires 0 < m <= MaxInt64 && 'h' !in rest
    ensures DurationMinutes("-" + Decimal(m) + "m" + rest).Failure?
  {
    var token := "-" + Decimal(m) + "m" + rest;
    AtoiSigned(m);
    DigitsLack(Decimal(m), 'h');
    DigitsLack(Decimal(m), 'm');
    assert token == ("-" + Decimal(m)) + ['m'] + rest;
    assert 'h' !in token;
    CutMissing(token, 'h');
    CutAt("-" + Decimal(m), 'm', rest);
  }

  /** A length of whole hours and some minutes reads back. */
  lemma HoursAndMinutesRoundTrip(d: int)
    requires 0 < d <= MaxInt64 && d / 60 > 0 && d % 60 > 0
    ensures DurationMinutes(Schedule.LengthText(d)) == Success(d)
  {
    assert Schedule.LengthText(d) == Decimal(d / 60) + "h" + Decimal(d % 60) + "m";
    ReadHoursMinutes(d / 60, d % 60);
    Recombine(d);
  }

  /** A length of whole hours only reads back. */
  lemma HoursRoundTrip(d: int)
    requires 0 < d <= MaxInt64 && d / 60 > 0 && d % 60 == 0
    ensures DurationMinutes(Schedule.LengthText(d)) == Success(d)
  {
    assert Schedule.LengthText(d) == Decimal(d / 60) + "h";
    ReadHours(d / 60);
    Recombine(d);
  }

  /** A length under an hour reads back. */
  lemma MinutesRoundTrip(d: int)
    requires 0 < d < 60
    ensures DurationMinutes(Schedule.LengthText(d)) == Success(d)
  {
    assert Quot(d, 60) == 0 && Rem(d, 60) == d;
    assert Schedule.LengthText(d) == Decimal(d) + "m";
    ReadMinutes(d);
    Recombine(d);
  }

  /** A positive number of minutes, shown as hours and remaining minutes, reads back as itself. */
  lemma LengthRoundTrip(d: int)
    requires 0 < d <= MaxInt64
    ensures DurationMinutes(Schedule.LengthText(d)) == Success(d)
  {
    if d / 60 > 0 && d % 60 > 0 {
      HoursAndMinutesRoundTrip(d);
    } else if d / 60 > 0 {
      HoursRoundTrip(d);
    } else {
      MinutesRoundTrip(d);
    }
  }

  /** The length shown for an entry in the schedule view reads back as that length. */
  lemma DurationRoundTrip(e: Entry)
    requires Sub(e.to, e.from) > 0
    ensures DurationMinutes(Schedule.DurationText(e)) == Success(Sub(e.to, e.from))
  {
    LengthRoundTrip(Sub(e.to, e.from));
  }
}
