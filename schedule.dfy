/**
 * The `schedule` package: a day kept as a `Schedule` whose entry list is
 * replaced by every insertion, and its text view with one line per entry,
 * the entry's start time, its name and its length.
 */
module Schedule {
  import opened Text
  import opened Int64
  import opened Day
  import Engine

  const EmptyText: string := "Schedule is empty"
  const EmptyMessage: string := EmptyText + "\n"
  const DayEndText: string := "24:00 : DAY END"
  const DayEndLine: string := DayEndText + "\n"
  const NoName: string := "---"

  /**
   * `durationString`: the length of the entry as "{h}h{m}m", where the hour
   * part appears only when there is at least one full hour and the minute part
   * only when the remainder is positive; a length of zero or less renders as
   * nothing at all.
   */
  function DurationText(e: Entry): (r: string)
    ensures r == [] <==> Sub(e.to, e.from) <= 0
    ensures '\n' !in r
  {
    LengthText(Sub(e.to, e.from))
  }

  /** A number of minutes as "{h}h{m}m", leaving out a zero part. */
  function LengthText(d: int): (r: string)
    ensures r == [] <==> d <= 0
    ensures '\n' !in r
  {
    var hours := Quot(d, 60);
    var minutes := Rem(d, 60);
    (if hours > 0 then Decimal(hours) + "h" else "") + (if minutes > 0 then Decimal(minutes) + "m" else "")
  }

  /** An entry without a name shows as "---". */
  function ShownName(name: string): (r: string)
    ensures r != []
    ensures name != [] ==> r == name
    ensures name == [] ==> r == NoName
  {
    if name == "" then NoName else name
  }

  /** One line of the view: "HH:MM : name (length)". */
  function Line(e: Entry): (r: string)
    ensures |r| > |Clock(e.from)| && r[..|Clock(e.from)|] == Clock(e.from)
    ensures r[|r| - 1] == '\n'
  {
    var body := Clock(e.from) + " : " + ShownName(e.name) + " (" + DurationText(e) + ")";
    assert (body + "\n")[..|Clock(e.from)|] == Clock(e.from);
    body + "\n"
  }

  /** A line holds exactly one line break when the name holds none. */
  lemma LineNewlines(e: Entry)
    requires '\n' !in e.name
    ensures Newlines(Line(e)) == 1
  {
    var body := Clock(e.from) + " : " + ShownName(e.name) + " (" + DurationText(e) + ")";
    ClockNoLineBreak(e.from);
    LastLineBreak(body);
  }

  /** The lines of the given entries, in order. */
  function Lines(s: seq<Entry>): string
  {
    if s == [] then "" else Lines(s[..|s| - 1]) + Line(s[|s| - 1])
  }

  /** Appending an entry appends its line. */
  lemma LinesSnoc(s: seq<Entry>, e: Entry)
    ensures Lines(s + [e]) == Lines(s) + Line(e)
  {
    assert (s + [e])[..|s|] == s;
  }

  /** The entries the view lists: all of them, except an unnamed entry at index 0. */
  function Listed(s: seq<Entry>): (r: seq<Entry>)
    ensures |r| == (if s != [] && s[0].name == "" then |s| - 1 else |s|)
  {
    if s != [] && s[0].name == "" then s[1..] else s
  }

  /** The lines of one more entry: its line is added, except for an unnamed entry at index 0. */
  lemma LinesListedStep(s: seq<Entry>, i: nat)
    requires i < |s|
    ensures Lines(Listed(s[..i + 1]))
            == Lines(Listed(s[..i])) + (if i == 0 && s[0].name == "" then "" else Line(s[i]))
  {
    ListedStep(s, i);
    if !(i == 0 && s[0].name == "") {
      LinesSnoc(Listed(s[..i]), s[i]);
    }
  }

  /** `View` as a value: the fixed message for an empty day, else the lines and the closing line. */
  function ViewText(s: seq<Entry>): string
  {
    if |s| == 0 || (|s| == 1 && s[0].name == "") then EmptyMessage
    else Lines(Listed(s)) + DayEndLine
  }

  /** A day that is not only free time is shown as its lines and the closing line. */
  lemma ViewOfListed(s: seq<Entry>)
    requires !(|s| == 0 || (|s| == 1 && s[0].name == ""))
    ensures ViewText(s) == Lines(Listed(s)) + DayEndLine
  {
  }

  /** Listing one more entry adds it at the end, except for an unnamed entry at index 0. */
  lemma ListedStep(s: seq<Entry>, i: nat)
    requires i < |s|
    ensures Listed(s[..i + 1]) == if i == 0 && s[0].name == "" then [] else Listed(s[..i]) + [s[i]]
  {
    if 0 < i && s[0].name == "" {
      assert s[..i + 1][1..] == s[..i][1..] + [s[i]];
    }
  }

  /**
   * The view has one line per listed entry plus the closing line, provided no
   * name contains a line break; a day that is only free time is the empty
   * message.
   */
  lemma ViewLineCount(s: seq<Entry>)
    requires forall i :: 0 <= i < |s| ==> '\n' !in s[i].name
    ensures Newlines(ViewText(s)) == if |s| == 0 || (|s| == 1 && s[0].name == "") then 1 else |Listed(s)| + 1
  {
    if |s| == 0 || (|s| == 1 && s[0].name == "") {
      FixedLinesBreak();
    } else {
      LinesCount(Listed(s));
      FixedLinesBreak();
      NewlinesConcat(Lines(Listed(s)), DayEndLine);
    }
  }

  /** The empty message and the closing line are one line each. */
  lemma FixedLinesBreak()
    ensures Newlines(EmptyMessage) == 1 && Newlines(DayEndLine) == 1
  {
    LastLineBreak(EmptyText);
    LastLineBreak(DayEndText);
  }

  lemma {:induction false} LinesCount(s: seq<Entry>)
    requires forall i :: 0 <= i < |s| ==> '\n' !in s[i].name
    ensures Newlines(Lines(s)) == |s|
  {
    if s != [] {
      LinesCount(s[..|s| - 1]);
      NewlinesConcat(Lines(s[..|s| - 1]), Line(s[|s| - 1]));
      LineNewlines(s[|s| - 1]);
    }
  }

  /** A schedule that has anything named in it lists every entry after the first and ends with the closing line. */
  lemma ViewShape(s: seq<Entry>)
    requires |s| >= 2
    ensures ViewText(s) == Lines(Listed(s)) + DayEndLine
    ensures |Listed(s)| >= |s| - 1
  {
  }

  /** Every view, the empty message included, is non-empty and ends with a line break. */
  lemma ViewEndsWithLineBreak(s: seq<Entry>)
    ensures |ViewText(s)| > 0 && ViewText(s)[|ViewText(s)| - 1] == '\n'
  {
    if !(|s| == 0 || (|s| == 1 && s[0].name == "")) {
      var lines := Lines(Listed(s));
      assert (lines + DayEndLine)[|lines + DayEndLine| - 1] == DayEndLine[|DayEndLine| - 1];
    }
  }

  /** A day of a fresh schedule shows the empty message. */
  lemma NewViewIsEmpty()
    ensures ViewText(NewDay()) == EmptyMessage
  {
  }

  /** The loop of `View`: the lines of the listed entries, one entry at a time. */
  method ListedLines(day: seq<Entry>) returns (buffer: string)
    ensures buffer == Lines(Listed(day))
  {
    buffer := "";
    var i := 0;
    while i < |day|
      invariant 0 <= i <= |day|
      invariant buffer == Lines(Listed(day[..i]))
    {
      buffer := ListEntry(day, i, buffer);
      i := i + 1;
    }
    assert day[..i] == day;
  }

  /** One step of the loop of `View`: entry i adds its line, unless it is the unnamed entry at index 0. */
  method ListEntry(day: seq<Entry>, i: nat, buffer: string) returns (next: string)
    requires i < |day| && buffer == Lines(Listed(day[..i]))
    ensures next == Lines(Listed(day[..i + 1]))
  {
    var entry := day[i];
    LinesListedStep(day, i);
    if i == 0 && entry.name == "" {
      return buffer;
    }
    return buffer + Line(entry);
  }

  /** A day: the list of entries, replaced as a whole by every insertion. */
  class Schedule {
    var entries: seq<Entry>

    /** The entries tile the day. */
    ghost predicate Valid()
      reads this
    {
      Tiles(entries)
    }

    /** `New`: one free entry spanning the whole day. */
    constructor ()
      ensures entries == [EmptyEntry(0, DayEnd)]
      ensures Valid()
    {
      entries := [EmptyEntry(0, DayEnd)];
    }

    /**
     * `Insert`: overwrite the new entry's interval, clamped to the day; the
     * entries still tile the day afterwards.
     */
    method Insert(newEntry: Entry)
      requires Valid()
      modifies this
      ensures entries == Inserted(old(entries), newEntry)
      ensures Valid()
    {
      InsertedTiles(entries, newEntry);
      entries := Engine.Insert(entries, newEntry);
    }

    /** `FilledUpTo`: the end of the last named entry after index 0, or 0. */
    method FilledUpTo() returns (m: Minute)
      ensures m == FilledTo(entries)
    {
      m := Engine.FilledUpTo(entries);
    }

    /** `View`: the text of the day, built line by line. */
    method View() returns (text: string)
      ensures text == ViewText(entries)
    {
      var day := entries;
      if |day| == 0 || (|day| == 1 && day[0].name == "") {
        return EmptyMessage;
      }
      var buffer := ListedLines(day);
      ViewOfListed(day);
      return buffer + DayEndLine;
    }

  }
}
