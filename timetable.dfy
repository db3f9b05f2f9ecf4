/**
 * The `timetable` package: the same day as module Schedule, kept as a
 * `Timetable`, with a plainer text form that lists every entry with its
 * start and end.
 */
module Timetable {
  import opened Text
  import opened Day
  import Engine

  /** One line of the text form: "HH:MM-HH:MM :  : name". */
  function Row(e: Entry): (r: string)
    ensures |r| > |Clock(e.from)| && r[..|Clock(e.from)|] == Clock(e.from) && r[|Clock(e.from)|] == '-'
    ensures r[|r| - 1] == '\n'
  {
    var body := Clock(e.from) + "-" + Clock(e.to) + " : " + " : " + e.name;
    assert (body + "\n")[..|Clock(e.from)|] == Clock(e.from);
    body + "\n"
  }

  /** A row holds exactly one line break when the name holds none. */
  lemma RowNewlines(e: Entry)
    requires '\n' !in e.name
    ensures Newlines(Row(e)) == 1
  {
    var body := Clock(e.from) + "-" + Clock(e.to) + " : " + " : " + e.name;
    ClockNoLineBreak(e.from);
    ClockNoLineBreak(e.to);
    LastLineBreak(body);
  }

  /** `String` as a value: one row per entry, in order, unnamed entries included. */
  function TableText(s: seq<Entry>): string
  {
    if s == [] then "" else TableText(s[..|s| - 1]) + Row(s[|s| - 1])
  }

  /** One row per entry, when no name holds a line break. */
  lemma {:induction false} TableLineCount(s: seq<Entry>)
    requires forall i :: 0 <= i < |s| ==> '\n' !in s[i].name
    ensures Newlines(TableText(s)) == |s|
  {
    if s != [] {
      TableLineCount(s[..|s| - 1]);
      NewlinesConcat(TableText(s[..|s| - 1]), Row(s[|s| - 1]));
      RowNewlines(s[|s| - 1]);
    }
  }

  /** No entries, no text; a fresh day is the single row of the whole free day. */
  lemma TableTextOfNew()
    ensures TableText([]) == ""
    ensures TableText(NewDay()) == Row(EmptyEntry(0, DayEnd))
  {
    assert NewDay()[..0] == [];
  }

  /** A day: the list of entries, replaced as a whole by every insertion. */
  class Timetable {
    var entries: seq<Entry>

    /** The entries tile the day. */
    ghost predicate Valid()
      reads this
    {
      Tiles(entries)
    }

    /** `New`: one free entry spanning the whole day. */
    constructor ()
      ensures entries == [EmptyEntry(0, DayEnd)]
      ensures Valid()
    {
      entries := [EmptyEntry(0, DayEnd)];
    }

    /**
     * `Insert`: overwrite the new entry's interval, clamped to the day; the
     * entries still tile the day afterwards.
     */
    method Insert(newEntry: Entry)
      requires Valid()
      modifies this
      ensures entries == Inserted(old(entries), newEntry)
      ensures Valid()
    {
      InsertedTiles(entries, newEntry);
      entries := Engine.Insert(entries, newEntry);
    }

    /** `FilledUpTo`: the end of the last named entry after index 0, or 0. */
    method FilledUpTo() returns (m: Minute)
      ensures m == FilledTo(entries)
    {
      m := Engine.FilledUpTo(entries);
    }

    /** `String`: the rows of all entries, built one by one. */
    method String() returns (text: string)
      ensures text == TableText(entries)
    {
      var buffer := "";
      var i := 0;
      while i < |entries|
        invariant 0 <= i <= |entries|
        invariant buffer == TableText(entries[..i])
      {
        var entry := entries[i];
        assert entries[..i + 1][..i] == entries[..i];
        buffer := buffer + Row(entry);
        i := i + 1;
      }
      assert entries[..i] == entries;
      return buffer;
    }
  }
}
