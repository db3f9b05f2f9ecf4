/**
 * Insertions and `FilledUpTo` on concrete days, stated on the reference
 * definitions that `Engine.Insert` and `Engine.FilledUpTo` are proved to
 * compute.
 */
module DayExamples {
  import opened Day

  /** A working day: a new day after inserting work from 10:00 to 16:00. */
  function WorkDay(): (s: seq<Entry>)
    ensures Tiles(s)
    ensures s == Inserted(NewDay(), Entry(600, 960, "work"))
  {
    var e := Entry(600, 960, "work");
    assert Clamp(e) == e;
    SplitCase(NewDay(), e, 0);
    assert NewDay()[..0] == [] && NewDay()[1..] == [];
    [Entry(0, 600, ""), Entry(600, 960, "work"), Entry(960, DayEnd, "")]
  }

  /**
   * Lunch from 11:00 to 12:00 in the working day splits the work entry into a
   * part before and a part after it.
   */
  lemma LunchSplitsWork()
    ensures Inserted(WorkDay(), Entry(660, 720, "lunch"))
         == [Entry(0, 600, ""), Entry(600, 660, "work"), Entry(660, 720, "lunch"),
             Entry(720, 960, "work"), Entry(960, DayEnd, "")]
  {
    var s, e := WorkDay(), Entry(660, 720, "lunch");
    assert Inserted(s, e) == Overwrite(s, e) by {
      assert Clamp(e) == e;
    }
    SplitCase(s, e, 1);
    WorkDaySplit(e);
  }

  /** The shape `Day.SplitCase` gives, spelled out for the working day. */
  lemma WorkDaySplit(e: Entry)
    requires e.from == 660 && e.to == 720
    ensures var s := WorkDay();
      s[..1] + [s[1].(to := e.from), e, s[1].(from := e.to)] + s[2..]
      == [Entry(0, 600, ""), Entry(600, 660, "work"), e, Entry(720, 960, "work"), Entry(960, DayEnd, "")]
  {
    var s := WorkDay();
    assert s[..1] == [Entry(0, 600, "")] && s[2..] == [Entry(960, DayEnd, "")];
  }

  /** Work from 09:00 to 12:00 crops the free morning and the start of the work entry. */
  lemma EarlierStartCrops()
    ensures Inserted(WorkDay(), Entry(540, 720, "work"))
         == [Entry(0, 540, ""), Entry(540, 720, "work"), Entry(720, 960, "work"), Entry(960, DayEnd, "")]
  {
    var s, e := WorkDay(), Entry(540, 720, "work");
    assert Inserted(s, e) == Overwrite(s, e) by {
      assert Clamp(e) == e;
    }
    CropCase(s, e, 0, 1);
    WorkDayCrop(e);
  }

  /** The shape `Day.CropCase` gives, spelled out for the working day. */
  lemma WorkDayCrop(e: Entry)
    requires e.from == 540 && e.to == 720
    ensures var s := WorkDay();
      s[..0] + [s[0].(to := e.from)] + [e] + [s[1].(from := e.to)] + s[2..]
      == [Entry(0, 540, ""), e, Entry(720, 960, "work"), Entry(960, DayEnd, "")]
  {
    var s := WorkDay();
    assert s[..0] == [] && s[2..] == [Entry(960, DayEnd, "")];
  }

  /** An entry reaching past both ends of the day replaces every entry of it. */
  lemma WholeDayReplaced(s: seq<Entry>, e: Entry)
    requires Tiles(s) && e.from <= 0 && DayEnd <= e.to
    ensures Inserted(s, e) == [e.(from := 0, to := DayEnd)]
  {
    TilesSorted(s);
    BeforeNone(s, 0);
    AfterNone(s, DayEnd);
  }

  /** Sleep from before midnight to past the next midnight leaves only the sleep, clamped to the day. */
  lemma SleepAllDay()
    ensures Inserted(WorkDay(), Entry(-60, 1500, "sleep")) == [Entry(0, DayEnd, "sleep")]
  {
    WholeDayReplaced(WorkDay(), Entry(-60, 1500, "sleep"));
  }

  /** A day whose last named entry is work until 10:00 is filled up to 10:00. */
  lemma MorningFilledTo()
    ensures FilledTo([Entry(0, 480, ""), Entry(480, 600, "work"), Entry(600, DayEnd, "")]) == 600
  {
    var s := [Entry(0, 480, ""), Entry(480, 600, "work"), Entry(600, DayEnd, "")];
    assert s[..2] == [Entry(0, 480, ""), Entry(480, 600, "work")];
  }

  /** The entry at index 0 is never inspected: a named first entry still leaves the day filled up to 0. */
  lemma FirstEntryIgnored()
    ensures FilledTo([Entry(0, 600, "sleep"), Entry(600, DayEnd, "")]) == 0
  {
    var s := [Entry(0, 600, "sleep"), Entry(600, DayEnd, "")];
    assert s[..1] == [Entry(0, 600, "sleep")];
  }
}
