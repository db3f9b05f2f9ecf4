/**
 * The insertion algorithm and the backward scan that `schedule/schedule.go`
 * and `timetable/timetable.go` each carry, line for line the same; both
 * classes (modules Schedule and Timetable) run these.
 */
module Engine {
  import opened Day

  /** `entry` lies inside the new interval (it is deleted). */
  predicate Inside(entry: Entry, ne: Entry) { entry.from >= ne.from && entry.to <= ne.to }

  /** `entry` overhangs the start of the new interval (its end is cropped). */
  predicate OverhangsStart(entry: Entry, ne: Entry) { entry.from < ne.from && entry.to > ne.from }

  /** `entry` overhangs the end of the new interval (its start is cropped). */
  predicate OverhangsEnd(entry: Entry, ne: Entry) { entry.to > ne.to && entry.from < ne.to }

  /**
   * How the entries of a day relate to an in-range interval, given the entry
   * p holding ne.from and the entry q holding ne.to - 1: only p can overhang
   * the start, only q can overhang the end, and the entries inside are
   * exactly those from p to q that overhang neither.
   */
  lemma Classification(s: seq<Entry>, ne: Entry, p: nat, q: nat)
    requires Tiles(s) && 0 <= ne.from < ne.to <= DayEnd
    requires p < |s| && s[p].from <= ne.from < s[p].to
    requires q < |s| && s[q].from < ne.to <= s[q].to
    ensures p <= q
    ensures forall j :: 0 <= j < |s| ==> (OverhangsStart(s[j], ne) <==> j == p && s[p].from < ne.from)
    ensures forall j :: 0 <= j < |s| ==> (OverhangsEnd(s[j], ne) <==> j == q && ne.to < s[q].to)
    ensures forall j :: 0 <= j < |s| ==>
      (Inside(s[j], ne) <==> p <= j <= q && !OverhangsStart(s[j], ne) && !OverhangsEnd(s[j], ne))
  {
    TilesSorted(s);
  }

  // The classification pass of `Insert`, stated over the first n entries.

  /** The last of the first n entries overhanging the start, or -1. */
  function LastOverhangingStart(s: seq<Entry>, ne: Entry, n: nat): int
    requires n <= |s|
  {
    if n == 0 then -1
    else if OverhangsStart(s[n - 1], ne) then n - 1
    else LastOverhangingStart(s, ne, n - 1)
  }

  /** The last of the first n entries overhanging the end, or -1. */
  function LastOverhangingEnd(s: seq<Entry>, ne: Entry, n: nat): int
    requires n <= |s|
  {
    if n == 0 then -1
    else if OverhangsEnd(s[n - 1], ne) then n - 1
    else LastOverhangingEnd(s, ne, n - 1)
  }

  /** The last of the first n entries inside, or -1. */
  function LastInside(s: seq<Entry>, ne: Entry, n: nat): int
    requires n <= |s|
  {
    if n == 0 then -1
    else if Inside(s[n - 1], ne) then n - 1
    else LastInside(s, ne, n - 1)
  }

  /** The first of the first n entries inside, or -1. */
  function FirstInside(s: seq<Entry>, ne: Entry, n: nat): int
    requires n <= |s|
  {
    if n == 0 then -1
    else
      var f := FirstInside(s, ne, n - 1);
      if f == -1 && Inside(s[n - 1], ne) then n - 1 else f
  }

  /** Each pass result is the last (first) index with its property, or -1 when none has it. */
  lemma {:induction false} ScanIndices(s: seq<Entry>, ne: Entry, n: nat)
    requires n <= |s|
    ensures var c := LastOverhangingStart(s, ne, n);
      if c == -1 then forall j :: 0 <= j < n ==> !OverhangsStart(s[j], ne)
      else 0 <= c < n && OverhangsStart(s[c], ne) && forall j :: c < j < n ==> !OverhangsStart(s[j], ne)
    ensures var c := LastOverhangingEnd(s, ne, n);
      if c == -1 then forall j :: 0 <= j < n ==> !OverhangsEnd(s[j], ne)
      else 0 <= c < n && OverhangsEnd(s[c], ne) && forall j :: c < j < n ==> !OverhangsEnd(s[j], ne)
    ensures var c := LastInside(s, ne, n);
      if c == -1 then forall j :: 0 <= j < n ==> !Inside(s[j], ne)
      else 0 <= c < n && Inside(s[c], ne) && forall j :: c < j < n ==> !Inside(s[j], ne)
    ensures var c := FirstInside(s, ne, n);
      if c == -1 then forall j :: 0 <= j < n ==> !Inside(s[j], ne)
      else 0 <= c < n && Inside(s[c], ne) && forall j :: 0 <= j < c ==> !Inside(s[j], ne)
  {
    if n > 0 {
      ScanIndices(s, ne, n - 1);
    }
  }

  /**
   * After a full classification pass over a day, with p the entry holding
   * ne.from and q the entry holding ne.to - 1: the start is cropped exactly
   * when p starts before ne.from, the end exactly when q ends after ne.to, and
   * the block deleted (if any) starts at p unless p is cropped and ends at q
   * unless q is cropped.
   */
  lemma ScanOutcome(s: seq<Entry>, ne: Entry) returns (p: nat, q: nat)
    requires Tiles(s) && 0 <= ne.from < ne.to <= DayEnd
    ensures p <= q < |s| && s[p].from <= ne.from < s[p].to && s[q].from < ne.to <= s[q].to
    ensures var cropEnd, cropStart := LastOverhangingStart(s, ne, |s|), LastOverhangingEnd(s, ne, |s|);
      var deleteFrom, deleteToInclusive := FirstInside(s, ne, |s|), LastInside(s, ne, |s|);
      && cropEnd == (if s[p].from < ne.from then p else -1)
      && cropStart == (if ne.to < s[q].to then q else -1)
      && (deleteFrom == -1 <==> deleteToInclusive == -1)
      && (cropEnd == -1 && deleteFrom != -1 ==> deleteFrom == p)
      && (cropEnd == -1 && deleteFrom == -1 ==> cropStart == p)
      && (cropStart == -1 && deleteToInclusive != -1 ==> deleteToInclusive == q)
      && (cropStart == -1 && deleteToInclusive == -1 ==> cropEnd == q)
  {
    p := Cover(s, ne.from);
    q := Cover(s, ne.to - 1);
    Classification(s, ne, p, q);
    ScanIndices(s, ne, |s|);
  }

  /** The day with the overhanging neighbours cropped in place (`Insert`'s second phase). */
  function Cropped(s: seq<Entry>, ne: Entry, cropEnd: int, cropStart: int): (w: seq<Entry>)
    requires -1 <= cropEnd < |s| && -1 <= cropStart < |s|
    ensures |w| == |s|
  {
    var w := if cropEnd != -1 then s[cropEnd := s[cropEnd].(to := ne.from)] else s;
    if cropStart != -1 then w[cropStart := w[cropStart].(from := ne.to)] else w
  }

  /**
   * Keeping the cropped day up to includeTo and from includeFrom on, around
   * the new entry, gives the entries before p, the cropped p (if cropped),
   * the new entry, the cropped q (if cropped) and the entries after q.
   */
  lemma Splice(s: seq<Entry>, ne: Entry, p: nat, q: nat, cropEnd: int, cropStart: int,
               includeTo: int, includeFrom: int)
    requires p <= q < |s|
    requires cropEnd == -1 || cropEnd == p
    requires cropStart == -1 || cropStart == q
    requires cropEnd != -1 && cropStart != -1 ==> p < q
    requires includeTo == (if cropEnd != -1 then p as int else p - 1)
    requires includeFrom == (if cropStart != -1 then q as int else q + 1)
    ensures var w := Cropped(s, ne, cropEnd, cropStart);
      (if 0 <= includeTo < |w| then w[0..includeTo + 1] else [])
      + [ne]
      + (if 0 <= includeFrom < |w| then w[includeFrom..|w|] else [])
      == s[..p]
         + (if cropEnd != -1 then [s[p].(to := ne.from)] else [])
         + [ne]
         + (if cropStart != -1 then [s[q].(from := ne.to)] else [])
         + s[q + 1..]
  {
    var w := Cropped(s, ne, cropEnd, cropStart);
    var left := if 0 <= includeTo < |w| then w[0..includeTo + 1] else [];
    var right := if 0 <= includeFrom < |w| then w[includeFrom..|w|] else [];
    var x := if cropEnd != -1 then [s[p].(to := ne.from)] else [];
    var y := if cropStart != -1 then [s[q].(from := ne.to)] else [];
    assert left == s[..p] + x by {
      assert w[..p] == s[..p];
      if cropEnd != -1 {
        assert w[0..p + 1] == w[..p] + [w[p]];
      }
    }
    assert right == y + s[q + 1..] by {
      assert w[q + 1..] == s[q + 1..];
      if cropStart != -1 {
        assert w[q..] == [w[q]] + w[q + 1..];
      }
    }
    assert left + [ne] + right == s[..p] + x + [ne] + y + s[q + 1..];
  }

  /**
   * `Insert`'s classification pass: one look at every entry, remembering the
   * last entry overhanging the start, the last overhanging the end, and the
   * first and last entries inside the new interval (-1 for none).
   */
  method Classify(entries: seq<Entry>, ne: Entry)
    returns (cropEnd: int, cropStart: int, deleteFrom: int, deleteToInclusive: int)
    ensures cropEnd == LastOverhangingStart(entries, ne, |entries|)
    ensures cropStart == LastOverhangingEnd(entries, ne, |entries|)
    ensures deleteFrom == FirstInside(entries, ne, |entries|)
    ensures deleteToInclusive == LastInside(entries, ne, |entries|)
  {
    cropEnd, cropStart, deleteFrom, deleteToInclusive := -1, -1, -1, -1;
    var i := 0;
    while i < |entries|
      invariant 0 <= i <= |entries|
      invariant cropEnd == LastOverhangingStart(entries, ne, i)
      invariant cropStart == LastOverhangingEnd(entries, ne, i)
      invariant deleteFrom == FirstInside(entries, ne, i)
      invariant deleteToInclusive == LastInside(entries, ne, i)
    {
      var entry := entries[i];
      if entry.from >= ne.from && entry.to <= ne.to {
        if deleteFrom == -1 {
          deleteFrom := i;
        }
        deleteToInclusive := i;
      } else {
        if entry.from < ne.from && entry.to > ne.from {
          cropEnd := i;
        }
        if entry.to > ne.to && entry.from < ne.to {
          cropStart := i;
        }
      }
      i := i + 1;
    }
  }

  /**
   * `Insert`'s split branch: the entry at splitIndex strictly contains the
   * new interval, and is replaced by its part before, the new entry, and its
   * part after.
   */
  method SplitAround(entries: seq<Entry>, ne: Entry, splitIndex: nat) returns (result: seq<Entry>)
    requires Tiles(entries) && splitIndex < |entries|
    requires entries[splitIndex].from < ne.from < ne.to < entries[splitIndex].to
    ensures result == Overwrite(entries, ne)
  {
    result := [];
    result := result + entries[..splitIndex];
    var entryToSplit := entries[splitIndex];
    entryToSplit := entryToSplit.(to := ne.from);
    result := result + [entryToSplit];
    result := result + [ne];
    entryToSplit := entries[splitIndex];
    entryToSplit := entryToSplit.(from := ne.to);
    result := result + [entryToSplit];
    result := result + entries[splitIndex + 1..];
    SplitCase(entries, ne, splitIndex);
  }

  /**
   * `Insert`'s crop branch: end the entry overhanging the start at the new
   * entry's start, start the entry overhanging the end at its end (both in
   * place), then keep everything up to the first and from the second, with the
   * new entry in between; the entries inside are not kept.
   */
  method CropAround(entries: seq<Entry>, ne: Entry,
                    cropEnd: int, cropStart: int, deleteFrom: int, deleteToInclusive: int)
    returns (result: seq<Entry>)
    requires Tiles(entries) && 0 <= ne.from < ne.to <= DayEnd
    requires cropEnd == LastOverhangingStart(entries, ne, |entries|)
    requires cropStart == LastOverhangingEnd(entries, ne, |entries|)
    requires deleteFrom == FirstInside(entries, ne, |entries|)
    requires deleteToInclusive == LastInside(entries, ne, |entries|)
    requires !(cropEnd == cropStart && cropEnd != -1)
    ensures result == Overwrite(entries, ne)
  {
    ghost var p, q := ScanOutcome(entries, ne);

    var work := entries;
    if cropEnd != -1 {
      work := work[cropEnd := work[cropEnd].(to := ne.from)];
    }
    if cropStart != -1 {
      work := work[cropStart := work[cropStart].(from := ne.to)];
    }
    assert work == Cropped(entries, ne, cropEnd, cropStart);

    var includeToInclusive := 0;
    if cropEnd != -1 {
      includeToInclusive := cropEnd;
    } else if deleteFrom != -1 {
      includeToInclusive := deleteFrom - 1;
    } else if cropStart != -1 {
      includeToInclusive := cropStart - 1;
    }
    assert includeToInclusive == (if cropEnd != -1 then p as int else (p as int) - 1);

    var includeFromInclusive := 0;
    if cropStart != -1 {
      includeFromInclusive := cropStart;
    } else if deleteToInclusive != -1 {
      includeFromInclusive := deleteToInclusive + 1;
    } else if cropEnd != -1 {
      includeFromInclusive := cropEnd + 1;
    }
    assert includeFromInclusive == (if cropStart != -1 then q as int else q + 1);

    result := [];
    if includeToInclusive >= 0 && includeToInclusive < |work| {
      result := result + work[0..includeToInclusive + 1];
    }
    assert result == if 0 <= includeToInclusive < |work| then work[0..includeToInclusive + 1] else [];
    result := result + [ne];
    ghost var head := result;
    if includeFromInclusive >= 0 && includeFromInclusive < |work| {
      result := result + work[includeFromInclusive..|work|];
    }
    assert result == head + if 0 <= includeFromInclusive < |work| then work[includeFromInclusive..|work|] else [];
    Splice(entries, ne, p, q, cropEnd, cropStart, includeToInclusive, includeFromInclusive);
    CropCase(entries, ne, p, q);
  }

  /**
   * `Insert`: clamp the new entry to the day; if the clamped interval is
   * empty, leave the day alone. Otherwise classify every entry, then either
   * split the one entry that strictly contains the new interval, or crop the
   * overhanging neighbours, drop the entries inside and splice the new entry
   * between them.
   */
  method Insert(entries: seq<Entry>, newEntry: Entry) returns (result: seq<Entry>)
    requires Tiles(entries)
    ensures result == Inserted(entries, newEntry)
  {
    var ne := newEntry.(from := Max(newEntry.from, 0));
    ne := ne.(to := Min(ne.to, DayEnd));
    assert ne == Clamp(newEntry);
    if ne.to <= ne.from {
      return entries;
    }

    var cropEnd, cropStart, deleteFrom, deleteToInclusive := Classify(entries, ne);

    // split
    if cropEnd == cropStart && cropEnd != -1 {
      ScanIndices(entries, ne, |entries|);
      result := SplitAround(entries, ne, cropEnd);
      return;
    }

    result := CropAround(entries, ne, cropEnd, cropStart, deleteFrom, deleteToInclusive);
  }

  /**
   * `FilledUpTo`: scan from the last entry backward, stopping before index 0,
   * and return the end of the first named entry met, or 0.
   */
  method FilledUpTo(entries: seq<Entry>) returns (m: Minute)
    ensures m == FilledTo(entries)
  {
    var i := |entries| - 1;
    assert entries[..i + 1] == entries;
    while i > 0
      invariant -1 <= i < |entries|
      invariant FilledTo(entries) == FilledTo(entries[..i + 1])
    {
      var entry := entries[i];
      if entry.name != "" {
        return entry.to;
      }
      ghost var prefix := entries[..i + 1];
      assert prefix[..|prefix| - 1] == entries[..i];
      assert FilledTo(prefix) == FilledTo(entries[..i]);
      i := i - 1;
    }
    return 0;
  }
}
