/**
 * The day timeline shared by the `schedule` and `timetable` packages: an
 * entry is a labelled half-open minute interval [from, to), and a day is a
 * sequence of entries that tiles [0, 1440) without gaps or overlaps.
 *
 * This module holds the invariant, the reference definition of what
 * inserting an entry does to a day (`Inserted`), and the lemmas about it;
 * the imperative algorithm of the source lives in module Engine.
 */
module Day {
  import opened Text
  import opened Int64

  /** Minutes in a day; 1440 is midnight of the next day. */
  const DayEnd: int := 24 * 60

  type Minute = int

  datatype Entry = Entry(from: Minute, to: Minute, name: string)

  /** An entry without a name: a free block of the day. */
  function EmptyEntry(from: Minute, to: Minute): (e: Entry)
    ensures e.name == ""
    ensures from < to ==> Chain([e], from, to)
  {
    Entry(from, to, "")
  }

  function Min(a: int, b: int): int { if a < b then a else b }

  function Max(a: int, b: int): int { if a < b then b else a }

  /**
   * `s` covers [lo, hi) exactly: every entry is non-empty, each entry starts
   * where the previous one ends, the first starts at lo and the last ends at hi.
   */
  ghost predicate Chain(s: seq<Entry>, lo: Minute, hi: Minute) {
    if s == [] then lo == hi
    else
      && s[0].from == lo
      && s[|s| - 1].to == hi
      && (forall i :: 0 <= i < |s| ==> s[i].from < s[i].to)
      && (forall i :: 0 <= i < |s| - 1 ==> s[i].to == s[i + 1].from)
  }

  /** The invariant of a day: a non-empty sequence covering exactly [0, DayEnd). */
  ghost predicate Tiles(s: seq<Entry>) { s != [] && Chain(s, 0, DayEnd) }

  /** A fresh day: one unnamed entry spanning the whole day (`New`). */
  function NewDay(): (s: seq<Entry>)
    ensures Tiles(s)
  {
    [EmptyEntry(0, DayEnd)]
  }

  /** Entries of a chain come in order: an earlier entry ends before a later one starts. */
  lemma {:induction false} ChainOrdered(s: seq<Entry>, lo: Minute, hi: Minute, i: nat, j: nat)
    requires Chain(s, lo, hi)
    requires i < j < |s|
    ensures s[i].to <= s[j].from
    decreases j - i
  {
    if i + 1 < j {
      ChainOrdered(s, lo, hi, i + 1, j);
    }
  }

  /** A day is sorted: start times strictly increase and entries do not overlap. */
  lemma TilesSorted(s: seq<Entry>)
    requires Tiles(s)
    ensures forall i, j :: 0 <= i < j < |s| ==> s[i].from < s[i].to <= s[j].from < s[j].to
    ensures forall i :: 0 <= i < |s| ==> 0 <= s[i].from < s[i].to <= DayEnd
  {
    forall i, j | 0 <= i < j < |s|
      ensures s[i].to <= s[j].from
    {
      ChainOrdered(s, 0, DayEnd, i, j);
    }
    forall i | 0 <= i < |s|
      ensures 0 <= s[i].from && s[i].to <= DayEnd
    {
      if 0 < i {
        ChainOrdered(s, 0, DayEnd, 0, i);
      }
      if i < |s| - 1 {
        ChainOrdered(s, 0, DayEnd, i, |s| - 1);
      }
    }
  }

  lemma ChainConcat(a: seq<Entry>, b: seq<Entry>, lo: Minute, mid: Minute, hi: Minute)
    requires Chain(a, lo, mid) && Chain(b, mid, hi)
    ensures Chain(a + b, lo, hi)
  {
    var s := a + b;
    if a != [] && b != [] {
      forall i | 0 <= i < |s| - 1
        ensures s[i].to == s[i + 1].from
      {
        if i < |a| - 1 {
          assert s[i] == a[i] && s[i + 1] == a[i + 1];
        } else if i == |a| - 1 {
          assert s[i] == a[|a| - 1] && s[i + 1] == b[0];
        } else {
          assert s[i] == b[i - |a|] && s[i + 1] == b[i - |a| + 1];
        }
      }
    }
  }

  /** The entries before entry p cover [0, s[p].from). */
  lemma DayPrefix(s: seq<Entry>, p: nat)
    requires Tiles(s) && p < |s|
    ensures Chain(s[..p], 0, s[p].from)
  {
    if 0 < p {
      assert s[p - 1].to == s[p].from;
    }
  }

  /** The entries after entry q cover [s[q].to, DayEnd). */
  lemma DaySuffix(s: seq<Entry>, q: nat)
    requires Tiles(s) && q < |s|
    ensures Chain(s[q + 1..], s[q].to, DayEnd)
  {
    var t := s[q + 1..];
    if q + 1 < |s| {
      assert s[q].to == s[q + 1].from;
      assert t[0] == s[q + 1] && t[|t| - 1] == s[|s| - 1];
      assert forall i :: 0 <= i < |t| ==> t[i] == s[q + 1 + i];
    }
  }

  // ---------------------------------------------------------------------------
  // What an insertion does, defined entry by entry.

  /**
   * The part of the day before minute `f`: every entry that starts before `f`,
   * ended at `f` at the latest.
   */
  function Before(s: seq<Entry>, f: Minute): (r: seq<Entry>)
    ensures |r| <= |s|
    ensures forall i :: 0 <= i < |r| ==> r[i].to <= f
  {
    if s == [] then []
    else (if s[0].from < f then [s[0].(to := Min(s[0].to, f))] else []) + Before(s[1..], f)
  }

  /**
   * The part of the day from minute `t` on: every entry that ends after `t`,
   * started at `t` at the earliest.
   */
  function After(s: seq<Entry>, t: Minute): (r: seq<Entry>)
    ensures |r| <= |s|
    ensures forall i :: 0 <= i < |r| ==> r[i].from >= t
  {
    if s == [] then []
    else (if s[0].to > t then [s[0].(from := Max(s[0].from, t))] else []) + After(s[1..], t)
  }

  /** The day with [e.from, e.to) overwritten by `e`. */
  function Overwrite(s: seq<Entry>, e: Entry): seq<Entry>
  {
    Before(s, e.from) + [e] + After(s, e.to)
  }

  /** The new entry limited to the day: `From` raised to 0, `To` lowered to 1440. */
  function Clamp(e: Entry): (c: Entry)
    ensures c.name == e.name && 0 <= c.from && c.to <= DayEnd
    ensures 0 <= e.from ==> c.from == e.from
    ensures e.to <= DayEnd ==> c.to == e.to
    ensures e.from < 0 ==> c.from == 0
    ensures e.to > DayEnd ==> c.to == DayEnd
  {
    e.(from := Max(e.from, 0), to := Min(e.to, DayEnd))
  }

  /** The day after inserting `e`: unchanged when the clamped interval is empty. */
  function Inserted(s: seq<Entry>, e: Entry): seq<Entry>
  {
    var c := Clamp(e);
    if c.to <= c.from then s else Overwrite(s, c)
  }

  lemma {:induction false} BeforeConcat(a: seq<Entry>, b: seq<Entry>, f: Minute)
    ensures Before(a + b, f) == Before(a, f) + Before(b, f)
  {
    if a != [] {
      var head := if a[0].from < f then [a[0].(to := Min(a[0].to, f))] else [];
      assert (a + b)[0] == a[0];
      assert (a + b)[1..] == a[1..] + b;
      BeforeConcat(a[1..], b, f);
      calc {
        Before(a + b, f);
        head + Before(a[1..] + b, f);
        head + (Before(a[1..], f) + Before(b, f));
        (head + Before(a[1..], f)) + Before(b, f);
        Before(a, f) + Before(b, f);
      }
    } else {
      assert a + b == b;
    }
  }

  lemma {:induction false} AfterConcat(a: seq<Entry>, b: seq<Entry>, t: Minute)
    ensures After(a + b, t) == After(a, t) + After(b, t)
  {
    if a != [] {
      var head := if a[0].to > t then [a[0].(from := Max(a[0].from, t))] else [];
      assert (a + b)[0] == a[0];
      assert (a + b)[1..] == a[1..] + b;
      AfterConcat(a[1..], b, t);
      calc {
        After(a + b, t);
        head + After(a[1..] + b, t);
        head + (After(a[1..], t) + After(b, t));
        (head + After(a[1..], t)) + After(b, t);
        After(a, t) + After(b, t);
      }
    } else {
      assert a + b == b;
    }
  }

  /** Entries that start at `f` or later leave nothing before `f`. */
  lemma {:induction false} BeforeNone(s: seq<Entry>, f: Minute)
    requires forall i :: 0 <= i < |s| ==> s[i].from >= f
    ensures Before(s, f) == []
  {
    if s != [] {
      BeforeNone(s[1..], f);
    }
  }

  /** Entries that end by `f` are all kept, unchanged. */
  lemma {:induction false} BeforeAll(s: seq<Entry>, f: Minute)
    requires forall i :: 0 <= i < |s| ==> s[i].from < s[i].to <= f
    ensures Before(s, f) == s
  {
    if s != [] {
      BeforeAll(s[1..], f);
    }
  }

  lemma {:induction false} AfterNone(s: seq<Entry>, t: Minute)
    requires forall i :: 0 <= i < |s| ==> s[i].to <= t
    ensures After(s, t) == []
  {
    if s != [] {
      AfterNone(s[1..], t);
    }
  }

  lemma {:induction false} AfterAll(s: seq<Entry>, t: Minute)
    requires forall i :: 0 <= i < |s| ==> t <= s[i].from < s[i].to
    ensures After(s, t) == s
  {
    if s != [] {
      AfterAll(s[1..], t);
    }
  }

  /** The entry of a day that holds minute `m`. */
  lemma Cover(s: seq<Entry>, m: Minute) returns (p: nat)
    requires Tiles(s) && 0 <= m < DayEnd
    ensures p < |s| && s[p].from <= m < s[p].to
    ensures forall j :: 0 <= j < |s| && s[j].from <= m < s[j].to ==> j == p
  {
    p := 0;
    while s[p].to <= m
      invariant p < |s| && s[p].from <= m
      decreases |s| - p
    {
      p := p + 1;
    }
    TilesSorted(s);
  }

  /**
   * On a day, the part before `f` is the prefix up to the entry holding `f`,
   * with that entry ended at `f` when it starts before `f`.
   */
  lemma BeforeShape(s: seq<Entry>, f: Minute, p: nat)
    requires Tiles(s) && p < |s| && s[p].from <= f < s[p].to
    ensures Before(s, f) == s[..p] + (if s[p].from < f then [s[p].(to := f)] else [])
  {
    var pre, mid, post := s[..p], [s[p]], s[p + 1..];
    assert s == pre + mid + post;
    BeforeAround(s, f, p);
    assert mid[1..] == [];
    assert Before(mid, f) == (if s[p].from < f then [s[p].(to := f)] else []);
    BeforeConcat(pre, mid, f);
    BeforeConcat(pre + mid, post, f);
  }

  /** On a day, the entries before the one holding `f` are all kept, and none after it. */
  lemma BeforeAround(s: seq<Entry>, f: Minute, p: nat)
    requires Tiles(s) && p < |s| && s[p].from <= f < s[p].to
    ensures Before(s[..p], f) == s[..p] && Before(s[p + 1..], f) == []
  {
    TilesSorted(s);
    var pre, post := s[..p], s[p + 1..];
    forall i | 0 <= i < |pre|
      ensures pre[i].from < pre[i].to <= f
    {
      assert pre[i] == s[i];
    }
    forall i | 0 <= i < |post|
      ensures post[i].from >= f
    {
      assert post[i] == s[p + 1 + i];
    }
    BeforeAll(pre, f);
    BeforeNone(post, f);
  }

  /**
   * On a day, the part from `t` on is the suffix after the entry holding
   * minute t - 1, preceded by that entry started at `t` when it ends after `t`.
   */
  lemma AfterShape(s: seq<Entry>, t: Minute, q: nat)
    requires Tiles(s) && q < |s| && s[q].from < t <= s[q].to
    ensures After(s, t) == (if t < s[q].to then [s[q].(from := t)] else []) + s[q + 1..]
  {
    var pre, mid, post := s[..q], [s[q]], s[q + 1..];
    assert s == pre + mid + post;
    AfterAround(s, t, q);
    assert mid[1..] == [];
    var head := if t < s[q].to then [s[q].(from := t)] else [];
    assert After(mid, t) == head;
    assert After(pre + mid, t) == head by {
      AfterConcat(pre, mid, t);
      assert [] + head == head;
    }
    AfterConcat(pre + mid, post, t);
  }

  /** On a day, none of the entries before the one holding t - 1 is kept, and all after it are. */
  lemma AfterAround(s: seq<Entry>, t: Minute, q: nat)
    requires Tiles(s) && q < |s| && s[q].from < t <= s[q].to
    ensures After(s[..q], t) == [] && After(s[q + 1..], t) == s[q + 1..]
  {
    TilesSorted(s);
    var pre, post := s[..q], s[q + 1..];
    forall i | 0 <= i < |pre|
      ensures pre[i].to <= t
    {
      assert pre[i] == s[i];
    }
    forall i | 0 <= i < |post|
      ensures t <= post[i].from < post[i].to
    {
      assert post[i] == s[q + 1 + i];
    }
    AfterNone(pre, t);
    AfterAll(post, t);
  }

  /** On a day, the part before `f` covers [0, f) exactly. */
  lemma BeforeChain(s: seq<Entry>, f: Minute)
    requires Tiles(s) && 0 <= f < DayEnd
    ensures Chain(Before(s, f), 0, f)
  {
    var p := Cover(s, f);
    BeforeShape(s, f, p);
    DayPrefix(s, p);
    if s[p].from < f {
      ChainConcat(s[..p], [s[p].(to := f)], 0, s[p].from, f);
    } else {
      assert s[..p] + [] == s[..p];
    }
  }

  /** On a day, the part from `t` on covers [t, DayEnd) exactly. */
  lemma AfterChain(s: seq<Entry>, t: Minute)
    requires Tiles(s) && 0 < t <= DayEnd
    ensures Chain(After(s, t), t, DayEnd)
  {
    var q := Cover(s, t - 1);
    AfterShape(s, t, q);
    DaySuffix(s, q);
    if t < s[q].to {
      ChainConcat([s[q].(from := t)], s[q + 1..], t, s[q].to, DayEnd);
    } else {
      assert [] + s[q + 1..] == s[q + 1..];
    }
  }

  /** Inserting into a day keeps it a day. */
  lemma OverwriteTiles(s: seq<Entry>, e: Entry)
    requires Tiles(s) && 0 <= e.from < e.to <= DayEnd
    ensures Tiles(Overwrite(s, e))
  {
    BeforeChain(s, e.from);
    AfterChain(s, e.to);
    ChainConcat(Before(s, e.from), [e], 0, e.from, e.to);
    ChainConcat(Before(s, e.from) + [e], After(s, e.to), 0, e.to, DayEnd);
  }

  /** Every insertion, in range or not, keeps a day a day. */
  lemma InsertedTiles(s: seq<Entry>, e: Entry)
    requires Tiles(s)
    ensures Tiles(Inserted(s, e))
  {
    var c := Clamp(e);
    if c.from < c.to {
      OverwriteTiles(s, c);
    }
  }

  /**
   * The inserted entry occurs exactly once, right after the part before it;
   * every other entry lies wholly before or wholly after it.
   */
  lemma OverwritePlacesOnce(s: seq<Entry>, e: Entry)
    requires e.from < e.to
    ensures var r, k := Overwrite(s, e), |Before(s, e.from)|;
      && k < |r| && r[k] == e
      && (forall i :: 0 <= i < |r| && i != k ==> r[i].to <= e.from || e.to <= r[i].from)
      && (forall i :: 0 <= i < |r| && r[i] == e ==> i == k)
  {
    var b, a := Before(s, e.from), After(s, e.to);
    var r := b + [e] + a;
    forall i | 0 <= i < |r| && i != |b|
      ensures r[i].to <= e.from || e.to <= r[i].from
    {
      if i < |b| {
        assert r[i] == b[i];
      } else {
        assert r[i] == a[i - |b| - 1];
      }
    }
  }

  /** Entries of the old day that lie inside the new interval are gone (unless equal to it). */
  lemma ContainedDropped(s: seq<Entry>, e: Entry)
    requires e.from < e.to
    ensures forall x :: x in s && e.from <= x.from < x.to <= e.to && x != e ==> x !in Overwrite(s, e)
  {
    OverwritePlacesOnce(s, e);
  }

  /**
   * Split: an entry that strictly contains the new interval is replaced by its
   * part before, the new entry, and its part after; both outer parts keep its
   * name and everything else is unchanged and in order.
   */
  lemma SplitCase(s: seq<Entry>, e: Entry, i: nat)
    requires Tiles(s) && i < |s|
    requires s[i].from < e.from < e.to < s[i].to
    ensures Overwrite(s, e)
         == s[..i] + [s[i].(to := e.from), e, s[i].(from := e.to)] + s[i + 1..]
  {
    BeforeShape(s, e.from, i);
    AfterShape(s, e.to, i);
  }

  /**
   * Crop: with p the entry holding e.from and q the entry holding e.to - 1,
   * the entries before p and after q are kept unchanged and in order, p is
   * ended at e.from only if it starts before it, q is started at e.to only if
   * it ends after it (a neighbour that merely touches the new interval is not
   * cropped), and everything from p to q inside the new interval is dropped.
   */
  lemma CropCase(s: seq<Entry>, e: Entry, p: nat, q: nat)
    requires Tiles(s) && 0 <= e.from < e.to <= DayEnd
    requires p < |s| && s[p].from <= e.from < s[p].to
    requires q < |s| && s[q].from < e.to <= s[q].to
    ensures p <= q
    ensures Overwrite(s, e)
         == s[..p]
            + (if s[p].from < e.from then [s[p].(to := e.from)] else [])
            + [e]
            + (if e.to < s[q].to then [s[q].(from := e.to)] else [])
            + s[q + 1..]
  {
    if q < p {
      ChainOrdered(s, 0, DayEnd, q, p);
    }
    BeforeShape(s, e.from, p);
    AfterShape(s, e.to, q);
  }

  /** Overwriting again keeps the part before the interval as it is. */
  lemma OverwriteBefore(s: seq<Entry>, e: Entry)
    requires e.from < e.to
    ensures Before(Overwrite(s, e), e.from) == Before(s, e.from)
  {
    var b, a := Before(s, e.from), After(s, e.to);
    BeforeConcat(b + [e], a, e.from);
    BeforeConcat(b, [e], e.from);
    BeforeKeepsBefore(s, e.from);
    BeforeNone(a, e.from);
  }

  /** Entries that end by `t`, then one that ends at `t`, then the part after `t`: only that part is after `t`. */
  lemma AfterPlaced(b: seq<Entry>, e: Entry, a: seq<Entry>)
    requires forall i :: 0 <= i < |b| ==> b[i].to <= e.to
    ensures After(b + [e] + After(a, e.to), e.to) == After(a, e.to)
  {
    var rest := After(a, e.to);
    AfterNone(b, e.to);
    AfterNone([e], e.to);
    AfterConcat(b, [e], e.to);
    assert After(b + [e], e.to) == [];
    AfterConcat(b + [e], rest, e.to);
    AfterKeepsAfter(a, e.to);
  }

  /** Overwriting again keeps the part after the interval as it is. */
  lemma OverwriteAfter(s: seq<Entry>, e: Entry)
    requires e.from < e.to
    ensures After(Overwrite(s, e), e.to) == After(s, e.to)
  {
    AfterPlaced(Before(s, e.from), e, s);
  }

  /** Inserting an interval twice gives the same sequence as inserting it once. */
  lemma OverwriteIdempotent(s: seq<Entry>, e: Entry)
    requires e.from < e.to
    ensures Overwrite(Overwrite(s, e), e) == Overwrite(s, e)
  {
    OverwriteBefore(s, e);
    OverwriteAfter(s, e);
  }

  /** Inserting the same entry twice gives the same day as inserting it once (for any sequence). */
  lemma InsertedIdempotent(s: seq<Entry>, e: Entry)
    ensures Inserted(Inserted(s, e), e) == Inserted(s, e)
  {
    var c := Clamp(e);
    assert Clamp(c) == c;
    if c.from < c.to {
      OverwriteIdempotent(s, c);
    }
  }

  lemma {:induction false} BeforeKeepsBefore(s: seq<Entry>, f: Minute)
    ensures Before(Before(s, f), f) == Before(s, f)
  {
    if s != [] {
      BeforeKeepsBefore(s[1..], f);
      var head := if s[0].from < f then [s[0].(to := Min(s[0].to, f))] else [];
      BeforeConcat(head, Before(s[1..], f), f);
    }
  }

  lemma {:induction false} AfterKeepsAfter(s: seq<Entry>, t: Minute)
    ensures After(After(s, t), t) == After(s, t)
  {
    if s != [] {
      AfterKeepsAfter(s[1..], t);
      var head := if s[0].to > t then [s[0].(from := Max(s[0].from, t))] else [];
      AfterConcat(head, After(s[1..], t), t);
    }
  }

  // ---------------------------------------------------------------------------
  // Queries and rendering of a single minute.

  /**
   * The default anchor of a "then" command (`FilledUpTo`): scanning back from
   * the last entry, the end of the first named entry met before index 0.
   */
  function FilledTo(s: seq<Entry>): Minute
    decreases |s|
  {
    if |s| <= 1 then 0
    else if s[|s| - 1].name != "" then s[|s| - 1].to
    else FilledTo(s[..|s| - 1])
  }

  /**
   * FilledTo is the end of the last named entry at index 1 or later, or 0 when
   * there is none; index 0 is never inspected.
   */
  lemma {:induction false} FilledToLastNamed(s: seq<Entry>)
    ensures (forall j :: 0 < j < |s| ==> s[j].name == "") ==> FilledTo(s) == 0
    ensures forall j :: 0 < j < |s| && s[j].name != "" && (forall k :: j < k < |s| ==> s[k].name == "")
                        ==> FilledTo(s) == s[j].to
    decreases |s|
  {
    if |s| > 1 && s[|s| - 1].name == "" {
      var t := s[..|s| - 1];
      FilledToLastNamed(t);
      assert forall j :: 0 <= j < |t| ==> t[j] == s[j];
    }
  }

  /**
   * `Minute.String`: hours and minutes, each zero-padded to two digits,
   * joined by a colon (Go's truncating division and remainder).
   */
  function Clock(m: Minute): (r: string)
    ensures 0 <= m < 100 * 60 ==>
      && |r| == 5 && r[2] == ':' && AllDigits(r[..2]) && AllDigits(r[3..])
      && DigitsValue(r[..2]) == m / 60 && DigitsValue(r[3..]) == m % 60
  {
    var hours := Quot(m, 60);
    var mins := Rem(m, 60);
    var r := Pad2(hours) + ":" + Pad2(mins);
    assert 0 <= m < 100 * 60 ==> r[..2] == Pad2(hours) && r[3..] == Pad2(mins);
    r
  }

  /** A rendered minute is a single line. */
  lemma ClockNoLineBreak(m: Minute)
    ensures '\n' !in Clock(m)
  {
    var h, mm := Quot(m, 60), Rem(m, 60);
    assert Clock(m) == Pad2(h) + ":" + Pad2(mm);
    assert '\n' !in Pad2(h) && '\n' !in Pad2(mm);
  }
}
