/**
 * The string machinery of Go's standard library that the command parser and
 * the renderers rely on: decimal formatting (`fmt`'s `%d` and `%02d`),
 * `strconv.Atoi`, `strings.Cut` and `strings.Fields`.
 */
module Text {
  import opened Wrappers
  import opened Int64

  predicate IsDigit(c: char) { '0' <= c <= '9' }

  predicate AllDigits(s: string) { forall i :: 0 <= i < |s| ==> IsDigit(s[i]) }

  function DigitValue(c: char): nat
    requires IsDigit(c)
  {
    (c as int) - ('0' as int)
  }

  function DigitChar(d: nat): char
    requires d < 10
  {
    ('0' as int + d) as char
  }

  function Pow10(k: nat): nat { if k == 0 then 1 else 10 * Pow10(k - 1) }

  /** The value of a string of decimal digits, most significant digit first. */
  function DigitsValue(s: string): nat
    requires AllDigits(s)
  {
    if s == [] then 0 else DigitsValue(s[..|s| - 1]) * 10 + DigitValue(s[|s| - 1])
  }

  lemma {:induction false} DigitsValueBound(s: string)
    requires AllDigits(s)
    ensures DigitsValue(s) < Pow10(|s|)
  {
    if s != [] {
      DigitsValueBound(s[..|s| - 1]);
    }
  }

  /** The decimal digits of `n` without leading zeros: `fmt`'s `%d` for n >= 0. */
  function Decimal(n: nat): (r: string)
    ensures r != [] && AllDigits(r)
    decreases n
  {
    if n < 10 then [DigitChar(n)] else Decimal(n / 10) + [DigitChar(n % 10)]
  }

  lemma {:induction false} DecimalValue(n: nat)
    ensures DigitsValue(Decimal(n)) == n
    decreases n
  {
    if n >= 10 {
      var a := Decimal(n / 10);
      assert (a + [DigitChar(n % 10)])[..|a|] == a;
      DecimalValue(n / 10);
    }
  }

  /** `fmt.Sprintf("%02d", n)`: at least two characters, zero-padded after the sign. */
  function Pad2(n: int): (r: string)
    ensures 0 <= n < 100 ==> |r| == 2 && AllDigits(r) && DigitsValue(r) == n
  {
    if n < 0 then "-" + Decimal(-n)
    else if n < 10 then
      DecimalValue(n);
      assert ("0" + Decimal(n))[..1] == "0";
      assert DigitsValue("0") == 0;
      "0" + Decimal(n)
    else
      DecimalValue(n);
      DecimalValue(n / 10);
      Decimal(n)
  }

  /**
   * `strconv.Atoi`: an optional `+` or `-`, then one or more decimal digits,
   * with a value in the 64-bit range; anything else is an error.
   */
  function Atoi(s: string): (r: Option<int>)
    ensures r.Some? ==> MinInt64 <= r.value <= MaxInt64
    ensures r.Some? ==> r.value < Pow10(|s|) && -r.value < Pow10(|s|)
  {
    var signed := |s| > 0 && (s[0] == '+' || s[0] == '-');
    var body := if signed then s[1..] else s;
    if body == [] || !AllDigits(body) then None
    else
      var magnitude: int := DigitsValue(body);
      var v := if signed && s[0] == '-' then -magnitude else magnitude;
      DigitsValueBound(body);
      assert Pow10(|body|) <= Pow10(|s|) by { Pow10Monotone(|body|, |s|); }
      if MinInt64 <= v <= MaxInt64 then Some(v) else None
  }

  lemma {:induction false} Pow10Monotone(i: nat, j: nat)
    requires i <= j
    ensures Pow10(i) <= Pow10(j)
    decreases j
  {
    if i < j {
      Pow10Monotone(i, j - 1);
    }
  }

  /** Atoi reads back every decimal rendering in the 64-bit range. */
  lemma AtoiDecimal(n: nat)
    requires n <= MaxInt64
    ensures Atoi(Decimal(n)) == Some(n)
  {
    DecimalValue(n);
  }

  /** A leading sign is read: `+` keeps the number, `-` negates it. */
  lemma AtoiSigned(n: nat)
    requires n <= MaxInt64
    ensures Atoi("+" + Decimal(n)) == Some(n)
    ensures Atoi("-" + Decimal(n)) == Some(-(n as int))
  {
    DecimalValue(n);
    assert ("+" + Decimal(n))[1..] == Decimal(n);
    assert ("-" + Decimal(n))[1..] == Decimal(n);
  }

  /** Atoi reads back every two-digit zero-padded rendering. */
  lemma AtoiPad2(n: nat)
    requires n < 100
    ensures Atoi(Pad2(n)) == Some(n)
  {
  }

  /** The three results of `strings.Cut`. */
  datatype Split = Split(before: string, after: string, found: bool)

  /** `strings.Cut(s, sep)` for a one-character separator: split at its first occurrence. */
  function Cut(s: string, sep: char): (r: Split)
    ensures r.found ==> s == r.before + [sep] + r.after && sep !in r.before
    ensures !r.found ==> r.before == s && r.after == [] && sep !in s
  {
    if s == [] then Split([], [], false)
    else if s[0] == sep then Split([], s[1..], true)
    else
      var rest := Cut(s[1..], sep);
      Split([s[0]] + rest.before, rest.after, rest.found)
  }

  /** Cutting at a separator that does not occur before a given point splits exactly there. */
  lemma {:induction false} CutAt(a: string, sep: char, b: string)
    requires sep !in a
    ensures Cut(a + [sep] + b, sep) == Split(a, b, true)
  {
    var s := a + [sep] + b;
    if a == [] {
      assert s[1..] == b;
    } else {
      assert s[1..] == a[1..] + [sep] + b;
      CutAt(a[1..], sep, b);
    }
  }

  /** Go's `unicode.IsSpace`, which `strings.Fields` splits on. */
  predicate IsSpace(c: char) {
    || c == ' ' || c == '\t' || c == '\n' || c == '\U{0B}' || c == '\U{0C}' || c == '\r'
    || c == '\U{85}' || c == '\U{A0}' || c == '\U{1680}'
    || ('\U{2000}' <= c <= '\U{200A}')
    || c == '\U{2028}' || c == '\U{2029}' || c == '\U{202F}' || c == '\U{205F}' || c == '\U{3000}'
  }

  predicate NoSpace(s: string) { forall i :: 0 <= i < |s| ==> !IsSpace(s[i]) }

  /** The longest prefix of `s` without white space. */
  function Word(s: string): (w: string)
    ensures |w| <= |s| && w == s[..|w|] && NoSpace(w)
    ensures |w| < |s| ==> IsSpace(s[|w|])
  {
    if s == [] || IsSpace(s[0]) then [] else [s[0]] + Word(s[1..])
  }

  /** `strings.Fields`: the maximal runs of non-space characters, in order. */
  function Fields(s: string): (r: seq<string>)
    ensures forall i :: 0 <= i < |r| ==> r[i] != [] && NoSpace(r[i])
    decreases |s|
  {
    if s == [] then []
    else if IsSpace(s[0]) then Fields(s[1..])
    else
      var w := Word(s);
      [w] + Fields(s[|w|..])
  }

  /** Words joined by single spaces. */
  function Join(words: seq<string>): string
  {
    if words == [] then ""
    else if |words| == 1 then words[0]
    else words[0] + " " + Join(words[1..])
  }

  lemma {:induction false} WordBeforeSpace(w: string, rest: string)
    requires NoSpace(w)
    ensures Word(w + " " + rest) == w
  {
    if w != [] {
      assert (w + " " + rest)[1..] == w[1..] + " " + rest;
      WordBeforeSpace(w[1..], rest);
    }
  }

  lemma {:induction false} WordWhole(w: string)
    requires NoSpace(w)
    ensures Word(w) == w
  {
    if w != [] {
      WordWhole(w[1..]);
    }
  }

  /** Fields splits text written as words separated by single spaces back into those words. */
  lemma {:induction false} FieldsJoin(words: seq<string>)
    requires forall i :: 0 <= i < |words| ==> words[i] != [] && NoSpace(words[i])
    ensures Fields(Join(words)) == words
  {
    if |words| == 1 {
      var w := words[0];
      WordWhole(w);
      assert w[|w|..] == [];
    } else if |words| > 1 {
      var w := words[0];
      var rest := Join(words[1..]);
      var s := w + " " + rest;
      WordBeforeSpace(w, rest);
      assert s[0] == w[0];
      assert s[|w|..] == " " + rest;
      assert (" " + rest)[1..] == rest;
      FieldsJoin(words[1..]);
    }
  }

  /** The number of line breaks in `s`. */
  function Newlines(s: string): nat
  {
    if s == [] then 0 else Newlines(s[..|s| - 1]) + (if s[|s| - 1] == '\n' then 1 else 0)
  }

  lemma {:induction false} NewlinesConcat(a: string, b: string)
    ensures Newlines(a + b) == Newlines(a) + Newlines(b)
    decreases |b|
  {
    if b == [] {
      assert a + b == a;
    } else {
      assert (a + b)[..|a + b| - 1] == a + b[..|b| - 1];
      NewlinesConcat(a, b[..|b| - 1]);
    }
  }

  lemma {:induction false} NewlinesNone(s: string)
    requires '\n' !in s
    ensures Newlines(s) == 0
    decreases |s|
  {
    if s != [] {
      NewlinesNone(s[..|s| - 1]);
    }
  }

  /** A line without a break, closed by one, holds exactly one break. */
  lemma LastLineBreak(t: string)
    requires '\n' !in t
    ensures Newlines(t + "\n") == 1
  {
    NewlinesNone(t);
    assert (t + "\n")[..|t|] == t;
  }
}
