/** `formatTimer`: a non-negative number of seconds as a clock, `MM:SS`
    below an hour and `HH:MM:SS` from an hour on, every field zero-padded
    to two digits (hours may take more). */
module FormatTimer {

  /* ---------- decimal digits ---------- */

  predicate IsDigit(c: char) {
    '0' <= c <= '9'
  }

  predicate AllDigits(s: string) {
    forall k :: 0 <= k < |s| ==> IsDigit(s[k])
  }

  function DigitChar(d: nat): (c: char)
    requires d < 10
    ensures IsDigit(c)
  {
    ['0', '1', '2', '3', '4', '5', '6', '7', '8', '9'][d]
  }

  function DigitValue(c: char): nat
    requires IsDigit(c)
  {
    c as int - '0' as int
  }

  /** `n.toString()` for a non-negative integer (built from the back). */
  function Decimal(n: nat): (s: string)
    ensures s != [] && AllDigits(s)
  {
    if n < 10 then [DigitChar(n)] else Decimal(n / 10) + [DigitChar(n % 10)]
  }

  /** The number a string of digits spells, leading zeros allowed. */
  function DecimalValue(s: string): nat
    requires AllDigits(s)
  {
    if s == [] then 0 else DecimalValue(s[..|s| - 1]) * 10 + DigitValue(s[|s| - 1])
  }

  /** `padStart(2, "0")`. */
  function PadStart2(s: string): (r: string)
    ensures |r| == if |s| < 2 then 2 else |s|
    decreases 2 - |s|
  {
    if |s| >= 2 then s else PadStart2("0" + s)
  }

  /** The two-digit (or longer) field for `n`. */
  function Field(n: nat): string {
    PadStart2(Decimal(n))
  }

  /* ---------- formatTimer ---------- */

  function FormatTimer(secs: nat): (r: string)
    ensures secs < 3600 <==> |r| == 5
  {
    var hours := secs / 3600;
    var minutes := Field(secs % 3600 / 60);
    var s := Field(secs % 60);
    FieldBelow100(secs % 3600 / 60);
    FieldBelow100(secs % 60);
    if hours > 0 then Field(hours) + ":" + minutes + ":" + s else minutes + ":" + s
  }

  /* ---------- reading a clock back ---------- */

  /** The colon-separated fields of a clock string. */
  function Split(t: string): (fs: seq<string>)
    ensures fs != []
    decreases |t|
  {
    if ':' !in t then [t]
    else
      var i := IndexOfColon(t);
      [t[..i]] + Split(t[i + 1..])
  }

  function IndexOfColon(t: string): (i: nat)
    requires ':' in t
    ensures i < |t| && t[i] == ':' && ':' !in t[..i]
  {
    if t[0] == ':' then 0 else IndexOfColon(t[1..]) + 1
  }

  /** Fields read as base-60 digits, the last one counting seconds. */
  function Base60(fs: seq<string>): nat
    requires forall k :: 0 <= k < |fs| ==> AllDigits(fs[k])
  {
    if fs == [] then 0 else Base60(fs[..|fs| - 1]) * 60 + DecimalValue(fs[|fs| - 1])
  }

  predicate IsClock(t: string) {
    forall k :: 0 <= k < |Split(t)| ==> AllDigits(Split(t)[k])
  }

  function ParseClock(t: string): nat
    requires IsClock(t)
  {
    Base60(Split(t))
  }

  /* ---------- properties ---------- */

  lemma {:induction false} DecimalRoundTrip(n: nat)
    ensures DecimalValue(Decimal(n)) == n
  {
    if n >= 10 {
      var s := Decimal(n);
      assert s[..|s| - 1] == Decimal(n / 10);
      DecimalRoundTrip(n / 10);
    }
  }

  /** A leading zero does not change the value. */
  lemma {:induction false} LeadingZero(s: string)
    requires AllDigits(s)
    ensures AllDigits("0" + s) && DecimalValue("0" + s) == DecimalValue(s)
    decreases |s|
  {
    if s != [] {
      assert ("0" + s)[..|"0" + s| - 1] == "0" + s[..|s| - 1];
      LeadingZero(s[..|s| - 1]);
    }
  }

  lemma {:induction false} PadKeeps(s: string)
    requires AllDigits(s)
    ensures AllDigits(PadStart2(s)) && DecimalValue(PadStart2(s)) == DecimalValue(s)
    decreases 2 - |s|
  {
    if |s| < 2 {
      LeadingZero(s);
      PadKeeps("0" + s);
    }
  }

  /** Every field is digits and spells the number it was made from. */
  lemma FieldValue(n: nat)
    ensures AllDigits(Field(n)) && DecimalValue(Field(n)) == n && ':' !in Field(n)
  {
    DecimalRoundTrip(n);
    PadKeeps(Decimal(n));
  }

  lemma FieldBelow100(n: nat)
    requires n < 100
    ensures |Field(n)| == 2
  {
    if n >= 10 {
      assert Decimal(n) == [DigitChar(n / 10)] + [DigitChar(n % 10)];
    }
  }

  lemma SplitOne(a: string, b: string)
    requires ':' !in a
    ensures Split(a + ":" + b) == [a] + Split(b)
  {
    var t := a + ":" + b;
    assert t[|a|] == ':';
    var i := IndexOfColon(t);
    assert forall k :: 0 <= k < |a| ==> t[k] == a[k];
    assert forall k :: 0 <= k < i ==> t[..i][k] == t[k];
    assert i == |a|;
    assert t[..i] == a && t[i + 1..] == b;
  }

  /** The three digit fields and the clock they make: minutes and seconds
      are exactly two digits below 60, and hours show only from an hour on,
      with at least two digits. */
  lemma FormatTimerFields(secs: nat)
    ensures var h, m, s := secs / 3600, secs % 3600 / 60, secs % 60;
      && m < 60 && s < 60 && |Field(m)| == 2 && |Field(s)| == 2
      && Split(FormatTimer(secs)) == (if h > 0 then [Field(h), Field(m), Field(s)] else [Field(m), Field(s)])
      && (h > 0 ==> |Field(h)| >= 2)
  {
    var h, m, s := secs / 3600, secs % 3600 / 60, secs % 60;
    FieldBelow100(m);
    FieldBelow100(s);
    FieldValue(h);
    FieldValue(m);
    FieldValue(s);
    assert ':' !in Field(s);
    assert Split(Field(s)) == [Field(s)];
    SplitOne(Field(m), Field(s));
    if h > 0 {
      assert Field(h) + ":" + Field(m) + ":" + Field(s) == Field(h) + ":" + (Field(m) + ":" + Field(s));
      SplitOne(Field(h), Field(m) + ":" + Field(s));
    }
  }

  lemma Base60Two(x: string, y: string)
    requires AllDigits(x) && AllDigits(y)
    ensures Base60([x, y]) == DecimalValue(x) * 60 + DecimalValue(y)
  {
    assert [x, y][..1] == [x];
    assert [x][..0] == [];
    assert Base60([x]) == DecimalValue(x);
  }

  lemma Base60Three(x: string, y: string, z: string)
    requires AllDigits(x) && AllDigits(y) && AllDigits(z)
    ensures Base60([x, y, z]) == (DecimalValue(x) * 60 + DecimalValue(y)) * 60 + DecimalValue(z)
  {
    assert [x, y, z][..2] == [x, y];
    Base60Two(x, y);
  }

  lemma ClockParts(secs: nat)
    ensures secs == (secs / 3600 * 60 + secs % 3600 / 60) * 60 + secs % 60
  {
    var h, r := secs / 3600, secs % 3600;
    var m, s := r / 60, r % 60;
    assert secs == 3600 * h + r;
    assert r == 60 * m + s && 0 <= s < 60;
    var q := secs / 60;
    assert secs == 60 * q + secs % 60;
    assert 60 * (q - 60 * h - m) == s - secs % 60;
    assert q - 60 * h - m == 0;
  }

  /** Reading the clock back gives `h * 3600 + m * 60 + s == secs`. */
  lemma FormatTimerRoundTrip(secs: nat)
    ensures IsClock(FormatTimer(secs)) && ParseClock(FormatTimer(secs)) == secs
  {
    var h, m, s := secs / 3600, secs % 3600 / 60, secs % 60;
    FormatTimerFields(secs);
    FieldValue(h);
    FieldValue(m);
    FieldValue(s);
    ClockParts(secs);
    if h > 0 {
      Base60Three(Field(h), Field(m), Field(s));
    } else {
      Base60Two(Field(m), Field(s));
    }
  }
}
