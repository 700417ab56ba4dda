/**
 * The `HH:MM:SS` helpers shared by the marker store and the segment deriver:
 * `formatTime` (identical in js/markersManager.js and js/segmentsManager.js),
 * `validateTimeFormat` and `parseTime`.
 */
module TimeCode {

  /** A position on the video's time line, in seconds; never negative. */
  type Seconds = r: real | r >= 0.0

  predicate IsDigit(c: char) {
    '0' <= c <= '9'
  }

  predicate AllDigits(s: string) {
    forall i | 0 <= i < |s| :: IsDigit(s[i])
  }

  function DigitValue(c: char): nat
    requires IsDigit(c)
  {
    c as int - '0' as int
  }

  function DigitChar(d: nat): (c: char)
    requires d < 10
    ensures IsDigit(c) && DigitValue(c) == d
  {
    ('0' as int + d) as char
  }

  /** The value `parseInt` gives a string made only of decimal digits. */
  function DecimalValue(s: string): nat
    requires AllDigits(s)
    decreases |s|
  {
    if s == [] then 0 else DecimalValue(s[..|s| - 1]) * 10 + DigitValue(s[|s| - 1])
  }

  /** `n.toString()` for a non-negative integer: its decimal digits, without leading zeros. */
  function NatToString(n: nat): (s: string)
    ensures 1 <= |s| && AllDigits(s)
    ensures |s| == 1 <==> n < 10
    ensures |s| <= 2 <==> n < 100
  {
    if n < 10 then [DigitChar(n)] else NatToString(n / 10) + [DigitChar(n % 10)]
  }

  /** Reading the decimal text of `n` back gives `n`. */
  lemma {:induction false} NatToStringRoundTrip(n: nat)
    ensures DecimalValue(NatToString(n)) == n
  {
    if n >= 10 {
      var s := NatToString(n);
      assert s[..|s| - 1] == NatToString(n / 10);
      NatToStringRoundTrip(n / 10);
    }
  }

  /** `n.toString().padStart(2, '0')`. */
  function Pad2(n: nat): (s: string)
    ensures 2 <= |s| && AllDigits(s)
    ensures |s| == 2 <==> n < 100
    ensures DecimalValue(s) == n
  {
    var d := NatToString(n);
    NatToStringRoundTrip(n);
    if |d| < 2 then
      assert ("0" + d)[..1] == "0";
      "0" + d
    else d
  }

  /** The hours, minutes and seconds fields that `formatTime` prints for `t` whole seconds. */
  function Hours(t: nat): nat { t / 3600 }
  function Minutes(t: nat): nat { (t % 3600) / 60 }
  function Secs(t: nat): nat { t % 60 }

  /** The three fields are a mixed-radix decomposition of `t`: minutes and seconds below 60. */
  lemma ClockDecomposition(t: nat)
    ensures Minutes(t) < 60 && Secs(t) < 60
    ensures Hours(t) * 3600 + Minutes(t) * 60 + Secs(t) == t
  {
    var h, rest := t / 3600, t % 3600;
    var m, s := rest / 60, rest % 60;
    assert t == 3600 * h + rest && rest == 60 * m + s;
    DivMod60(t, 60 * h + m, s);
  }

  /** The fields are determined by the value: any decomposition with minutes and seconds below 60 is the clock one. */
  lemma ClockUnique(h: nat, m: nat, s: nat)
    requires m < 60 && s < 60
    ensures Hours(h * 3600 + m * 60 + s) == h
    ensures Minutes(h * 3600 + m * 60 + s) == m
    ensures Secs(h * 3600 + m * 60 + s) == s
  {
    var t := h * 3600 + m * 60 + s;
    var r := m * 60 + s;
    DivMod3600(t, h, r);
    DivMod60(r, m, s);
    DivMod60(t, 60 * h + m, s);
  }

  /** Euclidean division by 60 has exactly one quotient and remainder. */
  lemma DivMod60(t: int, q: int, r: int)
    requires 0 <= r < 60 && t == 60 * q + r
    ensures t / 60 == q && t % 60 == r
  {
  }

  /** Euclidean division by 3600 has exactly one quotient and remainder. */
  lemma DivMod3600(t: int, q: int, r: int)
    requires 0 <= r < 3600 && t == 3600 * q + r
    ensures t / 3600 == q && t % 3600 == r
  {
  }

  /** `formatTime(seconds)` for whole seconds: `HH:MM:SS`, every field zero-padded to two digits, hours unbounded. */
  function FormatTime(t: nat): (s: string)
  {
    Pad2(Hours(t)) + ":" + Pad2(Minutes(t)) + ":" + Pad2(Secs(t))
  }

  /** `Math.floor` of a time, the whole seconds that `formatTime` prints. */
  function WholeSeconds(t: Seconds): (n: nat)
    ensures n as real <= t < n as real + 1.0
  {
    t.Floor
  }

  /** `formatTime(seconds)` on a fractional time: the fraction is dropped. */
  function FormatSeconds(t: Seconds): string {
    FormatTime(WholeSeconds(t))
  }

  /** `timeString.split(':')`. */
  function Split(s: string): (parts: seq<string>)
    ensures 1 <= |parts|
    decreases |s|
  {
    if s == [] then [""]
    else
      var rest := Split(s[1..]);
      if s[0] == ':' then [""] + rest else [[s[0]] + rest[0]] + rest[1..]
  }

  /** Text without a colon is a single field. */
  lemma {:induction false} SplitNoColon(s: string)
    requires ':' !in s
    ensures Split(s) == [s]
    decreases |s|
  {
    if s != [] {
      assert s[0] != ':' && ':' !in s[1..];
      SplitNoColon(s[1..]);
      assert [s[0]] + s[1..] == s;
    }
  }

  /** The first colon ends the first field. */
  lemma {:induction false} SplitAtColon(a: string, b: string)
    requires ':' !in a
    ensures Split(a + ":" + b) == [a] + Split(b)
    decreases |a|
  {
    if a == [] {
      assert a + ":" + b == [':'] + b;
      assert (a + ":" + b)[1..] == b;
    } else {
      assert (a + ":" + b)[1..] == a[1..] + ":" + b;
      SplitAtColon(a[1..], b);
      assert [a[0]] + a[1..] == a;
    }
  }

  /** A field `parseInt` reads as a whole decimal number. */
  predicate DigitField(f: string) {
    |f| >= 1 && AllDigits(f)
  }

  /** Text whose first three colon-separated fields are all digit strings. */
  predicate ParsableTime(s: string) {
    var p := Split(s);
    |p| >= 3 && DigitField(p[0]) && DigitField(p[1]) && DigitField(p[2])
  }

  /** `parseTime(timeString)`: hours * 3600 + minutes * 60 + seconds; fields after the third are ignored. */
  function ParseTime(s: string): nat
    requires ParsableTime(s)
  {
    var p := Split(s);
    DecimalValue(p[0]) * 3600 + DecimalValue(p[1]) * 60 + DecimalValue(p[2])
  }

  /** A two-character field the pattern `[0-5]\d` accepts. */
  predicate SexagesimalField(f: string) {
    |f| == 2 && '0' <= f[0] <= '5' && IsDigit(f[1])
  }

  /** `validateTimeFormat(time)`: the text matches `^(\d{1,2}):([0-5]\d):([0-5]\d)$`. */
  predicate ValidateTimeFormat(s: string) {
    var h := |s| - 6;
    && (h == 1 || h == 2)
    && DigitField(s[..h])
    && s[h] == ':'
    && SexagesimalField(s[h + 1..h + 3])
    && s[h + 3] == ':'
    && SexagesimalField(s[h + 4..])
  }

  /** `FormatTime(t)` splits into its three padded fields. */
  lemma SplitFormatTime(t: nat)
    ensures Split(FormatTime(t)) == [Pad2(Hours(t)), Pad2(Minutes(t)), Pad2(Secs(t))]
  {
    var h, m, s := Pad2(Hours(t)), Pad2(Minutes(t)), Pad2(Secs(t));
    assert ':' !in h && ':' !in m && ':' !in s;
    SplitNoColon(s);
    SplitAtColon(m, s);
    assert FormatTime(t) == h + ":" + (m + ":" + s);
    SplitAtColon(h, m + ":" + s);
  }

  /** Parsing what `formatTime` prints gives back the whole seconds, for every `t`. */
  lemma ParseFormatRoundTrip(t: nat)
    ensures ParsableTime(FormatTime(t))
    ensures ParseTime(FormatTime(t)) == t
  {
    SplitFormatTime(t);
    ClockDecomposition(t);
  }

  /** `validateTimeFormat` accepts what `formatTime` prints exactly when the hours fit in two digits. */
  lemma FormatTimeValid(t: nat)
    ensures ValidateTimeFormat(FormatTime(t)) <==> t < 360000
  {
    var h, m, s := Pad2(Hours(t)), Pad2(Minutes(t)), Pad2(Secs(t));
    var f := FormatTime(t);
    ClockDecomposition(t);
    assert |m| == 2 && |s| == 2;
    var k := |f| - 6;
    assert k == |h|;
    assert f[..k] == h;
    assert f[k + 1..k + 3] == m;
    assert f[k + 4..] == s;
    SexagesimalPad(Minutes(t));
    SexagesimalPad(Secs(t));
    if t < 360000 {
      assert Hours(t) < 100;
    } else {
      assert Hours(t) >= 100;
    }
  }

  lemma SexagesimalPad(n: nat)
    requires n < 60
    ensures SexagesimalField(Pad2(n))
  {
    var p := Pad2(n);
    if n < 10 {
      assert p == "0" + [DigitChar(n)];
    } else {
      assert NatToString(n) == NatToString(n / 10) + [DigitChar(n % 10)];
      assert NatToString(n / 10) == [DigitChar(n / 10)];
    }
  }
  lemma DigitCharValue(c: char)
    requires IsDigit(c)
    ensures DigitChar(DigitValue(c)) == c
  {
  }

  lemma DecimalValueOne(f: string)
    requires DigitField(f) && |f| == 1
    ensures DecimalValue(f) == DigitValue(f[0])
  {
    assert f[..0] == [];
  }

  lemma DecimalValueTwo(f: string)
    requires DigitField(f) && |f| == 2
    ensures DecimalValue(f) == DigitValue(f[0]) * 10 + DigitValue(f[1])
  {
    DecimalValueOne(f[..1]);
  }

  /** Re-printing a one- or two-digit field gives the field, zero-padded to two characters. */
  lemma Pad2OfField(f: string)
    requires DigitField(f) && |f| <= 2
    ensures Pad2(DecimalValue(f)) == if |f| == 1 then "0" + f else f
  {
    if |f| == 1 {
      Pad2OfOneDigit(f);
    } else if f[0] == '0' {
      Pad2OfLeadingZero(f);
    } else {
      Pad2OfTwoDigits(f);
    }
  }

  lemma Pad2OfOneDigit(f: string)
    requires DigitField(f) && |f| == 1
    ensures Pad2(DecimalValue(f)) == "0" + f
  {
    DecimalValueOne(f);
    DigitCharValue(f[0]);
    assert NatToString(DecimalValue(f)) == f;
  }

  lemma Pad2OfLeadingZero(f: string)
    requires DigitField(f) && |f| == 2 && f[0] == '0'
    ensures Pad2(DecimalValue(f)) == f
  {
    DecimalValueTwo(f);
    DigitCharValue(f[1]);
    assert NatToString(DecimalValue(f)) == [f[1]];
    assert "0" + [f[1]] == f;
  }

  lemma Pad2OfTwoDigits(f: string)
    requires DigitField(f) && |f| == 2 && f[0] != '0'
    ensures Pad2(DecimalValue(f)) == f
  {
    var v := DecimalValue(f);
    var d0, d1 := DigitValue(f[0]), DigitValue(f[1]);
    DecimalValueTwo(f);
    assert 10 <= v == d0 * 10 + d1;
    assert v / 10 == d0 && v % 10 == d1;
    DigitCharValue(f[0]);
    DigitCharValue(f[1]);
    assert NatToString(d0) == [f[0]];
    assert NatToString(v) == [f[0]] + [f[1]];
    assert [f[0]] + [f[1]] == f;
  }

  /** Text `validateTimeFormat` accepts splits into its hours, minutes and seconds fields. */
  lemma SplitValidTime(s: string)
    requires ValidateTimeFormat(s)
    ensures var p := Split(s);
      |p| == 3 && p[0] == s[..|s| - 6] && p[1] == s[|s| - 5..|s| - 3] && p[2] == s[|s| - 2..]
  {
    var k := |s| - 6;
    var hf, mf, sf := s[..k], s[k + 1..k + 3], s[k + 4..];
    assert ':' !in hf && ':' !in mf && ':' !in sf;
    var tail := mf + ":" + sf;
    SplitNoColon(sf);
    SplitAtColon(mf, sf);
    assert Split(tail) == [mf, sf];
    assert s == hf + ":" + tail;
    SplitAtColon(hf, tail);
  }

  /** The fields of text `validateTimeFormat` accepts: hours below 100, minutes and seconds below 60. */
  lemma ValidTimeFields(s: string)
    requires ValidateTimeFormat(s)
    ensures ParsableTime(s)
    ensures var k := |s| - 6;
      var h, m, sec := DecimalValue(s[..k]), DecimalValue(s[k + 1..k + 3]), DecimalValue(s[k + 4..]);
      h < 100 && m < 60 && sec < 60 && ParseTime(s) == h * 3600 + m * 60 + sec
  {
    var k := |s| - 6;
    var hf, mf, sf := s[..k], s[k + 1..k + 3], s[k + 4..];
    SplitValidTime(s);
    DecimalValueTwo(mf);
    DecimalValueTwo(sf);
    if |hf| == 2 { DecimalValueTwo(hf); } else { DecimalValueOne(hf); }
  }

  /** `formatTime` prints exactly the padded clock fields. */
  lemma FormatTimeFields(t: nat, h: nat, m: nat, sec: nat)
    requires Hours(t) == h && Minutes(t) == m && Secs(t) == sec
    ensures FormatTime(t) == Pad2(h) + ":" + Pad2(m) + ":" + Pad2(sec)
  {
  }

  /** Valid fields survive a parse and re-pad, except that a one-digit hour gains a leading zero. */
  lemma RepadFields(hf: string, mf: string, sf: string)
    requires DigitField(hf) && |hf| <= 2 && SexagesimalField(mf) && SexagesimalField(sf)
    ensures Pad2(DecimalValue(hf)) + ":" + Pad2(DecimalValue(mf)) + ":" + Pad2(DecimalValue(sf))
         == (if |hf| == 1 then "0" + hf else hf) + ":" + mf + ":" + sf
  {
    assert DigitField(mf) && DigitField(sf);
    Pad2OfField(hf);
    Pad2OfField(mf);
    Pad2OfField(sf);
    var ph, pm, ps := Pad2(DecimalValue(hf)), Pad2(DecimalValue(mf)), Pad2(DecimalValue(sf));
    assert ph == (if |hf| == 1 then "0" + hf else hf) && pm == mf && ps == sf;
  }

  /**
   * Every text `validateTimeFormat` accepts parses, to a value below 100 hours, and
   * `formatTime` prints that value back as the same text (a one-digit hour gains its leading zero).
   */
  lemma ValidTimeRoundTrip(s: string)
    requires ValidateTimeFormat(s)
    ensures ParsableTime(s)
    ensures ParseTime(s) < 360000
    ensures FormatTime(ParseTime(s)) == if |s| == 7 then "0" + s else s
  {
    var k := |s| - 6;
    var hf, mf, sf := s[..k], s[k + 1..k + 3], s[k + 4..];
    ValidTimeFields(s);
    var h, m, sec := DecimalValue(hf), DecimalValue(mf), DecimalValue(sf);
    var t := ParseTime(s);
    ClockUnique(h, m, sec);
    FormatTimeFields(t, h, m, sec);
    RepadFields(hf, mf, sf);
    JoinFields(s);
  }

  /** Accepted text is its three fields joined by colons; a leading zero on the hours is a leading zero on the text. */
  lemma JoinFields(s: string)
    requires ValidateTimeFormat(s)
    ensures var k := |s| - 6; var hf, mf, sf := s[..k], s[k + 1..k + 3], s[k + 4..];
      (if |hf| == 1 then "0" + hf else hf) + ":" + mf + ":" + sf == if |s| == 7 then "0" + s else s
  {
    var k := |s| - 6;
    var hf, mf, sf := s[..k], s[k + 1..k + 3], s[k + 4..];
    assert s == hf + ":" + mf + ":" + sf;
    assert "0" + s == "0" + hf + ":" + mf + ":" + sf;
  }
}
