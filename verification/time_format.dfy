/** Clock-string rendering of a millisecond count: `[HH:]MM:SS.mmm`.

    Models the three utilities that sit in front of the engine: `clamp`,
    `pad` (decimal rendering left-padded with zeros) and `formatTime`.
    `ParseTime` is the inverse reading of a clock string; it exists so that
    the rendering can be stated as a round trip. */
module TimeFormat {

  const MsPerHour: nat := 3600000
  const MsPerMinute: nat := 60000
  const MsPerSecond: nat := 1000

  /** `Math.min(Math.max(n, lo), hi)`: raise to `lo`, then cut down to `hi`. */
  function Clamp(n: int, lo: int, hi: int): (r: int)
    ensures lo <= hi ==> lo <= r <= hi
    ensures lo <= n <= hi ==> r == n
    ensures n < lo && lo <= hi ==> r == lo
    ensures hi < n ==> r == hi
    ensures r <= hi
  {
    var raised := if n < lo then lo else n;
    if hi < raised then hi else raised
  }

  predicate IsDigit(c: char) {
    '0' <= c <= '9'
  }

  predicate AllDigits(s: string) {
    forall i :: 0 <= i < |s| ==> IsDigit(s[i])
  }

  function DigitChar(d: nat): (c: char)
    requires d < 10
    ensures IsDigit(c)
  {
    ('0' as int + d) as char
  }

  function DigitValue(c: char): nat {
    if IsDigit(c) then (c as int - '0' as int) as nat else 0
  }

  /** Value of a string of decimal digits, most significant first. */
  function ValueOf(s: string): nat
    decreases |s|
  {
    if |s| == 0 then 0 else ValueOf(s[..|s| - 1]) * 10 + DigitValue(s[|s| - 1])
  }

  function Pow10(k: nat): (p: nat)
    ensures p >= 1
  {
    if k == 0 then 1 else 10 * Pow10(k - 1)
  }

  /** `n.toString()` for a non-negative integer: shortest decimal rendering. */
  function Decimal(n: nat): (s: string)
    ensures 1 <= |s|
    ensures AllDigits(s)
    ensures ValueOf(s) == n
    ensures |s| > 1 ==> s[0] != '0'
    decreases n
  {
    if n < 10 then [DigitChar(n)]
    else
      var prefix := Decimal(n / 10);
      var s := prefix + [DigitChar(n % 10)];
      assert s[..|s| - 1] == prefix;
      s
  }

  /** A number below `10^k` needs at most `k` digits. */
  lemma {:induction false} DecimalLength(n: nat, k: nat)
    ensures 1 <= k && n < Pow10(k) ==> |Decimal(n)| <= k
    decreases k
  {
    if 1 <= k && n < Pow10(k) && n >= 10 {
      assert k >= 2;
      assert n / 10 < Pow10(k - 1);
      DecimalLength(n / 10, k - 1);
    }
  }

  function Zeros(k: nat): (z: string)
    ensures |z| == k
    ensures forall i :: 0 <= i < k ==> z[i] == '0'
  {
    seq(k, _ => '0')
  }

  lemma {:induction false} LeadingZerosKeepValue(k: nat, s: string)
    ensures ValueOf(Zeros(k) + s) == ValueOf(s)
    decreases |s|
  {
    if |s| == 0 {
      assert Zeros(k) + s == Zeros(k);
      ZerosValue(k);
    } else {
      var t := Zeros(k) + s;
      assert t[..|t| - 1] == Zeros(k) + s[..|s| - 1];
      LeadingZerosKeepValue(k, s[..|s| - 1]);
    }
  }

  lemma {:induction false} ZerosValue(k: nat)
    ensures ValueOf(Zeros(k)) == 0
    decreases k
  {
    if k > 0 {
      assert Zeros(k)[..k - 1] == Zeros(k - 1);
      ZerosValue(k - 1);
    }
  }

  /** `s.padStart(len, "0")`: left-pad with zeros; never truncates. */
  function PadStart(s: string, len: nat): (r: string)
    ensures |r| == if |s| < len then len else |s|
    ensures r[|r| - |s|..] == s
    ensures forall i :: 0 <= i < |r| - |s| ==> r[i] == '0'
    ensures ValueOf(r) == ValueOf(s)
  {
    if |s| >= len then s
    else
      LeadingZerosKeepValue(len - |s|, s);
      Zeros(len - |s|) + s
  }

  /** `pad(n, len)`: decimal digits of `n`, zero-padded on the left to `len`. */
  function Pad(n: nat, len: nat): (r: string)
    ensures AllDigits(r)
    ensures ValueOf(r) == n
    ensures |r| == if |Decimal(n)| < len then len else |Decimal(n)|
    ensures 1 <= len && n < Pow10(len) ==> |r| == len
  {
    DecimalLength(n, len);
    PadStart(Decimal(n), len)
  }

  /** The four fields `formatTime` prints, after a negative input is raised to 0. */
  datatype Fields = Fields(hours: nat, minutes: nat, seconds: nat, millis: nat)

  /** The successive floor divisions of `formatTime`. */
  function Split(ms: int): (f: Fields)
    ensures f.minutes < 60 && f.seconds < 60 && f.millis < 1000
    ensures Join(f) == if ms < 0 then 0 else ms
    ensures f.hours > 0 <==> ms >= MsPerHour
  {
    var t: nat := if ms < 0 then 0 else ms;
    var hours := t / MsPerHour;
    var r1 := t - hours * MsPerHour;
    var minutes := r1 / MsPerMinute;
    var r2 := r1 - minutes * MsPerMinute;
    var seconds := r2 / MsPerSecond;
    var millis := r2 - seconds * MsPerSecond;
    DivBounds(t, MsPerHour);
    DivBounds(r1, MsPerMinute);
    DivBounds(r2, MsPerSecond);
    Fields(hours, minutes, seconds, millis)
  }

  /** Floor division pins its quotient between the two neighbouring multiples. */
  lemma DivBounds(a: nat, b: nat)
    requires b > 0
    ensures (a / b) * b <= a < (a / b) * b + b
    ensures a / b == 0 <==> a < b
  {
  }

  /** Total milliseconds denoted by a set of fields. */
  function Join(f: Fields): nat {
    f.hours * MsPerHour + f.minutes * MsPerMinute + f.seconds * MsPerSecond + f.millis
  }

  /** The always-present `MM:SS.mmm` part of a clock string. */
  function Base(f: Fields): (b: string)
    requires f.minutes < 60 && f.seconds < 60 && f.millis < 1000
    ensures |b| == 9 && b[2] == ':' && b[5] == '.'
    ensures b[..2] == Pad(f.minutes, 2) && b[3..5] == Pad(f.seconds, 2) && b[6..] == Pad(f.millis, 3)
  {
    assert Pow10(2) == 100 && Pow10(3) == 1000;
    var mm, ss, mmm := Pad(f.minutes, 2), Pad(f.seconds, 2), Pad(f.millis, 3);
    BaseParts(mm, ss, mmm);
    mm + ":" + ss + "." + mmm
  }

  /** Where the three pieces of `mm:ss.mmm` sit once joined. */
  lemma BaseParts(mm: string, ss: string, mmm: string)
    requires |mm| == 2 && |ss| == 2 && |mmm| == 3
    ensures var b := mm + ":" + ss + "." + mmm;
            && |b| == 9 && b[2] == ':' && b[5] == '.'
            && b[..2] == mm && b[3..5] == ss && b[6..] == mmm
  {
  }

  /** `formatTime(ms)`: `MM:SS.mmm`, prefixed by `HH:` only when there is at least one hour.
      Each text field is the padded rendering of the matching field of `Split(ms)`,
      so by `Pad`'s contract it is all digits and reads back as that field. */
  function FormatTime(ms: int): (s: string)
    ensures |s| >= 9
    ensures s[|s| - 7] == ':' && s[|s| - 4] == '.'
    ensures |s| == 9 <==> ms < MsPerHour
    ensures s[|s| - 9..|s| - 7] == Pad(Split(ms).minutes, 2)
    ensures s[|s| - 6..|s| - 4] == Pad(Split(ms).seconds, 2)
    ensures s[|s| - 3..] == Pad(Split(ms).millis, 3)
    ensures |s| > 9 ==> s[|s| - 10] == ':' && s[..|s| - 10] == Pad(Split(ms).hours, 2)
  {
    var f := Split(ms);
    var s := if f.hours > 0 then Pad(f.hours, 2) + ":" + Base(f) else Base(f);
    RenderedFields(f, s);
    s
  }

  /** The fields of a rendering, found again by counting from the end. */
  lemma RenderedFields(f: Fields, s: string)
    requires f.minutes < 60 && f.seconds < 60 && f.millis < 1000
    requires s == if f.hours > 0 then Pad(f.hours, 2) + ":" + Base(f) else Base(f)
    ensures |s| >= 9 && s[|s| - 9..] == Base(f)
    ensures s[|s| - 7] == ':' && s[|s| - 4] == '.'
    ensures |s| == 9 <==> f.hours == 0
    ensures s[|s| - 9..|s| - 7] == Pad(f.minutes, 2)
    ensures s[|s| - 6..|s| - 4] == Pad(f.seconds, 2)
    ensures s[|s| - 3..] == Pad(f.millis, 3)
    ensures |s| > 9 ==> s[|s| - 10] == ':' && s[..|s| - 10] == Pad(f.hours, 2)
  {
    var b := Base(f);
    if f.hours > 0 {
      SeparatedParts(Pad(f.hours, 2), b);
    } else {
      assert s[|s| - 9..] == s;
    }
    TailParts(s, b);
  }

  /** The three fields of a `MM:SS.mmm` tail, addressed from the end of the whole string. */
  lemma TailParts(s: string, b: string)
    requires |s| >= 9 && |b| == 9 && s[|s| - 9..] == b
    ensures s[|s| - 9..|s| - 7] == b[..2]
    ensures s[|s| - 6..|s| - 4] == b[3..5]
    ensures s[|s| - 3..] == b[6..]
    ensures s[|s| - 7] == b[2] && s[|s| - 4] == b[5]
  {
    assert forall i :: 0 <= i < 9 ==> s[|s| - 9 + i] == b[i];
  }

  /** Shape of the `MM:SS.mmm` part. */
  predicate IsBase(b: string) {
    |b| == 9 && b[2] == ':' && b[5] == '.' && AllDigits(b[..2]) && AllDigits(b[3..5]) && AllDigits(b[6..])
  }

  /** Shape of every string `FormatTime` produces. */
  predicate IsClockString(s: string) {
    && |s| >= 9
    && IsBase(s[|s| - 9..])
    && (|s| > 9 ==> |s| >= 12 && s[|s| - 10] == ':' && AllDigits(s[..|s| - 10]))
  }

  /** Reads a clock string back into milliseconds; text too short to hold
      `MM:SS.mmm` reads as 0. */
  function ParseTime(s: string): (ms: nat) {
    var n := |s|;
    if n < 9 then 0
    else
      var b := s[n - 9..];
      var hours := if n > 9 then ValueOf(s[..n - 10]) else 0;
      Join(Fields(hours, ValueOf(b[..2]), ValueOf(b[3..5]), ValueOf(b[6..])))
  }

  /** Rendering loses nothing: a clock string reads back as the clamped input. */
  lemma FormatTimeRoundTrip(ms: int)
    ensures IsClockString(FormatTime(ms))
    ensures ParseTime(FormatTime(ms)) == if ms < 0 then 0 else ms
  {
    var f := Split(ms);
    var s := FormatTime(ms);
    BaseReadsBack(f);
    TailParts(s, s[|s| - 9..]);
  }

  lemma BaseReadsBack(f: Fields)
    requires f.minutes < 60 && f.seconds < 60 && f.millis < 1000
    ensures IsBase(Base(f))
    ensures ValueOf(Base(f)[..2]) == f.minutes
    ensures ValueOf(Base(f)[3..5]) == f.seconds
    ensures ValueOf(Base(f)[6..]) == f.millis
  {
  }

  /** The pieces of `head + ":" + tail` are found again by counting from the end. */
  lemma SeparatedParts(head: string, tail: string)
    ensures var s := head + ":" + tail;
            && |s| == |head| + 1 + |tail|
            && s[|s| - |tail|..] == tail
            && s[|s| - |tail| - 1] == ':'
            && s[..|s| - |tail| - 1] == head
  {
    var s := head + ":" + tail;
    assert s[..|head|] == head;
    assert s[|head| + 1..] == tail;
  }

  /** Distinct non-negative durations never render alike. */
  lemma FormatTimeInjective(a: nat, b: nat)
    ensures FormatTime(a) == FormatTime(b) ==> a == b
  {
    FormatTimeRoundTrip(a);
    FormatTimeRoundTrip(b);
  }

  /** A negative duration renders exactly as zero. */
  lemma FormatTimeNegativeIsZero(ms: int)
    requires ms < 0
    ensures FormatTime(ms) == FormatTime(0)
  {
    assert Split(ms) == Split(0);
  }

  lemma PadExamples()
    ensures Pad(0, 2) == "00" && Pad(0, 3) == "000"
    ensures Pad(1, 2) == "01"
    ensures Pad(234, 3) == "234"
  {
    assert Decimal(0) == "0";
    assert Decimal(1) == "1";
    assert Decimal(23) == "23";
    assert Decimal(234) == "234";
  }

  lemma SplitExamples()
    ensures Split(0) == Fields(0, 0, 0, 0)
    ensures Split(61234) == Fields(0, 1, 1, 234)
    ensures Split(3661000) == Fields(1, 1, 1, 0)
  {
  }

  lemma BaseIsPadded(f: Fields)
    requires f.minutes < 60 && f.seconds < 60 && f.millis < 1000
    ensures Base(f) == Pad(f.minutes, 2) + ":" + Pad(f.seconds, 2) + "." + Pad(f.millis, 3)
  {
  }

  lemma LiteralPieces()
    ensures "00" + ":" + "00" + "." + "000" == "00:00.000"
    ensures "01" + ":" + "01" + "." + "234" == "01:01.234"
    ensures "01" + ":" + "01" + "." + "000" == "01:01.000"
    ensures "01" + ":" + "01:01.000" == "01:01:01.000"
  {
  }

  lemma FormatZero()
    ensures FormatTime(0) == "00:00.000"
  {
    SplitExamples();
    PadExamples();
    BaseIsPadded(Fields(0, 0, 0, 0));
    LiteralPieces();
  }

  lemma FormatMinute()
    ensures FormatTime(61234) == "01:01.234"
  {
    SplitExamples();
    PadExamples();
    BaseIsPadded(Fields(0, 1, 1, 234));
    LiteralPieces();
  }

  lemma FormatHour()
    ensures FormatTime(3661000) == "01:01:01.000"
  {
    SplitExamples();
    PadExamples();
    BaseIsPadded(Fields(1, 1, 1, 0));
    LiteralPieces();
  }

  /** The rendering examples the clock display is expected to show. */
  lemma FormatTimeExamples()
    ensures FormatTime(0) == "00:00.000"
    ensures FormatTime(61234) == "01:01.234"
    ensures FormatTime(3661000) == "01:01:01.000"
    ensures FormatTime(-5) == "00:00.000"
  {
    FormatZero();
    FormatMinute();
    FormatHour();
    FormatTimeNegativeIsZero(-5);
  }
}
