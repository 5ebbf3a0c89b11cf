/** The countdown target form: hours, minutes, seconds and milliseconds fields,
    each clamped to its range, composed into one millisecond target.

    A field is the result of `parseInt` on its text: a whole number, or
    not-a-number when the text does not start with digits. Not-a-number
    survives clamping and arithmetic, and `NaN | 0` is 0, so any unreadable
    field sets a target of 0. */
module CountdownForm {
  import opened TimeFormat
  import opened TimeEngine

  datatype Parsed = Num(n: int) | NaN

  const MaxHours: int := 99
  const MaxMinutes: int := 59
  const MaxSeconds: int := 59
  const MaxMillis: int := 999

  /** The largest target the form can produce: 99:59:59.999. */
  const MaxTarget: int := 359999999

  /** `clamp(field, 0, hi)` on a parsed field; not-a-number stays not-a-number. */
  function ClampField(p: Parsed, hi: nat): (r: Parsed)
    ensures p.NaN? <==> r.NaN?
    ensures r.Num? ==> 0 <= r.n <= hi
    ensures p.Num? && 0 <= p.n <= hi ==> r == p
  {
    match p
    case NaN => NaN
    case Num(n) => Num(Clamp(n, 0, hi))
  }

  /** The millisecond sum of the four clamped fields. */
  function ComposeTarget(h: Parsed, m: Parsed, s: Parsed, ms: Parsed): (r: Parsed)
    ensures r.NaN? <==> (h.NaN? || m.NaN? || s.NaN? || ms.NaN?)
    ensures r.Num? ==> 0 <= r.n <= MaxTarget
    ensures r.Num? ==> r.n == Join(Fields(ClampField(h, MaxHours).n, ClampField(m, MaxMinutes).n,
                                          ClampField(s, MaxSeconds).n, ClampField(ms, MaxMillis).n))
  {
    var ch, cm, cs, cms := ClampField(h, MaxHours), ClampField(m, MaxMinutes),
                           ClampField(s, MaxSeconds), ClampField(ms, MaxMillis);
    if ch.NaN? || cm.NaN? || cs.NaN? || cms.NaN? then NaN
    else Num(ch.n * MsPerHour + cm.n * MsPerMinute + cs.n * MsPerSecond + cms.n)
  }

  /** Submitting the form: `setCountdownTarget(ms)`, where not-a-number reads as 0. */
  function SubmitForm(e: Engine, h: Parsed, m: Parsed, s: Parsed, ms: Parsed): (r: Engine)
    ensures 0 <= r.targetMs <= MaxTarget
    ensures (h.NaN? || m.NaN? || s.NaN? || ms.NaN?) ==> r.targetMs == 0
    ensures r == e.(targetMs := r.targetMs)
  {
    var target := ComposeTarget(h, m, s, ms);
    SetCountdownTarget(e, if target.NaN? then 0 else target.n)
  }

  /** A target typed within the field ranges is shown back as the same fields:
      the clock rendering splits it into exactly the hours, minutes, seconds and
      milliseconds that were entered. */
  lemma ComposeThenSplit(h: nat, m: nat, s: nat, ms: nat)
    requires h <= MaxHours && m <= MaxMinutes && s <= MaxSeconds && ms <= MaxMillis
    ensures ComposeTarget(Num(h), Num(m), Num(s), Num(ms)) == Num(Join(Fields(h, m, s, ms)))
    ensures Split(Join(Fields(h, m, s, ms))) == Fields(h, m, s, ms)
  {
    var t := Join(Fields(h, m, s, ms));
    var f := Split(t);
    SplitUnique(f, Fields(h, m, s, ms));
  }

  /** Two in-range field sets denoting the same duration are the same fields. */
  lemma SplitUnique(f: Fields, g: Fields)
    requires f.minutes < 60 && f.seconds < 60 && f.millis < 1000
    requires g.minutes < 60 && g.seconds < 60 && g.millis < 1000
    requires Join(f) == Join(g)
    ensures f == g
  {
    var bf := f.minutes * MsPerMinute + f.seconds * MsPerSecond + f.millis;
    var bg := g.minutes * MsPerMinute + g.seconds * MsPerSecond + g.millis;
    QuotientUnique(f.hours, g.hours, bf, bg, MsPerHour);
    var sf := f.seconds * MsPerSecond + f.millis;
    var sg := g.seconds * MsPerSecond + g.millis;
    QuotientUnique(f.minutes, g.minutes, sf, sg, MsPerMinute);
    QuotientUnique(f.seconds, g.seconds, f.millis, g.millis, MsPerSecond);
  }

  /** Quotient and remainder of a division are unique. */
  lemma QuotientUnique(a: nat, b: nat, ra: nat, rb: nat, d: nat)
    requires ra < d && rb < d
    requires a * d + ra == b * d + rb
    ensures a == b && ra == rb
  {
    if a < b {
      MulMonotone(a + 1, b, d);
    } else if b < a {
      MulMonotone(b + 1, a, d);
    }
  }

  lemma MulMonotone(x: nat, y: nat, d: nat)
    requires x <= y
    ensures x * d <= y * d
  {
  }

  /** A submitted form keeps every field in range and the target it sets is exactly
      the composed value, untouched by the 32-bit conversion. */
  lemma SubmitSetsComposedTarget(e: Engine, h: int, m: int, s: int, ms: int)
    ensures SubmitForm(e, Num(h), Num(m), Num(s), Num(ms)).targetMs
            == ComposeTarget(Num(h), Num(m), Num(s), Num(ms)).n
  {
  }
}
