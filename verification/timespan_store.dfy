/** The client-side time-span policy: the selected span and its
    persistence as one stored string, its size in minutes, the bucket size
    and downsample interval requested for it, and whether it reaches the
    present. Dates are integer milliseconds since the Unix epoch; the clock
    is a parameter. */
module TimespanStore {
  import opened Wrappers
  import opened Strings
  import TH = TimespanHelper
  import HM = HostMetrics

  /** The span types; every type but Custom is a preset ending now. */
  datatype SpanType = Custom | PrevHour | Prev8Hours | PrevDay | Prev2Days | PrevWeek | PrevMonth

  /** The string each span type is stored and sent as. */
  function SpanName(t: SpanType): string {
    match t
    case Custom => "custom"
    case PrevHour => "prev_hour"
    case Prev8Hours => "prev_8_hours"
    case PrevDay => "prev_day"
    case Prev2Days => "prev_2_days"
    case PrevWeek => "prev_week"
    case PrevMonth => "prev_month"
  }

  /** The preset a stored string names, if it names one. */
  function PresetOfName(v: string): (r: Option<SpanType>)
    ensures r.Some? ==> r.value != Custom && SpanName(r.value) == v
    ensures r.None? ==> forall t :: t != Custom ==> SpanName(t) != v
  {
    if v == "prev_hour" then Some(PrevHour)
    else if v == "prev_8_hours" then Some(Prev8Hours)
    else if v == "prev_day" then Some(PrevDay)
    else if v == "prev_2_days" then Some(Prev2Days)
    else if v == "prev_week" then Some(PrevWeek)
    else if v == "prev_month" then Some(PrevMonth)
    else None
  }

  /** The store's span: a type, and dates that only a custom span uses. */
  datatype Span = Span(spanType: SpanType, startMs: Option<int>, endMs: Option<int>)

  /** `^(\d+),(\d+)$` without the multiline flag: two digit runs joined by
      one comma, and nothing else. */
  predicate IsTimestampPair(v: string) {
    var parts := Split(v, ',');
    |parts| == 2 && IsDigitRun(parts[0]) && IsDigitRun(parts[1])
  }

  /** fetchSpanFromLocalStorage: a preset name decodes to that preset; a
      pair of unix-second timestamps decodes to a custom span; anything else,
      and an absent or empty value, decodes to nothing. Each timestamp is
      read as a decimal integer, leading zeros allowed, and scaled to
      milliseconds. */
  function Decode(v: Option<string>): (r: Option<Span>)
    ensures v.None? || v == Some("") ==> r.None?
    ensures r.Some? <==> v.Some? && v.value != "" && (PresetOfName(v.value).Some? || IsTimestampPair(v.value))
    ensures v.Some? && PresetOfName(v.value).Some? ==> r == Some(Span(PresetOfName(v.value).value, None, None))
    ensures v.Some? && PresetOfName(v.value).None? && IsTimestampPair(v.value) ==>
      var parts := Split(v.value, ',');
      r == Some(Span(Custom, Some(DigitsToNat(parts[0]) * 1000), Some(DigitsToNat(parts[1]) * 1000)))
    ensures r.Some? && r.value.spanType != Custom ==> r.value.startMs.None? && r.value.endMs.None?
    ensures r.Some? && r.value.spanType == Custom ==> r.value.startMs.Some? && r.value.endMs.Some?
    ensures r.Some? && r.value.spanType == Custom ==> r.value.startMs.value % 1000 == 0 && r.value.startMs.value >= 0
    ensures r.Some? && r.value.spanType == Custom ==> r.value.endMs.value % 1000 == 0 && r.value.endMs.value >= 0
  {
    match v
    case None => None
    case Some(s) =>
      if s == "" then None
      else match PresetOfName(s)
        case Some(t) => Some(Span(t, None, None))
        case None =>
          if !IsTimestampPair(s) then None
          else
            var parts := Split(s, ',');
            Some(Span(Custom, Some(DigitsToNat(parts[0]) * 1000), Some(DigitsToNat(parts[1]) * 1000)))
  }

  /** The autorun encoder: what it writes to storage, if anything. A custom
      span is written as its two dates in floored unix seconds only when
      both dates are set. */
  function Encode(span: Span): (r: Option<string>)
    ensures span.spanType != Custom ==> r == Some(SpanName(span.spanType))
    ensures span.spanType == Custom ==> (r.Some? <==> span.startMs.Some? && span.endMs.Some?)
  {
    if span.spanType != Custom then Some(SpanName(span.spanType))
    else if span.startMs.Some? && span.endMs.Some? then
      Some(IntToString(span.startMs.value / 1000) + "," + IntToString(span.endMs.value / 1000))
    else None
  }

  /** A date cut down to whole seconds, as the stored form keeps it. */
  function TruncMs(ms: int): int {
    ms / 1000 * 1000
  }

  /** Round trip: a preset comes back as itself; a custom span with both
      dates at or after the epoch comes back with its dates cut to whole
      seconds. */
  lemma EncodeDecode(span: Span)
    requires span.spanType != Custom || (span.startMs.Some? && span.endMs.Some? && span.startMs.value >= 0 && span.endMs.value >= 0)
    ensures span.spanType != Custom ==> Decode(Encode(span)) == Some(Span(span.spanType, None, None))
    ensures span.spanType == Custom ==>
      Decode(Encode(span)) == Some(Span(Custom, Some(TruncMs(span.startMs.value)), Some(TruncMs(span.endMs.value))))
  {
    if span.spanType == Custom {
      var a := span.startMs.value / 1000;
      var b := span.endMs.value / 1000;
      PairDecodes(a, b);
    }
  }

  /** The stored form of two second counts decodes to them. */
  lemma PairDecodes(a: nat, b: nat)
    ensures Decode(Some(NatToDigits(a) + "," + NatToDigits(b))) == Some(Span(Custom, Some(a * 1000), Some(b * 1000)))
  {
    var da := NatToDigits(a);
    var db := NatToDigits(b);
    var s := da + "," + db;
    PairSplit(da, db);
    DigitsRoundTrip(a);
    DigitsRoundTrip(b);
    DigitEndNotPreset(s);
  }

  /** Two digit runs joined by a comma split back into the two runs. */
  lemma PairSplit(da: string, db: string)
    requires IsDigitRun(da) && IsDigitRun(db)
    ensures Split(da + "," + db, ',') == [da, db]
  {
    SplitJoin([da, db], ',');
    assert Join([da, db], ',') == da + "," + db;
  }

  /** Every preset name ends in a letter, so text ending in a digit names
      none. */
  lemma DigitEndNotPreset(s: string)
    requires |s| > 0 && IsDigit(s[|s| - 1])
    ensures PresetOfName(s).None?
  {
  }

  /** Decoding is stable: whatever decodes encodes to a value that decodes
      to the same span. */
  lemma DecodeEncodeDecode(v: Option<string>)
    requires Decode(v).Some?
    ensures Decode(Encode(Decode(v).value)) == Decode(v)
  {
    var span := Decode(v).value;
    EncodeDecode(span);
    if span.spanType == Custom {
      assert TruncMs(span.startMs.value) == span.startMs.value;
      assert TruncMs(span.endMs.value) == span.endMs.value;
    }
  }

  /** A custom span with a date before the epoch is written with a minus
      sign and does not decode again. */
  lemma NegativeDateNotRestored(startMs: int, endMs: int)
    requires startMs < 0
    ensures Decode(Encode(Span(Custom, Some(startMs), Some(endMs)))).None?
  {
    var x := IntToString(startMs / 1000);
    var s := x + "," + IntToString(endMs / 1000);
    assert Encode(Span(Custom, Some(startMs), Some(endMs))) == Some(s);
    assert s[0] == '-';
    MinusDecodesToNothing(s);
  }

  /** Text starting with a minus sign is neither a preset nor a pair. */
  lemma MinusDecodesToNothing(s: string)
    requires |s| > 0 && s[0] == '-'
    ensures Decode(Some(s)).None?
  {
    assert s[0] != 'p';
    if ',' in s {
      var i := IndexOf(s, ',');
      assert 0 < i;
      assert Split(s, ',')[0] == s[..i];
      assert !IsDigit(s[..i][0]);
    }
  }

  /** The constructor: the decoded span, or prev_8_hours when nothing
      decodes. */
  function Initial(stored: Option<string>): (r: Span)
    ensures Decode(stored).None? ==> r == Span(Prev8Hours, None, None)
    ensures Decode(stored).Some? ==> r == Decode(stored).value
  {
    match Decode(stored)
    case None => Span(Prev8Hours, None, None)
    case Some(s) => if s.spanType == Custom then Span(Custom, s.startMs, s.endMs) else Span(s.spanType, None, None)
  }

  /** setSpanAsTimestamps: a custom span from two unix-second timestamps;
      a missing or zero timestamp leaves that end open. */
  function SetSpanAsTimestamps(t1: Option<int>, t2: Option<int>): (r: Span)
    ensures r.spanType == Custom
    ensures r.startMs.None? <==> t1.None? || t1 == Some(0)
    ensures r.endMs.None? <==> t2.None? || t2 == Some(0)
    ensures r.startMs.Some? ==> r.startMs.value == t1.value * 1000
    ensures r.endMs.Some? ==> r.endMs.value == t2.value * 1000
  {
    Span(Custom,
      if t1.Some? && t1.value != 0 then Some(t1.value * 1000) else None,
      if t2.Some? && t2.value != 0 then Some(t2.value * 1000) else None)
  }

  /** includesNow: every preset ends now, and so does a custom span without
      an end. */
  predicate IncludesNow(span: Span) {
    span.spanType != Custom || span.endMs.None?
  }

  /** A span set from timestamps reaches now exactly when its end is
      missing or zero. */
  lemma TimestampsIncludeNow(t1: Option<int>, t2: Option<int>)
    ensures IncludesNow(SetSpanAsTimestamps(t1, t2)) <==> t2.None? || t2 == Some(0)
  {
  }

  /** The span read back on start reaches now unless it is a stored pair. */
  lemma InitialIncludesNow(stored: Option<string>)
    ensures IncludesNow(Initial(stored)) <==> Initial(stored).spanType != Custom
  {
  }

  /** spanSizeInMin: fixed sizes for the presets; for a custom span the
      distance between its dates, an open start counting as an hour before
      now and an open end as now. */
  function SpanSizeInMin(span: Span, nowMs: int): (m: real)
    ensures span.spanType == PrevHour ==> m == 60.0
    ensures span.spanType == Prev8Hours ==> m == 480.0
    ensures span.spanType == PrevDay ==> m == 1440.0
    ensures span.spanType == Prev2Days ==> m == 2880.0
    ensures span.spanType == PrevWeek ==> m == 10080.0
    ensures span.spanType == PrevMonth ==> m == 43200.0
    ensures span.spanType == Custom && span.startMs.None? && span.endMs.None? ==> m == 60.0
  {
    var customStart := if span.startMs.Some? then span.startMs.value else nowMs - 3600000;
    var customEnd := if span.endMs.Some? then span.endMs.value else nowMs;
    match span.spanType
    case PrevHour => 60.0
    case Prev8Hours => 8.0 * 60.0
    case PrevDay => 1440.0
    case Prev2Days => 2880.0
    case PrevWeek => 7.0 * 1440.0
    case PrevMonth => 30.0 * 1440.0
    case Custom => (customEnd - customStart) as real / 1000.0 / 60.0
  }

  /** preferredBucketSize: the bucket specifier for a span of `minutes`. */
  function PreferredBucketSize(minutes: real): string {
    if minutes <= 120.0 then "1m"
    else if minutes <= 480.0 then "5m"
    else if minutes <= 1440.0 then "30m"
    else if minutes <= 2880.0 then "1h"
    else if minutes <= 10080.0 then "12h"
    else "1d"
  }

  /** The bucket each specifier stands for. */
  function PreferredBucket(minutes: real): (b: TH.Bucket)
    ensures TH.Spec(b) == PreferredBucketSize(minutes)
  {
    SpecDigits();
    if minutes <= 120.0 then TH.Bucket(1, TH.Minute)
    else if minutes <= 480.0 then TH.Bucket(5, TH.Minute)
    else if minutes <= 1440.0 then TH.Bucket(30, TH.Minute)
    else if minutes <= 2880.0 then TH.Bucket(1, TH.Hour)
    else if minutes <= 10080.0 then TH.Bucket(12, TH.Hour)
    else TH.Bucket(1, TH.Day)
  }

  lemma SpecDigits()
    ensures NatToDigits(1) == "1" && NatToDigits(5) == "5"
    ensures NatToDigits(30) == "30" && NatToDigits(12) == "12"
  {
  }

  /** Every specifier the client sends parses on the server to the bucket
      it names, with a positive width. */
  lemma BucketSizeParses(minutes: real)
    ensures TH.FromParamString(Some(PreferredBucketSize(minutes))) == Ok(PreferredBucket(minutes))
    ensures TH.Interval(PreferredBucket(minutes)) > 0
  {
    TH.SpecRoundTrip(PreferredBucket(minutes));
  }

  /** A longer span never gets a narrower bucket. */
  lemma BucketSizeMonotone(a: real, b: real)
    requires a <= b
    ensures TH.Interval(PreferredBucket(a)) <= TH.Interval(PreferredBucket(b))
  {
  }

  /** preferredDownsampleInterval: the host-metric sample spacing, in
      seconds, for a span of `minutes`. */
  function PreferredDownsampleInterval(minutes: real): (s: nat)
    ensures s >= 30 && s % 30 == 0
  {
    if minutes <= 480.0 then 30
    else if minutes <= 2880.0 then 5 * 60
    else if minutes <= 10080.0 then 10 * 60
    else 30 * 60
  }

  /** The interval is used as sent by the server, and its stride loses
      nothing to rounding: the kept samples are exactly that far apart. */
  lemma DownsampleIntervalExact(minutes: real)
    ensures HM.EffectiveSpacing(Some(NatToDigits(PreferredDownsampleInterval(minutes)))) == PreferredDownsampleInterval(minutes)
    ensures HM.Stride(PreferredDownsampleInterval(minutes)) * 30 == PreferredDownsampleInterval(minutes)
  {
    HM.SpacingParam(PreferredDownsampleInterval(minutes));
  }

  /** A longer span never gets a denser sampling. */
  lemma DownsampleIntervalMonotone(a: real, b: real)
    requires a <= b
    ensures PreferredDownsampleInterval(a) <= PreferredDownsampleInterval(b)
  {
  }

  /** The presets' buckets and intervals. */
  lemma PresetPolicy(nowMs: int)
    ensures PreferredBucketSize(SpanSizeInMin(Span(PrevHour, None, None), nowMs)) == "1m"
    ensures PreferredBucketSize(SpanSizeInMin(Span(Prev8Hours, None, None), nowMs)) == "5m"
    ensures PreferredBucketSize(SpanSizeInMin(Span(PrevDay, None, None), nowMs)) == "30m"
    ensures PreferredBucketSize(SpanSizeInMin(Span(Prev2Days, None, None), nowMs)) == "1h"
    ensures PreferredBucketSize(SpanSizeInMin(Span(PrevWeek, None, None), nowMs)) == "12h"
    ensures PreferredBucketSize(SpanSizeInMin(Span(PrevMonth, None, None), nowMs)) == "1d"
    ensures PreferredDownsampleInterval(SpanSizeInMin(Span(PrevDay, None, None), nowMs)) == 300
    ensures PreferredDownsampleInterval(SpanSizeInMin(Span(PrevMonth, None, None), nowMs)) == 1800
  {
  }
}
