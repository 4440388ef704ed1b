/** The time-bucket value object and the time-span resolver.

    Instants handed out by the resolver are integer milliseconds since the
    Unix epoch (the clock carries sub-second precision); bucket starts and
    series times are integer seconds, after the history commands round the
    resolved span. All calendar arithmetic is in UTC. */
module TimespanHelper {
  import opened Wrappers
  import opened Strings
  import opened Arith

  /** Exceptions the helpers raise. */
  datatype Error =
    | ArgumentError(message: string)
    | NoMethodError(message: string)
    | FloatDomainError
    | DateParseError(input: string)
    | TypeError

  // ---------------------------------------------------------------------
  // TimeBucket
  // ---------------------------------------------------------------------

  /** The alignment units a bucket accepts. */
  datatype Unit = Second | Minute | Hour | Day

  /** A bucket is a width expressed as `size` whole units; nothing in the
      source requires `size` to be positive. */
  datatype Bucket = Bucket(size: nat, unit: Unit)

  /** Seconds in one unit; a day is 86400 seconds because buckets are UTC. */
  function UnitSeconds(u: Unit): nat {
    match u
    case Second => 1
    case Minute => 60
    case Hour => 3600
    case Day => 86400
  }

  /** The unit's symbol name, as interpolated by `to_s`. */
  function UnitName(u: Unit): string {
    match u
    case Second => "second"
    case Minute => "minute"
    case Hour => "hour"
    case Day => "day"
  }

  /** The unit letter of a bucket specifier. */
  function UnitChar(u: Unit): char {
    match u
    case Second => 's'
    case Minute => 'm'
    case Hour => 'h'
    case Day => 'd'
  }

  /** The letter-to-unit table consulted after the specifier matched. */
  function UnitOfChar(c: char): (r: Option<Unit>)
    ensures r.Some? ==> UnitChar(r.value) == c
    ensures r.None? ==> c !in "smhd"
  {
    if c == 's' then Some(Second)
    else if c == 'm' then Some(Minute)
    else if c == 'h' then Some(Hour)
    else if c == 'd' then Some(Day)
    else None
  }

  /** The unit whose symbol name is `name`, if it is one of the four. */
  function UnitOfName(name: string): (r: Option<Unit>)
    ensures r.Some? ==> UnitName(r.value) == name
    ensures r.None? ==> forall u: Unit :: UnitName(u) != name
  {
    if name == "second" then Some(Second)
    else if name == "minute" then Some(Minute)
    else if name == "hour" then Some(Hour)
    else if name == "day" then Some(Day)
    else None
  }

  /** TimeBucket.new(size, unit): any unit outside the four raises. */
  function NewBucket(size: nat, unitName: string): (r: Result<Bucket, Error>)
    ensures r.Ok? <==> unitName in {"second", "minute", "hour", "day"}
    ensures r.Ok? ==> r.value.size == size && UnitName(r.value.unit) == unitName
    ensures r.Err? ==> r.error == ArgumentError("Invalid bucket unit")
  {
    match UnitOfName(unitName)
    case Some(u) => Ok(Bucket(size, u))
    case None => Err(ArgumentError("Invalid bucket unit"))
  }

  /** A whole line of the form `<digits><s|m|h|d>`. */
  predicate IsSpecLine(line: string) {
    && |line| >= 2
    && IsDigitRun(line[..|line| - 1])
    && UnitOfChar(line[|line| - 1]).Some?
  }

  /** No line before index `i` matches. */
  predicate NoSpecLineBefore(lines: seq<string>, i: nat)
    requires i <= |lines|
  {
    forall j :: 0 <= j < i ==> !IsSpecLine(lines[j])
  }

  /** The first line that matches, scanning top to bottom. */
  function FirstSpecLine(lines: seq<string>): (r: Option<string>)
    ensures r.Some? ==> IsSpecLine(r.value) && r.value in lines
    ensures r.Some? ==> exists i :: 0 <= i < |lines| && lines[i] == r.value && NoSpecLineBefore(lines, i)
    ensures r.None? ==> forall i :: 0 <= i < |lines| ==> !IsSpecLine(lines[i])
    ensures |lines| > 0 && IsSpecLine(lines[0]) ==> r == Some(lines[0])
  {
    if |lines| == 0 then None
    else if IsSpecLine(lines[0]) then Some(lines[0])
    else
      var r := FirstSpecLine(lines[1..]);
      assert r.Some? ==> exists i :: 0 <= i < |lines| && lines[i] == r.value && NoSpecLineBefore(lines, i) by {
        if r.Some? {
          var k :| 0 <= k < |lines| - 1 && lines[1..][k] == r.value && NoSpecLineBefore(lines[1..], k);
          assert lines[k + 1] == r.value;
          forall j | 0 <= j < k + 1
            ensures !IsSpecLine(lines[j])
          {
            if j > 0 { assert lines[j] == lines[1..][j - 1]; }
          }
        }
      }
      r
  }

  /** Conversely, the first matching line is the one found, whatever
      follows it. */
  lemma {:induction false} FirstSpecLineAt(lines: seq<string>, i: nat)
    requires i < |lines| && IsSpecLine(lines[i]) && NoSpecLineBefore(lines, i)
    ensures FirstSpecLine(lines) == Some(lines[i])
    decreases i
  {
    if i > 0 {
      assert !IsSpecLine(lines[0]);
      assert lines[1..][i - 1] == lines[i];
      assert NoSpecLineBefore(lines[1..], i - 1) by {
        forall j | 0 <= j < i - 1
          ensures !IsSpecLine(lines[1..][j])
        {
          assert lines[1..][j] == lines[j + 1];
        }
      }
      FirstSpecLineAt(lines[1..], i - 1);
    }
  }

  /** TimeBucket.from_param_string. The pattern's `^` and `$` are line
      anchors, so the first line of `s` that is exactly one or more digits
      followed by one unit letter is what gets parsed. No match (or no
      parameter at all) leaves the match object nil, and indexing it raises. */
  function FromParamString(s: Option<string>): Result<Bucket, Error> {
    var line := if s.Some? then FirstSpecLine(Split(s.value, '\n')) else None;
    match line
    case None => Err(NoMethodError("undefined method '[]' for nil"))
    case Some(l) =>
      var digits := l[..|l| - 1];
      NewBucket(DigitsToNat(digits), UnitName(UnitOfChar(l[|l| - 1]).value))
  }

  /** The specifier the client sends for a bucket: `<size><unit letter>`. */
  function Spec(b: Bucket): string {
    NatToDigits(b.size) + [UnitChar(b.unit)]
  }

  /** A one-line specifier parses iff it is digits then one of s/m/h/d,
      and then its size is the digits' value and its unit is the letter's. */
  lemma ParseSingleLine(s: string)
    requires '\n' !in s
    ensures FromParamString(Some(s)).Ok? <==> IsSpecLine(s)
    ensures IsSpecLine(s) ==>
      (FromParamString(Some(s)) == Ok(Bucket(DigitsToNat(s[..|s| - 1]), UnitOfChar(s[|s| - 1]).value)))
  {
    assert Split(s, '\n') == [s];
  }

  /** Round trip: the specifier of any bucket parses back to that bucket. */
  lemma SpecRoundTrip(b: Bucket)
    ensures FromParamString(Some(Spec(b))) == Ok(b)
  {
    var s := Spec(b);
    assert s[..|s| - 1] == NatToDigits(b.size);
    DigitsRoundTrip(b.size);
    ParseSingleLine(s);
  }

  /** A size of zero is accepted: nothing checks positivity. */
  lemma ZeroSizeAccepted()
    ensures FromParamString(Some("0m")) == Ok(Bucket(0, Minute))
  {
    ParseSingleLine("0m");
    assert "0m"[..1] == "0";
  }

  /** Only one line has to match: a leading line of garbage is skipped. */
  lemma LineAnchorsExample()
    ensures FromParamString(Some("x\n5m")) == Ok(Bucket(5, Minute))
  {
    assert Split("5m", '\n') == ["5m"];
    IndexOfAfterPrefix("x", '\n', "5m");
    assert "x" + ['\n'] + "5m" == "x\n5m";
    assert "x\n5m"[2..] == "5m";
    assert "x\n5m"[..1] == "x";
    assert Split("x\n5m", '\n') == ["x", "5m"];
    assert "5m"[..1] == "5";
    assert !IsSpecLine("x");
    assert IsSpecLine("5m");
    assert ["x", "5m"][1..] == ["5m"];
    assert FirstSpecLine(["x", "5m"]) == Some("5m");
    assert DigitsToNat("5") == 5;
  }

  /** No specifier means an exception, never a default bucket. */
  lemma MalformedRaises(s: string)
    requires '\n' !in s && !IsSpecLine(s)
    ensures FromParamString(Some(s)).Err?
    ensures FromParamString(Some(s)).error.NoMethodError?
  {
    assert Split(s, '\n') == [s];
  }

  /** TimeBucket#to_s: "<size> <unit>", the width handed to the store. */
  function ToString(b: Bucket): string {
    NatToDigits(b.size) + " " + UnitName(b.unit)
  }

  /** `to_s` can be read back: splitting on the space gives the size's
      digits and the unit's name, and nothing else. */
  lemma ToStringReadsBack(b: Bucket)
    ensures Split(ToString(b), ' ') == [NatToDigits(b.size), UnitName(b.unit)]
    ensures DigitsToNat(NatToDigits(b.size)) == b.size
    ensures UnitOfName(UnitName(b.unit)) == Some(b.unit)
  {
    DigitsRoundTrip(b.size);
    var d := NatToDigits(b.size);
    assert forall k :: 0 <= k < |d| ==> d[k] != ' ' by {
      forall k | 0 <= k < |d|
        ensures d[k] != ' '
      {
        assert IsDigit(d[k]);
      }
    }
    assert ' ' !in UnitName(b.unit);
    SplitJoin([d, UnitName(b.unit)], ' ');
    assert Join([d, UnitName(b.unit)], ' ') == ToString(b);
  }

  /** TimeBucket#interval: the bucket width in seconds. */
  function Interval(b: Bucket): (w: nat)
    ensures w % UnitSeconds(b.unit) == 0
    ensures w == 0 <==> b.size == 0
    ensures w >= b.size
    ensures w / UnitSeconds(b.unit) == b.size
  {
    b.size * UnitSeconds(b.unit)
  }

  /** The start of the unit that contains `t` (seconds are already atomic;
      minutes, hours and days snap to :00, :00:00 and 00:00:00 UTC). */
  function AlignDown(t: int, u: Unit): (r: int)
    ensures r <= t < r + UnitSeconds(u)
    ensures r % UnitSeconds(u) == 0
  {
    t - t % UnitSeconds(u)
  }

  /** Aligning twice is aligning once. */
  lemma AlignDownIdempotent(t: int, u: Unit)
    ensures AlignDown(AlignDown(t, u), u) == AlignDown(t, u)
  {
  }

  /** timestamps_for_dates: the fallback grid of bucket starts. It starts at
      `start` floored to the bucket's UNIT (not to a multiple of the width),
      steps by the width, and has floor((end - alignedStart) / width + 1)
      entries. A zero width makes the Float division infinite or NaN, and
      flooring that raises. */
  function Timestamps(start: int, end: int, b: Bucket): (r: Result<seq<int>, Error>)
    ensures r.Ok? <==> Interval(b) > 0
    ensures r.Err? ==> r.error == FloatDomainError
    ensures r.Ok? ==> GridOf(r.value, AlignDown(start, b.unit), Interval(b), end)
    ensures r.Ok? && end >= AlignDown(start, b.unit) ==> |r.value| >= 1
  {
    var a := AlignDown(start, b.unit);
    var w := Interval(b);
    if w == 0 then Err(FloatDomainError)
    else
      var count := (end - a) / w + 1;
      GridCount(a, w, end);
      if count <= 0 then
        Ok([])
      else
        GridBounds(a, w, end, count);
        Ok(Progression(a, w, count))
  }

  /** a, a + w, a + 2w, ... (`count` terms). */
  function Progression(a: int, w: nat, count: nat): (g: seq<int>)
    ensures |g| == count
    ensures forall k :: 0 <= k < count ==> g[k] == a + k * w
    ensures forall k :: 0 <= k < count - 1 ==> g[k + 1] - g[k] == w
  {
    var g := seq(count, k requires 0 <= k < count => a + k * w);
    assert forall k :: 0 <= k < count - 1 ==> g[k + 1] - g[k] == w by {
      forall k | 0 <= k < count - 1
        ensures g[k + 1] - g[k] == w
      {
        assert (k + 1) * w == k * w + w;
      }
    }
    g
  }

  /** `g` is the arithmetic progression from `a` in steps of `w` that stops
      at the last term not after `end`. */
  ghost predicate GridOf(g: seq<int>, a: int, w: nat, end: int) {
    && (|g| > 0 ==> g[0] == a)
    && (forall k :: 0 <= k < |g| - 1 ==> g[k + 1] - g[k] == w)
    && (forall k :: 0 <= k < |g| ==> g[k] == a + k * w && g[k] <= end)
    && a + |g| * w > end
  }

  lemma GridCount(a: int, w: nat, end: int)
    requires w > 0
    ensures (end - a) / w + 1 <= 0 ==> a > end
    ensures end >= a ==> (end - a) / w + 1 >= 1
  {
    var d := end - a;
    assert d == (d / w) * w + d % w;
    if d / w + 1 <= 0 {
      MulMonotone(d / w, -1, w);
    }
  }

  lemma GridBounds(a: int, w: nat, end: int, count: int)
    requires w > 0 && count == (end - a) / w + 1 && count > 0
    ensures forall k :: 0 <= k < count ==> a + k * w <= end
    ensures a + count * w > end
  {
    var d := end - a;
    assert d == (d / w) * w + d % w;
    forall k | 0 <= k < count
      ensures a + k * w <= end
    {
      MulMonotone(k, d / w, w);
    }
    assert count * w == (d / w) * w + w;
  }



  /** Reference definition of the grid: an instant is a bucket start iff it
      is a whole number of widths after the aligned start and not after
      `end`. */
  lemma GridMembership(start: int, end: int, b: Bucket, t: int)
    requires Interval(b) > 0
    ensures var a := AlignDown(start, b.unit);
      var w := Interval(b);
      t in Timestamps(start, end, b).value <==>
        (a <= t <= end && (t - a) % w == 0)
  {
    var g := Timestamps(start, end, b).value;
    if t in g {
      GridOnlyMultiples(start, end, b, t);
    }
    GridHasMultiples(start, end, b, t);
  }

  lemma GridOnlyMultiples(start: int, end: int, b: Bucket, t: int)
    requires Interval(b) > 0 && t in Timestamps(start, end, b).value
    ensures var a := AlignDown(start, b.unit);
      a <= t <= end && (t - a) % Interval(b) == 0
  {
    var a := AlignDown(start, b.unit);
    var w := Interval(b);
    var g := Timestamps(start, end, b).value;
    var k :| 0 <= k < |g| && g[k] == t;
    assert t - a == k * w;
    ModOfMultiple(k, w);
  }

  lemma GridHasMultiples(start: int, end: int, b: Bucket, t: int)
    requires Interval(b) > 0
    ensures var a := AlignDown(start, b.unit);
      a <= t <= end && (t - a) % Interval(b) == 0 ==> t in Timestamps(start, end, b).value
  {
    var a := AlignDown(start, b.unit);
    var w := Interval(b);
    var g := Timestamps(start, end, b).value;
    if a <= t <= end && (t - a) % w == 0 {
      var k := (t - a) / w;
      ExactQuotient(t - a, w);
      assert k >= 0;
      if k >= |g| {
        MulMonotone(|g|, k, w);
        assert false;
      }
      assert g[k] == t;
    }
  }

  /** Using the end of the span or the end floored to the unit gives the same
      grid: the widths are whole units, so the extra seconds never reach the
      next bucket start. */
  lemma GridIgnoresSubUnitEnd(start: int, end: int, b: Bucket)
    ensures Timestamps(start, end, b) == Timestamps(start, AlignDown(end, b.unit), b)
  {
    var w := Interval(b);
    if w > 0 {
      var u := UnitSeconds(b.unit);
      var a := AlignDown(start, b.unit);
      var e := AlignDown(end, b.unit);
      ModSub(e, a, u);
      SameQuotient(e - a, end - e, w, u);
      assert (end - a) / w == (e - a) / w;
    }
  }

  lemma ModSub(x: int, y: int, u: nat)
    requires u > 0 && x % u == 0 && y % u == 0
    ensures (x - y) % u == 0
  {
    assert x == (x / u) * u;
    assert y == (y / u) * u;
    assert x - y == (x / u - y / u) * u;
    DivUnique(x - y, u, x / u - y / u, 0);
  }

  /** Adding less than one unit to a whole number of units does not cross a
      multiple of the width when the width is itself a whole number of units. */
  lemma SameQuotient(d: int, r: int, w: nat, u: nat)
    requires u > 0 && w > 0 && w % u == 0 && d % u == 0 && 0 <= r < u
    ensures (d + r) / w == d / w
  {
    var q := d / w;
    var m := d % w;
    assert d == q * w + m && 0 <= m < w;
    var wu := w / u;
    assert w == wu * u;
    var du := d / u;
    assert d == du * u;
    assert m == d - q * w;
    assert m == du * u - q * wu * u;
    assert m == (du - q * wu) * u;
    var mu := du - q * wu;
    assert m == mu * u;
    assert mu < wu by {
      if mu >= wu {
        MulMonotone(wu, mu, u);
        assert false;
      }
    }
    assert m + r < w by {
      MulMonotone(mu + 1, wu, u);
      assert (mu + 1) * u <= wu * u;
    }
    DivUnique(d + r, w, q, m + r);
  }



  /** Worked example: a one-hour span bucketed by 30 minutes gives
      three bucket starts, the last one exactly at the end. */
  lemma ThirtyMinuteExample(t0: int)
    requires t0 % 60 == 0
    ensures Timestamps(t0, t0 + 3600, Bucket(30, Minute)) == Ok([t0, t0 + 1800, t0 + 3600])
  {
    assert AlignDown(t0, Minute) == t0;
    assert (t0 + 3600 - t0) / 1800 + 1 == 3;
    var g := Progression(t0, 1800, 3);
    assert g[1] == t0 + 1800 && g[2] == t0 + 2 * 1800;
    assert g == [t0, t0 + 1800, t0 + 3600];
  }

  // ---------------------------------------------------------------------
  // Span resolution
  // ---------------------------------------------------------------------

  /** The clock is read once per request. `monthAgo` is one calendar month
      before `now`, which is not a fixed number of milliseconds. */
  datatype Clock = Clock(now: int, monthAgo: int)

  const HourMs: int := 3_600_000
  const DayMs: int := 86_400_000
  const WeekMs: int := 7 * DayMs

  /** An explicit date parameter: absent (nil), a number of seconds, a value
      that already is a date (both in milliseconds here), or text. */
  datatype DateParam = Missing | Numeric(ms: int) | DateLike(ms: int) | Text(s: string)

  /** What the zone's free-form date parser makes of a string. */
  datatype ParseOutcome = Parsed(ms: int) | NoDate | Invalid

  /** The two readers param_to_date tries on text. `readFloat` is Kernel#Float
      (decimals, exponents, surrounding blanks, `_` separators, hex), giving
      the instant in milliseconds or `None` where Float raises; `parseZone` is
      Time.zone.parse. Digit runs and the empty string are modelled
      concretely, so the readers are consulted only for other text. */
  datatype DateReaders = DateReaders(readFloat: string -> Option<int>, parseZone: string -> ParseOutcome)

  /** param_to_date: numbers and digit strings are Unix seconds; other text
      is tried with Float and then with the zone's date parser, whose nil
      becomes "no date" and whose failure propagates. The empty string, which
      the client sends for a null date, fails Float and parses to nil. An
      absent parameter also fails Float (rescued), but then reaches the zone
      parser as nil, which raises TypeError. */
  function ParamToDate(p: DateParam, readers: DateReaders): (r: Result<Option<int>, Error>)
    ensures p.Missing? ==> r == Err(TypeError)
    ensures p.Numeric? || p.DateLike? ==> r == Ok(Some(p.ms))
    ensures p.Text? && IsDigitRun(p.s) ==> r == Ok(Some(DigitsToNat(p.s) * 1000))
    ensures p == Text("") ==> r == Ok(None)
    ensures p.Text? && p.s != "" && !IsDigitRun(p.s) && readers.readFloat(p.s).Some? ==>
      r == Ok(readers.readFloat(p.s))
    ensures r.Err? ==> p.Missing? || (p.Text? && readers.readFloat(p.s).None? && readers.parseZone(p.s) == Invalid)
  {
    match p
    case Missing => Err(TypeError)
    case Numeric(ms) => Ok(Some(ms))
    case DateLike(ms) => Ok(Some(ms))
    case Text(s) =>
      if IsDigitRun(s) then Ok(Some(DigitsToNat(s) * 1000))
      else if s == "" then Ok(None)
      else match readers.readFloat(s)
        case Some(ms) => Ok(Some(ms))
        case None =>
          match readers.parseZone(s)
          case Parsed(ms) => Ok(Some(ms))
          case NoDate => Ok(None)
          case Invalid => Err(DateParseError(s))
  }

  /** A Unix-seconds string and the same number of seconds resolve to the
      same instant, and the empty value and nil differ: the first is "no
      date", the second raises. */
  lemma SecondsTextAgreesWithNumber(n: nat, readers: DateReaders)
    ensures ParamToDate(Text(NatToDigits(n)), readers) == ParamToDate(Numeric(n * 1000), readers)
    ensures ParamToDate(Text(""), readers) == Ok(None) && ParamToDate(Missing, readers).Err?
  {
    DigitsRoundTrip(n);
  }

  /** The preset span names the resolver recognises. */
  predicate IsPreset(spanType: string) {
    spanType in {"prev_hour", "prev_8_hours", "prev_day", "prev_2_days", "prev_week", "prev_month"}
  }

  /** convert_timespan_to_times: a preset span ends now and starts its
      duration earlier; "custom" reads each end independently, defaulting the
      start to an hour ago and the end to now; anything else, including no
      span type, is the previous day. Nothing orders start before end. */
  function ConvertTimespanToTimes(spanType: Option<string>, startDate: DateParam, endDate: DateParam,
                                 clock: Clock, readers: DateReaders): (r: Result<(int, int), Error>)
    ensures spanType != Some("custom") ==> r.Ok? && r.value.1 == clock.now
    ensures r.Err? ==> spanType == Some("custom")
  {
    var now := clock.now;
    match spanType
    case Some("prev_hour") => Ok((now - HourMs, now))
    case Some("prev_8_hours") => Ok((now - 8 * HourMs, now))
    case Some("prev_day") => Ok((now - DayMs, now))
    case Some("prev_2_days") => Ok((now - 2 * DayMs, now))
    case Some("prev_week") => Ok((now - WeekMs, now))
    case Some("prev_month") => Ok((clock.monthAgo, now))
    case Some("custom") =>
      var s :- ParamToDate(startDate, readers);
      var e :- ParamToDate(endDate, readers);
      Ok((s.GetOr(now - HourMs), e.GetOr(now)))
    case _ => Ok((now - DayMs, now))
  }

  /** The five fixed-length presets span exactly their duration back from now. */
  lemma PresetSpans(startDate: DateParam, endDate: DateParam, clock: Clock, rd: DateReaders)
    ensures ConvertTimespanToTimes(Some("prev_hour"), startDate, endDate, clock, rd) == Ok((clock.now - 3_600_000, clock.now))
    ensures ConvertTimespanToTimes(Some("prev_8_hours"), startDate, endDate, clock, rd) == Ok((clock.now - 28_800_000, clock.now))
    ensures ConvertTimespanToTimes(Some("prev_day"), startDate, endDate, clock, rd) == Ok((clock.now - 86_400_000, clock.now))
    ensures ConvertTimespanToTimes(Some("prev_2_days"), startDate, endDate, clock, rd) == Ok((clock.now - 172_800_000, clock.now))
    ensures ConvertTimespanToTimes(Some("prev_week"), startDate, endDate, clock, rd) == Ok((clock.now - 604_800_000, clock.now))
    ensures ConvertTimespanToTimes(Some("prev_month"), startDate, endDate, clock, rd) == Ok((clock.monthAgo, clock.now))
  {
  }

  /** An unrecognised or missing span type resolves exactly like prev_day,
      and the date parameters are ignored. */
  lemma UnknownSpanIsPrevDay(spanType: Option<string>, startDate: DateParam, endDate: DateParam,
                             clock: Clock, rd: DateReaders)
    requires spanType.None? || (!IsPreset(spanType.value) && spanType.value != "custom")
    ensures ConvertTimespanToTimes(spanType, startDate, endDate, clock, rd) ==
            ConvertTimespanToTimes(Some("prev_day"), Text(""), Text(""), clock, rd)
  {
  }

  /** A custom span whose dates are empty values is the hour before now,
      and an empty start alone defaults to an hour ago whatever the end. A
      date that is absent altogether never reaches those defaults: the zone
      parser raises TypeError on nil. */
  lemma CustomDefaults(clock: Clock, rd: DateReaders, endDate: DateParam)
    ensures ConvertTimespanToTimes(Some("custom"), Text(""), Text(""), clock, rd) ==
            Ok((clock.now - 3_600_000, clock.now))
    ensures ConvertTimespanToTimes(Some("custom"), Text(""), endDate, clock, rd).Ok? ==>
            ConvertTimespanToTimes(Some("custom"), Text(""), endDate, clock, rd).value.0 == clock.now - 3_600_000
    ensures ConvertTimespanToTimes(Some("custom"), Missing, endDate, clock, rd) == Err(TypeError)
    ensures ConvertTimespanToTimes(Some("custom"), Text(""), Missing, clock, rd) == Err(TypeError)
  {
  }

  /** Custom dates given as Unix seconds are used as they are, even when the
      start comes after the end. */
  lemma CustomUnordered(clock: Clock, rd: DateReaders)
    ensures ConvertTimespanToTimes(Some("custom"), Text("20"), Text("10"), clock, rd) == Ok((20_000, 10_000))
  {
    assert DigitsToNat("20") == 20 by {
      assert "20"[..1] == "2";
    }
    assert DigitsToNat("10") == 10 by {
      assert "10"[..1] == "1";
    }
  }

  /** Time#round to whole seconds: a fractional part below one half rounds
      down, one half or more rounds up. */
  function RoundToSecond(ms: int): (s: int)
    ensures s * 1000 - 500 <= ms < s * 1000 + 500
  {
    if ms % 1000 < 500 then ms / 1000 else ms / 1000 + 1
  }
}
