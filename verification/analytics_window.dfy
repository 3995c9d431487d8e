/**
 Analytics time windows and their buckets. Instants and durations count nanoseconds; instants
 count from the Unix epoch and may lie before it.
 */
module AnalyticsWindow {
  import opened Collections
  import Text

  const SECOND: nat := 1_000_000_000
  const MINUTE: nat := 60 * SECOND
  const HOUR: nat := 60 * MINUTE
  const DAY: nat := 24 * HOUR
  const MAX_BUCKETS: nat := 512
  const MIN_NANOS: int := -0x8000_0000_0000_0000
  const MAX_NANOS: int := 0x7FFF_FFFF_FFFF_FFFF

  type Instant = int

  datatype Period = Hours24 | Days7 | Days30 | AllTime

  datatype Reason = Blank | Duplicate | Malformed | OutOfRange | Unsupported | Incompatible | InvalidRange | TooManyBuckets

  datatype Result<T> = Ok(value: T) | Err(field: string, reason: Reason)

  /** granularity is 0 where no time series was asked for. */
  datatype Window = Window(
    period: Period,
    granularityName: string,
    granularity: nat,
    start: Instant,
    end: Instant,
    startResolved: bool)

  datatype Bucket = Bucket(aligned: Instant, start: Instant, end: Instant)

  // ---- alignment ----

  /** The remainder of a division that truncates toward zero: it has the sign of the dividend. */
  function TruncatedRemainder(a: int, b: int): int
    requires b > 0
  {
    if a >= 0 then a % b else -((-a) % b)
  }

  /** A granularity in use is a whole, positive number of seconds. */
  predicate WholeSeconds(g: nat) {
    g > 0 && g % SECOND == 0
  }

  method AlignUTC(value: Instant, g: nat) returns (aligned: Instant)
    requires WholeSeconds(g)
    ensures aligned == Floor(value, g)
  {
    var stepSeconds := g / SECOND;
    var unixSeconds := value / SECOND;
    var remainder := TruncatedRemainder(unixSeconds, stepSeconds);
    if remainder < 0 {
      remainder := remainder + stepSeconds;
    }
    TruncationFixed(unixSeconds, stepSeconds);
    FloorOfSeconds(value, stepSeconds);
    aligned := (unixSeconds - remainder) * SECOND;
  }

  /** The latest multiple of g that is not after the value. */
  function Floor(value: Instant, g: nat): (f: Instant)
    requires g > 0
    ensures f <= value < f + g
  {
    value / g * g
  }

  lemma TruncationFixed(a: int, b: int)
    requires b > 0
    ensures var r := TruncatedRemainder(a, b);
            (if r < 0 then r + b else r) == a % b
  {
    if a < 0 {
      var q, r := (-a) / b, (-a) % b;
      assert -a == q * b + r;
      if r == 0 { QuotientIsUnique(a, b, -q, 0); } else { QuotientIsUnique(a, b, -q - 1, b - r); }
    }
  }

  lemma QuotientIsUnique(a: int, b: int, q: int, r: int)
    requires b > 0 && a == q * b + r && 0 <= r < b
    ensures a / b == q && a % b == r
  {
    var d := a / b - q;
    assert a == (a / b) * b + a % b;
    assert d * b == r - a % b;
    assert d >= 1 ==> d * b >= b;
    assert d <= -1 ==> d * b <= -b;
  }

  /** Flooring to seconds first loses nothing when the step is a whole number of seconds. */
  lemma FloorOfSeconds(value: int, step: nat)
    requires step > 0
    ensures (value / SECOND - (value / SECOND) % step) * SECOND == Floor(value, step * SECOND)
  {
    var seconds := value / SECOND;
    var q, r := seconds / step, seconds % step;
    assert seconds == q * step + r;
    var low := r * SECOND + value % SECOND;
    assert value == seconds * SECOND + value % SECOND;
    assert (q * step + r) * SECOND == q * (step * SECOND) + r * SECOND;
    assert r * SECOND <= (step - 1) * SECOND;
    QuotientIsUnique(value, step * SECOND, q, low);
    assert (seconds - r) * SECOND == q * step * SECOND;
    assert q * step * SECOND == q * (step * SECOND);
  }

  // ---- counting ----

  /** The number of aligned steps before the end, in closed form. */
  function Count(start: Instant, end: Instant, g: nat): (n: nat)
    requires g > 0 && start < end
    ensures n >= 1
  {
    QuotientIsMonotone(start, end - 1, g);
    (end - 1) / g - start / g + 1
  }

  lemma QuotientIsMonotone(a: int, b: int, g: nat)
    requires g > 0 && a <= b
    ensures a / g <= b / g
  {
    var p, q := a / g, b / g;
    assert a == p * g + a % g && b == q * g + b % g;
    assert p > q ==> p * g >= (q + 1) * g;
  }

  /** Step k lies before the end exactly when k is below the count. */
  lemma StepBeforeEndIffCounted(start: Instant, end: Instant, g: nat, k: nat)
    requires g > 0 && start < end
    ensures Floor(start, g) + k * g < end <==> k < Count(start, end, g)
  {
    var first, last := start / g, (end - 1) / g;
    assert end - 1 == last * g + (end - 1) % g;
    assert (first + k) * g == first * g + k * g;
    if k < Count(start, end, g) {
      assert (first + k) * g <= last * g;
    } else {
      assert (first + k) * g >= (last + 1) * g;
    }
  }

  /** Whether the window has a time series with more buckets than allowed. */
  predicate TooMany(w: Window) {
    w.granularity > 0 && w.start < w.end && Count(w.start, w.end, w.granularity) > MAX_BUCKETS
  }

  predicate Usable(w: Window) {
    w.granularity == 0 || WholeSeconds(w.granularity)
  }

  /** Counts by stepping, and gives up after 512 steps. */
  method ValidateBucketCount(w: Window) returns (ok: bool)
    requires Usable(w)
    ensures ok <==> !TooMany(w)
  {
    if w.granularity == 0 || w.start >= w.end {
      return true;
    }
    var count: nat := 0;
    var aligned := AlignUTC(w.start, w.granularity);
    ghost var first := aligned;
    while aligned < w.end
      invariant aligned == first + count * w.granularity
      invariant count <= MAX_BUCKETS
      invariant count <= Count(w.start, w.end, w.granularity)
      decreases MAX_BUCKETS - count
    {
      StepBeforeEndIffCounted(w.start, w.end, w.granularity, count);
      count := count + 1;
      if count > MAX_BUCKETS {
        return false;
      }
      aligned := aligned + w.granularity;
    }
    StepBeforeEndIffCounted(w.start, w.end, w.granularity, count);
    return true;
  }

  // ---- buckets ----

  function BucketAt(w: Window, k: nat): Bucket
    requires w.granularity > 0
  {
    var aligned := Floor(w.start, w.granularity) + k * w.granularity;
    Bucket(aligned,
           if aligned < w.start then w.start else aligned,
           if aligned + w.granularity > w.end then w.end else aligned + w.granularity)
  }

  function BucketList(w: Window): (buckets: seq<Bucket>)
    requires w.granularity > 0 && w.start < w.end
    ensures |buckets| == Count(w.start, w.end, w.granularity)
    ensures forall k :: 0 <= k < |buckets| ==> buckets[k] == BucketAt(w, k)
  {
    seq(Count(w.start, w.end, w.granularity), k requires 0 <= k => BucketAt(w, k))
  }

  method Buckets(w: Window) returns (result: Result<seq<Bucket>>)
    requires Usable(w)
    ensures result == if !w.startResolved then Err("period", InvalidRange)
                      else if w.granularity == 0 || w.start >= w.end then Ok([])
                      else if TooMany(w) then Err("granularity", TooManyBuckets)
                      else Ok(BucketList(w))
  {
    if !w.startResolved {
      return Err("period", InvalidRange);
    }
    if w.granularity == 0 || w.start >= w.end {
      return Ok([]);
    }
    var ok := ValidateBucketCount(w);
    if !ok {
      return Err("granularity", TooManyBuckets);
    }
    var buckets: seq<Bucket> := [];
    var aligned := AlignUTC(w.start, w.granularity);
    while aligned < w.end
      invariant aligned == Floor(w.start, w.granularity) + |buckets| * w.granularity
      invariant |buckets| <= Count(w.start, w.end, w.granularity)
      invariant forall k :: 0 <= k < |buckets| ==> buckets[k] == BucketAt(w, k)
      decreases Count(w.start, w.end, w.granularity) - |buckets|
    {
      StepBeforeEndIffCounted(w.start, w.end, w.granularity, |buckets|);
      var start := aligned;
      if start < w.start {
        start := w.start;
      }
      var end := aligned + w.granularity;
      if end > w.end {
        end := w.end;
      }
      buckets := buckets + [Bucket(aligned, start, end)];
      aligned := aligned + w.granularity;
    }
    StepBeforeEndIffCounted(w.start, w.end, w.granularity, |buckets|);
    assert buckets == BucketList(w);
    return Ok(buckets);
  }

  predicate Holds(b: Bucket, t: Instant) {
    b.start <= t < b.end
  }

  /** Instant t belongs to bucket k exactly when k is the distance of its aligned start from the first. */
  lemma BucketOfInstant(w: Window, t: Instant, k: nat)
    requires w.granularity > 0 && w.start <= t < w.end && k < Count(w.start, w.end, w.granularity)
    ensures Holds(BucketAt(w, k), t) <==> k == t / w.granularity - w.start / w.granularity
    ensures Holds(BucketAt(w, k), t) ==> BucketAt(w, k).aligned == Floor(t, w.granularity)
  {
    var g := w.granularity;
    var first := w.start / g;
    assert first * g + k * g == (first + k) * g;
    if Holds(BucketAt(w, k), t) {
      QuotientIsUnique(t, g, first + k, t - (first + k) * g);
    }
  }

  /** The index of the bucket that must hold an instant. */
  function IndexOf(w: Window, t: Instant): int
    requires w.granularity > 0
  {
    t / w.granularity - w.start / w.granularity
  }

  /** The instant lies in the bucket of its index, keyed by its own aligned start, and in no other. */
  ghost predicate InExactlyOne(w: Window, t: Instant)
    requires w.granularity > 0 && w.start < w.end
  {
    && 0 <= IndexOf(w, t) < |BucketList(w)|
    && BucketList(w)[IndexOf(w, t)].aligned == Floor(t, w.granularity)
    && forall j :: 0 <= j < |BucketList(w)| ==> (Holds(BucketList(w)[j], t) <==> j == IndexOf(w, t))
  }

  /**
   The buckets partition [start, end) for every pair of instants: they start and end where the
   window does, are non-empty and contiguous, and every instant lies in exactly one of them.
   */
  lemma BucketsPartitionTheWindow(w: Window)
    requires w.granularity > 0 && w.start < w.end
    ensures var bs := BucketList(w);
            && bs[0].start == w.start && bs[|bs| - 1].end == w.end
            && (forall k :: 0 <= k < |bs| ==> bs[k].start < bs[k].end)
            && (forall k :: 0 < k < |bs| ==> bs[k - 1].end == bs[k].start)
    ensures forall t :: w.start <= t < w.end ==> InExactlyOne(w, t)
  {
    var n := Count(w.start, w.end, w.granularity);
    EndsMeetTheWindow(w);
    forall k | 0 <= k < n
      ensures BucketAt(w, k).start < BucketAt(w, k).end && (k > 0 ==> BucketAt(w, k - 1).end == BucketAt(w, k).start)
    {
      NeighboursMeet(w, k);
    }
    forall t | w.start <= t < w.end ensures InExactlyOne(w, t) { OneBucketPerInstant(w, t); }
  }

  lemma EndsMeetTheWindow(w: Window)
    requires w.granularity > 0 && w.start < w.end
    ensures BucketAt(w, 0).start == w.start
    ensures BucketAt(w, Count(w.start, w.end, w.granularity) - 1).end == w.end
  {
    var g, n := w.granularity, Count(w.start, w.end, w.granularity);
    StepBeforeEndIffCounted(w.start, w.end, g, n - 1);
    StepBeforeEndIffCounted(w.start, w.end, g, n);
    assert n * g == (n - 1) * g + g;
  }

  lemma OneBucketPerInstant(w: Window, t: Instant)
    requires w.granularity > 0 && w.start <= t < w.end
    ensures InExactlyOne(w, t)
  {
    QuotientIsMonotone(w.start, t, w.granularity);
    QuotientIsMonotone(t, w.end - 1, w.granularity);
    var n := Count(w.start, w.end, w.granularity);
    forall j | 0 <= j < n ensures Holds(BucketAt(w, j), t) <==> j == IndexOf(w, t) { BucketOfInstant(w, t, j); }
    BucketOfInstant(w, t, IndexOf(w, t));
  }

  lemma NeighboursMeet(w: Window, k: nat)
    requires w.granularity > 0 && w.start < w.end && k < Count(w.start, w.end, w.granularity)
    ensures BucketAt(w, k).start < BucketAt(w, k).end
    ensures k > 0 ==> BucketAt(w, k - 1).end == BucketAt(w, k).start
  {
    var first, g := Floor(w.start, w.granularity), w.granularity;
    StepBeforeEndIffCounted(w.start, w.end, g, k);
    assert k >= 1 ==> k * g >= g;
    assert k * g == (k - 1) * g + g;
    var aligned := first + k * g;
    assert aligned < w.end && (k > 0 ==> w.start < aligned);
  }

  /** A window of n whole steps has n buckets when its start is aligned and n + 1 when it is not. */
  lemma WholeStepsCount(start: Instant, g: nat, n: nat)
    requires g > 0 && n > 0
    ensures n * g > 0
    ensures Count(start, start + n * g, g) == if start % g == 0 then n else n + 1
  {
    var q, r := start / g, start % g;
    assert start == q * g + r;
    assert n * g >= g;
    assert start + n * g - 1 == (q + n) * g + r - 1;
    if r == 0 {
      assert (q + n) * g + r - 1 == (q + n - 1) * g + (g - 1);
      QuotientIsUnique(start + n * g - 1, g, q + n - 1, g - 1);
    } else {
      QuotientIsUnique(start + n * g - 1, g, q + n, r - 1);
    }
  }

  // ---- resolving a request ----

  function PeriodNamed(name: string): Option<Period> {
    match name
    case "24h" => Some(Hours24)
    case "7d" => Some(Days7)
    case "30d" => Some(Days30)
    case "all" => Some(AllTime)
    case _ => None
  }

  function Duration(p: Period): nat {
    match p
    case Hours24 => DAY
    case Days7 => 7 * DAY
    case Days30 => 30 * DAY
    case AllTime => 0
  }

  function GranularityNamed(name: string): Option<nat> {
    match name
    case "5m" => Some(5 * MINUTE)
    case "15m" => Some(15 * MINUTE)
    case "1h" => Some(HOUR)
    case "6h" => Some(6 * HOUR)
    case "1d" => Some(DAY)
    case _ => None
  }

  function Minimum(p: Period): nat {
    match p
    case Hours24 => 5 * MINUTE
    case Days7 => HOUR
    case Days30 => 6 * HOUR
    case AllTime => DAY
  }

  function DefaultGranularity(p: Period): string {
    match p
    case Hours24 => "1h"
    case Days7 => "6h"
    case Days30 => "1d"
    case AllTime => "1d"
  }

  predicate InRange(t: Instant) {
    MIN_NANOS <= t <= MAX_NANOS
  }

  /** The query values: every field given, with all the values given for it. */
  type Query = map<string, seq<string>>

  function Scalar(q: Query, field: string): Result<Option<string>> {
    if field !in q then Ok(None)
    else if |q[field]| == 0 then Err(field, Blank)
    else if |q[field]| > 1 then Err(field, Duplicate)
    else if Text.TrimSpace(q[field][0]) == "" then Err(field, Blank)
    else Ok(Some(q[field][0]))
  }

  function ResolvePeriod(q: Query): Result<Period> {
    match Scalar(q, "period")
    case Err(f, r) => Err(f, r)
    case Ok(given) =>
      var p := PeriodNamed(if given.Some? then given.value else "24h");
      if p.Some? then Ok(p.value) else Err("period", Unsupported)
  }

  /** The granularity's name and length; an empty name and 0 when there is none. */
  function ResolveGranularity(q: Query, p: Period, useDefault: bool): Result<(string, nat)> {
    match Scalar(q, "granularity")
    case Err(f, r) => Err(f, r)
    case Ok(given) =>
      if given.None? && !useDefault then Ok(("", 0))
      else
        var name := if given.Some? then given.value else DefaultGranularity(p);
        var g := GranularityNamed(name);
        if g.None? then Err("granularity", Unsupported)
        else if g.value < Minimum(p) then Err("granularity", Incompatible)
        else Ok((name, g.value))
  }

  /** parse reads a timestamp, or fails; now is the clock's reading. */
  function ResolveEnd(q: Query, parse: string -> Option<Instant>, now: Instant): Result<Instant> {
    match Scalar(q, "as_of")
    case Err(f, r) => Err(f, r)
    case Ok(given) =>
      if given.Some? && parse(given.value).None? then Err("as_of", Malformed)
      else
        var end := if given.Some? then parse(given.value).value else now;
        if InRange(end) then Ok(end) else Err("as_of", OutOfRange)
  }

  function Placed(p: Period, name: string, g: nat, end: Instant): Result<Window> {
    if p.AllTime? then Ok(Window(p, name, g, 0, end, false))
    else
      var w := Window(p, name, g, end - Duration(p), end, true);
      if !InRange(w.start) then Err("as_of", OutOfRange)
      else if TooMany(w) then Err("granularity", TooManyBuckets)
      else Ok(w)
  }

  function Resolve(q: Query, useDefault: bool, parse: string -> Option<Instant>, now: Instant): Result<Window> {
    match ResolvePeriod(q)
    case Err(f, r) => Err(f, r)
    case Ok(p) =>
      match ResolveGranularity(q, p, useDefault)
      case Err(f, r) => Err(f, r)
      case Ok(g) =>
        match ResolveEnd(q, parse, now)
        case Err(f, r) => Err(f, r)
        case Ok(end) => Placed(p, g.0, g.1, end)
  }

  function ResolveAll(w: Window, earliest: Option<Instant>): Result<Window> {
    if w.startResolved then Ok(w)
    else if earliest.None? then Ok(w.(start := w.end, startResolved := true))
    else
      var resolved := w.(start := earliest.value, startResolved := true);
      if !InRange(earliest.value) then Err("period", OutOfRange)
      else if earliest.value >= w.end then Err("period", InvalidRange)
      else if TooMany(resolved) then Err("granularity", TooManyBuckets)
      else Ok(resolved)
  }

  /** A granularity the table allows with the period. */
  predicate Permitted(p: Period, g: nat) {
    g in {5 * MINUTE, 15 * MINUTE, HOUR, 6 * HOUR, DAY} && g >= Minimum(p)
  }

  /** How many steps a fixed period has. */
  function Steps(p: Period, g: nat): (n: nat)
    requires !p.AllTime? && Permitted(p, g)
    ensures Duration(p) == n * g && 0 < n <= 288
  {
    match p
    case Hours24 => if g == 5 * MINUTE then 288 else if g == 15 * MINUTE then 96 else if g == HOUR then 24 else if g == 6 * HOUR then 4 else 1
    case Days7 => if g == HOUR then 168 else if g == 6 * HOUR then 28 else 7
    case Days30 => if g == 6 * HOUR then 120 else 30
  }

  /** Fixed periods never come near the limit: with every permitted granularity they have at most 289 buckets. */
  lemma FixedPeriodsFit(p: Period, g: nat, end: Instant)
    requires !p.AllTime? && Permitted(p, g)
    ensures Count(end - Duration(p), end, g) <= 289
  {
    WholeStepsCount(end - Duration(p), g, Steps(p, g));
  }

  /** So the too-many-buckets error of Resolve is unreachable. */
  lemma ResolveNeverHasTooManyBuckets(q: Query, useDefault: bool, parse: string -> Option<Instant>, now: Instant)
    ensures Resolve(q, useDefault, parse, now) != Err("granularity", TooManyBuckets)
  {
    var p := ResolvePeriod(q);
    if p.Ok? && !p.value.AllTime? {
      var g := ResolveGranularity(q, p.value, useDefault);
      var end := ResolveEnd(q, parse, now);
      if g.Ok? && g.value.1 > 0 && end.Ok? {
        FixedPeriodsFit(p.value, g.value.1, end.value);
      }
    }
  }

  // ---- what a request asks for, as the table says it in seconds ----

  /** A row of the table: a period's name, its length, its finest and its usual granularity. */
  predicate PeriodRow(name: string, p: Period, length: nat, finest: nat, usual: string) {
    || (name == "24h" && p == Hours24 && length == 86_400 && finest == 300 && usual == "1h")
    || (name == "7d" && p == Days7 && length == 604_800 && finest == 3_600 && usual == "6h")
    || (name == "30d" && p == Days30 && length == 2_592_000 && finest == 21_600 && usual == "1d")
    || (name == "all" && p == AllTime && length == 0 && finest == 86_400 && usual == "1d")
  }

  predicate GranularityRow(name: string, length: nat) {
    || (name == "5m" && length == 300)
    || (name == "15m" && length == 900)
    || (name == "1h" && length == 3_600)
    || (name == "6h" && length == 21_600)
    || (name == "1d" && length == 86_400)
  }

  /** A field is given once and is not blank, or is not given. */
  predicate AtMostOnce(q: Query, field: string) {
    field in q ==> |q[field]| == 1 && Text.TrimSpace(q[field][0]) != ""
  }

  function Given(q: Query, field: string, otherwise: string): string {
    if field in q && |q[field]| > 0 then q[field][0] else otherwise
  }

  /** The instant that the request ends at, if it says a readable one. */
  function EndOf(q: Query, parse: string -> Option<Instant>, now: Instant): Option<Instant> {
    if "as_of" in q && |q["as_of"]| > 0 then parse(q["as_of"][0]) else Some(now)
  }

  /** The window has the granularity of that name, which is no finer than the period allows; no name, no granularity. */
  predicate HasGranularity(w: Window, name: string, finest: nat) {
    && w.granularityName == name
    && if name == "" then w.granularity == 0
       else GranularityRow(name, w.granularity / SECOND) && w.granularity % SECOND == 0 && w.granularity >= finest * SECOND
  }

  /** The window ends when the request says and is as long as its period; all of time has no start yet. */
  predicate Spans(w: Window, end: Option<Instant>, length: nat) {
    && end == Some(w.end) && InRange(w.end)
    && if w.period.AllTime? then !w.startResolved && w.start == 0
       else w.startResolved && w.start == w.end - length * SECOND && InRange(w.start)
  }

  ghost predicate AsksFor(q: Query, useDefault: bool, parse: string -> Option<Instant>, now: Instant, w: Window) {
    && AtMostOnce(q, "period") && AtMostOnce(q, "granularity") && AtMostOnce(q, "as_of")
    && exists length, finest, usual ::
         && PeriodRow(Given(q, "period", "24h"), w.period, length, finest, usual)
         && HasGranularity(w, Given(q, "granularity", if useDefault then usual else ""), finest)
         && Spans(w, EndOf(q, parse, now), length)
  }

  lemma GranularityLengths(name: string, length: nat)
    ensures GranularityNamed(name) == Some(length) <==> length % SECOND == 0 && GranularityRow(name, length / SECOND)
  {
  }

  lemma PeriodLengths(name: string, p: Period, length: nat, finest: nat, usual: string)
    ensures PeriodRow(name, p, length, finest, usual) <==>
            PeriodNamed(name) == Some(p) && Duration(p) == length * SECOND && Minimum(p) == finest * SECOND &&
            DefaultGranularity(p) == usual
  {
  }

  lemma PlacedMeans(p: Period, name: string, g: nat, end: Instant, w: Window)
    requires g == 0 || Permitted(p, g)
    ensures Placed(p, name, g, end) == Ok(w) <==>
            && w.period == p && w.granularityName == name && w.granularity == g && w.end == end
            && if p.AllTime? then !w.startResolved && w.start == 0
               else w.startResolved && w.start == end - Duration(p) && InRange(w.start)
  {
    if !p.AllTime? && g > 0 { FixedPeriodsFit(p, g, end); }
  }

  lemma PeriodMeans(q: Query, p: Period)
    ensures ResolvePeriod(q) == Ok(p) <==> AtMostOnce(q, "period") && PeriodNamed(Given(q, "period", "24h")) == Some(p)
  {
  }

  lemma GranularityMeans(q: Query, p: Period, useDefault: bool, name: string, g: nat)
    ensures ResolveGranularity(q, p, useDefault) == Ok((name, g)) <==>
            && AtMostOnce(q, "granularity")
            && name == Given(q, "granularity", if useDefault then DefaultGranularity(p) else "")
            && if name == "" then g == 0 else GranularityNamed(name) == Some(g) && g >= Minimum(p)
  {
    Text.TrimmedIffFixed("");
  }

  lemma EndMeans(q: Query, parse: string -> Option<Instant>, now: Instant, end: Instant)
    ensures ResolveEnd(q, parse, now) == Ok(end) <==> AtMostOnce(q, "as_of") && EndOf(q, parse, now) == Some(end) && InRange(end)
  {
  }

  lemma ResolvedIsAskedFor(q: Query, useDefault: bool, parse: string -> Option<Instant>, now: Instant, w: Window)
    requires Resolve(q, useDefault, parse, now) == Ok(w)
    ensures AsksFor(q, useDefault, parse, now, w)
  {
    ResolvedWindowsAreWell(q, useDefault, parse, now);
    var p, name := ResolvePeriod(q).value, w.granularityName;
    PeriodMeans(q, p);
    GranularityMeans(q, p, useDefault, name, w.granularity);
    EndMeans(q, parse, now, w.end);
    GranularityLengths(name, w.granularity);
    PlacedMeans(p, name, w.granularity, w.end, w);
    PeriodLengths(Given(q, "period", "24h"), p, Duration(p) / SECOND, Minimum(p) / SECOND, DefaultGranularity(p));
    assert PeriodRow(Given(q, "period", "24h"), w.period, Duration(p) / SECOND, Minimum(p) / SECOND, DefaultGranularity(p));
  }

  lemma AskedForIsResolved(q: Query, useDefault: bool, parse: string -> Option<Instant>, now: Instant, w: Window)
    requires AsksFor(q, useDefault, parse, now, w)
    ensures Resolve(q, useDefault, parse, now) == Ok(w)
  {
    var p, name := w.period, w.granularityName;
    var length, finest, usual :|
      && PeriodRow(Given(q, "period", "24h"), p, length, finest, usual)
      && HasGranularity(w, Given(q, "granularity", if useDefault then usual else ""), finest)
      && Spans(w, EndOf(q, parse, now), length);
    PeriodLengths(Given(q, "period", "24h"), p, length, finest, usual);
    PeriodMeans(q, p);
    GranularityLengths(name, w.granularity);
    GranularityMeans(q, p, useDefault, name, w.granularity);
    EndMeans(q, parse, now, w.end);
    PlacedMeans(p, name, w.granularity, w.end, w);
  }

  /** A request resolves to a window exactly when it asks for that window, as the table in seconds reads. */
  lemma ResolvesIffAskedFor(q: Query, useDefault: bool, parse: string -> Option<Instant>, now: Instant, w: Window)
    ensures Resolve(q, useDefault, parse, now) == Ok(w) <==> AsksFor(q, useDefault, parse, now, w)
  {
    if Resolve(q, useDefault, parse, now) == Ok(w) { ResolvedIsAskedFor(q, useDefault, parse, now, w); }
    if AsksFor(q, useDefault, parse, now, w) { AskedForIsResolved(q, useDefault, parse, now, w); }
  }

  /** What Resolve returns: the exact period before the end, or no start yet, with a permitted granularity or none. */
  ghost predicate WellResolved(w: Window) {
    && (w.granularity == 0 || Permitted(w.period, w.granularity))
    && InRange(w.end)
    && (w.startResolved <==> !w.period.AllTime?)
    && (w.startResolved ==> w.start == w.end - Duration(w.period) && InRange(w.start))
  }

  lemma ResolvedWindowsAreWell(q: Query, useDefault: bool, parse: string -> Option<Instant>, now: Instant)
    ensures Resolve(q, useDefault, parse, now).Ok? ==> WellResolved(Resolve(q, useDefault, parse, now).value)
    ensures Resolve(q, useDefault, parse, now).Ok? && useDefault ==> Resolve(q, useDefault, parse, now).value.granularity > 0
  {
  }

  /** From a resolved request to buckets nothing can fail any more: the result is empty or a partition. */
  lemma ResolvedWindowsHaveBuckets(w: Window, earliest: Option<Instant>)
    requires WellResolved(w) && ResolveAll(w, earliest).Ok?
    ensures var r := ResolveAll(w, earliest).value;
            && r.startResolved && Usable(r) && !TooMany(r)
            && r.end == w.end && r.granularity == w.granularity
            && r.start == (if w.startResolved then w.start else if earliest.Some? then earliest.value else w.end)
  {
    if w.startResolved && w.granularity > 0 {
      FixedPeriodsFit(w.period, w.granularity, w.end);
    }
  }

  /**
   All of time resolves against the earliest row exactly when there is none, or when that row can
   be written as an instant before the end and the buckets from it are not too many.
   */
  lemma AllOfTimeResolvesIff(w: Window, earliest: Option<Instant>)
    requires !w.startResolved
    ensures ResolveAll(w, earliest).Ok? <==>
            earliest.None? ||
            (MIN_NANOS <= earliest.value <= MAX_NANOS && earliest.value < w.end &&
             (w.granularity > 0 ==> Count(earliest.value, w.end, w.granularity) <= 512))
    ensures ResolveAll(w, earliest) == Err("period", InvalidRange) <==>
            earliest.Some? && MIN_NANOS <= earliest.value <= MAX_NANOS && earliest.value >= w.end
  {
  }

  /**
   From an accepted request to its buckets: whatever the earliest row is, if it does not make
   ResolveAll fail, the window has its buckets, never too many, and covers what was asked for.
   */
  lemma AcceptedRequestsHaveBuckets(q: Query, useDefault: bool, parse: string -> Option<Instant>, now: Instant,
                                    earliest: Option<Instant>)
    requires Resolve(q, useDefault, parse, now).Ok?
    requires ResolveAll(Resolve(q, useDefault, parse, now).value, earliest).Ok?
    ensures var w := Resolve(q, useDefault, parse, now).value;
            var r := ResolveAll(w, earliest).value;
            && r.startResolved && Usable(r) && !TooMany(r) && r.end == w.end
            && (!w.period.AllTime? ==> r.start == r.end - Duration(w.period))
            && (w.period.AllTime? ==> r.start == if earliest.Some? then earliest.value else r.end)
            && (useDefault ==> r.granularity > 0)
  {
    ResolvedWindowsAreWell(q, useDefault, parse, now);
    ResolvedWindowsHaveBuckets(Resolve(q, useDefault, parse, now).value, earliest);
  }
}
