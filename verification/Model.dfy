/** The wire model, as far as scheduling and reporting read it. */
module Model {
  import opened Wrappers

  /** Instants are integer nanoseconds from the epoch, within the range of `jiff::Timestamp`. */
  const MIN_TIME: int := -377_705_023_201_000_000_000
  const MAX_TIME: int := 253_402_207_200_999_999_999
  const NANOS_PER_SECOND: int := 1_000_000_000

  type Timestamp = t: int | MIN_TIME <= t <= MAX_TIME witness 0

  /** `shift` and every other checked addition: `None` outside the representable range. */
  function Shift(t: Timestamp, nanos: int): (r: Option<Timestamp>)
    ensures r.Some? <==> MIN_TIME <= t + nanos <= MAX_TIME
    ensures r.Some? ==> r.value == t + nanos
  {
    if MIN_TIME <= t + nanos <= MAX_TIME then Some(t + nanos) else None
  }

  /** The calendar and clock fields of a bounded duration. */
  datatype Span = Span(months: int, days: int, nanos: int)

  datatype Duration = Forever | Finite(span: Span)

  /** UTC calendar addition belongs to a library; `None` is its out-of-range error. */
  type Calendar = (Span, Timestamp) -> Option<Timestamp>

  /** `0001-01-01` means "now"; anything else is an instant. */
  datatype StartTime = Now | At(instant: Timestamp)

  function Resolve(s: StartTime, now: Timestamp): Timestamp {
    match s
    case Now => now
    case At(t) => t
  }

  datatype IntervalPeriod = IntervalPeriod(
    start: Option<StartTime>,
    duration: Option<Duration>,
    randomizeStart: Option<Duration>)

  type PayloadType = string

  /** One payload value. Decimals are exact. */
  datatype Value =
    | Integer(i: int)
    | Number(d: real)
    | Boolean(b: bool)
    | Text(s: string)
    | Point(x: real, y: real)

  datatype ValuesMap = ValuesMap(valueType: PayloadType, values: seq<Value>)

  datatype Interval = Interval(id: int, intervalPeriod: Option<IntervalPeriod>, payloads: seq<ValuesMap>)

  function Letter(c: char): bool {
    'a' <= c <= 'z' || 'A' <= c <= 'Z' || '0' <= c <= '9' || c == '_' || c == '-'
  }

  function Lower(s: string): (r: string)
    ensures |r| == |s|
  {
    seq(|s|, i requires 0 <= i < |s| =>
      if 'A' <= s[i] <= 'Z' then (s[i] as int + 32) as char else s[i])
  }

  /** `ObjectId::validate`: 1 to 128 URL-safe characters, no reserved word. */
  predicate ValidObjectId(s: string) {
    && 1 <= |s| <= 128
    && Lower(s) !in ["null", "undefined", ".", ".."]
    && forall i :: 0 <= i < |s| ==> Letter(s[i])
  }

  /** An id that is certainly valid: no reserved word has three characters. */
  const SOME_ID: string := "evt"

  lemma SomeIdIsValid()
    ensures ValidObjectId(SOME_ID)
  {
    var s := SOME_ID;
    assert |Lower(s)| == 3;
    assert s[0] == 'e' && s[1] == 'v' && s[2] == 't';
  }

  type ObjectId = s: string | ValidObjectId(s) witness (SomeIdIsValid(); SOME_ID)

  /** A missing priority is the least important; otherwise a lower number wins. */
  type Priority = Option<nat>

  predicate PriorityLeq(a: Priority, b: Priority) {
    b.None? || (a.Some? && a.value <= b.value)
  }

  /** The wire's 32-bit integers. */
  type I32 = n: int | -0x8000_0000 <= n < 0x8000_0000

  datatype ReportDescriptor = ReportDescriptor(
    payloadType: PayloadType,
    aggregate: bool,
    startInterval: I32,
    numIntervals: I32,
    historical: bool,
    frequency: I32,
    repeat: I32,
    openIntervals: bool)

  /** The content of an event. */
  datatype EventRequest = EventRequest(
    programId: ObjectId,
    duration: Option<Duration>,
    priority: Priority,
    reportDescriptors: Option<seq<ReportDescriptor>>,
    intervalPeriod: Option<IntervalPeriod>,
    intervals: Option<seq<Interval>>)

  datatype Event = Event(id: ObjectId, modified: Timestamp, content: EventRequest)
}
