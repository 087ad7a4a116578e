/** The usage record shared by every list of the firmware
    (`WaterUsageTimed` and its subclasses `WaterUsageSession` and
    `WaterUsageNamed`). The C++ bit flags become a set of named flags; the
    subclass is a `Kind` that only decides which flags a default-built
    record starts with. The wall clock (`sntp_time->timestamp_now()`) is the
    explicit parameter `now`. */
module Records {

  /** `start_on_first_usage`, and the three flags of a named unit. */
  datatype Flag = StartOnFirstUsage | Active | Closed | Canceled

  /** Period lists hold plain records, the session list holds records
      that start on first usage, the named list holds named units. */
  datatype Kind = Period | Session | Named

  datatype Record = Record(
    startTime: int,     // 0 while not started
    seconds: int,       // 0 while open, the duration once closed
    usage: real,
    flags: set<Flag>,
    name: string,
    expireTime: int     // meaningful for named units only
  )

  /** A default-constructed record of the given kind. */
  function Blank(kind: Kind): (r: Record)
    ensures !IsStarted(r) && r.seconds == 0 && r.usage == 0.0
    ensures r.name == [] && r.expireTime == 0
    ensures StartOnFirstUsage in r.flags <==> kind == Session
    ensures Active !in r.flags && Closed !in r.flags && Canceled !in r.flags
  {
    Record(0, 0, 0.0, if kind == Session then {StartOnFirstUsage} else {}, [], 0)
  }

  predicate IsStarted(r: Record) {
    r.startTime != 0
  }

  /** `start(flags)`: stamps the start time and adds the given flags. */
  function Start(r: Record, now: int, add: set<Flag>): (r': Record)
    ensures r'.startTime == now && r'.flags == r.flags + add
    ensures r'.usage == r.usage && r'.seconds == r.seconds && r'.name == r.name
    ensures r'.expireTime == r.expireTime
  {
    r.(startTime := now, flags := r.flags + add)
  }

  /** `init()`: clears usage, duration and name, starts the record at once
      unless it starts on first usage, and keeps every flag. */
  function Init(r: Record, now: int): (r': Record)
    ensures r'.usage == 0.0 && r'.seconds == 0 && r'.name == []
    ensures r'.flags == r.flags && r'.expireTime == r.expireTime
    ensures r'.startTime == (if StartOnFirstUsage in r.flags then 0 else now)
  {
    var cleared := r.(startTime := 0, usage := 0.0, seconds := 0, name := []);
    if StartOnFirstUsage !in r.flags then Start(cleared, now, {}) else cleared
  }

  /** An end time of 0 means "now", as in `timeSoFar` and `close`. */
  function EndOrNow(endTime: int, now: int): int {
    if endTime != 0 then endTime else now
  }

  /** `timeSoFar(endtime)`. */
  function TimeSoFar(r: Record, endTime: int, now: int): (t: int)
    ensures endTime != 0 ==> r.startTime + t == endTime
    ensures endTime == 0 ==> r.startTime + t == now
  {
    EndOrNow(endTime, now) - r.startTime
  }

  /** `close(endtime)`: records the duration up to the end time. */
  function Close(r: Record, endTime: int, now: int): (r': Record)
    ensures r'.seconds == TimeSoFar(r, endTime, now)
    ensures r' == r.(seconds := r'.seconds)
  {
    r.(seconds := EndOrNow(endTime, now) - r.startTime)
  }

  /** `addUsage(v)`: starts a record that has not started, then accumulates. */
  function AddUsage(r: Record, v: real, now: int): (r': Record)
    ensures r'.usage == r.usage + v
    ensures IsStarted(r) ==> r'.startTime == r.startTime
    ensures !IsStarted(r) ==> r'.startTime == now
    ensures r'.flags == r.flags && r'.seconds == r.seconds && r'.name == r.name
    ensures r'.expireTime == r.expireTime
  {
    var s := if !IsStarted(r) then Start(r, now, {}) else r;
    s.(usage := s.usage + v)
  }

  /** `convert_uom(f)`: re-expresses the usage, nothing else. */
  function Convert(r: Record, f: real -> real): (r': Record)
    ensures r' == r.(usage := f(r.usage))
  {
    r.(usage := f(r.usage))
  }

  /** A conversion undone by its inverse gives the record back: only the
      usage is re-expressed, and nothing is lost on the way. */
  lemma ConvertInverse(r: Record, f: real -> real, g: real -> real)
    requires forall x :: g(f(x)) == x
    ensures Convert(Convert(r, f), g) == r
  {
  }

  /** Two additions to a started record are one addition of the sum: the
      start time is the one of the first contribution. */
  lemma AddUsageTwice(r: Record, a: real, b: real, now1: int, now2: int)
    requires now1 != 0
    ensures AddUsage(AddUsage(r, a, now1), b, now2) == AddUsage(r, a + b, now1)
  {
  }
}
