/** `dApp`: the controller that owns every usage list, the allowances, the
    unit translation and the over-limit detector, and routes each flow
    sample and each command to them. MQTT publishing becomes the values an
    operation returns; the wall clock is the parameter `now`; whether the
    SNTP clock reports a valid time is the parameter `clockValid`.

    The controller here composes the corrected components. Three of its own
    steps are also modelled as written:
    - the unit-of-measure sweep converts the allowances twice;
    - the calibration guard compares against a field that is never written;
    - the session detector compares a sample's usage (units) with the base
      flow (units per minute). */
module Engine {
  import opened Seqs
  import opened Records
  import RotatingList
  import Sessions
  import NamedUsage
  import Allowances
  import Translation
  import OverLimit
  import FlowSensor
  import Signatures

  /** `WaterUsageList`'s default number of closed records. */
  const DefClosedMax: int := 1
  const DefPublishUsageSecs: int := 60
  const DefTestPeriodSecs: int := 15
  const DefInitialSurgeSecs: int := 30

  /** `time_is_valid_`: -1 not tested yet, 0 tested not valid, 1 valid. */
  const TimeValid: int := 1

  datatype App = App(
    onBootCalled: bool,
    timeIsValid: int,
    calibrateField: real,    // `dApp::calibrate_factor_`, never assigned
    maxUpm: real,            // negative: no flow limit
    maxUpmPlus: real,
    maxUsage: real,          // -1: no usage limit
    maxUsagePlus: real,
    upmBase: real,
    testPeriodSecs: int,
    allowInitialSurgeSecs: int,
    limit: OverLimit.LimitState,
    publishUsageSecs: int,
    secsSinceLastPublish: int,
    xlate: Translation.Manager,
    current: Record,         // `currentWaterUsage`
    hourly: RotatingList.List,
    daily: RotatingList.List,
    session: Sessions.SessionList,
    named: NamedUsage.NamedList,
    allowances: seq<Allowances.Allowance>,
    sensor: FlowSensor.Sensor
  )

  predicate Valid(a: App) {
    && RotatingList.Valid(a.hourly) && RotatingList.Valid(a.daily)
    && Sessions.Valid(a.session) && NamedUsage.Valid(a.named)
    && Translation.Valid(a.xlate) && FlowSensor.Consistent(a.sensor)
  }

  /** The controller as constructed, before `on_boot`. */
  function Create(): (a: App)
    ensures Valid(a) && !a.onBootCalled && a.timeIsValid == -1
    ensures a.maxUpm < 0.0 && a.maxUsage == -1.0 && a.allowances == []
    ensures a.limit == OverLimit.Initial(Limits(a))
  {
    App(false, -1, 1.0, -1.0, 0.0, -1.0, -1.0, 0.0, DefTestPeriodSecs, DefInitialSurgeSecs,
        OverLimit.LimitState(DefInitialSurgeSecs, 0, false), DefPublishUsageSecs, 0,
        Translation.Create(), Blank(Kind.Period),
        RotatingList.Create(Kind.Period, DefClosedMax), RotatingList.Create(Kind.Period, DefClosedMax),
        Sessions.Create(), NamedUsage.Create(), [], FlowSensor.Create())
  }

  /** The thresholds the over-limit step reads. */
  function Limits(a: App): OverLimit.Limits {
    OverLimit.Limits(a.upmBase, a.maxUpmPlus, a.testPeriodSecs, a.allowInitialSurgeSecs)
  }

  // ---------------------------------------------------------------------
  // Limits

  /** The raised maxima agree with the maxima and the allowances held:
      a flow maximum that is set is raised by the allowances' rates, an
      unset one stays unset, and a usage maximum that is set is raised by
      the allowances' usages. */
  predicate PlusCurrent(r: App) {
    && (r.maxUpm < 0.0 ==> r.maxUpmPlus == r.maxUpm)
    && (r.maxUpm >= 0.0 ==> r.maxUpmPlus == r.maxUpm + Allowances.SumUpm(r.allowances))
    && (r.maxUsage > 0.0 ==> r.maxUsagePlus == r.maxUsage + Allowances.SumUsage(r.allowances))
  }

  /** `calc_max_plus_values()`: erases the expired allowances and raises
      the maxima by what the live ones allow. */
  function CalcMaxPlus(a: App, now: int): (r: App)
    ensures PlusCurrent(r)
    ensures r.allowances == Allowances.Purge(a.allowances, now)
    ensures a.maxUpm < 0.0 ==> r.maxUpmPlus == a.maxUpm
    ensures a.maxUpm >= 0.0 ==> r.maxUpmPlus == a.maxUpm + Allowances.SumUpm(r.allowances)
    ensures a.maxUsage > 0.0 ==> r.maxUsagePlus == a.maxUsage + Allowances.SumUsage(r.allowances)
    ensures a.maxUsage <= 0.0 ==> r.maxUsagePlus == a.maxUsagePlus
    ensures r == a.(allowances := r.allowances, maxUpmPlus := r.maxUpmPlus,
                    maxUsagePlus := r.maxUsagePlus)
  {
    var kept := Allowances.Purge(a.allowances, now);
    var (upmPlus, usagePlus) := Allowances.MaxPlus(a.maxUpm, a.maxUsage, a.maxUsagePlus,
      Allowances.SumUpm(kept), Allowances.SumUsage(kept));
    a.(allowances := kept, maxUpmPlus := upmPlus, maxUsagePlus := usagePlus)
  }

  /** `on_boot(app, off, on)`: starts the sensor, computes the limits and
      lets samples through. */
  function Boot(a: App, offSecs: int, onSecs: int, now: int): (r: App)
    requires Valid(a)
    ensures Valid(r) && r.onBootCalled
    ensures r.sensor.wfOffSecs == offSecs && r.sensor.wfOnSecs == onSecs
    ensures !r.sensor.inWfOnMode && r.sensor.rp.reportOnNextAdd
    ensures r.sensor == FlowSensor.OnStartInit(a.sensor, offSecs, onSecs)
    // `calc_max_plus_values()`: expired allowances erased, the limits raised by the rest
    ensures r.allowances == Allowances.Purge(a.allowances, now) && PlusCurrent(r)
    ensures r == a.(onBootCalled := true, sensor := r.sensor, allowances := r.allowances,
                    maxUpmPlus := r.maxUpmPlus, maxUsagePlus := r.maxUsagePlus)
  {
    CalcMaxPlus(a.(sensor := FlowSensor.OnStartInit(a.sensor, offSecs, onSecs)), now)
      .(onBootCalled := true)
  }

  // ---------------------------------------------------------------------
  // Samples

  /** What a sample publishes. */
  datatype Published = Published(
    overLimit: OverLimit.Signal,
    session: Option<Record>,   // a session just closed
    usage: Option<Record>      // the current usage, every `publish_usage_secs_`
  )

  const Nothing: Published := Published(OverLimit.Quiet, None, None)

  /** The amount of a sample: `upm` for `period` seconds, so that the
      rate is recovered from the amount and the period. */
  function SampleUsage(upm: real, period: int): (u: real)
    ensures period > 0 ==> u * 60.0 / (period as real) == upm
    ensures period >= 0 && upm >= 0.0 ==> u >= 0.0
  {
    upm * (period as real) / 60.0
  }

  /** Scaling a rate and a threshold by the same positive period keeps
      their order. */
  lemma ScaledAbove(base: real, period: int)
    ensures period > 0 ==>
      forall upm :: SampleUsage(upm, period) > base * (period as real) / 60.0 <==> upm > base
  {
    if period > 0 {
      var p := period as real;
      forall upm
        ensures SampleUsage(upm, period) > base * p / 60.0 <==> upm > base
      {
        assert SampleUsage(upm, period) - base * p / 60.0 == (upm - base) * (p / 60.0);
      }
    }
  }

  /** The session detector's threshold for a sample of `period` seconds:
      the base flow scaled to the sample, so that the detector sees flow
      exactly when the rate is above the base. */
  function SessionBase(base: real, period: int): (b: real)
    ensures period > 0 ==> forall upm :: SampleUsage(upm, period) > b <==> upm > base
  {
    ScaledAbove(base, period);
    base * (period as real) / 60.0
  }

  /** As written the detector compares the sample's usage with the base
      rate: with a base of 1 unit per minute and two-second samples, a flow
      of 10 units per minute (a third of a unit per sample) is "no flow" to
      the session detector, which keeps counting dormant seconds and starts
      no session, while the over-limit step sees it above the base. With
      the scaled threshold the detector sees the flow. */
  lemma SessionMissesFlowAsWritten(now: int)
    ensures var usage := SampleUsage(10.0, 2);
      var s := Sessions.Create();
      && Sessions.AddUsage(s, usage, 1.0, now, false).0.wf0Secs == Sessions.DefEndSessionSecs
      && Sessions.AddUsage(s, usage, SessionBase(1.0, 2), now, false).0.wf0Secs == 0
  {
    var usage := SampleUsage(10.0, 2);
    assert usage <= 1.0 && usage > SessionBase(1.0, 2);
  }

  /** Routes a sample's usage: hourly, daily and current always; the
      session list only when no named unit is active; every active named
      unit. Returns the session just closed, if any. */
  function Route(a: App, usage: real, base: real, now: int, debug: bool)
    : (res: (App, Option<Record>))
    requires Valid(a)
    ensures Valid(res.0)
    ensures res.0.hourly == RotatingList.AddUsage(a.hourly, usage, now)
    ensures res.0.daily == RotatingList.AddUsage(a.daily, usage, now)
    ensures res.0.current == Records.AddUsage(a.current, usage, now)
    ensures res.0.named == NamedUsage.AddUsage(a.named, usage, now)
    ensures a.named.countActive != 0 ==> res.0.session == a.session && res.1.None?
    ensures a.named.countActive == 0 ==>
      var (s, closed) := Sessions.AddUsage(a.session, usage, base, now, debug);
      res.0.session == s && (res.1.Some? <==> closed) &&
      (closed ==> res.1.value == s.list.lastClosed)
    ensures res.0 == a.(hourly := res.0.hourly, daily := res.0.daily, current := res.0.current,
                        session := res.0.session, named := res.0.named)
  {
    var (s, closed) := if a.named.countActive == 0 then Sessions.AddUsage(a.session, usage, base, now, debug)
                       else (a.session, false);
    (a.(hourly := RotatingList.AddUsage(a.hourly, usage, now),
        daily := RotatingList.AddUsage(a.daily, usage, now),
        current := Records.AddUsage(a.current, usage, now),
        session := s,
        named := NamedUsage.AddUsage(a.named, usage, now)),
     if closed then Some(s.list.lastClosed) else None)
  }

  /** The usage publication: every `publish_usage_secs_` seconds the
      current usage is published and starts over. */
  function PublishTick(a: App, period: int, now: int): (res: (App, Option<Record>))
    ensures var due := a.secsSinceLastPublish + period >= a.publishUsageSecs;
      && (res.1.Some? <==> due)
      && (due ==> res.1.value == a.current && res.0.current == Init(a.current, now)
                  && res.0.secsSinceLastPublish == 0)
      && (!due ==> res.0.current == a.current
                   && res.0.secsSinceLastPublish == a.secsSinceLastPublish + period)
    ensures res.0 == a.(current := res.0.current, secsSinceLastPublish := res.0.secsSinceLastPublish)
  {
    var since := a.secsSinceLastPublish + period;
    if since >= a.publishUsageSecs then
      (a.(current := Init(a.current, now), secsSinceLastPublish := 0), Some(a.current))
    else (a.(secsSinceLastPublish := since), None)
  }

  /** A sample's usage added to the current record, then the
      publication step. */
  function Sample(a: App, usage: real, period: int, now: int): (res: (App, Option<Record>))
    ensures res.1.Some? ==> res.1.value.usage == a.current.usage + usage && res.0.current.usage == 0.0
    ensures res.1.None? ==> res.0.current.usage == a.current.usage + usage
  {
    PublishTick(a.(current := Records.AddUsage(a.current, usage, now)), period, now)
  }

  /** A run of samples `(usage, period)` and the records it publishes, in
      order. */
  function Samples(a: App, s: seq<(real, int)>, now: int): (res: (App, seq<Record>))
    decreases |s|
  {
    if s == [] then (a, [])
    else
      var (a1, p) := Sample(a, s[0].0, s[0].1, now);
      var (a2, ps) := Samples(a1, s[1..], now);
      (a2, (if p.Some? then [p.value] else []) + ps)
  }

  function SumUsage(s: seq<(real, int)>): real {
    if s == [] then 0.0 else s[0].0 + SumUsage(s[1..])
  }

  function SumPublished(l: seq<Record>): real {
    if l == [] then 0.0 else l[0].usage + SumPublished(l[1..])
  }

  lemma SumPublishedAppend(l1: seq<Record>, l2: seq<Record>)
    ensures SumPublished(l1 + l2) == SumPublished(l1) + SumPublished(l2)
  {
    if l1 == [] {
      assert l1 + l2 == l2;
    } else {
      assert (l1 + l2)[0] == l1[0] && (l1 + l2)[1..] == l1[1..] + l2;
      SumPublishedAppend(l1[1..], l2);
    }
  }

  /** No usage is lost or counted twice by the publication: over any run
      of samples, what was published plus what is still current is what
      was current before plus every sample's usage. */
  lemma {:induction false} PublishedKeepsUsage(a: App, s: seq<(real, int)>, now: int)
    ensures var (r, pubs) := Samples(a, s, now);
      SumPublished(pubs) + r.current.usage == a.current.usage + SumUsage(s)
    decreases |s|
  {
    if s != [] {
      var (a1, p) := Sample(a, s[0].0, s[0].1, now);
      var (a2, ps) := Samples(a1, s[1..], now);
      PublishedKeepsUsage(a1, s[1..], now);
      var first := if p.Some? then [p.value] else [];
      SumPublishedAppend(first, ps);
      assert SumPublished(first) + a1.current.usage == a.current.usage + s[0].0;
    }
  }

  /** From a fresh record, a run whose only publication is its last sample
      publishes exactly the run's usage: the usage accumulated since the
      publication before. */
  lemma PublishedIsSinceLast(a: App, s: seq<(real, int)>, now: int)
    requires a.current.usage == 0.0
    requires |Samples(a, s, now).1| == 1 && Samples(a, s, now).0.current.usage == 0.0
    ensures Samples(a, s, now).1[0].usage == SumUsage(s)
  {
    PublishedKeepsUsage(a, s, now);
    var pubs := Samples(a, s, now).1;
    assert pubs[1..] == [];
  }

  /** Whether samples are processed: after `on_boot`, once the clock has
      been found valid. */
  function TimeCheck(a: App, clockValid: bool): (tv: int)
    ensures a.timeIsValid == TimeValid ==> tv == TimeValid
    ensures a.timeIsValid != TimeValid ==> (tv == TimeValid <==> clockValid)
  {
    if a.timeIsValid != TimeValid then (if clockValid then TimeValid else 0) else TimeValid
  }

  /** `process_wf_on_value(upm)`: one flow sample, `upm` units per minute
      over the sensor's last report period. */
  function ProcessWfOnValue(a: App, upm: real, clockValid: bool, now: int, debug: bool)
    : (res: (App, Published))
    requires Valid(a)
    ensures Valid(res.0)
    // the gates: nothing happens before `on_boot` or without a valid clock
    ensures !a.onBootCalled ==> res == (a, Nothing)
    ensures a.onBootCalled && TimeCheck(a, clockValid) != TimeValid ==>
      res == (a.(timeIsValid := TimeCheck(a, clockValid)), Nothing)
    ensures a.onBootCalled && TimeCheck(a, clockValid) == TimeValid ==>
      var period := a.sensor.rp.lastReportPeriodSecs;
      var u := OverLimit.Denoise(upm);
      var usage := SampleUsage(u, period);
      var (lim, sig) := OverLimit.Step(a.limit, Limits(a), u, period);
      && res.0.timeIsValid == TimeValid
      && res.0.limit == lim && res.1.overLimit == sig
      && res.0.hourly == RotatingList.AddUsage(a.hourly, usage, now)
      && res.0.daily == RotatingList.AddUsage(a.daily, usage, now)
      && res.0.named == NamedUsage.AddUsage(a.named, usage, now)
      && (a.named.countActive != 0 ==> res.0.session == a.session && res.1.session.None?)
      && (a.named.countActive == 0 ==>
            res.0.session == Sessions.AddUsage(a.session, usage, SessionBase(a.upmBase, period),
                                               now, debug).0)
      && res.0.allowances == a.allowances && res.0.xlate == a.xlate
      && (var (p, pub) := Sample(a, usage, period, now);
          res.0.current == p.current && res.0.secsSinceLastPublish == p.secsSinceLastPublish
          && res.1.usage == pub)
  {
    if !a.onBootCalled then (a, Nothing)
    else
      var tv := TimeCheck(a, clockValid);
      if tv != TimeValid then (a.(timeIsValid := tv), Nothing)
      else
        var period := a.sensor.rp.lastReportPeriodSecs;
        var u := OverLimit.Denoise(upm);
        var (lim, sig) := OverLimit.Step(a.limit, Limits(a), u, period);
        var usage := SampleUsage(u, period);
        var (a1, closed) := Route(a.(timeIsValid := tv, limit := lim), usage,
                                  SessionBase(a.upmBase, period), now, debug);
        var (a2, published) := PublishTick(a1, period, now);
        (a2, Published(sig, closed, published))
  }

  /** A sample's usage reaches the hour, the day and every active named
      unit exactly once, and the session list only while no named unit is
      active. */
  lemma SampleCountedOnce(a: App, upm: real, clockValid: bool, now: int, debug: bool)
    requires Valid(a) && a.onBootCalled && TimeCheck(a, clockValid) == TimeValid
    requires a.hourly.indexCurrent >= 0 && a.daily.indexCurrent >= 0
    ensures var r := ProcessWfOnValue(a, upm, clockValid, now, debug).0;
      var usage := SampleUsage(OverLimit.Denoise(upm), a.sensor.rp.lastReportPeriodSecs);
      && RotatingList.Current(r.hourly).usage == RotatingList.Current(a.hourly).usage + usage
      && RotatingList.Current(r.daily).usage == RotatingList.Current(a.daily).usage + usage
      && RotatingList.ClosedInOrder(r.hourly) == RotatingList.ClosedInOrder(a.hourly)
      && (forall j :: 0 <= j < |a.named.slots| ==>
            r.named.slots[j].usage ==
              a.named.slots[j].usage + (if Active in a.named.slots[j].flags then usage else 0.0))
  {
  }

  /** One sensor update: the sensor decides whether a rate is published,
      and a published rate is a sample for the controller. `pulsesBase`
      stands for `g_pulses_base`. */
  function Tick(a: App, pulses: int, pulsesBase: int, clockValid: bool, now: int, debug: bool)
    : (res: (App, Published))
    requires Valid(a)
    ensures Valid(res.0)
    ensures res.0.sensor.inWfOnMode <==> pulses > pulsesBase
    ensures var (s, value) := FlowSensor.Update(a.sensor, a.xlate, pulses, pulsesBase);
      && (value.None? ==> res == (a.(sensor := s), Nothing))
      && (value.Some? ==> res == ProcessWfOnValue(a.(sensor := s), value.value, clockValid, now, debug))
  {
    var (s, value) := FlowSensor.Update(a.sensor, a.xlate, pulses, pulsesBase);
    var a1 := a.(sensor := s);
    match value
    case None => (a1, Nothing)
    case Some(upm) => ProcessWfOnValue(a1, upm, clockValid, now, debug)
  }

  /** A reported period adds to the hour exactly the pulses the sensor
      counted over it, in the current unit (a rate under the noise floor
      adds nothing); an update that reports nothing leaves the hour alone. */
  lemma TickCountsPeriodPulses(a: App, pulses: int, pulsesBase: int, clockValid: bool, now: int,
                               debug: bool)
    requires Valid(a) && a.onBootCalled && TimeCheck(a, clockValid) == TimeValid
    requires a.hourly.indexCurrent >= 0 && a.daily.indexCurrent >= 0
    ensures var r := Tick(a, pulses, pulsesBase, clockValid, now, debug).0;
      var (added, due) := FlowSensor.Add(a.sensor.rp, pulses, FlowSensor.UpdateIntervalSecs);
      var counted := Translation.PulsesToUom(a.xlate.current, a.xlate.calibrate,
                                             added.pulsesTotal as real);
      && (!due ==> r.hourly == a.hourly)
      && (due ==> added.secs > 0)
      && (due ==>
            var upm := counted * 60.0 / (added.secs as real);
            RotatingList.Current(r.hourly).usage ==
              RotatingList.Current(a.hourly).usage
              + (if upm >= OverLimit.NoiseFloor then counted else 0.0))
  {
    var (added, due) := FlowSensor.Add(a.sensor.rp, pulses, FlowSensor.UpdateIntervalSecs);
    var (s, value) := FlowSensor.Update(a.sensor, a.xlate, pulses, pulsesBase);
    if due {
      var secs := added.secs as real;
      var counted := Translation.PulsesToUom(a.xlate.current, a.xlate.calibrate,
                                             added.pulsesTotal as real);
      var upm := value.value;
      RateTimesPeriod(a.xlate.current, a.xlate.calibrate, added.pulsesTotal as real, secs);
      DenoisedSample(upm, counted, added.secs);
      var b := a.(sensor := s);
      assert Tick(a, pulses, pulsesBase, clockValid, now, debug) ==
             ProcessWfOnValue(b, upm, clockValid, now, debug);
      SampleCountedOnce(b, upm, clockValid, now, debug);
    }
  }

  /** A rate computed from an amount over a period gives the amount back
      as the period's sample, unless the noise floor drops it. */
  lemma DenoisedSample(upm: real, counted: real, period: int)
    requires period > 0 && upm == counted * 60.0 / (period as real)
    ensures SampleUsage(OverLimit.Denoise(upm), period) ==
      (if upm >= OverLimit.NoiseFloor then counted else 0.0)
  {
    if upm >= OverLimit.NoiseFloor {
      assert SampleUsage(upm, period) == counted;
    }
  }

  /** The rate of `pulses` over `secs` seconds, in the unit, is the
      amount those pulses stand for spread over the period. */
  lemma RateTimesPeriod(u: Translation.Unit, calibrate: real, pulses: real, secs: real)
    requires secs > 0.0
    ensures Translation.PulsesToUom(u, calibrate, 60.0 * pulses / secs)
      == Translation.PulsesToUom(u, calibrate, pulses) * 60.0 / secs
  {
    var k := Translation.PulsesPerUnit(u);
    var v := Translation.PulsesToUom(u, calibrate, pulses);
    var w := Translation.PulsesToUom(u, calibrate, 60.0 * pulses / secs);
    assert w * k == (60.0 * pulses / secs) * calibrate;
    assert v * k == pulses * calibrate;
    assert (v * 60.0 / secs) * k == (v * k) * 60.0 / secs;
  }

  // ---------------------------------------------------------------------
  // Clock ticks

  /** `on_new_hour()`: rotates the hourly list and publishes the hour just
      closed, closes the named units whose time has come and recomputes
      the limits. */
  function OnNewHour(a: App, now: int): (res: (App, Record))
    requires Valid(a)
    ensures Valid(res.0)
    ensures res.0.hourly == RotatingList.Next(a.hourly, now)
    ensures a.hourly.indexCurrent >= 0 ==> res.1 == RotatingList.Current(a.hourly)
    ensures forall j :: 0 <= j < |res.0.named.slots| ==>
      !NamedUsage.Expired(res.0.named.slots[j], now)
    ensures forall i :: 0 <= i < |res.0.allowances| ==> Allowances.Live(res.0.allowances[i], now)
    ensures res.0.allowances == Allowances.Purge(a.allowances, now)
    ensures res.0.named == NamedUsage.PurgeExpired(a.named, now)
    ensures res.0.daily == a.daily && res.0.session == a.session
    // the limits stay, raised by the allowances still in force
    ensures res.0.maxUpm == a.maxUpm && res.0.maxUsage == a.maxUsage && PlusCurrent(res.0)
    // nothing else changes
    ensures res.0 == a.(hourly := res.0.hourly, named := res.0.named, allowances := res.0.allowances,
                        maxUpmPlus := res.0.maxUpmPlus, maxUsagePlus := res.0.maxUsagePlus)
  {
    var h := RotatingList.Next(a.hourly, now);
    (CalcMaxPlus(a.(hourly := h, named := NamedUsage.PurgeExpired(a.named, now)), now), h.lastClosed)
  }

  /** `on_new_day()`: rotates the daily list and publishes the day just
      closed. */
  function OnNewDay(a: App, now: int): (res: (App, Record))
    requires Valid(a)
    ensures Valid(res.0)
    ensures res.0.daily == RotatingList.Next(a.daily, now)
    ensures a.daily.indexCurrent >= 0 ==> res.1 == RotatingList.Current(a.daily)
    ensures res.0 == a.(daily := res.0.daily)
  {
    var d := RotatingList.Next(a.daily, now);
    (a.(daily := d), d.lastClosed)
  }

  // ---------------------------------------------------------------------
  // Commands

  /** `add_allowance`: a named allowance, optionally with a named unit of
      the same name and expiry; a missing name changes nothing. */
  function AddAllowance(a: App, al: Allowances.Allowance, now: int): (r: App)
    requires Valid(a)
    ensures Valid(r)
    ensures al.name == [] ==> r == a
    ensures al.name != [] && Allowances.Live(al, now) ==>
      Allowances.Get(r.allowances, al.name) == Some(al)
    ensures al.name != [] && al.createNamedSession ==>
      NamedUsage.FindActive(r.named.slots, al.name).Some?
    // the unit is started as `add_usage_unit` does, with the allowance's expiry
    ensures al.name != [] && al.createNamedSession ==>
      r.named == NamedUsage.AddUsageUnit(a.named, al.name, al.expireTime, now).0
    ensures al.name != [] && !al.createNamedSession ==> r.named == a.named
    // the other allowances in force stay; nothing but `al` is added
    ensures al.name != [] ==>
      forall i :: 0 <= i < |a.allowances| && Allowances.Keep(a.allowances[i], al.name, now) ==>
        a.allowances[i] in r.allowances
    ensures al.name != [] ==> forall i :: 0 <= i < |r.allowances| && r.allowances[i] != al ==>
      r.allowances[i] in a.allowances
    // the limits stay, raised by the allowances now in force
    ensures al.name != [] ==> r.maxUpm == a.maxUpm && r.maxUsage == a.maxUsage && PlusCurrent(r)
    // nothing else changes
    ensures r == a.(allowances := r.allowances, named := r.named,
                    maxUpmPlus := r.maxUpmPlus, maxUsagePlus := r.maxUsagePlus)
  {
    if al.name == [] then a
    else
      var l := Allowances.AddItem(a.allowances, al, now);
      var n := if al.createNamedSession
               then NamedUsage.AddUsageUnit(a.named, al.name, al.expireTime, now).0
               else a.named;
      var r := CalcMaxPlus(a.(allowances := l, named := n), now);
      AddedAllowanceKept(l, al, now);
      r
  }

  /** A live allowance just added survives the purge of the limit
      computation, and is the one its name finds. */
  lemma AddedAllowanceKept(l: seq<Allowances.Allowance>, al: Allowances.Allowance, now: int)
    requires |l| >= 1 && l[|l| - 1] == al
    requires forall i :: 0 <= i < |l| - 1 ==> l[i].name != al.name
    ensures Allowances.Live(al, now) ==> Allowances.Get(Allowances.Purge(l, now), al.name) == Some(al)
  {
    var p := Allowances.Purge(l, now);
    if Allowances.Live(al, now) {
      assert al in p;
      var k := FirstIndex(p, (x: Allowances.Allowance) => x.name == al.name);
      assert k.Some?;
      assert p[k.value] in l;
    }
  }

  /** `delete_named_usage(name, cancel)`: closes the unit of that name (the
      close itself is never a cancel) and publishes it unless `cancel`. */
  function DeleteNamedUsage(a: App, name: string, cancel: bool, now: int)
    : (res: (App, Option<Record>))
    requires Valid(a)
    ensures Valid(res.0)
    ensures name == [] ==> res == (a, None)
    ensures name != [] ==>
      && res.0.named == NamedUsage.DeleteUsageUnit(a.named, name, false, now).0
      && NamedUsage.FindActive(res.0.named.slots, name).None?
      && (res.1.Some? <==> NamedUsage.FindActive(a.named.slots, name).Some? && !cancel)
      && (res.1.Some? ==> res.1.value == res.0.named.lastClosed)
    // what is published is the unit of that name, closed
    ensures name != [] && res.1.Some? ==>
      var i := NamedUsage.FindActive(a.named.slots, name).value;
      && |res.0.named.slots| == |a.named.slots| && res.1.value == res.0.named.slots[i]
      && res.1.value.name == name && res.1.value.usage == a.named.slots[i].usage
      && res.1.value.flags == a.named.slots[i].flags - {Active} + {Closed}
    ensures res.0 == a.(named := res.0.named)
  {
    if name == [] then (a, None)
    else
      var (n, deleted) := NamedUsage.DeleteUsageUnit(a.named, name, false, now);
      (a.(named := n), if deleted && !cancel then Some(n.lastClosed) else None)
  }

  /** `delete_allowance`: removes the named allowance and, when it had
      created a named unit, closes that unit too. */
  function DeleteAllowance(a: App, name: string, cancel: bool, now: int)
    : (res: (App, Option<Record>))
    requires Valid(a)
    ensures Valid(res.0)
    ensures name == [] ==> res == (a, None)
    ensures name != [] ==>
      forall i :: 0 <= i < |res.0.allowances| ==> res.0.allowances[i].name != name
    ensures name != [] && Allowances.Get(a.allowances, name).None? ==> res.0.named == a.named
    ensures name != [] && Allowances.Get(a.allowances, name).Some? ==>
      var sa := Allowances.Get(a.allowances, name).value;
      && (sa.createNamedSession ==> NamedUsage.FindActive(res.0.named.slots, name).None?)
      && (!sa.createNamedSession ==> res.0.named == a.named && res.1.None?)
      && (sa.createNamedSession ==>
            && res.0.named == NamedUsage.DeleteUsageUnit(a.named, name, false, now).0
            && (res.1.Some? <==> NamedUsage.FindActive(a.named.slots, name).Some? && !cancel)
            && (res.1.Some? ==> res.1.value == res.0.named.lastClosed))
    // the other allowances in force stay; none is added
    ensures name != [] ==>
      forall i :: 0 <= i < |a.allowances| && Allowances.Keep(a.allowances[i], name, now) ==>
        a.allowances[i] in res.0.allowances
    ensures name != [] ==> forall i :: 0 <= i < |res.0.allowances| ==>
      res.0.allowances[i] in a.allowances
    // the limits stay, recomputed from the allowances still in force
    ensures name != [] ==> res.0.maxUpm == a.maxUpm && res.0.maxUsage == a.maxUsage && PlusCurrent(res.0)
    // nothing else changes
    ensures res.0 == a.(allowances := res.0.allowances, named := res.0.named,
                        maxUpmPlus := res.0.maxUpmPlus, maxUsagePlus := res.0.maxUsagePlus)
  {
    if name == [] then (a, None)
    else
      match Allowances.Get(a.allowances, name)
      case None =>
        assert forall i :: 0 <= i < |Allowances.Purge(a.allowances, now)| ==>
          Allowances.Purge(a.allowances, now)[i] in a.allowances;
        (CalcMaxPlus(a, now), None)
      case Some(sa) =>
        var a1 := a.(allowances := Allowances.DeleteItem(a.allowances, name, now));
        var (a2, published) := if sa.createNamedSession then DeleteNamedUsage(a1, name, cancel, now)
                               else (a1, None);
        (CalcMaxPlus(a2, now), published)
  }

  /** `add_named_usage`: no session is recorded while a named unit runs, so
      the open session is forgotten and the unit started. */
  function AddNamedUsage(a: App, name: string, expireTime: int, now: int): (r: App)
    requires Valid(a)
    ensures Valid(r)
    ensures name == [] ==> r == a
    ensures name != [] ==>
      && NamedUsage.FindActive(r.named.slots, name).Some?
      && r.named.countActive > 0 && r.session.list.indexCurrent >= 0
      && !IsStarted(RotatingList.Current(r.session.list))
      && RotatingList.ClosedInOrder(r.session.list) == RotatingList.ClosedInOrder(a.session.list)
    // the unit is started as `add_usage_unit` does, with the given expiry; nothing else changes
    ensures name != [] ==>
      r == a.(session := Sessions.ClearCurrent(a.session, now),
              named := NamedUsage.AddUsageUnit(a.named, name, expireTime, now).0)
  {
    if name == [] then a
    else
      var n := NamedUsage.AddUsageUnit(a.named, name, expireTime, now).0;
      assert Active in n.slots[NamedUsage.FindActive(n.slots, name).value].flags;
      a.(session := Sessions.ClearCurrent(a.session, now), named := n)
  }

  /** `clear_closed()`: every list forgets its closed records. */
  function ClearClosed(a: App, now: int): (r: App)
    requires Valid(a)
    ensures Valid(r)
    ensures RotatingList.ClosedInOrder(r.hourly) == [] && RotatingList.ClosedInOrder(r.daily) == []
    ensures RotatingList.ClosedInOrder(r.session.list) == [] && r.named.countClosed == 0
    ensures r.named.countActive == a.named.countActive && r.hourly.indexCurrent == 0
    ensures RotatingList.Current(r.hourly) == RotatingList.Current(RotatingList.EnsureCurrent(a.hourly, now))
    ensures r.daily.indexCurrent == 0 && r.session.list.indexCurrent >= 0
    ensures RotatingList.Current(r.daily) == RotatingList.Current(RotatingList.EnsureCurrent(a.daily, now))
    ensures RotatingList.Current(r.session.list) ==
      RotatingList.Current(RotatingList.EnsureCurrent(a.session.list, now))
    // named units lose only their Closed flag; an active unit runs on
    ensures |r.named.slots| == |a.named.slots|
    ensures forall j :: 0 <= j < |a.named.slots| ==>
      r.named.slots[j] == a.named.slots[j].(flags := a.named.slots[j].flags - {Closed})
    ensures r == a.(hourly := r.hourly, daily := r.daily, session := r.session, named := r.named)
  {
    var h := RotatingList.ClearClosed(a.hourly, now);
    var d := RotatingList.ClearClosed(a.daily, now);
    var s := Sessions.ClearClosed(a.session, now);
    var n := NamedUsage.ClearClosed(a.named);
    assert forall j :: 0 <= j < |a.named.slots| ==>
      n.slots[j] == a.named.slots[j].(flags := a.named.slots[j].flags - {Closed});
    a.(hourly := h, daily := d, session := s, named := n)
  }

  /** `set_report_period_secs`: each period arrives as a JSON number (-1
      when absent) and is cast to `int`, truncating toward zero; a negative
      result leaves that period as is. So any value above -1 is applied,
      and one strictly between -1 and 1 sets 0 seconds, which switches the
      sensor to reporting on change only. */
  function SetReportPeriods(a: App, wfOff: real, wfOn: real): (r: App)
    requires Valid(a)
    ensures Valid(r)
    ensures wfOff > -1.0 ==> r.sensor.wfOffSecs == Signatures.Trunc(wfOff)
    ensures wfOff <= -1.0 ==> r.sensor.wfOffSecs == a.sensor.wfOffSecs
    ensures wfOn > -1.0 ==> r.sensor.wfOnSecs == Signatures.Trunc(wfOn)
    ensures wfOn <= -1.0 ==> r.sensor.wfOnSecs == a.sensor.wfOnSecs
    ensures -1.0 < wfOff < 1.0 ==> r.sensor.wfOffSecs == 0
    ensures -1.0 < wfOn < 1.0 ==> r.sensor.wfOnSecs == 0
    ensures r.sensor.inWfOnMode == a.sensor.inWfOnMode
    ensures r == a.(sensor := r.sensor)
  {
    var off := Signatures.Trunc(wfOff);
    var on := Signatures.Trunc(wfOn);
    a.(sensor := FlowSensor.SetReportPeriods(a.sensor, off, on))
  }

  /** A period of -0.5 is not taken as absent: it is cast to 0 and applied,
      so a sensor in wf off mode then reports on change only; 2.9 becomes 2. */
  lemma FractionalPeriodsTruncated(a: App)
    requires Valid(a) && !a.sensor.inWfOnMode
    ensures FlowSensor.OnChangeOnly(SetReportPeriods(a, -0.5, -1.0).sensor.rp)
    ensures SetReportPeriods(a, 2.9, -1.0).sensor.wfOffSecs == 2
  {
  }

  // ---------------------------------------------------------------------
  // Unit of measure and calibration

  /** The conversion every stored amount goes through: one scaling, by a
      factor that depends on the code and the calibrations only. */
  function Converter(m: Translation.Manager, t: Translation.ConvertType, oldCalibrate: real)
    : (f: real -> real)
    requires Translation.Valid(m)
    requires t == Translation.CalibrateChange ==> oldCalibrate != 0.0
    ensures forall v :: f(v) == v * Translation.Factor(t, m.calibrate, oldCalibrate)
  {
    Translation.ConvertScalesAll(m, t, oldCalibrate);
    (v: real) => Translation.Convert(m, t, v, oldCalibrate)
  }

  /** `r` holds every stored amount of `a` re-expressed by `f` once: the
      current usage, the hourly, daily, session and named lists, the flow
      maximum, the base and a set usage maximum, and the live allowances;
      and the raised maxima are recomputed from those. */
  predicate Reexpressed(a: App, r: App, f: real -> real, now: int)
    requires Valid(a)
  {
    && r.current == Records.Convert(a.current, f)
    && r.hourly == RotatingList.ConvertUom(a.hourly, f, now)
    && r.daily == RotatingList.ConvertUom(a.daily, f, now)
    && r.session == Sessions.ConvertUom(a.session, f, now)
    && r.named == NamedUsage.ConvertUom(a.named, f)
    && r.maxUpm == f(a.maxUpm) && r.upmBase == f(a.upmBase)
    && r.maxUsage == (if a.maxUsage != -1.0 then f(a.maxUsage) else a.maxUsage)
    && r.allowances == Allowances.Purge(Allowances.ConvertAll(a.allowances, f), now)
    && PlusCurrent(r)
  }

  /** Converts every stored amount except the allowances. */
  function ConvertStored(a: App, f: real -> real, now: int): (r: App)
    requires Valid(a)
    ensures Valid(r)
    ensures r.current == Records.Convert(a.current, f)
    ensures r.hourly == RotatingList.ConvertUom(a.hourly, f, now)
    ensures r.daily == RotatingList.ConvertUom(a.daily, f, now)
    ensures r.session == Sessions.ConvertUom(a.session, f, now)
    ensures r.named == NamedUsage.ConvertUom(a.named, f)
    ensures r.maxUpm == f(a.maxUpm) && r.upmBase == f(a.upmBase)
    ensures r.maxUsage == (if a.maxUsage != -1.0 then f(a.maxUsage) else a.maxUsage)
    ensures r.xlate == a.xlate && r.allowances == a.allowances && r.sensor == a.sensor
    ensures r.limit == a.limit && r.calibrateField == a.calibrateField
  {
    a.(current := Records.Convert(a.current, f),
       hourly := RotatingList.ConvertUom(a.hourly, f, now),
       daily := RotatingList.ConvertUom(a.daily, f, now),
       session := Sessions.ConvertUom(a.session, f, now),
       named := NamedUsage.ConvertUom(a.named, f),
       maxUpm := f(a.maxUpm),
       upmBase := f(a.upmBase),
       maxUsage := if a.maxUsage != -1.0 then f(a.maxUsage) else a.maxUsage)
  }

  /** `convert_uom(from, old_calibrate)`, corrected: every stored amount,
      the allowances included, is converted once, then the limits are
      recomputed. `from` is the text of the previous unit; none means a
      calibration change from `oldCalibrate`. */
  function ConvertSweep(a: App, from: Option<string>, oldCalibrate: real, now: int): (r: App)
    requires Valid(a)
    requires from.None? ==> oldCalibrate != 0.0
    ensures Valid(r)
    ensures Reexpressed(a, r, Converter(a.xlate, Translation.GetConvertCode(from), oldCalibrate), now)
    ensures r.xlate == a.xlate && r.sensor == a.sensor && r.calibrateField == a.calibrateField
    ensures r.hourly.closedMax == a.hourly.closedMax && r.daily.closedMax == a.daily.closedMax
  {
    var f := Converter(a.xlate, Translation.GetConvertCode(from), oldCalibrate);
    CalcMaxPlus(ConvertStored(a.(allowances := Allowances.ConvertAll(a.allowances, f)), f, now), now)
  }

  /** `convert_uom` as written: the allowances are converted before and
      again after the current usage. */
  function ConvertSweepAsWritten(a: App, from: Option<string>, oldCalibrate: real, now: int)
    : (r: App)
    requires Valid(a)
    requires from.None? ==> oldCalibrate != 0.0
    ensures Valid(r)
    ensures var f := Converter(a.xlate, Translation.GetConvertCode(from), oldCalibrate);
      r.allowances ==
        Allowances.Purge(Allowances.ConvertAll(Allowances.ConvertAll(a.allowances, f), f), now)
  {
    var f := Converter(a.xlate, Translation.GetConvertCode(from), oldCalibrate);
    var once := Allowances.ConvertAll(a.allowances, f);
    CalcMaxPlus(ConvertStored(a.(allowances := Allowances.ConvertAll(once, f)), f, now), now)
  }

  /** Corrected, each allowance scales by the conversion factor once,
      like the flow maximum and every other stored amount. */
  lemma SweepScalesAllowancesOnce(l: seq<Allowances.Allowance>, m: Translation.Manager,
                                  t: Translation.ConvertType, oldCalibrate: real)
    requires Translation.Valid(m)
    requires t == Translation.CalibrateChange ==> oldCalibrate != 0.0
    ensures var f := Converter(m, t, oldCalibrate);
      var k := Translation.Factor(t, m.calibrate, oldCalibrate);
      var conv := Allowances.ConvertAll(l, f);
      forall i :: 0 <= i < |conv| ==>
        conv[i].upm == l[i].upm * k && conv[i].usage == l[i].usage * k
  {
    var f := Converter(m, t, oldCalibrate);
    var conv := Allowances.ConvertAll(l, f);
    forall i | 0 <= i < |conv|
      ensures conv[i].upm == l[i].upm * Translation.Factor(t, m.calibrate, oldCalibrate)
      ensures conv[i].usage == l[i].usage * Translation.Factor(t, m.calibrate, oldCalibrate)
    {
      Translation.ConvertScales(m, t, l[i].upm, oldCalibrate);
      Translation.ConvertScales(m, t, l[i].usage, oldCalibrate);
    }
  }

  /** A calibration change from 1 to 2 on a controller holding one live
      allowance of 1 unit per minute: corrected, the allowance becomes 2,
      like the flow maximum; as written it becomes 4. */
  lemma AllowancesConvertedTwice()
    ensures var a := Create().(xlate := Translation.Manager(Translation.Gallon, 2.0),
                               allowances := [Allowances.Allowance("a", 1.0, 0.0, 100, false)]);
      && ConvertSweep(a, None, 1.0, 0).allowances[0].upm == 2.0
      && ConvertSweepAsWritten(a, None, 1.0, 0).allowances[0].upm == 4.0
  {
    var a := Create().(xlate := Translation.Manager(Translation.Gallon, 2.0),
                       allowances := [Allowances.Allowance("a", 1.0, 0.0, 100, false)]);
    var f := Converter(a.xlate, Translation.CalibrateChange, 1.0);
    var once := Allowances.ConvertAll(a.allowances, f);
    assert once[0].upm == 2.0;
    var twice := Allowances.ConvertAll(once, f);
    assert twice[0].upm == 4.0;
    assert Allowances.Live(twice[0], 0) && Allowances.Live(once[0], 0);
    assert Allowances.Purge(once, 0) == once;
    assert Allowances.Purge(twice, 0) == twice;
  }

  /** The `unit_of_measure` property: a known unit other than the current
      one becomes current and every stored amount is re-expressed in it. */
  function ApplyUnit(a: App, text: string, now: int): (r: App)
    requires Valid(a)
    ensures Valid(r) && r.xlate.calibrate == a.xlate.calibrate
    ensures r.xlate.current ==
      (if Translation.GetTranslationUnit(text).Some? then Translation.GetTranslationUnit(text).value
       else a.xlate.current)
    ensures r.xlate.current == a.xlate.current ==> r == a
    ensures r.xlate.current != a.xlate.current ==>
      var t := if a.xlate.current == Translation.Gallon then Translation.GalToLiter
               else Translation.LiterToGal;
      Reexpressed(a, r, Converter(r.xlate, t, 0.0), now)
    ensures r.hourly.closedMax == a.hourly.closedMax && r.daily.closedMax == a.daily.closedMax
    ensures r.session.list.closedMax == a.session.list.closedMax
    ensures r.session.minSessionSecs == a.session.minSessionSecs
    ensures r.session.endSessionSecs == a.session.endSessionSecs
    ensures r.calibrateField == a.calibrateField && r.sensor == a.sensor
  {
    var (m, changed) := Translation.SetCurrent(a.xlate, text);
    if changed then
      Translation.TextsFindTheirUnit(a.xlate.current);
      ConvertSweep(a.(xlate := m), Some(Translation.UomText(a.xlate.current)), 0.0, now)
    else a
  }

  /** The `calibrate_factor` property, corrected: a non-zero factor that
      differs from the one in force is applied and every stored amount is
      re-expressed under it. */
  function ApplyCalibrate(a: App, c: real, now: int): (r: App)
    requires Valid(a)
    ensures Valid(r) && r.xlate.current == a.xlate.current
    ensures c == 0.0 ==> r == a
    ensures c != 0.0 ==> r.xlate.calibrate == c
    ensures c == a.xlate.calibrate ==> r == a
    ensures c != 0.0 && c != a.xlate.calibrate ==>
      Reexpressed(a, r, Converter(r.xlate, Translation.CalibrateChange, a.xlate.calibrate), now)
    ensures r.hourly.closedMax == a.hourly.closedMax && r.daily.closedMax == a.daily.closedMax
    ensures r.session.list.closedMax == a.session.list.closedMax
    ensures r.session.minSessionSecs == a.session.minSessionSecs
    ensures r.session.endSessionSecs == a.session.endSessionSecs
    ensures r.calibrateField == a.calibrateField && r.sensor == a.sensor
  {
    var was := a.xlate.calibrate;
    if c != 0.0 && was != c then
      ConvertSweep(a.(xlate := Translation.SetCalibrateFactor(a.xlate, c)), None, was, now)
    else a
  }

  /** The `calibrate_factor` property as written: the factor is compared
      with `dApp::calibrate_factor_`, which stays 1. */
  function ApplyCalibrateAsWritten(a: App, c: real, now: int): (r: App)
    requires Valid(a)
    ensures Valid(r) && r.calibrateField == a.calibrateField
    ensures c == 0.0 || c == a.calibrateField ==> r == a
    ensures c != 0.0 && c != a.calibrateField ==> r.xlate.calibrate == c
  {
    var was := a.xlate.calibrate;
    if c != 0.0 && a.calibrateField != c then
      ConvertSweep(a.(xlate := Translation.SetCalibrateFactor(a.xlate, c)), None, was, now)
    else a
  }

  /** Calibrating to 2 and then back to 1: as written the second request
      is ignored and the factor stays 2; corrected it is 1 again. */
  lemma CalibrationBackToOneIgnored()
    ensures var a := Create();
      && ApplyCalibrateAsWritten(ApplyCalibrateAsWritten(a, 2.0, 0), 1.0, 0).xlate.calibrate == 2.0
      && ApplyCalibrate(ApplyCalibrate(a, 2.0, 0), 1.0, 0).xlate.calibrate == 1.0
  {
  }

  // ---------------------------------------------------------------------
  // Properties

  /** The numeric properties `process_properties` reads; a missing or
      mistyped property is `None`. */
  datatype Props = Props(
    closedPeriodsMax: Option<int>,
    unitOfMeasure: Option<string>,
    waterFlowMax: Option<real>,
    waterFlowBase: Option<real>,
    calibrateFactor: Option<real>,
    testPeriodSecs: Option<int>,
    initialSurgeSecs: Option<int>,
    closedSessionsMax: Option<int>,
    minSessionSecs: Option<int>,
    endSessionSecs: Option<int>,
    allowances: Option<seq<Allowances.Allowance>>,
    reportPeriods: Option<(real, real)> // `report_period_secs`: wf off, wf on; -1 when absent
  )

  function OrElse<T>(o: Option<T>, d: T): T {
    if o.Some? then o.value else d
  }

  /** `closed_periods_max`: both the hourly and the daily list. */
  function ApplyClosedPeriodsMax(a: App, n: int, now: int): (r: App)
    requires Valid(a)
    ensures Valid(r)
    ensures r.hourly.closedMax == RotatingList.Clamp(n) && r.daily.closedMax == RotatingList.Clamp(n)
    ensures r == a.(hourly := r.hourly, daily := r.daily)
  {
    a.(hourly := RotatingList.SetMaxClosed(a.hourly, n, now),
       daily := RotatingList.SetMaxClosed(a.daily, n, now))
  }

  /** The properties up to the calibration factor, in the order
      `process_properties` applies them. */
  function ApplyUnitProps(a: App, p: Props, now: int): (r: App)
    requires Valid(a)
    ensures Valid(r)
    ensures p.closedPeriodsMax.Some? ==>
      r.hourly.closedMax == RotatingList.Clamp(p.closedPeriodsMax.value) &&
      r.daily.closedMax == RotatingList.Clamp(p.closedPeriodsMax.value)
    ensures p.closedPeriodsMax.None? ==>
      r.hourly.closedMax == a.hourly.closedMax && r.daily.closedMax == a.daily.closedMax
    ensures r.xlate.current ==
      (if p.unitOfMeasure.Some? && Translation.GetTranslationUnit(p.unitOfMeasure.value).Some?
       then Translation.GetTranslationUnit(p.unitOfMeasure.value).value else a.xlate.current)
    ensures p.calibrateFactor.None? || p.calibrateFactor.value == 0.0 ==>
      r.xlate.calibrate == a.xlate.calibrate
    ensures p.calibrateFactor.Some? && p.calibrateFactor.value != 0.0 ==>
      r.xlate.calibrate == p.calibrateFactor.value
    ensures p.waterFlowMax.Some? && p.calibrateFactor.None? ==>
      r.maxUpm == p.waterFlowMax.value && PlusCurrent(r)
    ensures p.waterFlowBase.Some? && p.calibrateFactor.None? ==> r.upmBase == p.waterFlowBase.value
    ensures r.session.list.closedMax == a.session.list.closedMax
    ensures r.session.minSessionSecs == a.session.minSessionSecs
    ensures r.session.endSessionSecs == a.session.endSessionSecs
    ensures r.sensor == a.sensor
  {
    var a1 := if p.closedPeriodsMax.Some? then ApplyClosedPeriodsMax(a, p.closedPeriodsMax.value, now)
              else a;
    var a2 := if p.unitOfMeasure.Some? then ApplyUnit(a1, p.unitOfMeasure.value, now) else a1;
    var a3 := if p.waterFlowMax.Some? then CalcMaxPlus(a2.(maxUpm := p.waterFlowMax.value), now)
              else a2;
    var a4 := a3.(upmBase := OrElse(p.waterFlowBase, a3.upmBase));
    if p.calibrateFactor.Some? then ApplyCalibrate(a4, p.calibrateFactor.value, now) else a4
  }

  /** The session properties: the closed-session maximum, then the
      minimum and ending durations. */
  function ApplySessionProps(s: Sessions.SessionList, p: Props, now: int): (r: Sessions.SessionList)
    requires Sessions.Valid(s)
    ensures Sessions.Valid(r)
    ensures p.closedSessionsMax.Some? ==>
      r.list.closedMax == RotatingList.Clamp(p.closedSessionsMax.value)
    ensures p.closedSessionsMax.None? ==> r.list == s.list
    ensures r.minSessionSecs == OrElse(p.minSessionSecs, s.minSessionSecs)
    ensures r.endSessionSecs == OrElse(p.endSessionSecs, s.endSessionSecs)
  {
    var s7 := if p.closedSessionsMax.Some? then Sessions.SetMaxClosed(s, p.closedSessionsMax.value, now)
              else s;
    s7.(minSessionSecs := OrElse(p.minSessionSecs, s7.minSessionSecs),
        endSessionSecs := OrElse(p.endSessionSecs, s7.endSessionSecs))
  }

  /** The properties after the calibration factor: the test and surge
      periods, the session properties, the allowances and the report
      periods. `test` and `surge` are the values before any property. */
  function ApplyLaterProps(b: App, p: Props, test: int, surge: int, now: int): (r: App)
    requires Valid(b)
    ensures Valid(r)
    ensures r.hourly.closedMax == b.hourly.closedMax && r.daily.closedMax == b.daily.closedMax
    ensures r.xlate == b.xlate && r.maxUpm == b.maxUpm
    ensures r.testPeriodSecs == OrElse(p.testPeriodSecs, test)
    ensures r.allowInitialSurgeSecs == OrElse(p.initialSurgeSecs, surge)
    ensures p.closedSessionsMax.Some? ==>
      r.session.list.closedMax == RotatingList.Clamp(p.closedSessionsMax.value)
    ensures p.closedSessionsMax.None? ==> r.session.list.closedMax == b.session.list.closedMax
    ensures r.session.minSessionSecs == OrElse(p.minSessionSecs, b.session.minSessionSecs)
    ensures r.session.endSessionSecs == OrElse(p.endSessionSecs, b.session.endSessionSecs)
    ensures p.allowances.Some? ==> r.allowances == Allowances.Purge(p.allowances.value, now)
    ensures PlusCurrent(b) || p.allowances.Some? ==> PlusCurrent(r)
    ensures p.reportPeriods.Some? ==>
      var (off, on) := p.reportPeriods.value;
      && r.sensor.wfOffSecs == (if off > -1.0 then Signatures.Trunc(off) else b.sensor.wfOffSecs)
      && r.sensor.wfOnSecs == (if on > -1.0 then Signatures.Trunc(on) else b.sensor.wfOnSecs)
    ensures p.reportPeriods.None? ==> r.sensor == b.sensor
  {
    var a8 := b.(testPeriodSecs := OrElse(p.testPeriodSecs, test),
                 allowInitialSurgeSecs := OrElse(p.initialSurgeSecs, surge),
                 session := ApplySessionProps(b.session, p, now));
    var a9 := if p.allowances.Some? then CalcMaxPlus(a8.(allowances := p.allowances.value), now)
              else a8;
    if p.reportPeriods.Some? then SetReportPeriods(a9, p.reportPeriods.value.0, p.reportPeriods.value.1)
    else a9
  }

  /** `process_properties(jo)`: the numeric properties, in order. A
      calibration factor of 0 is never applied, and the closed-period
      maximum applies to the hourly and the daily list alike. */
  function ProcessProperties(a: App, p: Props, now: int): (r: App)
    requires Valid(a)
    ensures Valid(r)
    ensures p.closedPeriodsMax.Some? ==>
      r.hourly.closedMax == RotatingList.Clamp(p.closedPeriodsMax.value) &&
      r.daily.closedMax == RotatingList.Clamp(p.closedPeriodsMax.value)
    ensures p.closedPeriodsMax.None? ==>
      r.hourly.closedMax == a.hourly.closedMax && r.daily.closedMax == a.daily.closedMax
    ensures r.xlate.current ==
      (if p.unitOfMeasure.Some? && Translation.GetTranslationUnit(p.unitOfMeasure.value).Some?
       then Translation.GetTranslationUnit(p.unitOfMeasure.value).value else a.xlate.current)
    ensures p.calibrateFactor.None? || p.calibrateFactor.value == 0.0 ==>
      r.xlate.calibrate == a.xlate.calibrate
    ensures p.calibrateFactor.Some? && p.calibrateFactor.value != 0.0 ==>
      r.xlate.calibrate == p.calibrateFactor.value
    ensures r.testPeriodSecs == OrElse(p.testPeriodSecs, a.testPeriodSecs)
    ensures r.allowInitialSurgeSecs == OrElse(p.initialSurgeSecs, a.allowInitialSurgeSecs)
    ensures p.closedSessionsMax.Some? ==>
      r.session.list.closedMax == RotatingList.Clamp(p.closedSessionsMax.value)
    ensures p.closedSessionsMax.None? ==> r.session.list.closedMax == a.session.list.closedMax
    ensures r.session.minSessionSecs == OrElse(p.minSessionSecs, a.session.minSessionSecs)
    ensures r.session.endSessionSecs == OrElse(p.endSessionSecs, a.session.endSessionSecs)
    ensures p.waterFlowMax.Some? && p.calibrateFactor.None? ==>
      r.maxUpm == p.waterFlowMax.value && PlusCurrent(r)
    ensures p.allowances.Some? ==> r.allowances == Allowances.Purge(p.allowances.value, now)
    ensures p.allowances.Some? ==> PlusCurrent(r)
    ensures p.reportPeriods.Some? ==>
      var (off, on) := p.reportPeriods.value;
      && r.sensor.wfOffSecs == (if off > -1.0 then Signatures.Trunc(off) else a.sensor.wfOffSecs)
      && r.sensor.wfOnSecs == (if on > -1.0 then Signatures.Trunc(on) else a.sensor.wfOnSecs)
    ensures p.reportPeriods.None? ==> r.sensor == a.sensor
  {
    ApplyLaterProps(ApplyUnitProps(a, p, now), p, a.testPeriodSecs, a.allowInitialSurgeSecs, now)
  }
}
