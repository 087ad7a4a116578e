/** `WaterflowSensor`: the pulse-counter sensor's publishing schedule. Each
    update adds the pulses counted in one interval to a report period; when
    the period is due the aggregated rate is published (in the current
    unit, per minute) and the period restarts. Two periods are configured,
    one for "wf on" mode (pulses above the base) and one for "wf off" mode;
    the active one follows the mode.

    A period of 0 means "report only on change". As written `add` also
    reports whenever `secs_ >= report_period_secs_`, which a period of 0
    makes true on every call, so that mode reports on every update. Both
    `add`s are modelled; the sensor uses the corrected one. */
module FlowSensor {
  import opened Seqs
  import Translation

  /** `wf_is_changed_delta_`: a change of more than this many pulses
      between two intervals counts as a change of flow. */
  const ChangeDelta: int := 10

  const DefWfOffSecs: int := 15
  const DefWfOnSecs: int := 2

  /** `update_interval_secs_`: `on_start_init` sets it to 1 and nothing
      changes it afterwards. */
  const UpdateIntervalSecs: int := 1

  datatype ReportPeriod = ReportPeriod(
    pulsesTotal: int,
    secs: int,
    lastReportPeriodSecs: int,
    reportOnNextAdd: bool,     // one-shot: report on the next `add`
    reportPeriodSecs: int,     // the active period; 0 = on change only
    lastPulses: int            // -1 after a reset
  )

  function Abs(x: int): nat {
    if x < 0 then -x else x
  }

  /** `is_report_only_on_change()`. */
  predicate OnChangeOnly(rp: ReportPeriod) {
    rp.reportPeriodSecs == 0
  }

  /** `reset()`: starts a new period and remembers how long the previous
      one lasted. */
  function Reset(rp: ReportPeriod): (r: ReportPeriod)
    ensures r.pulsesTotal == 0 && r.secs == 0 && r.lastPulses == -1
    ensures r.lastReportPeriodSecs == rp.secs
    ensures r.reportPeriodSecs == rp.reportPeriodSecs && r.reportOnNextAdd == rp.reportOnNextAdd
  {
    rp.(pulsesTotal := 0, lastReportPeriodSecs := rp.secs, secs := 0, lastPulses := -1)
  }

  /** The constructor `ReportPeriod(secs)`, which resets. */
  function NewReportPeriod(periodSecs: int): (r: ReportPeriod)
    ensures r.reportPeriodSecs == periodSecs && !r.reportOnNextAdd
    ensures r.pulsesTotal == 0 && r.secs == 0 && r.lastPulses == -1 && r.lastReportPeriodSecs == 0
  {
    Reset(ReportPeriod(0, 0, 0, false, periodSecs, -1))
  }

  /** The part of `add` both versions share: accumulate, remember the
      pulses, and clear the one-shot flag. */
  function Accumulate(rp: ReportPeriod, pulses: int, secs: int): (r: ReportPeriod)
    ensures r.pulsesTotal - rp.pulsesTotal == pulses && r.secs - rp.secs == secs
    ensures r.lastPulses == pulses && !r.reportOnNextAdd
    ensures r.reportPeriodSecs == rp.reportPeriodSecs
    ensures r.lastReportPeriodSecs == rp.lastReportPeriodSecs
  {
    rp.(pulsesTotal := rp.pulsesTotal + pulses, secs := rp.secs + secs, lastPulses := pulses,
        reportOnNextAdd := false)
  }

  predicate Changed(rp: ReportPeriod, pulses: int) {
    Abs(rp.lastPulses - pulses) > ChangeDelta
  }

  /** `add(pulses, secs)` as written: the period test applies in the
      on-change mode too. */
  function AddAsWritten(rp: ReportPeriod, pulses: int, secs: int): (res: (ReportPeriod, bool))
    ensures res.0 == Accumulate(rp, pulses, secs)
    ensures rp.reportOnNextAdd ==> res.1
    ensures res.1 <==>
      (OnChangeOnly(rp) && Changed(rp, pulses)) || rp.secs + secs >= rp.reportPeriodSecs
      || rp.reportOnNextAdd
  {
    var r := Accumulate(rp, pulses, secs);
    (r, (OnChangeOnly(rp) && Changed(rp, pulses)) || r.secs >= r.reportPeriodSecs
        || rp.reportOnNextAdd)
  }

  /** `add(pulses, secs)`, corrected: in the on-change mode only a change of
      flow (or the one-shot flag) reports. */
  function Add(rp: ReportPeriod, pulses: int, secs: int): (res: (ReportPeriod, bool))
    ensures res.0 == Accumulate(rp, pulses, secs)
    ensures OnChangeOnly(rp) ==> (res.1 <==> Changed(rp, pulses) || rp.reportOnNextAdd)
    ensures !OnChangeOnly(rp) ==>
      (res.1 <==> rp.secs + secs >= rp.reportPeriodSecs || rp.reportOnNextAdd)
  {
    var r := Accumulate(rp, pulses, secs);
    (r, (if OnChangeOnly(rp) then Changed(rp, pulses) else r.secs >= r.reportPeriodSecs)
        || rp.reportOnNextAdd)
  }

  /** Away from the on-change mode the two `add`s agree. */
  lemma AddAgreesWithPeriod(rp: ReportPeriod, pulses: int, secs: int)
    requires !OnChangeOnly(rp)
    ensures Add(rp, pulses, secs) == AddAsWritten(rp, pulses, secs)
  {
  }

  /** In the on-change mode, a steady flow (no pulses at all, twice) still
      reports on the second update as written; corrected, it does not. */
  lemma OnChangeReportsEveryUpdate()
    ensures var rp := NewReportPeriod(0);
      && AddAsWritten(AddAsWritten(rp, 0, 1).0, 0, 1).1
      && !Add(Add(rp, 0, 1).0, 0, 1).1
  {
  }

  /** `n` updates of the corrected `add`, each of one second and no pulses. */
  function Idle(rp: ReportPeriod, n: nat): ReportPeriod {
    if n == 0 then rp else Add(Idle(rp, n - 1), 0, 1).0
  }

  lemma {:induction false} IdleCounts(rp: ReportPeriod, n: nat)
    ensures Idle(rp, n).secs == rp.secs + n
    ensures Idle(rp, n).reportPeriodSecs == rp.reportPeriodSecs
    ensures n > 0 ==> !Idle(rp, n).reportOnNextAdd
    ensures n == 0 ==> Idle(rp, n) == rp
  {
    if n > 0 {
      IdleCounts(rp, n - 1);
    }
  }

  /** A fresh period of `p > 0` seconds reports on its `p`-th one-second
      update and on none before. */
  lemma ReportsWhenPeriodElapses(p: int, n: nat)
    requires p > 0
    ensures n < p - 1 ==> !Add(Idle(NewReportPeriod(p), n), 0, 1).1
    ensures n == p - 1 ==> Add(Idle(NewReportPeriod(p), n), 0, 1).1
  {
    IdleCounts(NewReportPeriod(p), n);
  }

  /** A report restarts the period: what a reset period then accumulates is
      exactly what the next update adds. */
  lemma ResetRestarts(rp: ReportPeriod, pulses: int, secs: int)
    ensures var r := Add(Reset(rp), pulses, secs).0;
      r.pulsesTotal == pulses && r.secs == secs && r.lastReportPeriodSecs == rp.secs
  {
  }

  // ---------------------------------------------------------------------
  // The sensor

  datatype Sensor = Sensor(
    inWfOnMode: bool,
    wfOffSecs: int,   // `report_period_wf_off_mode_secs_`
    wfOnSecs: int,    // `report_period_wf_on_mode_secs_`
    rp: ReportPeriod
  )

  /** The period of the mode the sensor is in. */
  function ModePeriod(s: Sensor): int {
    if s.inWfOnMode then s.wfOnSecs else s.wfOffSecs
  }

  /** The active period is the one of the current mode, and the period's
      seconds never go negative. */
  predicate Consistent(s: Sensor) {
    s.rp.reportPeriodSecs == ModePeriod(s) && s.rp.secs >= 0
  }

  /** The constructor: wf off mode, default periods. */
  function Create(): (s: Sensor)
    ensures Consistent(s) && !s.inWfOnMode
    ensures s.wfOffSecs == DefWfOffSecs && s.wfOnSecs == DefWfOnSecs
  {
    Sensor(false, DefWfOffSecs, DefWfOnSecs, NewReportPeriod(DefWfOffSecs))
  }

  function SetActivePeriod(s: Sensor, secs: int): Sensor {
    s.(rp := s.rp.(reportPeriodSecs := secs))
  }

  /** `set_in_wf_on_mode(on)`: only a real flip of the mode changes the
      active period, to the one of the new mode. */
  function SetInWfOnMode(s: Sensor, on: bool): (r: Sensor)
    ensures r.inWfOnMode == on
    ensures on != s.inWfOnMode ==> r.rp.reportPeriodSecs == (if on then s.wfOnSecs else s.wfOffSecs)
    ensures on == s.inWfOnMode ==> r == s
    ensures r.rp == s.rp.(reportPeriodSecs := r.rp.reportPeriodSecs)
    ensures r.wfOffSecs == s.wfOffSecs && r.wfOnSecs == s.wfOnSecs
  {
    if on != s.inWfOnMode then
      SetActivePeriod(s.(inWfOnMode := on), if !on then s.wfOffSecs else s.wfOnSecs)
    else s
  }

  /** `set_report_period_wf_off_mode_secs(secs)`. */
  function SetWfOffSecs(s: Sensor, secs: int): (r: Sensor)
    ensures r.wfOffSecs == secs && r.wfOnSecs == s.wfOnSecs && r.inWfOnMode == s.inWfOnMode
    ensures s.inWfOnMode ==> r.rp == s.rp
    ensures !s.inWfOnMode ==> r.rp == s.rp.(reportPeriodSecs := secs)
  {
    var s1 := s.(wfOffSecs := secs);
    if !s.inWfOnMode then SetActivePeriod(s1, secs) else s1
  }

  /** `set_report_period_wf_on_mode_secs(secs)`. */
  function SetWfOnSecs(s: Sensor, secs: int): (r: Sensor)
    ensures r.wfOnSecs == secs && r.wfOffSecs == s.wfOffSecs && r.inWfOnMode == s.inWfOnMode
    ensures !s.inWfOnMode ==> r.rp == s.rp
    ensures s.inWfOnMode ==> r.rp == s.rp.(reportPeriodSecs := secs)
  {
    var s1 := s.(wfOnSecs := secs);
    if s.inWfOnMode then SetActivePeriod(s1, secs) else s1
  }

  /** Mode switches and period changes keep the active period equal to the
      period of the mode. */
  lemma SettersKeepConsistent(s: Sensor, on: bool, secs: int)
    requires Consistent(s)
    ensures Consistent(SetInWfOnMode(s, on))
    ensures Consistent(SetWfOffSecs(s, secs)) && Consistent(SetWfOnSecs(s, secs))
  {
  }

  /** A changed period of the other mode takes effect at the next flip. */
  lemma OtherModePeriodWaits(s: Sensor, secs: int)
    requires Consistent(s) && !s.inWfOnMode
    ensures SetWfOnSecs(s, secs).rp == s.rp
    ensures SetInWfOnMode(SetWfOnSecs(s, secs), true).rp.reportPeriodSecs == secs
  {
  }

  /** `on_start_init(off, on)`: sets both periods, makes the off period
      active, asks for a report on the next update, and enters wf off
      mode; whatever state the sensor was in. */
  function OnStartInit(s: Sensor, offSecs: int, onSecs: int): (r: Sensor)
    requires s.rp.secs >= 0
    ensures Consistent(r) && !r.inWfOnMode && r.rp.reportOnNextAdd
    ensures r.wfOffSecs == offSecs && r.wfOnSecs == onSecs
    ensures r.rp.reportPeriodSecs == offSecs
  {
    var s1 := SetWfOnSecs(SetWfOffSecs(s, offSecs), onSecs);
    var s2 := s1.(rp := s1.rp.(reportPeriodSecs := s1.wfOffSecs, reportOnNextAdd := true));
    SetInWfOnMode(s2, false)
  }

  /** The mode decision of `update()`: on above the base, off at or below. */
  function UpdateMode(s: Sensor, pulses: int, base: int): (r: Sensor)
    ensures r.inWfOnMode <==> pulses > base
    ensures r == SetInWfOnMode(s, pulses > base)
  {
    if pulses > base && !s.inWfOnMode then SetInWfOnMode(s, true)
    else if pulses <= base && s.inWfOnMode then SetInWfOnMode(s, false)
    else s
  }

  /** `get_value_as_pulses_per_minute()`. */
  function PulsesPerMinute(rp: ReportPeriod): (v: real)
    requires rp.secs > 0
    ensures v * (rp.secs as real) == 60.0 * (rp.pulsesTotal as real)
  {
    (60.0 * rp.pulsesTotal as real) / (rp.secs as real)
  }

  /** `update()`: `pulses` counted in the last interval, `base` the
      `g_pulses_base` threshold. Returns the value published, if any: the
      period's rate converted to the current unit. */
  function Update(s: Sensor, m: Translation.Manager, pulses: int, base: int)
    : (res: (Sensor, Option<real>))
    requires Consistent(s)
    ensures Consistent(res.0)
    ensures res.0.inWfOnMode <==> pulses > base
    ensures var (added, due) := Add(s.rp, pulses, UpdateIntervalSecs);
      && (res.1.Some? <==> due)
      && (due ==>
            && res.1.value == Translation.PulsesToUom(m.current, m.calibrate, PulsesPerMinute(added))
            && res.0.rp.lastReportPeriodSecs == added.secs
            && res.0.rp.pulsesTotal == 0 && res.0.rp.secs == 0)
      && (!due ==> res.0.rp.pulsesTotal == added.pulsesTotal && res.0.rp.secs == added.secs)
  {
    var (added, due) := Add(s.rp, pulses, UpdateIntervalSecs);
    var s1 := s.(rp := if due then Reset(added) else added);
    var value := if due then Some(Translation.PulsesToUom(m.current, m.calibrate,
                                                          PulsesPerMinute(added)))
                 else None;
    (UpdateMode(s1, pulses, base), value)
  }

  /** `dApp::set_report_period_secs`: a negative value leaves that period
      alone. */
  function SetReportPeriods(s: Sensor, wfOff: int, wfOn: int): (r: Sensor)
    requires Consistent(s)
    ensures Consistent(r) && r.inWfOnMode == s.inWfOnMode
    ensures r.wfOffSecs == (if wfOff >= 0 then wfOff else s.wfOffSecs)
    ensures r.wfOnSecs == (if wfOn >= 0 then wfOn else s.wfOnSecs)
  {
    SettersKeepConsistent(s, false, wfOff);
    var s1 := if wfOff >= 0 then SetWfOffSecs(s, wfOff) else s;
    SettersKeepConsistent(s1, false, wfOn);
    if wfOn >= 0 then SetWfOnSecs(s1, wfOn) else s1
  }
}
