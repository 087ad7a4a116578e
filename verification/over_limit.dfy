/** The over-limit detector of `dApp::process_wf_on_value`: one step per
    flow sample (`upm`, in units per minute) over the surge grace budget,
    the seconds spent over the limit and the over-limit flag.

    - Surge: flow above the base while grace remains only spends grace.
    - Over: flow above the raised flow maximum (when one is set, i.e. not
      negative) adds the sample's period to the seconds over the limit, and
      the flag goes up once they reach the test period; "on" is published
      on every such sample.
    - Under: anything else clears the seconds and the flag ("off" is
      published only when the flag was up), and flow at or below the base
      re-arms the grace.

    Closing the master valve on a "wwh" device is a hardware side effect
    and is not modelled. */
module OverLimit {

  /** Rates below this are noise and count as no flow. */
  const NoiseFloor: real := 0.00000001

  /** The thresholds the step reads. */
  datatype Limits = Limits(
    upmBase: real,               // `upm_base_`
    maxUpmPlus: real,            // `max_upm_plus_`; negative: no limit
    testPeriodSecs: int,         // `test_period_secs_`
    allowInitialSurgeSecs: int   // `allow_initial_surge_seconds_`
  )

  datatype LimitState = LimitState(
    grace: int,          // `grace_for_surge_`
    secsOverLimit: int,  // `secs_over_limit_`
    overLimit: bool      // `over_limit_`
  )

  /** What the step publishes on the over-limit status topic. */
  datatype Signal = Quiet | On | Off

  /** The initial state: full grace, not over the limit. */
  function Initial(lim: Limits): (st: LimitState)
    ensures st.grace == lim.allowInitialSurgeSecs && st.secsOverLimit == 0 && !st.overLimit
  {
    LimitState(lim.allowInitialSurgeSecs, 0, false)
  }

  /** The sample as the step sees it: noise becomes zero. */
  function Denoise(upm: real): (r: real)
    ensures upm < NoiseFloor ==> r == 0.0
    ensures upm >= NoiseFloor ==> r == upm
  {
    if upm < NoiseFloor then 0.0 else upm
  }

  predicate InSurge(st: LimitState, lim: Limits, upm: real) {
    upm > lim.upmBase && st.grace > 0
  }

  predicate OverMax(lim: Limits, upm: real) {
    lim.maxUpmPlus >= 0.0 && upm > lim.maxUpmPlus
  }

  /** One sample of `period` seconds at rate `upm` (already denoised). */
  function Step(st: LimitState, lim: Limits, upm: real, period: int): (res: (LimitState, Signal))
    // surge: only the grace changes
    ensures InSurge(st, lim, upm) ==>
      res.0 == st.(grace := st.grace - period) && res.1 == Quiet
    // over: time accumulates; the flag goes up at the test period and stays up
    ensures !InSurge(st, lim, upm) && OverMax(lim, upm) ==>
      && res.0.grace == st.grace
      && res.0.secsOverLimit == st.secsOverLimit + period
      && (res.0.overLimit <==> st.overLimit || res.0.secsOverLimit >= lim.testPeriodSecs)
      && (res.1 == On <==> res.0.secsOverLimit >= lim.testPeriodSecs)
      && res.1 != Off
    // under: everything clears; grace re-arms only without flow
    ensures !InSurge(st, lim, upm) && !OverMax(lim, upm) ==>
      && res.0.secsOverLimit == 0 && !res.0.overLimit
      && (res.1 == Off <==> st.overLimit) && res.1 != On
      && res.0.grace == (if upm <= lim.upmBase then lim.allowInitialSurgeSecs else st.grace)
  {
    if InSurge(st, lim, upm) then
      (st.(grace := st.grace - period), Quiet)
    else if OverMax(lim, upm) then
      var secs := st.secsOverLimit + period;
      if secs >= lim.testPeriodSecs then (st.(secsOverLimit := secs, overLimit := true), On)
      else (st.(secsOverLimit := secs), Quiet)
    else
      var g := if upm <= lim.upmBase then lim.allowInitialSurgeSecs else st.grace;
      (LimitState(g, 0, false), if st.overLimit then Off else Quiet)
  }

  /** "off" is published exactly when the flag falls, and "on" only while
      it is up. */
  lemma SignalsFollowFlag(st: LimitState, lim: Limits, upm: real, period: int)
    ensures var (r, sig) := Step(st, lim, upm, period);
      && (sig == Off <==> st.overLimit && !r.overLimit)
      && (sig == On ==> r.overLimit)
  {
  }

  /** A run of samples, each of `period` seconds. */
  function Run(st: LimitState, lim: Limits, upms: seq<real>, period: int): LimitState
    decreases |upms|
  {
    if |upms| == 0 then st else Run(Step(st, lim, upms[0], period).0, lim, upms[1..], period)
  }

  /** Without a flow maximum the flag never goes up. */
  lemma {:induction false} NoLimitNeverOn(st: LimitState, lim: Limits, upms: seq<real>,
                                          period: int)
    requires lim.maxUpmPlus < 0.0 && !st.overLimit
    ensures !Run(st, lim, upms, period).overLimit
    decreases |upms|
  {
    if |upms| > 0 {
      NoLimitNeverOn(Step(st, lim, upms[0], period).0, lim, upms[1..], period);
    }
  }

  /** While grace lasts, flow above the base only spends grace, whatever
      its rate: the detector does not move. */
  lemma {:induction false} SurgeSpendsGrace(st: LimitState, lim: Limits, upms: seq<real>,
                                            period: int)
    requires period >= 0 && st.grace > (|upms| - 1) * period
    requires forall i :: 0 <= i < |upms| ==> upms[i] > lim.upmBase
    ensures Run(st, lim, upms, period) == st.(grace := st.grace - |upms| * period)
    decreases |upms|
  {
    if |upms| > 0 {
      var st1 := Step(st, lim, upms[0], period).0;
      assert st1 == st.(grace := st.grace - period);
      SurgeSpendsGrace(st1, lim, upms[1..], period);
    }
  }

  /** Once grace is spent, sustained flow over the maximum sets the flag
      exactly when the time over the limit reaches the test period. */
  lemma {:induction false} SustainedFlowTrips(st: LimitState, lim: Limits, upms: seq<real>,
                                              period: int)
    requires period >= 0 && st.grace <= 0
    requires forall i :: 0 <= i < |upms| ==> upms[i] > lim.upmBase && OverMax(lim, upms[i])
    ensures var r := Run(st, lim, upms, period);
      && r.grace == st.grace
      && r.secsOverLimit == st.secsOverLimit + |upms| * period
      && (r.overLimit <==>
            st.overLimit || (|upms| > 0 && r.secsOverLimit >= lim.testPeriodSecs))
    decreases |upms|
  {
    if |upms| > 0 {
      var st1 := Step(st, lim, upms[0], period).0;
      SustainedFlowTrips(st1, lim, upms[1..], period);
    }
  }

  /** One sample at or below the base after any history clears the
      detector and restores the full grace. */
  lemma QuietSampleResets(st: LimitState, lim: Limits, upm: real, period: int)
    requires upm <= lim.upmBase && !OverMax(lim, upm)
    ensures Step(st, lim, upm, period).0 == Initial(lim)
  {
  }
}
