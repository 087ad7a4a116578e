/** `Signature`: a water-use pattern recognised as a sequence of segments,
    each a band of flow (`upm_min_ <= upm < upm_max_`) held for a duration
    in [`duration_min_secs_`, `duration_max_secs_`]; `SignatureManager`
    runs every signature on each sample and returns the ones that matched.

    The segment's block test is modelled as written (it compares the
    per-call seconds with the maximum) and corrected (it compares the
    accumulated seconds); the signatures use the corrected segment. The
    accumulator `secs_` is never initialised by the source, so its first
    value is a parameter of the constructors here. */
module Signatures {
  import opened Seqs

  /** `std::numeric_limits<float>::max()`, the flow maximum of a segment
      without an allowance. */
  const FloatMax: real := 340282346638528859811704183484516925440.0

  datatype Segment = Segment(
    upmMin: real,
    upmMax: real,
    upmAllowance: real,
    durMin: real,
    durMax: real,
    secs: int,        // `secs_`, accumulated seconds in band
    blocked: bool
  )

  /** The conversion `int += float` performs: truncation toward zero. */
  function Trunc(x: real): (n: int)
    ensures x >= 0.0 ==> n as real <= x < n as real + 1.0
    ensures x < 0.0 ==> n as real - 1.0 < x <= n as real
  {
    if x >= 0.0 then x.Floor else -((-x).Floor)
  }

  /** `init(upm, upm_allowance, duration_secs, duration_allowance)`: sets
      the band and the duration window, and leaves the accumulator and the
      block flag as they were. */
  function Init(s: Segment, upm: real, upmAllowance: real, dur: real, durAllowance: real)
    : (r: Segment)
    ensures r.upmMin == upm && r.upmAllowance == upmAllowance
    ensures r.upmMax == (if upmAllowance != 0.0 then upm + upmAllowance else FloatMax)
    ensures r.durMin == dur && r.durMax - r.durMin == durAllowance
    ensures r.secs == s.secs && r.blocked == s.blocked
  {
    s.(upmMin := upm, upmAllowance := upmAllowance,
       upmMax := if upmAllowance != 0.0 then upm + upmAllowance else FloatMax,
       durMin := dur, durMax := dur + durAllowance)
  }

  /** The constructor `Segment(upm, allowance, duration, allowance)`, with
      `secs0` standing for the uninitialised accumulator. */
  function NewSegment(upm: real, upmAllowance: real, dur: real, durAllowance: real, secs0: int)
    : (r: Segment)
    ensures !r.blocked && r.secs == secs0 && WellFormed(r)
  {
    Init(Segment(0.0, 0.0, 0.0, 0.0, 0.0, secs0, false), upm, upmAllowance, dur, durAllowance)
  }

  /** The band maximum is the one `init` derives from the allowance. */
  predicate WellFormed(s: Segment) {
    s.upmMax == (if s.upmAllowance != 0.0 then s.upmMin + s.upmAllowance else FloatMax)
  }

  predicate InBand(s: Segment, upm: real) {
    s.upmMin <= upm < s.upmMax
  }

  /** `is_match(upm, secs)` with the block test on the accumulated
      seconds: a stretch in band that outlasts the maximum blocks the
      segment until the flow drops below the band. */
  function IsMatch(s: Segment, upm: real, secs: real): (res: (Segment, bool))
    ensures res.1 ==> upm < s.upmMin && s.secs as real >= s.durMin
    ensures upm < s.upmMin ==> res.1 == (s.secs as real >= s.durMin)
    ensures upm < s.upmMin ==> res.0.secs == 0 && !res.0.blocked
    ensures upm >= s.upmMin && (s.blocked || !InBand(s, upm)) ==> res.0 == s
    ensures !s.blocked && InBand(s, upm) ==>
      var acc := Trunc(s.secs as real + secs);
      && !res.1
      && (acc as real > s.durMax ==> res.0.secs == 0 && res.0.blocked)
      && (acc as real <= s.durMax ==> res.0.secs == acc && !res.0.blocked)
    ensures res.0 == s.(secs := res.0.secs, blocked := res.0.blocked)
  {
    if !s.blocked && InBand(s, upm) then
      var acc := Trunc(s.secs as real + secs);
      if acc as real > s.durMax then (s.(secs := 0, blocked := true), false)
      else (s.(secs := acc), false)
    else if upm < s.upmMin then
      (s.(secs := 0, blocked := false), s.secs as real >= s.durMin)
    else (s, false)
  }

  /** `is_match(upm, secs)` as written: the block test looks at the
      seconds of this call only, so the accumulator is never capped. */
  function IsMatchAsWritten(s: Segment, upm: real, secs: real): (res: (Segment, bool))
    ensures res.1 ==> upm < s.upmMin && s.secs as real >= s.durMin
    ensures !s.blocked && InBand(s, upm) && secs <= s.durMax ==>
      res.0.secs == Trunc(s.secs as real + secs) && !res.0.blocked
  {
    if !s.blocked && InBand(s, upm) then
      var acc := Trunc(s.secs as real + secs);
      if secs > s.durMax then (s.(secs := 0, blocked := true), false)
      else (s.(secs := acc), false)
    else if upm < s.upmMin then
      (s.(secs := 0, blocked := false), s.secs as real >= s.durMin)
    else (s, false)
  }

  /** With whole, non-negative seconds per call, the corrected segment
      never holds more than its maximum duration, so a match always ends a
      stretch whose length lies in the window. */
  lemma MatchWithinWindow(s: Segment, upm: real, secs: int)
    requires 0 <= s.secs && s.secs as real <= s.durMax && secs >= 0
    ensures var (s1, m) := IsMatch(s, upm, secs as real);
      && 0 <= s1.secs && s1.secs as real <= s1.durMax
      && (m ==> s.durMin <= s.secs as real <= s.durMax)
  {
  }

  /** The built-in over-limit segment (band [1, 3), 3 to 7 seconds) fed
      ten one-second samples in band and then one below: as written the
      accumulator reaches 10 and the segment matches, though the stretch
      lasted longer than 7 seconds; corrected, it is blocked and does not
      match. */
  lemma LongStretchMatches()
    ensures var s0 := NewSegment(1.0, 2.0, 3.0, 4.0, 0);
      && RunAsWritten(s0, 2.0, 10).secs == 10
      && IsMatchAsWritten(RunAsWritten(s0, 2.0, 10), 0.0, 1.0).1
      && Run(s0, 2.0, 10).blocked
      && !IsMatch(Run(s0, 2.0, 10), 0.0, 1.0).1
  {
    var s0 := NewSegment(1.0, 2.0, 3.0, 4.0, 0);
    assert s0.upmMax == 3.0 && s0.durMax == 7.0;
    RunAsWrittenCounts(s0, 2.0, 10);
    RunCounts(s0, 2.0, 7);
    assert Trunc(7.0 + 1.0) == 8;
    assert Run(s0, 2.0, 8) == s0.(secs := 0, blocked := true);
    assert Run(s0, 2.0, 9).blocked;
  }

  /** `n` one-second samples at flow `upm`. */
  function Run(s: Segment, upm: real, n: nat): Segment {
    if n == 0 then s else IsMatch(Run(s, upm, n - 1), upm, 1.0).0
  }

  function RunAsWritten(s: Segment, upm: real, n: nat): Segment {
    if n == 0 then s else IsMatchAsWritten(RunAsWritten(s, upm, n - 1), upm, 1.0).0
  }

  /** As written, one-second samples in band only ever add up. */
  lemma {:induction false} RunAsWrittenCounts(s: Segment, upm: real, n: nat)
    requires !s.blocked && InBand(s, upm) && s.durMax >= 1.0 && s.secs >= 0
    ensures RunAsWritten(s, upm, n) == s.(secs := s.secs + n)
  {
    if n > 0 {
      RunAsWrittenCounts(s, upm, n - 1);
    }
  }

  /** Corrected, one-second samples in band add up while the stretch
      stays within the maximum duration. */
  lemma {:induction false} RunCounts(s: Segment, upm: real, n: nat)
    requires !s.blocked && InBand(s, upm) && s.secs >= 0 && (s.secs + n) as real <= s.durMax
    ensures Run(s, upm, n) == s.(secs := s.secs + n)
  {
    if n > 0 {
      RunCounts(s, upm, n - 1);
      assert Trunc((s.secs + n - 1) as real + 1.0) == s.secs + n;
    }
  }

  // ---------------------------------------------------------------------
  // JSON form of a segment

  /** `toJson()`: the four parameters `init` takes. */
  function ToJson(s: Segment): (ja: seq<real>)
    ensures |ja| == 4
    ensures ja[0] == s.upmMin && ja[1] == s.upmAllowance
    ensures ja[2] == s.durMin && ja[2] + ja[3] == s.durMax
  {
    [s.upmMin, s.upmAllowance, s.durMin, s.durMax - s.durMin]
  }

  /** Element `i` of a JSON array; ArduinoJson reads a missing element as 0. */
  function At(ja: seq<real>, i: nat): real {
    if i < |ja| then ja[i] else 0.0
  }

  /** `fromJson(ja)`: `init` from the four elements. */
  function FromJson(s: Segment, ja: seq<real>): (r: Segment)
    ensures WellFormed(r) && r.secs == s.secs && r.blocked == s.blocked
  {
    Init(s, At(ja, 0), At(ja, 1), At(ja, 2), At(ja, 3))
  }

  /** Reading back what a well-formed segment writes gives the segment. */
  lemma JsonRoundTrip(s: Segment)
    requires WellFormed(s)
    ensures FromJson(s, ToJson(s)) == s
  {
  }

  // ---------------------------------------------------------------------
  // Signatures

  datatype Level = Nothing | Report | Alert | Alarm

  /** The `level` text of a signature's JSON form; anything unknown is a
      plain report. */
  function ParseLevel(text: string): (l: Level)
    ensures text == "nothing" <==> l == Nothing
    ensures text == "alert" <==> l == Alert
    ensures text == "alarm" <==> l == Alarm
  {
    if text == "nothing" then Nothing
    else if text == "alert" then Alert
    else if text == "alarm" then Alarm
    else Report
  }

  datatype Signature = Signature(
    name: string,
    segments: seq<Segment>,
    index: int,         // `segment_index`
    level: Level,
    builtIn: bool
  )

  predicate Valid(g: Signature) {
    0 <= g.index < |g.segments|
  }

  /** `Signature::is_match(upm, secs)`: feeds the sample to the segment in
      progress; when it matches, the next segment takes over, and the
      signature matches when the last one did. */
  function SignatureIsMatch(g: Signature, upm: real, secs: real): (res: (Signature, bool))
    requires Valid(g)
    ensures Valid(res.0)
    ensures var (seg, m) := IsMatch(g.segments[g.index], upm, secs);
      && res.0.segments == g.segments[g.index := seg]
      && (res.1 <==> m && g.index == |g.segments| - 1)
      && res.0.index == (if !m then g.index else if res.1 then 0 else g.index + 1)
    ensures res.0.name == g.name && res.0.level == g.level
  {
    var (seg, m) := IsMatch(g.segments[g.index], upm, secs);
    var segs := g.segments[g.index := seg];
    if m && g.index + 1 >= |g.segments| then (g.(segments := segs, index := 0), true)
    else if m then (g.(segments := segs, index := g.index + 1), false)
    else (g.(segments := segs), false)
  }

  /** A signature built from its JSON form: the name defaults to
      "unnamed", the level text is parsed and every array becomes a
      segment (the accumulators start at `secs0`). */
  function FromData(name: Option<string>, level: string, arrays: seq<seq<real>>, secs0: int)
    : (g: Signature)
    ensures |g.segments| == |arrays| && g.index == 0 && !g.builtIn
    ensures g.name == (if name.Some? then name.value else "unnamed")
    ensures g.level == ParseLevel(level)
    ensures forall i :: 0 <= i < |arrays| ==>
      WellFormed(g.segments[i]) && !g.segments[i].blocked &&
      ToJson(g.segments[i]) == [At(arrays[i], 0), At(arrays[i], 1), At(arrays[i], 2), At(arrays[i], 3)]
  {
    var blank := Segment(0.0, 0.0, 0.0, 0.0, 0.0, secs0, false);
    Signature(if name.Some? then name.value else "unnamed",
      seq(|arrays|, i requires 0 <= i < |arrays| => FromJson(blank, arrays[i])),
      0, ParseLevel(level), false)
  }

  /** `SignatureOverLimit`: one segment (1, 2, 3, 4), alarm level. */
  function OverLimit(secs0: int): (g: Signature)
    ensures Valid(g) && g.builtIn && g.level == Alarm && |g.segments| == 1
  {
    Signature("Over limit", [NewSegment(1.0, 2.0, 3.0, 4.0, secs0)], 0, Alarm, true)
  }

  // ---------------------------------------------------------------------
  // The manager

  predicate AllValid(gs: seq<Signature>) {
    forall i :: 0 <= i < |gs| ==> Valid(gs[i])
  }

  /** The manager as constructed holds the built-in signature. */
  function CreateManager(secs0: int): (gs: seq<Signature>)
    ensures AllValid(gs) && |gs| == 1 && gs[0].builtIn
  {
    [OverLimit(secs0)]
  }

  /** Whether signature `g` matches on the sample. */
  predicate Matches(g: Signature, upm: real, secs: real)
    requires Valid(g)
  {
    SignatureIsMatch(g, upm, secs).1
  }

  /** The positions, in increasing order, at which `bs` holds. */
  function Positions(bs: seq<bool>): (p: seq<nat>)
    ensures forall k :: 0 <= k < |p| ==> p[k] < |bs| && bs[p[k]]
    ensures forall i :: 0 <= i < |bs| && bs[i] ==> i in p
    ensures forall j, k :: 0 <= j < k < |p| ==> p[j] < p[k]
  {
    if |bs| == 0 then []
    else
      var init := bs[..|bs| - 1];
      var p := Positions(init);
      if bs[|bs| - 1] then p + [|bs| - 1] else p
  }

  /** The positions, in order, of the signatures that match on the sample. */
  function Hits(gs: seq<Signature>, upm: real, secs: real): (hits: seq<nat>)
    requires AllValid(gs)
    ensures forall k :: 0 <= k < |hits| ==> hits[k] < |gs| && Matches(gs[hits[k]], upm, secs)
    ensures forall i :: 0 <= i < |gs| && Matches(gs[i], upm, secs) ==> i in hits
    ensures forall j, k :: 0 <= j < k < |hits| ==> hits[j] < hits[k]
  {
    Positions(seq(|gs|, i requires 0 <= i < |gs| && Valid(gs[i]) => Matches(gs[i], upm, secs)))
  }

  /** `SignatureManager::is_match(upm, secs)`: every signature takes the
      sample; the result lists, in order, the positions of those that
      matched. */
  function ManagerIsMatch(gs: seq<Signature>, upm: real, secs: real)
    : (res: (seq<Signature>, seq<nat>))
    requires AllValid(gs)
    ensures AllValid(res.0) && |res.0| == |gs|
    ensures forall i :: 0 <= i < |gs| ==> res.0[i] == SignatureIsMatch(gs[i], upm, secs).0
    ensures forall k :: 0 <= k < |res.1| ==> res.1[k] < |gs| && Matches(gs[res.1[k]], upm, secs)
    ensures forall i :: 0 <= i < |gs| && Matches(gs[i], upm, secs) ==> i in res.1
    ensures forall j, k :: 0 <= j < k < |res.1| ==> res.1[j] < res.1[k]
  {
    (seq(|gs|, i requires 0 <= i < |gs| && Valid(gs[i]) => SignatureIsMatch(gs[i], upm, secs).0),
     Hits(gs, upm, secs))
  }

  /** `fromJson(ja)`: the signatures read are appended to those present. */
  function ManagerFromJson(gs: seq<Signature>, read: seq<Signature>): (r: seq<Signature>)
    requires AllValid(gs) && AllValid(read)
    ensures AllValid(r) && |r| == |gs| + |read|
    ensures r[..|gs|] == gs && r[|gs|..] == read
  {
    gs + read
  }
}
