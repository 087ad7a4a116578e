/** `WaterUsageSessionList`: the irrigation session detector. A session
    starts with the first sample above the base flow, is extended while
    flow continues or pauses briefly, and once flow has been at or below
    the base for `end_session_secs` it is either kept (closed at the end of
    the flow and rotated into the ring) or, when shorter than
    `min_session_secs`, thrown back (re-initialised in place).

    The build defines `DEBUG_SESSION` (app_defs.h), which drops both the
    dormancy wait and the minimum-duration test; the flag `debug` selects
    that variant. */
module Sessions {
  import opened Records
  import opened RotatingList
  import RotatingListAsWritten

  const DefEndSessionSecs: int := 3 * 60
  const DefMinSessionSecs: int := 4 * 60

  datatype SessionList = SessionList(
    list: List,
    timeLastAddUsage: int,  // 0 before the first call
    endSessionSecs: int,
    minSessionSecs: int,
    wf0Secs: int            // seconds of flow at or below the base
  )

  /** Every slot of a session list starts on first usage, so `init` leaves
      a record not started. */
  predicate Valid(s: SessionList) {
    RotatingList.Valid(s.list) && s.list.kind == Kind.Session && AllHave(s.list, StartOnFirstUsage)
  }

  /** The constructor: one closed session kept, default thresholds, and a
      line assumed dormant. */
  function Create(): (s: SessionList)
    ensures Valid(s)
    ensures s.wf0Secs == s.endSessionSecs == DefEndSessionSecs
    ensures s.minSessionSecs == DefMinSessionSecs
    ensures s.list.closedMax == 1 && ClosedInOrder(s.list) == []
  {
    SessionList(RotatingList.Create(Kind.Session, 1), 0, DefEndSessionSecs, DefMinSessionSecs,
      DefEndSessionSecs)
  }

  /** `clearCurrent()`: forgets the open session without closing it. */
  function ClearCurrent(s: SessionList, now: int): (r: SessionList)
    requires Valid(s)
    ensures Valid(r) && r.list.indexCurrent >= 0
    ensures !IsStarted(Current(r.list)) && Current(r.list).usage == 0.0
    ensures ClosedInOrder(r.list) == ClosedInOrder(s.list)
    ensures r.wf0Secs == s.wf0Secs && r.timeLastAddUsage == s.timeLastAddUsage
  {
    s.(list := InitCurrent(s.list, now))
  }

  /** Closes the current session at `endTime` and rotates it into the ring. */
  function CloseAndRotate(l: List, endTime: int, now: int): (r: List)
    requires RotatingList.Valid(l) && l.indexCurrent >= 0
    ensures RotatingList.Valid(r) && r.indexCurrent >= 0
    ensures SameFlags(l, r) && r.closedMax == l.closedMax
    ensures r.lastClosed == Close(Current(l), endTime, now)
    ensures r.countClosed == Min(l.countClosed + 1, l.closedMax)
    ensures ClosedInOrder(r) ==
      ([CloseIfOpen(Close(Current(l), endTime, now), now)] + ClosedInOrder(l))
        [..Min(l.countClosed + 1, l.closedMax)]
  {
    WalkInRing(l);
    var l2 := l.(wut := l.wut[l.indexCurrent := Close(Current(l), endTime, now)]);
    assert ClosedInOrder(l2) == ClosedInOrder(l);
    NextPushesFront(l2, now);
    Next(l2, now)
  }

  function SecsSinceLastCall(s: SessionList, now: int): int {
    if s.timeLastAddUsage != 0 then now - s.timeLastAddUsage else 0
  }

  /** Whether a no-flow tick ends the open session `cur`, given the updated
      dormancy counter. */
  predicate Ends(s: SessionList, cur: Record, wf0: int, debug: bool) {
    IsStarted(cur) && (debug || wf0 >= s.endSessionSecs)
  }

  /** Whether an ending session is long enough to keep. */
  predicate LongEnough(s: SessionList, cur: Record, wf0: int, now: int, debug: bool) {
    debug || TimeSoFar(cur, now - wf0, now) >= s.minSessionSecs
  }

  /** The no-flow half of `addUsage`: `wf0` is the updated dormancy
      counter. */
  function EndIfDormant(s: SessionList, wf0: int, now: int, debug: bool)
    : (res: (SessionList, bool))
    requires Valid(s)
    ensures Valid(res.0) && res.0.list.indexCurrent >= 0 && res.0.timeLastAddUsage == now
    ensures res.0.endSessionSecs == s.endSessionSecs && res.0.minSessionSecs == s.minSessionSecs
    ensures res.0.list.closedMax == s.list.closedMax
    ensures var cur := Current(EnsureCurrent(s.list, now));
      && res.0.wf0Secs == wf0
      && (res.1 <==> Ends(s, cur, wf0, debug) && LongEnough(s, cur, wf0, now, debug))
      && (res.1 ==>
            && res.0.list.countClosed == Min(s.list.countClosed + 1, s.list.closedMax)
            && res.0.list.lastClosed == Close(cur, now - wf0, now)
            && ClosedInOrder(res.0.list) ==
                 ([CloseIfOpen(Close(cur, now - wf0, now), now)] + ClosedInOrder(s.list))
                   [..Min(s.list.countClosed + 1, s.list.closedMax)])
      && (Ends(s, cur, wf0, debug) && !LongEnough(s, cur, wf0, now, debug) ==>
            && ClosedInOrder(res.0.list) == ClosedInOrder(s.list)
            && !IsStarted(Current(res.0.list)) && Current(res.0.list).usage == 0.0)
      && (!Ends(s, cur, wf0, debug) ==> res.0.list == EnsureCurrent(s.list, now))
  {
    var l1 := EnsureCurrent(s.list, now);
    var cur := Current(l1);
    if Ends(s, cur, wf0, debug) then
      if !LongEnough(s, cur, wf0, now, debug) then
        (s.(list := InitCurrent(l1, now), timeLastAddUsage := now, wf0Secs := wf0), false)
      else
        (s.(list := CloseAndRotate(l1, now - wf0, now), timeLastAddUsage := now, wf0Secs := wf0),
         true)
    else
      (s.(list := l1, timeLastAddUsage := now, wf0Secs := wf0), false)
  }

  /** `addUsage(usage)`: one sample. Returns true when a session was
      closed and rotated into the ring. */
  function AddUsage(s: SessionList, usage: real, base: real, now: int, debug: bool)
    : (res: (SessionList, bool))
    requires Valid(s)
    ensures Valid(res.0) && res.0.list.indexCurrent >= 0 && res.0.timeLastAddUsage == now
    ensures res.0.endSessionSecs == s.endSessionSecs && res.0.minSessionSecs == s.minSessionSecs
    ensures res.0.list.closedMax == s.list.closedMax
    // flow: accumulate into the (auto-starting) current session
    ensures usage > base ==>
      && !res.1 && res.0.wf0Secs == 0
      && ClosedInOrder(res.0.list) == ClosedInOrder(s.list)
      && Current(res.0.list) == Records.AddUsage(Current(EnsureCurrent(s.list, now)), usage, now)
    // no flow: count the dormant time; close only a started, long session
    ensures usage <= base ==>
      var wf0 := s.wf0Secs + SecsSinceLastCall(s, now);
      var cur := Current(EnsureCurrent(s.list, now));
      && res.0.wf0Secs == wf0
      && (res.1 <==> Ends(s, cur, wf0, debug) && LongEnough(s, cur, wf0, now, debug))
      && (res.1 ==>
            && res.0.list.countClosed == Min(s.list.countClosed + 1, s.list.closedMax)
            && res.0.list.lastClosed == Close(cur, now - wf0, now)
            && ClosedInOrder(res.0.list) ==
                 ([CloseIfOpen(Close(cur, now - wf0, now), now)] + ClosedInOrder(s.list))
                   [..Min(s.list.countClosed + 1, s.list.closedMax)])
      && (Ends(s, cur, wf0, debug) && !LongEnough(s, cur, wf0, now, debug) ==>
            && ClosedInOrder(res.0.list) == ClosedInOrder(s.list)
            && !IsStarted(Current(res.0.list)) && Current(res.0.list).usage == 0.0)
      && (!Ends(s, cur, wf0, debug) ==> res.0.list == EnsureCurrent(s.list, now))
  {
    if usage <= base then EndIfDormant(s, s.wf0Secs + SecsSinceLastCall(s, now), now, debug)
    else
      (s.(list := RotatingList.AddUsage(s.list, usage, now), timeLastAddUsage := now,
          wf0Secs := 0), false)
  }

  /** Without the debug variant and with a positive minimum duration, the
      session kept in the ring is the one reported as last closed: it ends
      where the flow ended, not at the tick that noticed the dormancy. */
  lemma KeptSessionEndsWithFlow(s: SessionList, usage: real, base: real, now: int)
    requires Valid(s) && s.minSessionSecs > 0 && s.list.closedMax >= 1
    requires AddUsage(s, usage, base, now, false).1
    ensures var r := AddUsage(s, usage, base, now, false).0;
      && |ClosedInOrder(r.list)| >= 1
      && ClosedInOrder(r.list)[0] == r.list.lastClosed
      && r.list.lastClosed.seconds ==
           TimeSoFar(Current(EnsureCurrent(s.list, now)), now - r.wf0Secs, now)
      && r.list.lastClosed.seconds >= s.minSessionSecs
  {
  }

  /** `clearClosed()`, inherited from the ring. */
  function ClearClosed(s: SessionList, now: int): (r: SessionList)
    requires Valid(s)
    ensures Valid(r) && r.list.indexCurrent >= 0 && ClosedInOrder(r.list) == []
    ensures Current(r.list) == Current(EnsureCurrent(s.list, now))
    ensures r.wf0Secs == s.wf0Secs && r.timeLastAddUsage == s.timeLastAddUsage
  {
    s.(list := RotatingList.ClearClosed(s.list, now))
  }

  /** `convert_uom(f)`, inherited from the ring. */
  function ConvertUom(s: SessionList, f: real -> real, now: int): (r: SessionList)
    requires Valid(s)
    ensures Valid(r) && r.list.indexCurrent >= 0
    ensures Current(r.list) == Convert(Current(EnsureCurrent(s.list, now)), f)
    ensures |ClosedInOrder(r.list)| == |ClosedInOrder(s.list)|
    ensures forall k :: 0 <= k < |ClosedInOrder(r.list)| ==>
      ClosedInOrder(r.list)[k] == Convert(ClosedInOrder(s.list)[k], f)
    ensures r.list.closedMax == s.list.closedMax
    ensures r.minSessionSecs == s.minSessionSecs && r.endSessionSecs == s.endSessionSecs
  {
    s.(list := RotatingList.ConvertUom(s.list, f, now))
  }

  /** `set_max_closed(n)`, inherited from the ring: the resized storage
      still starts every slot on first usage. */
  function SetMaxClosed(s: SessionList, n: int, now: int): (r: SessionList)
    requires Valid(s)
    ensures Valid(r) && r.list.closedMax == Clamp(n) && r.list.indexCurrent >= 0
    ensures r.list.countClosed <= |ClosedInOrder(s.list)|
    ensures ClosedInOrder(r.list) == ClosedInOrder(s.list)[..Min(Clamp(n), |ClosedInOrder(s.list)|)]
    ensures Current(r.list) == Current(EnsureCurrent(s.list, now))
  {
    ResizeKeepsFlag(s.list, n, now, StartOnFirstUsage);
    ClosedCount(s.list);
    s.(list := RotatingList.SetMaxClosed(s.list, n, now))
  }

  /** The closing branch as written: `close(end)` then `next()`, whose
      unconditional `close()` stamps the kept record again at `now`. */
  function CloseSessionAsWritten(s: SessionList, wf0: int, now: int): (r: List)
    requires Valid(s)
    ensures |r.wut| == |s.list.wut|
    ensures var l1 := EnsureCurrent(s.list, now);
      r.indexCurrent != l1.indexCurrent ==>
        r.wut[l1.indexCurrent].seconds == TimeSoFar(Current(l1), 0, now)
  {
    var l1 := EnsureCurrent(s.list, now);
    var l2 := l1.(wut := l1.wut[l1.indexCurrent := Close(Current(l1), now - wf0, now)]);
    RotatingListAsWritten.NextAsWritten(l2, now)
  }

  /** A session that starts at 1000, last flows at 1500 and is noticed
      dormant at 1800 lasted 500 seconds and is reported so, but the ring
      as written keeps it with 800 seconds; the corrected rotation keeps
      500. */
  lemma SessionDurationOverwritten()
    ensures var s1 := AddUsage(Create(), 1.0, 0.0, 1000, false).0;
            var s2 := AddUsage(s1, 1.0, 0.0, 1500, false).0;
            var s3 := AddUsage(s2, 0.0, 0.0, 1800, false);
      && s3.1
      && s3.0.list.lastClosed.seconds == 500
      && ClosedInOrder(s3.0.list)[0].seconds == 500
      && CloseSessionAsWritten(s2, 300, 1800).wut[0].seconds == 800
  {
    var s0 := Create();
    var s1 := AddUsage(s0, 1.0, 0.0, 1000, false).0;
    assert s1.list.indexCurrent == 0 && Current(s1.list).startTime == 1000;
    var s2 := AddUsage(s1, 1.0, 0.0, 1500, false).0;
    assert s2.list.indexCurrent == 0 && Current(s2.list).startTime == 1000;
    assert s2.wf0Secs == 0 && s2.timeLastAddUsage == 1500;
    var s3 := AddUsage(s2, 0.0, 0.0, 1800, false);
    assert s3.0.wf0Secs == 300;
  }
}
