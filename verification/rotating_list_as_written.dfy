/** `WaterUsageList<T>::next` and `set_max_closed` exactly as written,
    next to the corrected definitions of module RotatingList, with the
    inputs that show where they go wrong. */
module RotatingListAsWritten {
  import opened Records
  import opened Seqs
  import opened RotatingList

  /** The shape the code as written does keep: `countClosed` may grow past
      `closedMax`, but never falls below the current index. */
  predicate Shape(l: List) {
    && 0 <= l.closedMax <= MaxClosedLimit
    && |l.wut| == l.closedMax + 1
    && -1 <= l.indexCurrent <= l.closedMax
    && (l.indexCurrent == -1 ==> l.countClosed == 0)
    && (l.indexCurrent >= 0 ==> l.indexCurrent <= l.countClosed)
  }

  /** `next()` as written: every rotation that does not wrap counts one
      more closed record, and the outgoing record is closed at `now` even
      if it was closed already. */
  function NextAsWritten(l: List, now: int): (r: List)
    requires Shape(l)
    ensures Shape(r)
    ensures r.kind == l.kind && r.closedMax == l.closedMax
    ensures l.indexCurrent == -1 || l.indexCurrent >= l.closedMax ==>
      r.indexCurrent == 0 && r.countClosed == l.countClosed
    ensures 0 <= l.indexCurrent < l.closedMax ==>
      r.indexCurrent == l.indexCurrent + 1 && r.countClosed == l.countClosed + 1
    ensures l.indexCurrent >= 0 ==> r.lastClosed == l.wut[l.indexCurrent]
    ensures l.indexCurrent >= 0 && r.indexCurrent != l.indexCurrent ==>
      r.wut[l.indexCurrent] == Close(l.wut[l.indexCurrent], 0, now)
  {
    var last := l.indexCurrent;
    var lc := if last != -1 then l.wut[last] else l.lastClosed;
    var wrap := last == -1 || last >= l.closedMax;
    var idx := if wrap then 0 else last + 1;
    var cc := if wrap then l.countClosed else l.countClosed + 1;
    var w1 := if last != -1 then l.wut[last := Close(l.wut[last], 0, now)] else l.wut;
    var w2 := w1[idx := Init(w1[idx], now)];
    List(l.kind, w2, lc, cc, l.closedMax, idx)
  }

  /** Where the counting is harmless the two definitions agree: on the
      first rotation, while the ring has not wrapped, and on the wrapping
      rotation itself, provided the outgoing record is still open. */
  lemma NextAgreesBeforeWrap(l: List, now: int)
    requires Valid(l)
    requires l.indexCurrent == -1 || l.countClosed < l.closedMax || l.indexCurrent == l.closedMax
    requires l.indexCurrent >= 0 ==> Current(l).seconds == 0
    ensures Shape(l) && NextAsWritten(l, now) == Next(l, now)
  {
  }

  /** Once the ring has wrapped (`countClosed == closedMax`), every
      rotation that does not wrap pushes `countClosed` past `closedMax`,
      which the corrected `next` never does. */
  lemma CountClosedPassesMax(l: List, now: int)
    requires Valid(l) && l.countClosed == l.closedMax && 0 <= l.indexCurrent < l.closedMax
    ensures Shape(l)
    ensures NextAsWritten(l, now).countClosed == l.closedMax + 1
    ensures Next(l, now).countClosed == l.closedMax
  {
  }

  /** The concrete case: a list built with `closedMax == 1` and rotated
      four times has `countClosed == 2`, and the iterator, after yielding
      slot 0, jumps to slot 2 of a two-slot ring. */
  lemma IteratorLeavesRing(now: int)
    ensures var l := NextAsWritten(NextAsWritten(NextAsWritten(NextAsWritten(
              Create(Period, 1), now), now), now), now);
      && l.closedMax == 1 && |l.wut| == 2
      && l.indexCurrent == 1 && l.countClosed == 2
      && PreviousClosedStep(l.indexCurrent, l.countClosed, None) == Some(0)
      && PreviousClosedStep(l.indexCurrent, l.countClosed, Some(0)) == Some(2)
      && ExpectedWalk(l.indexCurrent, l.countClosed) == [0, 2]
  {
    var l0 := Create(Period, 1);
    var l1 := NextAsWritten(l0, now);
    var l2 := NextAsWritten(l1, now);
    var l3 := NextAsWritten(l2, now);
    var l4 := NextAsWritten(l3, now);
    assert l4.indexCurrent == 1 && l4.countClosed == 2;
    assert Down(0, 0) == [0];
    assert Down(2, 2) == [2];
  }

  // ---------------------------------------------------------------------
  // set_max_closed

  function Reverse<T>(s: seq<T>): (r: seq<T>)
    ensures |r| == |s|
    ensures forall k :: 0 <= k < |s| ==> r[k] == s[|s| - 1 - k]
  {
    seq(|s|, k requires 0 <= k < |s| => s[|s| - 1 - k])
  }

  /** `set_max_closed(n)` as written on a list that has storage. The copy
      loop stores the i-th record the iterator yields (most recent first)
      at slot i and the current record after them. The result is None
      where the code reads outside the ring: `wut[-1]` when the list has
      never rotated and the new maximum is 0 (the copy loop, which would
      have rotated it, does not run), or a slot the iterator yields past
      the end of the ring. */
  function SetMaxClosedAsWritten(l: List, n: int, now: int): (r: Option<List>)
    requires Shape(l)
    ensures r.Some? ==> r.value.closedMax == Clamp(n)
  {
    var m := Clamp(n);
    if m == 0 && l.indexCurrent == -1 then None
    else
      var l1 := if l.indexCurrent == -1 then NextAsWritten(l, now) else l;
      var idx, cc := l1.indexCurrent, l1.countClosed;
      var keep := Min(m, cc);
      if exists k :: 0 <= k < keep && Slot(idx, cc, k) > l1.closedMax then None
      else
        var w := seq(m + 1, j requires 0 <= j <= m =>
          if j < keep then l1.wut[Slot(idx, cc, j)]
          else if j == keep then l1.wut[idx]
          else Blank(l.kind));
        Some(List(l.kind, w, l1.lastClosed, keep, m, keep))
  }

  /** A list as constructed (never rotated) resized to 0, or to an
      out-of-range size that the clamp turns into 0, reads `wut[-1]`; the
      corrected definition rotates first and keeps the new current record. */
  lemma ResizeBeforeFirstRotation(kind: Kind, n0: int, n: int, now: int)
    requires Clamp(n) == 0
    ensures SetMaxClosedAsWritten(Create(kind, n0), n, now) == None
    ensures SetMaxClosed(Create(kind, n0), n, now).indexCurrent == 0
  {
  }

  /** On a list in corrected shape the copy stays inside the ring: slot
      `j` of the new storage holds the `j`-th record the iterator yielded. */
  lemma ResizeCopiesWalk(l: List, n: int, now: int)
    requires Valid(l) && l.indexCurrent >= 0
    ensures Shape(l)
    ensures var r := SetMaxClosedAsWritten(l, n, now);
      var keep := Min(Clamp(n), l.countClosed);
      && r.Some? && r.value.closedMax == Clamp(n) && |r.value.wut| == Clamp(n) + 1
      && r.value.countClosed == r.value.indexCurrent == keep
      && forall j :: 0 <= j < keep ==> r.value.wut[j] == ClosedInOrder(l)[j]
  {
    var idx, cc := l.indexCurrent, l.countClosed;
    var keep := Min(Clamp(n), cc);
    assert forall k :: 0 <= k < keep ==> Slot(idx, cc, k) <= l.closedMax;
  }

  /** On a list in corrected shape the copy succeeds but leaves the kept
      records in reverse: the iterator then yields the OLDEST kept record
      first, contrary to the most-recent-first order of the ring, while the
      corrected definition keeps the order. */
  lemma ResizeReversesOrder(l: List, n: int, now: int)
    requires Valid(l) && l.indexCurrent >= 0
    ensures Shape(l)
    ensures var r := SetMaxClosedAsWritten(l, n, now);
      && r.Some? && Valid(r.value)
      && ClosedInOrder(r.value) == Reverse(ClosedInOrder(l)[..r.value.countClosed])
      && ClosedInOrder(SetMaxClosed(l, n, now)) == ClosedInOrder(l)[..r.value.countClosed]
  {
    ResizedReversed(l, n, now);
    ResizeCopiesWalk(l, n, now);
    ClosedCount(l);
  }

  /** The as-written half of `ResizeReversesOrder`. */
  lemma ResizedReversed(l: List, n: int, now: int)
    requires Valid(l) && l.indexCurrent >= 0
    ensures Shape(l)
    ensures var r := SetMaxClosedAsWritten(l, n, now);
      && r.Some? && Valid(r.value)
      && ClosedInOrder(r.value) == Reverse(ClosedInOrder(l)[..r.value.countClosed])
  {
    ResizeCopiesWalk(l, n, now);
    var r := SetMaxClosedAsWritten(l, n, now).value;
    var keep := r.countClosed;
    ClosedCount(l);
    var c := ClosedInOrder(r);
    var e := Reverse(ClosedInOrder(l)[..keep]);
    assert |c| == |e| == keep;
    forall k | 0 <= k < keep
      ensures c[k] == e[k]
    {
      assert c[k] == r.wut[keep - 1 - k];
    }
  }
}
