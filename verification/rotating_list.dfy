/** `WaterUsageList<T>`: a ring of `closedMax + 1` records, one of which is
    the current record at `indexCurrent` (-1 until the first rotation), the
    others holding up to `countClosed` closed records that the backward
    iterator `getPreviousClosed` yields most recent first.

    This module is the CORRECTED list that the rest of the model uses. It
    differs from the code as written in four places, each modelled literally
    and exhibited in module RotatingListAsWritten:
    - `next` stops counting closed records once `countClosed == closedMax`;
    - `next` only closes an outgoing record that is still open;
    - `set_max_closed` makes sure there is a current record before copying;
    - `set_max_closed` stores the kept closed records oldest-first, so that
      the slot just below the current one is the most recent. */
module RotatingList {
  import opened Records
  import opened Seqs

  /** One week of hourly slots. */
  const MaxClosedLimit: int := 24 * 7

  datatype List = List(
    kind: Kind,
    wut: seq<Record>,
    lastClosed: Record,
    countClosed: int,
    closedMax: int,
    indexCurrent: int
  )

  function Min(a: int, b: int): int {
    if a <= b then a else b
  }

  /** The clamp of `set_max_closed`: out-of-range requests become 0. */
  function Clamp(n: int): (m: int)
    ensures 0 <= m <= MaxClosedLimit
    ensures 0 <= n <= MaxClosedLimit ==> m == n
    ensures n < 0 || n > MaxClosedLimit ==> m == 0
  {
    if n < 0 || n > MaxClosedLimit then 0 else n
  }

  /** The shape the corrected list keeps: before the ring first wraps the
      closed records sit just below the current index (`countClosed ==
      indexCurrent`); afterwards every other slot holds one
      (`countClosed == closedMax`). */
  predicate Valid(l: List) {
    && 0 <= l.closedMax <= MaxClosedLimit
    && |l.wut| == l.closedMax + 1
    && -1 <= l.indexCurrent <= l.closedMax
    && 0 <= l.countClosed <= l.closedMax
    && (l.indexCurrent == -1 ==> l.countClosed == 0)
    && (l.indexCurrent >= 0 ==> l.countClosed == l.indexCurrent || l.countClosed == l.closedMax)
  }

  /** No slot's flags changed: the list only ever stamps, clears, closes
      and moves records, and never sets or clears a flag. */
  predicate SameFlags(a: List, b: List) {
    && a.kind == b.kind && |a.wut| == |b.wut|
    && forall i :: 0 <= i < |a.wut| ==> a.wut[i].flags == b.wut[i].flags
  }

  /** Every slot carries flag `f` (the session list's slots all start on
      first usage). */
  predicate AllHave(l: List, f: Flag) {
    forall i :: 0 <= i < |l.wut| ==> f in l.wut[i].flags
  }

  // ---------------------------------------------------------------------
  // The backward iterator

  /** One call of `getPreviousClosed(last)` once a current record exists:
      step one slot down from `last` (from the current index when there is
      no `last`), jump to `countClosed` below slot 0, and stop on reaching
      the current index. */
  function PreviousClosedStep(idx: int, cc: int, last: Option<int>): Option<int> {
    var down := (if last.Some? then last.value else idx) - 1;
    var ret := if down < 0 then cc else down;
    if ret == idx then None else Some(ret)
  }

  /** The integers from `hi` down to `lo`. */
  function Down(hi: int, lo: int): (s: seq<int>)
    requires lo <= hi + 1
    ensures |s| == hi - lo + 1
    ensures forall k :: 0 <= k < |s| ==> s[k] == hi - k
  {
    seq(hi - lo + 1, k => hi - k)
  }

  /** What the iterator yields: from just below the current index down to
      slot 0, then from `countClosed` down to just above the current index. */
  function ExpectedWalk(idx: int, cc: int): seq<int>
    requires 0 <= idx <= cc
  {
    Down(idx - 1, 0) + Down(cc, idx + 1)
  }

  /** The `k`-th slot of that walk, in closed form. */
  function Slot(idx: int, cc: int, k: int): int {
    if k < idx then idx - 1 - k else cc + idx - k
  }

  lemma ExpectedWalkSlots(idx: int, cc: int)
    requires 0 <= idx <= cc
    ensures |ExpectedWalk(idx, cc)| == cc
    ensures forall k :: 0 <= k < cc ==> ExpectedWalk(idx, cc)[k] == Slot(idx, cc, k)
  {
  }

  /** Runs the iterator the way every caller does (`while ((last =
      getPreviousClosed(last)))`) and collects the indices it yields. The
      loop terminates and yields exactly the expected walk whenever the
      current index does not exceed `countClosed`. */
  method Walk(idx: int, cc: int) returns (out: seq<int>)
    requires 0 <= idx <= cc
    ensures out == ExpectedWalk(idx, cc)
  {
    ExpectedWalkSlots(idx, cc);
    out := [];
    var last: Option<int> := None;
    var step := PreviousClosedStep(idx, cc, last);
    while step.Some?
      invariant |out| <= cc
      invariant forall k :: 0 <= k < |out| ==> out[k] == Slot(idx, cc, k)
      invariant |out| == 0 ==> last == None
      invariant |out| > 0 ==> last == Some(Slot(idx, cc, |out| - 1))
      invariant step == PreviousClosedStep(idx, cc, last)
      invariant step.Some? <==> |out| < cc
      invariant step.Some? ==> step.value == Slot(idx, cc, |out|)
      decreases cc - |out|
    {
      out := out + [step.value];
      last := step;
      step := PreviousClosedStep(idx, cc, last);
    }
  }

  /** On a valid list the walk stays inside the ring, never yields the
      current slot and never yields a slot twice. */
  lemma WalkInRing(l: List)
    requires Valid(l) && l.indexCurrent >= 0
    ensures |ExpectedWalk(l.indexCurrent, l.countClosed)| == l.countClosed
    ensures forall k :: 0 <= k < l.countClosed ==>
      0 <= ExpectedWalk(l.indexCurrent, l.countClosed)[k] <= l.closedMax
    ensures l.indexCurrent !in ExpectedWalk(l.indexCurrent, l.countClosed)
    ensures forall j, k :: 0 <= j < k < l.countClosed ==>
      ExpectedWalk(l.indexCurrent, l.countClosed)[j] != ExpectedWalk(l.indexCurrent, l.countClosed)[k]
  {
    ExpectedWalkSlots(l.indexCurrent, l.countClosed);
  }

  /** The closed records in the order the iterator yields them. */
  function ClosedInOrder(l: List): (c: seq<Record>)
    requires Valid(l)
  {
    if l.indexCurrent < 0 then []
    else
      seq(l.countClosed, k requires 0 <= k < l.countClosed =>
        l.wut[Slot(l.indexCurrent, l.countClosed, k)])
  }

  /** The iterator yields `countClosed` records. */
  lemma ClosedCount(l: List)
    requires Valid(l)
    ensures |ClosedInOrder(l)| == l.countClosed
  {
  }

  /** The closed records carry every flag all slots carry. */
  lemma ClosedHave(l: List, f: Flag)
    requires Valid(l) && AllHave(l, f)
    ensures forall k :: 0 <= k < |ClosedInOrder(l)| ==> f in ClosedInOrder(l)[k].flags
  {
    if l.indexCurrent >= 0 {
      WalkInRing(l);
      ExpectedWalkSlots(l.indexCurrent, l.countClosed);
    }
  }

  function Current(l: List): Record
    requires Valid(l) && l.indexCurrent >= 0
  {
    l.wut[l.indexCurrent]
  }

  // ---------------------------------------------------------------------
  // Construction and rotation

  /** The constructor: `set_max_closed` on a list without storage. */
  function Create(kind: Kind, n: int): (l: List)
    ensures Valid(l)
    ensures l.closedMax == Clamp(n) && l.indexCurrent == -1 && l.countClosed == 0
    ensures ClosedInOrder(l) == []
  {
    var m := Clamp(n);
    List(kind, seq(m + 1, _ => Blank(kind)), Blank(kind), 0, m, -1)
  }

  /** The outgoing record is closed at `now` unless it was closed already. */
  function CloseIfOpen(r: Record, now: int): Record {
    if r.seconds == 0 then Close(r, 0, now) else r
  }

  /** `next()`: the rotation. */
  function Next(l: List, now: int): (r: List)
    requires Valid(l)
    ensures Valid(r)
    ensures r.kind == l.kind && r.closedMax == l.closedMax
    ensures 0 <= r.indexCurrent <= r.closedMax
    ensures l.indexCurrent == -1 || l.indexCurrent >= l.closedMax ==> r.indexCurrent == 0
    ensures 0 <= l.indexCurrent < l.closedMax ==> r.indexCurrent == l.indexCurrent + 1
    ensures l.indexCurrent == -1 ==> r.countClosed == 0 && r.lastClosed == l.lastClosed
    ensures l.indexCurrent >= 0 ==> r.countClosed == Min(l.countClosed + 1, l.closedMax)
    ensures l.indexCurrent >= 0 ==> r.lastClosed == Current(l)
    ensures Current(r).usage == 0.0 && Current(r).seconds == 0 && Current(r).name == []
    ensures SameFlags(l, r)
  {
    var last := l.indexCurrent;
    var wrap := last == -1 || last >= l.closedMax;
    var idx := if wrap then 0 else last + 1;
    var cc := if last == -1 then l.countClosed
              else Min(l.countClosed + 1, l.closedMax);
    var lc := if last != -1 then l.wut[last] else l.lastClosed;
    var w1 := if last != -1 then l.wut[last := CloseIfOpen(l.wut[last], now)] else l.wut;
    var w2 := w1[idx := Init(w1[idx], now)];
    List(l.kind, w2, lc, cc, l.closedMax, idx)
  }

  /** Rotation pushes the outgoing record, now closed, in front of the
      closed records, and drops the oldest one once the ring is full. */
  lemma NextPushesFront(l: List, now: int)
    requires Valid(l) && l.indexCurrent >= 0
    ensures ClosedInOrder(Next(l, now)) ==
      ([CloseIfOpen(Current(l), now)] + ClosedInOrder(l))[..Next(l, now).countClosed]
  {
    var r := Next(l, now);
    var idx, cc := l.indexCurrent, l.countClosed;
    var a := ClosedInOrder(r);
    var b := ([CloseIfOpen(Current(l), now)] + ClosedInOrder(l))[..r.countClosed];
    assert |a| == |b|;
    forall k | 0 <= k < |a|
      ensures a[k] == b[k]
    {
      var s := Slot(r.indexCurrent, r.countClosed, k);
      if k == 0 {
        assert s == idx;
      } else {
        assert s == Slot(idx, cc, k - 1);
        assert s != r.indexCurrent && s != idx;
      }
    }
  }

  /** `getCurrentIndex()`: a list that has never rotated rotates once. */
  function EnsureCurrent(l: List, now: int): (r: List)
    requires Valid(l)
    ensures Valid(r) && r.indexCurrent >= 0
    ensures r.kind == l.kind && r.closedMax == l.closedMax && r.countClosed == l.countClosed
    ensures ClosedInOrder(r) == ClosedInOrder(l)
    ensures l.indexCurrent >= 0 ==> r == l
    ensures SameFlags(l, r)
  {
    if l.indexCurrent == -1 then Next(l, now) else l
  }

  /** `getPreviousClosed(last)`, including the rotation that
      `getCurrentIndex` performs on a list that has never rotated. */
  function GetPreviousClosed(l: List, last: Option<int>, now: int): (res: (List, Option<int>))
    requires Valid(l)
    ensures Valid(res.0) && res.0 == EnsureCurrent(l, now)
    ensures (last.None? || 0 <= last.value <= l.closedMax) && res.1.Some? ==>
      0 <= res.1.value <= l.closedMax
    ensures res.1.Some? ==> res.1.value != res.0.indexCurrent
    ensures last.None? ==> (res.1.Some? <==> res.0.countClosed > 0)
  {
    var l1 := EnsureCurrent(l, now);
    var step := PreviousClosedStep(l1.indexCurrent, l1.countClosed, last);
    (l1, step)
  }

  // ---------------------------------------------------------------------
  // Accumulation, clearing, conversion and resizing

  /** `addUsage(v)`: only the current record changes. */
  function AddUsage(l: List, v: real, now: int): (r: List)
    requires Valid(l)
    ensures Valid(r) && r.indexCurrent >= 0
    ensures r.closedMax == l.closedMax && r.countClosed == l.countClosed
    ensures r.indexCurrent == EnsureCurrent(l, now).indexCurrent
    ensures Current(r) == Records.AddUsage(Current(EnsureCurrent(l, now)), v, now)
    ensures ClosedInOrder(r) == ClosedInOrder(l)
    ensures SameFlags(l, r)
  {
    var l1 := EnsureCurrent(l, now);
    WalkInRing(l1);
    var r := l1.(wut := l1.wut[l1.indexCurrent := Records.AddUsage(Current(l1), v, now)]);
    assert forall k :: 0 <= k < r.countClosed ==>
      Slot(l1.indexCurrent, l1.countClosed, k) != l1.indexCurrent;
    r
  }

  /** `getCurrent()->init()`: the current record starts over in place;
      nothing is closed and nothing rotates. */
  function InitCurrent(l: List, now: int): (r: List)
    requires Valid(l)
    ensures Valid(r) && r.indexCurrent >= 0
    ensures r.closedMax == l.closedMax && r.countClosed == l.countClosed
    ensures r.indexCurrent == EnsureCurrent(l, now).indexCurrent
    ensures Current(r) == Init(Current(EnsureCurrent(l, now)), now)
    ensures ClosedInOrder(r) == ClosedInOrder(l)
    ensures SameFlags(l, r)
  {
    var l1 := EnsureCurrent(l, now);
    WalkInRing(l1);
    var r := l1.(wut := l1.wut[l1.indexCurrent := Init(Current(l1), now)]);
    assert forall k :: 0 <= k < r.countClosed ==>
      Slot(l1.indexCurrent, l1.countClosed, k) != l1.indexCurrent;
    r
  }

  /** `clearClosed()`: the current record moves to slot 0 and the history
      is forgotten. */
  function ClearClosed(l: List, now: int): (r: List)
    requires Valid(l)
    ensures Valid(r) && r.kind == l.kind
    ensures r.indexCurrent == 0 && r.countClosed == 0 && r.closedMax == l.closedMax
    ensures Current(r) == Current(EnsureCurrent(l, now))
    ensures ClosedInOrder(r) == []
    ensures forall f: Flag :: AllHave(l, f) ==> AllHave(r, f)
  {
    var l1 := EnsureCurrent(l, now);
    var w := if l1.indexCurrent != 0 then l1.wut[0 := l1.wut[l1.indexCurrent]] else l1.wut;
    l1.(wut := w, indexCurrent := 0, countClosed := 0)
  }

  /** Converts the records at the given slots, in turn. */
  function ConvertAt(w: seq<Record>, slots: seq<int>, f: real -> real): (r: seq<Record>)
    requires forall k :: 0 <= k < |slots| ==> 0 <= slots[k] < |w|
    ensures |r| == |w|
    ensures forall i :: 0 <= i < |w| ==> r[i].flags == w[i].flags
    ensures forall i :: 0 <= i < |w| && i !in slots ==> r[i] == w[i]
    ensures (forall j, k :: 0 <= j < k < |slots| ==> slots[j] != slots[k]) ==>
      forall i :: 0 <= i < |w| && i in slots ==> r[i] == Convert(w[i], f)
  {
    if |slots| == 0 then w
    else
      var rest := ConvertAt(w, slots[1..], f);
      rest[slots[0] := Convert(rest[slots[0]], f)]
  }

  /** `convert_uom(f)`: the current record, then every record the iterator
      yields. */
  function ConvertUom(l: List, f: real -> real, now: int): (r: List)
    requires Valid(l)
    ensures Valid(r) && r.indexCurrent >= 0
    ensures r.indexCurrent == EnsureCurrent(l, now).indexCurrent
    ensures r.countClosed == l.countClosed && r.closedMax == l.closedMax
    ensures Current(r) == Convert(Current(EnsureCurrent(l, now)), f)
    ensures |ClosedInOrder(r)| == |ClosedInOrder(l)|
    ensures forall k :: 0 <= k < |ClosedInOrder(r)| ==>
      ClosedInOrder(r)[k] == Convert(ClosedInOrder(l)[k], f)
    ensures SameFlags(l, r)
  {
    var l1 := EnsureCurrent(l, now);
    var idx, cc := l1.indexCurrent, l1.countClosed;
    ConvertSlots(l1);
    l1.(wut := ConvertAt(l1.wut, [idx] + ExpectedWalk(idx, cc), f))
  }

  /** The slots `convert_uom` visits: the current one, then the walk. They
      lie in the ring, are pairwise distinct and cover every closed slot. */
  lemma ConvertSlots(l: List)
    requires Valid(l) && l.indexCurrent >= 0
    ensures var idx, cc := l.indexCurrent, l.countClosed;
      var slots := [idx] + ExpectedWalk(idx, cc);
      && (forall k :: 0 <= k < |slots| ==> 0 <= slots[k] < |l.wut|)
      && (forall j, k :: 0 <= j < k < |slots| ==> slots[j] != slots[k])
      && (forall k :: 0 <= k < cc ==> Slot(idx, cc, k) in slots)
  {
    var idx, cc := l.indexCurrent, l.countClosed;
    WalkInRing(l);
    ExpectedWalkSlots(idx, cc);
    var slots := [idx] + ExpectedWalk(idx, cc);
    forall j, k | 0 <= j < k < |slots|
      ensures slots[j] != slots[k]
    {
      if j > 0 {
        assert slots[j] == ExpectedWalk(idx, cc)[j - 1];
      }
    }
    forall k | 0 <= k < cc
      ensures Slot(idx, cc, k) in slots
    {
      assert slots[k + 1] == Slot(idx, cc, k);
    }
  }

  /** The storage `set_max_closed` builds: the kept closed records
      oldest-first, the current record above them, blank records after. */
  function Resized(closed: seq<Record>, cur: Record, keep: int, m: int, kind: Kind)
    : (w: seq<Record>)
    requires 0 <= keep <= m && keep <= |closed|
    ensures |w| == m + 1 && w[keep] == cur
    ensures forall j :: 0 <= j < keep ==> w[j] == closed[keep - 1 - j]
    ensures forall j :: keep < j <= m ==> w[j] == Blank(kind)
  {
    seq(m + 1, j requires 0 <= j <= m =>
      if j < keep then closed[keep - 1 - j]
      else if j == keep then cur
      else Blank(kind))
  }

  /** The resized storage, with the current record at `keep`, is a valid
      list whose iterator yields the kept records in their original order. */
  lemma ResizedInOrder(closed: seq<Record>, cur: Record, keep: int, m: int, kind: Kind,
                       lc: Record)
    requires 0 <= keep <= m <= MaxClosedLimit && keep <= |closed|
    ensures var r := List(kind, Resized(closed, cur, keep, m, kind), lc, keep, m, keep);
      Valid(r) && ClosedInOrder(r) == closed[..keep] && Current(r) == cur
  {
    var r := List(kind, Resized(closed, cur, keep, m, kind), lc, keep, m, keep);
    var c := ClosedInOrder(r);
    forall k | 0 <= k < keep
      ensures c[k] == closed[k]
    {
      assert c[k] == r.wut[keep - 1 - k];
    }
  }

  /** A flag carried by every kept record, the current one and a blank
      record is carried by every slot of the resized storage. */
  lemma ResizedHave(closed: seq<Record>, cur: Record, keep: int, m: int, kind: Kind, f: Flag)
    requires 0 <= keep <= m && keep <= |closed|
    requires forall k :: 0 <= k < |closed| ==> f in closed[k].flags
    requires f in cur.flags && f in Blank(kind).flags
    ensures forall j :: 0 <= j < m + 1 ==> f in Resized(closed, cur, keep, m, kind)[j].flags
  {
    var w := Resized(closed, cur, keep, m, kind);
    forall j | 0 <= j < m + 1
      ensures f in w[j].flags
    {
      if j < keep {
        assert w[j] == closed[keep - 1 - j];
      }
    }
  }

  /** `set_max_closed(n)` on a list that has storage: keeps the current
      record and the `min(n, countClosed)` most recent closed records. */
  function SetMaxClosed(l: List, n: int, now: int): (r: List)
    requires Valid(l)
    ensures Valid(r) && r.kind == l.kind
    ensures r.closedMax == Clamp(n)
    ensures r.countClosed == r.indexCurrent == Min(Clamp(n), l.countClosed)
    ensures Current(r) == Current(EnsureCurrent(l, now))
    ensures ClosedInOrder(r) == ClosedInOrder(l)[..Min(Clamp(n), |ClosedInOrder(l)|)]
  {
    var m := Clamp(n);
    var l1 := EnsureCurrent(l, now);
    var closed := ClosedInOrder(l1);
    ClosedCount(l1);
    var keep := Min(m, |closed|);
    ResizedInOrder(closed, Current(l1), keep, m, l.kind, l1.lastClosed);
    List(l.kind, Resized(closed, Current(l1), keep, m, l.kind), l1.lastClosed, keep, m, keep)
  }

  /** A flag every slot carries, and a blank record too, survives a resize. */
  lemma ResizeKeepsFlag(l: List, n: int, now: int, f: Flag)
    requires Valid(l) && AllHave(l, f) && f in Blank(l.kind).flags
    ensures AllHave(SetMaxClosed(l, n, now), f)
  {
    var l1 := EnsureCurrent(l, now);
    assert AllHave(l1, f);
    ClosedHave(l1, f);
    var closed := ClosedInOrder(l1);
    ClosedCount(l1);
    var keep := Min(Clamp(n), |closed|);
    ResizedHave(closed, Current(l1), keep, Clamp(n), l.kind, f);
  }

  // ---------------------------------------------------------------------
  // Repeated rotation

  function RotateN(l: List, k: nat, now: int): (r: List)
    requires Valid(l)
    ensures Valid(r) && r.closedMax == l.closedMax
  {
    if k == 0 then l else Next(RotateN(l, k - 1, now), now)
  }

  /** After `k >= 1` rotations of a fresh list the iterator yields
      `min(k - 1, closedMax)` records: the first rotation only creates the
      current record, and the ring never holds more than `closedMax`. */
  lemma {:induction false} RotationsRetain(kind: Kind, n: int, k: nat, now: int)
    requires k >= 1
    ensures |ClosedInOrder(RotateN(Create(kind, n), k, now))| == Min(k - 1, Clamp(n))
    ensures RotateN(Create(kind, n), k, now).indexCurrent >= 0
  {
    if k > 1 {
      RotationsRetain(kind, n, k - 1, now);
    }
  }
}
