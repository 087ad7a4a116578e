/** `WaterUsageNamedList`: a small table of named usage units (two slots,
    the default size of a `WaterUsageList`). Unlike the rotating lists,
    any number of its units may be active at once; an active unit
    accumulates every sample until it is deleted, cancelled or expires.

    This module holds the CORRECTED table the rest of the model uses and,
    beside it, the operations whose code as written goes wrong, with the
    inputs that show it:
    - `getOldest` returns a null pointer whatever it finds;
    - `add_usage_unit` counts one more active unit even when it restarts or
      evicts one that was already active;
    - a reused slot keeps its `closed` or `canceled` flag, so a slot holding
      an active unit still looks available;
    - `getFirstAvailable` never offers a slot whose closed unit was cleared;
    - `purgeFirstExpired` closes a unit that has NOT expired. */
module NamedUsage {
  import opened Records
  import opened Seqs

  /** `WaterUsageList()` builds `closedMax == 1`, that is two slots. */
  const SlotCount: int := 2

  datatype NamedList = NamedList(
    slots: seq<Record>,
    countActive: int,   // `countActive_`, what `count()` reports
    countClosed: int,
    lastClosed: Record
  )

  /** Number of slots holding an active unit. */
  function ActiveCount(w: seq<Record>): (n: nat)
    ensures n <= |w|
    ensures n == 0 <==> forall i :: 0 <= i < |w| ==> Active !in w[i].flags
    ensures n == |w| <==> forall i :: 0 <= i < |w| ==> Active in w[i].flags
  {
    if |w| == 0 then 0
    else
      var rest := ActiveCount(w[1..]);
      assert forall i :: 1 <= i < |w| ==> w[i] == w[1..][i - 1];
      (if Active in w[0].flags then 1 else 0) + rest
  }

  /** Replacing one slot changes the count by the change of that slot. */
  lemma {:induction false} ActiveCountUpdate(w: seq<Record>, i: nat, r: Record)
    requires i < |w|
    ensures ActiveCount(w[i := r]) ==
      ActiveCount(w) - (if Active in w[i].flags then 1 else 0)
        + (if Active in r.flags then 1 else 0)
  {
    if i > 0 {
      assert w[i := r][1..] == w[1..][i - 1 := r];
      ActiveCountUpdate(w[1..], i - 1, r);
    } else {
      assert w[i := r][1..] == w[1..];
    }
  }

  /** At most one of the three states of a named unit. */
  predicate OneState(r: Record) {
    && (Active in r.flags ==> Closed !in r.flags && Canceled !in r.flags)
    && (Closed in r.flags ==> Canceled !in r.flags)
  }

  /** No two active units share a name. */
  predicate UniqueActive(w: seq<Record>) {
    forall i, j :: 0 <= i < j < |w| && Active in w[i].flags && Active in w[j].flags ==>
      w[i].name != w[j].name
  }

  /** What the corrected table keeps: `count()` is the number of active
      units, active names are unique and every unit is in one state. */
  predicate Valid(l: NamedList) {
    && |l.slots| >= 1
    && l.countActive == ActiveCount(l.slots)
    && UniqueActive(l.slots)
    && forall i :: 0 <= i < |l.slots| ==> OneState(l.slots[i])
  }

  function Create(): (l: NamedList)
    ensures Valid(l) && |l.slots| == SlotCount && l.countActive == 0
  {
    var w := seq(SlotCount, _ => Blank(Named));
    assert ActiveCount(w) == 0;
    NamedList(w, 0, 0, Blank(Named))
  }

  // ---------------------------------------------------------------------
  // Searches

  predicate IsActiveNamed(r: Record, name: string) {
    r.name == name && Active in r.flags
  }

  /** `findActive(name)`. */
  function FindActive(w: seq<Record>, name: string): (r: Option<nat>)
    ensures r.Some? ==> r.value < |w| && IsActiveNamed(w[r.value], name)
    ensures r.Some? ==> forall j :: 0 <= j < r.value ==> !IsActiveNamed(w[j], name)
    ensures r.None? <==> forall j :: 0 <= j < |w| ==> !IsActiveNamed(w[j], name)
  {
    FirstIndex(w, (x: Record) => IsActiveNamed(x, name))
  }

  /** `getFirstAvailable()` as written: a cancelled slot, or one that was
      never started. */
  predicate AvailableAsWritten(r: Record) {
    Canceled in r.flags || (Active !in r.flags && !IsStarted(r))
  }

  function FirstAvailableAsWritten(w: seq<Record>): (r: Option<nat>)
    ensures r.Some? ==> r.value < |w| && AvailableAsWritten(w[r.value])
    ensures r.Some? ==> forall j :: 0 <= j < r.value ==> !AvailableAsWritten(w[j])
    ensures r.None? <==> forall j :: 0 <= j < |w| ==> !AvailableAsWritten(w[j])
  {
    FirstIndex(w, AvailableAsWritten)
  }

  /** Corrected availability: a slot holding neither an active unit nor a
      closed unit still to be reported. This takes in the never-started
      and the cancelled slots, as written, and also a slot whose closed
      unit `clearClosed` has dropped. */
  predicate Available(r: Record) {
    Active !in r.flags && Closed !in r.flags
  }

  function FirstAvailable(w: seq<Record>): (r: Option<nat>)
    ensures r.Some? ==> r.value < |w| && Available(w[r.value])
    ensures r.Some? ==> forall j :: 0 <= j < r.value ==> !Available(w[j])
    ensures r.None? <==> forall j :: 0 <= j < |w| ==> !Available(w[j])
  {
    FirstIndex(w, Available)
  }

  /** The loop of `getOldest(flag)` over the first `n` slots: the slot with
      the flag and the smallest start time, the first one on a tie. */
  function OldestIn(w: seq<Record>, flag: Flag, n: nat): (r: Option<nat>)
    requires n <= |w|
    ensures r.Some? ==> r.value < n && flag in w[r.value].flags
    ensures r.Some? ==> forall j :: 0 <= j < n && flag in w[j].flags ==>
      w[r.value].startTime <= w[j].startTime
    ensures r.Some? ==> forall j :: 0 <= j < r.value && flag in w[j].flags ==>
      w[r.value].startTime < w[j].startTime
    ensures r.None? <==> forall j :: 0 <= j < n ==> flag !in w[j].flags
  {
    if n == 0 then None
    else
      var best := OldestIn(w, flag, n - 1);
      if flag in w[n - 1].flags && (best.None? || w[n - 1].startTime < w[best.value].startTime)
      then Some(n - 1)
      else best
  }

  /** Corrected `getOldest(flag)`: it returns the slot it found, and looks
      among the slots that HAVE the flag. */
  function Oldest(w: seq<Record>, flag: Flag): (r: Option<nat>)
    ensures r.Some? ==> r.value < |w| && flag in w[r.value].flags
    ensures r.None? <==> forall j :: 0 <= j < |w| ==> flag !in w[j].flags
  {
    OldestIn(w, flag, |w|)
  }

  /** `getOldest(flag)` as written: the loop selects among the slots
      WITHOUT the flag, and the function then returns a null pointer. */
  function OldestAsWritten(w: seq<Record>, flag: Flag): (r: Option<nat>)
    ensures r.None?
  {
    None
  }

  // ---------------------------------------------------------------------
  // Adding, closing and purging units

  /** The slot `add_usage_unit` (corrected) starts the unit in: the active
      unit of that name, else an available slot, else the oldest closed
      unit, else the oldest active unit. */
  function Choose(w: seq<Record>, name: string): (r: Option<nat>)
    ensures |w| >= 1 ==> r.Some?
    ensures r.Some? ==> r.value < |w|
    ensures FindActive(w, name).Some? ==> r == FindActive(w, name)
    ensures FindActive(w, name).None? && FirstAvailable(w).Some? ==> r == FirstAvailable(w)
    ensures FindActive(w, name).None? && FirstAvailable(w).None? && Oldest(w, Closed).Some? ==>
      r == Oldest(w, Closed)
    ensures FindActive(w, name).None? && FirstAvailable(w).None? && Oldest(w, Closed).None? ==>
      r == Oldest(w, Active)
  {
    var found := FindActive(w, name);
    if found.Some? then found
    else
      var avail := FirstAvailable(w);
      if avail.Some? then avail
      else
        var closed := Oldest(w, Closed);
        if closed.Some? then closed
        else Oldest(w, Active)
  }

  /** The choice lands on an active unit of another name only when every
      slot holds an active unit. */
  lemma ChooseEvictsOnlyWhenFull(w: seq<Record>, name: string)
    requires |w| >= 1 && forall j :: 0 <= j < |w| ==> OneState(w[j])
    ensures var i := Choose(w, name).value;
      Active in w[i].flags && w[i].name != name ==> forall k :: 0 <= k < |w| ==> Active in w[k].flags
  {
    var i := Choose(w, name).value;
    if Active in w[i].flags && w[i].name != name {
      assert FindActive(w, name).None?;
      assert FirstAvailable(w).None?;
      assert Oldest(w, Closed).None?;
    }
  }

  /** The unit as started in a slot: `init`, name, expiry, `start(active)`.
      The corrected start drops the slot's previous state flags first. */
  function StartUnit(r: Record, name: string, expireTime: int, now: int): (u: Record)
    ensures IsActiveNamed(u, name) && OneState(u)
    ensures u.startTime == now && u.usage == 0.0 && u.seconds == 0 && u.expireTime == expireTime
  {
    Start(Init(r.(flags := {}), now).(name := name, expireTime := expireTime), now, {Active})
  }

  /** Starting a unit named `name` in slot `i` keeps the table valid,
      provided `i` is the slot of the active unit of that name if there is
      one. */
  lemma PlaceKeepsValid(l: NamedList, i: nat, u: Record, name: string)
    requires Valid(l) && i < |l.slots| && IsActiveNamed(u, name) && OneState(u)
    requires FindActive(l.slots, name).Some? ==> i == FindActive(l.slots, name).value
    ensures var w := l.slots[i := u];
      && Valid(l.(slots := w, countActive := ActiveCount(w)))
      && FindActive(w, name) == Some(i)
  {
    var w := l.slots[i := u];
    forall j, k | 0 <= j < k < |w| && Active in w[j].flags && Active in w[k].flags
      ensures w[j].name != w[k].name
    {
      if j == i {
        assert !IsActiveNamed(l.slots[k], name);
      } else if k == i {
        assert !IsActiveNamed(l.slots[j], name);
      }
    }
    var f := FindActive(w, name);
    assert IsActiveNamed(w[i], name);
    assert f.Some?;
    assert !(f.value > i);
  }

  /** `add_usage_unit(name, expire_time)`, corrected. */
  function AddUsageUnit(l: NamedList, name: string, expireTime: int, now: int)
    : (res: (NamedList, bool))
    requires Valid(l)
    ensures Valid(res.0) && res.1 && |res.0.slots| == |l.slots|
    ensures FindActive(res.0.slots, name).Some?
    ensures var i := FindActive(res.0.slots, name).value;
      && res.0.slots[i].startTime == now && res.0.slots[i].usage == 0.0
      && res.0.slots[i].expireTime == expireTime
      && forall j :: 0 <= j < |l.slots| && j != i ==> res.0.slots[j] == l.slots[j]
    // an active unit of another name is evicted only from a full table
    ensures forall j ::
      0 <= j < |l.slots| && Active in l.slots[j].flags && !IsActiveNamed(res.0.slots[j], l.slots[j].name)
      ==> forall k :: 0 <= k < |l.slots| ==> Active in l.slots[k].flags
    ensures res.0.countClosed == l.countClosed && res.0.lastClosed == l.lastClosed
  {
    var i := Choose(l.slots, name).value;
    var u := StartUnit(l.slots[i], name, expireTime, now);
    var w := l.slots[i := u];
    ActiveCountUpdate(l.slots, i, u);
    PlaceKeepsValid(l, i, u, name);
    ChooseEvictsOnlyWhenFull(l.slots, name);
    (l.(slots := w, countActive := ActiveCount(w)), true)
  }

  /** `close_usage_unit(pwun, cancel)` on an active unit. */
  function CloseUsageUnit(l: NamedList, i: nat, cancel: bool, now: int): (r: NamedList)
    requires Valid(l) && i < |l.slots| && Active in l.slots[i].flags
    ensures Valid(r) && |r.slots| == |l.slots| && r.countActive == l.countActive - 1
    ensures r.countClosed == l.countClosed + 1
    ensures Active !in r.slots[i].flags
    ensures r.slots[i].flags == l.slots[i].flags - {Active} + {if cancel then Canceled else Closed}
    ensures r.slots[i].seconds == TimeSoFar(l.slots[i], 0, now)
    ensures r.slots[i].usage == l.slots[i].usage && r.slots[i].name == l.slots[i].name
    ensures r.lastClosed == r.slots[i]
    ensures forall j :: 0 <= j < |l.slots| && j != i ==> r.slots[j] == l.slots[j]
  {
    var c := Close(l.slots[i], 0, now);
    var u := c.(flags := c.flags - {Active} + {if cancel then Canceled else Closed});
    ActiveCountUpdate(l.slots, i, u);
    assert UniqueActive(l.slots[i := u]);
    NamedList(l.slots[i := u], l.countActive - 1, l.countClosed + 1, u)
  }

  /** `delete_usage_unit(name, cancel)`: closes the active unit of that
      name, if there is one. */
  function DeleteUsageUnit(l: NamedList, name: string, cancel: bool, now: int)
    : (res: (NamedList, bool))
    requires Valid(l)
    ensures Valid(res.0)
    ensures res.1 <==> FindActive(l.slots, name).Some?
    ensures res.1 ==> res.0.countActive == l.countActive - 1
    ensures FindActive(res.0.slots, name).None?
    ensures !res.1 ==> res.0 == l
    ensures |res.0.slots| == |l.slots|
    // the unit found is the one closed, published as `lastClosed`; no other slot moves
    ensures res.1 ==> var i := FindActive(l.slots, name).value;
      && res.0.slots[i].flags == l.slots[i].flags - {Active} + {if cancel then Canceled else Closed}
      && res.0.slots[i].usage == l.slots[i].usage && res.0.slots[i].name == name
      && res.0.slots[i].seconds == TimeSoFar(l.slots[i], 0, now)
      && res.0.lastClosed == res.0.slots[i]
      && forall j :: 0 <= j < |l.slots| && j != i ==> res.0.slots[j] == l.slots[j]
  {
    match FindActive(l.slots, name)
    case None => (l, false)
    case Some(i) =>
      var r := CloseUsageUnit(l, i, cancel, now);
      assert forall j :: 0 <= j < |r.slots| ==> !IsActiveNamed(r.slots[j], name);
      (r, true)
  }

  predicate Expired(r: Record, now: int) {
    Active in r.flags && r.expireTime <= now
  }

  /** The first active unit whose expiry time has come. */
  function FirstExpired(w: seq<Record>, now: int): (r: Option<nat>)
    ensures r.Some? ==> r.value < |w| && Expired(w[r.value], now)
    ensures r.Some? ==> forall j :: 0 <= j < r.value ==> !Expired(w[j], now)
    ensures r.None? <==> forall j :: 0 <= j < |w| ==> !Expired(w[j], now)
  {
    FirstIndex(w, (x: Record) => Expired(x, now))
  }

  /** `purgeFirstExpired()`, corrected: closes the first active unit whose
      expiry time has come. */
  function PurgeFirstExpired(l: NamedList, now: int): (res: (NamedList, bool))
    requires Valid(l)
    ensures Valid(res.0) && |res.0.slots| == |l.slots|
    ensures res.1 <==> exists j :: 0 <= j < |l.slots| && Expired(l.slots[j], now)
    ensures res.1 ==> res.0.countActive == l.countActive - 1
    ensures !res.1 ==> res.0 == l
    // the first expired unit is the one closed (not cancelled); no other slot moves
    ensures res.1 ==> var i := FirstExpired(l.slots, now).value;
      && res.0.slots[i].flags == l.slots[i].flags - {Active} + {Closed}
      && res.0.slots[i].usage == l.slots[i].usage && res.0.slots[i].name == l.slots[i].name
      && res.0.lastClosed == res.0.slots[i]
      && forall j :: 0 <= j < |l.slots| && j != i ==> res.0.slots[j] == l.slots[j]
    // an active unit that has not expired stays active and untouched
    ensures forall j ::
      0 <= j < |l.slots| && Active in l.slots[j].flags && !Expired(l.slots[j], now)
      ==> res.0.slots[j] == l.slots[j]
  {
    match FirstExpired(l.slots, now)
    case None => (l, false)
    case Some(i) => (CloseUsageUnit(l, i, false, now), true)
  }

  /** `while (purgeFirstExpired());` from the hourly tick. */
  function PurgeExpired(l: NamedList, now: int): (r: NamedList)
    requires Valid(l)
    ensures Valid(r) && |r.slots| == |l.slots|
    ensures forall j :: 0 <= j < |r.slots| ==> !Expired(r.slots[j], now)
    ensures forall j ::
      0 <= j < |l.slots| && Active in l.slots[j].flags && !Expired(l.slots[j], now)
      ==> r.slots[j] == l.slots[j]
    decreases l.countActive
  {
    var (l1, purged) := PurgeFirstExpired(l, now);
    if purged then PurgeExpired(l1, now) else l
  }

  /** `addUsage(usage)`: every active unit accumulates the sample. */
  function AddUsage(l: NamedList, v: real, now: int): (r: NamedList)
    requires Valid(l)
    ensures Valid(r) && |r.slots| == |l.slots|
    ensures forall j :: 0 <= j < |l.slots| ==>
      r.slots[j] == (if Active in l.slots[j].flags then Records.AddUsage(l.slots[j], v, now)
                     else l.slots[j])
    ensures r.countActive == l.countActive && r.countClosed == l.countClosed
  {
    var w := seq(|l.slots|, j requires 0 <= j < |l.slots| =>
      if Active in l.slots[j].flags then Records.AddUsage(l.slots[j], v, now) else l.slots[j]);
    SameActive(l.slots, w);
    l.(slots := w)
  }

  /** Two tables whose slots agree on the active flag count the same. */
  lemma {:induction false} SameActive(a: seq<Record>, b: seq<Record>)
    requires |a| == |b|
    requires forall j :: 0 <= j < |a| ==> (Active in a[j].flags <==> Active in b[j].flags)
    ensures ActiveCount(a) == ActiveCount(b)
  {
    if |a| > 0 {
      SameActive(a[1..], b[1..]);
    }
  }

  /** `clearClosed()`: forgets the closed units; active ones stay. */
  function ClearClosed(l: NamedList): (r: NamedList)
    requires Valid(l)
    ensures Valid(r) && r.countClosed == 0 && |r.slots| == |l.slots|
    ensures forall j :: 0 <= j < |r.slots| ==>
      Closed !in r.slots[j].flags && r.slots[j] == l.slots[j].(flags := l.slots[j].flags - {Closed})
    ensures r.countActive == l.countActive
  {
    var w := seq(|l.slots|, j requires 0 <= j < |l.slots| =>
      l.slots[j].(flags := l.slots[j].flags - {Closed}));
    SameActive(l.slots, w);
    l.(slots := w, countClosed := 0)
  }

  /** `convert_uom(f)`: every slot, active or not. */
  function ConvertUom(l: NamedList, f: real -> real): (r: NamedList)
    requires Valid(l)
    ensures Valid(r) && |r.slots| == |l.slots|
    ensures forall j :: 0 <= j < |r.slots| ==> r.slots[j] == Convert(l.slots[j], f)
    ensures r.countActive == l.countActive
  {
    var w := seq(|l.slots|, j requires 0 <= j < |l.slots| => Convert(l.slots[j], f));
    SameActive(l.slots, w);
    l.(slots := w)
  }

  // ---------------------------------------------------------------------
  // As written

  /** `add_usage_unit` as written: the as-written searches, the slot's
      flags kept, and one more active unit counted whatever the slot held. */
  function AddUsageUnitAsWritten(l: NamedList, name: string, expireTime: int, now: int)
    : (res: (NamedList, bool))
    requires |l.slots| >= 1
    ensures res.1 ==> res.0.countActive == l.countActive + 1
    ensures !res.1 ==> res.0 == l
  {
    var found := FindActive(l.slots, name);
    var pick :=
      if found.Some? then found
      else if FirstAvailableAsWritten(l.slots).Some? then FirstAvailableAsWritten(l.slots)
      else if OldestAsWritten(l.slots, Closed).Some? then OldestAsWritten(l.slots, Closed)
      else OldestAsWritten(l.slots, Active);
    match pick
    case None => (l, false)
    case Some(i) =>
      if i < |l.slots| then
        var r := l.slots[i];
        var u := Start(Init(r, now).(name := name, expireTime := expireTime), now, {Active});
        (l.(slots := l.slots[i := u], countActive := l.countActive + 1), true)
      else (l, false)
  }

  /** `purgeFirstExpired()` as written: the test keeps units whose expiry
      is still AHEAD. */
  function PurgeFirstExpiredAsWritten(l: NamedList, now: int): (res: (NamedList, bool))
    requires Valid(l)
    ensures res.1 <==>
      exists j :: 0 <= j < |l.slots| && Active in l.slots[j].flags && l.slots[j].expireTime > now
  {
    match FirstIndex(l.slots, (x: Record) => Active in x.flags && x.expireTime > now)
    case None => (l, false)
    case Some(i) => (CloseUsageUnit(l, i, false, now), true)
  }

  /** The first unit added to a new table, corrected, goes to slot 0. */
  lemma FirstUnit(name: string, expireTime: int, now: int)
    requires now != 0
    ensures var l := AddUsageUnit(Create(), name, expireTime, now).0;
      && Valid(l) && |l.slots| == 2 && l.slots[1] == Blank(Named)
      && IsActiveNamed(l.slots[0], name) && l.slots[0].flags == {Active} && IsStarted(l.slots[0])
  {
    var l0 := Create();
    assert l0.slots == [Blank(Named), Blank(Named)];
    assert Choose(l0.slots, name) == Some(0);
  }

  /** The first unit added to a new table as written goes to slot 0. */
  lemma FirstUnitAsWritten(name: string, expireTime: int, now: int)
    requires now != 0
    ensures var l := AddUsageUnitAsWritten(Create(), name, expireTime, now).0;
      && Valid(l) && |l.slots| == 2 && l.slots[1] == Blank(Named) && l.countActive == 1
      && IsActiveNamed(l.slots[0], name) && l.slots[0].flags == {Active} && IsStarted(l.slots[0])
  {
    var l0 := Create();
    assert l0.slots == [Blank(Named), Blank(Named)];
    assert FindActive(l0.slots, name).None?;
    assert FirstAvailableAsWritten(l0.slots) == Some(0);
    var l := AddUsageUnitAsWritten(l0, name, expireTime, now).0;
    assert ActiveCount(l.slots) == 1;
  }

  /** A second unit of another name, corrected, goes to the free slot 1. */
  lemma SecondUnit(l: NamedList, name: string, expireTime: int, now: int)
    requires now != 0 && Valid(l) && |l.slots| == 2 && l.slots[1] == Blank(Named)
    requires Active in l.slots[0].flags && l.slots[0].name != name
    ensures var r := AddUsageUnit(l, name, expireTime, now).0;
      && Valid(r) && |r.slots| == 2 && r.slots[0] == l.slots[0]
      && IsActiveNamed(r.slots[1], name) && r.slots[1].flags == {Active} && IsStarted(r.slots[1])
  {
    assert FindActive(l.slots, name).None?;
    assert !Available(l.slots[0]) && Available(l.slots[1]);
    assert Choose(l.slots, name) == Some(1);
  }

  /** Deleting the unit in slot 0 of a two-slot table closes it there. */
  lemma DeletesFirst(l: NamedList, name: string, cancel: bool, now: int)
    requires Valid(l) && |l.slots| == 2 && IsActiveNamed(l.slots[0], name)
    ensures var r := DeleteUsageUnit(l, name, cancel, now).0;
      && Valid(r) && |r.slots| == 2
      && r.countActive == l.countActive - 1
      && r.slots[1] == l.slots[1]
      && r.slots[0].flags == l.slots[0].flags - {Active} + {if cancel then Canceled else Closed}
      && r.slots[0].name == l.slots[0].name && r.slots[0].startTime == l.slots[0].startTime
  {
    assert FindActive(l.slots, name) == Some(0);
  }

  /** From a cancelled slot 0 and a free slot 1, as written: B restarts
      in slot 0, and C then overwrites B there. */
  lemma CanceledStageAsWritten(l: NamedList, now: int)
    requires now != 0 && |l.slots| == 2 && l.countActive == 0
    requires l.slots[0].flags == {Canceled} && l.slots[1] == Blank(Named)
    ensures var l3 := AddUsageUnitAsWritten(l, "B", 100, now).0;
            var l4 := AddUsageUnitAsWritten(l3, "C", 100, now).0;
      && FindActive(l4.slots, "B").None? && !IsStarted(l4.slots[1])
      && l4.countActive == 2 && ActiveCount(l4.slots) == 1
  {
    assert FindActive(l.slots, "B").None? && FirstAvailableAsWritten(l.slots) == Some(0);
    var l3 := AddUsageUnitAsWritten(l, "B", 100, now).0;
    assert l3.slots[0].flags == {Canceled, Active} && l3.slots[0].name == "B";
    assert l3.slots[1] == Blank(Named);
    assert FindActive(l3.slots, "C").None? && FirstAvailableAsWritten(l3.slots) == Some(0);
    var l4 := AddUsageUnitAsWritten(l3, "C", 100, now).0;
    assert l4.slots[0].name == "C" && l4.slots[1] == Blank(Named);
    assert ActiveCount(l4.slots) == 1;
  }

  /** From a cancelled slot 0 and a free slot 1, corrected: B takes slot 0
      and C slot 1. */
  lemma CanceledStage(l: NamedList, now: int)
    requires now != 0 && Valid(l) && |l.slots| == 2
    requires l.slots[0].flags == {Canceled} && l.slots[1] == Blank(Named)
    ensures var l3 := AddUsageUnit(l, "B", 100, now).0;
            var l4 := AddUsageUnit(l3, "C", 100, now).0;
      FindActive(l4.slots, "B") == Some(0) && FindActive(l4.slots, "C") == Some(1)
  {
    assert FindActive(l.slots, "B").None? && Choose(l.slots, "B") == Some(0);
    var l3 := AddUsageUnit(l, "B", 100, now).0;
    assert IsActiveNamed(l3.slots[0], "B") && l3.slots[1] == Blank(Named);
    SecondUnit(l3, "C", 100, now);
  }

  /** A closed unit in slot 0 and active B in slot 1: as written C is
      refused; corrected, C replaces the closed unit. */
  lemma ClosedStage(l: NamedList, now: int)
    requires now != 0 && Valid(l) && |l.slots| == 2
    requires l.slots[0].flags == {Closed} && IsStarted(l.slots[0])
    requires l.slots[1].flags == {Active} && l.slots[1].name == "B"
    ensures !AddUsageUnitAsWritten(l, "C", 100, now).1
    ensures FindActive(AddUsageUnit(l, "C", 100, now).0.slots, "C") == Some(0)
    ensures FindActive(AddUsageUnit(l, "C", 100, now).0.slots, "B") == Some(1)
  {
    assert FindActive(l.slots, "C").None?;
    assert FirstAvailableAsWritten(l.slots).None?;
    assert FirstAvailable(l.slots).None?;
    assert Choose(l.slots, "C") == Some(0);
  }

  /** The same table after `clearClosed`: slot 0 holds nothing to report
      yet is refused as written. */
  lemma ClearedStage(l: NamedList)
    requires Valid(l) && |l.slots| == 2
    requires l.slots[0].flags == {Closed} && IsStarted(l.slots[0])
    requires l.slots[1].flags == {Active} && l.slots[1].name == "B"
    ensures var w := ClearClosed(l).slots;
      && FirstAvailableAsWritten(w).None? && Oldest(w, Closed).None?
      && Oldest(w, Active) == Some(1) && IsActiveNamed(w[1], "B")
      && FirstAvailable(w) == Some(0)
  {
    var w := ClearClosed(l).slots;
    assert w[0].flags == {} && IsStarted(w[0]);
    assert w[1].flags == {Active} && w[1].name == "B";
  }

  /** Adding the same name twice restarts its unit: as written `count()`
      then reports two active units while one slot is active; corrected,
      one. */
  lemma ReAddInflatesCount(now: int)
    requires now != 0
    ensures var l1 := AddUsageUnitAsWritten(Create(), "A", 100, now).0;
            var l2 := AddUsageUnitAsWritten(l1, "A", 100, now).0;
      l2.countActive == 2 && ActiveCount(l2.slots) == 1
    ensures var l1 := AddUsageUnit(Create(), "A", 100, now).0;
            var l2 := AddUsageUnit(l1, "A", 100, now).0;
      l2.countActive == 1 && ActiveCount(l2.slots) == 1
  {
    var l1 := AddUsageUnitAsWritten(Create(), "A", 100, now).0;
    assert l1.slots[0].name == "A" && Active in l1.slots[0].flags;
    assert FindActive(l1.slots, "A") == Some(0);
    var l2 := AddUsageUnitAsWritten(l1, "A", 100, now).0;
    assert Active !in l2.slots[1].flags;
    assert ActiveCount(l2.slots) == 1;
  }

  /** A unit cancelled in slot 0 leaves its `canceled` flag behind: as
      written, unit B restarts there and unit C then overwrites B, though
      slot 1 was never used. */
  lemma CanceledSlotReusedWhileActive(now: int)
    requires now != 0
    ensures var l1 := AddUsageUnitAsWritten(Create(), "A", 100, now).0;
            var l2 := DeleteUsageUnit(l1, "A", true, now).0;
            var l3 := AddUsageUnitAsWritten(l2, "B", 100, now).0;
            var l4 := AddUsageUnitAsWritten(l3, "C", 100, now).0;
      && FindActive(l4.slots, "B").None? && !IsStarted(l4.slots[1])
      && l4.countActive == 2 && ActiveCount(l4.slots) == 1
  {
    FirstUnitAsWritten("A", 100, now);
    var l1 := AddUsageUnitAsWritten(Create(), "A", 100, now).0;
    DeletesFirst(l1, "A", true, now);
    CanceledStageAsWritten(DeleteUsageUnit(l1, "A", true, now).0, now);
  }

  /** The same sequence on the corrected table: C takes slot 1 and B
      stays. */
  lemma CanceledSlotFreed(now: int)
    requires now != 0
    ensures var l1 := AddUsageUnit(Create(), "A", 100, now).0;
            var l2 := DeleteUsageUnit(l1, "A", true, now).0;
            var l3 := AddUsageUnit(l2, "B", 100, now).0;
            var l4 := AddUsageUnit(l3, "C", 100, now).0;
      FindActive(l4.slots, "B") == Some(0) && FindActive(l4.slots, "C") == Some(1)
  {
    FirstUnit("A", 100, now);
    var m1 := AddUsageUnit(Create(), "A", 100, now).0;
    DeletesFirst(m1, "A", true, now);
    CanceledStage(DeleteUsageUnit(m1, "A", true, now).0, now);
  }

  /** Two units added and the first one closed: as written a third unit
      is refused (no slot was never started, and `getOldest` finds
      nothing); corrected, it replaces the closed unit. */
  lemma FullTableRefuses(now: int)
    requires now != 0
    ensures var l2 := AddUsageUnit(AddUsageUnit(Create(), "A", 100, now).0, "B", 100, now).0;
            var l3 := DeleteUsageUnit(l2, "A", false, now).0;
      && !AddUsageUnitAsWritten(l3, "C", 100, now).1
      && FindActive(AddUsageUnit(l3, "C", 100, now).0.slots, "C") == Some(0)
      && FindActive(AddUsageUnit(l3, "C", 100, now).0.slots, "B") == Some(1)
  {
    FirstUnit("A", 100, now);
    var l1 := AddUsageUnit(Create(), "A", 100, now).0;
    SecondUnit(l1, "B", 100, now);
    var l2 := AddUsageUnit(l1, "B", 100, now).0;
    DeletesFirst(l2, "A", false, now);
    ClosedStage(DeleteUsageUnit(l2, "A", false, now).0, now);
  }

  /** After `clearClosed` a closed unit's slot holds nothing to report,
      yet the as-written availability test refuses it: the only slot the
      code could then take is the active unit B. The corrected test offers
      slot 0. */
  lemma ClearedSlotStranded(now: int)
    requires now != 0
    ensures var l2 := AddUsageUnit(AddUsageUnit(Create(), "A", 100, now).0, "B", 100, now).0;
            var w := ClearClosed(DeleteUsageUnit(l2, "A", false, now).0).slots;
      && FirstAvailableAsWritten(w).None? && Oldest(w, Closed).None?
      && Oldest(w, Active) == Some(1) && IsActiveNamed(w[1], "B")
      && FirstAvailable(w) == Some(0)
  {
    FirstUnit("A", 100, now);
    var l1 := AddUsageUnit(Create(), "A", 100, now).0;
    SecondUnit(l1, "B", 100, now);
    var l2 := AddUsageUnit(l1, "B", 100, now).0;
    DeletesFirst(l2, "A", false, now);
    var l3 := DeleteUsageUnit(l2, "A", false, now).0;
    assert l3.slots[0].flags == {Closed} && IsStarted(l3.slots[0]);
    assert l3.slots[1].flags == {Active} && l3.slots[1].name == "B";
    ClearedStage(l3);
  }

  /** A unit that expires at 100 is closed by the as-written purge at time
      10, before it expired; the corrected purge leaves it until 100. */
  lemma PurgeClosesUnexpired()
    ensures var l1 := AddUsageUnit(Create(), "A", 100, 1).0;
      && PurgeFirstExpiredAsWritten(l1, 10).1
      && !PurgeFirstExpired(l1, 10).1
      && PurgeFirstExpired(l1, 100).1
  {
    var l1 := AddUsageUnit(Create(), "A", 100, 1).0;
    assert l1.slots[0].expireTime == 100 && Active in l1.slots[0].flags;
    assert Active !in l1.slots[1].flags;
  }
}
