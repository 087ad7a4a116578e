/** `SpecificAllowances`: temporary extra flow (`upm`) and usage the
    controller grants by name, each with an expiry time after which it is
    dropped. Their totals raise the over-limit thresholds
    (`calc_max_plus_values`).

    The corrected list drops an allowance once its expiry time has PASSED;
    the code as written (both in `delete_item` and in `get_totals`) drops
    the allowances whose expiry time has NOT passed yet. Both are modelled;
    the rest of the model uses the corrected one. */
module Allowances {
  import opened Seqs

  datatype Allowance = Allowance(
    name: string,
    upm: real,
    usage: real,
    expireTime: int,
    createNamedSession: bool
  )

  /** Still in force at `now`. */
  predicate Live(a: Allowance, now: int) {
    a.expireTime >= now
  }

  /** The test under which `delete_item` keeps an entry, corrected. */
  predicate Keep(a: Allowance, name: string, now: int) {
    a.name != name && Live(a, now)
  }

  /** The test under which `delete_item` keeps an entry, as written. */
  predicate KeepAsWritten(a: Allowance, name: string, now: int) {
    a.name != name && a.expireTime < now
  }

  /** `delete_item(name)`: drops the named entry and, in passing, every
      expired one; survivors keep their order. */
  function DeleteItem(l: seq<Allowance>, name: string, now: int): (r: seq<Allowance>)
    ensures forall i :: 0 <= i < |r| ==> r[i].name != name && Live(r[i], now)
    ensures forall i :: 0 <= i < |l| && l[i].name != name && Live(l[i], now) ==> l[i] in r
    ensures forall i :: 0 <= i < |r| ==> r[i] in l
  {
    Filter(l, (a: Allowance) => Keep(a, name, now))
  }

  function DeleteItemAsWritten(l: seq<Allowance>, name: string, now: int): (r: seq<Allowance>)
    ensures forall i :: 0 <= i < |r| ==> r[i].name != name && r[i].expireTime < now
    ensures forall i :: 0 <= i < |l| && l[i].name != name && l[i].expireTime < now ==> l[i] in r
  {
    Filter(l, (a: Allowance) => KeepAsWritten(a, name, now))
  }

  /** `add_item`: replaces any entry of the same name, appended last. */
  function AddItem(l: seq<Allowance>, a: Allowance, now: int): (r: seq<Allowance>)
    ensures |r| >= 1 && r[|r| - 1] == a
    ensures forall i :: 0 <= i < |r| - 1 ==> r[i].name != a.name && Live(r[i], now)
    ensures forall i :: 0 <= i < |r| - 1 ==> r[i] in l
    ensures forall i :: 0 <= i < |l| && Keep(l[i], a.name, now) ==> l[i] in r
  {
    DeleteItem(l, a.name, now) + [a]
  }

  /** `get(name)`: the first entry of that name. */
  function Get(l: seq<Allowance>, name: string): (r: Option<Allowance>)
    ensures r.Some? ==> r.value in l && r.value.name == name
    ensures r.Some? ==>
      exists i :: (0 <= i < |l| && l[i] == r.value && (forall j :: 0 <= j < i ==> l[j].name != name))
    ensures r.None? <==> forall i :: 0 <= i < |l| ==> l[i].name != name
  {
    match FirstIndex(l, (a: Allowance) => a.name == name)
    case None => None
    case Some(i) => Some(l[i])
  }

  /** After `add_item` the name is found and finds the new entry. */
  lemma AddThenGet(l: seq<Allowance>, a: Allowance, now: int)
    ensures Get(AddItem(l, a, now), a.name) == Some(a)
  {
    var r := AddItem(l, a, now);
    var k := FirstIndex(r, (x: Allowance) => x.name == a.name);
    assert r[|r| - 1].name == a.name;
    assert k.Some? && k.value == |r| - 1;
  }

  // ---------------------------------------------------------------------
  // Totals

  function SumUpm(l: seq<Allowance>): real {
    if |l| == 0 then 0.0 else SumUpm(l[..|l| - 1]) + l[|l| - 1].upm
  }

  function SumUsage(l: seq<Allowance>): real {
    if |l| == 0 then 0.0 else SumUsage(l[..|l| - 1]) + l[|l| - 1].usage
  }

  /** Appending one entry adds its upm and usage to the totals. */
  lemma SumsAppend(l: seq<Allowance>, x: Allowance)
    ensures SumUpm(l + [x]) == SumUpm(l) + x.upm
    ensures SumUsage(l + [x]) == SumUsage(l) + x.usage
  {
    assert (l + [x])[..|l|] == l;
  }

  /** Extending the scanned prefix by one entry extends the filter by that
      entry exactly when the test keeps it. */
  lemma FilterStep(l: seq<Allowance>, i: nat, keep: Allowance -> bool)
    requires i < |l|
    ensures Filter(l[..i + 1], keep) ==
      Filter(l[..i], keep) + (if keep(l[i]) then [l[i]] else [])
  {
    assert l[..i + 1] == l[..i] + [l[i]];
    FilterAppend(l[..i], [l[i]], keep);
    assert [l[i]][1..] == [];
  }

  /** The totals `get_totals` adds to its accumulators, and the list it
      leaves, given the test under which it keeps an entry. */
  method EraseAndSum(l: seq<Allowance>, keep: Allowance -> bool, upm0: real, usage0: real)
    returns (kept: seq<Allowance>, upm: real, usage: real)
    ensures kept == Filter(l, keep)
    ensures upm == upm0 + SumUpm(kept) && usage == usage0 + SumUsage(kept)
  {
    kept, upm, usage := [], upm0, usage0;
    var i := 0;
    while i < |l|
      invariant 0 <= i <= |l|
      invariant kept == Filter(l[..i], keep)
      invariant upm == upm0 + SumUpm(kept) && usage == usage0 + SumUsage(kept)
    {
      FilterStep(l, i, keep);
      if keep(l[i]) {
        SumsAppend(kept, l[i]);
        kept := kept + [l[i]];
        upm := upm + l[i].upm;
        usage := usage + l[i].usage;
      }
      i := i + 1;
    }
    assert l[..|l|] == l;
  }

  /** The list `get_totals` leaves, corrected: the expired allowances are
      erased, the live ones kept in order. */
  function Purge(l: seq<Allowance>, now: int): (r: seq<Allowance>)
    ensures forall i :: 0 <= i < |r| ==> Live(r[i], now) && r[i] in l
    ensures forall i :: 0 <= i < |l| && Live(l[i], now) ==> l[i] in r
    ensures |r| <= |l|
  {
    Filter(l, (a: Allowance) => Live(a, now))
  }

  /** `get_totals`, corrected: the live allowances are summed, the expired
      ones are erased. */
  method GetTotals(l: seq<Allowance>, now: int, upm0: real, usage0: real)
    returns (kept: seq<Allowance>, upm: real, usage: real)
    ensures kept == Purge(l, now)
    ensures forall i :: 0 <= i < |kept| ==> Live(kept[i], now) && kept[i] in l
    ensures forall i :: 0 <= i < |l| && Live(l[i], now) ==> l[i] in kept
    ensures upm == upm0 + SumUpm(kept) && usage == usage0 + SumUsage(kept)
  {
    kept, upm, usage := EraseAndSum(l, (a: Allowance) => Live(a, now), upm0, usage0);
  }

  /** The list `get_totals` leaves as written: only the allowances whose
      expiry has passed, in order. */
  function Expired(l: seq<Allowance>, now: int): (r: seq<Allowance>)
    ensures forall i :: 0 <= i < |r| ==> r[i].expireTime < now && r[i] in l
    ensures forall i :: 0 <= i < |l| && l[i].expireTime < now ==> l[i] in r
    ensures |r| <= |l|
  {
    Filter(l, (a: Allowance) => a.expireTime < now)
  }

  /** `get_totals` as written: it erases the allowances still in force and
      sums the expired ones. */
  method GetTotalsAsWritten(l: seq<Allowance>, now: int, upm0: real, usage0: real)
    returns (kept: seq<Allowance>, upm: real, usage: real)
    ensures kept == Expired(l, now)
    ensures forall i :: 0 <= i < |kept| ==> kept[i].expireTime < now && kept[i] in l
    ensures upm == upm0 + SumUpm(kept) && usage == usage0 + SumUsage(kept)
  {
    kept, upm, usage := EraseAndSum(l, (a: Allowance) => a.expireTime < now, upm0, usage0);
  }

  /** An allowance of 2.0 upm expiring at 100: at time 10 the code as
      written erases it (it counts nothing), while the corrected totals
      count it; and deleting another name erases it as written. */
  lemma LiveAllowanceErased()
    ensures var l := [Allowance("a", 2.0, 5.0, 100, false)];
      && SumUpm(Expired(l, 10)) == 0.0
      && SumUpm(Purge(l, 10)) == 2.0
      && DeleteItemAsWritten(l, "b", 10) == []
      && DeleteItem(l, "b", 10) == l
      && DeleteItem(l, "b", 101) == []
  {
    var l := [Allowance("a", 2.0, 5.0, 100, false)];
    assert Expired(l, 10) == [];
    assert Purge(l, 10) == l;
    assert [l[0]][..0] == [];
  }

  // ---------------------------------------------------------------------
  // Conversion and thresholds

  /** `convert_uom(f)`: both amounts of every allowance. */
  function ConvertAll(l: seq<Allowance>, f: real -> real): (r: seq<Allowance>)
    ensures |r| == |l|
    ensures forall i :: 0 <= i < |l| ==>
      r[i] == l[i].(upm := f(l[i].upm), usage := f(l[i].usage))
  {
    seq(|l|, i requires 0 <= i < |l| => l[i].(upm := f(l[i].upm), usage := f(l[i].usage)))
  }

  /** `calc_max_plus_values` given the totals: a negative flow maximum
      means no limit and stays so; a usage maximum is raised only when one
      is set (positive), otherwise the previous value stays. */
  function MaxPlus(maxUpm: real, maxUsage: real, maxUsagePlus: real, upmAllowance: real,
                   usageAllowance: real): (r: (real, real))
    ensures maxUpm < 0.0 ==> r.0 == maxUpm
    ensures maxUpm >= 0.0 ==> r.0 - maxUpm == upmAllowance
    ensures maxUsage > 0.0 ==> r.1 - maxUsage == usageAllowance
    ensures maxUsage <= 0.0 ==> r.1 == maxUsagePlus
  {
    (if maxUpm < 0.0 then maxUpm else maxUpm + upmAllowance,
     if maxUsage > 0.0 then maxUsage + usageAllowance else maxUsagePlus)
  }
}
