/**
 * The monthly series of update_dashboard: rows are grouped by the calendar
 * month of their start (`dt.to_period("M")`), the groups are listed in month
 * order, and each chart turns one group into one point. The maintenance-type
 * pie keeps the rows of the three known types.
 */
module Monthly {
  import opened Wrappers
  import opened Calendar
  import opened Sequences
  import opened Ordering
  import opened WorkOrders
  import opened Kpi

  /** The month a row is grouped under: the month of its start date. */
  function RowMonth(r: WorkOrder): MonthKey
  {
    MonthOf(r.start.date)
  }

  function InMonth(m: MonthKey): WorkOrder -> bool
  {
    (r: WorkOrder) => RowMonth(r) == m
  }

  function NotInMonth(m: MonthKey): WorkOrder -> bool
  {
    (r: WorkOrder) => RowMonth(r) != m
  }

  /** The group of month m, in row order. */
  function RowsIn(t: Table, m: MonthKey): (g: Table)
    ensures |g| <= |t|
    ensures forall r :: r in g <==> r in t && RowMonth(r) == m
  {
    Where(t, InMonth(m))
  }

  /** The group keys of `groupby("month")`: every month some row starts in, once, in order. */
  function Months(t: Table): (ms: seq<MonthKey>)
    ensures Increasing(ms, MonthBefore)
    ensures forall m :: m in ms <==> exists r :: r in t && RowMonth(r) == m
  {
    var keys := seq(|t|, i requires 0 <= i < |t| => RowMonth(t[i]));
    assert forall r :: r in t ==> RowMonth(r) in keys by {
      forall r | r in t ensures RowMonth(r) in keys {
        var i :| 0 <= i < |t| && t[i] == r;
        assert keys[i] == RowMonth(r);
      }
    }
    SortedMonths(keys)
  }

  /** Distinct months, as a list of group keys must be. */
  lemma MonthsAreDistinct(t: Table)
    ensures forall i, j :: 0 <= i < |Months(t)| && 0 <= j < |Months(t)| && i != j ==> Months(t)[i] != Months(t)[j]
  {
    MonthBeforeIsStrictTotalOrder();
    IncreasingIsDistinct(Months(t), MonthBefore);
  }

  /** Every row falls in exactly one listed month's group. */
  lemma {:induction false} EachRowInExactlyOneMonth(t: Table, r: WorkOrder)
    requires r in t
    ensures RowMonth(r) in Months(t)
    ensures forall m :: r in RowsIn(t, m) <==> m == RowMonth(r)
  {
  }

  /** Every listed month has at least one row: no group is empty. */
  lemma {:induction false} MonthHasRow(t: Table, m: MonthKey)
    requires m in Months(t)
    ensures RowsIn(t, m) != []
  {
    var r :| r in t && RowMonth(r) == m;
    assert r in RowsIn(t, m);
  }

  /** The per-group sums of w over the months ms. */
  function MonthTotals(ms: seq<MonthKey>, t: Table, w: WorkOrder -> real): (totals: seq<real>)
    ensures |totals| == |ms|
    ensures forall i :: 0 <= i < |ms| ==> totals[i] == Total(RowsIn(t, ms[i]), w)
  {
    seq(|ms|, i requires 0 <= i < |ms| => Total(RowsIn(t, ms[i]), w))
  }

  function InSomeMonth(ms: seq<MonthKey>): WorkOrder -> bool
  {
    (r: WorkOrder) => RowMonth(r) in ms
  }

  /**
   * Grouping conserves the sum: over distinct months, the group sums add up
   * to the sum over the rows that fall in one of those months.
   */
  lemma {:induction false} GroupsConserve(ms: seq<MonthKey>, t: Table, w: WorkOrder -> real)
    requires forall i, j :: 0 <= i < |ms| && 0 <= j < |ms| && i != j ==> ms[i] != ms[j]
    ensures SumOf(MonthTotals(ms, t, w)) == Total(Where(t, InSomeMonth(ms)), w)
  {
    if ms == [] {
      WhereNone(t, InSomeMonth(ms));
    } else {
      var m0, tail := ms[0], ms[1..];
      GroupsConserve(tail, t, w);
      assert MonthTotals(tail, t, w) == MonthTotals(ms, t, w)[1..];
      forall m ensures (m in tail) == (m in ms && m != m0) {
        if m in tail {
          var i :| 0 <= i < |tail| && tail[i] == m;
          assert ms[i + 1] == m;
        }
        if m in ms && m != m0 {
          var i :| 0 <= i < |ms| && ms[i] == m;
          assert tail[i - 1] == m;
        }
      }
      var covered := Where(t, InSomeMonth(ms));
      TotalSplits(covered, w, InMonth(m0), NotInMonth(m0));
      WhereThenWhere(t, InSomeMonth(ms), InMonth(m0), InMonth(m0));
      WhereThenWhere(t, InSomeMonth(ms), NotInMonth(m0), InSomeMonth(tail));
    }
  }

  /** The listed months cover the rows and are distinct, so their sums conserve the total. */
  lemma MonthlySumsConserve(t: Table, w: WorkOrder -> real)
    ensures SumOf(MonthTotals(Months(t), t, w)) == Total(t, w)
  {
    MonthsAreDistinct(t);
    GroupsConserve(Months(t), t, w);
    WhereKeepsAll(t, InSomeMonth(Months(t)));
  }

  // ---- Monthly availability bars ----

  datatype AvailabilityBar = AvailabilityBar(month: MonthKey, downtime: real, hoursInMonth: int, availability: real)

  /** `1 - downtime / hours_in_month`: the share of the month without downtime. */
  function MonthAvailability(downtime: real, hours: int): (a: real)
    requires hours > 0
    ensures (1.0 - a) * hours as real == downtime
    ensures downtime >= 0.0 ==> a <= 1.0
    ensures a >= 0.0 <==> downtime <= hours as real
  {
    var a := 1.0 - downtime / hours as real;
    assert downtime == (1.0 - a) * hours as real;
    a
  }

  /** b is month m's bar: the month's downtime over its hours, with the matching availability. */
  predicate IsBarOf(b: AvailabilityBar, t: Table, m: MonthKey)
  {
    && b.month == m && b.downtime == Downtime(RowsIn(t, m)) && b.hoursInMonth == HoursInMonth(m)
    && (1.0 - b.availability) * b.hoursInMonth as real == b.downtime
  }

  /** The bar of month m: its downtime, its hours and its availability. */
  function MonthBar(t: Table, m: MonthKey): (b: AvailabilityBar)
    ensures IsBarOf(b, t, m)
  {
    var d := Downtime(RowsIn(t, m));
    AvailabilityBar(m, d, HoursInMonth(m), MonthAvailability(d, HoursInMonth(m)))
  }

  /** One bar per month with rows, in month order. */
  function AvailabilityBars(t: Table): (bars: seq<AvailabilityBar>)
    ensures |bars| == |Months(t)|
    ensures forall i :: 0 <= i < |bars| ==> IsBarOf(bars[i], t, Months(t)[i])
  {
    var ms := Months(t);
    seq(|ms|, i requires 0 <= i < |ms| => MonthBar(t, ms[i]))
  }

  /** The downtime column of the bar chart's table. */
  function BarDowntimes(bars: seq<AvailabilityBar>): (ds: seq<real>)
    ensures |ds| == |bars| && forall i :: 0 <= i < |bars| ==> ds[i] == bars[i].downtime
  {
    seq(|bars|, i requires 0 <= i < |bars| => bars[i].downtime)
  }

  /** The bars' downtimes add up to the downtime of the whole table. */
  lemma BarsConserveDowntime(t: Table)
    ensures SumOf(BarDowntimes(AvailabilityBars(t))) == Downtime(t)
  {
    var ds := BarDowntimes(AvailabilityBars(t));
    assert ds == MonthTotals(Months(t), t, Hours);
    MonthlySumsConserve(t, Hours);
  }

  // ---- MTBF trend ----

  datatype MtbfPoint = MtbfPoint(month: MonthKey, failures: nat, hoursInMonth: int, mtbf: Option<real>)

  /** `hours_in_month * equip_count / failures.replace(0, nan)`. */
  function MonthMtbf(hours: int, units: nat, failures: nat): (m: Option<real>)
    ensures m.Some? <==> failures > 0
    ensures m.Some? ==> m.value * failures as real == hours as real * units as real
  {
    if failures == 0 then None else Some(hours as real * units as real / failures as real)
  }

  /** One point per month of the failure rows f, in month order. */
  function MtbfSeries(f: Table, units: nat): (pts: seq<MtbfPoint>)
    ensures |pts| == |Months(f)|
    ensures forall i :: 0 <= i < |pts| ==>
      && pts[i].month == Months(f)[i]
      && pts[i].failures == |RowsIn(f, pts[i].month)|
      && pts[i].hoursInMonth == HoursInMonth(pts[i].month)
      && pts[i].mtbf == MonthMtbf(pts[i].hoursInMonth, units, pts[i].failures)
  {
    var ms := Months(f);
    seq(|ms|, i requires 0 <= i < |ms| =>
      var n := |RowsIn(f, ms[i])|;
      MtbfPoint(ms[i], n, HoursInMonth(ms[i]), MonthMtbf(HoursInMonth(ms[i]), units, n)))
  }

  /**
   * The MTBF trend over the failure rows; no series at all without an
   * `is_failure` column. units is the KPI block's equipment count.
   */
  function MtbfTrend(t: Table, units: nat): (pts: Option<seq<MtbfPoint>>)
    ensures pts.Some? <==> HasFailureFlag(t)
    ensures pts.Some? ==> pts.value == MtbfSeries(FailureRows(t), units)
  {
    if HasFailureFlag(t) then Some(MtbfSeries(FailureRows(t), units)) else None
  }

  /** A month appears only because it has a failure, so the NaN replacement never applies. */
  lemma MtbfAlwaysDefined(t: Table, units: nat)
    requires MtbfTrend(t, units).Some?
    ensures forall p :: p in MtbfTrend(t, units).value ==> p.failures >= 1 && p.mtbf.Some?
  {
    var f := FailureRows(t);
    var pts := MtbfTrend(t, units).value;
    forall p | p in pts ensures p.failures >= 1 && p.mtbf.Some? {
      var i :| 0 <= i < |pts| && pts[i] == p;
      MonthHasRow(f, p.month);
    }
  }

  /** The monthly failure counts add up to the failure count of the KPI block. */
  lemma FailuresAddUp(t: Table, units: nat)
    requires MtbfTrend(t, units).Some?
    ensures var pts := MtbfTrend(t, units).value;
      SumOf(seq(|pts|, i requires 0 <= i < |pts| => pts[i].failures as real)) == FailureCount(t) as real
  {
    var f := FailureRows(t);
    var pts := MtbfTrend(t, units).value;
    var counts := seq(|pts|, i requires 0 <= i < |pts| => pts[i].failures as real);
    var one := (r: WorkOrder) => 1.0;
    forall i | 0 <= i < |pts| ensures counts[i] == MonthTotals(Months(f), f, one)[i] {
      TotalOfOnes(RowsIn(f, Months(f)[i]), one);
    }
    assert counts == MonthTotals(Months(f), f, one);
    MonthlySumsConserve(f, one);
    TotalOfOnes(f, one);
  }

  // ---- MTTR trend ----

  datatype MttrPoint = MttrPoint(month: MonthKey, meanHours: real)

  /** The mean repair time of each month of the failure rows f, in month order. */
  function MttrSeries(f: Table): (pts: seq<MttrPoint>)
    ensures |pts| == |Months(f)|
    ensures forall i :: 0 <= i < |pts| ==>
      && pts[i].month == Months(f)[i]
      && RowsIn(f, pts[i].month) != []
      && pts[i].meanHours == Mean(RowsIn(f, pts[i].month), Hours)
  {
    var ms := Months(f);
    assert forall i :: 0 <= i < |ms| ==> RowsIn(f, ms[i]) != [] by {
      forall i | 0 <= i < |ms| ensures RowsIn(f, ms[i]) != [] {
        MonthHasRow(f, ms[i]);
      }
    }
    seq(|ms|, i requires 0 <= i < |ms| => MttrPoint(ms[i], Mean(RowsIn(f, ms[i]), Hours)))
  }

  /** The MTTR trend over the failure rows; no series without an `is_failure` column. */
  function MttrTrend(t: Table): (pts: Option<seq<MttrPoint>>)
    ensures pts.Some? <==> HasFailureFlag(t)
    ensures pts.Some? ==> pts.value == MttrSeries(FailureRows(t))
  {
    if HasFailureFlag(t) then Some(MttrSeries(FailureRows(t))) else None
  }

  /** Each month's MTTR lies between the shortest and longest repair among all failures. */
  lemma MonthlyMttrWithinRepairTimes(t: Table, lo: real, hi: real)
    requires forall r :: r in t && IsFailure(r) ==> lo <= Hours(r) <= hi
    requires MttrTrend(t).Some?
    ensures forall p :: p in MttrTrend(t).value ==> lo <= p.meanHours <= hi
  {
    var f := FailureRows(t);
    var pts := MttrTrend(t).value;
    forall p | p in pts ensures lo <= p.meanHours <= hi {
      var i :| 0 <= i < |pts| && pts[i] == p;
      MonthHasRow(f, p.month);
      MeanWithin(RowsIn(f, p.month), Hours, lo, hi);
    }
  }

  // ---- Maintenance-type pie ----

  const Corrective := "Correctivo"
  const Preventive := "Preventivo"
  const Predictive := "Predictivo"

  predicate OfType(r: WorkOrder, name: string)
  {
    r.maintenanceType == Some(name)
  }

  /** `maintenance_type.isin(["Correctivo", "Preventivo", "Predictivo"])`. */
  predicate PieType(r: WorkOrder)
  {
    OfType(r, Corrective) || OfType(r, Preventive) || OfType(r, Predictive)
  }

  /** The rows the pie is drawn from; None for the placeholder chart without the column. */
  function PieRows(t: Table): (p: Option<Table>)
    ensures p.Some? <==> HasMaintenanceType(t)
    ensures p.Some? ==> IsSubsequence(p.value, t)
    ensures p.Some? ==> forall r :: r in p.value <==> r in t && PieType(r)
  {
    if HasMaintenanceType(t) then
      WhereIsSubsequence(t, PieType);
      Some(Where(t, PieType))
    else None
  }

  /** The mask `maintenance_type == name`. */
  function OfTypeMask(name: string): WorkOrder -> bool
  {
    (r: WorkOrder) => OfType(r, name)
  }

  /** Each pie row is kept as many times as it occurs in the table; no other row is kept. */
  lemma PieRowsKeepRepeats(t: Table)
    requires HasMaintenanceType(t)
    ensures forall r :: multiset(PieRows(t).value)[r] == if PieType(r) then multiset(t)[r] else 0
  {
    WhereCounts(t, PieType);
  }

  /** The number of rows of one maintenance type: the size of its slice. */
  function TypeCount(t: Table, name: string): (n: nat)
    ensures n as real == Total(t, Indicator(OfTypeMask(name)))
    ensures n <= |t|
    ensures n > 0 <==> exists r :: r in t && OfType(r, name)
    ensures forall r :: OfType(r, name) ==> multiset(t)[r] <= n
  {
    var slice := Where(t, OfTypeMask(name));
    WhereCounts(t, OfTypeMask(name));
    WhereLengthCounts(t, OfTypeMask(name));
    assert slice != [] ==> slice[0] in slice;
    assert forall r :: OfType(r, name) ==> multiset(t)[r] <= |slice| by {
      forall r | OfType(r, name) ensures multiset(t)[r] <= |slice| {
        assert multiset(slice)[r] == multiset(t)[r];
        assert multiset(slice)[r] <= |multiset(slice)|;
      }
    }
    |slice|
  }

  /** The three slices account for every row the pie is drawn from. */
  lemma PieSlicesAddUp(t: Table)
    requires HasMaintenanceType(t)
    ensures |PieRows(t).value| == TypeCount(t, Corrective) + TypeCount(t, Preventive) + TypeCount(t, Predictive)
  {
    var c, p, d := OfTypeMask(Corrective), OfTypeMask(Preventive), OfTypeMask(Predictive);
    var cp := (r: WorkOrder) => OfType(r, Corrective) || OfType(r, Preventive);
    WhereSplits(t, PieType, cp, d);
    WhereSplits(t, cp, c, p);
  }
}
