/**
 * The four KPI cards of update_dashboard, computed from a non-empty filtered
 * table and the selected date range. Undefined values (NaN, shown as "N/A")
 * are None.
 */
module Kpi {
  import opened Wrappers
  import opened Calendar
  import opened Sequences
  import opened WorkOrders
  import opened Scope

  datatype Kpis = Kpis(availability: Option<real>, mtbf: Option<real>, mttr: Option<real>, interventions: nat)

  /**
   * What the KPI block needs: rows, their columns, and both range bounds
   * (a missing bound, a missing `duration_hours` or `equipment` column raises).
   */
  predicate KpiInputs(t: Table, startDate: Option<Date>, endDate: Option<Date>)
  {
    && |t| > 0 && WellFormed(t) && HasDurationHours(t) && HasEquipment(t)
    && startDate.Some? && endDate.Some? && ValidDate(startDate.value) && ValidDate(endDate.value)
  }

  /** `(end - start).days * 24` for the selected dates. */
  function RangeHours(startDate: Date, endDate: Date): (h: int)
    requires ValidDate(startDate) && ValidDate(endDate)
    ensures h > 0 <==> DateBefore(startDate, endDate)
    ensures h < 0 <==> DateBefore(endDate, startDate)
    ensures h == 0 <==> startDate == endDate
  {
    DateOrderIsOrdinalOrder(startDate, endDate);
    DateOrderIsOrdinalOrder(endDate, startDate);
    (Ordinal(endDate) - Ordinal(startDate)) * 24
  }

  function StartSeconds(t: Table): (s: seq<int>)
    requires WellFormed(t)
    ensures |s| == |t| && forall i :: 0 <= i < |t| ==> s[i] == Seconds(t[i].start)
  {
    seq(|t|, i requires 0 <= i < |t| => Seconds(t[i].start))
  }

  function EndSeconds(t: Table): (s: seq<int>)
    requires WellFormed(t)
    ensures |s| == |t| && forall i :: 0 <= i < |t| ==> s[i] == Seconds(t[i].end)
  {
    seq(|t|, i requires 0 <= i < |t| => Seconds(t[i].end))
  }

  /** `(end_datetime.max() - start_datetime.min()).total_seconds() / 3600`. */
  function SpanHours(t: Table): (h: real)
    requires |t| > 0 && WellFormed(t)
    ensures forall i, j :: 0 <= i < |t| && 0 <= j < |t| ==>
              (Seconds(t[i].end) - Seconds(t[j].start)) as real <= h * 3600.0
    ensures exists i, j :: 0 <= i < |t| && 0 <= j < |t| &&
              (Seconds(t[i].end) - Seconds(t[j].start)) as real == h * 3600.0
  {
    var e, s := EndSeconds(t), StartSeconds(t);
    var span := Max(e) - Min(s);
    var i :| 0 <= i < |e| && e[i] == Max(e);
    var j :| 0 <= j < |s| && s[j] == Min(s);
    assert Seconds(t[i].end) - Seconds(t[j].start) == span;
    assert forall i, j :: 0 <= i < |t| && 0 <= j < |t| ==> Seconds(t[i].end) - Seconds(t[j].start) <= span by {
      forall i, j | 0 <= i < |t| && 0 <= j < |t| ensures Seconds(t[i].end) - Seconds(t[j].start) <= span {
        assert e[i] <= Max(e) && Min(s) <= s[j];
      }
    }
    SecondsToHours(span)
  }

  /** Seconds as hours, so that hours * 3600 gives the seconds back. */
  function SecondsToHours(seconds: int): (h: real)
    ensures h * 3600.0 == seconds as real
  {
    seconds as real / 3600.0
  }

  /** Some row ends strictly after some (possibly other) row starts. */
  predicate EndsAfterAStart(t: Table)
    requires WellFormed(t)
  {
    exists i, j :: 0 <= i < |t| && 0 <= j < |t| && Seconds(t[i].end) > Seconds(t[j].start)
  }

  /** The data-span fallback is positive exactly when some row ends after some row starts. */
  lemma {:induction false} SpanHoursPositiveIff(t: Table)
    requires |t| > 0 && WellFormed(t)
    ensures SpanHours(t) > 0.0 <==> EndsAfterAStart(t)
  {
    var e, s := EndSeconds(t), StartSeconds(t);
    if Max(e) > Min(s) {
      var i :| 0 <= i < |e| && e[i] == Max(e);
      var j :| 0 <= j < |s| && s[j] == Min(s);
      assert Seconds(t[i].end) > Seconds(t[j].start);
    }
  }

  /**
   * The period the KPIs divide by: the selected range when its start date is
   * before its end date (the range hours are then positive), else the data span.
   */
  function PeriodHours(t: Table, startDate: Date, endDate: Date): (h: real)
    requires |t| > 0 && WellFormed(t) && ValidDate(startDate) && ValidDate(endDate)
    ensures RangeHours(startDate, endDate) > 0 <==> DateBefore(startDate, endDate)
    ensures DateBefore(startDate, endDate) ==> h == RangeHours(startDate, endDate) as real && h >= 24.0
    ensures !DateBefore(startDate, endDate) ==> h == SpanHours(t)
  {
    var hours := RangeHours(startDate, endDate);
    DateOrderIsOrdinalOrder(startDate, endDate);
    if hours <= 0 then SpanHours(t) else hours as real
  }

  /** No row has a negative `duration_hours`. */
  predicate NoNegativeHours(t: Table)
  {
    forall r :: r in t ==> 0.0 <= Hours(r)
  }

  /** `duration_hours.sum()`. */
  function Downtime(t: Table): (d: real)
    ensures NoNegativeHours(t) ==> 0.0 <= d
  {
    var d := Total(t, Hours);
    assert NoNegativeHours(t) ==> 0.0 <= d by {
      if NoNegativeHours(t) {
        TotalAtLeast(t, Hours, 0.0);
      }
    }
    d
  }

  /** The downtime of the failure rows and of the other rows add up to the total downtime. */
  lemma DowntimeSplitsByFailure(t: Table)
    ensures Downtime(t) == Downtime(FailureRows(t)) + Downtime(Where(t, (r: WorkOrder) => !IsFailure(r)))
  {
    TotalSplits(t, Hours, IsFailure, (r: WorkOrder) => !IsFailure(r));
  }

  /** `dff[dff["is_failure"]]`. */
  function FailureRows(t: Table): (f: Table)
    ensures |f| <= |t|
    ensures IsSubsequence(f, t)
    ensures forall r :: r in f <==> r in t && IsFailure(r)
  {
    WhereIsSubsequence(t, IsFailure);
    Where(t, IsFailure)
  }

  /** Every failure row is kept as often as it occurs in the table, and no other row is kept. */
  lemma FailureRowsKeepRepeats(t: Table)
    ensures forall r :: multiset(FailureRows(t))[r] == if IsFailure(r) then multiset(t)[r] else 0
  {
    WhereCounts(t, IsFailure);
  }

  /** The failure count; 0 without an `is_failure` column. */
  function FailureCount(t: Table): (n: nat)
    ensures n <= |t|
    ensures n == if HasFailureFlag(t) then |FailureRows(t)| else 0
    ensures n > 0 <==> HasFailureFlag(t) && exists r :: r in t && IsFailure(r)
  {
    if HasFailureFlag(t) then
      var f := FailureRows(t);
      assert f != [] ==> f[0] in f;
      assert forall r :: r in t && IsFailure(r) ==> r in f;
      |f|
    else 0
  }

  /** `equipment.nunique()`: the number of distinct equipment ids. */
  function EquipmentCount(t: Table): (n: nat)
    ensures n == |set e | e in EquipmentNames(t)|
    ensures HasEquipment(t) ==> n == |set e | e in EquipmentColumn(t)|
    ensures !HasEquipment(t) ==> n == 0
  {
    var names := EquipmentNames(t);
    EquipmentNamesListEachUnitOnce(t);
    DistinctCardinality(names);
    assert HasEquipment(t) ==> (set e | e in names) == (set e | e in EquipmentColumn(t));
    |names|
  }

  /** Some unit appears, and no more units than rows. */
  lemma {:induction false} EquipmentCountBounds(t: Table)
    requires |t| > 0 && HasEquipment(t)
    ensures 1 <= EquipmentCount(t) <= |t|
  {
    assert EquipmentColumn(t)[0] in EquipmentNames(t);
  }

  /** `1 - downtime / period` when the period is positive. */
  function AvailabilityOver(period: real, downtime: real): (a: Option<real>)
    ensures a.Some? <==> period > 0.0
    ensures a.Some? ==> (1.0 - a.value) * period == downtime
  {
    if period > 0.0 then Some(1.0 - downtime / period) else None
  }

  /** `period * equipment / failures` when there are failures. */
  function MtbfOver(period: real, units: nat, failures: nat): (m: Option<real>)
    ensures m.Some? <==> failures > 0
    ensures m.Some? ==> m.value * failures as real == period * units as real
  {
    if failures > 0 then Some(period * units as real / failures as real) else None
  }

  /** The mean repair time of the failures; undefined without failures or without the column. */
  function Mttr(t: Table): (m: Option<real>)
    ensures m.Some? <==> FailureCount(t) > 0
    ensures m.Some? ==> m.value * |FailureRows(t)| as real == Downtime(FailureRows(t))
  {
    if HasFailureFlag(t) then
      var f := FailureRows(t);
      if f == [] then None
      else
        var m := Mean(f, Hours);
        assert m * |f| as real == Downtime(f);
        Some(m)
    else None
  }

  /** The four cards; the undefined ones are exactly those whose guard fails. */
  function ComputeKpis(t: Table, startDate: Option<Date>, endDate: Option<Date>): (k: Kpis)
    requires KpiInputs(t, startDate, endDate)
    ensures k.interventions == |t| >= 1
    ensures k.availability.Some? <==> DateBefore(startDate.value, endDate.value) || EndsAfterAStart(t)
    ensures k.availability == AvailabilityOver(PeriodHours(t, startDate.value, endDate.value), Downtime(t))
    ensures k.mtbf.Some? <==> FailureCount(t) > 0
    ensures k.mttr.Some? <==> FailureCount(t) > 0
    ensures k.mtbf == MtbfOver(PeriodHours(t, startDate.value, endDate.value), EquipmentCount(t), FailureCount(t))
    ensures k.mttr == Mttr(t)
  {
    var period := PeriodHours(t, startDate.value, endDate.value);
    SpanHoursPositiveIff(t);
    Kpis(AvailabilityOver(period, Downtime(t)),
         MtbfOver(period, EquipmentCount(t), FailureCount(t)),
         Mttr(t),
         |t|)
  }

  /** Cancelling a positive factor on both sides of an inequality. */
  lemma CancelPositive(a: real, b: real, n: real)
    requires n > 0.0 && a * n <= b * n
    ensures a <= b
  {
    assert (b - a) * n == b * n - a * n;
  }

  /** With no negative durations availability is at most 100%, and it is non-negative exactly when downtime fits in the period. */
  lemma {:induction false} AvailabilityBounds(t: Table, period: real)
    requires forall r :: r in t ==> Hours(r) >= 0.0
    ensures var a := AvailabilityOver(period, Downtime(t));
            a.Some? ==> a.value <= 1.0 && (a.value >= 0.0 <==> Downtime(t) <= period)
  {
    TotalAtLeast(t, Hours, 0.0);
    var a := AvailabilityOver(period, Downtime(t));
    if a.Some? {
      var d := Downtime(t);
      assert (1.0 - a.value) * period == d;
      CancelPositive(0.0, 1.0 - a.value, period);
      assert d == period - a.value * period;
      if a.value >= 0.0 {
        assert a.value * period >= 0.0;
      } else {
        assert a.value * period < 0.0;
      }
    }
  }

  /** MTTR lies between the shortest and the longest repair among the failures. */
  lemma MttrWithinRepairTimes(t: Table, lo: real, hi: real)
    requires forall r :: r in t && IsFailure(r) ==> lo <= Hours(r) <= hi
    ensures Mttr(t).Some? ==> lo <= Mttr(t).value <= hi
  {
    if Mttr(t).Some? {
      MeanWithin(FailureRows(t), Hours, lo, hi);
    }
  }
}
