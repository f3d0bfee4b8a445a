/**
 * Worked examples of the dashboard on small June 2024 tables (30 days, 720
 * hours): the numbers a user sees for concrete uploads.
 */
module Scenarios {
  import opened Wrappers
  import opened Calendar
  import opened Text
  import opened Sequences
  import opened WorkOrders
  import opened Ingest
  import opened Scope
  import opened Filter
  import opened Kpi
  import opened Dashboard

  /** A row with `duration_minutes` and `equipment` columns, from 08:00 on 2024-06-day. */
  function SheetRow(day: int, endSecond: int, minutes: real, hours: Option<real>): WorkOrder
  {
    WorkOrder(Timestamp(Date(2024, 6, day), 28800), Timestamp(Date(2024, 6, day), endSecond),
              Some(minutes), hours, None, Some("P1"), None, None)
  }

  /** A loaded row with `duration_hours`, `equipment` and `is_failure` columns. */
  function FailureRow(day: int, unit: string, hours: real, failure: bool): WorkOrder
  {
    WorkOrder(Timestamp(Date(2024, 6, day), 28800), Timestamp(Date(2024, 6, day), 43200),
              None, Some(hours), None, Some(unit), Some(failure), None)
  }

  const June1 := Date(2024, 6, 1)
  const July1 := Date(2024, 7, 1)

  /** A range covering exactly June 2024 is 720 hours long. */
  lemma JuneIs720Hours()
    ensures ValidDate(June1) && ValidDate(July1) && DateBefore(June1, July1)
    ensures RangeHours(June1, July1) == 720
  {
  }

  /** Three June interventions of 60, 120 and 180 minutes, as read from the sheet. */
  function JuneSheet(): Table
  {
    [SheetRow(3, 32400, 60.0, None), SheetRow(10, 36000, 120.0, None), SheetRow(17, 39600, 180.0, None)]
  }

  /** The same rows once loaded, with 1, 2 and 3 hours of downtime. */
  function JuneTable(): Table
  {
    [SheetRow(3, 32400, 60.0, Some(1.0)), SheetRow(10, 36000, 120.0, Some(2.0)), SheetRow(17, 39600, 180.0, Some(3.0))]
  }

  function JuneUpload(): Option<UploadedFile>
  {
    Some(UploadedFile("orders.xlsx", Sheet(JuneSheet())))
  }

  /** Loading "orders.xlsx" gives the three rows with 1, 2 and 3 hours of downtime. */
  lemma JuneUploadLoads()
    ensures LoadedTable(JuneUpload()) == Some(JuneTable())
  {
    assert OccursAt("orders.xlsx", "xlsx", 7);
    var s := JuneSheet();
    assert [WithHours(s[0]), WithHours(s[1]), WithHours(s[2])] == JuneTable();
    assert DeriveHours(s) == JuneTable();
  }

  /** Over June for the whole plant, the filter keeps all three rows. */
  lemma JuneFilterKeepsAll()
    ensures var t := JuneTable();
            FilterDf(Some(t), Some(June1), Some(July1), Some(AllValue)) == t
  {
    var t := JuneTable();
    assert Decode(Some(AllValue)) == WholePlant;
    WhereKeepsAll(t, Kept(Some(June1), Some(July1), WholePlant));
  }

  /** The loaded June table meets what the KPI block needs. */
  lemma JuneInputs()
    ensures KpiInputs(JuneTable(), Some(June1), Some(July1))
  {
    JuneIs720Hours();
  }

  /** The June rows have 6 hours of downtime and, without an `is_failure` column, no failures. */
  lemma JuneTotals()
    ensures Downtime(JuneTable()) == 6.0
    ensures FailureCount(JuneTable()) == 0
  {
    var t := JuneTable();
    assert !HasFailureFlag(t) by {
      assert t[0].isFailure == None;
    }
  }

  /** Over June the three rows give availability 1 - 6/720, no MTBF or MTTR, and 3 interventions. */
  lemma JuneKpis()
    ensures var t := JuneTable();
            && KpiInputs(t, Some(June1), Some(July1))
            && ComputeKpis(t, Some(June1), Some(July1)) == Kpis(Some(1.0 - 6.0 / 720.0), None, None, 3)
  {
    var t := JuneTable();
    JuneInputs();
    JuneTotals();
    JuneIs720Hours();
    assert PeriodHours(t, June1, July1) == 720.0;
  }

  /**
   * Uploaded as "orders.xlsx" and viewed over June for the whole plant, the
   * three interventions give an availability of 1 - 6/720 and no MTBF or MTTR.
   */
  lemma ThreeInterventionsInJune()
    ensures Computable(JuneUpload(), Some(June1), Some(July1), Some(AllValue))
    ensures var r := UpdateDashboard(JuneUpload(), Some(June1), Some(July1), Some(AllValue));
            r.Report? && r.kpis == Kpis(Some(1.0 - 6.0 / 720.0), None, None, 3)
  {
    JuneUploadLoads();
    JuneFilterKeepsAll();
    JuneKpis();
    JuneIs720Hours();
  }

  /** Failures of 2 h and 4 h around a 5 h preventive job: MTTR is 3 h. */
  lemma MttrOfTwoFailures()
    ensures Mttr([FailureRow(3, "P1", 2.0, true), FailureRow(10, "P1", 5.0, false), FailureRow(17, "P1", 4.0, true)])
         == Some(3.0)
  {
    var t := [FailureRow(3, "P1", 2.0, true), FailureRow(10, "P1", 5.0, false), FailureRow(17, "P1", 4.0, true)];
    assert FailureRows(t) == [t[0], t[2]];
  }

  /** Two failures on two units in June. */
  function TwoUnits(): Table
  {
    [FailureRow(3, "P1", 2.0, true), FailureRow(17, "P2", 4.0, true)]
  }

  /** The two-unit table meets what the KPI block needs. */
  lemma TwoUnitsInputs()
    ensures KpiInputs(TwoUnits(), Some(June1), Some(July1))
  {
    JuneIs720Hours();
  }

  /** Both rows are failures, on two distinct units. */
  lemma TwoUnitsCounts()
    ensures FailureCount(TwoUnits()) == 2 && EquipmentCount(TwoUnits()) == 2
  {
    var t := TwoUnits();
    assert FailureRows(t) == t;
    assert EquipmentColumn(t) == ["P1", "P2"];
    EquipmentNamesListEachUnitOnce(t);
    assert "P1" in EquipmentNames(t) && "P2" in EquipmentNames(t);
  }

  /** Two units and two failures over June: MTBF is 720 * 2 / 2 = 720 hours. */
  lemma MtbfOfTwoUnits()
    ensures KpiInputs(TwoUnits(), Some(June1), Some(July1))
    ensures ComputeKpis(TwoUnits(), Some(June1), Some(July1)).mtbf == Some(720.0)
  {
    TwoUnitsInputs();
    TwoUnitsCounts();
    JuneIs720Hours();
    assert PeriodHours(TwoUnits(), June1, July1) == 720.0;
  }
}
