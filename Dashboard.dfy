/**
 * update_dashboard end to end: the upload is parsed again, filtered by the
 * date range and the scope, and either every card and chart shows its
 * placeholder ("N/A", empty figure) or the KPI cards and the four charts are
 * computed from the filtered rows.
 */
module Dashboard {
  import opened Wrappers
  import opened Calendar
  import opened Text
  import opened Sequences
  import opened WorkOrders
  import opened Ingest
  import opened Scope
  import opened Filter
  import opened Kpi
  import opened Monthly

  /** The upload component's state: the file name and what reading its bytes as a sheet gave. */
  datatype UploadedFile = UploadedFile(filename: string, read: SheetRead)

  datatype Report =
    | Placeholders
    | Report(kpis: Kpis, bars: seq<AvailabilityBar>, pie: Option<Table>,
             mtbfTrend: Option<seq<MtbfPoint>>, mttrTrend: Option<seq<MttrPoint>>)

  /** The parsed table, or None when nothing is uploaded or parsing rejected the file. */
  function LoadedTable(upload: Option<UploadedFile>): (t: Option<Table>)
    ensures t.Some? <==> upload.Some? && AcceptsFileName(upload.value.filename) && upload.value.read.Sheet?
    ensures t.Some? ==> t.value == DeriveHours(upload.value.read.table)
  {
    if upload.None? then None
    else
      match ParseContents(upload.value.filename, upload.value.read)
      case Loaded(t, _) => Some(t)
      case Rejected(_) => None
  }

  /**
   * What the callback needs not to raise: a well-formed table with the
   * selected scope's column and, when some row survives the filter, both
   * range bounds and the `duration_hours` and `equipment` columns.
   */
  predicate Computable(upload: Option<UploadedFile>, startDate: Option<Date>, endDate: Option<Date>, scopeValue: Option<string>)
  {
    match LoadedTable(upload)
    case None => true
    case Some(t) =>
      && WellFormed(t)
      && ScopeColumnPresent(t, Decode(scopeValue))
      && (FilterDf(Some(t), startDate, endDate, scopeValue) != [] ==>
            && HasDurationHours(t) && HasEquipment(t)
            && startDate.Some? && endDate.Some? && ValidDate(startDate.value) && ValidDate(endDate.value))
  }

  /** The four cards and four charts for the current upload, date range and scope. */
  function UpdateDashboard(upload: Option<UploadedFile>, startDate: Option<Date>, endDate: Option<Date>, scopeValue: Option<string>): (r: Report)
    requires Computable(upload, startDate, endDate, scopeValue)
    ensures r.Placeholders? <==> LoadedTable(upload).None? || FilterDf(LoadedTable(upload), startDate, endDate, scopeValue) == []
    ensures r.Report? ==>
      var dff := FilterDf(LoadedTable(upload), startDate, endDate, scopeValue);
      && KpiInputs(dff, startDate, endDate)
      && r.kpis == ComputeKpis(dff, startDate, endDate)
      && r.kpis.interventions == |dff| >= 1
      && r.bars == AvailabilityBars(dff)
      && r.pie == PieRows(dff)
      && r.mtbfTrend == MtbfTrend(dff, EquipmentCount(dff))
      && r.mttrTrend == MttrTrend(dff)
  {
    match LoadedTable(upload)
    case None => Placeholders
    case Some(t) =>
      var dff := FilterDf(Some(t), startDate, endDate, scopeValue);
      if dff == [] then Placeholders
      else
        SelectionKeepsColumns(t, dff);
        var kpis := ComputeKpis(dff, startDate, endDate);
        Report(kpis, AvailabilityBars(dff), PieRows(dff), MtbfTrend(dff, EquipmentCount(dff)), MttrTrend(dff))
  }

  /**
   * The cards and charts see the loaded table's optional columns exactly as
   * loaded: when rows survive the filter, the filtered table has the
   * `is_failure` and `maintenance_type` columns iff the loaded table does.
   */
  lemma FilteredRowsKeepColumns(t: Table, startDate: Option<Date>, endDate: Option<Date>, scopeValue: Option<string>)
    requires WellFormed(t) && ScopeColumnPresent(t, Decode(scopeValue))
    ensures var dff := FilterDf(Some(t), startDate, endDate, scopeValue);
            dff != [] ==>
              && (HasFailureFlag(dff) <==> HasFailureFlag(t))
              && (HasMaintenanceType(dff) <==> HasMaintenanceType(t))
  {
    var dff := FilterDf(Some(t), startDate, endDate, scopeValue);
    if dff != [] {
      SelectionKeepsColumns(t, dff);
    }
  }

  /**
   * Every area the dropdown offers selects at least one row when no dates
   * are set, provided the area's name does not itself contain the prefix.
   */
  lemma OfferedAreaSelectsRows(t: Table, a: string)
    requires a in AreaNames(t) && !Contains(a, AreaPrefix)
    ensures ScopeColumnPresent(t, Decode(Some(EncodeArea(a))))
    ensures FilterDf(Some(t), None, None, Some(EncodeArea(a))) != []
  {
    AreaNamesListEachAreaOnce(t);
    AreaRoundTrip(a);
    var i :| 0 <= i < |t| && t[i].area == Some(a);
    assert t[i] in FilterDf(Some(t), None, None, Some(EncodeArea(a)));
  }

  /** Likewise for every equipment unit the dropdown offers. */
  lemma OfferedEquipmentSelectsRows(t: Table, e: string)
    requires e in EquipmentNames(t) && !Contains(e, EquipmentPrefix)
    ensures ScopeColumnPresent(t, Decode(Some(EncodeEquipment(e))))
    ensures FilterDf(Some(t), None, None, Some(EncodeEquipment(e))) != []
  {
    EquipmentNamesListEachUnitOnce(t);
    EquipmentRoundTrip(e);
    var i :| 0 <= i < |t| && t[i].equipment == Some(e);
    assert t[i] in FilterDf(Some(t), None, None, Some(EncodeEquipment(e)));
  }

  /** A `.csv` upload shows only placeholders. */
  lemma CsvUploadShowsPlaceholders(read: SheetRead, startDate: Option<Date>, endDate: Option<Date>, scopeValue: Option<string>)
    ensures ParseContents("orders.csv", read) == Rejected(UnsupportedFormatMessage)
    ensures UpdateDashboard(Some(UploadedFile("orders.csv", read)), startDate, endDate, scopeValue) == Placeholders
  {
    NoXlsxIn("orders.csv");
  }
}
