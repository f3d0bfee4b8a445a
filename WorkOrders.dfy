/**
 * The work-order table the dashboard loads from a spreadsheet: one record per
 * maintenance intervention. An optional field is None in every row when the
 * sheet has no such column.
 */
module WorkOrders {
  import opened Wrappers
  import opened Calendar

  datatype WorkOrder = WorkOrder(
    start: Timestamp,                 // start_datetime
    end: Timestamp,                   // end_datetime
    durationMinutes: Option<real>,    // duration_minutes
    durationHours: Option<real>,      // duration_hours, derived on upload
    area: Option<string>,             // area
    equipment: Option<string>,        // equipment
    isFailure: Option<bool>,          // is_failure
    maintenanceType: Option<string>)  // maintenance_type

  type Table = seq<WorkOrder>

  /** Two rows come from sheets with the same optional columns. */
  predicate SameColumns(a: WorkOrder, b: WorkOrder)
  {
    && a.durationMinutes.Some? == b.durationMinutes.Some?
    && a.durationHours.Some? == b.durationHours.Some?
    && a.area.Some? == b.area.Some?
    && a.equipment.Some? == b.equipment.Some?
    && a.isFailure.Some? == b.isFailure.Some?
    && a.maintenanceType.Some? == b.maintenanceType.Some?
  }

  /** A table: every row has the same columns and well-formed timestamps. */
  predicate WellFormed(t: Table)
  {
    && (forall i :: 0 <= i < |t| ==> ValidTimestamp(t[i].start) && ValidTimestamp(t[i].end))
    && (forall i, j :: 0 <= i < |t| && 0 <= j < |t| ==> SameColumns(t[i], t[j]))
  }

  predicate HasArea(t: Table)
  {
    forall i :: 0 <= i < |t| ==> t[i].area.Some?
  }

  predicate HasEquipment(t: Table)
  {
    forall i :: 0 <= i < |t| ==> t[i].equipment.Some?
  }

  predicate HasDurationHours(t: Table)
  {
    forall i :: 0 <= i < |t| ==> t[i].durationHours.Some?
  }

  predicate HasFailureFlag(t: Table)
  {
    forall i :: 0 <= i < |t| ==> t[i].isFailure.Some?
  }

  predicate HasMaintenanceType(t: Table)
  {
    forall i :: 0 <= i < |t| ==> t[i].maintenanceType.Some?
  }

  /** A row's duration in hours. */
  function Hours(r: WorkOrder): real
  {
    if r.durationHours.Some? then r.durationHours.value else 0.0
  }

  /** The row's `is_failure` flag is set. */
  predicate IsFailure(r: WorkOrder)
  {
    r.isFailure == Some(true)
  }

  /** The `area` column as a list of values. */
  function AreaColumn(t: Table): (c: seq<string>)
    requires HasArea(t)
    ensures |c| == |t| && forall i :: 0 <= i < |t| ==> t[i].area == Some(c[i])
  {
    seq(|t|, i requires 0 <= i < |t| => t[i].area.value)
  }

  /** The `equipment` column as a list of values. */
  function EquipmentColumn(t: Table): (c: seq<string>)
    requires HasEquipment(t)
    ensures |c| == |t| && forall i :: 0 <= i < |t| ==> t[i].equipment == Some(c[i])
  {
    seq(|t|, i requires 0 <= i < |t| => t[i].equipment.value)
  }

  /**
   * A non-empty selection of rows from a table is a table with the same
   * columns: a DataFrame keeps its columns under a row mask.
   */
  lemma {:induction false} SelectionKeepsColumns(t: Table, r: Table)
    requires WellFormed(t) && r != []
    requires forall x :: x in r ==> x in t
    ensures WellFormed(r)
    ensures HasDurationHours(r) <==> HasDurationHours(t)
    ensures HasArea(r) <==> HasArea(t)
    ensures HasEquipment(r) <==> HasEquipment(t)
    ensures HasFailureFlag(r) <==> HasFailureFlag(t)
    ensures HasMaintenanceType(r) <==> HasMaintenanceType(t)
  {
    assert r[0] in r;
    var k :| 0 <= k < |t| && t[k] == r[0];
    forall i | 0 <= i < |r| ensures exists j :: 0 <= j < |t| && t[j] == r[i] {
      assert r[i] in r;
    }
    forall i | 0 <= i < |t| ensures SameColumns(r[0], t[i]) {
      assert SameColumns(t[k], t[i]);
    }
  }
}
