/**
 * Upload acceptance and the derived `duration_hours` column (parse_contents).
 * Decoding the base64 payload and reading the workbook are outside the model:
 * the reader's outcome is an input.
 */
module Ingest {
  import opened Wrappers
  import opened WorkOrders
  import opened Text

  /** What reading the workbook (and parsing its timestamps) produced. */
  datatype SheetRead = Sheet(table: Table) | ReadError(reason: string)

  /** The parse outcome: a table and the upload message, or only a message. */
  datatype Upload = Loaded(table: Table, message: string) | Rejected(message: string)

  const UnsupportedFormatMessage := "Formato no compatible. Por favor, sube un archivo Excel (.xlsx)."

  /** The upload is read as a workbook when its name contains "xlsx" anywhere. */
  predicate AcceptsFileName(filename: string)
  {
    Contains(filename, "xlsx")
  }

  /** One row with `duration_hours` set from `duration_minutes` when that column exists. */
  function WithHours(r: WorkOrder): WorkOrder
  {
    if r.durationMinutes.Some? then r.(durationHours := Some(r.durationMinutes.value / 60.0)) else r
  }

  /** `df["duration_hours"] = df["duration_minutes"] / 60.0`, when the column is present. */
  function DeriveHours(t: Table): (r: Table)
    ensures |r| == |t|
    ensures forall i :: 0 <= i < |t| ==> r[i].(durationHours := t[i].durationHours) == t[i]
    ensures forall i :: 0 <= i < |t| && t[i].durationMinutes.Some? ==>
              r[i].durationHours.Some? && r[i].durationHours.value * 60.0 == t[i].durationMinutes.value
    ensures forall i :: 0 <= i < |t| && t[i].durationMinutes.None? ==> r[i] == t[i]
  {
    seq(|t|, i requires 0 <= i < |t| => WithHours(t[i]))
  }

  function ParseContents(filename: string, read: SheetRead): (u: Upload)
    ensures u.Loaded? <==> AcceptsFileName(filename) && read.Sheet?
    ensures !AcceptsFileName(filename) ==> u == Rejected(UnsupportedFormatMessage)
    ensures u.Loaded? ==> u.table == DeriveHours(read.table)
    ensures u.Loaded? ==> u.message == "Archivo '" + filename + "' cargado correctamente."
    ensures AcceptsFileName(filename) && read.ReadError? ==>
              u == Rejected("Error al procesar el archivo: " + read.reason)
  {
    if AcceptsFileName(filename) then
      match read
      case Sheet(t) => Loaded(DeriveHours(t), "Archivo '" + filename + "' cargado correctamente.")
      case ReadError(e) => Rejected("Error al procesar el archivo: " + e)
    else
      Rejected(UnsupportedFormatMessage)
  }

  /** Deriving the column keeps the table's shape: same columns in every row, same timestamps. */
  lemma {:induction false} DeriveHoursKeepsWellFormed(t: Table)
    requires WellFormed(t)
    ensures WellFormed(DeriveHours(t))
    ensures HasDurationHours(DeriveHours(t)) <==> |t| == 0 || t[0].durationMinutes.Some? || t[0].durationHours.Some?
  {
    var r := DeriveHours(t);
    forall i, j | 0 <= i < |t| && 0 <= j < |t| ensures SameColumns(r[i], r[j]) {
      assert SameColumns(t[i], t[j]);
    }
    if |t| > 0 {
      forall i | 0 <= i < |t| ensures SameColumns(t[0], t[i]) {
      }
    }
  }

  /** The name test is a substring test: a name with "xlsx" in the middle is read as a workbook. */
  lemma NameTestIsSubstringTest()
    ensures AcceptsFileName("orders.xlsx.bak")
    ensures AcceptsFileName("xlsx_export.csv")
    ensures !AcceptsFileName("orders.csv")
  {
    assert OccursAt("orders.xlsx.bak", "xlsx", 7);
    assert OccursAt("xlsx_export.csv", "xlsx", 0);
    NoXlsxIn("orders.csv");
  }

  /** A name none of whose characters is 'x' does not contain "xlsx". */
  lemma NoXlsxIn(s: string)
    requires forall i :: 0 <= i < |s| ==> s[i] != 'x'
    ensures !Contains(s, "xlsx")
  {
    forall i ensures !OccursAt(s, "xlsx", i) {
      if 0 <= i <= |s| - 4 {
        assert s[i..i + 4][0] == s[i];
      }
    }
  }
}
