/** The admin console's attendance report page: the CSV export of the report rows. */
module AttendanceReportPage {
  import opened Wrappers
  import opened Text
  import opened Js
  import opened AuthRoutes
  import Attendance
  import Csv
  import Reports

  /** The header row of the attendance export. */
  const Header: seq<string> := ["ID", "Employee Name", "Email", "Mode", "Timestamp", "Lat", "Lng", "DeviceId", "PhotoUrl"]

  /** `r.mode || ""`. */
  function ModeText(m: Option<Attendance.Mode>): (s: string)
    ensures m.None? <==> s == ""
  {
    if m.Some? then Attendance.ModeName(m.value) else ""
  }

  /** `x ?? ""` for a coordinate; `number` is how JavaScript writes a number as text. */
  function CoordinateText(number: Number -> string, x: Option<Number>): (s: string)
    ensures x.None? ==> s == ""
    ensures x.Some? ==> s == number(x.value)
  {
    if x.Some? then number(x.value) else ""
  }

  /** The cells of one record; `iso` is `new Date(t).toISOString()`. */
  function Row(iso: int -> string, number: Number -> string, r: Reports.AttendanceRow): (cells: seq<string>)
    ensures |cells| == |Header|
    ensures cells[3] == ModeText(r.record.mode) && cells[4] == iso(r.record.timestamp)
    ensures cells[5] == CoordinateText(number, r.record.lat) && cells[6] == CoordinateText(number, r.record.lng)
  {
    [ IntText(r.record.id),
      if r.user.Some? then r.user.value.name else "",
      if r.user.Some? then r.user.value.email else "",
      ModeText(r.record.mode),
      iso(r.record.timestamp),
      CoordinateText(number, r.record.lat),
      CoordinateText(number, r.record.lng),
      r.record.deviceId.GetOr(""),
      r.record.photoUrl.GetOr("") ]
  }

  function Rows(iso: int -> string, number: Number -> string, records: seq<Reports.AttendanceRow>): (rows: seq<seq<string>>)
    ensures |rows| == |records| + 1 && rows[0] == Header
    ensures forall i :: 0 <= i < |records| ==> rows[i + 1] == Row(iso, number, records[i])
  {
    [Header] + seq(|records|, i requires 0 <= i < |records| => Row(iso, number, records[i]))
  }

  /** `downloadCsv`: nothing (an alert) for an empty report, otherwise the header and one line per record. */
  function Export(iso: int -> string, number: Number -> string, records: seq<Reports.AttendanceRow>): (csv: Option<string>)
    ensures csv.None? <==> |records| == 0
    ensures csv.Some? ==> csv.value == Csv.Document(Rows(iso, number, records))
  {
    if |records| == 0 then None else Some(Csv.Document(Rows(iso, number, records)))
  }

  /** When no cell holds a comma or line feed, the export has a line per record after the header, each with the record's nine cells. */
  lemma ExportReadsBack(iso: int -> string, number: Number -> string, records: seq<Reports.AttendanceRow>)
    requires |records| >= 1
    requires forall i, j :: 0 <= i < |records| && 0 <= j < |Header| ==> Csv.PlainCell(Row(iso, number, records[i])[j])
    ensures var lines := Split(Export(iso, number, records).value, '\n');
      && |lines| == |records| + 1
      && Split(lines[0], ',') == Header
      && forall i :: 0 <= i < |records| ==> Split(lines[i + 1], ',') == Row(iso, number, records[i])
  {
    var rows := Rows(iso, number, records);
    forall i, j | 0 <= i < |rows| && 0 <= j < |rows[i]| ensures Csv.PlainCell(rows[i][j]) {
      if i > 0 {
        assert rows[i] == Row(iso, number, records[i - 1]);
      }
    }
    Csv.DocumentReadsBack(rows);
  }
}
