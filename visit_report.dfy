/**
  * The admin console's visit report page: how a visit's duration is shown
  * and the CSV export of the report rows.
  */
module VisitReportPage {
  import opened Wrappers
  import opened Text
  import opened Js
  import opened AuthRoutes
  import opened Dealers
  import Csv
  import Reports

  const MsPerMinute: int := 60000

  /** How a number of whole minutes is shown: "<h>h <m>m" from one hour on, "<m>m" below that. */
  function MinutesText(minutes: int): (s: string)
    ensures |s| >= 2 && s[|s| - 1] == 'm'
  {
    var hours := minutes / 60;
    if hours > 0 then IntText(hours) + "h " + IntText(Rem(minutes, 60)) + "m"
    else IntText(minutes) + "m"
  }

  /**
    * `formatDuration(checkInAt, checkOutAt)`: "In progress" without a
    * check-out; otherwise the whole minutes elapsed, rounded down.
    */
  function FormatDuration(checkInAt: int, checkOutAt: Option<int>): (s: string)
    ensures checkOutAt.None? <==> s == "In progress"
    ensures checkOutAt.Some? ==> |s| >= 2 && s[|s| - 1] == 'm'
  {
    if checkOutAt.None? then "In progress"
    else
      var s := MinutesText((checkOutAt.value - checkInAt) / MsPerMinute);
      assert "In progress"[10] == 's';
      s
  }

  /**
    * A non-negative number of minutes reads back from its text: hours times
    * sixty plus the remaining minutes, which are under sixty.
    */
  lemma MinutesTextReadsBack(minutes: int)
    requires minutes >= 0
    ensures minutes >= 60 ==>
      && MinutesText(minutes) == NatText(minutes / 60) + "h " + NatText(minutes % 60) + "m"
      && DigitsValue(NatText(minutes / 60)) * 60 + DigitsValue(NatText(minutes % 60)) == minutes
      && DigitsValue(NatText(minutes % 60)) < 60
    ensures minutes < 60 ==> MinutesText(minutes) == NatText(minutes) + "m" && DigitsValue(NatText(minutes)) == minutes
  {
    if minutes >= 60 {
      NatTextValue(minutes / 60);
      NatTextValue(minutes % 60);
    } else {
      NatTextValue(minutes);
    }
  }

  /** A check-out stamped before the check-in shows as a negative number of minutes. */
  lemma NegativeDurationShowsMinus(checkInAt: int, checkOutAt: int)
    requires checkOutAt < checkInAt
    ensures FormatDuration(checkInAt, Some(checkOutAt))[0] == '-'
  {
    var minutes := (checkOutAt - checkInAt) / MsPerMinute;
    assert minutes < 0;
    assert MinutesText(minutes) == IntText(minutes) + "m";
  }

  /** The header row of `visit-report.csv`. */
  const Header: seq<string> := ["Visit ID", "Employee Name", "Employee Email", "Dealer Name", "Dealer City",
                                "Dealer Type", "Check-in", "Check-out", "Duration", "Notes"]

  /** The cells of one visit; `iso` is `new Date(t).toISOString()`. */
  function Row(iso: int -> string, v: Reports.VisitRow): (cells: seq<string>)
    ensures |cells| == |Header|
    ensures cells[6] == iso(v.visit.checkInAt)
    ensures cells[7] == (if v.visit.checkOutAt.Some? then iso(v.visit.checkOutAt.value) else "")
    ensures cells[8] == FormatDuration(v.visit.checkInAt, v.visit.checkOutAt)
  {
    [ IntText(v.visit.id),
      if v.user.Some? then v.user.value.name else "",
      if v.user.Some? then v.user.value.email else "",
      if v.dealer.Some? then v.dealer.value.name else "",
      if v.dealer.Some? && v.dealer.value.city.Some? then v.dealer.value.city.value else "",
      if v.dealer.Some? then v.dealer.value.dealerType else "",
      iso(v.visit.checkInAt),
      if v.visit.checkOutAt.Some? then iso(v.visit.checkOutAt.value) else "",
      FormatDuration(v.visit.checkInAt, v.visit.checkOutAt),
      v.visit.notes.GetOr("") ]
  }

  function Rows(iso: int -> string, visits: seq<Reports.VisitRow>): (rows: seq<seq<string>>)
    ensures |rows| == |visits| + 1 && rows[0] == Header
    ensures forall i :: 0 <= i < |visits| ==> rows[i + 1] == Row(iso, visits[i])
  {
    [Header] + seq(|visits|, i requires 0 <= i < |visits| => Row(iso, visits[i]))
  }

  /** `downloadCsv`: nothing (an alert) for an empty report, otherwise the header and one line per visit. */
  function Export(iso: int -> string, visits: seq<Reports.VisitRow>): (csv: Option<string>)
    ensures csv.None? <==> |visits| == 0
    ensures csv.Some? ==> csv.value == Csv.Document(Rows(iso, visits))
  {
    if |visits| == 0 then None else Some(Csv.Document(Rows(iso, visits)))
  }

  /** When no cell holds a comma or line feed, the export has a line per visit after the header, each with the visit's ten cells. */
  lemma ExportReadsBack(iso: int -> string, visits: seq<Reports.VisitRow>)
    requires |visits| >= 1
    requires forall i, j :: 0 <= i < |visits| && 0 <= j < |Header| ==> Csv.PlainCell(Row(iso, visits[i])[j])
    ensures var lines := Split(Export(iso, visits).value, '\n');
      && |lines| == |visits| + 1
      && Split(lines[0], ',') == Header
      && forall i :: 0 <= i < |visits| ==> Split(lines[i + 1], ',') == Row(iso, visits[i])
  {
    var rows := Rows(iso, visits);
    forall i, j | 0 <= i < |rows| && 0 <= j < |rows[i]| ensures Csv.PlainCell(rows[i][j]) {
      if i > 0 {
        assert rows[i] == Row(iso, visits[i - 1]);
      }
    }
    Csv.DocumentReadsBack(rows);
  }
}
