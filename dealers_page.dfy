/** The admin console's dealers page: the approval filter over the dealers report and the approve button. */
module DealersPage {
  import opened Seqs
  import opened Dealers
  import AuthRoutes
  import Reports

  /** The three choices of the filter drop-down; any other value shows all dealers. */
  predicate Shown(filter: string, d: Reports.DealerRow)
  {
    if filter == "approved" then d.approved
    else if filter == "pending" then !d.approved
    else true
  }

  /** `filteredDealers`: the report rows the filter shows, in report order. */
  function Filtered(rows: seq<Reports.DealerRow>, filter: string): (r: seq<Reports.DealerRow>)
    ensures forall d :: d in r <==> d in rows && Shown(filter, d)
    ensures IsSubsequence(r, rows)
    ensures filter != "approved" && filter != "pending" ==> r == rows
  {
    FilterIsSubsequence(rows, (d: Reports.DealerRow) => Shown(filter, d));
    var r := Filter(rows, (d: Reports.DealerRow) => Shown(filter, d));
    if filter != "approved" && filter != "pending" then FilterAll(rows, filter); r else r
  }

  lemma {:induction false} FilterAll(rows: seq<Reports.DealerRow>, filter: string)
    requires filter != "approved" && filter != "pending"
    ensures Filter(rows, (d: Reports.DealerRow) => Shown(filter, d)) == rows
    decreases |rows|
  {
    if rows != [] {
      FilterAll(rows[1..], filter);
      assert [rows[0]] + rows[1..] == rows;
    }
  }

  /** The approved and the pending views split the report: every row is in exactly one, and together they have all rows. */
  lemma {:induction false} ApprovedAndPendingPartition(rows: seq<Reports.DealerRow>)
    ensures |Filtered(rows, "approved")| + |Filtered(rows, "pending")| == |rows|
    ensures forall d :: d in rows ==> (d in Filtered(rows, "approved") <==> d !in Filtered(rows, "pending"))
    decreases |rows|
  {
    if rows != [] {
      ApprovedAndPendingPartition(rows[1..]);
      assert rows == [rows[0]] + rows[1..];
    }
  }

  /** The approve button appears exactly on the rows not yet approved. */
  predicate ShowsApprove(d: Reports.DealerRow)
  {
    !d.approved
  }

  /** Every row of the pending view offers the approve button and no row of the approved view does. */
  lemma ApproveButtonFollowsFilter(rows: seq<Reports.DealerRow>, d: Reports.DealerRow)
    ensures d in Filtered(rows, "pending") ==> ShowsApprove(d)
    ensures d in Filtered(rows, "approved") ==> !ShowsApprove(d)
  {
  }

  /** Once a dealer is approved, the refreshed report row no longer offers the button and shows under "approved". */
  lemma ApprovedRowLeavesPending(rows: seq<Dealer>, users: seq<AuthRoutes.User>, id: int)
    requires DealerIndex(rows, id) >= 0
    ensures var row := Reports.DealerRowOf(WithApproved(rows, id)[DealerIndex(rows, id)], users);
      && !ShowsApprove(row)
      && row in Filtered(Reports.DealersReport(WithApproved(rows, id), users), "approved")
  {
    var after := WithApproved(rows, id);
    var k := DealerIndex(rows, id);
    assert after[k] in after;
  }
}
