/**
  * `/reports` (admin only, read only): attendance and visits between two
  * days, the users for a dropdown, and all dealers, each joined with the
  * users and dealers they refer to.
  */
module Reports {
  import opened Wrappers
  import opened Seqs
  import opened Text
  import opened Js
  import opened Http
  import opened Dates
  import opened AuthRoutes
  import opened Dealers
  import Attendance
  import Visits

  const RangeRequired: string := "Query params 'from' and 'to' (YYYY-MM-DD) are required"

  /**
    * The range from the first millisecond of day `from` to the last
    * millisecond of day `to`; None when either is not a date, which the
    * database then refuses.
    */
  function ReportRange(rt: Runtime, from: string, to: string): (r: Option<Range>)
    ensures r.Some? <==> rt.dayOf(Str(from)).Some? && rt.dayOf(Str(to)).Some?
    ensures r.Some? ==> r.value == Between(DayStart(rt.dayOf(Str(from)).value), DayEnd(rt.dayOf(Str(to)).value))
  {
    match (rt.dayOf(Str(from)), rt.dayOf(Str(to)))
    case (Some(f), Some(t)) => Some(Between(DayStart(f), DayEnd(t)))
    case _ => None
  }

  /** An optional id condition: absent (no condition), an integer, or None when the database refuses the number. */
  function IdFilter(rt: Runtime, q: Query): (r: Option<Option<int>>)
    ensures !Given(q) ==> r == Some(None)
    ensures Given(q) ==> (r.None? <==> IntOf(rt.toNumber(Str(q.value))).None?)
    ensures Given(q) && r.Some? ==> r.value == IntOf(rt.toNumber(Str(q.value)))
  {
    if !Given(q) then Some(None)
    else match IntOf(rt.toNumber(Str(q.value)))
      case None => None
      case Some(id) => Some(Some(id))
  }

  predicate MatchesId(id: int, filter: Option<int>)
  {
    filter.Some? ==> id == filter.value
  }

  // Attendance report

  datatype AttendanceRow = AttendanceRow(record: Attendance.Record, user: Option<UserContact>)

  function RecordsOf(rows: seq<AttendanceRow>): (r: seq<Attendance.Record>)
    ensures |r| == |rows|
    ensures forall i :: 0 <= i < |rows| ==> r[i] == rows[i].record
  {
    seq(|rows|, i requires 0 <= i < |rows| => rows[i].record)
  }

  predicate AttendanceMatches(x: Attendance.Record, range: Range, userId: Option<int>)
  {
    InRange(x.timestamp, range) && MatchesId(x.userId, userId)
  }

  /** Each record, in order, with its user's contact. */
  function JoinRecords(records: seq<Attendance.Record>, users: seq<User>): (r: seq<AttendanceRow>)
    ensures RecordsOf(r) == records
    ensures forall i :: 0 <= i < |r| ==> r[i].user == ContactOf(users, r[i].record.userId)
  {
    var joined := seq(|records|, i requires 0 <= i < |records| => AttendanceRow(records[i], ContactOf(users, records[i].userId)));
    assert RecordsOf(joined) == records;
    joined
  }

  /** The records in range of the user (when one is named), newest first, each with its user. */
  function AttendanceRows(rows: seq<Attendance.Record>, users: seq<User>, range: Range, userId: Option<int>)
    : (r: seq<AttendanceRow>)
    ensures forall x :: x in RecordsOf(r) <==> x in rows && AttendanceMatches(x, range, userId)
    ensures forall x :: multiset(RecordsOf(r))[x] == if AttendanceMatches(x, range, userId) then multiset(rows)[x] else 0
    ensures Sorted(RecordsOf(r), Attendance.Newer)
    ensures forall i :: 0 <= i < |r| ==> r[i].user == ContactOf(users, r[i].record.userId)
  {
    Attendance.NewerIsPreorder();
    var selected := Select(rows, (x: Attendance.Record) => AttendanceMatches(x, range, userId), Attendance.Newer);
    JoinRecords(selected, users)
  }

  /**
    * GET /reports/attendance. 400 unless from and to are both given; a bound
    * that is not a date or a userId that is not an integer is a 500.
    */
  function AttendanceReport(rows: seq<Attendance.Record>, users: seq<User>, rt: Runtime, from: Query, to: Query, userId: Query)
    : (r: Reply<seq<AttendanceRow>>)
    ensures !Given(from) || !Given(to) ==> r == Err(400, RangeRequired)
    ensures Given(from) && Given(to) ==>
      && (ReportRange(rt, from.value, to.value).None? || IdFilter(rt, userId).None? ==> r == Err(500, ServerError))
      && (ReportRange(rt, from.value, to.value).Some? && IdFilter(rt, userId).Some? ==>
            r == Ok(200, AttendanceRows(rows, users, ReportRange(rt, from.value, to.value).value, IdFilter(rt, userId).value)))
  {
    if !Given(from) || !Given(to) then Err(400, RangeRequired)
    else match (ReportRange(rt, from.value, to.value), IdFilter(rt, userId))
      case (Some(range), Some(filter)) => Ok(200, AttendanceRows(rows, users, range, filter))
      case _ => Err(500, ServerError)
  }

  /** Without a user filter, the attendance report holds exactly the records stamped from the start of `from` to the end of `to`. */
  lemma AttendanceReportRange(rows: seq<Attendance.Record>, users: seq<User>, rt: Runtime,
                              from: string, to: string, x: Attendance.Record)
    requires from != "" && to != ""
    requires rt.dayOf(Str(from)).Some? && rt.dayOf(Str(to)).Some?
    ensures var r := AttendanceReport(rows, users, rt, Some(from), Some(to), None);
      r.Ok? && (x in RecordsOf(r.value) <==>
        x in rows && DayStart(rt.dayOf(Str(from)).value) <= x.timestamp <= DayEnd(rt.dayOf(Str(to)).value))
  {
    var range := Between(DayStart(rt.dayOf(Str(from)).value), DayEnd(rt.dayOf(Str(to)).value));
    assert ReportRange(rt, from, to) == Some(range);
    assert IdFilter(rt, None) == Some(None);
    var listed := AttendanceRows(rows, users, range, None);
    assert AttendanceReport(rows, users, rt, Some(from), Some(to), None) == Ok(200, listed);
    assert AttendanceMatches(x, range, None) <==> range.lo <= x.timestamp <= range.hi;
    assert x in RecordsOf(listed) <==> x in rows && AttendanceMatches(x, range, None);
  }

  /** A record is in the attendance report exactly when its UTC day lies between the two days. */
  lemma AttendanceReportIsWholeDays(rows: seq<Attendance.Record>, users: seq<User>, rt: Runtime,
                                    from: string, to: string, x: Attendance.Record)
    requires from != "" && to != ""
    requires rt.dayOf(Str(from)).Some? && rt.dayOf(Str(to)).Some?
    ensures var r := AttendanceReport(rows, users, rt, Some(from), Some(to), None);
      r.Ok? && (x in RecordsOf(r.value) <==>
        x in rows && rt.dayOf(Str(from)).value <= x.timestamp / DayMs <= rt.dayOf(Str(to)).value)
  {
    AttendanceReportRange(rows, users, rt, from, to, x);
    WholeDays(rt.dayOf(Str(from)).value, rt.dayOf(Str(to)).value, x.timestamp);
  }

  // Users list

  /** Users ordered by name. */
  predicate UserByName(a: User, b: User)
  {
    LexLe(a.name, b.name)
  }

  lemma UserByNameIsPreorder()
    ensures TotalPreorder(UserByName)
  {
    forall a: User, b: User ensures UserByName(a, b) || UserByName(b, a) {
      LexLeTotal(a.name, b.name);
    }
    forall a: User, b: User, c: User | UserByName(a, b) && UserByName(b, c) ensures UserByName(a, c) {
      LexLeTransitive(a.name, b.name, c.name);
    }
  }

  function Contact(u: User): UserContact
  {
    UserContact(u.id, u.name, u.email)
  }

  /** GET /reports/users: every user's id, name and email, by ascending name. */
  function UsersList(users: seq<User>): (r: seq<UserContact>)
    ensures multiset(r) == multiset(Map(users, Contact))
    ensures forall u :: u in users ==> Contact(u) in r
    ensures forall i, j :: 0 <= i < j < |r| ==> LexLe(r[i].name, r[j].name)
  {
    UserByNameIsPreorder();
    var sorted := Sort(users, UserByName);
    MapPermute(sorted, users, Contact);
    var r := Map(sorted, Contact);
    assert forall u :: u in users ==> Contact(u) in r by {
      forall u | u in users ensures Contact(u) in r {
        var i :| 0 <= i < |users| && users[i] == u;
        assert Map(users, Contact)[i] == Contact(u);
        assert Contact(u) in multiset(Map(users, Contact));
      }
    }
    r
  }

  // Visits report

  datatype VisitRow = VisitRow(visit: Visits.Visit, user: Option<UserContact>, dealer: Option<DealerBrief>)

  function VisitsOf(rows: seq<VisitRow>): (r: seq<Visits.Visit>)
    ensures |r| == |rows|
    ensures forall i :: 0 <= i < |rows| ==> r[i] == rows[i].visit
  {
    seq(|rows|, i requires 0 <= i < |rows| => rows[i].visit)
  }

  predicate VisitMatches(v: Visits.Visit, range: Range, userId: Option<int>, dealerId: Option<int>)
  {
    InRange(v.checkInAt, range) && MatchesId(v.userId, userId) && MatchesId(v.dealerId, dealerId)
  }

  /** Each visit, in order, with its user's contact and its dealer's brief. */
  function JoinVisits(visits: seq<Visits.Visit>, users: seq<User>, dealers: seq<Dealer>): (r: seq<VisitRow>)
    ensures VisitsOf(r) == visits
    ensures forall i :: 0 <= i < |r| ==>
      r[i].user == ContactOf(users, r[i].visit.userId) && r[i].dealer == BriefOf(dealers, r[i].visit.dealerId)
  {
    var joined := seq(|visits|, i requires 0 <= i < |visits| =>
      VisitRow(visits[i], ContactOf(users, visits[i].userId), BriefOf(dealers, visits[i].dealerId)));
    assert VisitsOf(joined) == visits;
    joined
  }

  /** The visits checked in within range, of the user and at the dealer when named, newest check-in first, joined. */
  function VisitRows(rows: seq<Visits.Visit>, users: seq<User>, dealers: seq<Dealer>, range: Range,
                     userId: Option<int>, dealerId: Option<int>)
    : (r: seq<VisitRow>)
    ensures forall v :: v in VisitsOf(r) <==> v in rows && VisitMatches(v, range, userId, dealerId)
    ensures forall v :: multiset(VisitsOf(r))[v] == if VisitMatches(v, range, userId, dealerId) then multiset(rows)[v] else 0
    ensures Sorted(VisitsOf(r), Visits.NewerCheckIn)
    ensures forall i :: 0 <= i < |r| ==>
      r[i].user == ContactOf(users, r[i].visit.userId) && r[i].dealer == BriefOf(dealers, r[i].visit.dealerId)
  {
    Visits.NewerCheckInIsPreorder();
    var selected := Select(rows, (v: Visits.Visit) => VisitMatches(v, range, userId, dealerId), Visits.NewerCheckIn);
    JoinVisits(selected, users, dealers)
  }

  /**
    * GET /reports/visits. 400 unless from and to are both given; a bound
    * that is not a date, or a userId or dealerId that is not an integer, is a 500.
    */
  function VisitsReport(rows: seq<Visits.Visit>, users: seq<User>, dealers: seq<Dealer>, rt: Runtime,
                        from: Query, to: Query, userId: Query, dealerId: Query)
    : (r: Reply<seq<VisitRow>>)
    ensures !Given(from) || !Given(to) ==> r == Err(400, RangeRequired)
    ensures Given(from) && Given(to) ==>
      && (ReportRange(rt, from.value, to.value).None? || IdFilter(rt, userId).None? || IdFilter(rt, dealerId).None? ==>
            r == Err(500, ServerError))
      && (ReportRange(rt, from.value, to.value).Some? && IdFilter(rt, userId).Some? && IdFilter(rt, dealerId).Some? ==>
            r == Ok(200, VisitRows(rows, users, dealers, ReportRange(rt, from.value, to.value).value,
                                   IdFilter(rt, userId).value, IdFilter(rt, dealerId).value)))
  {
    if !Given(from) || !Given(to) then Err(400, RangeRequired)
    else match (ReportRange(rt, from.value, to.value), IdFilter(rt, userId), IdFilter(rt, dealerId))
      case (Some(range), Some(user), Some(dealer)) => Ok(200, VisitRows(rows, users, dealers, range, user, dealer))
      case _ => Err(500, ServerError)
  }

  /** An employee's `/visits/mine` over two days lists the same visits as the admin's report for that employee. */
  lemma MineAgreesWithReport(rows: seq<Visits.Visit>, users: seq<User>, dealers: seq<Dealer>, rt: Runtime,
                             userId: int, from: string, to: string, userText: string, v: Visits.Visit)
    requires from != "" && to != "" && userText != ""
    requires rt.dayOf(Str(from)).Some? && rt.dayOf(Str(to)).Some?
    requires IntOf(rt.toNumber(Str(userText))) == Some(userId)
    ensures Visits.Mine(rows, dealers, rt, userId, Some(from), Some(to), None).Ok?
    ensures VisitsReport(rows, users, dealers, rt, Some(from), Some(to), Some(userText), None).Ok?
    ensures v in Visits.VisitsOf(Visits.Mine(rows, dealers, rt, userId, Some(from), Some(to), None).value) <==>
      v in VisitsOf(VisitsReport(rows, users, dealers, rt, Some(from), Some(to), Some(userText), None).value)
  {
    var range := Between(DayStart(rt.dayOf(Str(from)).value), DayEnd(rt.dayOf(Str(to)).value));
    assert Visits.MineRange(rt, Some(from), Some(to)) == Some(range);
    assert ReportRange(rt, from, to) == Some(range);
    assert IdFilter(rt, Some(userText)) == Some(Some(userId));
    var mine := Visits.Mine(rows, dealers, rt, userId, Some(from), Some(to), None);
    assert mine == Ok(200, Visits.MineRows(rows, dealers, userId, range, None));
    var report := VisitsReport(rows, users, dealers, rt, Some(from), Some(to), Some(userText), None);
    assert report == Ok(200, VisitRows(rows, users, dealers, range, Some(userId), None));
    assert Visits.MineMatches(v, userId, range, None) <==> VisitMatches(v, range, Some(userId), None);
  }

  // Dealers report

  /** The columns the dealers report selects, with the creating user. */
  datatype DealerRow = DealerRow(
    id: int,
    name: string,
    city: Option<string>,
    dealerType: string,
    approved: bool,
    contactName: Option<string>,
    contactMobile: Option<string>,
    lat: Option<Number>,
    lng: Option<Number>,
    createdAt: int,
    createdBy: int,
    createdByUser: Option<UserContact>)

  function DealerRowOf(d: Dealer, users: seq<User>): DealerRow
  {
    DealerRow(d.id, d.name, d.city, d.dealerType, d.approved, d.contactName, d.contactMobile,
              d.lat, d.lng, d.createdAt, d.createdBy, ContactOf(users, d.createdBy))
  }

  /** The report rows of dealers, in their order. */
  function DealerRows(dealers: seq<Dealer>, users: seq<User>): (r: seq<DealerRow>)
    ensures |r| == |dealers|
    ensures forall i :: 0 <= i < |r| ==> r[i] == DealerRowOf(dealers[i], users)
  {
    seq(|dealers|, i requires 0 <= i < |dealers| => DealerRowOf(dealers[i], users))
  }

  /** Every dealer of a permutation of `rows` has its row among the report rows. */
  lemma DealerRowsCover(all: seq<Dealer>, rows: seq<Dealer>, users: seq<User>)
    requires multiset(all) == multiset(rows)
    ensures forall d :: d in rows ==> DealerRowOf(d, users) in DealerRows(all, users)
  {
    var r := DealerRows(all, users);
    forall d | d in rows ensures DealerRowOf(d, users) in r {
      assert d in multiset(all);
      var i :| 0 <= i < |all| && all[i] == d;
      assert r[i] == DealerRowOf(d, users);
    }
  }

  /** Dealers that are a permutation of each other give report rows that are a permutation of each other. */
  lemma DealerRowsPermute(a: seq<Dealer>, b: seq<Dealer>, users: seq<User>)
    requires multiset(a) == multiset(b)
    ensures multiset(DealerRows(a, users)) == multiset(DealerRows(b, users))
  {
    var f := (d: Dealer) => DealerRowOf(d, users);
    assert DealerRows(a, users) == Map(a, f);
    assert DealerRows(b, users) == Map(b, f);
    MapPermute(a, b, f);
  }

  /** GET /reports/dealers: every dealer, approved or not, by ascending name, with its creator. */
  function DealersReport(rows: seq<Dealer>, users: seq<User>): (r: seq<DealerRow>)
    ensures multiset(r) == multiset(DealerRows(rows, users))
    ensures forall d :: d in rows ==> DealerRowOf(d, users) in r
    ensures forall i, j :: 0 <= i < j < |r| ==> LexLe(r[i].name, r[j].name)
  {
    var all := List(rows, DealerQuery(None, None, None));
    ListUnfilteredIsAll(rows);
    DealerRowsCover(all, rows, users);
    DealerRowsPermute(all, rows, users);
    DealerRows(all, users)
  }
}
