/**
  * `/claims`: travel and allowance claims. An employee submits a claim, which
  * starts PENDING; the employee lists their own claims; an admin lists all
  * claims with optional filters and sets a claim's status, which stamps or
  * clears the approver and the approval time.
  */
module Claims {
  import opened Wrappers
  import opened Seqs
  import opened Text
  import opened Js
  import opened Http
  import opened Dates
  import opened AuthRoutes

  datatype Status = Pending | Approved | Rejected

  /** The text of a status, as stored and as sent. */
  function StatusText(s: Status): (t: string)
  {
    match s
    case Pending => "PENDING"
    case Approved => "APPROVED"
    case Rejected => "REJECTED"
  }

  /** The status a text names exactly, if any. */
  function StatusNamed(t: string): (s: Option<Status>)
    ensures s.Some? ==> StatusText(s.value) == t
    ensures s.None? ==> forall st: Status :: StatusText(st) != t
  {
    if t == "PENDING" then Some(Pending)
    else if t == "APPROVED" then Some(Approved)
    else if t == "REJECTED" then Some(Status.Rejected)
    else None
  }

  datatype Claim = Claim(
    id: int,
    userId: int,
    date: int,
    amount: real,
    claimType: Option<string>,
    description: Option<string>,
    distanceKm: Option<real>,
    status: Status,
    approvedAt: Option<int>,
    approvedBy: Option<int>)

  /** A claim is pending exactly when nobody has stamped it, and a stamp has both its time and its admin. */
  predicate Stamped(c: Claim)
  {
    && (c.status == Pending <==> c.approvedAt.None?)
    && (c.approvedAt.None? <==> c.approvedBy.None?)
  }

  class ClaimTable {
    var rows: seq<Claim>
    var nextId: int

    ghost predicate Valid()
      reads this
    {
      && 1 <= nextId
      && (forall i :: 0 <= i < |rows| ==> 1 <= rows[i].id < nextId)
      && (forall i, j :: 0 <= i < j < |rows| ==> rows[i].id != rows[j].id)
      && (forall i :: 0 <= i < |rows| ==> Stamped(rows[i]))
    }

    constructor ()
      ensures Valid() && rows == [] && nextId == 1
    {
      rows, nextId := [], 1;
    }
  }

  /** `distanceKm != null && !isNaN(Number(distanceKm)) ? Number(distanceKm) : null`. */
  function Distance(rt: Runtime, v: Value): (d: Option<real>)
    ensures d.Some? <==> !Nullish(v) && rt.toNumber(v).Fin?
    ensures d.Some? ==> d.value == rt.toNumber(v).r
  {
    if !Nullish(v) && rt.toNumber(v).Fin? then Some(rt.toNumber(v).r) else None
  }

  /**
    * POST /claims. 400 without a date, 400 when the amount is absent or not a
    * number, 400 for a date that is not a date (checked in that order);
    * a type or description that is not text makes the database refuse (500).
    * Otherwise a PENDING, unstamped claim of the caller dated at the day's
    * midnight is added.
    */
  method Create(claims: ClaimTable, rt: Runtime, userId: int,
                date: Value, amount: Value, claimType: Value, description: Value, distanceKm: Value)
    returns (r: Reply<Claim>)
    requires claims.Valid()
    modifies claims
    ensures claims.Valid()
    ensures r.Err? ==> claims.rows == old(claims.rows) && claims.nextId == old(claims.nextId)
    ensures !Truthy(date) ==> r == Err(400, "date (YYYY-MM-DD) is required")
    ensures Truthy(date) && (Nullish(amount) || rt.toNumber(amount).NaN?) ==>
      r == Err(400, "amount is required and must be a number")
    ensures Truthy(date) && !Nullish(amount) && rt.toNumber(amount).Fin? && rt.dayOf(date).None? ==>
      r == Err(400, "Invalid date format")
    ensures r.Err? && r.status == 400 ==>
      !Truthy(date) || Nullish(amount) || rt.toNumber(amount).NaN? || rt.dayOf(date).None?
    ensures r.Err? && r.status != 400 ==> r == Err(500, ServerError)
    ensures r.Ok? <==>
      && Truthy(date) && !Nullish(amount) && rt.toNumber(amount).Fin? && rt.dayOf(date).Some?
      && TextOrNull(claimType).Accepted? && TextOrNull(description).Accepted?
    ensures r.Ok? ==>
      && ParseDateYMD(rt, date).Midnight?
      && var c := Claim(old(claims.nextId), userId, ParseDateYMD(rt, date).ms, rt.toNumber(amount).r,
                        TextOrNull(claimType).value, TextOrNull(description).value, Distance(rt, distanceKm),
                        Pending, None, None);
      && r == Ok(201, c)
      && claims.rows == old(claims.rows) + [c]
      && claims.nextId == old(claims.nextId) + 1
  {
    if !Truthy(date) {
      return Err(400, "date (YYYY-MM-DD) is required");
    }
    if Nullish(amount) || rt.toNumber(amount).NaN? {
      return Err(400, "amount is required and must be a number");
    }
    var claimDate := ParseDateYMD(rt, date);
    if claimDate.InvalidDate? {
      return Err(400, "Invalid date format");
    }
    var typeColumn := TextOrNull(claimType);
    var descriptionColumn := TextOrNull(description);
    if typeColumn.Rejected? || descriptionColumn.Rejected? {
      return Err(500, ServerError);
    }
    var c := Claim(claims.nextId, userId, claimDate.ms, rt.toNumber(amount).r,
                   typeColumn.value, descriptionColumn.value, Distance(rt, distanceKm), Pending, None, None);
    claims.rows := claims.rows + [c];
    claims.nextId := claims.nextId + 1;
    r := Ok(201, c);
  }

  /** Latest date first. */
  predicate LaterDate(a: Claim, b: Claim)
  {
    a.date >= b.date
  }

  lemma LaterDateIsPreorder()
    ensures TotalPreorder(LaterDate)
  {
  }

  /** The optional date condition of both listings: applied only when from and to are both given. */
  function ClaimRange(rt: Runtime, from: Query, to: Query): (r: Option<Range>)
    ensures !(Given(from) && Given(to)) ==> r == Some(Unbounded)
    ensures Given(from) && Given(to) ==>
      (r.None? <==> ParseDateYMD(rt, Str(from.value)).InvalidDate? || ParseDateYMD(rt, Str(to.value)).InvalidDate?)
    ensures Given(from) && Given(to) && r.Some? ==>
      r.value == Between(ParseDateYMD(rt, Str(from.value)).ms, ParseDateYMD(rt, Str(to.value)).ms)
  {
    if !(Given(from) && Given(to)) then Some(Unbounded)
    else
      var lo := ParseDateYMD(rt, Str(from.value));
      var hi := ParseDateYMD(rt, Str(to.value));
      if lo.Midnight? && hi.Midnight? then Some(Between(lo.ms, hi.ms)) else None
  }

  /** The `where` of the claim listings; each condition applies only when present. */
  predicate ClaimMatches(c: Claim, userId: Option<int>, range: Range, status: Option<Status>)
  {
    && (userId.Some? ==> c.userId == userId.value)
    && InRange(c.date, range)
    && (status.Some? ==> c.status == status.value)
  }

  /** The claims satisfying the conditions, latest date first. */
  function Matching(rows: seq<Claim>, userId: Option<int>, range: Range, status: Option<Status>): (r: seq<Claim>)
    ensures forall c :: c in r <==> c in rows && ClaimMatches(c, userId, range, status)
    ensures forall c :: multiset(r)[c] == if ClaimMatches(c, userId, range, status) then multiset(rows)[c] else 0
    ensures Sorted(r, LaterDate)
  {
    LaterDateIsPreorder();
    Select(rows, (c: Claim) => ClaimMatches(c, userId, range, status), LaterDate)
  }

  /** GET /claims/my: the caller's claims, within the range when both bounds are given, latest first. */
  function Mine(rows: seq<Claim>, rt: Runtime, userId: int, from: Query, to: Query): (r: Reply<seq<Claim>>)
    ensures ClaimRange(rt, from, to).None? ==> r == Err(400, "Invalid date range")
    ensures ClaimRange(rt, from, to).Some? ==>
      r == Ok(200, Matching(rows, Some(userId), ClaimRange(rt, from, to).value, None))
  {
    match ClaimRange(rt, from, to)
    case None => Err(400, "Invalid date range")
    case Some(range) => Ok(200, Matching(rows, Some(userId), range, None))
  }

  /** `["PENDING", "APPROVED", "REJECTED"].includes(String(status).toUpperCase())`: the filter, or none. */
  function StatusFilter(status: Query): (s: Option<Status>)
    ensures !Given(status) ==> s.None?
    ensures Given(status) ==> s == StatusNamed(Upper(status.value))
  {
    if Given(status) then StatusNamed(Upper(status.value)) else None
  }

  /** A claim with its submitter and its approver, as the admin list answers it. */
  datatype ClaimView = ClaimView(claim: Claim, user: Option<UserContact>, approvedByUser: Option<UserContact>)

  function WithUsers(rows: seq<Claim>, users: seq<User>): (r: seq<ClaimView>)
    ensures |r| == |rows|
    ensures forall i :: 0 <= i < |rows| ==> (r[i].claim == rows[i]
      && r[i].user == ContactOf(users, rows[i].userId)
      && r[i].approvedByUser == (if rows[i].approvedBy.Some? then ContactOf(users, rows[i].approvedBy.value) else None))
  {
    seq(|rows|, i requires 0 <= i < |rows| =>
      ClaimView(rows[i], ContactOf(users, rows[i].userId),
                if rows[i].approvedBy.Some? then ContactOf(users, rows[i].approvedBy.value) else None))
  }

  /**
    * GET /claims (admin). A date range that is not a pair of dates is a 400;
    * a userId that is not an integer makes the database refuse (500); a
    * status that is not one of the three, in any case, filters nothing.
    */
  function AdminList(rows: seq<Claim>, users: seq<User>, rt: Runtime, from: Query, to: Query, userId: Query, status: Query)
    : (r: Reply<seq<ClaimView>>)
    ensures ClaimRange(rt, from, to).None? ==> r == Err(400, "Invalid date range")
    ensures ClaimRange(rt, from, to).Some? && Given(userId) && IntOf(rt.toNumber(Str(userId.value))).None? ==>
      r == Err(500, ServerError)
    ensures r.Ok? <==> ClaimRange(rt, from, to).Some? && (Given(userId) ==> IntOf(rt.toNumber(Str(userId.value))).Some?)
    ensures r.Ok? ==> (ClaimRange(rt, from, to).Some?
      && var owner := if Given(userId) then IntOf(rt.toNumber(Str(userId.value))) else None;
      && (Given(userId) ==> owner.Some?)
      && r == Ok(200, WithUsers(Matching(rows, owner, ClaimRange(rt, from, to).value, StatusFilter(status)), users)))
  {
    match ClaimRange(rt, from, to)
    case None => Err(400, "Invalid date range")
    case Some(range) =>
      if !Given(userId) then Ok(200, WithUsers(Matching(rows, None, range, StatusFilter(status)), users))
      else match IntOf(rt.toNumber(Str(userId.value)))
        case None => Err(500, ServerError)
        case Some(owner) => Ok(200, WithUsers(Matching(rows, Some(owner), range, StatusFilter(status)), users))
  }

  /** A status filter is case-insensitive: "approved", "Approved" and "APPROVED" select the same claims. */
  lemma StatusFilterIgnoresCase(status: string)
    requires status != ""
    ensures StatusFilter(Some(status)) == StatusFilter(Some(Upper(status)))
  {
    UpperIdempotent(status);
  }

  /** A claim with `status` set by admin `adminId` at `now`: stamped unless PENDING, cleared when PENDING. */
  function WithStatus(c: Claim, status: Status, adminId: int, now: int): (d: Claim)
    ensures Stamped(d)
    ensures d.status == status
    ensures d.id == c.id && d.userId == c.userId && d.date == c.date && d.amount == c.amount
      && d.claimType == c.claimType && d.description == c.description && d.distanceKm == c.distanceKm
    ensures status != Pending ==> d.approvedAt == Some(now) && d.approvedBy == Some(adminId)
  {
    if status == Pending then c.(status := status, approvedAt := None, approvedBy := None)
    else c.(status := status, approvedAt := Some(now), approvedBy := Some(adminId))
  }

  function ClaimIndex(rows: seq<Claim>, id: int): (k: int)
    ensures -1 <= k < |rows|
    ensures k >= 0 ==> rows[k].id == id
    ensures k < 0 <==> forall i :: 0 <= i < |rows| ==> rows[i].id != id
  {
    IndexWhere(rows, (c: Claim) => c.id == id)
  }

  /**
    * PATCH /claims/:id/status (admin). 400 unless `String(status)` is one of
    * the three names; a value that only converts to one (not text itself) is
    * refused by the database (500), as is an id that is not an integer; an
    * unknown id is 404. Any status may follow any other.
    */
  method SetStatus(claims: ClaimTable, rt: Runtime, adminId: int, now: int, idParam: string, status: Value)
    returns (r: Reply<Claim>)
    requires claims.Valid()
    modifies claims
    ensures claims.Valid()
    ensures claims.nextId == old(claims.nextId)
    ensures r.Err? ==> claims.rows == old(claims.rows)
    ensures StatusNamed(String(rt, status)).None? ==> r == Err(400, "status must be one of PENDING, APPROVED, REJECTED")
    ensures StatusNamed(String(rt, status)).Some? && (!status.Str? || IntOf(rt.toNumber(Str(idParam))).None?) ==>
      r == Err(500, ServerError)
    ensures status.Str? && StatusNamed(status.s).Some? && IntOf(rt.toNumber(Str(idParam))).Some? ==>
      var k := ClaimIndex(old(claims.rows), IntOf(rt.toNumber(Str(idParam))).value);
      && (k < 0 ==> r == Err(404, "Claim not found"))
      && (k >= 0 ==>
        var d := WithStatus(old(claims.rows)[k], StatusNamed(status.s).value, adminId, now);
        claims.rows == old(claims.rows)[k := d] && r == Ok(200, d))
  {
    var named := StatusNamed(String(rt, status));
    if named.None? {
      return Err(400, "status must be one of PENDING, APPROVED, REJECTED");
    }
    var id := IntOf(rt.toNumber(Str(idParam)));
    if !status.Str? || id.None? {
      return Err(500, ServerError);
    }
    var k := ClaimIndex(claims.rows, id.value);
    if k < 0 {
      return Err(404, "Claim not found");
    }
    var d := WithStatus(claims.rows[k], named.value, adminId, now);
    claims.rows := claims.rows[k := d];
    r := Ok(200, d);
  }

  /** Moving a claim back to PENDING clears both stamps, whatever it was before. */
  lemma BackToPendingClears(c: Claim, adminId: int, now: int)
    ensures WithStatus(c, Pending, adminId, now).approvedAt.None?
    ensures WithStatus(c, Pending, adminId, now).approvedBy.None?
  {
  }

  /** Setting a status twice keeps the first call's effect but the second call's stamp. */
  lemma SetTwiceIsSetLast(c: Claim, s1: Status, s2: Status, a1: int, a2: int, t1: int, t2: int)
    ensures WithStatus(WithStatus(c, s1, a1, t1), s2, a2, t2) == WithStatus(c, s2, a2, t2)
  {
  }
}
