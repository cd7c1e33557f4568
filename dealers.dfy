/**
  * `/dealers`: create (type normalisation, pending approval), the filtered
  * and name-ordered list, and the admin's one-way approve.
  */
module Dealers {
  import opened Wrappers
  import opened Seqs
  import opened Text
  import opened Js
  import opened Http

  datatype Dealer = Dealer(
    id: int,
    name: string,
    dealerType: string,
    address: Option<string>,
    city: Option<string>,
    phone: Option<string>,
    contactName: Option<string>,
    contactMobile: Option<string>,
    lat: Option<Number>,
    lng: Option<Number>,
    createdBy: int,
    approved: bool,
    createdAt: int)

  /** The body of POST /dealers; absent fields are `Undefined`. */
  datatype DealerInput = DealerInput(
    name: Value,
    dealerType: Value,
    address: Value,
    city: Value,
    phone: Value,
    contactName: Value,
    contactMobile: Value,
    lat: Value,
    lng: Value)

  /** The two types a stored dealer can have. */
  predicate NormalType(t: string)
  {
    t == "dealer" || t == "sub-dealer"
  }

  class DealerTable {
    var rows: seq<Dealer>
    var nextId: int

    ghost predicate Valid()
      reads this
    {
      && 1 <= nextId
      && (forall i :: 0 <= i < |rows| ==> 1 <= rows[i].id < nextId)
      && (forall i, j :: 0 <= i < j < |rows| ==> rows[i].id != rows[j].id)
      && (forall i :: 0 <= i < |rows| ==> NormalType(rows[i].dealerType))
    }

    constructor ()
      ensures Valid() && rows == [] && nextId == 1
    {
      rows, nextId := [], 1;
    }
  }

  /** The position of the dealer with `id`, or -1. */
  function DealerIndex(rows: seq<Dealer>, id: int): (k: int)
    ensures -1 <= k < |rows|
    ensures k >= 0 ==> rows[k].id == id
    ensures k < 0 <==> forall i :: 0 <= i < |rows| ==> rows[i].id != id
  {
    IndexWhere(rows, (d: Dealer) => d.id == id)
  }

  /** The dealer columns other listings join in (`select: { id, name, city, type }`). */
  datatype DealerBrief = DealerBrief(id: int, name: string, city: Option<string>, dealerType: string)

  /** The brief of the dealer with this id, when there is one. */
  function BriefOf(dealers: seq<Dealer>, id: int): (b: Option<DealerBrief>)
    ensures b.Some? <==> DealerIndex(dealers, id) >= 0
    ensures b.Some? ==> var d := dealers[DealerIndex(dealers, id)];
      d.id == id && b.value == DealerBrief(d.id, d.name, d.city, d.dealerType)
  {
    var k := DealerIndex(dealers, id);
    if k < 0 then None else Some(DealerBrief(dealers[k].id, dealers[k].name, dealers[k].city, dealers[k].dealerType))
  }

  /**
    * The stored form of a requested type: "dealer" when it is "dealer" in any
    * case, "sub-dealer" when it is "sub-dealer" or "subdealer" in any case,
    * and nothing (a 400) otherwise.
    */
  function NormalizeType(t: string): (r: Option<string>)
    ensures r.Some? ==> NormalType(r.value)
    ensures r == Some("dealer") <==> Lower(t) == "dealer"
    ensures r == Some("sub-dealer") <==> Lower(t) == "sub-dealer" || Lower(t) == "subdealer"
  {
    var lower := Lower(t);
    if lower != "dealer" && lower != "sub-dealer" && lower != "subdealer" then None
    else if lower == "dealer" then Some("dealer")
    else Some("sub-dealer")
  }

  /** A stored type normalises to itself, so normalising twice changes nothing. */
  lemma NormalizeTypeIdempotent(t: string)
    requires NormalizeType(t).Some?
    ensures NormalizeType(NormalizeType(t).value) == NormalizeType(t)
  {
    var n := NormalizeType(t).value;
    assert Lower(n) == n by {
      forall i | 0 <= i < |n| ensures Lower(n)[i] == n[i] {}
    }
  }

  /** Every optional text of the body can be stored: it is falsy or a string. */
  predicate TextsAccepted(body: DealerInput)
  {
    && TextOrNull(body.address).Accepted? && TextOrNull(body.city).Accepted? && TextOrNull(body.phone).Accepted?
    && TextOrNull(body.contactName).Accepted? && TextOrNull(body.contactMobile).Accepted?
  }

  /**
    * POST /dealers. 400 when name or type is falsy or the type is not one of
    * dealer/sub-dealer/subdealer in any case; otherwise a pending dealer
    * (approved = false) created by the caller, with empty optional texts
    * stored as null. Values of the wrong JSON type make the handler throw: 500.
    */
  method Create(dealers: DealerTable, rt: Runtime, now: int, userId: int, body: DealerInput) returns (r: Reply<Dealer>)
    requires dealers.Valid()
    modifies dealers
    ensures dealers.Valid()
    ensures !Truthy(body.name) || !Truthy(body.dealerType) ==> r == Err(400, "name and type are required")
    ensures Truthy(body.name) && body.dealerType.Str? && body.dealerType.s != "" && NormalizeType(body.dealerType.s).None? ==>
      r == Err(400, "type must be 'dealer' or 'sub-dealer'")
    ensures r.Err? && r.status == 400 ==>
      !Truthy(body.name) || !Truthy(body.dealerType) || (body.dealerType.Str? && NormalizeType(body.dealerType.s).None?)
    ensures r.Err? && r.status != 400 ==> r == Err(500, ServerError)
    ensures r.Ok? <==>
      Truthy(body.name) && body.name.Str? && body.dealerType.Str? && NormalizeType(body.dealerType.s).Some? && TextsAccepted(body)
    ensures r.Err? ==> dealers.rows == old(dealers.rows) && dealers.nextId == old(dealers.nextId)
    ensures r.Ok? ==>
      && r.status == 201
      && NormalizeType(body.dealerType.s) == Some(r.value.dealerType)
      && r.value == Dealer(old(dealers.nextId), body.name.s, r.value.dealerType,
                           TextOrNull(body.address).value, TextOrNull(body.city).value, TextOrNull(body.phone).value,
                           TextOrNull(body.contactName).value, TextOrNull(body.contactMobile).value,
                           NumberOrNull(rt, body.lat), NumberOrNull(rt, body.lng), userId, false, now)
      && dealers.rows == old(dealers.rows) + [r.value]
      && dealers.nextId == old(dealers.nextId) + 1
  {
    if !Truthy(body.name) || !Truthy(body.dealerType) {
      return Err(400, "name and type are required");
    }
    if !body.dealerType.Str? {
      return Err(500, ServerError);
    }
    var normalized := NormalizeType(body.dealerType.s);
    if normalized.None? {
      return Err(400, "type must be 'dealer' or 'sub-dealer'");
    }
    var address, city, phone := TextOrNull(body.address), TextOrNull(body.city), TextOrNull(body.phone);
    var contactName, contactMobile := TextOrNull(body.contactName), TextOrNull(body.contactMobile);
    if !body.name.Str? || address.Rejected? || city.Rejected? || phone.Rejected? || contactName.Rejected? || contactMobile.Rejected? {
      return Err(500, ServerError);
    }
    var d := Dealer(dealers.nextId, body.name.s, normalized.value, address.value, city.value, phone.value,
                    contactName.value, contactMobile.value, NumberOrNull(rt, body.lat), NumberOrNull(rt, body.lng),
                    userId, false, now);
    dealers.rows := dealers.rows + [d];
    dealers.nextId := dealers.nextId + 1;
    r := Ok(201, d);
  }

  /** The query of GET /dealers. */
  datatype DealerQuery = DealerQuery(search: Query, dealerType: Query, approved: Query)

  /** The search condition: the name or the city contains the search text, ignoring case. */
  predicate MatchesSearch(d: Dealer, search: Query)
  {
    Given(search) ==>
      ContainsInsensitive(d.name, search.value) || (d.city.Some? && ContainsInsensitive(d.city.value, search.value))
  }

  predicate MatchesType(d: Dealer, dealerType: Query)
  {
    Given(dealerType) ==> d.dealerType == dealerType.value
  }

  /** The approval condition applies only for the exact texts "true" and "false". */
  predicate MatchesApproval(d: Dealer, approved: Query)
  {
    && (approved == Some("true") ==> d.approved)
    && (approved == Some("false") ==> !d.approved)
  }

  /** The `where` object the list handler builds, condition by condition. */
  predicate MatchesQuery(d: Dealer, q: DealerQuery)
  {
    MatchesSearch(d, q.search) && MatchesType(d, q.dealerType) && MatchesApproval(d, q.approved)
  }

  /** Dealers ordered by name. */
  predicate ByName(a: Dealer, b: Dealer)
  {
    LexLe(a.name, b.name)
  }

  lemma ByNameIsPreorder()
    ensures TotalPreorder(ByName)
  {
    forall a: Dealer, b: Dealer ensures ByName(a, b) || ByName(b, a) {
      LexLeTotal(a.name, b.name);
    }
    forall a: Dealer, b: Dealer, c: Dealer | ByName(a, b) && ByName(b, c) ensures ByName(a, c) {
      LexLeTransitive(a.name, b.name, c.name);
    }
  }

  /** GET /dealers: the dealers that satisfy every given condition, ordered by name. */
  function List(rows: seq<Dealer>, q: DealerQuery): (r: seq<Dealer>)
    ensures forall d :: d in r <==> d in rows && MatchesQuery(d, q)
    ensures forall d :: multiset(r)[d] == if MatchesQuery(d, q) then multiset(rows)[d] else 0
    ensures forall i, j :: 0 <= i < j < |r| ==> LexLe(r[i].name, r[j].name)
  {
    ByNameIsPreorder();
    Select(rows, (d: Dealer) => MatchesQuery(d, q), ByName)
  }

  /** The three list conditions are independent: a dealer is listed under a query exactly when each condition alone lists it. */
  lemma ListFiltersCompose(rows: seq<Dealer>, q: DealerQuery, d: Dealer)
    ensures d in List(rows, q) <==>
      && d in List(rows, DealerQuery(q.search, None, None))
      && d in List(rows, DealerQuery(None, q.dealerType, None))
      && d in List(rows, DealerQuery(None, None, q.approved))
  {
  }

  /** Without filters the list holds every dealer, as often as stored. */
  lemma ListUnfilteredIsAll(rows: seq<Dealer>)
    ensures multiset(List(rows, DealerQuery(None, None, None))) == multiset(rows)
    ensures |List(rows, DealerQuery(None, None, None))| == |rows|
  {
    var all := List(rows, DealerQuery(None, None, None));
    assert forall d :: MatchesQuery(d, DealerQuery(None, None, None));
    assert multiset(all) == multiset(rows);
  }

  /** The rows after dealer `id` is approved: that row's flag set, nothing else changed. */
  function WithApproved(rows: seq<Dealer>, id: int): (r: seq<Dealer>)
    ensures |r| == |rows|
    ensures forall i :: 0 <= i < |rows| ==> r[i] == if rows[i].id == id then rows[i].(approved := true) else rows[i]
  {
    seq(|rows|, i requires 0 <= i < |rows| => if rows[i].id == id then rows[i].(approved := true) else rows[i])
  }

  /** Approving twice is approving once. */
  lemma ApproveIdempotent(rows: seq<Dealer>, id: int)
    ensures WithApproved(WithApproved(rows, id), id) == WithApproved(rows, id)
  {
  }

  /**
    * PATCH /dealers/:id/approve. Sets `approved` on the dealer; an id that is
    * not a number or matches no dealer makes the update throw, which this
    * handler answers with 500, not 404.
    */
  method Approve(dealers: DealerTable, rt: Runtime, idParam: string) returns (r: Reply<Dealer>)
    requires dealers.Valid()
    modifies dealers
    ensures dealers.Valid()
    ensures dealers.nextId == old(dealers.nextId)
    ensures var id := IntOf(rt.toNumber(Str(idParam)));
      && (id.None? || DealerIndex(old(dealers.rows), id.value) < 0 ==>
            r == Err(500, ServerError) && dealers.rows == old(dealers.rows))
      && (id.Some? && DealerIndex(old(dealers.rows), id.value) >= 0 ==>
            && dealers.rows == WithApproved(old(dealers.rows), id.value)
            && r == Ok(200, old(dealers.rows)[DealerIndex(old(dealers.rows), id.value)].(approved := true)))
  {
    var id := IntOf(rt.toNumber(Str(idParam)));
    if id.None? {
      return Err(500, ServerError);
    }
    var k := DealerIndex(dealers.rows, id.value);
    if k < 0 {
      return Err(500, ServerError);
    }
    var updated := dealers.rows[k].(approved := true);
    dealers.rows := WithApproved(dealers.rows, id.value);
    r := Ok(200, updated);
  }

  /** A dealer that exists is listed under `approved=true` once an admin has approved it. */
  lemma ApprovedDealerIsListed(rows: seq<Dealer>, id: int)
    requires DealerIndex(rows, id) >= 0
    ensures rows[DealerIndex(rows, id)].(approved := true) in List(WithApproved(rows, id), DealerQuery(None, None, Some("true")))
  {
    var k := DealerIndex(rows, id);
    var after := WithApproved(rows, id);
    assert after[k] == rows[k].(approved := true);
  }
}
