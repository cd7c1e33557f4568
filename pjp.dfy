/**
  * `/pjp`: a salesperson's permanent journey plan for one day. Saving a plan
  * normalises its items and upserts on the unique (user, date) key, replacing
  * the items of an existing plan; the two listings return the plans of one
  * user between two dates, each with its items in sequence order.
  */
module Pjp {
  import opened Wrappers
  import opened Seqs
  import opened Text
  import opened Js
  import opened Http
  import opened Dates
  import opened Dealers
  import opened AuthRoutes

  datatype PjpItem = PjpItem(dealerId: int, sequence: int, plannedTime: Option<int>)

  /** A plan row; its items are the rows of the item table that point at it. */
  datatype Plan = Plan(id: int, userId: int, date: int, notes: Option<string>, items: seq<PjpItem>)

  datatype ItemView = ItemView(item: PjpItem, dealer: Option<DealerBrief>)

  /** A plan as answered: its items ordered by sequence, each with its dealer. */
  datatype PlanView = PlanView(plan: Plan, items: seq<ItemView>)

  datatype AdminPlanView = AdminPlanView(view: PlanView, user: Option<UserContact>)

  /** No two plans share an owner and a date (the `userId_date` unique key). */
  predicate UniqueKeys(rows: seq<Plan>)
  {
    forall i, j :: 0 <= i < j < |rows| ==> !(rows[i].userId == rows[j].userId && rows[i].date == rows[j].date)
  }

  /** Plan ids are distinct and lie in [1, nextId). */
  predicate IdsBelow(rows: seq<Plan>, nextId: int)
  {
    && (forall i :: 0 <= i < |rows| ==> 1 <= rows[i].id < nextId)
    && (forall i, j :: 0 <= i < j < |rows| ==> rows[i].id != rows[j].id)
  }

  class PlanTable {
    var rows: seq<Plan>
    var nextId: int

    ghost predicate Valid()
      reads this
    {
      && 1 <= nextId
      && IdsBelow(rows, nextId)
      && UniqueKeys(rows)
    }

    constructor ()
      ensures Valid() && rows == [] && nextId == 1
    {
      rows, nextId := [], 1;
    }
  }

  /** The error a handler answers for what its `catch` receives: 400 with the message when it mentions dealerId, else 500. */
  function Caught<T>(message: string): (r: Reply<T>)
    ensures Contains(message, "dealerId") ==> r == Err(400, message)
    ensures !Contains(message, "dealerId") ==> r == Err(500, ServerError)
  {
    if Contains(message, "dealerId") then Err(400, message) else Err(500, ServerError)
  }

  /** An item after the handler's `items.map`: the numbers as JavaScript computed them, before the database takes them. */
  datatype NormalItem = NormalItem(dealerId: Number, sequence: real, plannedTime: Option<int>)

  datatype ItemOutcome = ItemThrows(message: string) | ItemOk(item: NormalItem)

  /** The TypeError thrown when reading `dealerId` of a null or undefined item. */
  function NoItemMessage(it: Value): string
  {
    "Cannot read properties of " + (if it.Null? then "null" else "undefined") + " (reading '" + "dealerId" + "')"
  }

  /** The item's `sequence` when it is a positive number, otherwise its position counted from 1. */
  function ItemSequence(given: Value, index: nat): (s: real)
    ensures s > 0.0
    ensures given.Num? && given.n.Fin? && given.n.r > 0.0 ==> s == given.n.r
    ensures !(given.Num? && given.n.Fin? && given.n.r > 0.0) ==> s == (index + 1) as real
  {
    if given.Num? && given.n.Fin? && given.n.r > 0.0 then given.n.r else (index + 1) as real
  }

  /** The item's `plannedTime` when it is truthy and a valid date, otherwise null. */
  function PlannedTime(rt: Runtime, given: Value): (t: Option<int>)
    ensures t.Some? ==> Truthy(given) && t == rt.newDate(given)
    ensures Truthy(given) && rt.newDate(given).Some? ==> t.Some?
  {
    if Truthy(given) then rt.newDate(given) else None
  }

  /** The callback of `items.map` on the item at `index`. */
  function NormalizeItem(rt: Runtime, it: Value, index: nat): (o: ItemOutcome)
    ensures Nullish(it) ==> o == ItemThrows(NoItemMessage(it))
    ensures !Nullish(it) && !Truthy(Prop(it, "dealerId").value) ==> o == ItemThrows("Each item must have dealerId")
    ensures !Nullish(it) && Truthy(Prop(it, "dealerId").value) ==>
      o == ItemOk(NormalItem(rt.toNumber(Prop(it, "dealerId").value),
                             ItemSequence(Prop(it, "sequence").value, index),
                             PlannedTime(rt, Prop(it, "plannedTime").value)))
  {
    match Prop(it, "dealerId")
    case None => ItemThrows(NoItemMessage(it))
    case Some(d) =>
      if !Truthy(d) then ItemThrows("Each item must have dealerId")
      else ItemOk(NormalItem(rt.toNumber(d), ItemSequence(Prop(it, "sequence").value, index),
                             PlannedTime(rt, Prop(it, "plannedTime").value)))
  }

  /** Every message the item callback throws mentions dealerId, so the handler answers it with 400. */
  lemma ItemErrorsMentionDealerId(rt: Runtime, it: Value, index: nat)
    requires NormalizeItem(rt, it, index).ItemThrows?
    ensures Caught<PlanView>(NormalizeItem(rt, it, index).message) == Err(400, NormalizeItem(rt, it, index).message)
  {
    if Nullish(it) {
      ContainsInfix("Cannot read properties of " + (if it.Null? then "null" else "undefined") + " (reading '", "dealerId", "')");
    } else {
      ContainsInfix("Each item must have ", "dealerId", "");
      assert "Each item must have " + "dealerId" + "" == "Each item must have dealerId";
    }
  }

  datatype Normalized = Thrown(message: string) | Normal(items: seq<NormalItem>)

  /** `items.map(...)`: the first item that throws decides the error; otherwise every item normalised in place. */
  function NormalizeItems(rt: Runtime, items: seq<Value>): (r: Normalized)
    ensures r.Normal? <==> forall k :: 0 <= k < |items| ==> NormalizeItem(rt, items[k], k).ItemOk?
    ensures r.Normal? ==> |r.items| == |items| && forall k :: 0 <= k < |items| ==> NormalizeItem(rt, items[k], k) == ItemOk(r.items[k])
    ensures r.Thrown? ==> exists k :: (0 <= k < |items| && NormalizeItem(rt, items[k], k) == ItemThrows(r.message)
      && forall j :: 0 <= j < k ==> NormalizeItem(rt, items[j], j).ItemOk?)
  {
    var outcomes := seq(|items|, k requires 0 <= k < |items| => NormalizeItem(rt, items[k], k));
    var first := IndexWhere(outcomes, (o: ItemOutcome) => o.ItemThrows?);
    assert forall k :: 0 <= k < |items| ==> outcomes[k] == NormalizeItem(rt, items[k], k);
    if first >= 0 then
      assert NormalizeItem(rt, items[first], first) == ItemThrows(outcomes[first].message);
      Thrown(outcomes[first].message)
    else Normal(seq(|items|, k requires 0 <= k < |items| => outcomes[k].item))
  }

  /** Without any positive numeric `sequence`, the items are numbered 1, 2, 3, ... in body order. */
  lemma DefaultSequenceIsPosition(rt: Runtime, items: seq<Value>)
    requires NormalizeItems(rt, items).Normal?
    requires forall k :: 0 <= k < |items| ==> !Prop(items[k], "sequence").value.Num?
    ensures forall k :: 0 <= k < |items| ==> NormalizeItems(rt, items).items[k].sequence == (k + 1) as real
  {
    forall k | 0 <= k < |items| ensures NormalizeItems(rt, items).items[k].sequence == (k + 1) as real {
      assert NormalizeItem(rt, items[k], k).ItemOk?;
    }
  }

  /** The item the database stores, or None when it refuses the dealer id or the sequence (not an integer). */
  function StoredItem(n: NormalItem): (r: Option<PjpItem>)
    ensures r.Some? <==> IntOf(n.dealerId).Some? && IntOf(Fin(n.sequence)).Some?
    ensures r.Some? ==> r.value == PjpItem(IntOf(n.dealerId).value, IntOf(Fin(n.sequence)).value, n.plannedTime)
  {
    match (IntOf(n.dealerId), IntOf(Fin(n.sequence)))
    case (Some(d), Some(s)) => Some(PjpItem(d, s, n.plannedTime))
    case _ => None
  }

  /** The database stores the item and its dealer exists. */
  predicate Storable(n: NormalItem, dealers: seq<Dealer>)
  {
    StoredItem(n).Some? && DealerIndex(dealers, StoredItem(n).value.dealerId) >= 0
  }

  /** All normalised items as stored, when the database accepts every one and each names an existing dealer. */
  function StoredItems(items: seq<NormalItem>, dealers: seq<Dealer>): (r: Option<seq<PjpItem>>)
    ensures r.Some? <==> forall k :: 0 <= k < |items| ==> Storable(items[k], dealers)
    ensures r.Some? ==> |r.value| == |items| && forall k :: 0 <= k < |items| ==> Some(r.value[k]) == StoredItem(items[k])
    decreases |items|
  {
    if items == [] then Some([])
    else
      var first := StoredItem(items[0]);
      var rest := StoredItems(items[1..], dealers);
      if !Storable(items[0], dealers) then None
      else if rest.None? then
        var k :| 0 <= k < |items[1..]| && !Storable(items[1..][k], dealers);
        assert !Storable(items[k + 1], dealers);
        None
      else
        assert forall k :: 1 <= k < |items| ==> items[k] == items[1..][k - 1];
        Some([first.value] + rest.value)
  }

  /** The position of the plan with this owner and date, or -1. */
  function KeyIndex(rows: seq<Plan>, userId: int, date: int): (k: int)
    ensures -1 <= k < |rows|
    ensures k >= 0 ==> rows[k].userId == userId && rows[k].date == date
    ensures k < 0 <==> forall i :: 0 <= i < |rows| ==> !(rows[i].userId == userId && rows[i].date == date)
  {
    IndexWhere(rows, (p: Plan) => p.userId == userId && p.date == date)
  }

  /**
    * The plans after the upsert: the plan with this owner and date keeps its
    * id and gets the new notes and items, or a plan with id `nextId` is added.
    */
  function Upserted(rows: seq<Plan>, nextId: int, userId: int, date: int, notes: Option<string>, items: seq<PjpItem>)
    : (r: seq<Plan>)
    ensures KeyIndex(rows, userId, date) >= 0 ==>
      var k := KeyIndex(rows, userId, date);
      r == rows[k := Plan(rows[k].id, userId, date, notes, items)]
    ensures KeyIndex(rows, userId, date) < 0 ==> r == rows + [Plan(nextId, userId, date, notes, items)]
  {
    var k := KeyIndex(rows, userId, date);
    if k >= 0 then rows[k := rows[k].(notes := notes, items := items)]
    else rows + [Plan(nextId, userId, date, notes, items)]
  }

  /** The plan the upsert leaves under the key: the existing plan's id, or `nextId`. */
  function Saved(rows: seq<Plan>, nextId: int, userId: int, date: int, notes: Option<string>, items: seq<PjpItem>)
    : (p: Plan)
    ensures p.userId == userId && p.date == date && p.notes == notes && p.items == items
    ensures p.id == if KeyIndex(rows, userId, date) >= 0 then rows[KeyIndex(rows, userId, date)].id else nextId
  {
    var k := KeyIndex(rows, userId, date);
    Plan(if k >= 0 then rows[k].id else nextId, userId, date, notes, items)
  }

  /** Ids stay between 1 and the next id, and distinct, when the next id advances exactly on insertion. */
  lemma UpsertedKeepsIds(rows: seq<Plan>, nextId: int, userId: int, date: int, notes: Option<string>, items: seq<PjpItem>)
    requires 1 <= nextId
    requires IdsBelow(rows, nextId)
    ensures IdsBelow(Upserted(rows, nextId, userId, date, notes, items),
                     if KeyIndex(rows, userId, date) < 0 then nextId + 1 else nextId)
  {
    var k := KeyIndex(rows, userId, date);
    var r := Upserted(rows, nextId, userId, date, notes, items);
    assert forall i :: 0 <= i < |rows| ==> r[i].id == rows[i].id;
  }

  /** After the upsert exactly one plan has the key, it holds the new notes and items, and no other plan changed. */
  lemma UpsertedKeepsKeysUnique(rows: seq<Plan>, nextId: int, userId: int, date: int, notes: Option<string>, items: seq<PjpItem>)
    requires UniqueKeys(rows)
    ensures var r := Upserted(rows, nextId, userId, date, notes, items);
      && UniqueKeys(r)
      && KeyIndex(r, userId, date) >= 0
      && r[KeyIndex(r, userId, date)] == Saved(rows, nextId, userId, date, notes, items)
      && (forall p :: p in rows && !(p.userId == userId && p.date == date) ==> p in r)
      && (forall p :: p in r && !(p.userId == userId && p.date == date) ==> p in rows)
  {
    var r := Upserted(rows, nextId, userId, date, notes, items);
    var k := KeyIndex(rows, userId, date);
    if k < 0 {
      assert r[|rows|] == Saved(rows, nextId, userId, date, notes, items);
    } else {
      assert r[k] == Saved(rows, nextId, userId, date, notes, items);
      assert r[k].userId == userId && r[k].date == date;
      forall p | p in rows && !(p.userId == userId && p.date == date) ensures p in r {
        var i :| 0 <= i < |rows| && rows[i] == p;
        assert i != k && r[i] == p;
      }
    }
    forall p | p in r && !(p.userId == userId && p.date == date) ensures p in rows {
      var i :| 0 <= i < |r| && r[i] == p;
      assert rows[i] == p;
    }
  }

  /** Saving the same plan twice leaves what saving it once left. */
  lemma UpsertIdempotent(rows: seq<Plan>, nextId: int, userId: int, date: int, notes: Option<string>, items: seq<PjpItem>)
    requires UniqueKeys(rows)
    ensures var once := Upserted(rows, nextId, userId, date, notes, items);
      var next := if KeyIndex(rows, userId, date) < 0 then nextId + 1 else nextId;
      Upserted(once, next, userId, date, notes, items) == once
  {
    var once := Upserted(rows, nextId, userId, date, notes, items);
    UpsertedKeepsKeysUnique(rows, nextId, userId, date, notes, items);
    var k := KeyIndex(once, userId, date);
    assert once[k] == Plan(once[k].id, userId, date, notes, items);
    assert once[k := once[k]] == once;
  }

  /** Lower sequence first. */
  predicate BySequence(a: PjpItem, b: PjpItem)
  {
    a.sequence <= b.sequence
  }

  lemma BySequenceIsPreorder()
    ensures TotalPreorder(BySequence)
  {
  }

  /** The items of a view, in view order. */
  function ItemsOf(views: seq<ItemView>): (r: seq<PjpItem>)
    ensures |r| == |views|
    ensures forall i :: 0 <= i < |views| ==> r[i] == views[i].item
  {
    seq(|views|, i requires 0 <= i < |views| => views[i].item)
  }

  /** A plan as the handlers answer it: all of its items, by ascending sequence, each joined with its dealer. */
  function View(p: Plan, dealers: seq<Dealer>): (v: PlanView)
    ensures v.plan == p
    ensures multiset(ItemsOf(v.items)) == multiset(p.items)
    ensures Sorted(ItemsOf(v.items), BySequence)
    ensures forall i :: 0 <= i < |v.items| ==> v.items[i].dealer == BriefOf(dealers, v.items[i].item.dealerId)
  {
    BySequenceIsPreorder();
    var sorted := Sort(p.items, BySequence);
    var views := seq(|sorted|, i requires 0 <= i < |sorted| => ItemView(sorted[i], BriefOf(dealers, sorted[i].dealerId)));
    assert ItemsOf(views) == sorted;
    PlanView(p, views)
  }

  /** The error `items.map` stops with mentions dealerId, so the handler answers it with 400. */
  lemma ThrownMentionsDealerId(rt: Runtime, items: seq<Value>)
    requires NormalizeItems(rt, items).Thrown?
    ensures Caught<PlanView>(NormalizeItems(rt, items).message) == Err(400, NormalizeItems(rt, items).message)
  {
    var k :| 0 <= k < |items| && NormalizeItem(rt, items[k], k) == ItemThrows(NormalizeItems(rt, items).message);
    ItemErrorsMentionDealerId(rt, items[k], k);
  }

  /** What POST /pjp decides before writing: an answer, or the plan's day, notes and stored items. */
  datatype Prepared = Refused(reply: Reply<PlanView>) | Ready(day: int, notes: Option<string>, items: seq<PjpItem>)

  /** The write of a checked plan: the database refuses unknown dealers and notes that are not text. */
  function Write(dealers: seq<Dealer>, day: int, notes: Value, normalized: seq<NormalItem>, dbMessage: string)
    : (p: Prepared)
    ensures p.Refused? ==> p.reply == Caught(dbMessage)
    ensures p.Ready? <==> StoredItems(normalized, dealers).Some? && TextOrNull(notes).Accepted?
    ensures p.Ready? ==> p.day == day && TextOrNull(notes) == Accepted(p.notes) && StoredItems(normalized, dealers) == Some(p.items)
  {
    var stored := StoredItems(normalized, dealers);
    var notesColumn := TextOrNull(notes);
    if stored.None? || notesColumn.Rejected? then Refused(Caught(dbMessage))
    else Ready(day, notesColumn.value, stored.value)
  }

  /**
    * The checks of POST /pjp, in the handler's order. 400 without a date,
    * for a date that is not a date, and without a non-empty items array; an
    * item the callback rejects answers 400 with its message. When the
    * database refuses the write (an id or sequence that is not an integer,
    * an unknown dealer, notes that are not text) the handler answers
    * according to the ORM's message `dbMessage`.
    */
  function Prepare(dealers: seq<Dealer>, rt: Runtime, date: Value, notes: Value, items: Value, dbMessage: string)
    : (p: Prepared)
    ensures p.Refused? ==> p.reply.Err?
    ensures !Truthy(date) ==> p == Refused(Err(400, "date (YYYY-MM-DD) is required in body"))
    ensures ParseDateYMD(rt, date).InvalidDate? ==> p == Refused(Err(400, "Invalid date format"))
    ensures ParseDateYMD(rt, date).Midnight? && !(items.Arr? && |items.elems| > 0) ==>
      p == Refused(Err(400, "items array is required and cannot be empty"))
    ensures ParseDateYMD(rt, date).Midnight? && items.Arr? && |items.elems| > 0 && NormalizeItems(rt, items.elems).Thrown? ==>
      p == Refused(Err(400, NormalizeItems(rt, items.elems).message))
    ensures p.Refused? && p.reply.status != 400 ==> p.reply == Caught(dbMessage)
    ensures p.Ready? <==>
      && ParseDateYMD(rt, date).Midnight? && items.Arr? && |items.elems| > 0
      && NormalizeItems(rt, items.elems).Normal?
      && StoredItems(NormalizeItems(rt, items.elems).items, dealers).Some?
      && TextOrNull(notes).Accepted?
    ensures p.Ready? ==>
      && p.day == ParseDateYMD(rt, date).ms
      && TextOrNull(notes) == Accepted(p.notes)
      && StoredItems(NormalizeItems(rt, items.elems).items, dealers) == Some(p.items)
  {
    var planDate := ParseDateYMD(rt, date);
    if planDate.NullDate? then Refused(Err(400, "date (YYYY-MM-DD) is required in body"))
    else if planDate.InvalidDate? then Refused(Err(400, "Invalid date format"))
    else if !(items.Arr? && |items.elems| > 0) then Refused(Err(400, "items array is required and cannot be empty"))
    else match NormalizeItems(rt, items.elems)
      case Thrown(message) =>
        ThrownMentionsDealerId(rt, items.elems);
        Refused(Caught(message))
      case Normal(normalized) => Write(dealers, planDate.ms, notes, normalized, dbMessage)
  }

  /** The upsert of a checked plan: the table after it, and the saved plan with its items in order. */
  method Store(plans: PlanTable, dealers: seq<Dealer>, userId: int, day: int, notes: Option<string>, items: seq<PjpItem>)
    returns (r: Reply<PlanView>)
    requires plans.Valid()
    modifies plans
    ensures plans.Valid()
    ensures plans.rows == Upserted(old(plans.rows), old(plans.nextId), userId, day, notes, items)
    ensures plans.nextId == (if KeyIndex(old(plans.rows), userId, day) < 0 then old(plans.nextId) + 1 else old(plans.nextId))
    ensures r == Ok(200, View(Saved(old(plans.rows), old(plans.nextId), userId, day, notes, items), dealers))
  {
    UpsertedKeepsKeysUnique(plans.rows, plans.nextId, userId, day, notes, items);
    UpsertedKeepsIds(plans.rows, plans.nextId, userId, day, notes, items);
    var saved := Saved(plans.rows, plans.nextId, userId, day, notes, items);
    var k := KeyIndex(plans.rows, userId, day);
    plans.rows := Upserted(plans.rows, plans.nextId, userId, day, notes, items);
    if k < 0 {
      plans.nextId := plans.nextId + 1;
    }
    r := Ok(200, View(saved, dealers));
  }

  /** POST /pjp: the checks of `Prepare`, then the plan for (caller, date) is upserted and answered. */
  method Save(plans: PlanTable, dealers: seq<Dealer>, rt: Runtime, userId: int,
              date: Value, notes: Value, items: Value, dbMessage: string)
    returns (r: Reply<PlanView>)
    requires plans.Valid()
    modifies plans
    ensures plans.Valid()
    ensures var p := Prepare(dealers, rt, date, notes, items, dbMessage);
      && (p.Refused? ==> r == p.reply && plans.rows == old(plans.rows) && plans.nextId == old(plans.nextId))
      && (p.Ready? ==>
        && plans.rows == Upserted(old(plans.rows), old(plans.nextId), userId, p.day, p.notes, p.items)
        && plans.nextId == (if KeyIndex(old(plans.rows), userId, p.day) < 0 then old(plans.nextId) + 1 else old(plans.nextId))
        && r == Ok(200, View(Saved(old(plans.rows), old(plans.nextId), userId, p.day, p.notes, p.items), dealers)))
  {
    var p := Prepare(dealers, rt, date, notes, items, dbMessage);
    if p.Refused? {
      return p.reply;
    }
    r := Store(plans, dealers, userId, p.day, p.notes, p.items);
  }

  /** Earlier date first. */
  predicate ByDate(a: Plan, b: Plan)
  {
    a.date <= b.date
  }

  lemma ByDateIsPreorder()
    ensures TotalPreorder(ByDate)
  {
  }

  /** The plans of a listing, in listing order. */
  function PlansOf(views: seq<PlanView>): (r: seq<Plan>)
    ensures |r| == |views|
    ensures forall i :: 0 <= i < |views| ==> r[i] == views[i].plan
  {
    seq(|views|, i requires 0 <= i < |views| => views[i].plan)
  }

  /** Each plan shown with its sorted items, in the order given. */
  function Views(plans: seq<Plan>, dealers: seq<Dealer>): (r: seq<PlanView>)
    ensures PlansOf(r) == plans
    ensures forall i :: 0 <= i < |r| ==> r[i] == View(plans[i], dealers)
  {
    var views := seq(|plans|, i requires 0 <= i < |plans| => View(plans[i], dealers));
    assert PlansOf(views) == plans;
    views
  }

  /** The plans of `userId` dated from midnight `lo` to midnight `hi` inclusive, earliest first, as answered. */
  function PlansBetween(rows: seq<Plan>, dealers: seq<Dealer>, userId: int, lo: int, hi: int): (r: seq<PlanView>)
    ensures forall p :: p in PlansOf(r) <==> p in rows && p.userId == userId && lo <= p.date <= hi
    ensures forall p :: multiset(PlansOf(r))[p] == if p.userId == userId && lo <= p.date <= hi then multiset(rows)[p] else 0
    ensures Sorted(PlansOf(r), ByDate)
    ensures forall i :: 0 <= i < |r| ==> r[i] == View(r[i].plan, dealers)
  {
    ByDateIsPreorder();
    var selected := Select(rows, (p: Plan) => p.userId == userId && lo <= p.date <= hi, ByDate);
    Views(selected, dealers)
  }

  /** The bounds of a listing: both given, both dates; the midnights of `from` and `to`. */
  function ListBounds(rt: Runtime, from: Query, to: Query): (r: DateBounds)
    ensures !Given(from) || !Given(to) ==> r == BoundsErr("Query params 'from' and 'to' are required")
    ensures Given(from) && Given(to) && (rt.dayOf(Str(from.value)).None? || rt.dayOf(Str(to.value)).None?) ==>
      r == BoundsErr("Invalid date format")
    ensures r.Bounds? <==> Given(from) && Given(to) && rt.dayOf(Str(from.value)).Some? && rt.dayOf(Str(to.value)).Some?
    ensures r.Bounds? ==> (Given(from) && Given(to)
      && ParseDateYMD(rt, Str(from.value)).Midnight? && ParseDateYMD(rt, Str(to.value)).Midnight?
      && r.lo == ParseDateYMD(rt, Str(from.value)).ms && r.hi == ParseDateYMD(rt, Str(to.value)).ms)
  {
    if !Given(from) || !Given(to) then BoundsErr("Query params 'from' and 'to' are required")
    else
      var lo := ParseDateYMD(rt, Str(from.value));
      var hi := ParseDateYMD(rt, Str(to.value));
      if !lo.Midnight? || !hi.Midnight? then BoundsErr("Invalid date format")
      else Bounds(lo.ms, hi.ms)
  }

  datatype DateBounds = BoundsErr(message: string) | Bounds(lo: int, hi: int)

  /** GET /pjp/my: the caller's plans between the two dates, earliest first. */
  function ListMine(rows: seq<Plan>, dealers: seq<Dealer>, rt: Runtime, userId: int, from: Query, to: Query)
    : (r: Reply<seq<PlanView>>)
    ensures ListBounds(rt, from, to).BoundsErr? ==> r == Err(400, ListBounds(rt, from, to).message)
    ensures ListBounds(rt, from, to).Bounds? ==>
      r == Ok(200, PlansBetween(rows, dealers, userId, ListBounds(rt, from, to).lo, ListBounds(rt, from, to).hi))
  {
    match ListBounds(rt, from, to)
    case BoundsErr(m) => Err(400, m)
    case Bounds(lo, hi) => Ok(200, PlansBetween(rows, dealers, userId, lo, hi))
  }

  /** Each plan view, in order, with the contact of the user it belongs to. */
  function WithUser(views: seq<PlanView>, user: Option<UserContact>): (r: seq<AdminPlanView>)
    ensures |r| == |views|
    ensures forall i :: 0 <= i < |r| ==> r[i] == AdminPlanView(views[i], user)
  {
    seq(|views|, i requires 0 <= i < |views| => AdminPlanView(views[i], user))
  }

  /** GET /pjp/user/:userId (admin): the same listing for the user the path names, each plan with its owner's contact. */
  function ListForUser(rows: seq<Plan>, users: seq<User>, dealers: seq<Dealer>, rt: Runtime, userIdParam: string,
                       from: Query, to: Query)
    : (r: Reply<seq<AdminPlanView>>)
    ensures ListBounds(rt, from, to).BoundsErr? ==> r == Err(400, ListBounds(rt, from, to).message)
    ensures ListBounds(rt, from, to).Bounds? && IntOf(rt.toNumber(Str(userIdParam))).None? ==> r == Err(500, ServerError)
    ensures r.Ok? <==> ListBounds(rt, from, to).Bounds? && IntOf(rt.toNumber(Str(userIdParam))).Some?
    ensures r.Ok? ==> (IntOf(rt.toNumber(Str(userIdParam))).Some? && ListBounds(rt, from, to).Bounds?
      && var target := IntOf(rt.toNumber(Str(userIdParam))).value;
      && var mine := PlansBetween(rows, dealers, target, ListBounds(rt, from, to).lo, ListBounds(rt, from, to).hi);
      && |r.value| == |mine|
      && forall i :: 0 <= i < |mine| ==> r.value[i] == AdminPlanView(mine[i], ContactOf(users, target)))
  {
    match ListBounds(rt, from, to)
    case BoundsErr(m) => Err(400, m)
    case Bounds(lo, hi) =>
      match IntOf(rt.toNumber(Str(userIdParam)))
      case None => Err(500, ServerError)
      case Some(target) =>
        var mine := PlansBetween(rows, dealers, target, lo, hi);
        Ok(200, WithUser(mine, ContactOf(users, target)))
  }

  /** A saved plan is listed by `/pjp/my` for its owner over a range naming its own day. */
  lemma SavedPlanIsListed(rows: seq<Plan>, dealers: seq<Dealer>, rt: Runtime, p: Plan, day: string)
    requires p in rows && day != ""
    requires rt.dayOf(Str(day)).Some? && p.date == DayStart(rt.dayOf(Str(day)).value)
    ensures ListMine(rows, dealers, rt, p.userId, Some(day), Some(day)).Ok?
    ensures p in PlansOf(ListMine(rows, dealers, rt, p.userId, Some(day), Some(day)).value)
  {
  }
}
