/** The admin console's claims page: the date text `formatYMD` takes from a timestamp, the query it sends to load claims, and its status choices. */
module ClaimsPage {
  import opened Wrappers
  import opened Text
  import opened Js
  import Claims

  /** `formatYMD`: the first ten characters of an ISO timestamp text (all of it when shorter). */
  function FormatYMD(iso: string): (ymd: string)
    ensures |iso| >= 10 ==> |ymd| == 10
    ensures |iso| < 10 ==> ymd == iso
    ensures StartsWith(iso, ymd)
  {
    if |iso| >= 10 then iso[..10] else iso
  }

  /** For an ISO text "YYYY-MM-DDTHH:mm:ss.sssZ", the date part before the "T". */
  lemma FormatYMDIsDatePart(date: string, time: string)
    requires |date| == 10 && 'T' !in date
    ensures FormatYMD(date + "T" + time) == date
    ensures FormatYMD(date + "T" + time) == Split(date + "T" + time, 'T')[0]
  {
    var iso := date + "T" + time;
    assert iso[..10] == date;
    SplitAfterPiece(date, 'T', time);
  }

  /** `params.get(key)`: the first value appended under `key`, if any. */
  function Lookup(params: seq<(string, string)>, key: string): Query
    decreases |params|
  {
    if params == [] then None
    else if params[0].0 == key then Some(params[0].1)
    else Lookup(params[1..], key)
  }

  /** A key has a value exactly when some parameter has that key, and the value is one appended under it. */
  lemma {:induction false} LookupFinds(params: seq<(string, string)>, key: string)
    ensures Lookup(params, key).Some? <==> exists i :: 0 <= i < |params| && params[i].0 == key
    ensures Lookup(params, key).Some? ==> exists i :: 0 <= i < |params| && params[i] == (key, Lookup(params, key).value)
    decreases |params|
  {
    if params != [] && params[0].0 != key {
      LookupFinds(params[1..], key);
      assert forall i :: 1 <= i < |params| ==> params[i] == params[1..][i - 1];
      if Lookup(params, key).Some? {
        var i :| 0 <= i < |params[1..]| && params[1..][i] == (key, Lookup(params, key).value);
        assert params[i + 1] == (key, Lookup(params, key).value);
      }
    }
  }

  /** Appending a parameter changes the lookup of its key only when the key was absent. */
  lemma {:induction false} LookupAppend(params: seq<(string, string)>, key: string, value: string, k: string)
    ensures Lookup(params + [(key, value)], k)
      == if Lookup(params, k).Some? then Lookup(params, k) else if key == k then Some(value) else None
    decreases |params|
  {
    if params != [] {
      LookupAppend(params[1..], key, value, k);
      assert (params + [(key, value)])[1..] == params[1..] + [(key, value)];
    }
  }

  /** The value of `k` after `if (cond) params.append(key, value)`: unchanged when present. */
  function Appended(params: seq<(string, string)>, cond: bool, key: string, value: string, k: string): Query
  {
    if Lookup(params, k).Some? then Lookup(params, k) else if cond && key == k then Some(value) else None
  }

  /** The key names a conditional append adds: `key` when `cond` holds, none otherwise. */
  function Present(cond: bool, key: string): seq<string>
  {
    if cond then [key] else []
  }

  /** `if (cond) params.append(key, value)`, for one of the four keys `loadClaims` sets. */
  method AppendIf(params: seq<(string, string)>, cond: bool, key: string, value: string)
    returns (r: seq<(string, string)>)
    ensures Lookup(r, "from") == Appended(params, cond, key, value, "from")
    ensures Lookup(r, "to") == Appended(params, cond, key, value, "to")
    ensures Lookup(r, "userId") == Appended(params, cond, key, value, "userId")
    ensures Lookup(r, "status") == Appended(params, cond, key, value, "status")
    ensures Keys(r) == Keys(params) + Present(cond, key)
  {
    r := params;
    if cond {
      LookupAppend(params, key, value, "from");
      LookupAppend(params, key, value, "to");
      LookupAppend(params, key, value, "userId");
      LookupAppend(params, key, value, "status");
      r := params + [(key, value)];
    }
  }

  /** The parameter names of a query, in order. */
  function Keys(params: seq<(string, string)>): (keys: seq<string>)
    ensures |keys| == |params|
    ensures forall i :: 0 <= i < |params| ==> keys[i] == params[i].0
  {
    seq(|params|, i requires 0 <= i < |params| => params[i].0)
  }

  /**
    * The query `loadClaims` builds: from, to and userId when non-empty, and
    * status unless the drop-down says "ALL", appended in that order.
    */
  method LoadParams(from: string, to: string, userIdFilter: string, statusFilter: string)
    returns (params: seq<(string, string)>)
    ensures Lookup(params, "from") == (if from != "" then Some(from) else None)
    ensures Lookup(params, "to") == (if to != "" then Some(to) else None)
    ensures Lookup(params, "userId") == (if userIdFilter != "" then Some(userIdFilter) else None)
    ensures Lookup(params, "status") == (if statusFilter != "ALL" then Some(statusFilter) else None)
    ensures Keys(params) == Present(from != "", "from") + Present(to != "", "to")
      + Present(userIdFilter != "", "userId") + Present(statusFilter != "ALL", "status")
  {
    assert Keys([]) == [];
    params := AppendIf([], from != "", "from", from);
    ghost var keys := Present(from != "", "from");
    assert Keys(params) == keys;
    params := AppendIf(params, to != "", "to", to);
    keys := keys + Present(to != "", "to");
    assert Keys(params) == keys;
    params := AppendIf(params, userIdFilter != "", "userId", userIdFilter);
    keys := keys + Present(userIdFilter != "", "userId");
    assert Keys(params) == keys;
    params := AppendIf(params, statusFilter != "ALL", "status", statusFilter);
    keys := keys + Present(statusFilter != "ALL", "status");
  }

  /** The status choices of the filter drop-down besides "ALL". */
  predicate StatusChoice(s: string)
  {
    s == "PENDING" || s == "APPROVED" || s == "REJECTED"
  }

  /** The server filters by exactly the status the drop-down shows, and by none for "ALL". */
  lemma StatusChoiceReachesServer(statusFilter: string)
    requires statusFilter == "ALL" || StatusChoice(statusFilter)
    ensures var q := if statusFilter != "ALL" then Some(statusFilter) else None;
      && (statusFilter == "ALL" ==> Claims.StatusFilter(q).None?)
      && (statusFilter != "ALL" ==> Claims.StatusFilter(q).Some? && Claims.StatusText(Claims.StatusFilter(q).value) == statusFilter)
  {
    if statusFilter != "ALL" {
      assert Upper(statusFilter) == statusFilter by {
        forall i | 0 <= i < |statusFilter| ensures UpperChar(statusFilter[i]) == statusFilter[i] {}
      }
    }
  }

  /** Each of the page's three status buttons sends a status the server accepts. */
  lemma StatusButtonsAreAccepted(rt: Runtime, s: string)
    requires StatusChoice(s)
    ensures Claims.StatusNamed(String(rt, Str(s))).Some?
    ensures Claims.StatusText(Claims.StatusNamed(String(rt, Str(s))).value) == s
  {
  }

  /** `Array.isArray(data) ? data : []`: the claims shown after a load. */
  function ClaimsShown(data: Value): (shown: seq<Value>)
    ensures data.Arr? ==> shown == data.elems
    ensures !data.Arr? ==> shown == []
  {
    if data.Arr? then data.elems else []
  }
}
