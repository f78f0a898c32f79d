/** Pagination arithmetic shared by the search and listing handlers:
    `offset = (page - 1) * limit`, `totalPages = Math.ceil(total / limit)`,
    and the page a `LIMIT ? OFFSET ?` (or `from`/`size`) cuts out of an
    ordered result. */
module Paging {

  /** `Math.ceil(total / limit)` for a positive limit. */
  function CeilDiv(total: nat, limit: int): (r: nat)
    requires limit >= 1
    ensures r * limit >= total
    ensures r > 0 ==> (r - 1) * limit < total
    ensures r == 0 <==> total == 0
  {
    var r := (total + limit - 1) / limit;
    assert r * limit + (total + limit - 1) % limit == total + limit - 1;
    r
  }

  /** `(page - 1) * limit`: the number of rows before page `page`. */
  function Offset(page: int, limit: int): (o: nat)
    requires page >= 1 && limit >= 1
  {
    (page - 1) * limit
  }

  /** The rows `LIMIT limit OFFSET offset` selects from an ordered result: an
      offset past the end gives no rows rather than an error. */
  function Window<T>(s: seq<T>, limit: nat, offset: nat): (r: seq<T>)
    ensures |r| <= limit
    ensures offset >= |s| ==> r == []
    ensures offset + limit <= |s| ==> |r| == limit
    ensures offset < |s| ==> |r| == (if offset + limit <= |s| then limit else |s| - offset)
    ensures forall i :: 0 <= i < |r| ==> offset + i < |s| && r[i] == s[offset + i]
  {
    if offset >= |s| then []
    else if offset + limit <= |s| then s[offset..offset + limit]
    else s[offset..]
  }

  /** Every row of a result of `total` rows lies on exactly one page numbered
      between 1 and `totalPages`: row `k` is entry `k % limit` of page
      `k / limit + 1`. */
  lemma {:induction false} PageCovers<T>(s: seq<T>, limit: int, k: nat)
    requires limit >= 1 && k < |s|
    ensures 1 <= k / limit + 1 <= CeilDiv(|s|, limit)
    ensures Offset(k / limit + 1, limit) + k % limit == k
    ensures k % limit < |Window(s, limit, Offset(k / limit + 1, limit))|
    ensures Window(s, limit, Offset(k / limit + 1, limit))[k % limit] == s[k]
  {
    var p := k / limit;
    var t := CeilDiv(|s|, limit);
    assert p * limit + k % limit == k;
    assert Offset(p + 1, limit) == p * limit;
    assert (t - p) * limit == t * limit - p * limit;
    assert (t - p) * limit > 0;
  }

  /** Pages do not overlap: every row of page `p` comes before every row of a
      later page `q`. */
  lemma PagesDisjoint<T>(s: seq<T>, limit: int, p: int, q: int)
    requires limit >= 1 && 1 <= p < q
    ensures Offset(p, limit) + |Window(s, limit, Offset(p, limit))| <= Offset(q, limit)
  {
    assert (q - 1) * limit >= p * limit;
  }
}

/** The early-return validation chains of the controllers: checks run in a
    fixed order and the first failing one decides the response. */
module Validation {
  import opened JsText

  /** Index of the first check that fails, if any. */
  function FirstFailure(checks: seq<bool>): (r: Option<nat>)
    ensures r.None? <==> forall i :: 0 <= i < |checks| ==> checks[i]
    ensures r.Some? ==> r.value < |checks| && !checks[r.value]
    ensures r.Some? ==> forall i :: 0 <= i < r.value ==> checks[i]
  {
    if checks == [] then None
    else if !checks[0] then Some(0)
    else
      var r := FirstFailure(checks[1..]);
      assert forall i :: 1 <= i < |checks| ==> checks[i] == checks[1..][i - 1];
      if r.None? then None else Some(r.value + 1)
  }
}
