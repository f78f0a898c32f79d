/** The two search handlers. `simpleSearch` turns the query into a
    `WHERE name LIKE ? [AND discount_price ...]` clause for the relational
    engine; `elasticSearch` turns it into a `bool` query with a `range` filter
    for the search engine. Both answer with the same paginated response shape.

    The relational engine is modelled by what it does with the clauses this
    handler can build (`ReadWhere`, `ReadOrderBy`, `RunSelect`); the search
    engine is a function parameter, since its ranking is not part of the model. */
module Search {
  import opened JsText
  import opened Paging
  import opened Relational
  import opened PriceQuery
  import opened Records

  /** `BASE_URL` and `UPLOAD_PATH` as the module reads them at load time. */
  datatype Config = Config(baseUrl: string, uploadPath: string)

  const DefaultBaseUrl: string := "http://localhost:5000"
  const DefaultUploadPath: string := "/uploads/product-images/"

  /** `process.env.X || default` for both settings. */
  function ResolveConfig(envBaseUrl: Option<string>, envUploadPath: Option<string>): (c: Config)
    ensures c.baseUrl != [] && c.uploadPath != []
    ensures Truthy(envBaseUrl) ==> c.baseUrl == envBaseUrl.value
    ensures Truthy(envUploadPath) ==> c.uploadPath == envUploadPath.value
  {
    Config(if Truthy(envBaseUrl) then envBaseUrl.value else DefaultBaseUrl,
           if Truthy(envUploadPath) then envUploadPath.value else DefaultUploadPath)
  }

  /** `fullImagePath(img)`: there is no null guard, so a missing image is
      rendered as the text "null" after the prefix. */
  function ImageUrl(cfg: Config, img: Option<string>): (u: string)
    ensures |u| >= |cfg.baseUrl + cfg.uploadPath|
    ensures u[..|cfg.baseUrl + cfg.uploadPath|] == cfg.baseUrl + cfg.uploadPath
    ensures img.Some? ==> u[|cfg.baseUrl + cfg.uploadPath|..] == img.value
    ensures img.None? ==> u[|cfg.baseUrl + cfg.uploadPath|..] == "null"
  {
    cfg.baseUrl + cfg.uploadPath + (if img.Some? then img.value else "null")
  }

  // ---------------------------------------------------------------------
  // Price bounds

  /** `priceFilter.min`, `undefined` for a filter without that key. */
  function MinOf(f: PriceFilter): Option<nat> {
    match f
    case AtMost(_) => None
    case AtLeast(m) => Some(m)
    case Between(m, _) => Some(m)
  }

  function MaxOf(f: PriceFilter): Option<nat> {
    match f
    case AtMost(m) => Some(m)
    case AtLeast(_) => None
    case Between(_, m) => Some(m)
  }

  /** JavaScript truthiness of a bound: absent and zero are falsy. */
  predicate Given(b: Option<nat>) {
    b.Some? && b.value != 0
  }

  /** Inclusive bounds on the discount price; `None` leaves that side open. */
  datatype Bounds = Bounds(lo: Option<int>, hi: Option<int>)

  const Unbounded := Bounds(None, None)

  predicate InBounds(price: int, b: Bounds) {
    (b.lo.Some? ==> b.lo.value <= price) && (b.hi.Some? ==> price <= b.hi.value)
  }

  /** The bounds a parse result imposes: each side that is present and not
      zero, as both handlers test them by truthiness. */
  function EffectiveBounds(f: Option<PriceFilter>): (b: Bounds)
    ensures b.lo.Some? <==> f.Some? && Given(MinOf(f.value))
    ensures b.hi.Some? <==> f.Some? && Given(MaxOf(f.value))
    ensures b.lo.Some? ==> b.lo.value == MinOf(f.value).value > 0
    ensures b.hi.Some? ==> b.hi.value == MaxOf(f.value).value > 0
  {
    if f.None? then Unbounded
    else
      Bounds(if Given(MinOf(f.value)) then Some(MinOf(f.value).value as int) else None,
             if Given(MaxOf(f.value)) then Some(MaxOf(f.value).value as int) else None)
  }

  /** A zero bound filters nothing: "under 0" and "between 0 and 0" leave the
      price open, and "between 0 and 50" acts as "under 50". */
  lemma ZeroBoundDropped()
    ensures EffectiveBounds(Some(AtMost(0))) == Unbounded
    ensures EffectiveBounds(Some(Between(0, 0))) == Unbounded
    ensures EffectiveBounds(Some(Between(0, 50))) == Bounds(None, Some(50))
    ensures forall p :: !InBounds(p, Bounds(Some(100), Some(50)))
  {
  }

  // ---------------------------------------------------------------------
  // The relational path

  datatype SqlParam = Text(s: string) | Int(n: int)

  const LikeClause: string := "WHERE name LIKE ?"
  const BetweenClause: string := " AND discount_price BETWEEN ? AND ?"
  const AtMostClause: string := " AND discount_price <= ?"
  const AtLeastClause: string := " AND discount_price >= ?"

  /** What a `WHERE` clause selects: names matching a `LIKE` pattern with the
      price within bounds. */
  datatype RowFilter = RowFilter(pattern: string, bounds: Bounds)

  /** How the relational engine binds the clauses this handler builds to
      their positional parameters; `None` for anything else. */
  function ReadWhere(clause: string, params: seq<SqlParam>): Option<RowFilter> {
    if |params| == 0 || !params[0].Text? then None
    else if clause == LikeClause && |params| == 1 then
      Some(RowFilter(params[0].s, Unbounded))
    else if clause == LikeClause + BetweenClause && |params| == 3 && params[1].Int? && params[2].Int? then
      Some(RowFilter(params[0].s, Bounds(Some(params[1].n), Some(params[2].n))))
    else if clause == LikeClause + AtMostClause && |params| == 2 && params[1].Int? then
      Some(RowFilter(params[0].s, Bounds(None, Some(params[1].n))))
    else if clause == LikeClause + AtLeastClause && |params| == 2 && params[1].Int? then
      Some(RowFilter(params[0].s, Bounds(Some(params[1].n), None)))
    else None
  }

  /** Builds `whereClause` and `params` by appending to them: the name
      pattern always, then one price condition chosen by truthiness, testing
      "both" first and "max" before "min". */
  method BuildWhereClause(f: Option<PriceFilter>, cleaned: string) returns (clause: string, params: seq<SqlParam>)
    ensures ReadWhere(clause, params) == Some(RowFilter("%" + cleaned + "%", EffectiveBounds(f)))
  {
    clause := LikeClause;
    params := [Text("%" + cleaned + "%")];
    if f.Some? {
      var min, max := MinOf(f.value), MaxOf(f.value);
      if Given(min) && Given(max) {
        clause := clause + BetweenClause;
        params := params + [Int(min.value), Int(max.value)];
      } else if Given(max) {
        clause := clause + AtMostClause;
        params := params + [Int(max.value)];
      } else if Given(min) {
        clause := clause + AtLeastClause;
        params := params + [Int(min.value)];
      }
    }
    assert LikeClause != LikeClause + BetweenClause by { assert |LikeClause| < |LikeClause + BetweenClause|; }
    assert (LikeClause + BetweenClause)[|LikeClause| + 20] == 'B';
    assert (LikeClause + AtMostClause)[|LikeClause| + 20] == '<';
  }

  predicate RowSelected(row: ProductRow, w: RowFilter) {
    LikeMatch(w.pattern, row.name) && InBounds(row.discountPrice, w.bounds)
  }

  /** The rows a `WHERE` clause keeps, in table order. */
  function Select(rows: seq<ProductRow>, w: RowFilter): (r: seq<ProductRow>)
    ensures |r| <= |rows|
    ensures forall x :: x in r <==> x in rows && RowSelected(x, w)
    ensures forall x :: multiset(r)[x] == if RowSelected(x, w) then multiset(rows)[x] else 0
    ensures IsSubsequence(r, rows)
  {
    if rows == [] then []
    else
      var rest := Select(rows[1..], w);
      var r := if RowSelected(rows[0], w) then [rows[0]] + rest else rest;
      FilterStep(rows, rest, (x: ProductRow) => RowSelected(x, w), r);
      r
  }

  datatype PriceOrder = Unordered | Ascending | Descending

  /** Only the exact strings "asc" and "desc" order by price. */
  function SortMode(sort: string): (o: PriceOrder)
    ensures o == Ascending <==> sort == "asc"
    ensures o == Descending <==> sort == "desc"
  {
    if sort == "asc" then Ascending else if sort == "desc" then Descending else Unordered
  }

  /** `orderBy` as `simpleSearch` writes it. */
  function OrderByClause(sort: string): string {
    if sort == "asc" then "ORDER BY discount_price ASC"
    else if sort == "desc" then "ORDER BY discount_price DESC"
    else ""
  }

  function ReadOrderBy(clause: string): PriceOrder {
    if clause == "ORDER BY discount_price ASC" then Ascending
    else if clause == "ORDER BY discount_price DESC" then Descending
    else Unordered
  }

  lemma OrderByAgrees(sort: string)
    ensures ReadOrderBy(OrderByClause(sort)) == SortMode(sort)
  {
    assert "ORDER BY discount_price ASC"[24] != "ORDER BY discount_price DESC"[24];
  }

  predicate PriceAsc(a: ProductRow, b: ProductRow) {
    a.discountPrice <= b.discountPrice
  }

  predicate PriceDesc(a: ProductRow, b: ProductRow) {
    a.discountPrice >= b.discountPrice
  }

  lemma PriceOrdersTotal()
    ensures Connex(PriceAsc) && Transitive(PriceAsc)
    ensures Connex(PriceDesc) && Transitive(PriceDesc)
  {
  }

  lemma AscendingSorted(rows: seq<ProductRow>)
    ensures SortedBy(SortBy(rows, PriceAsc), PriceAsc)
  {
    PriceOrdersTotal();
    SortBySorted(rows, PriceAsc);
  }

  /** `ORDER BY discount_price ASC|DESC`, or no ordering clause, in which case
      rows come back in table order. */
  function Ordered(rows: seq<ProductRow>, o: PriceOrder): (r: seq<ProductRow>)
    ensures multiset(r) == multiset(rows)
  {
    match o
    case Unordered => rows
    case Ascending => SortBy(rows, PriceAsc)
    case Descending => SortBy(rows, PriceDesc)
  }

  /** `SELECT * FROM products <where> <orderBy> LIMIT ? OFFSET ?` and
      `SELECT COUNT(*) AS total FROM products <where>`. */
  datatype SqlQuery =
    | SelectPage(where: string, orderBy: string, params: seq<SqlParam>)
    | CountRows(where: string, params: seq<SqlParam>)

  /** The rows the relational engine returns for a page query: the last two
      parameters bind `LIMIT` and `OFFSET`, the others the `WHERE` clause. */
  function RunSelect(table: seq<ProductRow>, query: SqlQuery): Option<seq<ProductRow>>
    requires query.SelectPage?
  {
    var n := |query.params|;
    if n < 2 || !query.params[n - 2].Int? || !query.params[n - 1].Int?
      || query.params[n - 2].n < 0 || query.params[n - 1].n < 0 then None
    else
      match ReadWhere(query.where, query.params[..n - 2])
      case None => None
      case Some(w) =>
        Some(Window(Ordered(Select(table, w), ReadOrderBy(query.orderBy)),
                    query.params[n - 2].n, query.params[n - 1].n))
  }

  /** The page query binds its `WHERE` parameters, then `LIMIT` and `OFFSET`. */
  lemma RunSelectBinds(table: seq<ProductRow>, where: string, orderBy: string, params: seq<SqlParam>, limit: nat, offset: nat)
    requires ReadWhere(where, params).Some?
    ensures RunSelect(table, SelectPage(where, orderBy, params + [Int(limit), Int(offset)]))
      == Some(Window(Ordered(Select(table, ReadWhere(where, params).value), ReadOrderBy(orderBy)), limit, offset))
  {
    var all := params + [Int(limit), Int(offset)];
    assert all[..|all| - 2] == params;
  }

  function RunCount(table: seq<ProductRow>, query: SqlQuery): Option<nat>
    requires query.CountRows?
  {
    match ReadWhere(query.where, query.params)
    case None => None
    case Some(w) => Some(|Select(table, w)|)
  }

  // ---------------------------------------------------------------------
  // Requests and responses

  /** `req.query` of a search request; `page` and `limit` are taken as the
      numbers `+page` and `+limit` denote. */
  datatype SearchRequest = SearchRequest(q: Option<string>, page: Option<int>, limit: Option<int>, sort: Option<string>)

  /** The handlers do not validate `page` and `limit`; the model needs them
      positive. */
  predicate PagingOk(req: SearchRequest) {
    (req.page.Some? ==> req.page.value >= 1) && (req.limit.Some? ==> req.limit.value >= 1)
  }

  function PageOf(req: SearchRequest): int {
    if req.page.Some? then req.page.value else 1
  }

  function LimitOf(req: SearchRequest): int {
    if req.limit.Some? then req.limit.value else 10
  }

  function SortOf(req: SearchRequest): string {
    if req.sort.Some? then req.sort.value else "relevance"
  }

  /** `!q || q.trim() === ""`. */
  predicate Blank(q: Option<string>) {
    q.None? || Trim(q.value) == []
  }

  datatype Response<R> =
    | BadRequest(message: string)
    | Page(total: nat, page: int, limit: int, totalPages: nat, sort: string, results: seq<R>)

  const QueryRequired: string := "Search query is required"

  function WithImageUrls(cfg: Config, rows: seq<ProductRow>): (r: seq<ProductRow>)
    ensures |r| == |rows|
    ensures forall i :: 0 <= i < |r| ==> r[i] == rows[i].(image := Some(ImageUrl(cfg, rows[i].image)))
  {
    seq(|rows|, i requires 0 <= i < |rows| => rows[i].(image := Some(ImageUrl(cfg, rows[i].image))))
  }

  /** The filter `simpleSearch` applies to the table for a non-blank query. */
  function SimpleFilter(q: string): RowFilter {
    RowFilter("%" + CleanQuery(q) + "%", EffectiveBounds(ParsePriceFilter(q)))
  }

  /** The response `simpleSearch` should give, stated without SQL: the
      matching rows in the requested order, the requested page of them with
      absolute image URLs, and the page count. */
  function SimpleSearchSpec(cfg: Config, req: SearchRequest, table: seq<ProductRow>): Response<ProductRow>
    requires PagingOk(req)
  {
    if Blank(req.q) then BadRequest(QueryRequired)
    else
      var page, limit := PageOf(req), LimitOf(req);
      var matching := Select(table, SimpleFilter(req.q.value));
      var rows := Window(Ordered(matching, SortMode(SortOf(req))), limit, Offset(page, limit));
      Page(|matching|, page, limit, CeilDiv(|matching|, limit), SortOf(req), WithImageUrls(cfg, rows))
  }

  /** The page query and the count query `simpleSearch` sends: one
      `WHERE` clause and parameter list shared by both, the page query adding
      the order and the `LIMIT`/`OFFSET` parameters. */
  method BuildSimpleQueries(q: string, page: int, limit: int, sort: string)
    returns (dataQuery: SqlQuery, countQuery: SqlQuery)
    requires page >= 1 && limit >= 1
    ensures dataQuery.SelectPage? && countQuery.CountRows?
    ensures dataQuery.where == countQuery.where
    ensures dataQuery.params == countQuery.params + [Int(limit), Int(Offset(page, limit))]
    ensures ReadWhere(countQuery.where, countQuery.params) == Some(SimpleFilter(q))
    ensures ReadOrderBy(dataQuery.orderBy) == SortMode(sort)
  {
    var priceFilter := ParsePriceFilter(q);
    var cleanedQuery := CleanQuery(q);
    var offset := (page - 1) * limit;
    var orderBy := OrderByClause(sort);
    var whereClause, params := BuildWhereClause(priceFilter, cleanedQuery);
    dataQuery := SelectPage(whereClause, orderBy, params + [Int(limit), Int(offset)]);
    countQuery := CountRows(whereClause, params);
    OrderByAgrees(sort);
  }

  /** `simpleSearch`: a blank query is refused before any query is sent;
      otherwise the page query and the count query share one `WHERE` clause
      and parameter list, and the response is the one `SimpleSearchSpec`
      describes. */
  method SimpleSearch(cfg: Config, req: SearchRequest, table: seq<ProductRow>)
    returns (resp: Response<ProductRow>, issued: seq<SqlQuery>)
    requires PagingOk(req)
    ensures resp == SimpleSearchSpec(cfg, req, table)
    ensures Blank(req.q) <==> issued == []
    ensures !Blank(req.q) ==>
      && |issued| == 2 && issued[0].SelectPage? && issued[1].CountRows?
      && issued[0].where == issued[1].where
      && issued[0].params == issued[1].params + [Int(LimitOf(req)), Int(Offset(PageOf(req), LimitOf(req)))]
      && ReadWhere(issued[1].where, issued[1].params) == Some(SimpleFilter(req.q.value))
  {
    if Blank(req.q) {
      return BadRequest(QueryRequired), [];
    }
    var page, limit, sort := PageOf(req), LimitOf(req), SortOf(req);
    var dataQuery, countQuery := BuildSimpleQueries(req.q.value, page, limit, sort);
    issued := [dataQuery, countQuery];
    RunSelectBinds(table, countQuery.where, dataQuery.orderBy, countQuery.params, limit, Offset(page, limit));
    var rows := RunSelect(table, dataQuery).value;
    var total := RunCount(table, countQuery).value;
    resp := Page(total, page, limit, CeilDiv(total, limit), sort, WithImageUrls(cfg, rows));
  }

  /** Every row on a page of `simpleSearch` has a name matching the pattern
      and a price within the bounds, and differs from its table row only in
      the image, which becomes an absolute URL. */
  lemma SimpleSearchRowsMatch(cfg: Config, req: SearchRequest, table: seq<ProductRow>, i: nat)
    requires PagingOk(req) && !Blank(req.q)
    requires i < |SimpleSearchSpec(cfg, req, table).results|
    ensures var r := SimpleSearchSpec(cfg, req, table).results[i];
      exists row :: row in table && RowSelected(row, SimpleFilter(req.q.value))
        && r == row.(image := Some(ImageUrl(cfg, row.image)))
  {
    var page, limit := PageOf(req), LimitOf(req);
    var matching := Select(table, SimpleFilter(req.q.value));
    var ordered := Ordered(matching, SortMode(SortOf(req)));
    var rows := Window(ordered, limit, Offset(page, limit));
    var row := rows[i];
    assert row in multiset(ordered);
    assert row in matching;
  }

  /** A page holds at most `limit` rows, and there are no pages when nothing
      matches. */
  lemma SimpleSearchPageSize(cfg: Config, req: SearchRequest, table: seq<ProductRow>)
    requires PagingOk(req) && !Blank(req.q)
    ensures var r := SimpleSearchSpec(cfg, req, table);
      && |r.results| <= r.limit
      && (r.totalPages == 0 <==> r.total == 0)
      && r.total <= |table|
  {
  }

  /** A window of rows sorted by ascending price is in ascending order. */
  lemma AscendingWindow(rows: seq<ProductRow>, limit: nat, o: nat, i: nat, j: nat)
    requires i < j < |Window(Ordered(rows, Ascending), limit, o)|
    ensures var w := Window(Ordered(rows, Ascending), limit, o);
      w[i].discountPrice <= w[j].discountPrice
  {
    AscendingSorted(rows);
    var ordered := Ordered(rows, Ascending);
    var w := Window(ordered, limit, o);
    assert w[i] == ordered[o + i] && w[j] == ordered[o + j];
  }

  /** With `sort=asc` the rows of a page come in non-decreasing price order. */
  lemma SimpleSearchAscending(cfg: Config, req: SearchRequest, table: seq<ProductRow>, i: nat, j: nat)
    requires PagingOk(req) && !Blank(req.q) && SortOf(req) == "asc"
    requires i < j < |SimpleSearchSpec(cfg, req, table).results|
    ensures var r := SimpleSearchSpec(cfg, req, table).results;
      r[i].discountPrice <= r[j].discountPrice
  {
    var page, limit := PageOf(req), LimitOf(req);
    var matching := Select(table, SimpleFilter(req.q.value));
    AscendingWindow(matching, limit, Offset(page, limit), i, j);
  }

  /** When the cleaned term has no `%`, `_` or `\`, the name test of
      `simpleSearch` is a substring test. */
  lemma SimpleSearchNameTest(q: string, row: ProductRow)
    requires PlainTerm(CleanQuery(q))
    ensures RowSelected(row, SimpleFilter(q)) <==>
      Contains(row.name, CleanQuery(q)) && InBounds(row.discountPrice, EffectiveBounds(ParsePriceFilter(q)))
  {
    LikeContains(CleanQuery(q), row.name);
  }

  // ---------------------------------------------------------------------
  // The relevance path

  /** The `range.discount_price` object; `None` when it was never set and
      `range` stays `{}`. */
  datatype PriceRange = PriceRange(gte: Option<int>, lte: Option<int>)

  datatype MustFilter = RangeFilter(discountPrice: Option<PriceRange>)

  /** The bounds the search engine reads from a `range` filter. */
  function RangeBounds(m: MustFilter): Bounds {
    match m.discountPrice
    case None => Unbounded
    case Some(r) => Bounds(r.gte, r.lte)
  }

  /** Builds `mustFilters`: one `range` filter whenever the query parsed,
      testing "both" first and "min" before "max". */
  method BuildMustFilters(f: Option<PriceFilter>) returns (must: seq<MustFilter>)
    ensures f.None? <==> must == []
    ensures f.Some? ==> |must| == 1 && RangeBounds(must[0]) == EffectiveBounds(f)
    ensures f.Some? ==> (must[0].discountPrice.None? <==> EffectiveBounds(f) == Unbounded)
  {
    must := [];
    if f.Some? {
      var min, max := MinOf(f.value), MaxOf(f.value);
      var range: Option<PriceRange> := None;
      if Given(min) && Given(max) {
        range := Some(PriceRange(Some(min.value), Some(max.value)));
      } else if Given(min) {
        range := Some(PriceRange(Some(min.value), None));
      } else if Given(max) {
        range := Some(PriceRange(None, Some(max.value)));
      }
      must := must + [RangeFilter(range)];
    }
  }

  /** A parsed query whose bounds are all zero still sends a `range` filter,
      an empty one. */
  method EmptyRangeSent() returns (must: seq<MustFilter>)
    ensures must == [RangeFilter(None)]
  {
    must := BuildMustFilters(Some(AtMost(0)));
  }

  /** `sortOption` as `elasticSearch` writes it: a list of price sort keys. */
  datatype SortKey = PriceKey(ascending: bool)

  function EsSortOption(sort: string): seq<SortKey> {
    if sort == "asc" then [PriceKey(true)]
    else if sort == "desc" then [PriceKey(false)]
    else []
  }

  function ReadEsSort(keys: seq<SortKey>): PriceOrder {
    if keys == [] then Unordered else if keys[0].ascending then Ascending else Descending
  }

  /** Both handlers impose the same price order for every `sort` string. */
  lemma SortAgrees(sort: string)
    ensures ReadEsSort(EsSortOption(sort)) == SortMode(sort)
    ensures ReadOrderBy(OrderByClause(sort)) == SortMode(sort)
  {
    OrderByAgrees(sort);
  }

  /** The four `should` clauses, with field boosts written as in the query. */
  datatype ShouldClause =
    | FuzzyMultiMatch(query: string, fields: seq<string>)
    | PrefixMultiMatch(query: string, fields: seq<string>)
    | PhrasePrefix(field: string, query: string, slop: nat, boost: real)
    | Wildcard(field: string, value: string, boost: real)

  /** The body of `client.search`. */
  datatype EsRequest = EsRequest(
    index: string,
    from: int,
    size: int,
    sort: seq<SortKey>,
    must: seq<MustFilter>,
    should: seq<ShouldClause>,
    minimumShouldMatch: nat)

  /** `result.hits.total.value` and the `_source` of each hit. */
  datatype EsResult = EsResult(totalValue: nat, hits: seq<ProductDoc>)

  /** The eight fields a hit is projected to. */
  datatype SearchHit = SearchHit(
    productId: nat,
    name: string,
    mrp: int,
    discountPrice: int,
    qty: int,
    image: string,
    categoryName: Option<string>,
    categoryDescription: Option<string>)

  function Project(cfg: Config, d: ProductDoc): SearchHit {
    SearchHit(d.productId, d.name, d.mrp, d.discountPrice, d.qty, ImageUrl(cfg, d.image),
              d.categoryName, d.categoryDescription)
  }

  function ProjectAll(cfg: Config, docs: seq<ProductDoc>): (r: seq<SearchHit>)
    ensures |r| == |docs|
    ensures forall i :: 0 <= i < |r| ==> r[i] == Project(cfg, docs[i])
  {
    seq(|docs|, i requires 0 <= i < |docs| => Project(cfg, docs[i]))
  }

  function ShouldClauses(cleaned: string): seq<ShouldClause> {
    [ FuzzyMultiMatch(cleaned, ["name^4", "category_name^2", "category_description"]),
      PrefixMultiMatch(cleaned, ["name^3", "category_name^2", "category_description"]),
      PhrasePrefix("name", cleaned, 3, 2.0),
      Wildcard("name", "*" + Lower(cleaned) + "*", 0.2) ]
  }

  /** Each `should` clause searches the cleaned term; the wildcard pattern
      surrounds its lower-cased form with `*`. */
  lemma ShouldClausesSearchTerm(cleaned: string)
    ensures |ShouldClauses(cleaned)| == 4
    ensures forall k :: 0 <= k < 3 ==> ShouldTerm(ShouldClauses(cleaned)[k]) == cleaned
    ensures ShouldTerm(ShouldClauses(cleaned)[3]) == Lower(cleaned)
    ensures ShouldClauses(cleaned)[3].value == "*" + Lower(cleaned) + "*"
  {
    var wildcard := "*" + Lower(cleaned) + "*";
    assert wildcard[1..|wildcard| - 1] == Lower(cleaned);
  }

  /** The search term every `should` clause carries. */
  function ShouldTerm(c: ShouldClause): string {
    match c
    case FuzzyMultiMatch(t, _) => t
    case PrefixMultiMatch(t, _) => t
    case PhrasePrefix(_, t, _, _) => t
    case Wildcard(_, v, _) => if |v| >= 2 then v[1..|v| - 1] else v
  }

  /** What the search request for query `q` carries: the window `from` /
      `size`, the price order, a `range` filter exactly when the query parsed,
      with the bounds the relational path uses, and four `should` clauses that
      all search the cleaned term (the wildcard one lower-cased). */
  predicate RequestFor(r: EsRequest, q: string, page: int, limit: int, sort: string)
    requires page >= 1 && limit >= 1
  {
    var f := ParsePriceFilter(q);
    && r.index == "products"
    && r.from == Offset(page, limit) && r.size == limit
    && ReadEsSort(r.sort) == SortMode(sort)
    && (f.None? <==> r.must == [])
    && (f.Some? ==> |r.must| == 1 && RangeBounds(r.must[0]) == EffectiveBounds(f))
    && |r.should| == 4 && r.minimumShouldMatch == 1
    && ShouldTerm(r.should[0]) == CleanQuery(q)
    && ShouldTerm(r.should[1]) == CleanQuery(q)
    && ShouldTerm(r.should[2]) == CleanQuery(q)
    && ShouldTerm(r.should[3]) == Lower(CleanQuery(q))
  }

  /** Builds the body of `client.search`, pushing the `range` filter onto
      `mustFilters`. */
  method BuildEsRequest(q: string, page: int, limit: int, sort: string) returns (request: EsRequest)
    requires page >= 1 && limit >= 1
    ensures RequestFor(request, q, page, limit, sort)
  {
    var priceFilter := ParsePriceFilter(q);
    var cleanedQuery := CleanQuery(q);
    var from := (page - 1) * limit;
    var sortOption := EsSortOption(sort);
    var mustFilters := BuildMustFilters(priceFilter);
    request := EsRequest("products", from, limit, sortOption, mustFilters, ShouldClauses(cleanedQuery), 1);
    SortAgrees(sort);
    ShouldClausesSearchTerm(cleanedQuery);
  }

  /** `elasticSearch`: a blank query is refused before the search engine is
      called; otherwise exactly one request is sent, and the response carries
      the engine's total, the page count and the hits projected to eight
      fields. */
  method ElasticSearch(cfg: Config, req: SearchRequest, engine: EsRequest -> EsResult)
    returns (resp: Response<SearchHit>, issued: seq<EsRequest>)
    requires PagingOk(req)
    ensures Blank(req.q) <==> issued == []
    ensures Blank(req.q) ==> resp == BadRequest(QueryRequired)
    ensures !Blank(req.q) ==>
      var page, limit := PageOf(req), LimitOf(req);
      && |issued| == 1
      && RequestFor(issued[0], req.q.value, page, limit, SortOf(req))
      && resp == Page(engine(issued[0]).totalValue, page, limit,
                      CeilDiv(engine(issued[0]).totalValue, limit), SortOf(req),
                      ProjectAll(cfg, engine(issued[0]).hits))
  {
    if Blank(req.q) {
      return BadRequest(QueryRequired), [];
    }
    var page, limit, sort := PageOf(req), LimitOf(req), SortOf(req);
    var request := BuildEsRequest(req.q.value, page, limit, sort);
    issued := [request];
    var result := engine(request);
    resp := Page(result.totalValue, page, limit, CeilDiv(result.totalValue, limit), sort,
                 ProjectAll(cfg, result.hits));
  }

  /** With no environment overrides, a search result's image URL is the one
      the product listing builds for the same stored file name. */
  lemma DefaultImageUrl(f: string)
    ensures ImageUrl(ResolveConfig(None, None), Some(f))
      == "http://localhost:5000/uploads/product-images/" + f
  {
    assert DefaultBaseUrl + DefaultUploadPath == "http://localhost:5000/uploads/product-images/";
  }
}
