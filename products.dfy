/** The product handlers: the stored name of an uploaded product image,
    `addProduct` (its ordered checks, the category lookup, the row it inserts
    and the search document it indexes), `getProducts` (page and filter
    parsing, the count and page queries, image URLs) and `getProductById`.

    `Number(x)` coercion of form fields is a parameter; the clock and the
    identifiers the table assigns are parameters too. */
module Products {
  import opened JsText
  import opened JsNumber
  import opened Paging
  import opened Validation
  import opened Relational
  import opened Records

  // ---------------------------------------------------------------------
  // The stored name of an uploaded product image

  /** `s.replace(/\s+/g, "_")`, scanning left to right; `inRun` says the
      previous character was white space. */
  function Collapse(s: string, inRun: bool): (r: string)
    ensures NoSpaces(r)
  {
    if s == [] then []
    else if IsSpace(s[0]) then (if inRun then [] else "_") + Collapse(s[1..], true)
    else [s[0]] + Collapse(s[1..], false)
  }

  /** Without white space there is nothing to collapse. */
  lemma {:induction false} CollapseUnchanged(s: string, inRun: bool)
    ensures NoSpaces(s) ==> Collapse(s, inRun) == s
  {
    if s != [] && NoSpaces(s) {
      assert forall i :: 0 <= i < |s[1..]| ==> s[1..][i] == s[i + 1];
      CollapseUnchanged(s[1..], false);
    }
  }

  /** Each maximal run of white space becomes one '_'. */
  function CollapseSpaces(s: string): (r: string)
    ensures NoSpaces(r)
    ensures NoSpaces(s) ==> r == s
  {
    CollapseUnchanged(s, false);
    Collapse(s, false)
  }

  /** One step of the scan: the first character, or the '_' standing for
      the run it starts, then the rest. */
  lemma CollapseStep(s: string, inRun: bool)
    requires s != []
    ensures Collapse(s, inRun)
      == (if IsSpace(s[0]) then (if inRun then [] else "_") else [s[0]]) + Collapse(s[1..], IsSpace(s[0]))
  {
  }

  /** Whether the scan is inside a run of white space after reading `a`:
      exactly when `a` ends in white space (`RunAfterLast`). */
  function RunAfter(a: string, inRun: bool): bool {
    if a == [] then inRun else RunAfter(a[1..], IsSpace(a[0]))
  }

  lemma {:induction false} RunAfterLast(a: string, inRun: bool)
    requires a != []
    ensures RunAfter(a, inRun) == IsSpace(a[|a| - 1])
  {
    if a[1..] != [] {
      RunAfterLast(a[1..], IsSpace(a[0]));
      assert a[1..][|a[1..]| - 1] == a[|a| - 1];
    }
  }

  /** Collapsing a concatenation collapses each part, the second one starting
      in a run exactly when the first ends in white space. */
  lemma {:induction false} CollapseAppend(a: string, b: string, inRun: bool)
    ensures Collapse(a + b, inRun) == Collapse(a, inRun) + Collapse(b, RunAfter(a, inRun))
  {
    if a == [] {
      assert a + b == b;
    } else {
      var next := IsSpace(a[0]);
      var head := if next then (if inRun then [] else "_") else [a[0]];
      var tail, rest := Collapse(a[1..], next), Collapse(b, RunAfter(a[1..], next));
      assert Collapse(a + b, inRun) == head + Collapse(a[1..] + b, next) by {
        CollapseStep(a + b, inRun);
        assert (a + b)[0] == a[0] && (a + b)[1..] == a[1..] + b;
      }
      assert Collapse(a[1..] + b, next) == tail + rest by {
        CollapseAppend(a[1..], b, next);
      }
      assert Collapse(a, inRun) == head + tail by {
        CollapseStep(a, inRun);
      }
      AppendAssoc(head, tail, rest);
    }
  }

  /** A non-empty run of white space gives one '_', or nothing when it
      continues a run. */
  lemma {:induction false} CollapseRun(w: string, inRun: bool)
    requires w != [] && forall i :: 0 <= i < |w| ==> IsSpace(w[i])
    ensures Collapse(w, inRun) == if inRun then [] else "_"
  {
    if |w| > 1 {
      CollapseRun(w[1..], true);
    }
  }

  /** A run of white space between two words becomes exactly one '_', and the
      words on either side are collapsed independently. */
  lemma CollapseSpacesJoin(a: string, w: string, b: string)
    requires w != [] && forall i :: 0 <= i < |w| ==> IsSpace(w[i])
    requires a == [] || !IsSpace(a[|a| - 1])
    requires b == [] || !IsSpace(b[0])
    ensures CollapseSpaces(a + w + b) == CollapseSpaces(a) + "_" + CollapseSpaces(b)
  {
    var ca, cb := Collapse(a, false), Collapse(b, false);
    assert Collapse(a + w + b, false) == ca + Collapse(w + b, false) by {
      assert a + w + b == a + (w + b);
      CollapseAppend(a, w + b, false);
      if a != [] {
        RunAfterLast(a, false);
      }
    }
    assert Collapse(w + b, false) == Collapse(w, false) + Collapse(b, true) by {
      CollapseAppend(w, b, false);
      RunAfterLast(w, false);
    }
    assert Collapse(w, false) == "_" by {
      CollapseRun(w, false);
    }
    assert Collapse(b, true) == cb;
    assert ca + ("_" + cb) == ca + "_" + cb;
  }

  /** The text of `s` apart from white space and '_'. */
  function Visible(s: string): string {
    if s == [] then []
    else (if IsSpace(s[0]) || s[0] == '_' then [] else [s[0]]) + Visible(s[1..])
  }

  lemma {:induction false} VisibleAppend(a: string, b: string)
    ensures Visible(a + b) == Visible(a) + Visible(b)
  {
    if a == [] {
      assert a + b == b;
    } else {
      assert (a + b)[0] == a[0] && (a + b)[1..] == a[1..] + b;
      VisibleAppend(a[1..], b);
    }
  }

  /** Collapsing only replaces white space: every other character is kept, in
      order. */
  lemma {:induction false} CollapseKeepsText(s: string, inRun: bool)
    ensures Visible(Collapse(s, inRun)) == Visible(s)
  {
    if s != [] {
      CollapseKeepsText(s[1..], IsSpace(s[0]));
      if IsSpace(s[0]) {
        VisibleAppend(if inRun then [] else "_", Collapse(s[1..], true));
        assert Visible("_") == [] by { assert "_"[1..] == []; }
      } else {
        VisibleAppend([s[0]], Collapse(s[1..], false));
        assert [s[0]][1..] == [];
      }
    }
  }

  /** A run of several white-space characters gives a single '_'. */
  lemma CollapseExample(s: string)
    requires s == "a \t b"
    ensures CollapseSpaces(s) == "a_b"
  {
    assert s[1..] == " \t b" && s[1..][1..] == "\t b" && s[1..][1..][1..] == " b";
    assert s[1..][1..][1..][1..] == "b" && "b"[1..] == [];
    assert Collapse("b", false) == "b";
    assert Collapse(" b", true) == "b";
    assert Collapse("\t b", true) == "b";
    assert Collapse(" \t b", false) == "_b";
  }

  /** The product upload's stored name: the clock's milliseconds, '-', and
      the original name with white-space runs collapsed. */
  function ProductFileName(now: nat, originalName: string): (f: string)
    ensures NoSpaces(f)
    ensures f == NatToString(now) + "-" + CollapseSpaces(originalName)
  {
    var stamp := NatToString(now) + "-";
    assert forall i :: 0 <= i < |stamp| ==> !IsSpace(stamp[i]);
    var f := stamp + CollapseSpaces(originalName);
    assert forall i :: |stamp| <= i < |f| ==> f[i] == CollapseSpaces(originalName)[i - |stamp|];
    f
  }

  /** `parseInt` of a stored name gives back the timestamp. */
  lemma ProductFileNameStamp(now: nat, originalName: string)
    ensures ParseInt(Some(ProductFileName(now, originalName))) == Num(now)
  {
    var digits, rest := NatToString(now), "-" + CollapseSpaces(originalName);
    assert ProductFileName(now, originalName) == digits + rest;
    ParseIntStopsAtDash(digits, rest);
  }

  // ---------------------------------------------------------------------
  // addProduct

  /** The text fields of the multipart body; `None` is a missing field. */
  datatype ProductForm = ProductForm(
    name: Option<string>,
    mrp: Option<string>,
    discountPrice: Option<string>,
    qty: Option<string>,
    categoryId: Option<string>)

  const AddMessages: seq<string> := [
    "All fields are required",
    "Product name must be at least 3 characters long",
    "Invalid MRP value",
    "Invalid discount price",
    "Discount price cannot exceed MRP",
    "Quantity must be a positive number",
    "Invalid category ID",
    "Product image is required"]

  predicate AllPresent(f: ProductForm) {
    Truthy(f.name) && Truthy(f.mrp) && Truthy(f.discountPrice) && Truthy(f.qty) && Truthy(f.categoryId)
  }

  /** The checks of `addProduct` in the order it makes them; `number` is
      JavaScript's `Number(x)`. A later check is only reached when the earlier
      ones pass, so each is stated for that case. */
  function AddChecks(f: ProductForm, image: Option<string>, number: string -> Numeric): (c: seq<bool>)
    ensures |c| == |AddMessages|
  {
    var ok := AllPresent(f);
    var mrp := if ok then number(f.mrp.value) else NaN;
    var price := if ok then number(f.discountPrice.value) else NaN;
    [ ok,
      !ok || |Trim(f.name.value)| >= 3,
      !ok || Positive(mrp),
      !ok || Positive(price),
      !ok || !mrp.Num? || !price.Num? || price.v <= mrp.v,
      !ok || Positive(number(f.qty.value)),
      !ok || Positive(number(f.categoryId.value)),
      Truthy(image) ]
  }

  datatype AddOutcome =
    | AddRejected(status: nat, message: string)
    | Added(row: ProductRow, indexId: string, doc: ProductDoc)

  const CategoryNotFound := "Category not found"

  /** `addProduct`: the first failing check decides the 400 message; an
      unknown category gives 404 before anything is written; otherwise the
      row (trimmed name) is inserted under `newId` and the document
      (untrimmed name, the category's name and description) is indexed under
      the id's decimal string. */
  function AddProduct(f: ProductForm, image: Option<string>, number: string -> Numeric,
                      categories: seq<CategoryRow>, newId: nat): (r: AddOutcome)
    ensures r.AddRejected? && r.status == 400 <==> FirstFailure(AddChecks(f, image, number)).Some?
    ensures r.AddRejected? && r.status == 400 ==> r.message == AddMessages[FirstFailure(AddChecks(f, image, number)).value]
    ensures r.AddRejected? && r.status != 400 ==>
      && r.status == 404 && r.message == CategoryNotFound
      && forall c :: c in categories ==> number(f.categoryId.value) != Num(c.categoryId)
    ensures r.Added? ==>
      && AllPresent(f) && Truthy(image)
      && r.row.productId == newId && r.doc.productId == newId
      && r.row.name == Trim(f.name.value) && r.doc.name == f.name.value
      && Num(r.row.mrp) == number(f.mrp.value) && r.row.mrp == r.doc.mrp
      && Num(r.row.discountPrice) == number(f.discountPrice.value) && r.row.discountPrice == r.doc.discountPrice
      && Num(r.row.qty) == number(f.qty.value) && r.row.qty == r.doc.qty
      && r.row.image == image && r.doc.image == image
      && Num(r.row.categoryId) == number(f.categoryId.value)
      && (exists c :: c in categories && c.categoryId == r.row.categoryId
           && r.doc.categoryName == Some(c.name) && r.doc.categoryDescription == Some(c.description))
      && r.indexId == NatToString(newId)
  {
    var checks := AddChecks(f, image, number);
    match FirstFailure(checks)
    case Some(i) => AddRejected(400, AddMessages[i])
    case None =>
      assert checks[0] && checks[2] && checks[3] && checks[5] && checks[6] && checks[7];
      var categoryId := number(f.categoryId.value).v;
      match FindCategory(categories, categoryId)
      case None => AddRejected(404, CategoryNotFound)
      case Some(c) =>
        var mrp, price, qty := number(f.mrp.value).v, number(f.discountPrice.value).v, number(f.qty.value).v;
        Added(ProductRow(newId, Trim(f.name.value), mrp, price, qty, image, categoryId),
              NatToString(newId),
              ProductDoc(newId, f.name.value, mrp, price, qty, image, Some(c.name), Some(c.description)))
  }

  /** Every row `addProduct` inserts is well formed: a name of at least three
      characters after trimming, positive prices with the discount price at
      most the MRP, a positive quantity, an image, and an existing category. */
  lemma AddedRowValid(f: ProductForm, image: Option<string>, number: string -> Numeric,
                      categories: seq<CategoryRow>, newId: nat)
    requires AddProduct(f, image, number, categories, newId).Added?
    ensures var row := AddProduct(f, image, number, categories, newId).row;
      && |row.name| >= 3
      && 0 < row.discountPrice <= row.mrp
      && row.qty > 0
      && row.image.Some? && row.image.value != ""
      && row.categoryId > 0
      && exists c :: c in categories && c.categoryId == row.categoryId
  {
    var checks := AddChecks(f, image, number);
    assert FirstFailure(checks).None?;
    assert checks[1] && checks[2] && checks[3] && checks[4] && checks[5] && checks[6];
  }

  /** The row stores the trimmed name while the document keeps it as sent,
      and the document's id reads back as the row's id. */
  lemma RowAndDocAgree(f: ProductForm, image: Option<string>, number: string -> Numeric,
                       categories: seq<CategoryRow>, newId: nat)
    requires AddProduct(f, image, number, categories, newId).Added?
    ensures var r := AddProduct(f, image, number, categories, newId);
      && r.row.name == Trim(r.doc.name)
      && ParseInt(Some(r.indexId)) == Num(r.row.productId)
  {
    NatToStringRoundTrip(newId);
  }

  /** "0" is a present (truthy) field, so an MRP of "0" passes the first
      check and is refused as an invalid value. */
  lemma ZeroMrpRejected(f: ProductForm, image: Option<string>, number: string -> Numeric,
                        categories: seq<CategoryRow>, newId: nat)
    requires AllPresent(f) && |Trim(f.name.value)| >= 3
    requires f.mrp == Some("0") && number("0") == Num(0)
    ensures AddProduct(f, image, number, categories, newId) == AddRejected(400, "Invalid MRP value")
  {
    var checks := AddChecks(f, image, number);
    assert checks[0] && checks[1] && !checks[2];
  }

  // ---------------------------------------------------------------------
  // getProducts

  /** `req.query` of a listing request. */
  datatype ListRequest = ListRequest(page: Option<string>, limit: Option<string>, categoryId: Option<string>)

  datatype Listing =
    | ListRejected(message: string)
    | Listing(currentPage: int, totalPages: nat, totalItems: nat, data: seq<ProductRow>)

  const BadPaging := "Page and limit must be positive numbers"
  const BadCategory := "Invalid category ID"

  function PageParam(req: ListRequest): (p: int)
    ensures p != 0
  {
    ParseIntOr(req.page, 1)
  }

  function LimitParam(req: ListRequest): (l: int)
    ensures l != 0
  {
    ParseIntOr(req.limit, 10)
  }

  /** `req.query.category_id ? parseInt(req.query.category_id) : null`. */
  function CategoryParam(req: ListRequest): Option<Numeric> {
    if Truthy(req.categoryId) then Some(ParseInt(req.categoryId)) else None
  }

  /** The category filter the queries apply: only a truthy number (neither
      null, NaN nor 0) filters. */
  function CategoryFilter(req: ListRequest): (c: Option<int>)
    ensures c.Some? <==> CategoryParam(req).Some? && NumTruthy(CategoryParam(req).value)
    ensures c.Some? ==> CategoryParam(req) == Some(Num(c.value))
  {
    match CategoryParam(req)
    case Some(Num(v)) => if v != 0 then Some(v) else None
    case _ => None
  }

  /** The 400 message of `getProducts`, if any: non-positive paging first,
      then a truthy non-positive category id. */
  function ListError(req: ListRequest): (e: Option<string>)
    ensures e.None? <==> PageParam(req) > 0 && LimitParam(req) > 0 && (CategoryFilter(req).Some? ==> CategoryFilter(req).value > 0)
  {
    if PageParam(req) <= 0 || LimitParam(req) <= 0 then Some(BadPaging)
    else if CategoryFilter(req).Some? && CategoryFilter(req).value <= 0 then Some(BadCategory)
    else None
  }

  const ImageBase := "http://localhost:5000/uploads/product-images/"

  /** A falsy image stays null; any other is prefixed with the upload URL. */
  function ListedImage(img: Option<string>): (r: Option<string>)
    ensures r.None? <==> !Truthy(img)
    ensures r.Some? ==> r.value == ImageBase + img.value
  {
    if Truthy(img) then Some(ImageBase + img.value) else None
  }

  function WithListedImages(rows: seq<ProductRow>): (r: seq<ProductRow>)
    ensures |r| == |rows|
    ensures forall i :: 0 <= i < |r| ==> r[i] == rows[i].(image := ListedImage(rows[i].image))
  {
    seq(|rows|, i requires 0 <= i < |rows| => rows[i].(image := ListedImage(rows[i].image)))
  }

  /** `WHERE category_id = ?` when a category is given, every row otherwise. */
  predicate RowInCategory(x: ProductRow, c: Option<int>)
  {
    c.None? || x.categoryId == c.value
  }

  /** The rows of a category (all rows for no filter), in table order. */
  function InCategory(table: seq<ProductRow>, c: Option<int>): (r: seq<ProductRow>)
    ensures |r| <= |table|
    ensures forall x :: x in r <==> x in table && (c.None? || x.categoryId == c.value)
    ensures forall x :: multiset(r)[x] == if c.None? || x.categoryId == c.value then multiset(table)[x] else 0
    ensures IsSubsequence(r, table)
  {
    if table == [] then []
    else
      var rest := InCategory(table[1..], c);
      var r := if RowInCategory(table[0], c) then [table[0]] + rest else rest;
      FilterStep(table, rest, (x: ProductRow) => RowInCategory(x, c), r);
      r
  }

  predicate NameLe(a: ProductRow, b: ProductRow) {
    LexLe(a.name, b.name)
  }

  /** The response `getProducts` should give, stated without SQL. */
  function GetProductsSpec(req: ListRequest, table: seq<ProductRow>): Listing {
    match ListError(req)
    case Some(m) => ListRejected(m)
    case None =>
      var page, limit := PageParam(req), LimitParam(req);
      var matching := InCategory(table, CategoryFilter(req));
      var rows := Window(SortBy(matching, NameLe), limit, Offset(page, limit));
      Listing(page, CeilDiv(|matching|, limit), |matching|, WithListedImages(rows))
  }

  /** A statement and its positional parameters. */
  datatype Sql = Sql(text: string, params: seq<int>)

  const CountProducts := "SELECT COUNT(*) AS total FROM products"
  const SelectProducts := "SELECT * FROM products"
  const CategoryClause := " WHERE category_id = ?"
  const NamePage := " ORDER BY name ASC LIMIT ? OFFSET ?"

  /** The category filter a count statement of this handler applies. */
  function ReadCount(q: Sql): Option<Option<int>> {
    if q.text == CountProducts && q.params == [] then Some(None)
    else if q.text == CountProducts + CategoryClause && |q.params| == 1 then Some(Some(q.params[0]))
    else None
  }

  datatype PagePlan = PagePlan(category: Option<int>, limit: int, offset: int)

  /** The filter, limit and offset a page statement of this handler applies. */
  function ReadPage(q: Sql): Option<PagePlan> {
    if q.text == SelectProducts + NamePage && |q.params| == 2 then
      Some(PagePlan(None, q.params[0], q.params[1]))
    else if q.text == SelectProducts + CategoryClause + NamePage && |q.params| == 3 then
      Some(PagePlan(Some(q.params[0]), q.params[1], q.params[2]))
    else None
  }

  /** Builds `countQuery`, `dataQuery` and `params` by appending: the
      category condition to both when there is a filter, then the order and
      the paging parameters to the page statement. */
  method BuildListQueries(category: Option<int>, limit: int, offset: int) returns (count: Sql, page: Sql)
    ensures ReadCount(count) == Some(category)
    ensures ReadPage(page) == Some(PagePlan(category, limit, offset))
  {
    var countQuery := CountProducts;
    var dataQuery := SelectProducts;
    var params: seq<int> := [];
    if category.Some? {
      countQuery := countQuery + CategoryClause;
      dataQuery := dataQuery + CategoryClause;
      params := params + [category.value];
    }
    dataQuery := dataQuery + NamePage;
    params := params + [limit, offset];
    count := Sql(countQuery, if category.Some? then [category.value] else []);
    page := Sql(dataQuery, params);
    assert |SelectProducts + NamePage| < |SelectProducts + CategoryClause + NamePage|;
    assert |CountProducts| < |CountProducts + CategoryClause|;
  }

  /** The rows the relational engine returns for a page statement. */
  function RunPage(table: seq<ProductRow>, q: Sql): Option<seq<ProductRow>> {
    match ReadPage(q)
    case None => None
    case Some(p) =>
      if p.limit < 0 || p.offset < 0 then None
      else Some(Window(SortBy(InCategory(table, p.category), NameLe), p.limit, p.offset))
  }

  function RunCount(table: seq<ProductRow>, q: Sql): Option<nat> {
    match ReadCount(q)
    case None => None
    case Some(c) => Some(|InCategory(table, c)|)
  }

  /** Statements that read as a filter and a window run as that filter and
      window. */
  lemma RunsAgree(table: seq<ProductRow>, c: Option<int>, limit: nat, offset: nat, count: Sql, page: Sql)
    requires ReadCount(count) == Some(c) && ReadPage(page) == Some(PagePlan(c, limit, offset))
    ensures RunCount(table, count) == Some(|InCategory(table, c)|)
    ensures RunPage(table, page) == Some(Window(SortBy(InCategory(table, c), NameLe), limit, offset))
  {
  }

  /** `getProducts`: a bad request is refused before any statement is sent;
      otherwise the count and page statements apply the same category filter
      and the response is the one `GetProductsSpec` describes. */
  method GetProducts(req: ListRequest, table: seq<ProductRow>) returns (resp: Listing, issued: seq<Sql>)
    ensures resp == GetProductsSpec(req, table)
    ensures issued == [] <==> ListError(req).Some?
    ensures issued != [] ==>
      && |issued| == 2 && ReadCount(issued[0]).Some? && ReadPage(issued[1]).Some?
      && ReadCount(issued[0]).value == ReadPage(issued[1]).value.category == CategoryFilter(req)
  {
    var page := PageParam(req);
    var limit := LimitParam(req);
    if page <= 0 || limit <= 0 {
      return ListRejected(BadPaging), [];
    }
    var categoryId := CategoryFilter(req);
    if categoryId.Some? && categoryId.value <= 0 {
      return ListRejected(BadCategory), [];
    }
    var offset := Offset(page, limit);
    var count, pageQuery := BuildListQueries(categoryId, limit, offset);
    issued := [count, pageQuery];
    RunsAgree(table, categoryId, limit, offset, count, pageQuery);
    var totalItems := RunCount(table, count).value;
    var totalPages := CeilDiv(totalItems, limit);
    var rows := RunPage(table, pageQuery).value;
    resp := Listing(page, totalPages, totalItems, WithListedImages(rows));
  }

  /** The response depends on the request only through the parsed page,
      limit and category filter. */
  lemma SpecByParams(a: ListRequest, b: ListRequest, table: seq<ProductRow>)
    requires PageParam(a) == PageParam(b) && LimitParam(a) == LimitParam(b)
    requires CategoryFilter(a) == CategoryFilter(b)
    ensures GetProductsSpec(a, table) == GetProductsSpec(b, table)
  {
    assert ListError(a) == ListError(b);
  }

  /** `parseInt(x) || default`: a paging value that parses to 0 or `NaN`
      ("0", "" or "abc", say) gives the same response as no value at all. */
  lemma FalsyPageDefaults(req: ListRequest, table: seq<ProductRow>, v: string)
    requires !NumTruthy(ParseInt(Some(v)))
    ensures GetProductsSpec(req.(page := Some(v)), table) == GetProductsSpec(req.(page := None), table)
  {
    var a, b := req.(page := Some(v)), req.(page := None);
    assert PageParam(a) == PageParam(b);
    assert CategoryParam(a) == CategoryParam(b);
    SpecByParams(a, b, table);
  }

  lemma FalsyLimitDefaults(req: ListRequest, table: seq<ProductRow>, v: string)
    requires !NumTruthy(ParseInt(Some(v)))
    ensures GetProductsSpec(req.(limit := Some(v)), table) == GetProductsSpec(req.(limit := None), table)
  {
    var a, b := req.(limit := Some(v)), req.(limit := None);
    assert LimitParam(a) == LimitParam(b);
    assert CategoryParam(a) == CategoryParam(b);
    SpecByParams(a, b, table);
  }

  /** A negative page is refused. */
  lemma NegativePageRejected(req: ListRequest, table: seq<ProductRow>)
    requires req.page == Some(" -3")
    ensures GetProductsSpec(req, table) == ListRejected(BadPaging)
  {
    ParseIntSigned();
  }

  /** A category id that parses to 0 or to `NaN` is no filter at all, while a
      negative one is refused. */
  lemma CategoryZeroOrNaNUnfiltered(req: ListRequest, table: seq<ProductRow>)
    requires req.categoryId.Some?
    requires ParseInt(req.categoryId) == NaN || ParseInt(req.categoryId) == Num(0)
    ensures GetProductsSpec(req, table) == GetProductsSpec(req.(categoryId := None), table)
  {
    var plain := req.(categoryId := None);
    assert CategoryFilter(req) == None == CategoryFilter(plain);
    assert PageParam(req) == PageParam(plain) && LimitParam(req) == LimitParam(plain);
    assert ListError(req) == ListError(plain);
  }

  lemma NegativeCategoryRejected(req: ListRequest, table: seq<ProductRow>)
    requires PageParam(req) > 0 && LimitParam(req) > 0
    requires req.categoryId.Some? && ParseInt(req.categoryId).Num? && ParseInt(req.categoryId).v < 0
    ensures GetProductsSpec(req, table) == ListRejected(BadCategory)
  {
  }

  /** Every listed row is a table row of the requested category (any when
      there is no filter) with only its image rewritten, the rows are in
      name order, a page holds at most `limit` rows, and the page count
      covers the matching rows. */
  lemma ListingRows(req: ListRequest, table: seq<ProductRow>, i: nat)
    requires GetProductsSpec(req, table).Listing?
    requires i < |GetProductsSpec(req, table).data|
    ensures var r := GetProductsSpec(req, table).data[i];
      exists row :: row in table && (CategoryFilter(req).None? || row.categoryId == CategoryFilter(req).value)
        && r == row.(image := ListedImage(row.image))
  {
    var page, limit := PageParam(req), LimitParam(req);
    var matching := InCategory(table, CategoryFilter(req));
    var sorted := SortBy(matching, NameLe);
    var rows := Window(sorted, limit, Offset(page, limit));
    assert rows[i] in multiset(sorted);
    assert rows[i] in matching;
  }

  lemma NameSorted(rows: seq<ProductRow>)
    ensures SortedBy(SortBy(rows, NameLe), NameLe)
  {
    KeyOrderTotal(NameLe, (row: ProductRow) => row.name);
    SortBySorted(rows, NameLe);
  }

  lemma NameSortedWindow(rows: seq<ProductRow>, limit: nat, o: nat, i: nat, j: nat)
    requires i < j < |Window(SortBy(rows, NameLe), limit, o)|
    ensures var w := Window(SortBy(rows, NameLe), limit, o);
      LexLe(w[i].name, w[j].name)
  {
    NameSorted(rows);
    var sorted := SortBy(rows, NameLe);
    var w := Window(sorted, limit, o);
    assert w[i] == sorted[o + i] && w[j] == sorted[o + j];
  }

  lemma ListingSortedByName(req: ListRequest, table: seq<ProductRow>, i: nat, j: nat)
    requires GetProductsSpec(req, table).Listing?
    requires i < j < |GetProductsSpec(req, table).data|
    ensures var d := GetProductsSpec(req, table).data;
      LexLe(d[i].name, d[j].name)
  {
    var page, limit := PageParam(req), LimitParam(req);
    var matching := InCategory(table, CategoryFilter(req));
    NameSortedWindow(matching, limit, Offset(page, limit), i, j);
  }

  lemma ListingPageSize(req: ListRequest, table: seq<ProductRow>)
    requires GetProductsSpec(req, table).Listing?
    ensures var r := GetProductsSpec(req, table);
      && r.currentPage >= 1
      && |r.data| <= LimitParam(req)
      && r.totalItems <= |table|
      && r.totalPages * LimitParam(req) >= r.totalItems
      && (r.totalPages == 0 <==> r.totalItems == 0)
  {
  }

  // ---------------------------------------------------------------------
  // getProductById

  /** The category nested in a product's detail. */
  datatype CategoryRef = CategoryRef(id: nat, name: string, description: string)

  datatype ProductDetail = ProductDetail(
    productId: nat,
    name: string,
    mrp: int,
    discountPrice: int,
    qty: int,
    image: Option<string>,
    category: CategoryRef)

  datatype DetailOutcome = DetailRejected(status: nat, message: string) | Detail(product: ProductDetail)

  const BadProductId := "Invalid product ID"
  const ProductNotFound := "Product not found"

  /** The product row with id `id` whose category exists: the first row of
      the inner join of `products` and `categories`. */
  function JoinedProduct(products: seq<ProductRow>, categories: seq<CategoryRow>, id: int): (r: Option<ProductRow>)
    ensures r.Some? <==> exists p :: p in products && p.productId == id && FindCategory(categories, p.categoryId).Some?
    ensures r.Some? ==> r.value in products && r.value.productId == id && FindCategory(categories, r.value.categoryId).Some?
  {
    if products == [] then None
    else if products[0].productId == id && FindCategory(categories, products[0].categoryId).Some? then Some(products[0])
    else JoinedProduct(products[1..], categories, id)
  }

  /** `getProductById`: an id that does not parse to a positive number gives
      400, a product missing from the join gives 404; otherwise the product
      with a listed image and its category nested. */
  function GetProductById(idParam: string, products: seq<ProductRow>, categories: seq<CategoryRow>): (r: DetailOutcome)
    ensures r.DetailRejected? && r.status == 400 <==> !Positive(ParseInt(Some(idParam)))
    ensures r.DetailRejected? ==> r.message == (if r.status == 400 then BadProductId else ProductNotFound)
    ensures r.DetailRejected? && r.status != 400 ==>
      r.status == 404 && forall p :: p in products && Num(p.productId) == ParseInt(Some(idParam)) ==>
        FindCategory(categories, p.categoryId).None?
    ensures r.Detail? ==>
      exists p, c :: (p in products && c in categories
        && Num(p.productId) == ParseInt(Some(idParam)) && c.categoryId == p.categoryId
        && r.product == ProductDetail(p.productId, p.name, p.mrp, p.discountPrice, p.qty, ListedImage(p.image),
                                      CategoryRef(c.categoryId, c.name, c.description)))
  {
    var id := ParseInt(Some(idParam));
    if !Positive(id) then DetailRejected(400, BadProductId)
    else
      match JoinedProduct(products, categories, id.v)
      case None => DetailRejected(404, ProductNotFound)
      case Some(p) =>
        var c := FindCategory(categories, p.categoryId).value;
        Detail(ProductDetail(p.productId, p.name, p.mrp, p.discountPrice, p.qty, ListedImage(p.image),
                             CategoryRef(c.categoryId, c.name, c.description)))
  }

  /** A product whose category row is missing is reported as not found. */
  lemma DanglingCategoryNotFound(p: ProductRow, categories: seq<CategoryRow>)
    requires p.productId > 0
    requires forall c :: c in categories ==> c.categoryId != p.categoryId
    ensures GetProductById(NatToString(p.productId), [p], categories) == DetailRejected(404, ProductNotFound)
  {
    NatToStringRoundTrip(p.productId);
  }

  /** An id that parses to `NaN` or to a number that is not positive is
      refused ("0", " -3" and "abc", say); text after the digits is ignored. */
  lemma ProductIdParsing(products: seq<ProductRow>, categories: seq<CategoryRow>, id: string)
    requires !Positive(ParseInt(Some(id)))
    ensures GetProductById(id, products, categories) == DetailRejected(400, BadProductId)
  {
  }

  lemma ProductIdPrefix(products: seq<ProductRow>, categories: seq<CategoryRow>)
    ensures GetProductById("12abc", products, categories) == GetProductById("12", products, categories)
  {
    ParseIntPrefix();
    TwelveParses();
  }

  lemma TwelveParses()
    ensures ParseInt(Some("12")) == Num(12)
  {
    ParseIntDecimal("12");
    assert DecimalValue("12") == 12 by { assert "12"[..1] == "1" && "1"[..0] == []; }
  }
}
