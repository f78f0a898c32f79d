/** The category handlers: `addCategory` (its ordered checks, the row it
    stores and the image URL it returns), `getCategories` (paging by name)
    and `getCategoryById`. */
module Categories {
  import opened JsText
  import opened JsNumber
  import opened Paging
  import opened Validation
  import opened Relational
  import opened Records

  // ---------------------------------------------------------------------
  // addCategory

  const ImageDir := "/uploads/category-images/"
  const ServerOrigin := "http://localhost:5000"

  const AddMessages: seq<string> := [
    "Category name and description are required",
    "Category name must be at least 3 characters long",
    "Category image is required"]

  /** `req.file ? "/uploads/category-images/" + req.file.filename : null`. */
  function ImagePath(uploaded: Option<string>): (p: Option<string>)
    ensures p.Some? <==> uploaded.Some?
    ensures p.Some? ==> p.value == ImageDir + uploaded.value
  {
    if uploaded.Some? then Some(ImageDir + uploaded.value) else None
  }

  /** The checks of `addCategory` in the order it makes them. */
  function AddChecks(name: Option<string>, desc: Option<string>, uploaded: Option<string>): (c: seq<bool>)
    ensures |c| == |AddMessages|
  {
    var ok := Truthy(name) && Truthy(desc);
    [ok, !ok || |Trim(name.value)| >= 3, ImagePath(uploaded).Some?]
  }

  datatype AddOutcome = AddRejected(message: string) | Added(row: CategoryRow, imageUrl: string)

  /** `addCategory`: the first failing check decides the 400 message;
      otherwise the trimmed name and description are stored with the image
      path under `newId`, and the URL of the image is returned. */
  function AddCategory(name: Option<string>, desc: Option<string>, uploaded: Option<string>, newId: nat): (r: AddOutcome)
    ensures r.AddRejected? <==> FirstFailure(AddChecks(name, desc, uploaded)).Some?
    ensures r.AddRejected? ==> r.message == AddMessages[FirstFailure(AddChecks(name, desc, uploaded)).value]
    ensures r.Added? ==>
      && Truthy(name) && Truthy(desc) && uploaded.Some?
      && r.row == CategoryRow(newId, Trim(name.value), Trim(desc.value), Some(ImageDir + uploaded.value))
      && r.imageUrl == ServerOrigin + r.row.image.value
  {
    var checks := AddChecks(name, desc, uploaded);
    match FirstFailure(checks)
    case Some(i) => AddRejected(AddMessages[i])
    case None =>
      assert checks[0] && checks[2];
      var path := ImagePath(uploaded).value;
      Added(CategoryRow(newId, Trim(name.value), Trim(desc.value), Some(path)), ServerOrigin + path)
  }

  /** A stored category has a name of at least three characters with no
      white space at either end, and the returned URL names the uploaded file
      under the server's category-image directory. */
  lemma AddedCategoryValid(name: Option<string>, desc: Option<string>, uploaded: Option<string>, newId: nat)
    requires AddCategory(name, desc, uploaded, newId).Added?
    ensures var r := AddCategory(name, desc, uploaded, newId);
      && |r.row.name| >= 3 && !IsSpace(r.row.name[0]) && !IsSpace(r.row.name[|r.row.name| - 1])
      && r.imageUrl == ServerOrigin + ImageDir + uploaded.value
      && r.imageUrl[|r.imageUrl| - |uploaded.value|..] == uploaded.value
  {
    var checks := AddChecks(name, desc, uploaded);
    assert FirstFailure(checks).None?;
    assert checks[1];
    var r := AddCategory(name, desc, uploaded, newId);
    assert r.imageUrl == (ServerOrigin + ImageDir) + uploaded.value;
  }

  /** A name that is blank after trimming but present is refused for its
      length, not as missing. */
  lemma BlankNameTooShort(name: string, desc: string, uploaded: Option<string>, newId: nat)
    requires name != [] && AllSpaces(name) && desc != []
    ensures AddCategory(Some(name), Some(desc), uploaded, newId)
      == AddRejected("Category name must be at least 3 characters long")
  {
    var checks := AddChecks(Some(name), Some(desc), uploaded);
    assert checks[0] && !checks[1];
  }

  // ---------------------------------------------------------------------
  // getCategories

  datatype Listing =
    | ListRejected(message: string)
    | Listing(currentPage: int, totalPages: nat, totalItems: nat, data: seq<CategoryRow>)

  const BadPaging := "Page and limit must be positive numbers"

  predicate NameLe(a: CategoryRow, b: CategoryRow) {
    LexLe(a.name, b.name)
  }

  /** `getCategories`: `parseInt(x) || default` paging, non-positive paging
      refused, then the page of categories in name order with the page count
      over the whole table. */
  function GetCategories(page: Option<string>, limit: Option<string>, table: seq<CategoryRow>): (r: Listing)
    ensures r.ListRejected? <==> ParseIntOr(page, 1) <= 0 || ParseIntOr(limit, 10) <= 0
    ensures r.ListRejected? ==> r.message == BadPaging
    ensures r.Listing? ==>
      && r.currentPage == ParseIntOr(page, 1) >= 1
      && r.totalItems == |table|
      && r.totalPages * ParseIntOr(limit, 10) >= |table|
      && (r.totalPages == 0 <==> table == [])
      && |r.data| <= ParseIntOr(limit, 10)
      && forall i :: 0 <= i < |r.data| ==> r.data[i] in table
  {
    var p, l := ParseIntOr(page, 1), ParseIntOr(limit, 10);
    if p <= 0 || l <= 0 then ListRejected(BadPaging)
    else
      var sorted := SortBy(table, NameLe);
      var rows := Window(sorted, l, Offset(p, l));
      assert forall i :: 0 <= i < |rows| ==> rows[i] in multiset(sorted);
      Listing(p, CeilDiv(|table|, l), |table|, rows)
  }

  lemma NameSorted(rows: seq<CategoryRow>)
    ensures SortedBy(SortBy(rows, NameLe), NameLe)
  {
    KeyOrderTotal(NameLe, (row: CategoryRow) => row.name);
    SortBySorted(rows, NameLe);
  }

  /** The categories of a page come in name order. */
  lemma CategoriesSortedByName(page: Option<string>, limit: Option<string>, table: seq<CategoryRow>, i: nat, j: nat)
    requires GetCategories(page, limit, table).Listing?
    requires i < j < |GetCategories(page, limit, table).data|
    ensures var d := GetCategories(page, limit, table).data;
      LexLe(d[i].name, d[j].name)
  {
    var p, l := ParseIntOr(page, 1), ParseIntOr(limit, 10);
    NameSorted(table);
    var sorted := SortBy(table, NameLe);
    var w := Window(sorted, l, Offset(p, l));
    assert w[i] == sorted[Offset(p, l) + i] && w[j] == sorted[Offset(p, l) + j];
  }

  /** Asking for page `page` by its decimal string gives that page of the
      name order. */
  lemma PageByNumber(limit: Option<string>, table: seq<CategoryRow>, page: nat)
    requires ParseIntOr(limit, 10) > 0 && page >= 1
    ensures var l := ParseIntOr(limit, 10);
      GetCategories(Some(NatToString(page)), limit, table)
        == Listing(page, CeilDiv(|table|, l), |table|, Window(SortBy(table, NameLe), l, Offset(page, l)))
  {
    NatToStringRoundTrip(page);
  }

  /** Walking the pages 1 to `totalPages` shows every category exactly where
      its position in name order puts it: row `k` is entry `k % limit` of page
      `k / limit + 1`. Names are taken distinct, so that name order is the
      one order the database may return. */
  lemma EveryCategoryListed(limit: Option<string>, table: seq<CategoryRow>, k: nat, page: nat, slot: nat)
    requires ParseIntOr(limit, 10) > 0 && k < |table|
    requires page == k / ParseIntOr(limit, 10) + 1 && slot == k % ParseIntOr(limit, 10)
    requires forall a, b :: 0 <= a < b < |table| ==> table[a].name != table[b].name
    ensures var r := GetCategories(Some(NatToString(page)), limit, table);
      && r.Listing? && 1 <= r.currentPage <= r.totalPages
      && slot < |r.data| && r.data[slot] == SortBy(table, NameLe)[k]
  {
    var l, sorted := ParseIntOr(limit, 10), SortBy(table, NameLe);
    PageCovers(sorted, l, k);
    assert |sorted| == |table|;
    PageByNumber(limit, table, page);
    var rows := Window(sorted, l, Offset(page, l));
    assert GetCategories(Some(NatToString(page)), limit, table) == Listing(page, CeilDiv(|table|, l), |table|, rows);
    assert rows[slot] == sorted[k];
  }

  // ---------------------------------------------------------------------
  // getCategoryById

  datatype ByIdOutcome = ByIdRejected(status: nat, message: string) | Found(row: CategoryRow)

  /** `getCategoryById`: an id that does not parse to a positive number gives
      400, an id with no row gives 404, otherwise the row. */
  function GetCategoryById(idParam: string, table: seq<CategoryRow>): (r: ByIdOutcome)
    ensures r.ByIdRejected? && r.status == 400 <==> !Positive(ParseInt(Some(idParam)))
    ensures r.ByIdRejected? && r.status == 400 ==> r.message == "Invalid category ID"
    ensures r.ByIdRejected? && r.status != 400 ==>
      r.status == 404 && r.message == "Category not found"
      && forall c :: c in table ==> Num(c.categoryId) != ParseInt(Some(idParam))
    ensures r.Found? ==> r.row in table && Num(r.row.categoryId) == ParseInt(Some(idParam))
  {
    var id := ParseInt(Some(idParam));
    if !Positive(id) then ByIdRejected(400, "Invalid category ID")
    else
      match FindCategory(table, id.v)
      case None => ByIdRejected(404, "Category not found")
      case Some(c) => Found(c)
  }

  /** Every stored category is found again by the decimal string of its id. */
  lemma CategoryByIdRoundTrip(c: CategoryRow, table: seq<CategoryRow>)
    requires c in table && c.categoryId > 0
    ensures GetCategoryById(NatToString(c.categoryId), table).Found?
    ensures GetCategoryById(NatToString(c.categoryId), table).row.categoryId == c.categoryId
  {
    NatToStringRoundTrip(c.categoryId);
  }
}
