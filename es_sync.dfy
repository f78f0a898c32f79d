/** The one-off script that copies the `products` table, joined with its
    categories, into the `products` search index through one bulk request.
    The query and the request are left to the caller; `parseFloat` of a price
    column is a parameter. */
module EsSync {
  import opened JsText
  import opened JsNumber
  import opened Records

  const IndexName := "products"

  /** A row of the `LEFT JOIN` of products with categories, as the driver
      hands it over: prices as decimal strings, the category columns absent
      when the category is missing. */
  datatype JoinedRow = JoinedRow(
    productId: nat,
    name: string,
    mrp: Option<string>,
    discountPrice: Option<string>,
    qty: Option<int>,
    image: Option<string>,
    categoryName: Option<string>,
    categoryDesc: Option<string>)

  /** An entry of the bulk body: an action line or the document after it. */
  datatype BulkEntry = IndexAction(index: string, id: string) | Source(doc: ProductDoc)

  /** `v || null` for a string column. */
  function OrNull(v: Option<string>): (r: Option<string>)
    ensures r.None? <==> !Truthy(v)
    ensures r.Some? ==> r == v
  {
    if Truthy(v) then v else None
  }

  /** `parseFloat(v) || 0`; an absent column parses to NaN. */
  function PriceOrZero(v: Option<string>, parseFloat: string -> Numeric): (r: int)
    ensures v.None? ==> r == 0
    ensures v.Some? ==> r == OrDefault(parseFloat(v.value), 0)
  {
    if v.None? then 0 else OrDefault(parseFloat(v.value), 0)
  }

  /** The document indexed for one row. */
  function SyncDoc(r: JoinedRow, parseFloat: string -> Numeric): (d: ProductDoc)
    ensures d.productId == r.productId && d.name == r.name
    ensures d.mrp == PriceOrZero(r.mrp, parseFloat)
    ensures d.discountPrice == PriceOrZero(r.discountPrice, parseFloat)
    ensures d.qty == (if r.qty.Some? then r.qty.value else 0)
    ensures d.image == OrNull(r.image)
    ensures d.categoryName == OrNull(r.categoryName)
    ensures d.categoryDescription == OrNull(r.categoryDesc)
  {
    ProductDoc(
      r.productId,
      r.name,
      PriceOrZero(r.mrp, parseFloat),
      PriceOrZero(r.discountPrice, parseFloat),
      // parseInt of an integer column gives it back; NULL gives NaN, then 0
      if r.qty.Some? then r.qty.value else 0,
      OrNull(r.image),
      OrNull(r.categoryName),
      OrNull(r.categoryDesc))
  }

  /** The action line for one row: index into `products` under the decimal
      string of the product id. */
  function ActionFor(r: JoinedRow): BulkEntry {
    IndexAction(IndexName, NatToString(r.productId))
  }

  /** The bulk body for `rows`: each row contributes its action line followed
      by its document, in row order. */
  function BulkBody(rows: seq<JoinedRow>, parseFloat: string -> Numeric): (body: seq<BulkEntry>)
    ensures |body| == 2 * |rows|
    ensures forall i :: 0 <= i < |rows| ==>
      body[2 * i] == ActionFor(rows[i]) && body[2 * i + 1] == Source(SyncDoc(rows[i], parseFloat))
  {
    if rows == [] then []
    else
      var front := BulkBody(rows[..|rows| - 1], parseFloat);
      var last := rows[|rows| - 1];
      var body := front + [ActionFor(last), Source(SyncDoc(last, parseFloat))];
      assert forall i :: 0 <= i < |rows| - 1 ==> rows[..|rows| - 1][i] == rows[i];
      body
  }

  /** The loop that fills `body`, two pushes per row. */
  method BuildBulkBody(rows: seq<JoinedRow>, parseFloat: string -> Numeric) returns (body: seq<BulkEntry>)
    ensures body == BulkBody(rows, parseFloat)
  {
    body := [];
    var i := 0;
    while i < |rows|
      invariant 0 <= i <= |rows|
      invariant body == BulkBody(rows[..i], parseFloat)
    {
      var p := rows[i];
      body := body + [IndexAction(IndexName, NatToString(p.productId))];
      body := body + [Source(SyncDoc(p, parseFloat))];
      assert rows[..i + 1][..i] == rows[..i];
      i := i + 1;
    }
    assert rows[..i] == rows;
  }

  /** `syncProducts`: no rows means no bulk request; otherwise the request
      carries the body built from all rows. */
  method SyncProducts(rows: seq<JoinedRow>, parseFloat: string -> Numeric) returns (request: Option<seq<BulkEntry>>)
    ensures request.None? <==> rows == []
    ensures request.Some? ==> request.value == BulkBody(rows, parseFloat)
  {
    if |rows| == 0 {
      return None;
    }
    var body := BuildBulkBody(rows, parseFloat);
    return Some(body);
  }

  /** Every document follows the action that names it: `parseInt` of the
      action's `_id` is the document's `product_id`, and the action targets
      the `products` index. */
  lemma DocFollowsItsAction(rows: seq<JoinedRow>, parseFloat: string -> Numeric, j: nat)
    requires j < |BulkBody(rows, parseFloat)| && j % 2 == 1
    ensures var body := BulkBody(rows, parseFloat);
      && body[j].Source? && body[j - 1].IndexAction?
      && body[j - 1].index == IndexName
      && ParseInt(Some(body[j - 1].id)) == Num(body[j].doc.productId)
  {
    var i := j / 2;
    assert j == 2 * i + 1;
    NatToStringRoundTrip(rows[i].productId);
  }

  /** Entries at even positions are exactly the actions and those at odd
      positions the documents. */
  lemma EntriesAlternate(rows: seq<JoinedRow>, parseFloat: string -> Numeric, j: nat)
    requires j < |BulkBody(rows, parseFloat)|
    ensures BulkBody(rows, parseFloat)[j].IndexAction? <==> j % 2 == 0
  {
    var i := j / 2;
    assert j == 2 * i + j % 2;
  }

  /** The index keeps the raw image file name, not a URL, and missing or
      empty category columns become null; an unparsable price becomes 0. */
  lemma DocDefaults(r: JoinedRow, parseFloat: string -> Numeric)
    requires r.image == Some("a.png") && r.categoryName == None && r.categoryDesc == Some("")
    requires r.mrp.Some? && parseFloat(r.mrp.value) == NaN
    ensures var d := SyncDoc(r, parseFloat);
      d.image == Some("a.png") && d.categoryName == None && d.categoryDescription == None && d.mrp == 0
  {
  }
}
