/** The public product API of server.js: `GET /api/products?page=&limit=`
    (one LIMIT/OFFSET slice of the product table plus the row count) and the
    not-found branch of `GET /api/products/:id`. The product table is a
    sequence in the order the store returns rows; the listing query has no
    ORDER BY, so nothing here assumes any order of ids. */
module Listing {
  import opened Wrappers
  import JsText

  /** A row of the `products` table, as `SELECT *` returns it. */
  datatype Product = Product(
    id: int, name: string, description: string, price: string,
    image: string, characteristics: string)

  /** What the handler answers: the JSON body of a 200, or the 500 body. */
  datatype Reply =
    | Listed(products: seq<Product>, total: nat, page: int, limit: int)
    | ServerError

  /** The answer of `GET /api/products/:id`. */
  datatype LookupReply = Found(product: Product) | NotFound | LookupError

  const DefaultPage := 1
  const DefaultLimit := 12

  function Status(r: Reply): int {
    if r.Listed? then 200 else 500
  }

  function LookupStatus(r: LookupReply): int {
    match r
    case Found(_) => 200
    case NotFound => 404
    case LookupError => 500
  }

  function Min(a: int, b: int): int {
    if a <= b then a else b
  }

  /** `parseInt(q) || d`: a missing query string and NaN fall back to `d`,
      and so does 0, the only falsy number `parseInt` yields; any other
      number is kept, negative ones included. */
  function OrDefault(q: Option<string>, d: int): (v: int)
    ensures v != d ==> q.Some? && JsText.ParseInt(q.value) == Some(v) && v != 0
    ensures v == d <==> (q.None? || JsText.ParseInt(q.value) in {None, Some(0), Some(d)})
  {
    if q.None? then d
    else match JsText.ParseInt(q.value)
      case None => d
      case Some(n) => if n == 0 then d else n
  }

  /** The OFFSET of page `page` when pages hold `limit` rows. */
  function Offset(page: int, limit: int): (offset: int)
    ensures page >= 1 && limit >= 0 ==> offset >= 0
    ensures page == 1 ==> offset == 0
    ensures offset + limit == page * limit
  {
    assert page * limit == (page - 1) * limit + limit;
    (page - 1) * limit
  }

  /** `SELECT * FROM products LIMIT ? OFFSET ?` as the store runs it. The
      placeholders are substituted into the statement text, and a negative
      LIMIT or OFFSET is a syntax error there, so the statement fails. */
  function Select(rows: seq<Product>, limit: int, offset: int): (r: Option<seq<Product>>)
    ensures r.Some? <==> limit >= 0 && offset >= 0
    ensures r.Some? ==> |r.value| <= limit
    ensures r.Some? ==> (r.value == [] <==> offset >= |rows| || limit == 0)
    ensures r.Some? ==> forall i :: 0 <= i < |r.value| ==> offset + i < |rows| && r.value[i] == rows[offset + i]
    ensures r.Some? ==> r.value == rows[Min(offset, |rows|)..Min(offset + limit, |rows|)]
  {
    if limit < 0 || offset < 0 then None
    else if offset >= |rows| then assert rows[|rows|..|rows|] == []; Some([])
    else Some(rows[offset..Min(offset + limit, |rows|)])
  }

  /** The whole `/api/products` handler. `storeUp` is false when either query
      throws (the store is unavailable). */
  function ListProducts(rows: seq<Product>, pageQ: Option<string>, limitQ: Option<string>, storeUp: bool): (r: Reply)
    ensures r.Listed? ==> r.page == OrDefault(pageQ, DefaultPage) && r.limit == OrDefault(limitQ, DefaultLimit)
    ensures r.Listed? ==> r.total == |rows| && |r.products| <= r.limit
    ensures r.Listed? ==> r.page >= 1 && r.limit >= 1 && r.products == Page(rows, r.page, r.limit)
    ensures r.Listed? <==> storeUp && OrDefault(limitQ, DefaultLimit) >= 0
                           && Offset(OrDefault(pageQ, DefaultPage), OrDefault(limitQ, DefaultLimit)) >= 0
  {
    var page := OrDefault(pageQ, DefaultPage);
    var limit := OrDefault(limitQ, DefaultLimit);
    var offset := Offset(page, limit);
    if !storeUp then ServerError
    else match Select(rows, limit, offset)
      case None => ServerError
      case Some(products) => Listed(products, |rows|, page, limit)
  }

  /** Rows `(p-1)*limit` up to `p*limit`, cut at the end of the table. */
  function Page(rows: seq<Product>, p: int, limit: int): seq<Product>
    requires p >= 1 && limit >= 1
  {
    rows[Min((p - 1) * limit, |rows|)..Min(p * limit, |rows|)]
  }

  /** `ceil(total / limit)`: the number of non-empty pages. */
  function PageCount(total: nat, limit: int): (n: nat)
    requires limit >= 1
    ensures n * limit >= total
    ensures n == 0 || (n - 1) * limit < total
  {
    var n := (total + limit - 1) / limit;
    assert n * limit + (total + limit - 1) % limit == total + limit - 1;
    n
  }

  /** Pages 1..n, one after the other. */
  function Pages(rows: seq<Product>, limit: int, n: nat): seq<Product>
    requires limit >= 1
  {
    if n == 0 then [] else Pages(rows, limit, n - 1) + Page(rows, n, limit)
  }

  // ------------------------------------------------------------- properties

  /** A missing, non-numeric or zero query string gives page 1 and limit 12. */
  lemma DefaultsApply(pageQ: Option<string>, limitQ: Option<string>, rows: seq<Product>)
    requires pageQ.None? || JsText.ParseInt(pageQ.value) in {None, Some(0)}
    requires limitQ.None? || JsText.ParseInt(limitQ.value) in {None, Some(0)}
    ensures ListProducts(rows, pageQ, limitQ, true) == Listed(rows[..Min(12, |rows|)], |rows|, 1, 12)
  {
  }

  /** For a page number and a limit sent as decimal integers of at least 1,
      the reply echoes them and holds exactly that page of the table. */
  lemma ListProductsIsPage(rows: seq<Product>, p: int, limit: int)
    requires p >= 1 && limit >= 1
    ensures ListProducts(rows, Some(JsText.Show(p)), Some(JsText.Show(limit)), true)
         == Listed(Page(rows, p, limit), |rows|, p, limit)
  {
    JsText.ParseShow(p);
    JsText.ParseShow(limit);
    assert Offset(p, limit) + limit == p * limit;
  }

  /** A page past the last one is empty, and the total is unchanged. */
  lemma PastLastPageIsEmpty(rows: seq<Product>, p: int, limit: int)
    requires limit >= 1 && p > PageCount(|rows|, limit)
    ensures Page(rows, p, limit) == []
  {
    assert (p - 1) * limit >= PageCount(|rows|, limit) * limit;
  }

  /** `total` is the size of the table whatever page and limit are asked. */
  lemma TotalIgnoresPaging(rows: seq<Product>, q1: Option<string>, l1: Option<string>, q2: Option<string>, l2: Option<string>)
    requires ListProducts(rows, q1, l1, true).Listed? && ListProducts(rows, q2, l2, true).Listed?
    ensures ListProducts(rows, q1, l1, true).total == ListProducts(rows, q2, l2, true).total == |rows|
  {
  }

  lemma {:induction false} PagesArePrefix(rows: seq<Product>, limit: int, n: nat)
    requires limit >= 1
    ensures Pages(rows, limit, n) == rows[..Min(n * limit, |rows|)]
  {
    if n > 0 {
      PagesArePrefix(rows, limit, n - 1);
      assert (n - 1) * limit + limit == n * limit;
      var a, b := Min((n - 1) * limit, |rows|), Min(n * limit, |rows|);
      assert rows[..a] + rows[a..b] == rows[..b];
    }
  }

  /** On an unchanged table, pages 1..ceil(total/limit) put together give
      back the whole table: every row once, in store order. */
  lemma AllPagesReproduceTable(rows: seq<Product>, limit: int)
    requires limit >= 1
    ensures Pages(rows, limit, PageCount(|rows|, limit)) == rows
  {
    PagesArePrefix(rows, limit, PageCount(|rows|, limit));
  }

  /** The first row with the given id, as `result[0]` of `WHERE id = ?`. */
  function FirstWithId(rows: seq<Product>, id: int): (k: Option<nat>)
    ensures k.Some? ==> k.value < |rows| && rows[k.value].id == id
    ensures k.Some? ==> forall j :: 0 <= j < k.value ==> rows[j].id != id
    ensures k.None? <==> forall j :: 0 <= j < |rows| ==> rows[j].id != id
  {
    if rows == [] then None
    else if rows[0].id == id then Some(0)
    else match FirstWithId(rows[1..], id)
      case None => None
      case Some(j) => Some(j + 1)
  }

  /** `GET /api/products/:id`. */
  function LookupProduct(rows: seq<Product>, id: int, storeUp: bool): (r: LookupReply)
    ensures r.NotFound? <==> storeUp && forall j :: 0 <= j < |rows| ==> rows[j].id != id
    ensures r.Found? ==> r.product in rows && r.product.id == id
    ensures r.Found? ==> r.product == rows[FirstWithId(rows, id).value]
    ensures r.LookupError? <==> !storeUp
    ensures LookupStatus(r) == 404 <==> storeUp && forall j :: 0 <= j < |rows| ==> rows[j].id != id
  {
    if !storeUp then LookupError
    else match FirstWithId(rows, id)
      case None => NotFound
      case Some(k) => Found(rows[k])
  }
}
