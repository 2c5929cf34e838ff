/** The catalog page script (public/js/catalog.js): the closure variables
    `currentPage` and `totalPages`, the product list and the pagination bar
    of the page, the click handlers of the bar, and what a reply to
    `fetchProducts` does to all of them. The product list is the sequence of
    cards it shows (or the failure message); the bar is the sequence of its
    buttons. A request is issued each time `loadProducts` runs; its reply
    arrives later as a separate event (`Receive`). */
module Catalog {
  import opened Wrappers
  import JsText
  import Listing
  import Counting

  /** `productsPerPage`: the `limit` of every request. */
  const ProductsPerPage := 12

  /** What the list shows after a failed load. */
  const FailureText := "<p>Не удалось загрузить товары. Попробуйте позже.</p>"

  /** One `.product-card`: where a click goes, the image, the title, the
      price (as the server sent it) and the description paragraphs. */
  datatype Card = Card(
    link: string, imageSrc: string, imageAlt: string, title: string,
    price: string, paragraphs: seq<string>)

  /** The content of `#product-list`. */
  datatype ListView = Cards(cards: seq<Card>) | Message(html: string)

  datatype ButtonKind = PrevButton | PageButton(number: int) | NextButton

  /** A button of `#pagination`: its kind (and label), the `disabled`
      attribute and the `active` class. */
  datatype Button = Button(kind: ButtonKind, disabled: bool, active: bool)

  /** What `fetch` delivers: a network failure, or a response with its HTTP
      status and the JSON body the server produced. */
  datatype FetchResult = NetworkFailure | HttpResponse(status: int, body: Listing.Reply)

  // ------------------------------------------------- description paragraphs

  /** Index of the first line feed in `s`. */
  function FirstNewline(s: string): (k: Option<nat>)
    ensures k.Some? ==> k.value < |s| && s[k.value] == '\n' && '\n' !in s[..k.value]
    ensures k.None? <==> '\n' !in s
  {
    if s == [] then None
    else if s[0] == '\n' then Some(0)
    else match FirstNewline(s[1..])
      case None => None
      case Some(j) => assert s[..j + 1] == [s[0]] + s[1..][..j]; Some(j + 1)
  }

  /** `s.split(/\r?\n/)`: cut at every line feed, dropping the carriage
      return that directly precedes it. */
  function SplitLines(s: string): (segments: seq<string>)
    ensures |segments| >= 1
    ensures forall i :: 0 <= i < |segments| ==> '\n' !in segments[i]
    decreases |s|
  {
    match FirstNewline(s)
    case None => [s]
    case Some(i) =>
      var line := if i > 0 && s[i - 1] == '\r' then s[..i - 1] else s[..i];
      assert '\n' !in line by { assert line <= s[..i]; }
      [line] + SplitLines(s[i + 1..])
  }

  /** `segments.join('\n')`. */
  function JoinLines(segments: seq<string>): string
    requires |segments| >= 1
  {
    if |segments| == 1 then segments[0] else segments[0] + "\n" + JoinLines(segments[1..])
  }

  /** What one segment contributes: its trimmed text, unless that is empty. */
  function Kept(segment: string): (ps: seq<string>)
    ensures |ps| <= 1
    ensures forall i :: 0 <= i < |ps| ==> ps[i] != [] && JsText.IsTrimmed(ps[i])
  {
    var t := JsText.Trim(segment);
    if t != [] then [t] else []
  }

  /** The trimmed segments that are not blank, in order. */
  function NonBlankTrimmed(segments: seq<string>): (ps: seq<string>)
    ensures |ps| <= |segments|
    ensures forall i :: 0 <= i < |ps| ==> ps[i] != [] && JsText.IsTrimmed(ps[i])
  {
    if segments == [] then [] else Kept(segments[0]) + NonBlankTrimmed(segments[1..])
  }

  /** One segment gives its trimmed text, or nothing when it is blank. */
  lemma NonBlankTrimmedOne(segment: string)
    ensures NonBlankTrimmed([segment])
         == if JsText.Trim(segment) == [] then [] else [JsText.Trim(segment)]
  {
    assert [segment][1..] == [];
  }

  /** The filter keeps the order of `forEach`: the paragraphs of two runs of
      segments are those of the first run followed by those of the second. */
  lemma {:induction false} NonBlankTrimmedAppend(a: seq<string>, b: seq<string>)
    ensures NonBlankTrimmed(a + b) == NonBlankTrimmed(a) + NonBlankTrimmed(b)
  {
    if a != [] {
      assert (a + b)[0] == a[0];
      assert (a + b)[1..] == a[1..] + b;
      NonBlankTrimmedAppend(a[1..], b);
    } else {
      assert a + b == b;
    }
  }

  /** Every segment that is not blank gives its paragraph: only blank
      segments are dropped. */
  lemma {:induction false} NonBlankKept(segments: seq<string>, i: nat)
    requires i < |segments| && JsText.Trim(segments[i]) != []
    ensures JsText.Trim(segments[i]) in NonBlankTrimmed(segments)
  {
    if i > 0 {
      assert segments[i] == segments[1..][i - 1];
      NonBlankKept(segments[1..], i - 1);
    }
  }

  /** Every paragraph is the trimmed form of some segment. */
  lemma {:induction false} ParagraphFromSegment(segments: seq<string>, p: string)
    requires p in NonBlankTrimmed(segments)
    ensures exists j :: 0 <= j < |segments| && p == JsText.Trim(segments[j])
  {
    var t := JsText.Trim(segments[0]);
    if t != [] && p == t {
      assert p == JsText.Trim(segments[0]);
    } else {
      assert p in NonBlankTrimmed(segments[1..]);
      ParagraphFromSegment(segments[1..], p);
      var j :| 0 <= j < |segments[1..]| && p == JsText.Trim(segments[1..][j]);
      assert p == JsText.Trim(segments[j + 1]);
    }
  }

  /** No line feed survives the split and the trim. */
  lemma {:induction false} NonBlankTrimmedNoNewline(segments: seq<string>)
    requires forall i :: 0 <= i < |segments| ==> '\n' !in segments[i]
    ensures forall p :: p in NonBlankTrimmed(segments) ==> '\n' !in p
  {
    if segments != [] {
      NonBlankTrimmedNoNewline(segments[1..]);
      if '\n' in JsText.Trim(segments[0]) {
        JsText.TrimKeepsCharacters(segments[0], '\n');
      }
    }
  }

  /** The paragraphs of a description, as `renderProducts` appends them. */
  function Paragraphs(description: string): (ps: seq<string>)
    ensures |ps| <= |SplitLines(description)|
    ensures forall i :: 0 <= i < |ps| ==> ps[i] != [] && JsText.IsTrimmed(ps[i]) && '\n' !in ps[i]
  {
    var ps := NonBlankTrimmed(SplitLines(description));
    NonBlankTrimmedNoNewline(SplitLines(description));
    ps
  }

  lemma {:induction false} FirstNewlineIs(s: string, k: nat)
    requires k < |s| && s[k] == '\n' && '\n' !in s[..k]
    ensures FirstNewline(s) == Some(k)
  {
    if k > 0 {
      assert s[0] == s[..k][0];
      assert s[1..][..k - 1] == s[..k][1..];
      FirstNewlineIs(s[1..], k - 1);
    }
  }

  /** A string without a line feed is one segment. */
  lemma SplitWithoutNewline(s: string)
    requires '\n' !in s
    ensures SplitLines(s) == [s]
  {
  }

  /** A line ended by a bare line feed is one segment. */
  lemma SplitAtLf(a: string, b: string)
    requires '\n' !in a && (a == [] || a[|a| - 1] != '\r')
    ensures SplitLines(a + "\n" + b) == [a] + SplitLines(b)
  {
    var s := a + "\n" + b;
    assert s[..|a|] == a && s[|a| + 1..] == b;
    FirstNewlineIs(s, |a|);
  }

  /** A line ended by CR LF is one segment, without its carriage return. */
  lemma SplitAtCrLf(a: string, b: string)
    requires '\n' !in a
    ensures SplitLines(a + "\r\n" + b) == [a] + SplitLines(b)
  {
    var s := a + "\r\n" + b;
    assert s[..|a| + 1] == a + "\r" && s[..|a|] == a && s[|a| + 2..] == b;
    FirstNewlineIs(s, |a| + 1);
  }

  /** The first line of a description gives its paragraph (if it is not
      blank) ahead of all the paragraphs of the lines after it. */
  lemma ParagraphsAtLf(a: string, b: string)
    requires '\n' !in a && (a == [] || a[|a| - 1] != '\r')
    ensures Paragraphs(a + "\n" + b)
         == (if JsText.Trim(a) == [] then [] else [JsText.Trim(a)]) + Paragraphs(b)
  {
    SplitAtLf(a, b);
    NonBlankTrimmedAppend([a], SplitLines(b));
    NonBlankTrimmedOne(a);
  }

  /** Without carriage returns, splitting at line feeds loses nothing. */
  lemma {:induction false} JoinSplitLines(s: string)
    requires '\r' !in s
    ensures JoinLines(SplitLines(s)) == s
    decreases |s|
  {
    match FirstNewline(s)
    case None =>
    case Some(i) =>
      var a, b := s[..i], s[i + 1..];
      assert s == a + "\n" + b;
      assert '\r' !in a && '\r' !in b by {
        assert forall j :: 0 <= j < |a| ==> a[j] == s[j];
        assert forall j :: 0 <= j < |b| ==> b[j] == s[i + 1 + j];
      }
      if a != [] { assert a[|a| - 1] in a; }
      SplitAtLf(a, b);
      JoinSplitLines(b);
  }

  /** Joining lines that hold no line break and splitting again gives the
      same lines back. */
  lemma {:induction false} SplitJoinLines(lines: seq<string>)
    requires |lines| >= 1
    requires forall i :: 0 <= i < |lines| ==> '\n' !in lines[i] && '\r' !in lines[i]
    ensures SplitLines(JoinLines(lines)) == lines
  {
    if |lines| == 1 {
      assert '\n' !in lines[0];
      SplitWithoutNewline(lines[0]);
    } else {
      SplitJoinLines(lines[1..]);
      var a := lines[0];
      if a != [] { assert a[|a| - 1] in a; }
      SplitAtLf(a, JoinLines(lines[1..]));
    }
  }

  /** Lines joined with line feeds give, in order, the trimmed lines that
      are not blank. */
  lemma ParagraphsOfLines(lines: seq<string>)
    requires |lines| >= 1
    requires forall i :: 0 <= i < |lines| ==> '\n' !in lines[i] && '\r' !in lines[i]
    ensures Paragraphs(JoinLines(lines)) == NonBlankTrimmed(lines)
  {
    SplitJoinLines(lines);
  }

  lemma SplitLinesExample(s: string)
    requires s == "Line1\nLine2\n\nLine3"
    ensures SplitLines(s) == ["Line1", "Line2", "", "Line3"]
  {
    var lines := ["Line1", "Line2", "", "Line3"];
    assert JoinLines(lines) == s;
    SplitJoinLines(lines);
  }

  /** Trimming leaves a word without white space alone. */
  lemma TrimWord(w: string)
    requires w in {"Line1", "Line2", "Line3"}
    ensures JsText.Trim(w) == w
  {
    JsText.TrimWithoutSpace(w);
  }

  /** The blank segment is the one dropped. */
  lemma NonBlankTrimmedExample(segments: seq<string>)
    requires segments == ["Line1", "Line2", "", "Line3"]
    ensures NonBlankTrimmed(segments) == ["Line1", "Line2", "Line3"]
  {
    TrimWord(segments[0]);
    TrimWord(segments[1]);
    TrimWord(segments[3]);
    assert segments[4..] == [];
    assert segments[3..][1..] == segments[4..];
    assert NonBlankTrimmed(segments[3..]) == [segments[3]];
    assert segments[2..][1..] == segments[3..];
    assert NonBlankTrimmed(segments[2..]) == [segments[3]];
    assert segments[1..][1..] == segments[2..];
    assert NonBlankTrimmed(segments[1..]) == [segments[1], segments[3]];
  }

  /** A blank line between lines is dropped: three paragraphs. */
  lemma ParagraphsExample(s: string)
    requires s == "Line1\nLine2\n\nLine3"
    ensures Paragraphs(s) == ["Line1", "Line2", "Line3"]
  {
    SplitLinesExample(s);
    NonBlankTrimmedExample(SplitLines(s));
  }

  // ------------------------------------------------------------ product cards

  /** The card of one product: a click goes to `/product/<id>`, the image
      comes from `/uploads/`, the name is both title and alt text. */
  function CardOf(p: Listing.Product): (c: Card)
    ensures c.title == p.name && c.imageAlt == p.name && c.price == p.price
    ensures c.imageSrc == "/uploads/" + p.image
    ensures c.paragraphs == Paragraphs(p.description)
  {
    Card("/product/" + JsText.Show(p.id), "/uploads/" + p.image, p.name, p.name,
         p.price, Paragraphs(p.description))
  }

  /** One card per product, in the order of the reply. */
  function CardsOf(products: seq<Listing.Product>): (cards: seq<Card>)
    ensures |cards| == |products|
    ensures forall i :: 0 <= i < |products| ==> cards[i] == CardOf(products[i])
  {
    seq(|products|, i requires 0 <= i < |products| => CardOf(products[i]))
  }

  /** A prefix one element longer ends with that element. */
  lemma PrefixStep<T>(s: seq<T>, i: nat)
    requires i < |s|
    ensures s[..i + 1] == s[..i] + [s[i]]
  {
  }

  /** A card's link names the product's page: the id after `/product/`
      reads back as that product's id. */
  lemma CardLinksToProduct(p: Listing.Product)
    ensures |CardOf(p).link| > 9 && CardOf(p).link[..9] == "/product/"
    ensures JsText.ParseInt(CardOf(p).link[9..]) == Some(p.id)
  {
    JsText.ParseShow(p.id);
    var s := JsText.Show(p.id);
    assert |s| > 0;
    assert ("/product/" + s)[9..] == s;
  }

  // ---------------------------------------------------------------- pagination

  /** prev, the page buttons 1..total, next; prev is disabled on page 1,
      next on the last page, and the button of the current page is active. */
  function PaginationBar(current: int, total: nat): (bar: seq<Button>)
    ensures |bar| == total + 2
    ensures forall i :: 0 <= i < |bar| && bar[i].active ==>
              bar[i].kind == PageButton(current) && !bar[i].disabled
  {
    [Button(PrevButton, current == 1, false)]
    + seq(total, i => Button(PageButton(i + 1), false, i + 1 == current))
    + [Button(NextButton, current == total, false)]
  }

  /** The `active` class of each button, in bar order. */
  function ActiveFlags(bar: seq<Button>): seq<bool>
  {
    seq(|bar|, i requires 0 <= i < |bar| => bar[i].active)
  }

  /** The layout of the bar: prev first, next last, page `i` at position
      `i`, and which of them are disabled. */
  lemma BarLayout(current: int, total: nat)
    ensures |PaginationBar(current, total)| == total + 2
    ensures PaginationBar(current, total)[0].kind == PrevButton
    ensures PaginationBar(current, total)[total + 1].kind == NextButton
    ensures PaginationBar(current, total)[0].disabled <==> current == 1
    ensures PaginationBar(current, total)[total + 1].disabled <==> current == total
    ensures forall i :: 1 <= i <= total ==> PaginationBar(current, total)[i].kind == PageButton(i)
    ensures forall i :: 1 <= i <= total ==> !PaginationBar(current, total)[i].disabled
  {
  }

  /** Exactly the button of the current page is active when the current page
      is one of the pages; no button is active otherwise. */
  lemma {:induction false} ExactlyOneActive(current: int, total: nat)
    ensures ActiveFlags(PaginationBar(current, total)) == Counting.OneHot(total + 2, if 1 <= current <= total then current else -1)
    ensures Counting.CountTrue(ActiveFlags(PaginationBar(current, total))) == if 1 <= current <= total then 1 else 0
  {
    var k := if 1 <= current <= total then current else -1;
    var flags := ActiveFlags(PaginationBar(current, total));
    assert flags == Counting.OneHot(total + 2, k) by {
      forall i | 0 <= i < total + 2 ensures flags[i] == (i == k) {
        if 1 <= i <= total {
          assert PaginationBar(current, total)[i] == Button(PageButton(i), false, i == current);
        }
      }
    }
    Counting.CountOneHot(total + 2, k);
  }

  /** The prev handler: one page back unless already on page 1. */
  function AfterPrev(current: int): (p: int)
    ensures p == current || p == current - 1
    ensures p < current <==> current > 1
    ensures current >= 1 ==> p >= 1
  {
    if current > 1 then current - 1 else current
  }

  /** The next handler: one page on unless already on the last page (or
      past it). */
  function AfterNext(current: int, total: int): (p: int)
    ensures p == current || p == current + 1
    ensures p > current <==> current < total
    ensures current <= total ==> p <= total
  {
    if current < total then current + 1 else current
  }

  /** Clicks on prev and next keep a page number that is in range in range. */
  lemma ClicksStayInRange(current: int, total: int)
    requires 1 <= current <= total
    ensures 1 <= AfterPrev(current) <= total
    ensures 1 <= AfterNext(current, total) <= total
  {
  }

  /** With an empty table the next button stays enabled, yet its handler
      leaves page 1 as it is. */
  lemma EmptyTableNextIsInert()
    ensures !PaginationBar(1, Listing.PageCount(0, ProductsPerPage))[1].disabled
    ensures AfterNext(1, Listing.PageCount(0, ProductsPerPage)) == 1
  {
  }

  /** A reply that fills the page: the request went through, the HTTP status
      is in the 2xx range and the body is a listing. */
  predicate Succeeds(r: FetchResult)
    ensures Succeeds(r) ==> r.HttpResponse? && 200 <= r.status <= 299 && r.body.Listed?
    ensures r.HttpResponse? && r.status == Listing.Status(r.body) ==> (Succeeds(r) <==> r.body.Listed?)
  {
    r.HttpResponse? && 200 <= r.status <= 299 && r.body.Listed?
  }

  /** What the server's own status code means to the page: it fills the page
      exactly when the server listed products. */
  lemma ServerReplyOutcome(reply: Listing.Reply)
    ensures Succeeds(HttpResponse(Listing.Status(reply), reply)) <==> reply.Listed?
  {
  }

  /** The query string `loadProducts` sends is read by the server as the
      current page with the fixed limit, and the reply holds that page. */
  lemma RequestReadsBack(rows: seq<Listing.Product>, current: int)
    requires current >= 1
    ensures Listing.ListProducts(rows, Some(JsText.Show(current)), Some(JsText.Show(ProductsPerPage)), true)
         == Listing.Listed(Listing.Page(rows, current, ProductsPerPage), |rows|, current, ProductsPerPage)
  {
    Listing.ListProductsIsPage(rows, current, ProductsPerPage);
  }

  class CatalogPage {
    var currentPage: int
    var totalPages: int
    var list: ListView
    var bar: seq<Button>

    ghost predicate Valid()
      reads this
    {
      && currentPage >= 1
      && totalPages >= 0
      && forall i :: 0 <= i < |bar| && bar[i].kind.PageButton? ==> bar[i].kind.number >= 1
    }

    /** The query string of the request `loadProducts` issues now. */
    function Query(): (q: (string, string))
      reads this
      ensures JsText.ParseInt(q.0) == Some(currentPage)
      ensures JsText.ParseInt(q.1) == Some(ProductsPerPage)
    {
      JsText.ParseShow(currentPage);
      JsText.ParseShow(ProductsPerPage);
      (JsText.Show(currentPage), JsText.Show(ProductsPerPage))
    }

    /** Page load: page 1 of at least one page, nothing shown yet; the first
        `loadProducts` goes out with `Query()`. */
    constructor ()
      ensures Valid()
      ensures currentPage == 1 && totalPages == 1 && list == Cards([]) && bar == []
    {
      currentPage := 1;
      totalPages := 1;
      list := Cards([]);
      bar := [];
    }

    /** `renderProducts`: clear the list, then append one card per product. */
    method RenderProducts(products: seq<Listing.Product>)
      modifies this`list
      ensures list == Cards(CardsOf(products))
    {
      list := Cards([]);
      for i := 0 to |products|
        invariant list == Cards(CardsOf(products)[..i])
      {
        PrefixStep(CardsOf(products), i);
        list := Cards(list.cards + [CardOf(products[i])]);
      }
      assert CardsOf(products)[..|products|] == CardsOf(products);
    }

    /** `renderPagination`: clear the bar, append prev, the page buttons in
        order, then next. */
    method RenderPagination()
      requires totalPages >= 0
      modifies this`bar
      ensures bar == PaginationBar(currentPage, totalPages)
    {
      var current, total := currentPage, totalPages;
      bar := [Button(PrevButton, current == 1, false)];
      var i := 1;
      while i <= total
        invariant 1 <= i <= total + 1
        invariant bar == [Button(PrevButton, current == 1, false)]
                         + seq(i - 1, j => Button(PageButton(j + 1), false, j + 1 == current))
      {
        assert seq(i, j => Button(PageButton(j + 1), false, j + 1 == current))
            == seq(i - 1, j => Button(PageButton(j + 1), false, j + 1 == current))
               + [Button(PageButton(i), false, i == current)];
        bar := bar + [Button(PageButton(i), false, i == current)];
        i := i + 1;
      }
      bar := bar + [Button(NextButton, current == total, false)];
    }

    /** The prev handler; `fetch` says whether `loadProducts` ran. */
    method ClickPrev() returns (fetch: bool)
      requires Valid()
      modifies this`currentPage
      ensures Valid()
      ensures currentPage == AfterPrev(old(currentPage))
      ensures fetch <==> currentPage != old(currentPage)
    {
      fetch := currentPage > 1;
      if fetch {
        currentPage := currentPage - 1;
      }
    }

    /** The next handler. */
    method ClickNext() returns (fetch: bool)
      requires Valid()
      modifies this`currentPage
      ensures Valid()
      ensures currentPage == AfterNext(old(currentPage), totalPages)
      ensures fetch <==> currentPage != old(currentPage)
    {
      fetch := currentPage < totalPages;
      if fetch {
        currentPage := currentPage + 1;
      }
    }

    /** The handler of page button `n`: go to page `n` and load it, even when
        it is the current page. */
    method ClickPage(n: int) returns (fetch: bool)
      requires Valid() && n >= 1
      modifies this`currentPage
      ensures Valid()
      ensures currentPage == n && fetch
    {
      currentPage := n;
      fetch := true;
    }

    /** A click on button `k` of the bar: a disabled button receives no click
        event; the others run their handler. */
    method Press(k: nat) returns (fetch: bool)
      requires Valid() && k < |bar|
      modifies this`currentPage
      ensures Valid()
      ensures bar[k].disabled ==> !fetch && currentPage == old(currentPage)
      ensures !bar[k].disabled ==> currentPage == match bar[k].kind
        case PrevButton => AfterPrev(old(currentPage))
        case NextButton => AfterNext(old(currentPage), totalPages)
        case PageButton(n) => n
      ensures !bar[k].disabled ==> fetch == match bar[k].kind
        case PrevButton => old(currentPage) > 1
        case NextButton => old(currentPage) < totalPages
        case PageButton(_) => true
    {
      if bar[k].disabled {
        fetch := false;
      } else {
        match bar[k].kind
        case PrevButton => fetch := ClickPrev();
        case NextButton => fetch := ClickNext();
        case PageButton(n) => fetch := ClickPage(n);
      }
    }

    /** The reply to a `loadProducts` request. On success the list shows the
        products, `totalPages` becomes `ceil(total / 12)` and the bar is drawn
        again; on failure (the request failed, a non-2xx status, or a body
        without products) the list shows the failure message and neither
        `totalPages` nor the bar changes. */
    method Receive(r: FetchResult)
      requires Valid()
      modifies this`list, this`totalPages, this`bar
      ensures Valid()
      ensures Succeeds(r) ==> && list == Cards(CardsOf(r.body.products))
                              && totalPages == Listing.PageCount(r.body.total, ProductsPerPage)
                              && bar == PaginationBar(currentPage, totalPages)
      ensures !Succeeds(r) ==> && list == Message(FailureText)
                               && totalPages == old(totalPages) && bar == old(bar)
    {
      if Succeeds(r) {
        RenderProducts(r.body.products);
        totalPages := Listing.PageCount(r.body.total, ProductsPerPage);
        RenderPagination();
      } else {
        list := Message(FailureText);
      }
    }
  }

  /** Opening the catalog against a store holding `rows`: the first request,
      the server's reply to it and its rendering. The list shows the first
      twelve rows and the bar is drawn for page 1. */
  method FirstLoad(rows: seq<Listing.Product>) returns (view: CatalogPage)
    ensures fresh(view) && view.Valid()
    ensures view.currentPage == 1
    ensures view.list == Cards(CardsOf(Listing.Page(rows, 1, ProductsPerPage)))
    ensures view.totalPages == Listing.PageCount(|rows|, ProductsPerPage)
    ensures view.bar == PaginationBar(1, view.totalPages)
  {
    view := new CatalogPage();
    var (pageQ, limitQ) := view.Query();
    var reply := Listing.ListProducts(rows, Some(pageQ), Some(limitQ), true);
    RequestReadsBack(rows, 1);
    view.Receive(HttpResponse(Listing.Status(reply), reply));
  }
}
