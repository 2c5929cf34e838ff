# Catalog shop: a verified model of its core

The shop is an Express/MariaDB site with a public product catalog and an
admin panel. This project models four parts of it in Dafny and proves what they
promise:

- **The public product API** (`server.js`). `GET /api/products?page=&limit=`
  turns the query strings into a page number and a limit. Missing, non-numeric
  and zero values fall back to 1 and 12. The handler returns one LIMIT/OFFSET
  slice of the product table together with the row count. The
  `GET /api/products/:id` lookup answers 404 when no row has the id. The model
  is `Listing`. It uses `JsText`, which models JavaScript's `parseInt`,
  `trim` and integer printing.
- **The catalog page script** (`public/js/catalog.js`). The class
  `Catalog.CatalogPage` holds the script's `currentPage` and `totalPages`, the
  rendered product list and the pagination bar:
  - It renders one card per product and splits each description into
    paragraphs.
  - It draws the bar: prev, page buttons and next.
  - It runs the click handlers.
  - It reacts to a reply that fills the page or to a failure.
- **The home-page carousel** (`public/js/index.js`). The class
  `Carousel.Carousel` holds the `active` flags of the slides and indicators as
  arrays, plus `currentIndex`.
- **The admin routes** (`routes/admin.js`). The pure rules are in
  `AdminRules`: the validation chains, the price comma normalisation, the
  `isAuthenticated` gate, the admin-table lookups, login and the site-settings
  upsert. The handlers are in the class `AdminPanel.Panel`, which holds:
  - the `products`, `site_settings` and `admin` tables;
  - the file names in `uploads/`;
  - the session user.

The handlers take these I/O outcomes as inputs:
- Which database query throws, if any (`fault`).
- The file name multer stored for the request.
- Whether `unlink` fails.
- The bcrypt hash of a new password.

bcrypt's compare is a function the panel is built with. A panel starts with no products, uploads, settings or session and with the admin table it is given; the source has no code for this, it is the state of a fresh database.

Where the code and its documentation disagree, the model follows the code:

- The listing query has no `ORDER BY`, so pages follow the table's storage
  order.
- A negative `page` or `limit` passes the `|| default` fallback. It reaches
  the database as a negative OFFSET/LIMIT, and the database rejects it, which
  gives a 500.
- An empty table gives `totalPages = 0`. Only `currentPage >= 1` holds for
  every state, because `currentPage <= totalPages` can fail.

## Model

| member | source | states |
|---|---|---|
| JsText.Trim | public/js/catalog.js:61-63 | the result has no white space at either end, and it is the slice of the input that starts right after the leading white space |
| JsText.TrimDropsOnlySpace | public/js/catalog.js:61-63 | what `trim()` drops before and after its result is all white space |
| JsText.TrimIdempotent | public/js/catalog.js:61-63 | trimming a trimmed string changes nothing |
| JsText.TrimEmptyIffAllSpace | public/js/catalog.js:61 | `trim()` gives `''` exactly when the segment is all white space |
| JsText.TrimKeepsCharacters | public/js/catalog.js:63 | every character of a trimmed paragraph occurs in its segment |
| JsText.TrimWithoutSpace | public/js/catalog.js:63 | a segment without white space is kept as it is |
| JsText.ParseInt | server.js:125-126 | `parseInt` gives NaN exactly when, after the leading white space and an optional sign, no digit follows; a negative result only comes after a minus sign |
| JsText.Show | public/js/catalog.js:9 | an integer prints as a non-empty text that starts with `-` exactly when it is negative, and is digits otherwise |
| JsText.ParseShowPrefix | server.js:125-126 | `parseInt` reads back a printed integer followed by any non-digit text |
| JsText.ParseUnsigned | server.js:125-126 | text that starts with a digit parses to the value of its leading digit run |
| JsText.ParseNegative | server.js:125-126 | a leading minus sign negates the digits that follow it, and NaN stays NaN |
| JsText.ParsePlus | server.js:125-126 | a leading plus sign is skipped: the value is that of the digits after it, or NaN |
| JsText.ParseShow | server.js:125-126 | `parseInt` inverts the printing of an integer |
| JsText.ParseSkipsSpace | server.js:125-126 | leading white space does not change what `parseInt` reads |
| JsText.ParseWithoutDigits | server.js:125-126 | a query value without digits parses to NaN |
| Listing.OrDefault | server.js:125-126 | the default is used exactly when the value is missing, NaN, 0 or the default itself; any other result is the non-zero parsed number |
| Listing.Offset | server.js:127 | the offset is non-negative for page >= 1 and limit >= 0; it is 0 on page 1; offset + limit = page * limit |
| Listing.Select | server.js:130 | LIMIT/OFFSET: an error exactly when either is negative; otherwise exactly the rows from the offset up to offset + limit, cut at the end of the table: at most `limit` rows, empty exactly when the offset is past the end or the limit is 0, row i being `rows[offset + i]` |
| Listing.ListProducts | server.js:124-143 | it is a listing exactly when the store is up and LIMIT/OFFSET are non-negative, and a 500 otherwise; a listing echoes the normalised page and limit, which are then both at least 1, holds exactly that page of the table and gives the table size as `total` |
| Listing.PageCount | public/js/catalog.js:122 | `ceil(total / limit)`: the pages cover the total, and one page fewer would not |
| Listing.DefaultsApply | server.js:125-126 | a missing, non-numeric or zero page and limit give page 1 with 12 rows |
| Listing.ListProductsIsPage | server.js:125-139 | for page >= 1 and limit >= 1 sent as integers, the reply is exactly that page of the table, with the total and the echoed values |
| Listing.PastLastPageIsEmpty | server.js:130-132 | a page past the last one is empty |
| Listing.TotalIgnoresPaging | server.js:131-132 | `total` is the table size whatever page and limit are asked for |
| Listing.PagesArePrefix | server.js:127-130 | pages 1..n put together are the first n * limit rows |
| Listing.AllPagesReproduceTable | server.js:127-131 | pages 1..ceil(total/limit) put together are the whole table: no row is missing or repeated |
| Listing.FirstWithId | server.js:154-160 | `result[0]` is the first row with the id, and there is none exactly when no row has it |
| Listing.LookupProduct | server.js:150-165 | 404 exactly when the store is up and no row has the id; a found product is `result[0]`, the first row with the id; 500 exactly when the store is down |
| Counting.CountOneHot | public/js/index.js:13-28 | a one-hot pattern of slide or indicator flags has exactly one set flag when its position is in range, and none otherwise |
| Catalog.FirstNewline | public/js/catalog.js:59 | there is no line break exactly when `\n` does not occur; otherwise it is the first `\n` |
| Catalog.SplitLines | public/js/catalog.js:59 | `split(/\r?\n/)` gives at least one segment and no segment holds `\n` |
| Catalog.FirstNewlineIs | public/js/catalog.js:59 | the first `\n` is found at its position |
| Catalog.SplitWithoutNewline | public/js/catalog.js:59 | a text without `\n` is one segment |
| Catalog.SplitAtLf | public/js/catalog.js:59 | a `\n` after a segment without `\n` and not ending in `\r` separates it from the rest |
| Catalog.SplitAtCrLf | public/js/catalog.js:59 | `\r\n` is one separator and the `\r` is not part of the segment |
| Catalog.ParagraphsAtLf | public/js/catalog.js:59-66 | the first line of a description gives its trimmed text, unless blank, ahead of all the paragraphs of the lines after it |
| Catalog.JoinSplitLines | public/js/catalog.js:59 | for a text without `\r`, joining the segments with `\n` gives the text back |
| Catalog.SplitJoinLines | public/js/catalog.js:59 | lines without `\n` or `\r`, joined by `\n`, split back into the same lines |
| Catalog.NonBlankTrimmed | public/js/catalog.js:60-65 | no more paragraphs than segments; each one is non-empty and trimmed |
| Catalog.NonBlankTrimmedOne | public/js/catalog.js:61-64 | one segment gives its trimmed text, or nothing when that is empty |
| Catalog.NonBlankTrimmedAppend | public/js/catalog.js:60-65 | `forEach` order: the paragraphs of two runs of segments are those of the first run followed by those of the second |
| Catalog.NonBlankKept | public/js/catalog.js:61-64 | only blank segments are dropped: every other segment gives its trimmed text as a paragraph |
| Catalog.ParagraphFromSegment | public/js/catalog.js:60-64 | every paragraph is the trimmed text of one of the segments |
| Catalog.NonBlankTrimmedNoNewline | public/js/catalog.js:59-64 | segments without `\n` give paragraphs without `\n` |
| Catalog.Paragraphs | public/js/catalog.js:59-66 | a description gives at most one paragraph per line, and each paragraph is non-empty, trimmed and free of `\n` |
| Catalog.ParagraphsOfLines | public/js/catalog.js:59-66 | lines without line breaks joined by `\n` give, in order, exactly the trimmed lines that are not blank |
| Catalog.SplitLinesExample | public/js/catalog.js:59 | `"Line1\nLine2\n\nLine3"` splits into four segments, with the blank one included |
| Catalog.NonBlankTrimmedExample | public/js/catalog.js:60-65 | the segments Line1, Line2, an empty one and Line3 give Line1, Line2 and Line3: the blank one is dropped and the others keep their order |
| Catalog.ParagraphsExample | public/js/catalog.js:59-66 | `"Line1\nLine2\n\nLine3"` gives the paragraphs Line1, Line2 and Line3 |
| Catalog.CardOf | public/js/catalog.js:22-71 | a card shows the image `/uploads/<image>`, the product's name as title and alt text, the price as the server sent it, and the description's paragraphs |
| Catalog.CardsOf | public/js/catalog.js:22-71 | one card per product, in response order |
| Catalog.CardLinksToProduct | public/js/catalog.js:28 | a card's link is `/product/` followed by text that parses back to the product's id |
| Catalog.PaginationBar | public/js/catalog.js:75-116 | the bar has totalPages + 2 buttons, and an active button is always the enabled button of the current page |
| Catalog.BarLayout | public/js/catalog.js:80-115 | the bar is prev, then page buttons 1..totalPages in order, then next; prev is disabled exactly on page 1 and next exactly on the last page; page buttons are never disabled |
| Catalog.ExactlyOneActive | public/js/catalog.js:92-97 | exactly the current page's button is active when the page is in range, and no button is active otherwise |
| Catalog.AfterPrev | public/js/catalog.js:83-88 | prev goes back one page exactly when the current page is above 1, and never below 1 |
| Catalog.AfterNext | public/js/catalog.js:109-114 | next goes forward one page exactly when the current page is below totalPages, and never beyond it |
| Catalog.ClicksStayInRange | public/js/catalog.js:83-114 | from 1 <= currentPage <= totalPages, prev and next stay in that range |
| Catalog.EmptyTableNextIsInert | public/js/catalog.js:108-114 | with an empty table the next button is enabled but its click leaves page 1 |
| Catalog.Succeeds | public/js/catalog.js:8-15 | a reply fills the page only when it is an HTTP response with a 2xx status (`response.ok`) and a listing; for the statuses the server sends, exactly when it listed products |
| Catalog.ServerReplyOutcome | public/js/catalog.js:8-15 | the page is filled exactly when the server listed products; a 500 reply counts as a failure |
| Catalog.RequestReadsBack | public/js/catalog.js:118-119 | the request `loadProducts` sends is read by the server as the current page with limit 12, and the reply is that page |
| Catalog.CatalogPage.Query | public/js/catalog.js:118-119 | the query strings `loadProducts` sends parse back to the current page and to 12 |
| Catalog.CatalogPage.constructor | public/js/catalog.js:4-6 | the page starts on page 1 of 1, and the list and the bar are empty |
| Catalog.CatalogPage.RenderProducts | public/js/catalog.js:18-73 | the list is cleared and then holds exactly the cards of the products, in order |
| Catalog.CatalogPage.RenderPagination | public/js/catalog.js:75-116 | the bar is cleared and rebuilt as prev, the page buttons and next for the current state |
| Catalog.CatalogPage.ClickPrev | public/js/catalog.js:83-88 | the page moves back only from above 1; a fetch happens exactly when it moved |
| Catalog.CatalogPage.ClickNext | public/js/catalog.js:109-114 | the page moves on only from below totalPages; a fetch happens exactly when it moved |
| Catalog.CatalogPage.ClickPage | public/js/catalog.js:98-101 | a page button sets that page and always fetches |
| Catalog.CatalogPage.Press | public/js/catalog.js:80-114 | a disabled button changes nothing and fetches nothing; any other button runs its handler: the new page is the handler's, and prev fetches exactly above page 1, next exactly below totalPages, a page button always |
| Catalog.CatalogPage.Receive | public/js/catalog.js:119-129 | on success: the cards of the products, totalPages = ceil(total / 12) and the bar redrawn; on failure: the failure message, with totalPages and the bar untouched |
| Catalog.FirstLoad | public/js/catalog.js:132 | the first load shows the cards of the first twelve rows, sets totalPages to ceil(total / 12) and draws the bar for page 1 |
| Carousel.NextIndex | public/js/index.js:35-38 | `(i + 1) % n` stays in [0, n) and wraps from the last slide to 0 |
| Carousel.PrevIndex | public/js/index.js:41-44 | `(i - 1 + n) % n` stays in [0, n) and wraps from 0 to the last slide |
| Carousel.PrevNextInverse | public/js/index.js:35-44 | prev undoes next, and next undoes prev |
| Carousel.AdvanceIsModularSum | public/js/index.js:35-48 | k ticks of the slide show move k slides on, modulo n |
| Carousel.FullRoundReturns | public/js/index.js:35-48 | n ticks return to the starting slide |
| Carousel.Carousel.constructor | public/js/index.js:78-79 | on load, slide 0 and indicator 0 are the only active ones and the index is 0 |
| Carousel.Carousel.ShowSlide | public/js/index.js:13-32 | exactly slide k and indicator k are active and the index is k; an index with an indicator but no slide throws after the slides are cleared, and nothing else changes |
| Carousel.Carousel.NextSlide | public/js/index.js:35-38 | the index becomes `(i + 1) % n` and exactly that slide and indicator are shown |
| Carousel.Carousel.PrevSlide | public/js/index.js:41-44 | the index becomes `(i - 1 + n) % n` and exactly that slide and indicator are shown |
| Carousel.Carousel.ClickIndicator | public/js/index.js:70-76 | clicking indicator k shows slide k; an indicator with no slide leaves no slide active, the indicators as they were and the index unchanged |
| AdminRules.FirstComma | routes/admin.js:187 | the position of the first comma, if there is one |
| AdminRules.NormalizePrice | routes/admin.js:211 | `replace(',', '.')` keeps the length of the price |
| AdminRules.NormalizeReplacesFirstComma | routes/admin.js:211 | `replace(',', '.')` changes only the first comma, into a point, and leaves every other character in place |
| AdminRules.NormalizeWithoutComma | routes/admin.js:301 | a price without a comma is unchanged |
| AdminRules.NormalizeRemovesOneComma | routes/admin.js:211 | exactly one comma becomes a point when there is one; later commas stay |
| AdminRules.NormalizeSingleComma | routes/admin.js:187 | a price with at most one comma has none left |
| AdminRules.OccurrencesCount | routes/admin.js:187 | a character occurs exactly when its count is positive; the helper that lets `NormalizeSingleComma` turn the comma count of `NormalizeRemovesOneComma` into the absence of commas |
| AdminRules.ProductFormErrors | routes/admin.js:184-195 | the form passes exactly when name, price, description and characteristics are non-empty and the normalised price is numeric; each error is reported exactly when its rule fails |
| AdminRules.LoginErrors | routes/admin.js:58-61 | login passes exactly when both fields are non-empty; each error is reported exactly when its field is empty |
| AdminRules.SettingsErrors | routes/admin.js:580-583 | settings pass exactly when the title and the description are non-empty |
| AdminRules.PasswordErrors | routes/admin.js:647-656 | the form passes exactly when the current password is non-empty, the new one has at least 6 characters and the confirmation equals it; an empty new password fails both of its rules |
| AdminRules.IsAuthenticated | routes/admin.js:28-34 | only a session holding a user flagged as admin passes; an empty session never does |
| AdminRules.FindAdmin | routes/admin.js:76-83 | `result[0]`: the first row matching the username or the id, and none exactly when no row matches |
| AdminRules.FindAdminSamePattern | routes/admin.js:670-677 | tables that match a key at the same positions give the same lookup result; the helper that lets `PasswordChangeTakesEffect` find the same admin row before and after the hash changes |
| AdminRules.Authenticate | routes/admin.js:76-97 | a session user is made exactly when the first row with that username has a hash matching the password; it passes the gate, has that username and carries the id of that first row; an unknown username and a wrong password give the same `None` |
| AdminRules.SetPasswordHash | routes/admin.js:687 | exactly the rows with that id get the new hash; ids and usernames stay |
| AdminRules.PasswordChangeTakesEffect | routes/admin.js:678-687 | after an admin's password change, login under its username succeeds exactly with passwords matching the new hash |
| AdminRules.UpsertSettings | routes/admin.js:602-615 | an empty table gets one row with the next id; otherwise every row with the first row's id takes the new title and description, and the other rows and all ids stay |
| AdminRules.UpsertTouchesFirstRowOnly | routes/admin.js:602-615 | with unique ids only the first row changes, the table grows by at most one row and ids stay unique |
| AdminRules.UpsertIdempotent | routes/admin.js:602-615 | saving the same settings twice gives the same table as saving them once |
| AdminPanel.EditPage | routes/admin.js:329 | the edit page's path is `/admin/products/edit/` followed by the printed id |
| AdminPanel.EditPageNamesProduct | routes/admin.js:329 | the edit page's path ends in text that parses back to the product id |
| AdminPanel.EditedRow | routes/admin.js:300-306 | the row an edit writes: the uploaded file if any, otherwise `current_image`, and the normalised price |
| AdminPanel.Unlinked | routes/admin.js:305-316 | the old image is removed only with an upload, a non-empty `current_image` and a working unlink |
| AdminPanel.Panel.Login | routes/admin.js:56-104 | invalid forms and failed queries change nothing; an unknown username and a wrong password give the same redirect and leave the session alone; only a matching password sets the session to that admin, flagged admin |
| AdminPanel.Panel.AddProduct | routes/admin.js:180-233 | no session means a redirect to login with nothing stored; the upload is kept on every later path; a row is inserted, under a new id and with the normalised price, only for a valid form with a file and a working INSERT |
| AdminPanel.Panel.EditProduct | routes/admin.js:264-332 | the upload is kept; a valid form unlinks `current_image` before the UPDATE, so a failed UPDATE can leave the row naming a removed file; a missing id updates nothing but reports success |
| AdminPanel.Panel.ApplyEdit | routes/admin.js:299-331 | unlink, then UPDATE of the row if it exists; on failure, a redirect to the edit page |
| AdminPanel.Panel.DeleteProduct | routes/admin.js:338-369 | a missing id or a failed query changes nothing; otherwise the row is deleted and then its file unlinked, and an unlink failure still reports success |
| AdminPanel.Panel.UpdateSettings | routes/admin.js:577-625 | a valid form upserts the settings; the id counter moves only on insert; failures and invalid forms change nothing |
| AdminPanel.Panel.ChangePassword | routes/admin.js:644-699 | the hash changes only for a valid form, an existing admin, a matching current password and a working UPDATE; a wrong current password leaves it unchanged |

## Left out

- Hexadecimal input to `parseInt` (`0x…`) and numbers beyond 2^53 are not modelled: `JsText.ParseInt` reads decimal digits into an unbounded integer. Fractional text stops at the point, as it does in JavaScript.
- `Listing.ListProducts`: `(page - 1) * limit` is a JavaScript double and MariaDB bounds LIMIT and OFFSET to 64-bit unsigned integers. A huge page or limit therefore gets a 500 (or a rounded offset) in the source, while the model, with unbounded integers, answers with an empty or exact page.
- Query strings that arrive as arrays (`?page=1&page=2`) are not modelled: a query value is one string or missing.
- Prices are kept as strings. The `toLocaleString('ru-RU')` display formatting uses floating point and locale rules.
- JavaScript's `isNaN` on the normalised price is the parameter `isNumeric` of `AdminRules.ProductFormErrors`.
- bcrypt hashing and comparison are foreign calls. Compare is the `matches` function the panel is built with, and a new hash is an input.
- `isEmail` is not modelled, and neither is the user management of routes/admin.js:377-544. It is outside this model.
- The framework is not modelled: Express routing, csurf tokens, session storage and `destroy`, flash storage, EJS rendering, helmet/CSP settings and the catch-all error handler. Replies are values, and a flash message is part of its redirect.
- The GET handlers that only render forms or lists are not modelled: login page, dashboard, product and settings pages.
- Logout is not modelled.
- The product detail page (server.js:179-197) is not modelled.
- Multer's time- and random-based file names are not modelled: the stored name is an input. Path handling in `path.join`, including `..` in `current_image`, is not modelled either: a file is known by its name.
- `AdminPanel.Panel.DeleteProduct`: a NULL `image` column is not modelled, so every row has a string image.
- `AdminPanel.Panel.EditProduct`, `AdminPanel.Panel.DeleteProduct` and `Listing.LookupProduct`: the route's `:id` is an integer. The source passes the raw path text to `WHERE id = ?`; non-numeric ids, which MariaDB would coerce, are not modelled.
- `AdminPanel.Panel.Login`: usernames compare by exact equality. The database collation's case folding is not modelled.
- `AdminPanel.Panel.ChangePassword`: a throwing `bcrypt.compare` or `bcrypt.hash` is not modelled.
- The database pool, credentials, connection test and `assetVersion` (server.js:86-106, 221) are setup code, not logic.
- A missing form field is the empty string. Text rendering into the DOM is not modelled: `CatalogPage` keeps cards and buttons as values, not elements.
- The catalog's fetches are asynchronous, so a late reply could overwrite a newer one. The model handles one reply at a time (`Receive`).
- The carousel's `setInterval`/`clearInterval` timers are not modelled. A tick is a call of `NextSlide`, and restarting the timer after a click has no visible state.
- public/js/custom.js (toasts and confirmation dialogs) is not part of this model.
- `Catalog.CatalogPage.Press`: a disabled button receives no click. This follows browser behaviour, and the script does not check it.
