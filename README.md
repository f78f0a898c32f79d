# Product search and request validation, modelled in Dafny

This project models the product-search query pipeline of an online shop's
Express backend, together with the request validators and small transformers
around it:

- `parsePriceFilter` reads an informal price constraint out of a search
  query ("under 500", "over 3", "between 100 and 200"). Each regular
  expression is modelled as a leftmost-match scanner, and the scanner is
  proved to find exactly the leftmost match the pattern describes.
- `cleanQuery` deletes keywords, hyphens and digit runs in one left-to-right
  pass and then trims.
- `simpleSearch` builds a `WHERE` clause and `LIMIT`/`OFFSET` parameters.
- `elasticSearch` builds a `bool` query with a `range` filter.
- Both handlers share the same paginated response shape and absolute image
  URLs.
- The product, category and auth controllers are modelled as ordered
  early-return checks, where the first failing check decides the message.
  Their row and document shapes, `parseInt(x) || default` paging, and the
  session cookie are modelled too.
- The upload middleware: the extension filter, the size limit and the stored
  file name.
- The bulk body that the Elasticsearch sync script builds, two entries per
  product.
- The sign-up and sign-in pages' form state: field edits, `validate` and the
  submit gate.

Modules:

- `JsText` and `JsNumber`: the JavaScript string and number primitives the
  code relies on, such as `trim`, `toLowerCase`, `parseInt`, truthiness and
  `x || d`.
- `Paging` and `Validation`: paging arithmetic and the first-failure rule.
- `Relational`: sorting and `LIKE`.
- `Records`: table rows and index documents.
- `PriceQuery` and `Search`: the search controller.
- `Products`, `Categories` and `Auth`: the other controllers.
- `Upload`: the upload middleware.
- `EsSync`: the sync script.
- `FormRules`, `SignupForm` and `SigninForm`: the two pages.

The pure controllers are functions over values. The code that changes state
step by step is written as methods with the same steps:

- the `WHERE` clause and the `must` filters the search handlers grow by
  appending;
- the listing queries of `getProducts`;
- the sync loop;
- the two React pages, which are classes whose methods update `formData`,
  `errors` and the requests sent.

Each method is proved against a specification function.

Four behaviours of the code are easy to misread; the model follows the code:

- Cleaning a term makes one non-overlapping pass over the constraint
  keywords, so removing a keyword can join its neighbours into a new one:
  "ununderder" cleans to "under" (`PriceQuery.CleanNotIdempotent`).
- The relevance strategy has no filter-only fallback for an empty cleaned
  term. It always sends the same four `should` clauses with
  `minimum_should_match: 1` (`Search.ElasticSearch`).
- The search handlers never check that page and page size are positive
  integers, so the model takes them positive as a precondition
  (`Search.PagingOk`).
- The relational path keeps every column, but `fullImagePath` has no null
  guard, so a missing image becomes the text "null" after the URL prefix
  (`Search.ImageUrl`).

## Model

| member | source | states |
|---|---|---|
| PriceQuery.NumberAtCorrect | backend/controllers/search.controller.js:13-16 | The anchored matcher for `kw\s*(\d+)` succeeds exactly when the pattern matches at that position, and its capture is the only possible one (greedy digits). |
| PriceQuery.MatchNumber | backend/controllers/search.controller.js:13-16 | `str.match(/kw\s*(\d+)/)` is non-null iff some position matches, and the number is the capture of the leftmost match. |
| PriceQuery.BetweenAtCorrect | backend/controllers/search.controller.js:19 | The anchored between-matcher succeeds iff `between\s*(\d+)\s*(and\|-)\s*(\d+)` matches at that position, and returns that match's three spans. |
| PriceQuery.MatchBetween | backend/controllers/search.controller.js:19-20 | The between pattern matches iff the scanner finds a match, and the two numbers are the captures of the leftmost match. |
| PriceQuery.ParsePriceFilter | backend/controllers/search.controller.js:10-23 | On the lower-cased query, "under" (else "below") gives `{max}`. Otherwise "above" (else "over") gives `{min}`. Otherwise "between" gives `{min, max}`. Otherwise null. Each case is stated as an iff over which patterns match, with the value being the leftmost capture. |
| PriceQuery.LeftmostNumberUnique | backend/controllers/search.controller.js:13-16 | The leftmost match determines one number. |
| PriceQuery.UnderWins | backend/controllers/search.controller.js:13-14 | When "under N" matches, the result is `{max: N}`, whatever else the query holds. |
| PriceQuery.BetweenNotReordered | backend/controllers/search.controller.js:19-20 | A between match gives `{min: N1, max: N2}` in the order written, even when N1 > N2. |
| PriceQuery.OverGivesMinimum | backend/controllers/search.controller.js:16-17 | Without under/below/above matches, the leftmost "over" number becomes the minimum. |
| PriceQuery.CoverIsOver | backend/controllers/search.controller.js:16 | "cover 3" parses as `{min: 3}`: there are no word boundaries. |
| PriceQuery.UnderGlued | backend/controllers/search.controller.js:13 | "under500" parses as `{max: 500}`: zero white space is allowed. |
| PriceQuery.Scrub | backend/controllers/search.controller.js:27 | The global replace leaves no digit and no '-', and what remains is a subsequence of the input with case unchanged. |
| PriceQuery.CleanQuery | backend/controllers/search.controller.js:25-29 | The cleaned term has no digit or '-', no white space at either end, and is a subsequence of the query (characters only deleted, case kept). |
| PriceQuery.CleanMatchLengthCorrect | backend/controllers/search.controller.js:27 | At each position the scanner's match length is exactly the length of the match of `(under\|below\|above\|over\|between\|and\|-\|\d+)` (first matching alternative, ASCII case folded, greedy digits), and 0 exactly when the pattern does not match there. |
| PriceQuery.ReplaceSpansExist | backend/controllers/search.controller.js:27 | Every string has a sequence of spans that are the global replace's matches: each is the leftmost match from where the previous one ended, and none follows the last. |
| PriceQuery.ScrubDeletesSpans | backend/controllers/search.controller.js:27 | Given the global replace's matches, `Scrub` returns the input with exactly those spans cut out and every other character kept in order. |
| PriceQuery.CleanQueryDeletesMatches | backend/controllers/search.controller.js:25-29 | `cleanQuery` is the query with the global replace's matches cut out, then trimmed. |
| PriceQuery.CleanPlainQuery | backend/controllers/search.controller.js:25-29 | A query with no digit, no '-' and no keyword in any letter case is left unchanged by the replace and only trimmed by `cleanQuery`. |
| PriceQuery.CleanShoesUnder | backend/controllers/search.controller.js:25-29 | "shoes under 500" cleans to "shoes": the keyword and the number go, and the spaces around them are trimmed. |
| PriceQuery.CleanNotIdempotent | backend/controllers/search.controller.js:25-29 | "ununderder" cleans to "under", which cleans to "": the cleaner is not idempotent and its output can still contain a keyword. |
| Search.ImageUrl | backend/controllers/search.controller.js:6-8 | The URL is BASE_URL + UPLOAD_PATH followed by the file name, or by "null" for a missing image. |
| Search.DefaultImageUrl | backend/controllers/search.controller.js:6-8 | With no environment overrides, the prefix is "http://localhost:5000/uploads/product-images/". |
| Search.EffectiveBounds | backend/controllers/search.controller.js:53-64 | A side is bounded iff the parse result has that key and it is truthy (non-zero). The bound equals the parsed value. |
| Search.ZeroBoundDropped | backend/controllers/search.controller.js:54-63 | "under 0" and "between 0 and 0" impose no bound, "between 0 and 50" acts as "under 50", and an inverted range admits no price. |
| Search.BuildWhereClause | backend/controllers/search.controller.js:50-64 | The appended clause and parameters bind to the name pattern `%term%` and exactly the effective bounds. |
| Search.Select | backend/controllers/search.controller.js:66-74 | The rows a `WHERE` clause keeps are exactly the table rows whose name matches and whose price is within bounds, each with its multiplicity in the table, as a subsequence of the table. |
| Search.SortMode | backend/controllers/search.controller.js:43-48 | Only the exact strings "asc" and "desc" order by price. |
| Search.SortAgrees | backend/controllers/search.controller.js:43-48 | Both handlers impose the same price order for every sort string. |
| Search.Ordered | backend/controllers/search.controller.js:67 | Ordering returns a permutation of the selected rows. |
| Search.BuildSimpleQueries | backend/controllers/search.controller.js:39-74 | The page and count queries share one `WHERE` clause and one parameter list. The page query adds `limit` and `(page-1)*limit`. The clause reads as the query's filter. |
| Search.SimpleSearch | backend/controllers/search.controller.js:31-88 | A blank query gives 400 and sends nothing. Otherwise two queries are sent and the response equals the SQL-free specification: matching rows, in the requested order, windowed, with image URLs, and `ceil(total/limit)` pages. |
| Search.SimpleSearchRowsMatch | backend/controllers/search.controller.js:66-79 | Every result row is a table row that matches the filter, with only its image rewritten. |
| Search.SimpleSearchPageSize | backend/controllers/search.controller.js:81-88 | A page holds at most `limit` rows, and `totalPages` is 0 iff `total` is 0. |
| Search.SimpleSearchAscending | backend/controllers/search.controller.js:44-45 | With sort=asc, the results are in non-decreasing discount price. |
| Search.SimpleSearchNameTest | backend/controllers/search.controller.js:51 | For a term without `%`, `_` or `\`, the LIKE test is a substring test. |
| Search.BuildMustFilters | backend/controllers/search.controller.js:114-126 | One `range` filter is pushed iff the query parsed. It carries the same effective bounds as the relational path, and it is empty iff both bounds are zero or absent. |
| Search.EmptyRangeSent | backend/controllers/search.controller.js:116-125 | "under 0" still sends a `range` filter, an empty one. |
| Search.ShouldClausesSearchTerm | backend/controllers/search.controller.js:136-170 | There are four `should` clauses, all on the cleaned term. The wildcard value is `*` + the lower-cased term + `*`. |
| Search.BuildEsRequest | backend/controllers/search.controller.js:103-173 | The request has `from = (page-1)*limit`, `size = limit`, the price order, `must` as above and the four `should` clauses. |
| Search.ElasticSearch | backend/controllers/search.controller.js:95-196 | A blank query gives 400 and no engine call. Otherwise exactly one request is sent, and the response carries the engine's total, the page count and the hits projected to eight fields. |
| Search.ProjectAll | backend/controllers/search.controller.js:175-187 | Each hit is projected field by field, with the image made absolute. |
| Search.ResolveConfig | backend/controllers/search.controller.js:6-7 | `process.env.X \|\| default` for both settings. |
| Relational.SortBySorted | backend/controllers/product.controller.js:127 | Sorting by a total preorder yields a sorted sequence. |
| Relational.LikeContains | backend/controllers/search.controller.js:51 | `LIKE '%t%'` on a term without wildcards holds iff the name contains `t`. |
| Relational.LikeUnderscoreIsWildcard | backend/controllers/search.controller.js:51 | An unescaped '_' in the term matches any character. |
| Paging.CeilDiv | backend/controllers/product.controller.js:132 | `Math.ceil(total/limit)` is the least number of pages of `limit` rows that holds `total` rows, and it is 0 iff `total` is 0. |
| Paging.Window | backend/controllers/product.controller.js:127-134 | `LIMIT`/`OFFSET` returns the consecutive rows starting at `offset`: `limit` of them on a full page, the rest of the result on the last page, none past the end. |
| Paging.PageCovers | backend/controllers/category.controller.js:45-57 | Row `k` appears at slot `k % limit` of page `k/limit + 1`, which is between 1 and `totalPages`. |
| Paging.PagesDisjoint | backend/controllers/category.controller.js:45 | Distinct pages do not overlap. |
| Validation.FirstFailure | backend/controllers/product.controller.js:27-57 | The first failing check is reported: all earlier checks pass, and there is no failure iff every check passes. |
| JsText.Trim | backend/controllers/category.controller.js:12 | `trim` removes exactly the leading and trailing white space. It is empty iff the string is all white space. |
| JsNumber.ParseIntDecimal | backend/controllers/product.controller.js:104-106 | `parseInt` of a non-empty string of decimal digits is that number. |
| JsNumber.ParseIntSigned | backend/controllers/product.controller.js:104-110 | Leading white space and a sign are accepted: " -3" parses as -3. |
| JsNumber.ParseIntHex | backend/controllers/product.controller.js:155 | A "0x" prefix switches to base 16: "0x1A" parses as 26. |
| JsNumber.ParseIntStopsAtDash | backend/middlewares/upload.middleware.js:9 | Parsing stops at the first '-': digits followed by '-' and anything else give the digits' value. |
| JsNumber.ParseIntOr | backend/controllers/product.controller.js:104-105 | `parseInt(x) \|\| d` is the parsed value when that is truthy (a number other than 0) and the default when it is 0 or NaN, so it is never 0 for a non-zero default. |
| JsNumber.NatToStringRoundTrip | backend/utils/syncProductsToES.js:27 | `parseInt(String(n)) == n`. |
| JsNumber.ParseIntOrDefaults | backend/controllers/product.controller.js:104-105 | "0", "", "abc" and a missing value all give the default. |
| JsNumber.ParseIntPrefix | backend/controllers/product.controller.js:155 | "12abc" parses as 12. |
| Products.CollapseSpaces | backend/controllers/product.controller.js:13-16 | The result has no white space, and a name without white space is unchanged. |
| Products.CollapseAppend | backend/controllers/product.controller.js:15 | The global replace works part by part: collapsing `a + b` is collapsing `a`, then collapsing `b`, which continues a run exactly when `a` ends in white space. |
| Products.CollapseSpacesJoin | backend/controllers/product.controller.js:15 | A non-empty run of white space between a part not ending in white space and a part not starting with it becomes exactly one '_', and each part is collapsed independently. |
| Products.CollapseKeepsText | backend/controllers/product.controller.js:15 | Collapsing only replaces white space: every other character is kept, in order. |
| Products.CollapseExample | backend/controllers/product.controller.js:15 | "a \t b" becomes "a_b": one '_' per run. |
| Products.ProductFileName | backend/controllers/product.controller.js:13-16 | The stored name is timestamp + "-" + the collapsed name, and has no white space. |
| Products.ProductFileNameStamp | backend/controllers/product.controller.js:15 | `parseInt` of the stored name gives back the timestamp. |
| Products.AddProduct | backend/controllers/product.controller.js:22-94 | 400 iff a check fails, with the first failing check's message. 404 when no category has that id, and nothing is written. Otherwise the row (trimmed name), the document (untrimmed name, category name and description) and the index id `String(id)`. |
| Products.AddedRowValid | backend/controllers/product.controller.js:27-66 | Every inserted row has a trimmed name of at least 3 characters, 0 < discount ≤ MRP, qty > 0, an image, and an existing category. |
| Products.RowAndDocAgree | backend/controllers/product.controller.js:68-89 | The row's name is the trimmed document name, and the index id parses back to the row id. |
| Products.ZeroMrpRejected | backend/controllers/product.controller.js:27-37 | An MRP of "0" passes the presence check and is refused as "Invalid MRP value". |
| Products.CategoryFilter | backend/controllers/product.controller.js:106-125 | Only a truthy number (not absent, not NaN, not 0) filters by category. |
| Products.BuildListQueries | backend/controllers/product.controller.js:116-128 | The appended count and page statements apply the same category filter, and the page statement has `ORDER BY name ASC LIMIT limit OFFSET offset`. |
| Products.InCategory | backend/controllers/product.controller.js:117-125 | `WHERE category_id = ?` keeps exactly the rows of that category (every row with no filter), each as often as in the table and in table order. |
| Products.GetProducts | backend/controllers/product.controller.js:102-146 | A bad request sends nothing. Otherwise the count and page statements share one filter, and the response equals the SQL-free specification. |
| Products.FalsyPageDefaults | backend/controllers/product.controller.js:104 | A page that parses to 0 or NaN gives the same response as no page. |
| Products.FalsyLimitDefaults | backend/controllers/product.controller.js:105 | Likewise for the limit. |
| Products.NegativePageRejected | backend/controllers/product.controller.js:108-110 | " -3" as the page is refused. |
| Products.CategoryZeroOrNaNUnfiltered | backend/controllers/product.controller.js:106-125 | A category id parsing to 0 or NaN is the same as no filter. |
| Products.NegativeCategoryRejected | backend/controllers/product.controller.js:112-114 | A negative category id gives "Invalid category ID". |
| Products.ListingRows | backend/controllers/product.controller.js:134-139 | Every listed row is a table row of the requested category, with only its image rewritten. |
| Products.ListingSortedByName | backend/controllers/product.controller.js:127 | Listed rows are in name order. |
| Products.ListingPageSize | backend/controllers/product.controller.js:127-146 | At most `limit` rows, `currentPage` ≥ 1, and the page count covers the matching rows, being 0 iff there are none. |
| Products.ListedImage | backend/controllers/product.controller.js:136-139 | A falsy image stays null. Any other image is prefixed with the upload URL. |
| Products.GetProductById | backend/controllers/product.controller.js:153-200 | 400 iff the id does not parse to a positive number. 404 when no product of that id has a category row. Otherwise the product with its listed image and its category nested. |
| Products.DanglingCategoryNotFound | backend/controllers/product.controller.js:173-180 | The inner join hides a product whose category is missing, so the answer is 404. |
| Products.ProductIdParsing | backend/controllers/product.controller.js:155-159 | Any id parsing to NaN or to a number ≤ 0 gives 400. |
| Products.ProductIdPrefix | backend/controllers/product.controller.js:155 | "12abc" finds the same product as "12". |
| Records.FindCategory | backend/controllers/product.controller.js:59-66 | A category is found iff one with that id exists, and the one found has that id. |
| Categories.AddCategory | backend/controllers/category.controller.js:3-28 | 400 iff a check fails, with the first failing check's message. Otherwise the row has the trimmed name and description and the path "/uploads/category-images/" + file name, and the URL is the origin + path. |
| Categories.AddedCategoryValid | backend/controllers/category.controller.js:12-28 | A stored name has at least 3 characters and no white space at either end, and the returned URL ends with the uploaded file name. |
| Categories.BlankNameTooShort | backend/controllers/category.controller.js:8-14 | A present but all-white-space name is refused as too short, not as missing. |
| Categories.GetCategories | backend/controllers/category.controller.js:36-60 | 400 iff page or limit parses (with defaults) to a non-positive number. Otherwise `currentPage` is the page, `totalItems` the table size, the page count covers the table and is 0 iff the table is empty, and at most `limit` table rows are returned. |
| Categories.CategoriesSortedByName | backend/controllers/category.controller.js:51 | A page's categories are in name order. |
| Categories.EveryCategoryListed | backend/controllers/category.controller.js:45-57 | With distinct names, asking for page `k/limit + 1` shows the k-th category in name order at slot `k % limit`, and that page is within `totalPages`. |
| Categories.GetCategoryById | backend/controllers/category.controller.js:68-85 | 400 iff the id does not parse to a positive number. 404 iff no row has it. Otherwise a row with that id. |
| Categories.CategoryByIdRoundTrip | backend/controllers/category.controller.js:70-85 | Every stored category is found by the decimal string of its id. |
| Auth.IsValidEmail | backend/controllers/auth.controller.js:14-15 | The email pattern accepts iff there is one '@' that is not first, no white space or other '@', and a '.' after the '@' that is neither the domain's first nor last character. |
| Auth.EmailRunInv | backend/controllers/auth.controller.js:14 | Each state of the left-to-right matcher describes exactly the prefixes read so far. |
| Auth.EmailExamples | backend/controllers/auth.controller.js:14 | "a@b.c" and "a@b.." are accepted. "a@.bc", "a@bc.", " a@b.c" and "@b.c" are refused. |
| Auth.IsStrongPassword | backend/controllers/auth.controller.js:19-21 | Accepts iff the password has ≥ 8 characters, all from [A-Za-z0-9@$!%*?&], with a lower-case letter, an upper-case letter, a digit and a special character. |
| Auth.ScanClasses | backend/controllers/auth.controller.js:20 | One pass records exactly which character classes occur and whether all characters are allowed. |
| Auth.PasswordExamples | backend/controllers/auth.controller.js:20 | "Abcdef1!" is accepted. "abcdefgh" and "Abcdef1 !" are refused. |
| Auth.Signup | backend/controllers/auth.controller.js:6-41 | 400 iff a check fails, in the order presence, email, password, duplicate, with that check's message. A created user has trimmed names, the lower-cased email and the hash. |
| Auth.SignupDuplicateByCase | backend/controllers/auth.controller.js:28-39 | With "ann@x.io" stored, "Ann@x.io" passes the duplicate test and stores the same email again. |
| Auth.FindUser | backend/controllers/auth.controller.js:28 | The lookup by email finds a user iff one has that email. |
| Auth.Signin | backend/controllers/auth.controller.js:49-86 | 400 iff a check fails, in the order presence, format, lookup, password, with that check's message. Otherwise a stored user with that email and matching password is the token's subject, and the cookie is "token", HTTP-only, not secure, lax, with a 7-day max age. |
| Auth.CookieMatchesToken | backend/controllers/auth.controller.js:73-84 | The cookie max age is 604800000 ms, the token's 7 days. |
| Auth.CheckAuth | backend/controllers/auth.controller.js:94-98 | Authenticated (200) iff a non-empty token cookie is present, else 401. |
| Auth.CheckAuthIgnoresToken | backend/controllers/auth.controller.js:96-98 | Any non-empty token, forged or expired, counts as authenticated. |
| Auth.LogoutEndsSession | backend/controllers/auth.controller.js:104-111 | After logout the token cookie is gone and `checkAuth` answers 401. |
| Upload.BaseName | backend/middlewares/upload.middleware.js:19 | The last path component, ignoring trailing '/': a '/'-free slice that follows a '/' or starts the string. |
| Upload.ExtName | backend/middlewares/upload.middleware.js:19 | `path.extname` is empty iff the last component has no '.' after its first character or is "..". Otherwise it is the proper suffix from the last '.'. |
| Upload.IsImageName | backend/middlewares/upload.middleware.js:17-24 | Accepted iff the lower-cased extension contains "jpeg", "jpg", "png" or "webp" anywhere. |
| Upload.UnanchoredExtension | backend/middlewares/upload.middleware.js:18-19 | Any extension that starts with "png" in any case is accepted, whatever follows: "photo.pngx" and "photo.PNG" pass. |
| Upload.NoExtensionRefused | backend/middlewares/upload.middleware.js:19-23 | A name with no '/' and no '.' after its first character, such as "png" or ".png", has no extension and is refused. |
| Upload.CategoryFileName | backend/middlewares/upload.middleware.js:8-11 | The stored name is timestamp + "-" + the original name unchanged. It has white space iff the original does. |
| Upload.CategoryFileNameStamp | backend/middlewares/upload.middleware.js:9 | `parseInt` of the stored name gives back the timestamp. |
| Upload.CategoryUpload | backend/middlewares/upload.middleware.js:14-25 | Refused iff the filter fails. Otherwise too large iff over the limit, and stored under the timestamped name otherwise. |
| Upload.SizeLimit | backend/middlewares/upload.middleware.js:16 | The limit is 2097152 bytes: an accepted file of that size is stored, one byte more is not. |
| EsSync.SyncDoc | backend/utils/syncProductsToES.js:28-37 | The document copies the id and name. An unparsable or zero price becomes 0 and a NULL qty becomes 0. A falsy image, category name or description becomes null, and the description is renamed. The raw file name is kept, not a URL. |
| EsSync.BulkBody | backend/utils/syncProductsToES.js:25-38 | 2·\|rows\| entries. Entry 2i indexes row i into "products" under `String(id)`, and entry 2i+1 is its document. |
| EsSync.BuildBulkBody | backend/utils/syncProductsToES.js:25-38 | The loop's pushes build exactly `BulkBody(rows)`. |
| EsSync.SyncProducts | backend/utils/syncProductsToES.js:19-40 | No bulk request iff there are no rows. Otherwise the request carries the whole body. |
| EsSync.DocFollowsItsAction | backend/utils/syncProductsToES.js:27-29 | Every document follows an action on "products" whose `_id` parses to the document's `product_id`. |
| EsSync.EntriesAlternate | backend/utils/syncProductsToES.js:27-28 | Entries at even positions are exactly the actions. |
| FormRules.EmailError | frontend/src/pages/Signup.jsx:38-44 | No error iff the email is not blank and matches the server's pattern. "required" iff it is all white space. |
| FormRules.LeadingSpaceInvalid | frontend/src/pages/Signin.jsx:36-40 | The pattern runs on the untrimmed value, so a leading space makes an address invalid rather than missing. |
| SignupForm.ErrorsMeaning | frontend/src/pages/Signup.jsx:36-54 | Name errors iff blank. Email as above. Password error iff shorter than 8, "required" iff empty (not trimmed). Confirm error iff the two differ. |
| SignupForm.SignupPage.Validate | frontend/src/pages/Signup.jsx:36-54 | Filling the map key by key yields exactly `Errors(formData)`. |
| SignupForm.SignupPage.HandleChange | frontend/src/pages/Signup.jsx:28-34 | Exactly the edited field changes, all errors are cleared, and the shown errors stay consistent. |
| SignupForm.SignupPage.HandleSubmit | frontend/src/pages/Signup.jsx:56-86 | With errors: they are shown and nothing is sent. Without: one request with the four fields is sent, and the form is emptied on success. The shown errors stay none or those of the current input. |
| SignupForm.SentRequestsPassChecks | frontend/src/pages/Signup.jsx:56-63 | A sent request has non-blank names, a well-formed email, a password of ≥ 8 characters and a matching confirmation. |
| SignupForm.StrongPasswordPassesForm | frontend/src/pages/Signup.jsx:46-48 | Every password the server accepts passes the form's length check. |
| SignupForm.FormWeakerThanServer | frontend/src/pages/Signup.jsx:46-48 | Eight or more lower-case letters pass the form and are refused by the server. |
| SignupForm.EmptyPasswordsOneError | frontend/src/pages/Signup.jsx:46-51 | Two empty passwords give "Password is required" and no mismatch error. |
| SignupForm.SpacesPasswordTooShort | frontend/src/pages/Signup.jsx:46-48 | A short all-space password is "too short", not missing. |
| SigninForm.ErrorsMeaning | frontend/src/pages/Signin.jsx:34-47 | Email as above. Password error iff blank after trimming or shorter than 8, and "required" iff blank. |
| SigninForm.SigninPage.Validate | frontend/src/pages/Signin.jsx:34-47 | Filling the map step by step yields exactly `Errors(formData)`. |
| SigninForm.SigninPage.HandleChange | frontend/src/pages/Signin.jsx:26-32 | Exactly the edited field changes and all errors are cleared. |
| SigninForm.SigninPage.HandleSubmit | frontend/src/pages/Signin.jsx:49-72 | With errors: they are shown and nothing is sent. Without: the form is posted, and on success the session is marked logged in and the form is emptied. |
| SigninForm.SentRequestsPassChecks | frontend/src/pages/Signin.jsx:49-63 | A sent request has a well-formed email and a non-blank password of ≥ 8 characters. |
| SigninForm.BlankPasswordRequired | frontend/src/pages/Signin.jsx:42-44 | An all-white-space password, eight spaces included, is "required". |

## Left out

- Execution by MySQL and Elasticsearch is not modelled. The relational
  engine is modelled only by how it reads the statements these handlers
  build. The search engine is a function parameter, so relevance scoring,
  fuzziness, `bool_prefix` and the index analyzers are not modelled.
- SQL collation and case sensitivity are not modelled. `LIKE` is matched
  character by character, and a '%' or '_' in the cleaned term stays a
  wildcard because the code does not escape it. `ORDER BY name` is modelled
  as code-point order (`Relational.LexLe`), while MySQL's default collation
  compares names without regard to case.
- Search.SimpleSearch, Products.GetProducts, Categories.GetCategories: rows
  that tie on the sort key, and the relevance listing that has no
  `ORDER BY`, are taken in table order, the same for every query. MySQL
  promises no order there, so a page boundary between tied rows may fall
  differently on the real server.
- The email lookups compare exactly. A case-insensitive collation would also
  reject the mixed-case duplicate that `Auth.SignupDuplicateByCase`
  exhibits.
- `+digits` in the price phrases is taken as the exact `DecimalValue` of the
  digits, so rounding past 2^53 and `Infinity` for very long digit runs are
  not modelled. Prices are whole rupees. `Math.ceil` is on integers.
- Products.AddChecks, Products.AddProduct: one `number` parameter stands for
  three coercions that differ on some inputs (MRP "0x64" is 100 to `Number`
  and 0 to `parseFloat`): `Number(x)` in the `isNaN`/`<= 0` tests
  (backend/controllers/product.controller.js:35-51), `parseFloat` in the
  discount-versus-MRP test (:43) and in the indexed document (:82-83), and
  `parseInt(qty)` in the document (:84).
- EsSync.SyncDoc: `parseInt(p.qty)` of an integer column is taken to give
  the column's value back.
- bcrypt hashing and comparison are parameters (the stored hash, the
  `passwordMatches` function). The signed JWT is a parameter too. Cookie
  parsing and `jwt.verify` middleware are not modelled.
- `Date.now()` is a parameter. multer's disk storage, directory creation
  and the file left on disk by a refused request are not modelled. The
  type filter is applied before the size limit, as multer does.
- `toLowerCase` covers ASCII letters only. `.length` counts characters, not
  UTF-16 code units.
- Search.SimpleSearch and Search.ElasticSearch require page ≥ 1 and
  limit ≥ 1, because the handlers do not validate them. Non-numeric or
  fractional values are not modelled.
- The 500 paths (any thrown error) and the success message strings are not
  modelled. `logout`'s cookie options are not modelled either.
- The React rendering, routing, toasts, axios and the shared auth context
  are not modelled, apart from the one flag the sign-in page sets. The POST
  outcome is a boolean parameter. On a failed POST only a toast is shown,
  which is not modelled.
- `fullImagePath` in the sync script (line 8) is declared but never used.
