# Micro-CCTV backend: a Dafny model of its decision rules

The backend is an Express/Mongoose REST service for a CCTV shop. This project
models the rules its request handlers apply:

- the global authentication middleware that turns the `Authorization` header
  into a claim set;
- account creation, login, the profile read and the one-time-passcode store
  behind password reset;
- the per-user cart and its quantity-accumulating merge;
- order numbering (`CBC` plus a zero-padded number), order creation with
  catalog snapshots and a total, the paginated listing and the admin update;
- product form normalisation, the creation checks and defaults, the update
  id override and the availability filter;
- reviews (listing, validation, display name, upsert per product and user,
  owner-or-admin deletion) and the guards of the review router.

The database is replaced by values: the user collection is a map keyed by
email, the carts a map keyed by user id, and orders, products, reviews and
passcodes are sequences in insertion order. Each request is one pure function
from the store before to a reply and the store after. The foreign parts enter
as parameters:

- password hashing and comparison;
- token verification;
- the Google userinfo response;
- mail delivery;
- `Math.random()`;
- ECMAScript `StringToNumber` and `Number.prototype.toString`;
- fresh document ids.

Modules:

- `Wrappers` holds `Option`.
- `Seqs` holds the order-preserving filter that `Array.prototype.filter` and
  a query by predicate share.
- `Strings` holds the JavaScript string built-ins the handlers call: `trim`,
  `split`, `replace`, `padStart`, `toLowerCase`, `toString` on integers and
  `parseInt`.
- `Js` holds dynamic request values, truthiness and `Number()`.
- `Identity` holds the user record, the claim set and `isAdmin`.
- `AuthGate` holds the middleware.
- `Accounts` and `Otp` hold the user handlers.
- `Cart` holds the cart handlers.
- `OrderIds` and `Orders` hold order numbering and the order handlers.
- `Products` holds the product handlers.
- `Reviews` and `ReviewRouter` hold the review handlers and routes.

Two behaviours of the source are modelled as written:

- The review router's admin guard admits the roles "admin" and "superadmin".
  The controller behind it admits only "admin". A superadmin therefore passes
  the guard of `GET /reviews/all` and is then refused with 403
  (`ReviewRouter.AllReviewsOnlyForAdmin`).
- `getOrders` gives admins and everybody else the same listing
  (`Orders.ListingIgnoresRole`).

## Model

| member | source | states |
|---|---|---|
| Identity.TextOr | controllers/userControllers.js:323-326 | `o || fallback` on a text field: the value when it is a non-empty string, the fallback otherwise |
| Identity.IsAdmin | controllers/userControllers.js:133-144 | no claims is not admin; otherwise admin exactly when the role is "admin", so "superadmin" and a missing role are refused |
| AuthGate.BearerToken | index.js:44 | only the first occurrence of "Bearer " is cut out of the header; a header without it is passed on unchanged |
| AuthGate.BearerPrefix | index.js:44 | for the usual header "Bearer " + token, verification sees exactly the token |
| AuthGate.Refresh | index.js:56-61 | after a lookup, userId is the record's id; role, isBlock, isEmailVerified and image each take the stored value when it is set and keep the token's value otherwise; every other claim is unchanged |
| AuthGate.Resolve | index.js:48-65 | verified claims without a userId but with an email are looked up: no user is 401, a store failure 500, a found user the refreshed claims; any other claims go on unchanged |
| AuthGate.Authenticate | index.js:38-75 | OPTIONS and header-less requests go on anonymously; a failed verification is 401; the only rejections are 401 and 500; a request never goes on anonymously once a header is present; claims with an email always go on with a durable id |
| AuthGate.LookupOutcomes | index.js:48-65 | claims with an email and no userId: no user is 401, a failing lookup is 500, a found user gives the refreshed claims |
| AuthGate.NoLookupNeeded | index.js:48 | claims that carry a userId, or no email, are attached unchanged, whatever the store would answer |
| Accounts.CreateUser | controllers/userControllers.js:26-50 | a signup is always stored with role "customer" and phone "Not Given" when none is sent; a duplicate email leaves the store unchanged; the store gains exactly the new record and stays keyed by email |
| Accounts.CreateAdmin | controllers/userControllers.js:54-81 | the stored admin has role "admin", a verified email and phone "Not Given"; a duplicate email is 500 with no change |
| Accounts.Login | controllers/userControllers.js:86-127 | unknown email is 404; a password that does not match is 403; on success the claims are exactly email, names, role and the two flags, with no userId and no image, and the reply echoes the stored role |
| Accounts.LoginIgnoresBlock | controllers/userControllers.js:98-114 | the block flag never changes the login outcome |
| Accounts.LoginThenAuthenticate | index.js:48-61 | a password-login token is re-resolved by email on every request: the request carries the record's id and current role, and is admin exactly when the stored role is "admin" |
| Accounts.GoogleLogin | controllers/userControllers.js:147-215 | a failed userinfo call is 500 with no change; a known email signs the stored record; an unknown email creates a "customer" record with a verified email; the reply's role is the signed role |
| Accounts.GetUser | controllers/userControllers.js:309-336 | no claims or no email is 401; an unknown email is 404; a 500 lookup failure is not modelled; otherwise the profile of the stored record, field by field as in `Accounts.ProfileOf` |
| Accounts.ProfileOf | controllers/userControllers.js:322-331 | each of firstName, lastName and phone is the stored text when non-empty and "Not Provided" otherwise; email likewise; role the stored role or "customer"; each flag true iff stored true; image the stored one when non-empty, null otherwise |
| Accounts.ProfileOfCompleteRecord | controllers/userControllers.js:322-331 | a fully filled record is shown exactly as stored |
| Accounts.SignupThenProfile | controllers/userControllers.js:26-50 | a fresh signup reads back through the profile as a customer with its names (or "Not Provided"), its phone or "Not Given", both flags false and no image |
| Accounts.Admins | controllers/userControllers.js:282-289 | the admin listing holds exactly the records whose role is "admin" |
| Accounts.DeleteAdmin | controllers/userControllers.js:293-305 | a record is deleted iff it exists and has role "admin"; otherwise 404; no other record changes |
| Otp.Without | controllers/userControllers.js:226 | deleting by email keeps exactly the records of other emails |
| Otp.CodesFor | controllers/userControllers.js:260 | the codes stored for an email, in issue order, as the query by email and code reads them |
| Otp.CodesForWithout | controllers/userControllers.js:271 | after deleting by email that email holds no code and every other email keeps its codes |
| Otp.CodeFromRandom | controllers/userControllers.js:223 | every generated code lies in 100000..999999 |
| Otp.SendOtp | controllers/userControllers.js:220-250 | after issuing, the email holds exactly the new code and other emails are unchanged; mail failure gives 500 without undoing the store change |
| Otp.ResetPassword | controllers/userControllers.js:254-278 | without an exact (email, code) match, or without the user, it is 404 and nothing changes; on success only that user's password changes and only that email's codes are deleted |
| Otp.InStoreIffCode | controllers/userControllers.js:260 | a record (email, code) exists iff the code is among the email's codes |
| Otp.SupersededCodeFails | controllers/userControllers.js:226-228 | once a second code is issued, resetting with the first one is 404, and with the second one succeeds when the user exists |
| Cart.ResolveUserId | controllers/cartControllers.js:4-11 | the userId claim when set; otherwise the id of the user stored under the email claim; otherwise nobody |
| Cart.ResolveAfterAuthenticate | controllers/cartControllers.js:4-11 | behind the middleware, an email-only token whose email is stored resolves to that record's id, the same caller the cart's own email fallback names |
| Cart.FindLine | controllers/cartControllers.js:48 | the first line for the product; when there is none, no line has the product |
| Cart.ValidPayload | controllers/cartControllers.js:32-41 | a payload passes iff the item is present with a product id, a name and an image, and the quantity and price are numbers |
| Cart.Merge | controllers/cartControllers.js:48-62 | an existing line gains the delta and is removed when it reaches 0 or less; otherwise a new line is appended only for a positive delta, and the items are unchanged for any other delta |
| Cart.MergeKeepsWellFormed | controllers/cartControllers.js:48-62 | one line per product with positive quantities stays so after a merge |
| Cart.MergeQuantities | controllers/cartControllers.js:48-62 | the product's quantity moves by the delta with a floor at zero (a missing line reads 0); every other product's quantity is unchanged |
| Cart.AddThenRemoveRestores | controllers/cartControllers.js:48-62 | adding n of a product not in the cart and then -n restores the items |
| Cart.GetCart | controllers/cartControllers.js:13-19 | 401 exactly when no caller resolves; otherwise the caller's items, or [] without a cart; the store is unchanged |
| Cart.AddToCart | controllers/cartControllers.js:26-65 | 401 without a caller and 400 for an invalid payload, both with no change; otherwise only the caller's cart changes, to the merge of its items (or of [] without a cart) |
| Cart.ClearCart | controllers/cartControllers.js:72-78 | 401 exactly when no caller resolves; otherwise exactly the caller's cart is removed |
| Cart.AddToCartKeepsCartsWellFormed | controllers/cartControllers.js:43-64 | every cart in the store keeps one line per product with positive quantities across any add |
| Cart.ClearThenGetIsEmpty | controllers/cartControllers.js:77 | after a clear, the same caller reads [] |
| OrderIds.FormatOrderId | controllers/orderControllers.js:29-30 | an order id is "CBC" followed by at least five characters |
| OrderIds.NextOrderId | controllers/orderControllers.js:20-31 | an empty store gives "CBC00202"; every id produced starts with "CBC" and has at least eight characters |
| OrderIds.FormatRoundTrip | controllers/orderControllers.js:26-27 | stripping "CBC" and parsing the canonical id of n gives back n |
| OrderIds.FormatInjective | controllers/orderControllers.js:29-30 | different numbers have different ids |
| OrderIds.NextOfFormatted | controllers/orderControllers.js:24-31 | the successor of the id of n is the id of n + 1, at every width |
| OrderIds.NextFromSuffix | controllers/orderControllers.js:26-30 | the successor depends only on the parsed suffix |
| OrderIds.SeedIsFormatted | controllers/orderControllers.js:22 | the seed "CBC00202" is the canonical id of 202 |
| OrderIds.SuccessorOfSeed | controllers/orderControllers.js:24-31 | "CBC00202" is followed by "CBC00203" |
| OrderIds.SuccessorGrowsPastFiveDigits | controllers/orderControllers.js:29 | "CBC99999" is followed by "CBC100000": padding never truncates |
| OrderIds.UnparsableSuffix | controllers/orderControllers.js:27-30 | a latest id whose suffix does not parse yields "CBC00NaN" |
| OrderIds.CanonicalAppend | controllers/orderControllers.js:20-31 | the ids of a store numbered only by order creation are 202, 203, ... in creation order, and the next id keeps them so |
| OrderIds.CanonicalDistinct | controllers/orderControllers.js:20-31 | such a sequence of ids holds no id twice |
| Orders.FindProduct | controllers/orderControllers.js:43-45 | a found product is in the catalog with that id; none is found iff no catalog product has it |
| Orders.CollectLines | controllers/orderControllers.js:33-64 | lines exist iff every requested product is in the catalog; then they are the snapshots in request order and the total is their sum |
| Orders.SnapshotTotal | controllers/orderControllers.js:62 | the sum over the snapshot lines equals the sum of catalog price times requested quantity |
| Orders.CreateOrder | controllers/orderControllers.js:7-104 | 404 without claims; 400 for non-array items or an unknown product; neither saves anything; otherwise exactly one order is appended with the next id, the snapshots, their total, the caller's email and "first last" name, and the request's address and phone |
| Orders.CreatedTotal | controllers/orderControllers.js:34-62 | an accepted order's total is the catalog price times quantity summed over the request |
| Orders.Ids | controllers/orderControllers.js:20 | the ids of the collection, position by position |
| Orders.CreationKeepsCanonical | controllers/orderControllers.js:20-84 | appending a created order keeps the collection's ids canonical, hence distinct |
| Orders.PageParam | controllers/orderControllers.js:109-110 | the parsed value when it parses to a non-zero integer, the default otherwise |
| Orders.CeilDiv | controllers/orderControllers.js:127 | `Math.ceil(count / limit)` characterised by its bounds, for either sign of the limit |
| Orders.Newest | controllers/orderControllers.js:129 | the collection in reverse creation order |
| Orders.Window | controllers/orderControllers.js:129 | the newest-first entries from the skip on, at most the limit's magnitude of them |
| Orders.Served | controllers/orderControllers.js:126-135 | a 200 listing with the window for the skip and limit, and a page count with (pages - 1) * limit < count <= pages * limit |
| Orders.GetOrders | controllers/orderControllers.js:107-157 | 404 exactly without claims; 500 exactly for a negative skip; otherwise the listing for skip (page - 1) * limit |
| Orders.ListingIgnoresRole | controllers/orderControllers.js:124-146 | admins and other callers get the same listing |
| Orders.EveryOrderOnItsPage | controllers/orderControllers.js:127-129 | with a positive limit, the order at newest-first position m is entry m % limit of page m / limit + 1, and that page is within the page count |
| Orders.FindOrder | controllers/orderControllers.js:166-167 | the first order with the id, or none iff no order has it |
| Orders.UpdateOrder | controllers/orderControllers.js:160-201 | a non-admin gets 403 and an unknown id 404, with no change; otherwise only the first matching order changes, and only its status and notes, each to the sent value when one is sent |
| Orders.UpdateIdempotent | controllers/orderControllers.js:166-169 | sending the same update twice leaves the collection as sending it once |
| Orders.UpdateKeepsIds | controllers/orderControllers.js:168 | an update never changes an order id |
| Strings.Trim | controllers/productControllers.js:26 | the middle slice between a blank prefix and a blank suffix, with no blank at either end, empty iff the string is all blank |
| Strings.TrimKeepsAbsent | controllers/productControllers.js:26 | trimming never introduces a character |
| Strings.Split | controllers/productControllers.js:25 | the pieces hold no separator |
| Strings.SplitHeadPrefix | controllers/reviewControllers.js:63 | the first piece is the longest separator-free prefix: what follows it is the end or a separator |
| Strings.JoinSplit | controllers/productControllers.js:25 | joining the pieces back with the separator gives the string |
| Strings.SplitJoin | controllers/productControllers.js:25 | splitting a join of separator-free pieces gives the pieces |
| Strings.ReplaceFirst | controllers/orderControllers.js:26 | only the first occurrence of the pattern is replaced; without one the string is unchanged |
| Strings.PadStart | controllers/orderControllers.js:29 | fill characters in front up to the width; a longer string is kept whole |
| Strings.Lower | controllers/productControllers.js:19 | the ASCII letters lower-cased, position by position |
| Strings.Decimal | controllers/orderControllers.js:29 | digits only, no leading zero, and the digits read back as the number |
| Strings.ParseInt | controllers/orderControllers.js:27 | `parseInt` with no radix: leading blanks skipped, an optional sign, hexadecimal after "0x", decimal otherwise, stopping at the first non-digit; none (NaN) without a digit |
| Strings.ParseDigits | controllers/orderControllers.js:27 | `parseInt` of a digit string is the digits' value |
| Strings.ParsePaddedDecimal | controllers/orderControllers.js:27-29 | `parseInt` of a zero-padded numeral is its number |
| Products.TrimAll | controllers/productControllers.js:26 | every piece trimmed, in order |
| Seqs.Keep | controllers/productControllers.js:27 | the filter's result holds exactly the accepted elements and is no longer than its input |
| Seqs.KeepConcat | controllers/productControllers.js:27 | filtering distributes over concatenation: order and repetitions are kept |
| Seqs.KeepSingle | controllers/productControllers.js:27 | one element is kept iff it is accepted |
| Seqs.KeepCommute | controllers/productControllers.js:181-190 | two filters applied in either order give the same sequence |
| Products.NonBlank | controllers/productControllers.js:27 | exactly the non-empty pieces, in order and with repetitions (a `Seqs.Keep`) |
| Products.AltNames | controllers/productControllers.js:23-28 | exactly the non-empty trimmed comma-separated pieces |
| Products.AltNamesOfJoin | controllers/productControllers.js:23-28 | for comma-free pieces joined by commas, the aliases are the pieces trimmed with blank ones dropped, in order and with repetitions |
| Products.AltNamesOfPiece | controllers/productControllers.js:23-28 | a comma-free string gives its trimmed self as the one alias, or none when blank |
| Products.AltNamesClean | controllers/productControllers.js:23-28 | every alias is non-empty, has no blank at either end and holds no comma |
| Products.Normalize | controllers/productControllers.js:8-39 | the sent keys plus altNames and images, each field holding its normalised value |
| Products.NormalizeRules | controllers/productControllers.js:12-36 | the three numeric fields become numbers only when present; a string isAvailable becomes whether its lower case is "true", and any other value is kept; altNames and images always end up arrays, arrays are kept and a string altNames becomes its alias list; every other field is kept |
| Products.NormalizeValue | controllers/productControllers.js:12-36 | the per-field rule: numeric fields to numbers when present, a string isAvailable to a boolean, a string altNames to its alias list, altNames and images forced to arrays, other fields kept |
| Products.NormalizeValueStable | controllers/productControllers.js:12-36 | normalising a field twice gives what normalising it once gives |
| Products.NormalizeIdempotent | controllers/productControllers.js:8-39 | normalising a normalised body changes nothing |
| Products.NormalizedAltNamesClean | controllers/productControllers.js:23-31 | the normalised alias list is an array, and one parsed from a string holds only clean aliases |
| Products.FirstMissing | controllers/productControllers.js:52-57 | a falsy required key such that every key before it is truthy; none iff all are truthy |
| Products.Complete | controllers/productControllers.js:52-69 | 400 naming the first falsy required field, or for a NaN price or labellPrice; otherwise 200 with a NaN stock replaced by 0, a non-boolean isAvailable replaced by true, and every other field kept |
| Products.Defaults | controllers/productControllers.js:63-69 | the stock and availability defaults, with every other field kept |
| Products.CompleteIdempotent | controllers/productControllers.js:52-69 | an accepted document passes the checks again unchanged |
| Products.CreateProduct | controllers/productControllers.js:43-82 | a non-admin gets 403; an admin's body is normalised and then checked and completed |
| Products.UpdateProduct | controllers/productControllers.js:125-147 | a non-admin gets 403; 200 iff a product has the URL id, otherwise 404; the written document has the URL id and the normalised body otherwise |
| Products.UpdateIgnoresBodyId | controllers/productControllers.js:133-134 | whatever product id the body carries, the update writes the same document |
| Products.Available | controllers/productControllers.js:93 | exactly the available products, in catalog order (a `Seqs.Keep`) |
| Products.ListProducts | controllers/productControllers.js:86-102 | an admin, or a request whose includeUnavailable is "true" in any case, sees every product; anyone else sees the available ones in catalog order |
| Products.Matching | controllers/productControllers.js:181-186 | exactly the products the query matches, in catalog order (a `Seqs.Keep`) |
| Products.SearchProducts | controllers/productControllers.js:175-198 | exactly the matching products, restricted to available ones under the same rule as the listing |
| Products.SearchIsFilteredListing | controllers/productControllers.js:175-198 | a search answers the listing for the same caller and flag narrowed to the matching products, in the same order |
| Reviews.NewestFirst | controllers/reviewControllers.js:11 | the reviews in reverse creation order, the same reviews |
| Reviews.OfProduct | controllers/reviewControllers.js:11 | exactly the reviews of the product, in creation order (a `Seqs.Keep`) |
| Reviews.OfProductAppend | controllers/reviewControllers.js:11 | a new review joins the end of its own product's reviews and changes no other product's |
| Reviews.ListReviews | controllers/reviewControllers.js:6-17 | 400 iff productId is missing or empty; otherwise the product's reviews in reverse creation order |
| Reviews.NewestFirstSnoc | controllers/reviewControllers.js:11 | the reverse of a sequence with one more review starts with that review followed by the reverse of the rest |
| Reviews.ListReviewsAfterCreate | controllers/reviewControllers.js:11 | a review created for the product is put in front of the previous listing; one for another product leaves it as it was |
| Reviews.NewestReviewListedFirst | controllers/reviewControllers.js:11 | the review created last heads its product's listing |
| Reviews.GetAllReviews | controllers/reviewControllers.js:20-31 | 403 iff the caller is not admin; otherwise every review, newest first |
| Reviews.RequesterId | controllers/reviewControllers.js:39 | present iff one of userId, id or _id is set; userId wins when set |
| Reviews.Rating | controllers/reviewControllers.js:45-48 | accepted iff `Number(rating)` is finite and within 1..5, and then it is that number |
| Reviews.CleanComment | controllers/reviewControllers.js:50 | a truthy comment gives the trim of its text, a falsy one ""; the result has no blank at either end |
| Reviews.LocalPart | controllers/reviewControllers.js:63 | the longest prefix of the email holding no "@": it is followed by "@" or the end |
| Reviews.UserName | controllers/reviewControllers.js:59-64 | the name claim; else the trimmed "first last" when either part is set; else the email's local part; else "User"; never empty |
| Reviews.FindKey | controllers/reviewControllers.js:67-68 | the first review with the (productId, userId) key, or none iff no review has it |
| Reviews.Check | controllers/reviewControllers.js:39-56 | 401 iff no requester id; no refusal iff the product id is set, the rating valid and the trimmed comment non-empty and at most 1000 characters |
| Reviews.Stored | controllers/reviewControllers.js:67-71 | the written review is the submitted one with the id of the first review with its key when there is one, and unchanged otherwise |
| Reviews.Upsert | controllers/reviewControllers.js:67-71 | the written review is in the store; everything else comes from before; reviews without the key are kept; the length grows only for a new key |
| Reviews.Submit | controllers/reviewControllers.js:34-81 | 401 and 400 refusals change nothing; an accepted submission is 201 and writes the trimmed comment, the rating and the display name under the requester's key, with the fresh id for a new key and the existing review's id otherwise |
| Reviews.SubmitIsUpsert | controllers/reviewControllers.js:67-71 | an accepted submission is the upsert of its candidate review |
| Reviews.UpsertAgain | controllers/reviewControllers.js:67-71 | upserting twice under one key keeps the document id and the length |
| Reviews.FindKeyFirst | controllers/reviewControllers.js:67-68 | a position holding the key with none before it is what the lookup returns |
| Reviews.UpsertKeepsUniqueKeys | models/review.js:14 | an upsert keeps at most one review per (productId, userId) |
| Reviews.SubmitKeepsUniqueKeys | models/review.js:14 | a submission keeps at most one review per (productId, userId) |
| Reviews.ResubmitOverwrites | controllers/reviewControllers.js:67-71 | a second accepted submission for the same key overwrites the first: same id, same length, the new rating and comment |
| Reviews.FindReview | controllers/reviewControllers.js:87 | the first review with the id, or none iff no review has it |
| Reviews.IsOwner | controllers/reviewControllers.js:91-93 | the requester owns a review iff it has a non-empty requester id equal to the review's userId |
| Reviews.DeleteReview | controllers/reviewControllers.js:84-105 | an unknown id is 404; deletion happens iff the requester owns the review or is admin; otherwise 403; a refusal changes nothing; a deletion removes exactly the found review |
| Reviews.DeleteRemovesOnlyTarget | controllers/reviewControllers.js:99 | with unique ids, the deleted review is gone and every other review remains |
| Reviews.StrangerCannotDelete | controllers/reviewControllers.js:93-97 | a non-admin who does not own the review gets 403 and the store is unchanged |
| ReviewRouter.RequireAuth | routers/reviewRouter.js:13-18 | continues iff claims are attached; otherwise 401 |
| ReviewRouter.AdminRole | routers/reviewRouter.js:20-25 | the guard's role test: claims attached and the role "admin" or "superadmin" |
| ReviewRouter.RequireAdmin | routers/reviewRouter.js:20-25 | continues iff the role is "admin" or "superadmin"; otherwise 403 |
| ReviewRouter.Route | routers/reviewRouter.js:28-37 | the listing is public; every other route is 401 without claims; the admin listing is 403 for roles the guard refuses and is 200 only for an admin; posting and deleting answer as their handlers |
| ReviewRouter.ListingIsPublic | routers/reviewRouter.js:28 | who asks makes no difference to the product listing |
| ReviewRouter.AllReviewsNeedsLoginFirst | routers/reviewRouter.js:31 | an anonymous caller of the admin listing gets 401 before any role check |
| ReviewRouter.AllReviewsOnlyForAdmin | routers/reviewRouter.js:31 | the admin listing is 200 iff the role is "admin"; a "superadmin" passes the guard and is refused with 403 by the handler |

## Left out

- Password hashing, token signing and verification, the Google userinfo call, mail delivery and `Math.random()` are foreign code or I/O. They are parameters: a digest, a `matches` predicate, a `verify` result, an optional userinfo record, a `delivered` flag and a draw in [0, 1).
- The database driver is left out: connection setup, Mongoose casting and schema validation on save, and `$regex` matching. Search takes the match predicate as a parameter.
- Store failures that only surface as 500 replies are left out: a failing save, and a `findById` with a malformed id. The exception is the middleware's lookup failure, which is modelled.
- Concurrent requests are left out. Each request is atomic, so the read-modify-write races of order numbering and cart updates do not arise. The same holds for the unique-index race behind the 409 reply of review submission.
- The model files `models/user.js`, `models/cart.js`, `models/order.js` and `models/otp.js` are not part of this model. Their defaults, such as an order's date and status, are not modelled.
- Supplier, employee, technician, package and repair handlers are straight store reads and writes behind the same `isAdmin` gate. So are `getProductInfo` and `deleteProduct`.
- Numbers are exact reals; floating-point rounding of prices, totals and ratings is not modelled. `Number()` on strings and number-to-string conversion are parameters. Cart numbers are finite JSON numbers.
- Cart.ValidPayload: a quantity or price of Infinity (a JSON body such as `1e999`) is refused with 400 here, while the source, which only tests `typeof` for "number", accepts it.
- Strings.Lower: lower-cases the ASCII letters only, since full Unicode case mapping is not modelled.
- Strings.ParseInt: reads an unbounded integer, with no loss of precision past 2^53.
- String lengths count characters, not UTF-16 code units.
- Query parameters that arrive as arrays are not modelled; `productId` and `includeUnavailable` are optional strings.
- Products.UpdateProduct: states the written document and the status, not the catalog afterwards. The catalog entry's shape differs from a submitted form.
- Orders.CreateOrder: an item without a `productId`, or with a non-numeric `qty`, is not modelled. Items carry a product id and a numeric quantity.
- Orders.UpdateOrder: a body field sent as `null` is treated like an absent one. Mongoose drops `undefined` fields from an update, and a `null` field would clear the value instead.
- OrderIds.CanonicalDistinct: distinctness is stated for the id sequence of a store numbered only by order creation, not for an arbitrary store.
- Reviews.Submit: the clauses about the other reviews of the store hold under the unique (productId, userId) index. With duplicate keys, which the index forbids, only the first one is overwritten.
