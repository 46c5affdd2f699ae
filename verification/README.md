# Breadcrumbs and error status of the bestbags storefront

This project models, in Dafny, the only computational logic in the
storefront's `app.js`: `getBreadcrumbs`, which turns a request's original URL
into the navigation trail that the breadcrumb middleware stores on the
request as `req.breadcrumbs`, and the error handler's choice
of response status (`err.status || 500`) together with the 404 raised for
requests no router handled. Everything else in `app.js` is framework wiring.

Files:

- `wrappers.dfy` — `Option`, standing in for JavaScript's `null`.
- `strings.dfy` — the string operations the deriver uses, with JavaScript's
  semantics: `substring(1)` (`DropFirst`), `split("/")` (`Split`, which keeps
  empty pieces) and first-character upper-casing (`Capitalize`, ASCII only).
  `Join` is the inverse of `Split`.
- `breadcrumbs.dfy` — the `Breadcrumb` record, `Trail` as the recursive
  form of the source's loop that threads the accumulated path,
  `GetBreadcrumbs` as the Home entry followed by the trail of the URL's
  segments, `BuildBreadcrumbs` as the loop itself, and the trail's
  properties: length, fixed head, a single unlinked last entry, cumulative
  links that are prefixes of the URL and strictly grow, and worked cases.
- `errors.dfy` — the failure record, the 404 fallback and the status rule.

`split` keeps empty pieces, so the trail has one entry per piece: `"/"` gives
two entries and `"/products/"` gives three.

## Model

| member | source | states |
|---|---|---|
| Strings.DropFirst | app.js:95 | `url.substring(1)` is the URL minus its first character, and the empty string for the empty URL |
| Strings.Split | app.js:95 | `split("/")` yields at least one piece, one more than there are separators, and no piece contains the separator |
| Strings.JoinSplit | app.js:95 | joining the pieces of a split with the separator restores the string split |
| Strings.SplitJoin | app.js:95 | splitting a join of separator-free pieces gives back exactly those pieces, empty ones included |
| Strings.SplitCharacterised | app.js:95 | the pieces of a split are exactly the separator-free lists that join back to the string (both directions) |
| Strings.ToUpperAscii | app.js:99 | `toUpperCase` on one character, restricted to ASCII: letter i of `a`..`z` becomes letter i of `A`..`Z`, every other character is kept, and the result is never lower-case |
| Strings.ToLowerAscii | app.js:99 | the inverse case mapping, letter i of `A`..`Z` to letter i of `a`..`z`, used to relate a capitalised character to the original |
| Strings.CaseRoundTrip | app.js:99 | upper-casing a lower-case letter and lower-casing it again restores it, and vice versa |
| Strings.Capitalize | app.js:99 | `charAt(0).toUpperCase() + slice(1)` keeps the length, leaves every character after the first unchanged, and makes the first one non-lower-case while agreeing with the original up to case; the empty string stays empty |
| Strings.CapitalizeIdempotent | app.js:99 | capitalising an already capitalised name changes nothing |
| Breadcrumbs.Segments | app.js:95 | `url.substring(1).split("/")` has one piece more than there are slashes after the URL's first character, and no piece contains "/" |
| Breadcrumbs.SegmentsRebuildUrl | app.js:95 | for a URL starting with "/", the segments re-joined behind a leading "/" give the URL back |
| Breadcrumbs.PathPrefixIsJoin | app.js:94-97 | the cumulative path `acc` after n segments, built as "/" + s0 + ... + "/" + s(n-1), is "/" followed by the first n segments joined by "/" |
| Breadcrumbs.PathPrefixShift | app.js:97 | extending the accumulator by the first segment is the same as taking one more segment of the cumulative path |
| Breadcrumbs.TrailCons | app.js:96-102 | one loop iteration: the entry for the first segment, linked to `acc` + "/" + segment unless it is the last, in front of the trail of the rest with the extended accumulator, is the trail of all the segments |
| Breadcrumbs.Trail | app.js:96-102 | the loop over the segments from accumulator `acc` yields one entry per segment, each named by its capitalised segment, linked to `acc` plus the cumulative path through it, except the last, whose url is null |
| Breadcrumbs.Derive | app.js:93-103 | Home followed by the trail: one entry more than segments, entry k named after segment k-1, only the last entry unlinked, every other entry after Home linked to the path of the first k segments |
| Breadcrumbs.GetBreadcrumbs | app.js:92-104 | the trail of a URL has at least two entries, one more than the pieces of `url.substring(1).split("/")`; entry 0 is `{Home, "/"}`; entry k is the capitalised piece k-1; the url is null exactly at the last entry; every entry strictly between is linked to "/" + piece 0 + ... + "/" + piece k-1 |
| Breadcrumbs.CrumbCount | app.js:95-102 | the trail has exactly two entries more than there are slashes after the URL's first character |
| Breadcrumbs.BuildBreadcrumbs | app.js:92-104 | the source's loop, with `acc` starting at "" and set to null on the last iteration and `rtn[i + 1]` written each time, produces the same trail as the recursive definition |
| Breadcrumbs.PathPrefixThenRest | app.js:94-97 | the cumulative path of the first n segments, a "/" and the remaining segments joined rebuild "/" + all segments joined |
| Breadcrumbs.PathPrefixGrows | app.js:97 | a shorter cumulative path is a proper prefix of a longer one and is followed there by "/" |
| Breadcrumbs.CrumbUrlIsPrefixOfUrl | app.js:94-97 | for a URL starting with "/", each linked entry after Home points to a proper prefix of the URL that ends right before one of its slashes |
| Breadcrumbs.CrumbUrlsGrow | app.js:94-97 | the links of the entries strictly grow: an earlier link is a proper prefix of a later one |
| Breadcrumbs.RootPath | app.js:93-102 | `"/"` gives `[{Home, "/"}, {"", null}]` |
| Breadcrumbs.EmptyUrl | app.js:95 | the empty URL gives the same trail as `"/"`, since `substring(1)` of "" is "" |
| Breadcrumbs.SegmentsAre | app.js:95 | any separator-free pieces that join to the URL minus its first character are its segments |
| Breadcrumbs.TrailingSlash | app.js:95-102 | `"/products/"` gives `[{Home, "/"}, {Products, "/products"}, {"", null}]` |
| Breadcrumbs.TwoSegments | app.js:95-102 | `"/products/shoes"` gives `[{Home, "/"}, {Products, "/products"}, {Shoes, null}]` |
| Breadcrumbs.FirstCharacterOnly | app.js:99 | `"/aBC"` names its entry `"ABC"`: only the first character is upper-cased |
| Breadcrumbs.DoubleSlash | app.js:95-102 | `"/a//b"` keeps the empty piece as an entry named "" linked to `"/a/"` |
| Breadcrumbs.SlashInQuery | app.js:95-102 | a "/" inside a query string splits it like any other: `"/p?n=/c"` gives `[{Home, "/"}, {"P?n=", "/p?n="}, {C, null}]` |
| ErrorHandler.NotFound | app.js:75 | `createError(404)`: the failure raised for a request no router handled has message "Not Found" and is answered with status 404 |
| ErrorHandler.StatusOf | app.js:82 | the response status is the failure's status when that is truthy (present and non-zero), otherwise 500; it is never 0 |
| ErrorHandler.FalsyStatusFallsBack | app.js:82 | a missing status and a status of 0 both give 500 |
| ErrorHandler.StatusOfIsStable | app.js:82 | recording the chosen status in the failure and choosing again gives the same status |

`GetBreadcrumbs` is a total function with no requires and no state, which is
the model's statement that the source's function never fails and does not
alter its argument.

## Left out

- Express application setup, the view engine, request logging, body and cookie parsing, static files and `app.listen` (app.js:19-34, 86-89): framework configuration and network I/O.
- Sessions, the MongoDB session store, passport and flash messages (app.js:35-44): state held by external libraries and a database.
- The context middleware (app.js:47-59): it awaits a Mongoose query for the categories sorted by title; the query is not visible here. Its only decision is that a failed query redirects to "/" instead of continuing down the chain.
- The breadcrumb middleware (app.js:62-65) only stores the result of `getBreadcrumbs(req.originalUrl)` on the request; the result is what is modelled.
- Route mounting (app.js:68-71): the routers live in files that are not part of this model and are pure delegation.
- Rendering the error view, the message passed to it and the development-mode detail toggle (app.js:79-84): view rendering; only the status rule is modelled.
- Strings.Capitalize: upper-cases ASCII letters only, because JavaScript's full Unicode `toUpperCase` (including mappings that change length) is out of scope.
- Strings are sequences of Unicode scalar values, not of UTF-16 code units. For a first character outside the Basic Multilingual Plane, `Strings.DropFirst` and `Strings.Capitalize` drop or upper-case the whole character. JavaScript's `substring(1)` would instead keep a lone surrogate, and `charAt(0)` would take only half of the character.
- ErrorHandler.StatusOf: `err.status` is modelled as an optional integer; non-numeric truthy values that JavaScript would pass through (a string, say) are not modelled.
- ErrorHandler.NotFound: the message text comes from the http-errors library, which is not part of this model; "Not Found" is its standard wording.
- Query strings in the URL are not parsed, as in the source: the URL is split on every "/", so a query string is part of the last segment only when it contains no "/" (`SlashInQuery` shows the other case).
