# Request resolution of three Node static servers

This project models how the three static servers of the repository turn
a request into a response. Each variant is a pure function from a method,
a URL and a filesystem to a status, a header map and a body. The three
variants are modelled separately; they are not unified.

- `server.js` (module `HttpServer`) strips the query and reads `/` as
  `/index.html`. Any missing path falls back to `index.html`, sent as
  HTML with the no-cache triplet. Only an existing file gets the MIME
  type of its extension, the cache policy of its extension and the CORS
  and security headers. Any failure becomes a fixed 500 text.
- `simple-server.js` (module `SimpleServer`) sets the CORS headers
  first, answers OPTIONS with an empty 200, and answers `/` with the
  entry document. It refuses a joined path that does not start with the
  server's directory string. A missing path without a `.` gets the entry
  document; any other missing path gets a 404 that names it. Existing
  files get `Cache-Control: public, max-age=3600` or `no-cache`.
- `express-server.js` (module `ExpressServer`) runs a cache middleware
  keyed on the extension of the raw URL, the static middleware, the
  `/sw.js` and `/manifest.json` routes, the catch-all that sends
  `index.html`, the router's own reply to OPTIONS, and the error handler.
  Routes match the pathname of the URL: the part before its first `?`
  or `#`. The catch-all's `*` pattern decodes that pathname for every
  method; when `decodeURIComponent` throws on a malformed escape such as
  `/%E0`, the error handler answers with its 500 page.

Shared definitions:

- `Text` holds query stripping, JavaScript's `split`/`join` on one
  character, ASCII lowercasing and the first-occurrence `replace`.
- `PosixPath` holds Node's POSIX `path.extname` and `path.join`. A
  directory is its list of canonical segments.
- `Http` holds the filesystem, `existsSync`/`readFileSync`, the body and
  response types, and the header sets more than one server uses.
- `Uri` says when `decodeURIComponent` accepts a string: every `%`
  starts an escape, and escaped bytes form well-formed UTF-8 (section 4
  of RFC 3629).
- `Wrappers` holds `Option` and `Result`.

The filesystem is a map from paths to `File(content)` or `Dir`. Keys
are looked up as given; the servers only ever query canonical absolute
paths, the results of `path.join`. A path that is not a key does not
exist. Reading a directory
fails with `EISDIR`; reading a missing path fails with `ENOENT`.

Several things are parameters of the resolving functions:

- the filesystem;
- the server's directory (`__dirname`), as a `Directory`;
- the far-future `Expires` string computed from the clock
  (`farExpires`);
- for Express, whether `express.static` found something to send
  (`staticServes`).

Some bodies are named rather than spelled out. `EntryBody(index)` stands
for `SimpleServer.EntryDocument(index)`, the import-map rewrite of
`index.html`. `FixedPage(page)` stands for `ExpressPages.PageText(page)`,
one of the two HTML pages express-server.js writes inline.
`SentFile(path)` is a file handed to Express's `res.sendFile`.

`server.js` has no confinement check at all:
`HttpServer.ParentSegmentsLeaveRoot` shows that `/../name` is served from
the parent of the server's directory.

## Model

| member | source | states |
|---|---|---|
| Text.StripQuery | server.js:54 | The lookup path is a prefix of the URL with no `?`, and the URL continues with `?` wherever the path stops short |
| Text.StripQueryIsFirstPiece | server.js:54 | The stripped path equals `url.split('?')[0]` for every URL |
| Text.StripQueryOfQueryFree | server.js:54 | A URL without `?` is used unchanged |
| Text.StripQueryIdempotent | simple-server.js:85 | Stripping an already stripped path changes nothing |
| Text.Split | server.js:54 | `split` on one character yields at least one piece and no piece holds the separator |
| Text.IntercalateSplit | server.js:54 | Joining (`Intercalate`, JavaScript's `join`) the pieces of a split with the separator restores the string |
| Text.SplitIntercalate | server.js:62 | Splitting the join of separator-free pieces restores the pieces |
| Text.SplitConcat | server.js:62 | A separator between two strings splits into the pieces of each side |
| Text.ToLower | server.js:87 | Lowercasing keeps the length, turns every capital into its small letter, keeps every other character, and leaves no capital |
| Text.ToLowerIdempotent | express-server.js:60 | Lowercasing an already lowercased string changes nothing |
| Text.FirstOccurrenceFrom | simple-server.js:49-75 | The index found is an occurrence at or after the start, and there is no earlier one; none is found only when there is no occurrence |
| Text.ReplaceFirst | simple-server.js:49-75 | A string without the pattern is returned unchanged; otherwise only the first occurrence is replaced |
| Text.ReplaceFirstWrapping | simple-server.js:49-75 | Replacing the first occurrence by a text that wraps it keeps the pattern exactly when it was present, and puts the wrapper's prefix before it |
| PosixPath.TrimTrailingSlashes | server.js:87 | Only trailing `/` characters are removed, all of them |
| PosixPath.LastSegment | server.js:87 | The part after the last `/` is a `/`-free suffix preceded by `/` or the start |
| PosixPath.BaseName | server.js:87 | The base name is `/`-free, ends the path with its trailing `/` removed, and is preceded there by `/` unless it is all of it |
| PosixPath.LastDot | server.js:87 | The index of the last `.`, or none when there is no `.` |
| PosixPath.ExtName | server.js:87 | `path.extname` is non-empty exactly when the base name has a `.` after its first character and is not `..`; it then starts with its only `.` and ends the base name |
| PosixPath.ExtNameWithoutDot | simple-server.js:122 | A path with no `.` anywhere has an empty extension |
| PosixPath.Walk | server.js:62 | Normalising `/`-free parts onto canonical segments gives canonical segments |
| PosixPath.Render | server.js:62 | A rendered path is absolute |
| PosixPath.Join | server.js:62 | `path.join` onto an absolute directory gives an absolute path |
| PosixPath.JoinWalksFromDirectory | server.js:62 | `path.join(dir, p)` is `p`'s parts normalised on top of `dir`'s segments, keeping `p`'s trailing `/` |
| PosixPath.WalkRenderedDirectory | server.js:62 | Normalising a directory's own path gives its segments back |
| PosixPath.WalkWithoutParentExtends | simple-server.js:110 | Without a `..` part, joining never leaves the directory |
| PosixPath.JoinParentThen | server.js:62 | Joining `/..` and normal segments onto a directory lands in its parent |
| PosixPath.SiblingJoin | simple-server.js:110 | `path.join(dir, "/../name")` names `name` beside the directory |
| PosixPath.WithinDirectoryIsSegmentPrefix | simple-server.js:113 | The segment-boundary test on a joined path holds exactly when its segments extend the directory's |
| PosixPath.SiblingOutsideDirectory | simple-server.js:113 | A sibling whose name extends the directory's last segment starts with the directory's string yet lies outside it |
| PosixPath.SiblingString | simple-server.js:113 | The string of `parent/last+suffix` continues that of `parent/last` with the suffix, not with `/` |
| Http.Lookup | server.js:65 | A path ending in `/` resolves exactly when a directory is there, and then to that directory; any other path resolves to what the map holds |
| Http.ReadFile | server.js:86 | `readFileSync` gives the file's contents, fails with `EISDIR` exactly on a directory, and fails with `ENOENT` naming the path exactly when `existsSync` (`Exists`) is false |
| Http.TypeFor | server.js:88 | The content type is always a table value or `application/octet-stream`; when no table value is the binary type, it is the binary type exactly for an extension the table lacks |
| Http.CarriesRight | server.js:115-122 | A header union carries every header of its right operand |
| Http.CarriesLeft | server.js:115-122 | A header union keeps left-operand headers that the right operand does not name |
| Http.CarriesNoneUnion | server.js:70-80 | A union names no header of a set that neither operand names |
| HttpServer.Extension | server.js:87 | The lookup extension is empty exactly when the base name has none; otherwise it starts with its only `.`; it holds no capital letter |
| HttpServer.BinaryExactlyForUnknown | server.js:88 | An existing file is typed `application/octet-stream` exactly when its extension is not one of the nineteen in the table |
| HttpServer.RequestPath | server.js:54-59 | The lookup path is the stripped URL, except that `/` becomes `/index.html`; it is never `/` |
| HttpServer.Resolve | server.js:51-131 | Status is 200, 404 or 500. A 200 is exactly a file body, read from the joined path or the index. A 404 happens exactly when neither exists. A 500 happens exactly when the path, or the fallback index, is a directory; it is always the fixed text |
| HttpServer.QueryStringIgnored | server.js:54 | The response to a URL equals the response to its stripped path |
| HttpServer.MethodIgnored | server.js:51-131 | Every method gets the same response |
| HttpServer.RootReadsIndex | server.js:57-59 | `/` is answered as `/index.html`; no other path is rewritten |
| HttpServer.MissingPathServesIndex | server.js:65-77 | A missing path with an index is 200 with the index contents, HTML and the no-cache triplet, whatever its extension |
| HttpServer.MissingPathWithoutIndexIsNotFound | server.js:78-82 | A missing path without an index is a plain-text 404 |
| HttpServer.FileHeadersCarry | server.js:115-122 | An existing file's headers (`FileHeaders`) carry its content type, its cache headers, the three CORS headers and the five security headers, with their values |
| HttpServer.HeaderSetsDisjoint | server.js:115-122 | The CORS, cache and security groups and Content-Type name different headers |
| HttpServer.FileHeadersCacheOnly | server.js:115-122 | An existing file's response has no cache header beyond those of its cache set |
| HttpServer.CacheHeadersByExtension | server.js:91-103 | The cache set (`CacheHeaders`) names only cache headers: a year for the twelve listed extensions, the no-cache triplet for `.html`, and no cache header for any other extension |
| HttpServer.ExistingFileResponse | server.js:85-124 | An existing file is a 200 with its contents and the headers of its lowercased extension |
| HttpServer.ExistingFileServed | server.js:85-124 | An existing file is served with its contents, the table's MIME type or the binary type, and every CORS and security header |
| HttpServer.ExistingFileCachePolicy | server.js:91-122 | An existing file's response carries exactly the cache headers its extension calls for |
| HttpServer.IndexHeadersCarryNone | server.js:70-75 | The fallback's headers name no CORS or security header |
| HttpServer.TextHeadersCarryNone | server.js:79 | The 404 and 500 headers name no CORS or security header |
| HttpServer.SecurityHeadersOnlyOnFiles | server.js:65-130 | The fallback, the 404 and the 500 carry no CORS or security header |
| HttpServer.DirectoryIsServerError | server.js:126-130 | A directory reaches `readFileSync` and gives the fixed 500, which holds no error message |
| HttpServer.ParentSegmentsLeaveRoot | server.js:62-86 | With no confinement check, `/../name` serves the file `name` beside the server's directory |
| SimpleServer.Reply | simple-server.js:88-90 | Every response carries the three CORS headers together with the headers written with its status |
| SimpleServer.InternalError | simple-server.js:158-162 | The 500 body is the fixed prefix followed by the thrown error's message, with the CORS headers |
| SimpleServer.IndexResponse | simple-server.js:99-107 | The entry document is a 200 exactly when `index.html` is a file, built from its text; otherwise it is the 500 of the failed read |
| SimpleServer.BinaryExactlyForUnknown | simple-server.js:140 | An existing file is typed `application/octet-stream` exactly when its extension is not one of the thirteen in the table |
| SimpleServer.SegmentTestImpliesPrefixGuard | simple-server.js:113 | The string guard (`PrefixGuard`) admits every joined path that lies in the directory |
| SimpleServer.FileHeaders | simple-server.js:143-153 | An existing file's headers agree with every CORS header they name |
| SimpleServer.Serve | simple-server.js:119-156 | Past the guard: a 404 exactly when the path is missing and holds a `.`; a file body only from the joined path, with that file's contents |
| SimpleServer.Handle | simple-server.js:81-163 | Every response carries the CORS headers. A 403 happens exactly for a non-OPTIONS, non-root path the guard refuses. A file body is the joined path's file, inside the directory under the segment guard |
| SimpleServer.Resolve | simple-server.js:110-117 | As written: a 403 exactly when the joined path does not start with the directory's string; every response carries the CORS headers |
| SimpleServer.ResolveConfined | simple-server.js:113 | Corrected: a 403 exactly when the joined segments do not extend the directory's, and every file served lies inside the directory |
| SimpleServer.PreflightIsEmpty | simple-server.js:92-96 | OPTIONS gets an empty 200 with only the CORS headers, for every URL and filesystem |
| SimpleServer.QueryStringIgnored | simple-server.js:85 | The response to a URL equals the response to its stripped path |
| SimpleServer.RootServesEntryDocument | simple-server.js:99-107 | `/` is a 200 with the entry document, HTML and `Cache-Control: no-cache` |
| SimpleServer.RootIsIndexResponse | simple-server.js:99-107 | `/` is answered by reading the entry document, whatever the guard would say |
| SimpleServer.UnreadableIndex | simple-server.js:44-46 | An index that is missing or a directory is the 500 of `ENOENT` naming its path or of `EISDIR` |
| SimpleServer.RootWithoutIndexIsInternalError | simple-server.js:158-162 | Without a readable `index.html`, `/` is a 500 whose body carries Node's message for the failed read |
| SimpleServer.DotlessMissingPathServesEntryDocument | simple-server.js:120-130 | A missing path with no `.` anywhere is answered exactly as `/` is |
| SimpleServer.MissingFileIsNotFound | simple-server.js:131-134 | A missing path with a `.` is a 404 whose body ends with the requested path |
| SimpleServer.RouteToServe | simple-server.js:110-120 | A path other than `/` that passes the guard goes to the file branch |
| SimpleServer.ServeExistingFile | simple-server.js:137-156 | An existing file gets its contents, the table's type or the binary type, and one Cache-Control (`CacheControlFor`): `public, max-age=3600` for the nine listed extensions, `no-cache` otherwise |
| SimpleServer.FileReplyHeaders | simple-server.js:143-155 | A file reply carries the content type and Cache-Control it was given |
| SimpleServer.ServedFileBody | simple-server.js:137-156 | An existing file is answered with 200 and its contents |
| SimpleServer.SiblingRequest | simple-server.js:110-113 | `/../` and the sibling's name has no query, joins to the sibling, passes the string guard and fails the segment test |
| SimpleServer.ExistingFileServed | simple-server.js:137-156 | The same, end to end from the request |
| SimpleServer.DirectoryIsInternalError | simple-server.js:138 | A directory passes the existence test and gives the 500 with the `EISDIR` message |
| SimpleServer.RefusedPathIsForbidden | simple-server.js:113-117 | A refused path is the fixed 403, whatever the filesystem holds |
| SimpleServer.EntryDocumentKeepsScript | simple-server.js:44-78 | The entry document (`EntryDocument`, `getIndexHTML`) keeps the module script tag exactly when the index has it, now preceded by the import map; without the tag it is the index unchanged |
| SimpleServer.GuardsAgreeInside | simple-server.js:113 | For paths inside the directory the as-written and corrected handlers give the same response |
| SimpleServer.CorrectedGuardOnlyRefuses | simple-server.js:113 | Wherever the two handlers differ, the corrected one answers 403 for a path outside the directory |
| SimpleServer.PrefixGuardAdmitsSibling | simple-server.js:113 | As written, `/../app-data` (with the server in `/srv/app`) serves a file outside the directory; the corrected guard refuses it |
| ExpressServer.Pathname | express-server.js:85-99 | The routed pathname is a prefix of the URL with no `?` or `#`, and the URL continues with one of them wherever it stops short |
| ExpressServer.PathnameWithoutFragment | express-server.js:85-99 | Without a `#`, the routed pathname is the query-stripped path |
| ExpressServer.Resolve | express-server.js:59-209 | The static middleware answers exactly a GET or HEAD of a decodable pathname it serves, taking over with the cache middleware's headers. A pathname that does not decode is the error handler's 500 for every method. Otherwise methods other than GET, HEAD and OPTIONS reach no handler. Responses are 200, 404 or 500; a file is sent only when it exists and is the worker, the manifest or the index; a 500 means an undecodable pathname or a matched worker or manifest file that is missing |
| ExpressServer.Dispatch | express-server.js:77-209 | The same, for any headers the cache middleware set |
| ExpressServer.Routes | express-server.js:85-155 | The three `app.get` handlers: 200, 404 or 500; only existing files are sent; the catch-all's decoding failure is the 500 page; otherwise a 500 only for a matched route's missing file |
| ExpressServer.RoutedPathsDecode | express-server.js:85-99 | A path that matches a literal route decodes, so the decoding failure arises only at the catch-all |
| ExpressServer.UndecodablePathIsServerError | express-server.js:99-209 | A pathname that does not decode is the 500 page with the headers set so far, for every method, whatever the static middleware holds |
| ExpressServer.TruncatedEscapeIsServerError | express-server.js:99-209 | `/%E0` is the 500 page for every method |
| ExpressServer.ErrorPageKeepsHeaders | express-server.js:158-160 | The 500 page of an undecodable pathname keeps every header set before it but Content-Type |
| Uri.DecodesWithoutPercent | express-server.js:99 | A pathname without `%` always decodes |
| Uri.PercentStartsEscape | express-server.js:99 | In a pathname that decodes, every `%` starts an escape of two hexadecimal digits |
| Uri.MalformedEscapes | express-server.js:99 | `/%`, `/%E0` and `/a%zz` do not decode |
| Uri.WellFormedEscapes | express-server.js:99 | `/a%20b` and `/%C3%A9` decode |
| ExpressServer.RouteFile | express-server.js:85-96 | A route that sends a file sends it only when it exists, is exactly the catch-all's answer when the file is a directory, and gives 500 only when the file is missing |
| ExpressServer.SendFile | express-server.js:103 | `res.sendFile` answers 200 with a file `readFileSync` can read, passes on when reading fails with `EISDIR`, and hands `ENOENT` to the error handler, whose 500 page it is |
| ExpressServer.CatchAll | express-server.js:99-155 | The catch-all never reaches the error handler: 200 with `index.html` exactly when it is a file, 404 exactly when it does not exist, passed on exactly when it is a directory |
| ExpressServer.RouteMatchesIgnoresCase | express-server.js:85-99 | Whether a route matches (`RouteMatches`) does not depend on the case of the path |
| ExpressServer.CachePolicy | express-server.js:59-75 | The middleware's headers (`CacheHeaders`, `PolicyFor`): a year for the thirteen static extensions; otherwise the no-cache triplet for `.html` or the URL `/`; no cache header otherwise. `Pragma` appears exactly with the triplet |
| ExpressServer.QueryDefeatsCachePolicy | express-server.js:60 | The cache middleware sets no cache header for a URL whose query has no `.` or `/`, such as `/a.js?v=1` |
| ExpressServer.QueryRunsIntoExtension | express-server.js:60 | With such a query, the extension of the raw URL is empty or holds the `?` |
| ExpressServer.DottedSuffixCrossesQuery | express-server.js:60 | A dotted suffix of `path?query` with a dot-free query holds the `?` |
| ExpressServer.NoPolicyForQueryExtension | express-server.js:63-72 | An empty extension, or one holding `?`, gets no cache header except on `/` |
| ExpressServer.LowerKeepsQueryMark | express-server.js:60 | Lowercasing keeps an empty extension empty and a `?` in it |
| ExpressServer.UrlEndsWithExtension | express-server.js:60 | A URL not ending in `/` ends with its extension |
| ExpressServer.OnlyGetAndHeadAreHandled | express-server.js:85-99 | Methods other than GET, HEAD and OPTIONS reach none of the application's routes and keep the cache middleware's headers, unless the catch-all's decoding fails, which is the 500 page |
| ExpressServer.OptionsListsRouteMethods | express-server.js:85-99 | OPTIONS on a decodable path is a 200 listing `GET,HEAD` in `Allow` and in an HTML-typed body; on an undecodable one it is the 500 page |
| ExpressServer.StaticAnswersFirst | express-server.js:78-82 | When the static middleware can serve a decodable path, no route runs, and the headers set so far go with it; an undecodable path is the 500 page |
| ExpressServer.WithHtmlType | express-server.js:105 | `res.send` of HTML sets the HTML type when no type is set, adds the `utf-8` charset to a type already set, and leaves every other header alone |
| ExpressServer.HandleError | express-server.js:158-209 | The error handler always gives 500 with the fixed page, whatever the error, typed as `res.send` types it |
| ExpressServer.ServiceWorkerRoute | express-server.js:85-90 | `/sw.js` sends the worker file with the no-cache triplet |
| ExpressServer.ServiceWorkerDirectoryFallsThrough | express-server.js:85-103 | When `public/sw.js` is a directory, `/sw.js` is answered by the catch-all, carrying the worker route's no-cache headers |
| ExpressServer.ManifestRoute | express-server.js:93-96 | `/manifest.json` sends the manifest with `application/manifest+json` |
| ExpressServer.RoutesDiffer | express-server.js:85-96 | No path matches both routes |
| ExpressServer.MissingRouteFileIsServerError | express-server.js:85-96 | A missing worker or manifest file gives the 500 page, with the headers the route set as `res.send` writes them |
| ExpressServer.MissingManifestKeepsItsType | express-server.js:93-96 | The 500 page for a missing manifest is typed `application/manifest+json; charset=utf-8` |
| ExpressServer.CatchAllServesIndex | express-server.js:99-103 | Any other GET of a decodable path sends `index.html`. Cache-Control is replaced by `no-cache, no-store, must-revalidate`; every other header keeps its value. An undecodable path is the 500 page |
| ExpressServer.CatchAllNotFound | express-server.js:99-160 | Without `index.html`, any other GET of a decodable path gets the 404 page as HTML, and of an undecodable one the 500 page |
| ExpressServer.StaleExpiresOnFallback | express-server.js:63-103 | A missing asset with a static extension and a decodable pathname falls through to `index.html` with a no-store Cache-Control, but keeps the year-ahead `Expires` |
| ExpressServer.UndecodableAssetErrorIsCachedForAYear | express-server.js:59-209 | An asset URL whose pathname does not decode, such as `/%E0.js`, is the 500 page carrying the year-long Cache-Control and far `Expires`, for every method |

## Left out

- `getLocalIP`, `listen`, the startup banner, logging and the
  signal/exception handlers of the three files are process plumbing.
- helmet and compression (express-server.js:30-56) are left out. Their
  headers and encodings come from libraries that are not modelled.
- The internals of `express.static` (express-server.js:78-82) are opaque.
  The parameter `staticServes` says whether it answered. It serves from
  the working directory `.`, not from `__dirname`; the model does not
  relate the two.
- The headers `express.static` adds when it answers are not modelled:
  `Cache-Control: public, max-age=31536000` when none is set yet (its
  `maxAge: '1y'`), ETag, Last-Modified, Content-Type and Accept-Ranges.
  `Static(headers)` carries the headers set before it took over.
- The ETag and Content-Length `res.send` adds to the 404 and 500 pages
  and to the OPTIONS reply are not modelled.
- The internals of `res.sendFile` are not modelled: its own
  Content-Type, ETag, Last-Modified and Cache-Control handling.
  `SentFile(path)` names the file; headers the routes set are kept as
  set.
- Express routing is modelled as Express 4 matches a literal route: on
  the pathname, ignoring case, with one trailing `/` allowed. Express's
  own final handler for unmatched methods (its 404) is only named
  (`Unhandled`), with the headers set so far.
- ExpressServer.Dispatch: the pathname is the URL up to its first `?`
  or `#`. A URL in absolute form (`http://host/sw.js`), or one holding
  whitespace or `#`, is parsed by Node's `url.parse` instead; that
  parse, which also turns `\` into `/` before the query or fragment, is
  not modelled. For a `#` URL without `\` it gives the same pathname,
  up to `url.parse`'s percent-escaping of ``"'<>^`{|}``. That escaping
  changes neither which route matches nor whether the pathname decodes.
- ExpressServer.WithHtmlType: a type that already has parameters is
  kept as set. `res.send` would add or replace its charset parameter.
  The only type the application sets before `res.send`,
  `application/manifest+json`, has none.
- The clock is left out. The `Expires` values computed from `Date.now()`
  (server.js:95, express-server.js:65) are the parameter `farExpires`.
- Lowercasing covers ASCII letters only. server.js and simple-server.js
  do no percent-decoding. Express decodes the pathname at its catch-all
  route; the model states only whether that succeeds (`Uri.Decodes`),
  because the decoded value is never used. Bytes are modelled as
  strings.
- HEAD responses are modelled with the body a GET would have; Node drops
  it on the wire.
- I/O faults other than a missing path or a directory (permissions,
  races between `existsSync` and `readFileSync`) are not modelled.
- The texts of the two Express pages are given by `ExpressPages.PageText`
  and referred to by name in responses; no property is stated about
  their wording.
- ExpressServer.ServiceWorkerRoute: states the headers the route sets,
  not those `res.sendFile` adds, because the library is not modelled.
- ExpressServer.CatchAllServesIndex: states the headers the route sets,
  not those `res.sendFile` adds, because the library is not modelled.
- Text.ReplaceFirst: models a replacement without `$` patterns, the only
  kind simple-server.js passes.

## Findings

| source | as written | input that shows it | evidently intended | confidence | as-written member | corrected member |
|---|---|---|---|---|---|---|
| simple-server.js:113 | The guard tests `fullPath.startsWith(__dirname)`, a plain string prefix with no segment boundary | With the server in `/srv/app`, `GET /../app-data/secret.txt` joins to `/srv/app-data/secret.txt`. That starts with `/srv/app`, so the file is served | Serve only files in the server's directory or below it: the joined path equals the directory or continues it with `/` | high, not executed | SimpleServer.PrefixGuardAdmitsSibling | SimpleServer.CorrectedGuardOnlyRefuses |
