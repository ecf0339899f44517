/** The application stages of express-server.js: a cache middleware keyed
    on the extension of the raw URL, the static middleware (opaque), the
    `/sw.js` and `/manifest.json` routes, the catch-all that sends
    `index.html`, and the error handler. Express routes on the pathname
    of the URL, case-insensitively and with an optional trailing `/`;
    `app.get` answers GET and HEAD, and the router itself answers OPTIONS
    with the methods of the routes the path matches. The catch-all `*`
    decodes the pathname as its parameter, for every method; when
    `decodeURIComponent` throws, the error handler answers. */
module ExpressServer {
  import opened Wrappers
  import opened Text
  import opened Uri
  import opened PosixPath
  import opened Http

  /** Extensions the cache middleware marks as cacheable for a year. */
  const StaticExtensions: set<string> :=
    {".js", ".css", ".png", ".jpg", ".jpeg", ".gif", ".svg", ".ico", ".woff", ".woff2", ".ttf", ".eot", ".webp"}

  const YearLong := "public, max-age=31536000"
  const ManifestType := "application/manifest+json"

  /** The methods of the application's routes, as the router lists them
      for OPTIONS: every route is an `app.get`, which also answers HEAD. */
  const RouteMethods := "GET,HEAD"

  /** How a request leaves the application. */
  datatype Outcome =
      /** `express.static` answered; the headers set so far go with it. */
    | Static(headers: Headers)
      /** A route, the router's OPTIONS reply or the error handler
          answered. */
    | Routed(response: Response)
      /** No handler answered: Express's final handler replies with its
          own 404, carrying the headers set so far. */
    | Unhandled(headers: Headers)

  /** What reaches the error handler: a failed read in `res.sendFile`, or
      a pathname the catch-all could not decode. */
  datatype Fault = ReadFault(error: IoError) | DecodeFault(path: string)

  /** The pathname Express routes on: the URL up to its first `?` or `#`. */
  function Pathname(url: string): (path: string)
    ensures StartsWith(url, path)
    ensures '?' !in path && '#' !in path
    ensures |path| < |url| ==> url[|path|] == '?' || url[|path|] == '#'
  {
    if url == [] || url[0] == '?' || url[0] == '#' then [] else [url[0]] + Pathname(url[1..])
  }

  /** Without a fragment, the pathname is the query-stripped path the two
      other servers use. */
  lemma {:induction false} PathnameWithoutFragment(url: string)
    requires '#' !in url
    ensures Pathname(url) == StripQuery(url)
    decreases |url|
  {
    if url != [] && url[0] != '?' {
      PathnameWithoutFragment(url[1..]);
    }
  }

  /** The cache middleware's headers for a request URL: the extension is
      taken from the raw URL, query included, and lowercased. A year for
      the static extensions; the no-cache triplet for `.html` and for the
      URL `/`; nothing otherwise. */
  function CacheHeaders(url: string, farExpires: string): Headers {
    PolicyFor(ToLower(ExtName(url)), url == "/", farExpires)
  }

  /** The cache policy for a lowercased extension; `isRoot` says whether
      the URL is `/`. */
  function PolicyFor(ext: string, isRoot: bool, farExpires: string): Headers {
    if ext in StaticExtensions then map[CacheControl := YearLong, Expires := farExpires]
    else if ext == ".html" || isRoot then NoStoreHeaders
    else map[]
  }

  /** `app.get(route)` matches a path: case-insensitively, with or without
      one trailing `/`. */
  predicate RouteMatches(path: string, route: string) {
    ToLower(path) == route || ToLower(path) == route + "/"
  }

  /** A path that matches a route without `%` decodes, so the
      literal routes never see a malformed escape. */
  lemma RoutedPathsDecode(path: string, route: string)
    requires RouteMatches(path, route) && '%' !in route
    ensures Decodes(path)
  {
    DecodesWithoutPercent(path);
  }

  /** Whether a route matches does not depend on the case of the path. */
  lemma RouteMatchesIgnoresCase(path: string, route: string)
    ensures RouteMatches(ToLower(path), route) <==> RouteMatches(path, route)
  {
    ToLowerIdempotent(path);
  }

  /** The type `res.send` writes for a type already set: the type with
      the charset `utf-8` added. */
  function WithCharset(t: string): string {
    if ';' in t then t else t + "; charset=utf-8"
  }

  /** The headers `res.send` writes with an HTML string: the HTML type
      when no type is set, otherwise the set type with the `utf-8`
      charset added; every other header as it was. */
  function WithHtmlType(headers: Headers): (h: Headers)
    ensures ContentType in h
    ensures ContentType !in headers ==> h[ContentType] == HtmlType
    ensures ContentType in headers && ';' !in headers[ContentType] ==>
      h[ContentType] == headers[ContentType] + "; charset=utf-8"
    ensures forall k :: k != ContentType ==> (k in h <==> k in headers)
    ensures forall k :: k != ContentType && k in headers ==> h[k] == headers[k]
  {
    headers[ContentType := if ContentType in headers then WithCharset(headers[ContentType]) else HtmlType]
  }

  /** The error handler: 500 with the fixed page, whatever the error. */
  function HandleError(headers: Headers, err: Fault): (o: Outcome)
    ensures o.Routed? && o.response.status == 500
    ensures o.response.body == FixedPage(ErrorPage)
    ensures o.response.headers == WithHtmlType(headers)
  {
    Routed(Response(500, WithHtmlType(headers), FixedPage(ErrorPage)))
  }

  /** `res.sendFile(path)`: the file with status 200 when it can be read;
      on `EISDIR` the request passes on to `next`, the remaining handlers;
      any other error, `ENOENT` here, goes to the error handler. */
  function SendFile(headers: Headers, path: string, fs: FileSystem, next: Outcome): (o: Outcome)
    ensures ReadFile(fs, path).Success? ==> o == Routed(Response(200, headers, SentFile(path)))
    ensures ReadFile(fs, path) == Failure(IsDirectory) ==> o == next
    ensures ReadFile(fs, path) == Failure(NoEntry(path)) ==> o == HandleError(headers, ReadFault(NoEntry(path)))
  {
    match Lookup(fs, path)
    case Some(File(_)) => Routed(Response(200, headers, SentFile(path)))
    case Some(Dir) => next
    case None => HandleError(headers, ReadFault(NoEntry(path)))
  }

  /** The catch-all route: `index.html` without caching when it exists,
      the 404 page otherwise. It never reaches the error handler, and it
      passes the request on only when `index.html` is a directory. */
  function CatchAll(headers: Headers, fs: FileSystem, root: Directory): (o: Outcome)
    ensures !o.Static?
    ensures o.Routed? ==> o.response.status == 200 || o.response.status == 404
    ensures o.Routed? && o.response.status == 200 <==>
      Lookup(fs, IndexPath(root)).Some? && Lookup(fs, IndexPath(root)).value.File?
    ensures o.Routed? && o.response.status == 200 ==> o.response.body == SentFile(IndexPath(root))
    ensures o.Routed? && o.response.status == 404 <==> !Exists(fs, IndexPath(root))
    ensures o.Unhandled? <==> Lookup(fs, IndexPath(root)) == Some(Dir)
  {
    var index := IndexPath(root);
    if Exists(fs, index) then
      var h := headers[CacheControl := NoStoreHeaders[CacheControl]];
      SendFile(h, index, fs, Unhandled(h))
    else
      Routed(Response(404, WithHtmlType(headers), FixedPage(MissingIndexPage)))
  }

  /** A route that sends `file` with the headers `h`, falling through to
      the catch-all when `file` is a directory. Only an existing file is
      sent, and a 500 means the file is missing. */
  function RouteFile(h: Headers, file: string, fs: FileSystem, root: Directory): (o: Outcome)
    ensures !o.Static?
    ensures o.Routed? ==> o.response.status in {200, 404, 500}
    ensures o.Routed? && o.response.body.SentFile? ==>
      && Lookup(fs, o.response.body.path).Some? && Lookup(fs, o.response.body.path).value.File?
      && o.response.body.path in {file, IndexPath(root)}
    ensures o.Routed? && o.response.status == 500 ==> !Exists(fs, file)
    ensures Lookup(fs, file) == Some(Dir) ==> o == CatchAll(h, fs, root)
  {
    SendFile(h, file, fs, CatchAll(h, fs, root))
  }

  /** The `app.get` handlers in order: the service worker, the manifest,
      the catch-all. Matching the catch-all decodes the pathname; a
      malformed escape goes to the error handler instead. */
  function Routes(path: string, h: Headers, fs: FileSystem, root: Directory): (o: Outcome)
    ensures !o.Static?
    ensures !Decodes(path) ==> o == HandleError(h, DecodeFault(path))
    ensures o.Routed? ==> o.response.status in {200, 404, 500}
    ensures o.Routed? && o.response.body.SentFile? ==>
      && Lookup(fs, o.response.body.path).Some? && Lookup(fs, o.response.body.path).value.File?
      && o.response.body.path in {Join(root, "public/sw.js"), Join(root, "public/manifest.json"), IndexPath(root)}
    ensures o.Routed? && o.response.status == 500 ==>
      || !Decodes(path)
      || (RouteMatches(path, "/sw.js") && !Exists(fs, Join(root, "public/sw.js")))
      || (RouteMatches(path, "/manifest.json") && !Exists(fs, Join(root, "public/manifest.json")))
  {
    if RouteMatches(path, "/sw.js") then
      RoutedPathsDecode(path, "/sw.js");
      RouteFile(h + NoStoreHeaders, Join(root, "public/sw.js"), fs, root)
    else if RouteMatches(path, "/manifest.json") then
      RoutedPathsDecode(path, "/manifest.json");
      RouteFile(h[ContentType := ManifestType], Join(root, "public/manifest.json"), fs, root)
    else if !Decodes(path) then HandleError(h, DecodeFault(path))
    else CatchAll(h, fs, root)
  }

  /** The handlers after the cache middleware, given the headers it set:
      the static middleware, the routes, and the router's reply to
      OPTIONS. Only GET and HEAD reach the static middleware, which
      cannot serve a pathname it cannot decode. The catch-all matches
      every path for every method, so a pathname that does not decode is
      the error handler's 500 whatever the method. Otherwise a 500 comes
      only from a missing service-worker or manifest file, and a file is
      sent only when it exists. */
  function Dispatch(verb: string, path: string, h: Headers, fs: FileSystem, root: Directory,
                    staticServes: bool): (o: Outcome)
    ensures o.Static? <==> (verb == "GET" || verb == "HEAD") && staticServes && Decodes(path)
    ensures o.Static? ==> o.headers == h
    ensures !Decodes(path) ==> o == HandleError(h, DecodeFault(path))
    ensures verb != "GET" && verb != "HEAD" && verb != "OPTIONS" && Decodes(path) ==> o == Unhandled(h)
    ensures o.Routed? ==> o.response.status in {200, 404, 500}
    ensures o.Routed? && o.response.body.SentFile? ==>
      && Lookup(fs, o.response.body.path).Some? && Lookup(fs, o.response.body.path).value.File?
      && o.response.body.path in {Join(root, "public/sw.js"), Join(root, "public/manifest.json"), IndexPath(root)}
    ensures o.Routed? && o.response.status == 500 ==>
      || !Decodes(path)
      || (RouteMatches(path, "/sw.js") && !Exists(fs, Join(root, "public/sw.js")))
      || (RouteMatches(path, "/manifest.json") && !Exists(fs, Join(root, "public/manifest.json")))
  {
    if verb == "GET" || verb == "HEAD" then
      if staticServes && Decodes(path) then Static(h) else Routes(path, h, fs, root)
    else if !Decodes(path) then HandleError(h, DecodeFault(path))
    else if verb == "OPTIONS" then Routed(Response(200, WithHtmlType(h[Allow := RouteMethods]), TextBody(RouteMethods)))
    else Unhandled(h)
  }

  /** How express-server.js answers a request. `staticServes` says whether
      `express.static` found something to send for it; `farExpires` is
      the clock's time a year ahead, as a UTC string. The static
      middleware takes over with the headers set so far, those of the
      cache middleware. */
  function Resolve(verb: string, url: string, fs: FileSystem, root: Directory,
                   staticServes: bool, farExpires: string): (o: Outcome)
    ensures o.Static? <==> (verb == "GET" || verb == "HEAD") && staticServes && Decodes(Pathname(url))
    ensures o.Static? ==> o.headers == CacheHeaders(url, farExpires)
    ensures !Decodes(Pathname(url)) ==> o == HandleError(CacheHeaders(url, farExpires), DecodeFault(Pathname(url)))
    ensures verb != "GET" && verb != "HEAD" && verb != "OPTIONS" && Decodes(Pathname(url)) ==>
      o == Unhandled(CacheHeaders(url, farExpires))
    ensures o.Routed? ==> o.response.status in {200, 404, 500}
    ensures o.Routed? && o.response.body.SentFile? ==>
      && Lookup(fs, o.response.body.path).Some? && Lookup(fs, o.response.body.path).value.File?
      && o.response.body.path in {Join(root, "public/sw.js"), Join(root, "public/manifest.json"), IndexPath(root)}
    ensures o.Routed? && o.response.status == 500 ==>
      || !Decodes(Pathname(url))
      || (RouteMatches(Pathname(url), "/sw.js") && !Exists(fs, Join(root, "public/sw.js")))
      || (RouteMatches(Pathname(url), "/manifest.json") && !Exists(fs, Join(root, "public/manifest.json")))
  {
    Dispatch(verb, Pathname(url), CacheHeaders(url, farExpires), fs, root, staticServes)
  }

  /** A pathname that does not decode is the 500 page for every method,
      whatever the static middleware would have found. */
  lemma UndecodablePathIsServerError(verb: string, path: string, h: Headers, fs: FileSystem, root: Directory,
                                     staticServes: bool)
    requires !Decodes(path)
    ensures var o := Dispatch(verb, path, h, fs, root, staticServes);
      && o.Routed? && o.response.status == 500
      && o.response.body == FixedPage(ErrorPage)
      && o.response.headers == WithHtmlType(h)
  {
  }

  /** `/%E0` opens a three-byte character and ends: GET, POST and OPTIONS
      all get the 500 page. */
  lemma TruncatedEscapeIsServerError(fs: FileSystem, root: Directory, staticServes: bool, farExpires: string)
    ensures forall verb :: var o := Resolve(verb, "/%E0", fs, root, staticServes, farExpires);
      o.Routed? && o.response.status == 500 && o.response.body == FixedPage(ErrorPage)
  {
    MalformedEscapes();
    assert Pathname("/%E0") == "/%E0";
  }

  /** Methods other than GET, HEAD and OPTIONS reach no handler of the
      application, and keep the cache middleware's headers, unless the
      catch-all's decoding fails first. */
  lemma OnlyGetAndHeadAreHandled(verb: string, path: string, h: Headers, fs: FileSystem, root: Directory,
                                 staticServes: bool)
    requires verb != "GET" && verb != "HEAD" && verb != "OPTIONS"
    ensures Decodes(path) ==> Dispatch(verb, path, h, fs, root, staticServes) == Unhandled(h)
    ensures !Decodes(path) ==> Dispatch(verb, path, h, fs, root, staticServes) == HandleError(h, DecodeFault(path))
  {
  }

  /** OPTIONS is answered by the router for every path that decodes, since
      the catch-all matches every path: 200 listing GET and HEAD, in
      `Allow` and as an HTML-typed body, after the cache middleware's
      headers. A path that does not decode is the 500 page instead. */
  lemma OptionsListsRouteMethods(path: string, h: Headers, fs: FileSystem, root: Directory, staticServes: bool)
    requires ContentType !in h
    ensures var o := Dispatch("OPTIONS", path, h, fs, root, staticServes);
      && o.Routed?
      && (Decodes(path) ==>
            && o.response.status == 200
            && o.response.body == TextBody("GET,HEAD")
            && Allow in o.response.headers && o.response.headers[Allow] == "GET,HEAD"
            && ContentType in o.response.headers && o.response.headers[ContentType] == HtmlType)
      && (!Decodes(path) ==> o.response.status == 500 && o.response.body == FixedPage(ErrorPage))
  {
  }

  /** The static middleware answers before any route, with the cache
      middleware's headers, for every path it can decode. */
  lemma StaticAnswersFirst(verb: string, path: string, h: Headers, fs: FileSystem, root: Directory)
    requires verb == "GET" || verb == "HEAD"
    ensures Decodes(path) ==> Dispatch(verb, path, h, fs, root, true) == Static(h)
    ensures !Decodes(path) ==> Dispatch(verb, path, h, fs, root, true) == HandleError(h, DecodeFault(path))
  {
  }

  /** The cache policy by extension of the raw URL: a year for the
      thirteen static extensions, the no-cache triplet for `.html` or the
      URL `/`, no cache header otherwise. */
  lemma CachePolicy(url: string, farExpires: string)
    ensures var ext := ToLower(ExtName(url));
      var h := CacheHeaders(url, farExpires);
      && (ext in StaticExtensions ==>
            h.Keys == {CacheControl, Expires} && h[CacheControl] == YearLong && h[Expires] == farExpires)
      && (ext !in StaticExtensions && (ext == ".html" || url == "/") ==> h == NoStoreHeaders)
      && (ext !in StaticExtensions && ext != ".html" && url != "/" ==> h == map[])
      && (Pragma in h <==> h == NoStoreHeaders)
  {
    assert ".html" !in StaticExtensions;
    assert NoStoreHeaders != map[CacheControl := YearLong, Expires := farExpires] by {
      assert Pragma in NoStoreHeaders;
    }
  }

  /** A query without `.` or `/` defeats the cache middleware's policy:
      the extension then runs into the query, so the middleware sets no
      cache header for `/a.js?v=1`. */
  lemma QueryDefeatsCachePolicy(path: string, query: string, farExpires: string)
    requires '.' !in query && '/' !in query
    ensures CacheHeaders(path + "?" + query, farExpires) == map[]
  {
    var url := path + "?" + query;
    QueryRunsIntoExtension(path, query);
    LowerKeepsQueryMark(ExtName(url));
    assert url != "/" by {
      assert url[|path|] == '?';
    }
    NoPolicyForQueryExtension(ToLower(ExtName(url)), farExpires);
  }

  /** With such a query the extension of the whole URL is empty or holds
      the `?`. */
  lemma QueryRunsIntoExtension(path: string, query: string)
    requires '.' !in query && '/' !in query
    ensures var ext := ExtName(path + "?" + query);
      ext == "" || '?' in ext
  {
    var url := path + "?" + query;
    var ext := ExtName(url);
    if ext != "" {
      assert url[|url| - 1] != '/' by {
        if query == [] {
          assert url[|url| - 1] == '?';
        } else {
          assert url[|url| - 1] == query[|query| - 1];
        }
      }
      UrlEndsWithExtension(url);
      DottedSuffixCrossesQuery(path, query, ext);
    }
  }

  /** A suffix of `path?query` that starts with `.`, where `query` has no
      `.`, starts inside `path` and so holds the `?`. */
  lemma DottedSuffixCrossesQuery(path: string, query: string, suffix: string)
    requires '.' !in query
    requires EndsWith(path + "?" + query, suffix) && suffix != [] && suffix[0] == '.'
    ensures '?' in suffix
  {
    var url := path + "?" + query;
    var start := |url| - |suffix|;
    assert url[start] == '.';
    assert url[|path|] == '?';
    assert suffix[|path| - start] == '?';
  }

  /** An empty extension, or one holding `?`, has no cache policy except
      on the URL `/`. */
  lemma NoPolicyForQueryExtension(ext: string, farExpires: string)
    requires ext == "" || '?' in ext
    ensures PolicyFor(ext, false, farExpires) == map[]
  {
    StaticExtensionsAreQueryFree();
  }

  /** No static extension is empty or holds `?`. */
  lemma StaticExtensionsAreQueryFree()
    ensures forall e :: e in StaticExtensions ==> e != "" && '?' !in e
  {
  }

  /** Lowercasing keeps an empty string empty and a `?` in place. */
  lemma LowerKeepsQueryMark(s: string)
    ensures s == "" ==> ToLower(s) == ""
    ensures '?' in s ==> '?' in ToLower(s)
  {
    if '?' in s {
      var i :| 0 <= i < |s| && s[i] == '?';
      assert ToLower(s)[i] == '?';
    }
  }

  /** A URL whose last character is not `/` ends with its extension. */
  lemma UrlEndsWithExtension(url: string)
    requires url != [] && url[|url| - 1] != '/'
    ensures EndsWith(url, ExtName(url))
  {
    assert TrimTrailingSlashes(url) == url;
    EndsWithTransitive(url, BaseName(url), ExtName(url));
  }

  /** The service-worker route: the worker file, never cached. */
  lemma ServiceWorkerRoute(verb: string, path: string, h: Headers, fs: FileSystem, root: Directory)
    requires verb == "GET" || verb == "HEAD"
    requires RouteMatches(path, "/sw.js")
    requires Lookup(fs, Join(root, "public/sw.js")).Some? && Lookup(fs, Join(root, "public/sw.js")).value.File?
    ensures var o := Dispatch(verb, path, h, fs, root, false);
      && o.Routed? && o.response.status == 200
      && o.response.body == SentFile(Join(root, "public/sw.js"))
      && Carries(o.response.headers, NoStoreHeaders)
  {
    CarriesRight(h, NoStoreHeaders);
  }

  /** When `public/sw.js` is a directory, `res.sendFile` passes the
      request on and the catch-all answers it, with the worker route's
      headers already set. */
  lemma ServiceWorkerDirectoryFallsThrough(verb: string, path: string, h: Headers, fs: FileSystem, root: Directory)
    requires verb == "GET" || verb == "HEAD"
    requires RouteMatches(path, "/sw.js")
    requires Lookup(fs, Join(root, "public/sw.js")) == Some(Dir)
    ensures Dispatch(verb, path, h, fs, root, false) == CatchAll(h + NoStoreHeaders, fs, root)
  {
  }

  /** The manifest route:the manifest file with its own content type. */
  lemma ManifestRoute(verb: string, path: string, h: Headers, fs: FileSystem, root: Directory)
    requires verb == "GET" || verb == "HEAD"
    requires RouteMatches(path, "/manifest.json")
    requires Lookup(fs, Join(root, "public/manifest.json")).Some?
    requires Lookup(fs, Join(root, "public/manifest.json")).value.File?
    ensures var o := Dispatch(verb, path, h, fs, root, false);
      && o.Routed? && o.response.status == 200
      && o.response.body == SentFile(Join(root, "public/manifest.json"))
      && ContentType in o.response.headers && o.response.headers[ContentType] == ManifestType
  {
    RoutesDiffer(path);
  }

  /** No path matches both routes. */
  lemma RoutesDiffer(path: string)
    ensures !(RouteMatches(path, "/sw.js") && RouteMatches(path, "/manifest.json"))
  {
    if RouteMatches(path, "/sw.js") {
      assert |ToLower(path)| <= 7;
    }
  }

  /** A missing service-worker or manifest file is an error: the 500
      page. */
  lemma MissingRouteFileIsServerError(verb: string, path: string, h: Headers, fs: FileSystem, root: Directory)
    requires verb == "GET" || verb == "HEAD"
    requires || (RouteMatches(path, "/sw.js") && !Exists(fs, Join(root, "public/sw.js")))
             || (RouteMatches(path, "/manifest.json") && !Exists(fs, Join(root, "public/manifest.json")))
    ensures var o := Dispatch(verb, path, h, fs, root, false);
      && o.Routed? && o.response.status == 500 && o.response.body == FixedPage(ErrorPage)
      && (RouteMatches(path, "/sw.js") ==> o.response.headers == WithHtmlType(h + NoStoreHeaders))
      && (RouteMatches(path, "/manifest.json") ==> o.response.headers == WithHtmlType(h[ContentType := ManifestType]))
  {
    RoutesDiffer(path);
  }

  /** The 500 page for a missing manifest keeps the manifest type the
      route set, with the charset `res.send` adds. */
  lemma MissingManifestKeepsItsType(verb: string, path: string, h: Headers, fs: FileSystem, root: Directory)
    requires verb == "GET" || verb == "HEAD"
    requires RouteMatches(path, "/manifest.json") && !Exists(fs, Join(root, "public/manifest.json"))
    ensures var o := Dispatch(verb, path, h, fs, root, false);
      && o.Routed? && o.response.status == 500
      && ContentType in o.response.headers
      && o.response.headers[ContentType] == ManifestType + "; charset=utf-8"
  {
    MissingRouteFileIsServerError(verb, path, h, fs, root);
    ManifestTypeHasNoParameters();
    SendAddsCharset(h, ManifestType);
  }

  /** `res.send` adds the charset to a parameterless type set before it. */
  lemma SendAddsCharset(h: Headers, t: string)
    requires ';' !in t
    ensures WithHtmlType(h[ContentType := t])[ContentType] == t + "; charset=utf-8"
  {
  }

  lemma ManifestTypeHasNoParameters()
    ensures ';' !in ManifestType
  {
  }

  /** Every other GET of a decodable path is answered with `index.html`,
      whose Cache-Control is replaced by `no-cache, no-store,
      must-revalidate`; any other header the cache middleware set, such as
      a far `Expires`, stays. A path that does not decode is the 500
      page. */
  lemma CatchAllServesIndex(verb: string, path: string, h: Headers, fs: FileSystem, root: Directory)
    requires verb == "GET" || verb == "HEAD"
    requires !RouteMatches(path, "/sw.js") && !RouteMatches(path, "/manifest.json")
    requires Lookup(fs, IndexPath(root)).Some? && Lookup(fs, IndexPath(root)).value.File?
    ensures var o := Dispatch(verb, path, h, fs, root, false);
      && o.Routed?
      && (Decodes(path) ==>
            && o.response.status == 200
            && o.response.body == SentFile(IndexPath(root))
            && CacheControl in o.response.headers
            && o.response.headers[CacheControl] == NoStoreHeaders[CacheControl]
            && (forall k :: k != CacheControl ==> (k in o.response.headers <==> k in h))
            && (forall k :: k != CacheControl && k in h ==> o.response.headers[k] == h[k]))
      && (!Decodes(path) ==> o.response.status == 500 && o.response.body == FixedPage(ErrorPage))
  {
  }

  /** Without `index.html` every other GET of a decodable path is the 404
      page, as HTML; a path that does not decode is the 500 page. */
  lemma CatchAllNotFound(verb: string, path: string, h: Headers, fs: FileSystem, root: Directory)
    requires verb == "GET" || verb == "HEAD"
    requires !RouteMatches(path, "/sw.js") && !RouteMatches(path, "/manifest.json")
    requires !Exists(fs, IndexPath(root))
    ensures var o := Dispatch(verb, path, h, fs, root, false);
      && o.Routed?
      && o.response.status == (if Decodes(path) then 404 else 500)
      && o.response.body == FixedPage(if Decodes(path) then MissingIndexPage else ErrorPage)
      && o.response.headers == WithHtmlType(h)
  {
  }

  /** A missing asset such as `/app.js` falls through to `index.html`:
      its Cache-Control is replaced, but the year-ahead `Expires` the cache
      middleware set for the `.js` extension stays on the page.
      `UndecodableAssetErrorIsCachedForAYear` covers a pathname that does
      not decode. */
  lemma StaleExpiresOnFallback(verb: string, url: string, fs: FileSystem, root: Directory, farExpires: string)
    requires verb == "GET" || verb == "HEAD"
    requires ToLower(ExtName(url)) in StaticExtensions
    requires !RouteMatches(Pathname(url), "/sw.js") && !RouteMatches(Pathname(url), "/manifest.json")
    requires Lookup(fs, IndexPath(root)).Some? && Lookup(fs, IndexPath(root)).value.File?
    requires Decodes(Pathname(url))
    ensures var o := Resolve(verb, url, fs, root, false, farExpires);
      && o.Routed? && o.response.body == SentFile(IndexPath(root))
      && CacheControl in o.response.headers
      && o.response.headers[CacheControl] == NoStoreHeaders[CacheControl]
      && Expires in o.response.headers && o.response.headers[Expires] == farExpires
  {
    var h := CacheHeaders(url, farExpires);
    assert h == map[CacheControl := YearLong, Expires := farExpires];
    CatchAllServesIndex(verb, Pathname(url), h, fs, root);
  }

  /** An asset URL whose pathname does not decode, such as `/%E0.js`, is
      the 500 page, and the page keeps the year-long Cache-Control and
      the far `Expires` the cache middleware set for its extension. */
  lemma UndecodableAssetErrorIsCachedForAYear(verb: string, url: string, fs: FileSystem, root: Directory,
                                              staticServes: bool, farExpires: string)
    requires ToLower(ExtName(url)) in StaticExtensions
    requires !Decodes(Pathname(url))
    ensures var o := Resolve(verb, url, fs, root, staticServes, farExpires);
      && o.Routed? && o.response.status == 500 && o.response.body == FixedPage(ErrorPage)
      && CacheControl in o.response.headers && o.response.headers[CacheControl] == YearLong
      && Expires in o.response.headers && o.response.headers[Expires] == farExpires
  {
    CachePolicy(url, farExpires);
    ErrorPageKeepsHeaders(verb, Pathname(url), CacheHeaders(url, farExpires), fs, root, staticServes);
  }

  /** The 500 page of an undecodable pathname keeps every header set
      before it but Content-Type. */
  lemma ErrorPageKeepsHeaders(verb: string, path: string, h: Headers, fs: FileSystem, root: Directory,
                              staticServes: bool)
    requires !Decodes(path)
    ensures var o := Dispatch(verb, path, h, fs, root, staticServes);
      && o.Routed? && o.response.status == 500 && o.response.body == FixedPage(ErrorPage)
      && forall k :: k != ContentType && k in h ==> k in o.response.headers && o.response.headers[k] == h[k]
  {
  }
}
