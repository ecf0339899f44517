/** The request handler of simple-server.js: CORS headers on every
    response, an empty 200 for a preflight, the entry document (with an
    import map spliced in) for `/` and for dotless paths that do not
    exist, a string-prefix guard against paths outside the server's
    directory, and files with a short cache for static assets. */
module SimpleServer {
  import opened Wrappers
  import opened Text
  import opened PosixPath
  import opened Http

  const MimeTypes: map<string, string> := map[
    ".html" := "text/html; charset=utf-8",
    ".js" := "text/javascript; charset=utf-8",
    ".jsx" := "text/javascript; charset=utf-8",
    ".css" := "text/css; charset=utf-8",
    ".json" := "application/json; charset=utf-8",
    ".png" := "image/png",
    ".jpg" := "image/jpeg",
    ".jpeg" := "image/jpeg",
    ".gif" := "image/gif",
    ".svg" := "image/svg+xml",
    ".ico" := "image/x-icon",
    ".woff" := "font/woff",
    ".woff2" := "font/woff2"
  ]

  /** Extensions cached for an hour; every other file is `no-cache`. */
  const HourLongExtensions: set<string> :=
    {".js", ".css", ".png", ".jpg", ".gif", ".svg", ".ico", ".woff", ".woff2"}

  const HourLong := "public, max-age=3600"
  const NoCache := "no-cache"

  /** The module script tag the entry document is expected to hold. */
  const EntryScript := "<script type=\"module\" src=\"/src/main.jsx\"></script>"

  /** The import map inserted in front of the module script, resolving the
      application's bare imports to esm.sh. */
  const ImportMap :=
    "\n" +
    "    <script type=\"importmap\">\n" +
    "    {\n" +
    "      \"imports\": {\n" +
    "        \"react\": \"https://esm.sh/react@18.2.0\",\n" +
    "        \"react-dom\": \"https://esm.sh/react-dom@18.2.0\",\n" +
    "        \"react-dom/client\": \"https://esm.sh/react-dom@18.2.0/client\",\n" +
    "        \"react-router-dom\": \"https://esm.sh/react-router-dom@6.16.0\",\n" +
    "        \"@radix-ui/react-alert-dialog\": \"https://esm.sh/@radix-ui/react-alert-dialog@1.0.5\",\n" +
    "        \"@radix-ui/react-avatar\": \"https://esm.sh/@radix-ui/react-avatar@1.0.3\",\n" +
    "        \"@radix-ui/react-checkbox\": \"https://esm.sh/@radix-ui/react-checkbox@1.0.4\",\n" +
    "        \"@radix-ui/react-dialog\": \"https://esm.sh/@radix-ui/react-dialog@1.0.5\",\n" +
    "        \"@radix-ui/react-dropdown-menu\": \"https://esm.sh/@radix-ui/react-dropdown-menu@2.0.5\",\n" +
    "        \"@radix-ui/react-label\": \"https://esm.sh/@radix-ui/react-label@2.0.2\",\n" +
    "        \"@radix-ui/react-select\": \"https://esm.sh/@radix-ui/react-select@2.0.0\",\n" +
    "        \"@radix-ui/react-tabs\": \"https://esm.sh/@radix-ui/react-tabs@1.0.4\",\n" +
    "        \"clsx\": \"https://esm.sh/clsx@2.0.0\",\n" +
    "        \"lucide-react\": \"https://esm.sh/lucide-react@0.285.0\",\n" +
    "        \"framer-motion\": \"https://esm.sh/framer-motion@10.16.4\"\n" +
    "      }\n" +
    "    }\n" +
    "    </script>\n" +
    "    "

  /** The whitespace the replacement leaves after the module script. */
  const ScriptTail := "\n    "

  const ForbiddenType := "text/plain"
  const MissingPrefix := "الملف غير موجود: "
  const ErrorPrefix := "خطأ داخلي: "

  /** The entry document as served: the first module script tag is
      replaced by the import map, the same tag and a little whitespace. */
  function EntryDocument(html: string): string {
    ReplaceFirst(html, EntryScript, ImportMap + EntryScript + ScriptTail)
  }

  /** A response with the CORS headers set before the status line, and
      `headers` (written with the status) on top of them; none of the
      handler's header sets disagrees with a CORS header. */
  function Reply(status: nat, headers: Headers, body: Body): (r: Response)
    requires forall k :: k in headers && k in CorsHeaders ==> headers[k] == CorsHeaders[k]
    ensures r.status == status && r.body == body
    ensures Carries(r.headers, CorsHeaders) && Carries(r.headers, headers)
  {
    Response(status, CorsHeaders + headers, body)
  }

  /** The catch branch: the message of the error that was thrown. */
  function InternalError(e: IoError): (r: Response)
    ensures r.status == 500 && r.body == TextBody(ErrorPrefix + e.Message())
    ensures Carries(r.headers, CorsHeaders)
  {
    Reply(500, map[ContentType := PlainTextType], TextBody(ErrorPrefix + e.Message()))
  }

  /** The entry document, or the error reading it. */
  function IndexResponse(fs: FileSystem, root: Directory): (r: Response)
    ensures r.status == 200 <==> Lookup(fs, IndexPath(root)).Some? && Lookup(fs, IndexPath(root)).value.File?
    ensures r.status == 200 || r.status == 500
    ensures r.status == 200 ==> r.body == EntryBody(Lookup(fs, IndexPath(root)).value.content)
    ensures r.status == 500 ==> r == InternalError(ReadFile(fs, IndexPath(root)).error)
    ensures Carries(r.headers, CorsHeaders)
  {
    match ReadFile(fs, IndexPath(root))
    case Success(html) => Reply(200, map[ContentType := HtmlType, CacheControl := NoCache], EntryBody(html))
    case Failure(e) => InternalError(e)
  }

  /** The cache policy of a file with extension `ext`. */
  function CacheControlFor(ext: string): string {
    if ext in HourLongExtensions then HourLong else NoCache
  }

  /** The headers written with an existing file. */
  function FileHeaders(contentType: string, cacheControl: string): (h: Headers)
    ensures forall k :: k in h && k in CorsHeaders ==> h[k] == CorsHeaders[k]
  {
    map[ContentType := contentType, AllowOrigin := "*", CacheControl := cacheControl]
  }

  /** The guard of simple-server.js: the joined path must start with the
      directory's string, whatever follows it. */
  predicate PrefixGuard(full: string, root: Directory) {
    StartsWith(full, Render(root))
  }

  /** The string guard admits every joined path that lies in the
      directory; `PrefixGuardAdmitsSibling` shows it admits more. */
  lemma SegmentTestImpliesPrefixGuard(root: Directory, p: string)
    ensures WithinDirectory(Join(root, p), root) ==> PrefixGuard(Join(root, p), root)
  {
    var full := Join(root, p);
    var r := Render(root);
    if WithinDirectory(full, root) && root != [] && full != r {
      assert full[..|r|] == (r + "/")[..|r|];
    }
  }

  /** An existing file is typed `application/octet-stream` exactly when
      its lowercased extension is not in the table. */
  lemma BinaryExactlyForUnknown(ext: string)
    ensures TypeFor(MimeTypes, ext) == OctetStream <==> ext !in MimeTypes
  {
    assert OctetStream !in MimeTypes.Values;
  }

  /** What follows an admitted path: the entry document for a missing
      path without a dot, a 404 naming any other missing path, the file
      itself, or the error reading it. */
  function Serve(filePath: string, full: string, fs: FileSystem, root: Directory): (r: Response)
    ensures r.status in {200, 404, 500}
    ensures r.status == 404 <==> !Exists(fs, full) && '.' in filePath
    ensures r.body.FileBody? ==> r.body.path == full && Lookup(fs, full) == Some(File(r.body.content))
    ensures Carries(r.headers, CorsHeaders)
  {
    if !Exists(fs, full) then
      if '.' !in filePath then IndexResponse(fs, root)
      else Reply(404, map[ContentType := PlainTextType], TextBody(MissingPrefix + filePath))
    else
      match ReadFile(fs, full)
      case Success(content) =>
        var ext := ToLower(ExtName(filePath));
        Reply(200, FileHeaders(TypeFor(MimeTypes, ext), CacheControlFor(ext)), FileBody(full, content))
      case Failure(e) => InternalError(e)
  }

  /** The handler, with the guard it applies: the source's string prefix
      test, or the segment-respecting test when `confined` holds. */
  function Handle(verb: string, url: string, fs: FileSystem, root: Directory, confined: bool): (r: Response)
    ensures r.status in {200, 403, 404, 500}
    ensures Carries(r.headers, CorsHeaders)
    ensures var full := Join(root, StripQuery(url));
      r.status == 403 <==>
        && verb != "OPTIONS" && StripQuery(url) != "/"
        && !(if confined then WithinDirectory(full, root) else PrefixGuard(full, root))
    ensures r.body.FileBody? ==> r.body.path == Join(root, StripQuery(url)) && Lookup(fs, r.body.path) == Some(File(r.body.content))
    ensures r.body.FileBody? && confined ==> WithinDirectory(r.body.path, root)
  {
    var filePath := StripQuery(url);
    if verb == "OPTIONS" then Reply(200, map[], NoBody)
    else if filePath == "/" then IndexResponse(fs, root)
    else
      var full := Join(root, filePath);
      var admitted := if confined then WithinDirectory(full, root) else PrefixGuard(full, root);
      if !admitted then Reply(403, map[ContentType := ForbiddenType], TextBody("Forbidden"))
      else Serve(filePath, full, fs, root)
  }

  /** The response simple-server.js produces, with its guard as written. */
  function Resolve(verb: string, url: string, fs: FileSystem, root: Directory): (r: Response)
    ensures r.status in {200, 403, 404, 500}
    ensures Carries(r.headers, CorsHeaders)
    ensures r.status == 403 <==>
      verb != "OPTIONS" && StripQuery(url) != "/" && !StartsWith(Join(root, StripQuery(url)), Render(root))
    ensures r.body.FileBody? ==>
      r.body.path == Join(root, StripQuery(url)) && Lookup(fs, r.body.path) == Some(File(r.body.content))
  {
    Handle(verb, url, fs, root, false)
  }

  /** The response with the guard corrected to respect segment boundaries:
      a file is served only from the server's directory or below it. */
  function ResolveConfined(verb: string, url: string, fs: FileSystem, root: Directory): (r: Response)
    ensures r.status in {200, 403, 404, 500}
    ensures Carries(r.headers, CorsHeaders)
    ensures r.status == 403 <==>
      verb != "OPTIONS" && StripQuery(url) != "/" && !(root <= JoinSegments(root, StripQuery(url)))
    ensures r.body.FileBody? ==>
      r.body.path == Join(root, StripQuery(url)) && Lookup(fs, r.body.path) == Some(File(r.body.content))
    ensures r.body.FileBody? ==> root <= JoinSegments(root, StripQuery(url))
  {
    WithinDirectoryIsSegmentPrefix(root, StripQuery(url));
    Handle(verb, url, fs, root, true)
  }

  /** A preflight gets an empty 200 with only the CORS headers, whatever
      the URL. */
  lemma PreflightIsEmpty(url: string, fs: FileSystem, root: Directory)
    ensures Resolve("OPTIONS", url, fs, root) == Response(200, CorsHeaders, NoBody)
    ensures ResolveConfined("OPTIONS", url, fs, root) == Response(200, CorsHeaders, NoBody)
  {
    assert CorsHeaders + map[] == CorsHeaders;
  }

  /** The query string never changes the response. */
  lemma QueryStringIgnored(verb: string, url: string, fs: FileSystem, root: Directory)
    ensures Resolve(verb, url, fs, root) == Resolve(verb, StripQuery(url), fs, root)
    ensures ResolveConfined(verb, url, fs, root) == ResolveConfined(verb, StripQuery(url), fs, root)
  {
    StripQueryIdempotent(url);
  }

  /** `/` is answered with the entry document, never cached. */
  lemma RootServesEntryDocument(verb: string, url: string, fs: FileSystem, root: Directory, html: string)
    requires verb != "OPTIONS" && StripQuery(url) == "/"
    requires Lookup(fs, IndexPath(root)) == Some(File(html))
    ensures var r := Resolve(verb, url, fs, root);
      && r.status == 200 && r.body == EntryBody(html)
      && ContentType in r.headers && r.headers[ContentType] == HtmlType
      && CacheControl in r.headers && r.headers[CacheControl] == NoCache
  {
    var h := map[ContentType := HtmlType, CacheControl := NoCache];
    assert Resolve(verb, url, fs, root) == Reply(200, h, EntryBody(html));
  }

  /** Without a readable `index.html`, `/` is a 500 carrying Node's
      message for the failed read. */
  lemma RootWithoutIndexIsInternalError(verb: string, url: string, fs: FileSystem, root: Directory)
    requires verb != "OPTIONS" && StripQuery(url) == "/"
    requires Lookup(fs, IndexPath(root)) == None || Lookup(fs, IndexPath(root)) == Some(Dir)
    ensures var r := Resolve(verb, url, fs, root);
      && r.status == 500
      && (Lookup(fs, IndexPath(root)) == Some(Dir) ==>
            r.body == TextBody(ErrorPrefix + "EISDIR: illegal operation on a directory, read"))
      && (Lookup(fs, IndexPath(root)) == None ==>
            r.body == TextBody(ErrorPrefix + ("ENOENT: no such file or directory, open '" + IndexPath(root) + "'")))
  {
    RootIsIndexResponse(verb, url, fs, root);
    UnreadableIndex(fs, root);
  }

  /** `/` is answered by reading the entry document. */
  lemma RootIsIndexResponse(verb: string, url: string, fs: FileSystem, root: Directory)
    requires verb != "OPTIONS" && StripQuery(url) == "/"
    ensures Resolve(verb, url, fs, root) == IndexResponse(fs, root)
  {
  }

  /** The error an unreadable entry document is answered with. */
  lemma UnreadableIndex(fs: FileSystem, root: Directory)
    requires Lookup(fs, IndexPath(root)) == None || Lookup(fs, IndexPath(root)) == Some(Dir)
    ensures var r := IndexResponse(fs, root);
      && r.status == 500
      && (Lookup(fs, IndexPath(root)) == Some(Dir) ==> r == InternalError(IsDirectory))
      && (Lookup(fs, IndexPath(root)) == None ==> r == InternalError(NoEntry(IndexPath(root))))
  {
  }

  /** A missing path without a dot is a client-side route: it is
      answered exactly as `/` is. */
  lemma DotlessMissingPathServesEntryDocument(verb: string, url: string, fs: FileSystem, root: Directory)
    requires verb != "OPTIONS" && StripQuery(url) != "/"
    requires PrefixGuard(Join(root, StripQuery(url)), root)
    requires !Exists(fs, Join(root, StripQuery(url)))
    requires '.' !in StripQuery(url)
    ensures Resolve(verb, url, fs, root) == Resolve(verb, "/", fs, root)
  {
    StripQueryOfQueryFree("/");
  }

  /** A missing path with a dot is a 404 that names the path. */
  lemma MissingFileIsNotFound(verb: string, url: string, fs: FileSystem, root: Directory)
    requires verb != "OPTIONS" && StripQuery(url) != "/"
    requires PrefixGuard(Join(root, StripQuery(url)), root)
    requires !Exists(fs, Join(root, StripQuery(url)))
    requires '.' in StripQuery(url)
    ensures var r := Resolve(verb, url, fs, root);
      r.status == 404 && r.body == TextBody(MissingPrefix + StripQuery(url))
  {
  }

  /** An existing file is served with its contents, the MIME type of its
      lowercased extension (binary when unknown) and an hour's cache for
      the nine static-asset extensions, `no-cache` otherwise. */
  lemma ExistingFileServed(verb: string, url: string, fs: FileSystem, root: Directory, content: string)
    requires verb != "OPTIONS" && StripQuery(url) != "/"
    requires PrefixGuard(Join(root, StripQuery(url)), root)
    requires Lookup(fs, Join(root, StripQuery(url))) == Some(File(content))
    ensures var r := Resolve(verb, url, fs, root);
      var ext := ToLower(ExtName(StripQuery(url)));
      && r.status == 200 && r.body == FileBody(Join(root, StripQuery(url)), content)
      && ContentType in r.headers && r.headers[ContentType] == TypeFor(MimeTypes, ext)
      && CacheControl in r.headers
      && (ext in HourLongExtensions ==> r.headers[CacheControl] == HourLong)
      && (ext !in HourLongExtensions ==> r.headers[CacheControl] == NoCache)
  {
    RouteToServe(verb, url, fs, root);
    ServeExistingFile(StripQuery(url), Join(root, StripQuery(url)), fs, root, content);
  }

  /** Past the guard, a path other than `/` is served by `Serve`. */
  lemma RouteToServe(verb: string, url: string, fs: FileSystem, root: Directory)
    requires verb != "OPTIONS" && StripQuery(url) != "/"
    requires PrefixGuard(Join(root, StripQuery(url)), root)
    ensures Resolve(verb, url, fs, root) == Serve(StripQuery(url), Join(root, StripQuery(url)), fs, root)
  {
  }

  /** An existing file is sent with the headers of its extension. */
  lemma ServeExistingFile(filePath: string, full: string, fs: FileSystem, root: Directory, content: string)
    requires Lookup(fs, full) == Some(File(content))
    ensures var r := Serve(filePath, full, fs, root);
      var ext := ToLower(ExtName(filePath));
      && r.status == 200 && r.body == FileBody(full, content)
      && ContentType in r.headers && r.headers[ContentType] == TypeFor(MimeTypes, ext)
      && CacheControl in r.headers
      && (ext in HourLongExtensions ==> r.headers[CacheControl] == HourLong)
      && (ext !in HourLongExtensions ==> r.headers[CacheControl] == NoCache)
  {
    var ext := ToLower(ExtName(filePath));
    var ct := TypeFor(MimeTypes, ext);
    assert ReadFile(fs, full) == Success(content);
    assert Serve(filePath, full, fs, root) == Reply(200, FileHeaders(ct, CacheControlFor(ext)), FileBody(full, content));
    FileReplyHeaders(ct, CacheControlFor(ext), FileBody(full, content));
  }

  /** A file reply carries the type and cache policy it was given. */
  lemma FileReplyHeaders(contentType: string, cacheControl: string, body: Body)
    ensures var h := Reply(200, FileHeaders(contentType, cacheControl), body).headers;
      && ContentType in h && h[ContentType] == contentType
      && CacheControl in h && h[CacheControl] == cacheControl
  {
  }

  /** A directory passes the existence test and fails the read. */
  lemma DirectoryIsInternalError(verb: string, url: string, fs: FileSystem, root: Directory)
    requires verb != "OPTIONS" && StripQuery(url) != "/"
    requires PrefixGuard(Join(root, StripQuery(url)), root)
    requires Lookup(fs, Join(root, StripQuery(url))) == Some(Dir)
    ensures var r := Resolve(verb, url, fs, root);
      r.status == 500 && r.body == TextBody(ErrorPrefix + "EISDIR: illegal operation on a directory, read")
  {
  }

  /** The entry document keeps the module script tag exactly when the
      index has one, now preceded by the import map, and is the index
      itself when it has none. */
  lemma EntryDocumentKeepsScript(html: string)
    ensures Contains(EntryDocument(html), EntryScript) <==> Contains(html, EntryScript)
    ensures !Contains(html, EntryScript) ==> EntryDocument(html) == html
    ensures Contains(html, EntryScript) ==> Contains(EntryDocument(html), ImportMap + EntryScript)
  {
    ReplaceFirstWrapping(html, EntryScript, ImportMap, ScriptTail);
  }

  /** A path the guard refuses is a fixed 403, whatever the filesystem
      holds. */
  lemma RefusedPathIsForbidden(verb: string, url: string, fs: FileSystem, root: Directory)
    requires verb != "OPTIONS" && StripQuery(url) != "/"
    requires !PrefixGuard(Join(root, StripQuery(url)), root)
    ensures Resolve(verb, url, fs, root) == Reply(403, map[ContentType := ForbiddenType], TextBody("Forbidden"))
  {
  }

  /** Inside the server's directory the two guards agree: the string
      prefix test admits every path the segment test admits. */
  lemma GuardsAgreeInside(verb: string, url: string, fs: FileSystem, root: Directory)
    requires root <= JoinSegments(root, StripQuery(url))
    ensures Resolve(verb, url, fs, root) == ResolveConfined(verb, url, fs, root)
  {
    var full := Join(root, StripQuery(url));
    WithinDirectoryIsSegmentPrefix(root, StripQuery(url));
    assert WithinDirectory(full, root);
    assert PrefixGuard(full, root) by {
      if root != [] && full != Render(root) {
        assert StartsWith(full, Render(root) + "/");
        assert full[..|Render(root)|] == (Render(root) + "/")[..|Render(root)|];
      }
    }
  }

  /** The corrected guard only adds refusals: where the two handlers
      differ, the corrected one refuses a path outside the directory. */
  lemma CorrectedGuardOnlyRefuses(verb: string, url: string, fs: FileSystem, root: Directory)
    ensures Resolve(verb, url, fs, root) != ResolveConfined(verb, url, fs, root) ==>
      && ResolveConfined(verb, url, fs, root).status == 403
      && !(root <= JoinSegments(root, StripQuery(url)))
  {
    if root <= JoinSegments(root, StripQuery(url)) {
      GuardsAgreeInside(verb, url, fs, root);
    }
  }

  /** The string prefix guard lets a sibling directory through: with the
      server in `/srv/app`, `/../app-data/...` reaches `/srv/app-data`.
      Here the sibling file is `/srv/app` followed by `suffix`. */
  lemma PrefixGuardAdmitsSibling(verb: string, fs: FileSystem, root: Directory, suffix: string, content: string)
    requires verb != "OPTIONS"
    requires root != [] && suffix != "" && '/' !in suffix
    requires '?' !in root[|root| - 1] + suffix
    requires Lookup(fs, Render(root[..|root| - 1] + [root[|root| - 1] + suffix])) == Some(File(content))
    ensures var sibling := Render(root[..|root| - 1] + [root[|root| - 1] + suffix]);
      && !WithinDirectory(sibling, root)
      && Resolve(verb, "/../" + root[|root| - 1] + suffix, fs, root).status == 200
      && Resolve(verb, "/../" + root[|root| - 1] + suffix, fs, root).body == FileBody(sibling, content)
      && ResolveConfined(verb, "/../" + root[|root| - 1] + suffix, fs, root).status == 403
  {
    var name := root[|root| - 1] + suffix;
    var url := "/../" + name;
    SiblingRequest(root, suffix);
    assert url == "/../" + root[|root| - 1] + suffix;
    assert url != "/";
    RouteToServe(verb, url, fs, root);
    ServedFileBody(url, Join(root, url), fs, root, content);
  }

  /** An existing file is answered with 200 and its contents. */
  lemma ServedFileBody(filePath: string, full: string, fs: FileSystem, root: Directory, content: string)
    requires Lookup(fs, full) == Some(File(content))
    ensures Serve(filePath, full, fs, root).status == 200
    ensures Serve(filePath, full, fs, root).body == FileBody(full, content)
  {
    assert ReadFile(fs, full) == Success(content);
  }

  /** The request `/../` followed by the sibling's name: it has no query,
      joins to the sibling, passes the string guard and fails the segment
      test. */
  lemma SiblingRequest(root: Directory, suffix: string)
    requires root != [] && suffix != "" && '/' !in suffix
    requires '?' !in root[|root| - 1] + suffix
    ensures var name := root[|root| - 1] + suffix;
      var sibling := Render(root[..|root| - 1] + [name]);
      var url := "/../" + name;
      && StripQuery(url) == url
      && Join(root, url) == sibling
      && PrefixGuard(sibling, root)
      && !WithinDirectory(sibling, root)
      && !(root <= JoinSegments(root, url))
  {
    var name := root[|root| - 1] + suffix;
    var url := "/../" + name;
    SiblingOutsideDirectory(root, suffix);
    SiblingJoin(root, name);
    assert '?' !in url;
    StripQueryOfQueryFree(url);
    WithinDirectoryIsSegmentPrefix(root, url);
  }
}
