/** The request handler of server.js: the query is stripped, `/` is read
    as `/index.html`, the path is joined onto the server's directory with
    no confinement check, and a missing path falls back to `index.html`
    whatever it looks like. Only an existing file gets the MIME type of
    its extension, the cache policy of its extension and the CORS and
    security headers. */
module HttpServer {
  import opened Wrappers
  import opened Text
  import opened PosixPath
  import opened Http

  const MimeTypes: map<string, string> := map[
    ".html" := "text/html; charset=utf-8",
    ".js" := "application/javascript; charset=utf-8",
    ".jsx" := "text/jsx; charset=utf-8",
    ".css" := "text/css; charset=utf-8",
    ".json" := "application/json; charset=utf-8",
    ".png" := "image/png",
    ".jpg" := "image/jpg",
    ".jpeg" := "image/jpeg",
    ".gif" := "image/gif",
    ".svg" := "image/svg+xml",
    ".ico" := "image/x-icon",
    ".woff" := "font/woff",
    ".woff2" := "font/woff2",
    ".ttf" := "font/ttf",
    ".eot" := "font/eot",
    ".webp" := "image/webp",
    ".webm" := "video/webm",
    ".mp4" := "video/mp4",
    ".txt" := "text/plain; charset=utf-8"
  ]

  /** Extensions cached for a year. */
  const LongLivedExtensions: set<string> :=
    {".js", ".css", ".png", ".jpg", ".jpeg", ".gif", ".svg", ".ico", ".woff", ".woff2", ".ttf", ".eot"}

  const SecurityHeaders: Headers := map[
    ContentTypeOptions := "nosniff",
    FrameOptions := "DENY",
    XssProtection := "1; mode=block",
    ReferrerPolicy := "strict-origin-when-cross-origin",
    ContentSecurityPolicy := "default-src 'self'; script-src 'self' 'unsafe-inline' 'unsafe-eval'; style-src 'self' 'unsafe-inline'; img-src 'self' data: https:; font-src 'self' data:; connect-src 'self' https:;"
  ]

  const NotFoundText := "الصفحة غير موجودة - 404 Not Found"
  const ServerErrorText := "خطأ داخلي في الخادم - 500 Internal Server Error"

  /** The headers of the index fallback: HTML, never cached. */
  const IndexHeaders: Headers := map[ContentType := HtmlType] + NoStoreHeaders

  /** The headers of the 404 and 500 responses. */
  const TextHeaders: Headers := map[ContentType := PlainTextType]

  /** The catch branch: a fixed text that never includes the error. */
  const ServerError := Response(500, TextHeaders, TextBody(ServerErrorText))

  /** The path looked up for a request URL. */
  function RequestPath(url: string): (path: string)
    ensures path == StripQuery(url) || (StripQuery(url) == "/" && path == "/index.html")
    ensures path != "/"
  {
    var p := StripQuery(url);
    if p == "/" then "/index.html" else p
  }

  /** The lowercased `path.extname` the tables are consulted with: empty
      exactly when the base name has no extension, otherwise a `.` and
      no further `.`, with no capital letter. */
  function Extension(path: string): (ext: string)
    ensures ext == "" <==> !HasExtension(BaseName(path))
    ensures ext != "" ==> ext[0] == '.'
    ensures forall j :: 0 < j < |ext| ==> ext[j] != '.'
    ensures forall j :: 0 <= j < |ext| ==> !IsUpper(ext[j])
  {
    ToLower(ExtName(path))
  }

  /** An existing file is typed `application/octet-stream` exactly when
      its lowercased extension is not in the table. */
  lemma BinaryExactlyForUnknown(ext: string)
    ensures TypeFor(MimeTypes, ext) == OctetStream <==> ext !in MimeTypes
  {
    assert OctetStream !in MimeTypes.Values;
  }

  function CacheHeaders(ext: string, farExpires: string): Headers {
    if ext in LongLivedExtensions then
      map[CacheControl := "public, max-age=31536000", Expires := farExpires]
    else if ext == ".html" then NoStoreHeaders
    else map[]
  }

  /** Only cache headers are in `cache`. */
  predicate CacheOnly(cache: Headers) {
    cache.Keys <= {CacheControl, Pragma, Expires}
  }

  /** The headers of an existing file's 200 response. */
  function FileHeaders(contentType: string, cache: Headers): Headers {
    map[ContentType := contentType] + CorsHeaders + cache + SecurityHeaders
  }

  /** The response server.js produces. The method is never consulted;
      `farExpires` is the clock's `Date.now()` one year ahead, as a UTC
      string. */
  function Resolve(verb: string, url: string, fs: FileSystem, root: Directory, farExpires: string): (r: Response)
    ensures r.status == 200 || r.status == 404 || r.status == 500
    ensures r.status == 200 <==> r.body.FileBody?
    ensures r.body.FileBody? ==> Lookup(fs, r.body.path) == Some(File(r.body.content))
    ensures r.body.FileBody? ==> r.body.path in {Join(root, RequestPath(url)), IndexPath(root)}
    ensures r.status == 404 <==> !Exists(fs, Join(root, RequestPath(url))) && !Exists(fs, IndexPath(root))
    ensures r.status == 500 <==>
      || Lookup(fs, Join(root, RequestPath(url))) == Some(Dir)
      || (!Exists(fs, Join(root, RequestPath(url))) && Lookup(fs, IndexPath(root)) == Some(Dir))
    ensures r.status == 500 ==> r == ServerError
  {
    var path := RequestPath(url);
    var full := Join(root, path);
    if !Exists(fs, full) then
      var index := IndexPath(root);
      if Exists(fs, index) then
        match ReadFile(fs, index)
        case Success(content) =>
          Response(200, IndexHeaders, FileBody(index, content))
        case Failure(_) => ServerError
      else
        Response(404, TextHeaders, TextBody(NotFoundText))
    else
      match ReadFile(fs, full)
      case Success(content) =>
        var ext := Extension(path);
        Response(200, FileHeaders(TypeFor(MimeTypes, ext), CacheHeaders(ext, farExpires)), FileBody(full, content))
      case Failure(_) => ServerError
  }

  /** The query string never changes the response. */
  lemma QueryStringIgnored(verb: string, url: string, fs: FileSystem, root: Directory, farExpires: string)
    ensures Resolve(verb, url, fs, root, farExpires) == Resolve(verb, StripQuery(url), fs, root, farExpires)
  {
    StripQueryIdempotent(url);
  }

  /** Any method is resolved as GET would be. */
  lemma MethodIgnored(m1: string, m2: string, url: string, fs: FileSystem, root: Directory, farExpires: string)
    ensures Resolve(m1, url, fs, root, farExpires) == Resolve(m2, url, fs, root, farExpires)
  {
  }

  /** `/` is looked up as `/index.html`; every other path as itself. */
  lemma RootReadsIndex(verb: string, url: string, fs: FileSystem, root: Directory, farExpires: string)
    ensures StripQuery(url) == "/" ==>
      Resolve(verb, url, fs, root, farExpires) == Resolve(verb, "/index.html", fs, root, farExpires)
    ensures StripQuery(url) != "/" ==> RequestPath(url) == StripQuery(url)
  {
    StripQueryOfQueryFree("/index.html");
  }

  /** A missing path gets the index with the no-cache triplet, whatever
      its extension, and none of the file headers. */
  lemma MissingPathServesIndex(verb: string, url: string, fs: FileSystem, root: Directory, farExpires: string, index: string)
    requires !Exists(fs, Join(root, RequestPath(url)))
    requires Lookup(fs, IndexPath(root)) == Some(File(index))
    ensures Resolve(verb, url, fs, root, farExpires)
         == Response(200, IndexHeaders, FileBody(IndexPath(root), index))
  {
  }

  /** A missing path without an index is a plain-text 404. */
  lemma MissingPathWithoutIndexIsNotFound(verb: string, url: string, fs: FileSystem, root: Directory, farExpires: string)
    requires !Exists(fs, Join(root, RequestPath(url)))
    requires !Exists(fs, IndexPath(root))
    ensures Resolve(verb, url, fs, root, farExpires)
         == Response(404, TextHeaders, TextBody(NotFoundText))
  {
  }

  /** An existing file's headers: its content type, its cache headers,
      every CORS header and every security header. */
  lemma FileHeadersCarry(contentType: string, cache: Headers)
    requires CacheOnly(cache)
    ensures ContentType in FileHeaders(contentType, cache)
    ensures FileHeaders(contentType, cache)[ContentType] == contentType
    ensures Carries(FileHeaders(contentType, cache), cache)
    ensures Carries(FileHeaders(contentType, cache), CorsHeaders)
    ensures Carries(FileHeaders(contentType, cache), SecurityHeaders)
  {
    var ct := map[ContentType := contentType];
    var h1 := ct + CorsHeaders;
    var h2 := h1 + cache;
    CarriesRight(ct, CorsHeaders);
    CarriesRight(h1, cache);
    CarriesRight(h2, SecurityHeaders);
    HeaderSetsDisjoint(cache);
    CarriesLeft(h1, cache, CorsHeaders);
    CarriesLeft(h2, SecurityHeaders, CorsHeaders);
    CarriesLeft(h2, SecurityHeaders, cache);
    CarriesLeft(ct, CorsHeaders, ct);
    CarriesLeft(h1, cache, ct);
    CarriesLeft(h2, SecurityHeaders, ct);
  }

  /** The four header groups of a file response name different headers. */
  lemma HeaderSetsDisjoint(cache: Headers)
    requires CacheOnly(cache)
    ensures CorsHeaders.Keys !! cache.Keys && CorsHeaders.Keys !! SecurityHeaders.Keys
    ensures cache.Keys !! SecurityHeaders.Keys
    ensures ContentType !in CorsHeaders && ContentType !in cache && ContentType !in SecurityHeaders
  {
  }

  /** The only cache headers of an existing file's response are those
      of its cache set. */
  lemma FileHeadersCacheOnly(contentType: string, cache: Headers)
    ensures forall k :: k in FileHeaders(contentType, cache) && k in {CacheControl, Pragma, Expires} ==> k in cache
  {
  }

  /** Cache headers by extension: a year for the twelve listed
      extensions, the no-cache triplet for `.html`, none otherwise. */
  lemma CacheHeadersByExtension(ext: string, farExpires: string)
    ensures var cache := CacheHeaders(ext, farExpires);
      && CacheOnly(cache)
      && (ext in LongLivedExtensions ==>
            cache == map[CacheControl := "public, max-age=31536000", Expires := farExpires])
      && (ext == ".html" ==> cache == NoStoreHeaders)
      && (ext !in LongLivedExtensions && ext != ".html" ==> cache == map[])
  {
    assert ".html" !in LongLivedExtensions;
  }

  /** The response for a path where a file exists. */
  lemma ExistingFileResponse(verb: string, url: string, fs: FileSystem, root: Directory, farExpires: string, content: string)
    requires Lookup(fs, Join(root, RequestPath(url))) == Some(File(content))
    ensures var ext := Extension(RequestPath(url));
      Resolve(verb, url, fs, root, farExpires)
        == Response(200, FileHeaders(TypeFor(MimeTypes, ext), CacheHeaders(ext, farExpires)),
                    FileBody(Join(root, RequestPath(url)), content))
  {
  }

  /** An existing file is served with its own contents, the MIME type of
      its lowercased extension (binary when unknown), the CORS headers and
      the five security headers. */
  lemma ExistingFileServed(verb: string, url: string, fs: FileSystem, root: Directory, farExpires: string, content: string)
    requires Lookup(fs, Join(root, RequestPath(url))) == Some(File(content))
    ensures var r := Resolve(verb, url, fs, root, farExpires);
      var ext := ToLower(ExtName(RequestPath(url)));
      && r.status == 200
      && r.body == FileBody(Join(root, RequestPath(url)), content)
      && ContentType in r.headers
      && (ext in MimeTypes ==> r.headers[ContentType] == MimeTypes[ext])
      && (ext !in MimeTypes ==> r.headers[ContentType] == "application/octet-stream")
      && Carries(r.headers, CorsHeaders)
      && Carries(r.headers, SecurityHeaders)
  {
    var ext := Extension(RequestPath(url));
    ExistingFileResponse(verb, url, fs, root, farExpires, content);
    CacheHeadersByExtension(ext, farExpires);
    FileHeadersCarry(TypeFor(MimeTypes, ext), CacheHeaders(ext, farExpires));
  }

  /** An existing file's response sets exactly the cache headers its
      lowercased extension calls for, with their values. */
  lemma ExistingFileCachePolicy(verb: string, url: string, fs: FileSystem, root: Directory, farExpires: string, content: string)
    requires Lookup(fs, Join(root, RequestPath(url))) == Some(File(content))
    ensures var h := Resolve(verb, url, fs, root, farExpires).headers;
      var cache := CacheHeaders(ToLower(ExtName(RequestPath(url))), farExpires);
      && Carries(h, cache)
      && (forall k :: k in h && k in {CacheControl, Pragma, Expires} ==> k in cache)
  {
    var ext := Extension(RequestPath(url));
    ExistingFileResponse(verb, url, fs, root, farExpires, content);
    CacheHeadersByExtension(ext, farExpires);
    FileHeadersCarry(TypeFor(MimeTypes, ext), CacheHeaders(ext, farExpires));
    FileHeadersCacheOnly(TypeFor(MimeTypes, ext), CacheHeaders(ext, farExpires));
  }

  /** The fallback's header set names no CORS or security header. */
  lemma IndexHeadersCarryNone()
    ensures CarriesNone(IndexHeaders, SecurityHeaders) && CarriesNone(IndexHeaders, CorsHeaders)
  {
    var ct := map[ContentType := HtmlType];
    assert CarriesNone(ct, SecurityHeaders) && CarriesNone(ct, CorsHeaders);
    assert CarriesNone(NoStoreHeaders, SecurityHeaders) && CarriesNone(NoStoreHeaders, CorsHeaders);
    CarriesNoneUnion(ct, NoStoreHeaders, SecurityHeaders);
    CarriesNoneUnion(ct, NoStoreHeaders, CorsHeaders);
  }

  /** The 404 and 500 header set names no CORS or security header. */
  lemma TextHeadersCarryNone()
    ensures CarriesNone(TextHeaders, SecurityHeaders) && CarriesNone(TextHeaders, CorsHeaders)
  {
  }

  /** Only an existing file's response carries the security and CORS
      headers: the index fallback, the 404 and the 500 carry none. */
  lemma SecurityHeadersOnlyOnFiles(verb: string, url: string, fs: FileSystem, root: Directory, farExpires: string)
    requires !Exists(fs, Join(root, RequestPath(url))) || Lookup(fs, Join(root, RequestPath(url))) == Some(Dir)
    ensures var h := Resolve(verb, url, fs, root, farExpires).headers;
      CarriesNone(h, SecurityHeaders) && CarriesNone(h, CorsHeaders)
  {
    var h := Resolve(verb, url, fs, root, farExpires).headers;
    assert h == IndexHeaders || h == TextHeaders;
    IndexHeadersCarryNone();
    TextHeadersCarryNone();
  }

  /** A path that is a directory reaches `readFileSync` and fails. */
  lemma DirectoryIsServerError(verb: string, url: string, fs: FileSystem, root: Directory, farExpires: string)
    requires Lookup(fs, Join(root, RequestPath(url))) == Some(Dir)
    ensures Resolve(verb, url, fs, root, farExpires) == ServerError
  {
  }

  /** With no confinement check, a leading `..` reaches files beside the
      server's directory: in `/srv/app`, `/../name` serves `/srv/name`. */
  lemma ParentSegmentsLeaveRoot(verb: string, fs: FileSystem, root: Directory, farExpires: string,
                                name: string, content: string)
    requires root != [] && NormalSegment(name) && '?' !in name
    requires Lookup(fs, Render(root[..|root| - 1] + [name])) == Some(File(content))
    ensures var r := Resolve(verb, "/../" + name, fs, root, farExpires);
      r.status == 200 && r.body == FileBody(Render(root[..|root| - 1] + [name]), content)
  {
    var url := "/../" + name;
    assert '?' !in url;
    StripQueryOfQueryFree(url);
    assert RequestPath(url) == url;
    SiblingJoin(root, name);
    ExistingFileResponse(verb, url, fs, root, farExpires, content);
  }
}
