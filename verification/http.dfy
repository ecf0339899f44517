/** What the three servers share: the filesystem they read, the responses
    they produce and the header sets more than one of them attaches. */
module Http {
  import opened Wrappers
  import opened Text
  import opened PosixPath

  /** What exists at a path: a regular file with its contents, or a
      directory. */
  datatype Entry = File(content: string) | Dir

  /** The filesystem as seen by `existsSync` and `readFileSync`: canonical
      absolute paths (no trailing `/`) mapped to what is there; a path
      that is not a key does not exist. */
  type FileSystem = map<string, Entry>

  /** What `existsSync`/`readFileSync` find at `path`. A path ending in
      `/` names a directory: it resolves only when a directory is there. */
  function Lookup(fs: FileSystem, path: string): (e: Option<Entry>)
    ensures e.Some? && EndsWith(path, "/") && |path| > 1 ==> e == Some(Dir)
    ensures EndsWith(path, "/") && |path| > 1 ==>
      (e == Some(Dir) <==> path[..|path| - 1] in fs && fs[path[..|path| - 1]].Dir?)
    ensures !EndsWith(path, "/") || |path| <= 1 ==> e == (if path in fs then Some(fs[path]) else None)
  {
    if |path| > 1 && path[|path| - 1] == '/' then
      var dir := path[..|path| - 1];
      if dir in fs && fs[dir].Dir? then Some(Dir) else None
    else if path in fs then Some(fs[path])
    else None
  }

  /** Where a server rooted at `root` keeps its entry document. */
  function IndexPath(root: Directory): string {
    Join(root, "index.html")
  }

  /** `fs.existsSync(path)`. */
  predicate Exists(fs: FileSystem, path: string) {
    Lookup(fs, path).Some?
  }

  /** The errors `readFileSync` raises in the model. */
  datatype IoError = IsDirectory | NoEntry(path: string) {
    /** The `message` of the error Node throws. */
    function Message(): string {
      match this
      case IsDirectory => "EISDIR: illegal operation on a directory, read"
      case NoEntry(path) => "ENOENT: no such file or directory, open '" + path + "'"
    }
  }

  /** `fs.readFileSync(path)`: the file's contents, or the error thrown. */
  function ReadFile(fs: FileSystem, path: string): (r: Result<string, IoError>)
    ensures r.Success? ==> Lookup(fs, path) == Some(File(r.value))
    ensures Lookup(fs, path).Some? && Lookup(fs, path).value.File? ==> r == Success(Lookup(fs, path).value.content)
    ensures r == Failure(IsDirectory) <==> Lookup(fs, path) == Some(Dir)
    ensures r == Failure(NoEntry(path)) <==> !Exists(fs, path)
  {
    match Lookup(fs, path)
    case None => Failure(NoEntry(path))
    case Some(Dir) => Failure(IsDirectory)
    case Some(File(content)) => Success(content)
  }

  /** The response headers the servers set, by name. */
  datatype HeaderName =
    | ContentType | CacheControl | Pragma | Expires | Allow
    | AllowOrigin | AllowMethods | AllowHeaders
    | ContentTypeOptions | FrameOptions | XssProtection | ReferrerPolicy | ContentSecurityPolicy
  {
    /** The header's name on the wire. */
    function Name(): string {
      match this
      case ContentType => "Content-Type"
      case CacheControl => "Cache-Control"
      case Pragma => "Pragma"
      case Expires => "Expires"
      case Allow => "Allow"
      case AllowOrigin => "Access-Control-Allow-Origin"
      case AllowMethods => "Access-Control-Allow-Methods"
      case AllowHeaders => "Access-Control-Allow-Headers"
      case ContentTypeOptions => "X-Content-Type-Options"
      case FrameOptions => "X-Frame-Options"
      case XssProtection => "X-XSS-Protection"
      case ReferrerPolicy => "Referrer-Policy"
      case ContentSecurityPolicy => "Content-Security-Policy"
    }
  }

  type Headers = map<HeaderName, string>

  /** Where a response body comes from. */
  datatype Body =
    | NoBody
      /** The contents of the file at `path`, read by the handler. */
    | FileBody(path: string, content: string)
      /** The file at `path`, handed to Express's `res.sendFile`. */
    | SentFile(path: string)
      /** Text the handler produces itself. */
    | TextBody(text: string)
      /** The entry document simple-server.js builds from the text `index`
          of `index.html`; its text is `SimpleServer.EntryDocument(index)`. */
    | EntryBody(index: string)
      /** One of the fixed pages of express-server.js; its text is
          `ExpressPages.PageText(page)`. */
    | FixedPage(page: PageName)

  /** The fixed pages express-server.js sends itself. */
  datatype PageName = MissingIndexPage | ErrorPage

  datatype Response = Response(status: nat, headers: Headers, body: Body)

  /** Every header of `sub` is set in `h` with the same value. */
  predicate Carries(h: Headers, sub: Headers) {
    forall k :: k in sub ==> k in h && h[k] == sub[k]
  }

  /** No header name of `sub` is set in `h`. */
  predicate CarriesNone(h: Headers, sub: Headers) {
    forall k :: k in sub ==> k !in h
  }

  /** A union carries every header of its right operand. */
  lemma CarriesRight(a: Headers, b: Headers)
    ensures Carries(a + b, b)
  {
  }

  /** A union keeps the headers of its left operand that the right one
      does not name. */
  lemma CarriesLeft(a: Headers, b: Headers, sub: Headers)
    requires Carries(a, sub)
    requires sub.Keys !! b.Keys
    ensures Carries(a + b, sub)
  {
  }

  /** A union names none of `sub`'s headers if neither operand does. */
  lemma CarriesNoneUnion(a: Headers, b: Headers, sub: Headers)
    requires CarriesNone(a, sub) && CarriesNone(b, sub)
    ensures CarriesNone(a + b, sub)
  {
  }

  /** The CORS headers of server.js and simple-server.js. */
  const CorsHeaders: Headers := map[
    AllowOrigin := "*",
    AllowMethods := "GET, POST, PUT, DELETE, OPTIONS",
    AllowHeaders := "Content-Type, Authorization"
  ]

  /** The "never cache" triplet of server.js and express-server.js. */
  const NoStoreHeaders: Headers := map[
    CacheControl := "no-cache, no-store, must-revalidate",
    Pragma := "no-cache",
    Expires := "0"
  ]

  const HtmlType := "text/html; charset=utf-8"
  const PlainTextType := "text/plain; charset=utf-8"
  const OctetStream := "application/octet-stream"

  /** The content type for an extension: the table's entry, or the
      generic binary type for an extension the table lacks. When no entry
      of the table is the binary type, a response is typed binary exactly
      when its extension is unknown. */
  function TypeFor(table: map<string, string>, ext: string): (ct: string)
    ensures ct in table.Values || ct == OctetStream
    ensures ext in table ==> ct == table[ext]
    ensures OctetStream !in table.Values ==> (ct == OctetStream <==> ext !in table)
  {
    if ext in table then table[ext] else OctetStream
  }
}
