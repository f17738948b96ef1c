/**
 * One HTTP transaction of the Tiny server: `read_requesthdrs`
 * (tiny/tiny.c:104-113) and `doit` (tiny/tiny.c:42-82), with the socket
 * replaced by a `LineReader` and a `Connection`, `stat` and the file system
 * by a map from paths to files, and the CGI child by a function from what
 * it is started with to what it prints.
 */
module Tiny {
  import opened Wrappers
  import opened CStrings
  import opened Http
  import opened Rio
  import opened TinyUri
  import opened TinyResponse

  /** The line that ends the request headers. */
  const BlankLine: string := "\r\n"

  /** How many lines `read_requesthdrs` consumes: every line up to and including the first blank one. */
  function HeaderBlockLength(lines: seq<string>): (n: nat)
    requires BlankLine in lines
    ensures 0 < n <= |lines|
    ensures lines[n - 1] == BlankLine
    ensures BlankLine !in lines[..n - 1]
  {
    if lines[0] == BlankLine then 1
    else
      var n := 1 + HeaderBlockLength(lines[1..]);
      assert lines[..n - 1] == [lines[0]] + lines[1..][..n - 2];
      n
  }

  /**
   * `read_requesthdrs`: reads lines until it has read one equal to CR LF.
   * The input is taken to hold such a line (at end of input `Rio_readlineb`
   * would leave the buffer unchanged and the loop would not end).
   */
  method ReadRequestHeaders(rio: LineReader)
    requires rio.Valid() && BlankLine in rio.Unread()
    modifies rio
    ensures rio.Valid()
    ensures rio.pos == old(rio.pos) + HeaderBlockLength(old(rio.Unread()))
    ensures rio.Unread() == old(rio.Unread())[HeaderBlockLength(old(rio.Unread()))..]
  {
    ghost var start := rio.pos;
    ghost var n := HeaderBlockLength(rio.lines[start..]);
    var buf := rio.ReadLine();
    while buf != BlankLine
      invariant rio.Valid() && start < rio.pos <= start + n
      invariant buf == rio.lines[rio.pos - 1]
      invariant BlankLine !in rio.lines[start..rio.pos - 1]
      decreases start + n - rio.pos
    {
      assert rio.lines[rio.pos - 1] == rio.lines[start..][rio.pos - 1 - start];
      assert rio.pos - start < n;
      assert rio.lines[start..rio.pos] == rio.lines[start..rio.pos - 1] + [buf];
      buf := rio.ReadLine();
    }
    assert rio.pos - start == n;
  }

  /** A file as `stat` and `mmap` see it. */
  datatype FileInfo = FileInfo(isRegular: bool, userReadable: bool, userExecutable: bool, contents: string)

  /** The fields of `struct stat` that `doit` looks at; `found` is false when `stat` fails. */
  datatype Stat = Stat(found: bool, isRegular: bool, userReadable: bool, userExecutable: bool, size: nat)

  /** `stat(path, &sbuf)` over the file system `fs`. */
  function StatOf(fs: map<string, FileInfo>, path: string): (st: Stat)
    ensures st.found <==> path in fs
    ensures st.found ==> st.size == |fs[path].contents|
  {
    if path in fs then
      var f := fs[path];
      Stat(true, f.isRegular, f.userReadable, f.userExecutable, |f.contents|)
    else Stat(false, false, false, false, 0)
  }

  /** `strcasecmp(method, "GET") == 0`. */
  predicate IsGet(requestMethod: string)
  {
    EqualsIgnoreCase(requestMethod, "GET")
  }

  /** The request line's tokens as `sscanf(buf, "%s %s %s", ...)` reads them. */
  function RequestTokens(line: string): seq<string>
  {
    Tokens(CString(line))
  }

  /**
   * The request lines `doit` handles in a defined way: there is a method
   * token, and for a GET also a target token. With fewer tokens `sscanf`
   * leaves the buffers unset. The version token is never used.
   */
  predicate RequestLineUsable(line: string)
  {
    var t := RequestTokens(line);
    |t| >= 1 && (IsGet(t[0]) ==> |t| >= 2)
  }

  function RequestMethod(line: string): string
    requires RequestLineUsable(line)
  {
    RequestTokens(line)[0]
  }

  function RequestUri(line: string): (uri: string)
    requires RequestLineUsable(line)
    ensures IsGet(RequestMethod(line)) ==> IsWord(uri)
  {
    var t := RequestTokens(line);
    TokensAreWords(CString(line));
    if |t| >= 2 then t[1] else []
  }

  /** The one response a transaction ends in. */
  datatype Outcome =
    | NotImplemented(requestMethod: string)
    | NotFound(filename: string)
    | Forbidden(filename: string, isStatic: bool)
    | ServeStaticFile(filename: string, size: nat)
    | ServeCgi(request: CgiRequest)

  /** The decision `doit` takes, in the order it takes it: the method first, then the file. */
  function Decide(requestMethod: string, uri: string, fs: map<string, FileInfo>): (o: Outcome)
    requires IsGet(requestMethod) ==> |uri| > 0
    ensures o.ServeStaticFile? ==> o.filename in fs && o.size == |fs[o.filename].contents|
  {
    if !IsGet(requestMethod) then NotImplemented(requestMethod) else Check(Classify(uri), fs)
  }

  /** What `doit` answers a GET whose target `parse_uri` classified as `r`: 404 before 403. */
  function Check(r: Resource, fs: map<string, FileInfo>): (o: Outcome)
    ensures !o.NotImplemented?
    ensures o.ServeStaticFile? ==> o.filename in fs && o.size == |fs[o.filename].contents|
  {
    var st := StatOf(fs, r.filename);
    if !st.found then NotFound(r.filename)
    else if r.isStatic then
      if !st.isRegular || !st.userReadable then Forbidden(r.filename, true)
      else ServeStaticFile(r.filename, st.size)
    else
      if !st.isRegular || !st.userExecutable then Forbidden(r.filename, false)
      else ServeCgi(CgiRequest(r.filename, r.cgiargs))
  }

  /** The status code, short message and long message of each error `doit` sends. */
  const Code501: string := "501"
  const Short501: string := "Not implemented"
  const Long501: string := "Tiny does not implement this method"
  const Code404: string := "404"
  const Short404: string := "Not found"
  const Long404: string := "Tiny couldn't find this file"
  const Code403: string := "403"
  const Short403: string := "Forbidden"
  const Long403Static: string := "Tiny couldn't read the file"
  const Long403Dynamic: string := "Tiny couldn't run the CGI program"

  /** Everything written to the connection for an outcome: one producer's output. */
  function Respond(o: Outcome, fs: map<string, FileInfo>, run: CgiRequest -> string): string
    requires o.ServeStaticFile? ==> o.filename in fs && o.size == |fs[o.filename].contents|
  {
    match o
    case NotImplemented(m) => ErrorResponse(m, Code501, Short501, Long501)
    case NotFound(f) => ErrorResponse(f, Code404, Short404, Long404)
    case Forbidden(f, isStatic) =>
      if isStatic then ErrorResponse(f, Code403, Short403, Long403Static)
      else ErrorResponse(f, Code403, Short403, Long403Dynamic)
    case ServeStaticFile(f, size) => StaticHead(f, size) + fs[f].contents
    case ServeCgi(request) => DynamicHead() + run(request)
  }

  /**
   * `doit`: reads the request line, rejects any method but GET (in any
   * case) before reading the headers, skips the headers and answers the
   * target.
   */
  method Doit(conn: Connection, rio: LineReader, fs: map<string, FileInfo>, run: CgiRequest -> string)
    requires rio.Valid() && rio.pos < |rio.lines|
    requires RequestLineUsable(rio.lines[rio.pos])
    requires IsGet(RequestMethod(rio.lines[rio.pos])) ==> BlankLine in rio.lines[rio.pos + 1..]
    modifies conn, rio
    ensures rio.Valid()
    ensures var line := rio.lines[old(rio.pos)];
      var o := Decide(RequestMethod(line), RequestUri(line), fs);
      && conn.written == old(conn.written) + Respond(o, fs, run)
      && rio.pos == old(rio.pos) + 1
           + (if o.NotImplemented? then 0 else HeaderBlockLength(rio.lines[old(rio.pos) + 1..]))
  {
    var buf := rio.ReadLine();
    var toks := Tokens(CString(buf));
    var requestMethod := toks[0];
    if !EqualsIgnoreCase(requestMethod, "GET") {
      ClientError(conn, requestMethod, Code501, Short501, Long501);
      return;
    }
    ReadRequestHeaders(rio);
    TokensAvoid(CString(buf), NUL);
    TokensAreWords(CString(buf));
    ServeTarget(conn, fs, run, toks[1]);
  }

  /** The part of `doit` after the headers: parse the URI, then answer it. */
  method ServeTarget(conn: Connection, fs: map<string, FileInfo>, run: CgiRequest -> string, target: string)
    requires |target| > 0 && NUL !in target
    modifies conn
    ensures conn.written == old(conn.written) + Respond(Check(Classify(target), fs), fs, run)
  {
    var uri := new char[|target|](i requires 0 <= i < |target| => target[i]);
    assert uri[..] == target;
    var isStatic, filename, cgiargs := ParseUri(uri);
    Answer(conn, fs, run, isStatic, filename, cgiargs);
  }

  /** `stat` the file `parse_uri` named, then send the one response `Check` chooses. */
  method Answer(conn: Connection, fs: map<string, FileInfo>, run: CgiRequest -> string,
                isStatic: bool, filename: string, cgiargs: string)
    modifies conn
    ensures conn.written == old(conn.written) + Respond(Check(Resource(isStatic, filename, cgiargs), fs), fs, run)
  {
    var sbuf := StatOf(fs, filename);
    if !sbuf.found {
      ClientError(conn, filename, Code404, Short404, Long404);
    } else if isStatic {
      AnswerStatic(conn, fs, run, filename, cgiargs);
    } else {
      AnswerDynamic(conn, fs, run, filename, cgiargs);
    }
  }

  /** A static target that exists: 403 unless it is a regular file its owner may read. */
  method AnswerStatic(conn: Connection, fs: map<string, FileInfo>, run: CgiRequest -> string,
                      filename: string, cgiargs: string)
    requires filename in fs
    modifies conn
    ensures conn.written == old(conn.written) + Respond(Check(Resource(true, filename, cgiargs), fs), fs, run)
  {
    var sbuf := StatOf(fs, filename);
    if !sbuf.isRegular || !sbuf.userReadable {
      assert Check(Resource(true, filename, cgiargs), fs) == Forbidden(filename, true);
      ClientError(conn, filename, Code403, Short403, Long403Static);
    } else {
      assert Check(Resource(true, filename, cgiargs), fs) == ServeStaticFile(filename, sbuf.size);
      ServeStatic(conn, filename, sbuf.size, fs[filename].contents);
    }
  }

  /** A CGI target that exists: 403 unless it is a regular file its owner may execute. */
  method AnswerDynamic(conn: Connection, fs: map<string, FileInfo>, run: CgiRequest -> string,
                       filename: string, cgiargs: string)
    requires filename in fs
    modifies conn
    ensures conn.written == old(conn.written) + Respond(Check(Resource(false, filename, cgiargs), fs), fs, run)
  {
    var sbuf := StatOf(fs, filename);
    if !sbuf.isRegular || !sbuf.userExecutable {
      assert Check(Resource(false, filename, cgiargs), fs) == Forbidden(filename, false);
      ClientError(conn, filename, Code403, Short403, Long403Dynamic);
    } else {
      assert Check(Resource(false, filename, cgiargs), fs) == ServeCgi(CgiRequest(filename, cgiargs));
      var request := ServeDynamic(conn, filename, cgiargs, run);
    }
  }

  /** The permission bit `doit` tests: read for a static file, execute for a CGI program. */
  predicate Permitted(f: FileInfo, isStatic: bool)
  {
    f.isRegular && (if isStatic then f.userReadable else f.userExecutable)
  }

  /**
   * Any method other than GET, in any case, is answered with a 501 naming
   * the method, whatever the target and whatever the files: the file system
   * is not consulted.
   */
  lemma NotGetIs501(m: string, uri: string, fs: map<string, FileInfo>, uri': string, fs': map<string, FileInfo>)
    requires !IsGet(m)
    ensures Decide(m, uri, fs) == NotImplemented(m) == Decide(m, uri', fs')
  {
  }

  /** The method test is `strcasecmp`: every capitalisation of GET passes, nothing else does. */
  lemma IsGetCases(m: string)
    ensures IsGet(m) <==> m in {"GET", "GEt", "GeT", "Get", "gET", "gEt", "geT", "get"}
  {
    if IsGet(m) {
      assert ToLower(m[0]) == 'g' && ToLower(m[1]) == 'e' && ToLower(m[2]) == 't';
      assert m[0] in "Gg" && m[1] in "Ee" && m[2] in "Tt";
      assert m == [m[0], m[1], m[2]];
    }
  }

  /**
   * The order of the checks on a GET: a missing file is a 404 whatever the
   * target asks for; a file that exists but is not a regular file with the
   * needed permission is a 403 (never a 404); only otherwise is the file
   * served or the program run, with the arguments `parse_uri` split off.
   */
  lemma CheckOrder(r: Resource, fs: map<string, FileInfo>)
    ensures var o := Check(r, fs);
      && (o.NotFound? <==> r.filename !in fs)
      && (o.Forbidden? <==> r.filename in fs && !Permitted(fs[r.filename], r.isStatic))
      && (o.ServeStaticFile? <==> r.filename in fs && r.isStatic && Permitted(fs[r.filename], true))
      && (o.ServeCgi? <==> r.filename in fs && !r.isStatic && Permitted(fs[r.filename], false))
      && (o.NotFound? || o.Forbidden? || o.ServeStaticFile? ==> o.filename == r.filename)
      && (o.Forbidden? ==> o.isStatic == r.isStatic)
      && (o.ServeCgi? ==> o.request == CgiRequest(r.filename, r.cgiargs))
  {
  }

  /**
   * Every response `doit` writes itself parses back as one HTTP/1.0
   * response whose Content-length is the length of its body: the error
   * pages with their status lines, the static file with its exact bytes.
   */
  lemma RespondFramed(o: Outcome, fs: map<string, FileInfo>, run: CgiRequest -> string)
    requires o.ServeStaticFile? ==> o.filename in fs && o.size == |fs[o.filename].contents|
    requires !o.ServeCgi?
    ensures var p := ParseResponse(Respond(o, fs, run));
      && p.Some? && WellFramed(p.value)
      && (o.NotImplemented? ==> p.value.status == ErrorStatus(Code501, Short501))
      && (o.NotFound? ==> p.value.status == ErrorStatus(Code404, Short404))
      && (o.Forbidden? ==> p.value.status == ErrorStatus(Code403, Short403))
      && (o.ServeStaticFile? ==> p.value.status == StaticStatus && p.value.body == fs[o.filename].contents)
  {
    assert IsLineText(Code501) && IsLineText(Short501);
    assert IsLineText(Code404) && IsLineText(Short404);
    assert IsLineText(Code403) && IsLineText(Short403);
    match o
    case NotImplemented(m) => ErrorResponseFramed(m, Code501, Short501, Long501);
    case NotFound(f) => ErrorResponseFramed(f, Code404, Short404, Long404);
    case Forbidden(f, isStatic) =>
      if isStatic {
        ErrorResponseFramed(f, Code403, Short403, Long403Static);
      } else {
        ErrorResponseFramed(f, Code403, Short403, Long403Dynamic);
      }
    case ServeStaticFile(f, size) => StaticResponseFramed(f, fs[f].contents);
  }

  /**
   * A CGI response is the status line and Server header followed by the
   * program's output; when that output is header lines, a blank line and
   * a body, the whole reads back as one response carrying them.
   */
  lemma RespondCgiFramed(o: Outcome, fs: map<string, FileInfo>, run: CgiRequest -> string,
                         headers: seq<string>, body: string)
    requires o.ServeCgi? && ProperHeaders(headers)
    requires run(o.request) == Lines(headers) + CRLF + body
    ensures ParseResponse(Respond(o, fs, run)) == Some(Response(DynamicStatus, [ServerLine] + headers, body))
  {
    assert Respond(o, fs, run) == DynamicHead() + run(o.request);
    DynamicResponseFramed(headers, body);
  }

  /** The request line `m uri version` as a client sends it. */
  function RequestLine(m: string, uri: string, version: string): string
  {
    m + " " + uri + " " + version + CRLF
  }

  /** A request line of three NUL-free words reads back as those words. */
  lemma RequestLineOf(m: string, uri: string, version: string)
    requires IsWord(m) && IsWord(uri) && IsWord(version)
    requires NUL !in m && NUL !in uri && NUL !in version
    ensures RequestTokens(RequestLine(m, uri, version)) == [m, uri, version]
  {
    var ws := [m, uri, version];
    var line := RequestLine(m, uri, version);
    assert JoinWords(ws[2..]) == version;
    assert JoinWords(ws) + CRLF == line;
    TokensOfJoinWords(ws, CRLF);
    assert Tokens(CRLF) == [];
    CStringWhole(line);
  }

  /** `doit` decides on a well-formed request line by its method and target alone. */
  lemma RequestLineDecides(m: string, uri: string, version: string, fs: map<string, FileInfo>)
    requires IsWord(m) && IsWord(uri) && IsWord(version)
    requires NUL !in m && NUL !in uri && NUL !in version
    ensures var line := RequestLine(m, uri, version);
      && RequestLineUsable(line)
      && RequestMethod(line) == m && RequestUri(line) == uri
      && Decide(RequestMethod(line), RequestUri(line), fs) == Decide(m, uri, fs)
  {
    RequestLineOf(m, uri, version);
  }

  /** `GET /home.html` with a readable 1024-byte `./home.html`: the file is served as text/html. */
  lemma ScenarioHome(m: string, uri: string, fs: map<string, FileInfo>)
    requires m == "GET" && uri == "/home.html"
    requires "./home.html" in fs && Permitted(fs["./home.html"], true)
    requires |fs["./home.html"].contents| == 1024
    ensures Decide(m, uri, fs) == ServeStaticFile("./home.html", 1024)
    ensures FileType("./home.html") == "text/html"
  {
    IsGetCases(m);
    NotContainsMissingChar(uri, DynamicMarker, 0);
    StaticVerbatim(uri);
    var filename := Root + uri;
    assert filename == "./home.html";
    assert OccursAt(filename, ".html", 6);
  }

  /** `GET /missing.html` with no such file: a 404 whose cause is `./missing.html`. */
  lemma ScenarioMissing(m: string, uri: string, fs: map<string, FileInfo>)
    requires m == "GET" && uri == "/missing.html"
    requires "./missing.html" !in fs
    ensures Decide(m, uri, fs) == NotFound("./missing.html")
  {
    IsGetCases(m);
    NotContainsMissingChar(uri, DynamicMarker, 0);
    StaticVerbatim(uri);
    assert Root + uri == "./missing.html";
  }

  /** `POST /home.html`: a 501 whose cause is `POST`, whatever the files. */
  lemma ScenarioPost(m: string, uri: string, fs: map<string, FileInfo>)
    requires m == "POST" && uri == "/home.html"
    ensures Decide(m, uri, fs) == NotImplemented("POST")
  {
    IsGetCases(m);
  }

  /** `GET /cgi-bin/adder?15&20` with an executable adder: it is run with QUERY_STRING `15&20`. */
  lemma ScenarioAdder(m: string, uri: string, fs: map<string, FileInfo>)
    requires m == "GET" && uri == "/cgi-bin/adder?15&20"
    requires "./cgi-bin/adder" in fs && Permitted(fs["./cgi-bin/adder"], false)
    ensures Decide(m, uri, fs) == ServeCgi(CgiRequest("./cgi-bin/adder", "15&20"))
  {
    IsGetCases(m);
    AdderTarget(uri);
  }

  /** A static file that exists but may not be read is a 403, not a 404. */
  lemma UnreadableIs403(uri: string, fs: map<string, FileInfo>)
    requires |uri| > 0
    requires Classify(uri).isStatic && Classify(uri).filename in fs
    requires !fs[Classify(uri).filename].userReadable
    ensures Decide("GET", uri, fs) == Forbidden(Classify(uri).filename, true)
  {
    IsGetCases("GET");
  }
}
