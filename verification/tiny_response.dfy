/**
 * The responses Tiny writes: `get_filetype` (tiny/tiny.c:167-178), the
 * error page of `clienterror` (tiny/tiny.c:84-102), the header block of
 * `serve_static` (tiny/tiny.c:141-162) and the two lines `serve_dynamic`
 * writes before it hands the connection to the CGI program
 * (tiny/tiny.c:180-196).
 */
module TinyResponse {
  import opened Wrappers
  import opened CStrings
  import Decimal
  import opened Http
  import opened Rio

  /** The content type of each file name extension, in the order they are tried. */
  const TypeTable: seq<(string, string)> :=
    [(".html", "text/html"), (".gif", "image/gif"), (".png", "image/png"), (".jpg", "image/jpg")]

  /** The content type of a file that matches no entry. */
  const DefaultType: string := "text/plain"

  /** Entry `i` is the first entry of the table whose extension occurs in `filename`. */
  predicate FirstMatch(filename: string, i: nat)
  {
    && i < |TypeTable|
    && Contains(filename, TypeTable[i].0)
    && forall j :: 0 <= j < i ==> !Contains(filename, TypeTable[j].0)
  }

  /**
   * `get_filetype`: the type of the first extension in the table that
   * occurs anywhere in the file name (a substring, not a suffix test),
   * or `text/plain` when none occurs.
   */
  function FileType(filename: string): (t: string)
    ensures forall i: nat :: FirstMatch(filename, i) ==> t == TypeTable[i].1
    ensures (forall i :: 0 <= i < |TypeTable| ==> !Contains(filename, TypeTable[i].0)) ==> t == DefaultType
    ensures t != [] && IsLineText(t)
  {
    assert TypeTable[0] == (".html", "text/html") && TypeTable[1] == (".gif", "image/gif");
    assert TypeTable[2] == (".png", "image/png") && TypeTable[3] == (".jpg", "image/jpg");
    if Contains(filename, ".html") then "text/html"
    else if Contains(filename, ".gif") then "image/gif"
    else if Contains(filename, ".png") then "image/png"
    else if Contains(filename, ".jpg") then "image/jpg"
    else "text/plain"
  }

  /** An extension anywhere in the name counts: `index.html.bak` is served as HTML. */
  lemma FileTypeBySubstring(filename: string)
    requires filename == "./index.html.bak"
    ensures FileType(filename) == "text/html"
  {
    assert OccursAt(filename, ".html", 7);
  }

  /** The table order decides between two extensions: `.html` wins over `.jpg`. */
  lemma FileTypeByOrder(filename: string)
    requires filename == "./photo.jpg.html"
    ensures FileType(filename) == "text/html"
  {
    assert OccursAt(filename, ".html", 11);
  }

  const HtmlTypeLine: string := "Content-type: text/html"

  /** The HTML page `clienterror` sends; `"<body bgcolor=""ffffff"">"` is three adjacent C literals, so no quotes. */
  function ErrorBody(cause: string, errnum: string, shortmsg: string, longmsg: string): string
  {
    "<html><title>Tiny Error</title>"
    + "<body bgcolor=ffffff>\r\n"
    + errnum + ": " + shortmsg + "\r\n"
    + "<p>" + longmsg + ": " + cause + "\r\n"
    + "<hr><em>The Tiny Web server</em>\r\n"
  }

  /** The status line `clienterror` sends: a single line when its parts hold no CR. */
  function ErrorStatus(errnum: string, shortmsg: string): (r: string)
    ensures "HTTP/1.0 " <= r
    ensures IsLineText(errnum) && IsLineText(shortmsg) ==> IsLineText(r)
  {
    "HTTP/1.0 " + errnum + " " + shortmsg
  }

  /** Everything `clienterror` writes to the connection, in the order it writes it. */
  function ErrorResponse(cause: string, errnum: string, shortmsg: string, longmsg: string): string
  {
    var body := ErrorBody(cause, errnum, shortmsg, longmsg);
    Line(ErrorStatus(errnum, shortmsg))
    + Line(HtmlTypeLine)
    + (Line(ContentLengthName + Decimal.FromNat(|body|)) + CRLF)
    + body
  }

  /** The fixed header lines are proper lines, and none of them is a Content-length header. */
  lemma FixedLines()
    ensures HtmlTypeLine == "Content-type: " + "text/html"
    ensures HtmlTypeLine != [] && IsLineText(HtmlTypeLine) && !(ContentLengthName <= HtmlTypeLine)
    ensures ServerLine != [] && IsLineText(ServerLine) && !(ContentLengthName <= ServerLine)
    ensures ConnectionLine != [] && IsLineText(ConnectionLine) && !(ContentLengthName <= ConnectionLine)
    ensures IsLineText(StaticStatus) && IsLineText(DynamicStatus) && IsLineText(ContentTypeName)
    ensures IsLineText("HTTP/1.0 ") && IsLineText(" ")
  {
    NotContentLength(HtmlTypeLine);
    NotContentLength(ServerLine);
    NotContentLength(ConnectionLine);
  }

  lemma ContentLengthLine(n: nat)
    ensures IsLineText(ContentLengthName + Decimal.FromNat(n))
  {
    var s := Decimal.FromNat(n);
    assert forall i :: 0 <= i < |s| ==> Decimal.IsDigit(s[i]);
    assert '\r' !in ContentLengthName;
  }

  /** A response whose header lines start with the Content-length of `n` announces `n`. */
  lemma ContentLengthIs(r: Response, n: nat)
    requires |r.headers| > 0 && r.headers[0] == ContentLengthName + Decimal.FromNat(n)
    ensures ContentLength(r) == Some(n)
  {
    HeaderValueHere(r.headers, ContentLengthName, Decimal.FromNat(n));
    Decimal.ParseFromNat(n);
  }

  /**
   * The error response reads back as the status line `HTTP/1.0 errnum
   * shortmsg`, an HTML content type and a Content-length equal to the
   * number of bytes of the page that follows the empty line, in that order.
   */
  lemma ErrorResponseFramed(cause: string, errnum: string, shortmsg: string, longmsg: string)
    requires IsLineText(errnum) && IsLineText(shortmsg)
    ensures var p := ParseResponse(ErrorResponse(cause, errnum, shortmsg, longmsg));
      && p.Some?
      && p.value.status == "HTTP/1.0 " + errnum + " " + shortmsg
      && p.value.body == ErrorBody(cause, errnum, shortmsg, longmsg)
      && p.value.headers == [HtmlTypeLine, ContentLengthName + Decimal.FromNat(|p.value.body|)]
      && HeaderValue(p.value.headers, "Content-type: ") == Some("text/html")
      && WellFramed(p.value)
  {
    var body := ErrorBody(cause, errnum, shortmsg, longmsg);
    var status := ErrorStatus(errnum, shortmsg);
    var lengthLine := ContentLengthName + Decimal.FromNat(|body|);
    var hs := [HtmlTypeLine, lengthLine];
    FixedLines();
    assert IsLineText(status);
    ContentLengthLine(|body|);
    HeadOfTwo(status, HtmlTypeLine, lengthLine);
    ParseResponseOfHead(status, hs, body);
    HeaderValueHere(hs, "Content-type: ", "text/html");
    HeaderValueSkip(hs, ContentLengthName);
    ContentLengthIs(Response(status, hs[1..], body), |body|);
  }

  /**
   * `clienterror`: assembles the page, then writes the status line, the
   * content type, the Content-length with the blank line, and the page.
   */
  method ClientError(conn: Connection, cause: string, errnum: string, shortmsg: string, longmsg: string)
    modifies conn
    ensures conn.written == old(conn.written) + ErrorResponse(cause, errnum, shortmsg, longmsg)
  {
    var body := "<html><title>Tiny Error</title>";
    body := body + "<body bgcolor=ffffff>\r\n";
    body := body + errnum + ": " + shortmsg + "\r\n";
    body := body + "<p>" + longmsg + ": " + cause + "\r\n";
    body := body + "<hr><em>The Tiny Web server</em>\r\n";
    assert body == ErrorBody(cause, errnum, shortmsg, longmsg);

    var status := Line(ErrorStatus(errnum, shortmsg));
    var contentType := Line(HtmlTypeLine);
    var contentLength := Line(ContentLengthName + Decimal.FromNat(|body|)) + CRLF;
    conn.Write(status);
    conn.Write(contentType);
    conn.Write(contentLength);
    conn.Write(body);
    assert ErrorResponse(cause, errnum, shortmsg, longmsg) == status + contentType + contentLength + body;
    AppendFour(old(conn.written), status, contentType, contentLength, body);
  }

  /** The status line of a static response, as written: the reason phrase is `0K` with a zero. */
  const StaticStatus: string := "HTTP/1.0 200 0K"
  const ServerLine: string := "Server: Tiny Web Server"
  const ConnectionLine: string := "Connection: close"
  const ContentTypeName: string := "Content-type: "

  /** The header block `serve_static` sends before the file. */
  function StaticHead(filename: string, filesize: nat): string
  {
    Line(StaticStatus)
    + Line(ServerLine)
    + Line(ConnectionLine)
    + Line(ContentLengthName + Decimal.FromNat(filesize))
    + (Line(ContentTypeName + FileType(filename)) + CRLF)
  }

  /**
   * A static response reads back as status, Server, Connection,
   * Content-length and Content-type, in that order, followed by exactly
   * the file's bytes, whose number the Content-length announces.
   */
  lemma StaticResponseFramed(filename: string, contents: string)
    ensures var p := ParseResponse(StaticHead(filename, |contents|) + contents);
      && p.Some?
      && p.value.status == StaticStatus
      && |p.value.headers| == 4
      && p.value.headers[0] == ServerLine
      && p.value.headers[1] == ConnectionLine
      && ContentLengthName <= p.value.headers[2]
      && p.value.headers[3] == ContentTypeName + FileType(filename)
      && p.value.body == contents
      && WellFramed(p.value)
  {
    var lengthLine := ContentLengthName + Decimal.FromNat(|contents|);
    var typeLine := ContentTypeName + FileType(filename);
    var hs := [ServerLine, ConnectionLine, lengthLine, typeLine];
    ContentLengthLine(|contents|);
    FixedLines();
    assert IsLineText(typeLine);
    HeadOfFour(StaticStatus, ServerLine, ConnectionLine, lengthLine, typeLine);
    ParseResponseOfHead(StaticStatus, hs, contents);
    HeaderValueSkip(hs, ContentLengthName);
    HeaderValueSkip(hs[1..], ContentLengthName);
    assert hs[1..][1..] == hs[2..];
    ContentLengthIs(Response(StaticStatus, hs[2..], contents), |contents|);
  }

  /**
   * `serve_static`: builds the header block in one buffer, writes it,
   * then writes the `filesize` bytes of the file (`contents`).
   */
  method ServeStatic(conn: Connection, filename: string, filesize: nat, contents: string)
    requires |contents| == filesize
    modifies conn
    ensures conn.written == old(conn.written) + (StaticHead(filename, filesize) + contents)
  {
    var filetype := FileType(filename);
    var buf := Line(StaticStatus);
    buf := buf + Line(ServerLine);
    buf := buf + Line(ConnectionLine);
    buf := buf + Line(ContentLengthName + Decimal.FromNat(filesize));
    buf := buf + (Line(ContentTypeName + filetype) + CRLF);
    conn.Write(buf);
    conn.Write(contents);
    AppendTwo(old(conn.written), buf, contents);
  }

  /** What the CGI child is started with: the program (no arguments) and its QUERY_STRING. */
  datatype CgiRequest = CgiRequest(program: string, queryString: string)

  const DynamicStatus: string := "HTTP/1.0 200 OK"

  /** The two lines `serve_dynamic` writes itself. */
  function DynamicHead(): string
  {
    Line(DynamicStatus) + Line(ServerLine)
  }

  /**
   * The rest of the framing belongs to the CGI program: when it prints
   * its own header lines and an empty line, the client reads Tiny's status
   * line, Tiny's Server header followed by the program's headers, and the
   * program's body.
   */
  lemma DynamicResponseFramed(headers: seq<string>, body: string)
    requires ProperHeaders(headers)
    ensures ParseResponse(DynamicHead() + (Lines(headers) + CRLF + body))
         == Some(Response(DynamicStatus, [ServerLine] + headers, body))
  {
    assert IsLineText(DynamicStatus) && ServerLine != [] && IsLineText(ServerLine);
    ParseResponseOfSplitHead(DynamicStatus, ServerLine, headers, body);
  }

  /**
   * `serve_dynamic`: writes the status line and the Server header; the
   * child then writes the program's output, `run(request)`, straight to
   * the connection, and the parent waits for it.
   */
  method ServeDynamic(conn: Connection, filename: string, cgiargs: string, run: CgiRequest -> string)
      returns (request: CgiRequest)
    modifies conn
    ensures request == CgiRequest(filename, cgiargs)
    ensures conn.written == old(conn.written) + (DynamicHead() + run(request))
  {
    var buf := Line(DynamicStatus);
    conn.Write(buf);
    buf := Line(ServerLine);
    conn.Write(buf);
    request := CgiRequest(filename, cgiargs);
    conn.Write(run(request));
    AppendThree(old(conn.written), Line(DynamicStatus), Line(ServerLine), run(request));
  }
}
