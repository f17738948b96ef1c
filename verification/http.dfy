/**
 * The HTTP/1.0 response framing of section 6 of RFC 1945, read the way a
 * client reads it: a status line, header lines, an empty line, then the body.
 * Every line ends in CR LF. This reader is the partner against which the
 * server's responses are proved well framed.
 */
module Http {
  import opened Wrappers
  import opened CStrings
  import Decimal

  const CRLF: string := "\r\n"

  /** A text that can stand on one line: it holds no carriage return. */
  predicate IsLineText(text: string)
  {
    '\r' !in text
  }

  /** One line on the wire: its text, then CR LF. */
  function Line(text: string): string
  {
    text + CRLF
  }

  /** The first CR LF terminated line of `s` and what follows it. */
  function SplitLine(s: string): (r: Option<(string, string)>)
    ensures r.Some? ==> IsLineText(r.value.0) && s == Line(r.value.0) + r.value.1
    ensures r.Some? ==> |r.value.1| < |s|
  {
    match IndexOf(s, '\r')
    case None => None
    case Some(k) =>
      if k + 1 < |s| && s[k + 1] == '\n' then
        assert s == s[..k] + CRLF + s[k + 2..];
        Some((s[..k], s[k + 2..]))
      else None
  }

  /** A line written as text + CR LF is read back as that text. */
  lemma SplitLineOfLine(text: string, rest: string)
    requires IsLineText(text)
    ensures SplitLine(Line(text) + rest) == Some((text, rest))
  {
    var s := Line(text) + rest;
    assert s[..|text|] == text;
    IndexOfUnique(s, '\r', |text|);
    assert s[|text| + 2..] == rest;
  }

  /** The header lines up to the empty line that ends them, and what follows that empty line. */
  function ReadHeaders(s: string): Option<(seq<string>, string)>
    decreases |s|
  {
    match SplitLine(s)
    case None => None
    case Some((line, rest)) =>
      if line == [] then Some(([], rest))
      else
        match ReadHeaders(rest)
        case None => None
        case Some((more, body)) => Some(([line] + more, body))
  }

  /** Header lines as they are written: each followed by CR LF. */
  function Lines(lines: seq<string>): string
  {
    if lines == [] then [] else Line(lines[0]) + Lines(lines[1..])
  }

  /** The bytes of a response head: status line, header lines, empty line. */
  function Head(status: string, headers: seq<string>): string
  {
    Line(status) + Lines(headers) + CRLF
  }

  lemma LinesCons(h: string, hs: seq<string>)
    ensures Lines([h] + hs) == Line(h) + Lines(hs)
  {
    assert ([h] + hs)[1..] == hs;
  }

  /** A head with two header lines, grouped as a writer that sends the last line together with the empty line. */
  lemma HeadOfTwo(status: string, h1: string, h2: string)
    ensures Head(status, [h1, h2]) == Line(status) + Line(h1) + (Line(h2) + CRLF)
  {
    LinesCons(h1, [h2]);
    LinesCons(h2, []);
    assert [h1] + [h2] == [h1, h2];
    assert [h2] + [] == [h2];
  }

  /** A head with four header lines, grouped as a writer that sends the last line together with the empty line. */
  lemma HeadOfFour(status: string, h1: string, h2: string, h3: string, h4: string)
    ensures Head(status, [h1, h2, h3, h4])
         == Line(status) + Line(h1) + Line(h2) + Line(h3) + (Line(h4) + CRLF)
  {
    LinesCons(h1, [h2, h3, h4]);
    LinesCons(h2, [h3, h4]);
    LinesCons(h3, [h4]);
    LinesCons(h4, []);
    assert [h1] + [h2, h3, h4] == [h1, h2, h3, h4];
    assert [h2] + [h3, h4] == [h2, h3, h4];
    assert [h3] + [h4] == [h3, h4];
    assert [h4] + [] == [h4];
  }

  /** Header lines that are neither empty nor broken. */
  predicate ProperHeaders(lines: seq<string>)
  {
    forall i :: 0 <= i < |lines| ==> lines[i] != [] && IsLineText(lines[i])
  }

  /** A block of proper header lines followed by the empty line is read back exactly. */
  lemma {:induction false} ReadHeadersOfLines(lines: seq<string>, body: string)
    requires ProperHeaders(lines)
    ensures ReadHeaders(Lines(lines) + CRLF + body) == Some((lines, body))
    decreases |lines|
  {
    if lines == [] {
      assert Lines(lines) + CRLF + body == Line([]) + body;
      SplitLineOfLine([], body);
    } else {
      var rest := Lines(lines[1..]) + CRLF + body;
      assert Lines(lines) + CRLF + body == Line(lines[0]) + rest;
      SplitLineOfLine(lines[0], rest);
      ReadHeadersOfLines(lines[1..], body);
      assert [lines[0]] + lines[1..] == lines;
    }
  }

  /** A response as the client sees it. */
  datatype Response = Response(status: string, headers: seq<string>, body: string)

  /** Splits a response into its status line, its header lines and the bytes after the empty line. */
  function ParseResponse(s: string): Option<Response>
  {
    match SplitLine(s)
    case None => None
    case Some((status, rest)) =>
      match ReadHeaders(rest)
      case None => None
      case Some((headers, body)) => Some(Response(status, headers, body))
  }

  /** Whatever is framed as status line, header lines, empty line and body is read back into exactly those parts. */
  lemma ParseResponseOfHead(status: string, headers: seq<string>, body: string)
    requires IsLineText(status) && ProperHeaders(headers)
    ensures ParseResponse(Head(status, headers) + body) == Some(Response(status, headers, body))
  {
    var rest := Lines(headers) + CRLF + body;
    Regroup3(Line(status), Lines(headers), CRLF, body);
    SplitLineOfLine(status, rest);
    ReadHeadersOfLines(headers, body);
  }

  lemma Regroup3(a: string, b: string, c: string, d: string)
    ensures a + b + c + d == a + (b + c + d)
  {
  }

  lemma Regroup(a: string, b: string, c: string, d: string, e: string)
    ensures a + (b + c) + d + e == a + b + (c + d + e)
  {
  }

  /** A head whose status line and first header line come from one writer and the rest from another is read back whole. */
  lemma ParseResponseOfSplitHead(status: string, first: string, headers: seq<string>, body: string)
    requires IsLineText(status) && first != [] && IsLineText(first) && ProperHeaders(headers)
    ensures ParseResponse(Line(status) + Line(first) + (Lines(headers) + CRLF + body))
         == Some(Response(status, [first] + headers, body))
  {
    var hs := [first] + headers;
    LinesCons(first, headers);
    assert ProperHeaders(hs) by {
      assert forall i :: 1 <= i < |hs| ==> hs[i] == headers[i - 1];
    }
    Regroup(Line(status), Line(first), Lines(headers), CRLF, body);
    ParseResponseOfHead(status, hs, body);
  }

  /** The value of the first header line that starts with `name`. */
  function HeaderValue(headers: seq<string>, name: string): (r: Option<string>)
    ensures r.Some? ==> exists i :: 0 <= i < |headers| && headers[i] == name + r.value
  {
    if headers == [] then None
    else if name <= headers[0] then
      assert headers[0] == name + headers[0][|name|..];
      Some(headers[0][|name|..])
    else
      match HeaderValue(headers[1..], name)
      case None => None
      case Some(v) =>
        var i :| 0 <= i < |headers[1..]| && headers[1..][i] == name + v;
        assert headers[i + 1] == name + v;
        Some(v)
  }

  lemma HeaderValueSkip(headers: seq<string>, name: string)
    requires |headers| > 0 && !(name <= headers[0])
    ensures HeaderValue(headers, name) == HeaderValue(headers[1..], name)
  {
  }

  lemma HeaderValueHere(headers: seq<string>, name: string, value: string)
    requires |headers| > 0 && headers[0] == name + value
    ensures HeaderValue(headers, name) == Some(value)
  {
    assert name <= headers[0];
    assert headers[0][|name|..] == value;
  }

  const ContentLengthName: string := "Content-length: "

  /** A header line whose ninth byte is not the `l` of `Content-length` is some other header. */
  lemma NotContentLength(h: string)
    requires |h| > 8 && h[8] != 'l'
    ensures !(ContentLengthName <= h)
  {
    assert ContentLengthName[8] == 'l';
  }

  /** The number a response's Content-length header announces. */
  function ContentLength(r: Response): Option<nat>
  {
    match HeaderValue(r.headers, ContentLengthName)
    case None => None
    case Some(v) => Decimal.Parse(v)
  }

  /** The response is framed exactly: its Content-length is the number of bytes after the empty line. */
  predicate WellFramed(r: Response)
  {
    ContentLength(r) == Some(|r.body|)
  }
}
