# Tiny: one HTTP/1.0 transaction, modelled and proved

Tiny is a small iterative web server. For each accepted connection, `doit` performs one transaction:

1. It reads the request line and splits it into method, target and version.
2. It refuses every method but GET (in any letter case) with a 501, before reading anything else.
3. It skips the request headers up to the empty line.
4. `parse_uri` turns the target into a file name under `.`. A target containing `cgi-bin` is a CGI program; its arguments are whatever follows the first `?`.
5. It `stat`s that file and answers in one of four ways:
   - a 404 when the file is missing;
   - a 403 when the file is not a regular file with the permission needed (read for a file, execute for a program);
   - the file itself, behind a fixed header block;
   - the status line and Server header, after which the CGI program writes straight to the client.

The model keeps the server's own structure.

- **Imperative parts are methods.**
  - `parse_uri` works on a character array. The dynamic branch overwrites the first `?` with a NUL.
  - `clienterror`, `serve_static` and `serve_dynamic` append to a connection whose output is an append-only string.
  - `read_requesthdrs` is a loop over a line reader.
  - `doit` calls all of these.
- **Each method is proved against a function.** `Classify`, `FileType`, `ErrorResponse`, `StaticHead`, `HeaderBlockLength`, `Decide` and `Respond` play this role. The properties the server promises are proved about those functions.
- **A response reader checks the framing.** It is the kind of reader an HTTP/1.0 client would use (module `Http`, following section 6 of RFC 1945). It shows that every response Tiny frames itself reads back into the status line, headers and body Tiny meant. It also shows that the Content-length header equals the number of body bytes.

Modules:

- `Wrappers`: `Option`.
- `CStrings`: the C library behaviour Tiny relies on.
  - `index` and `strstr`.
  - A NUL-terminated view of a buffer.
  - `isspace`, and `sscanf("%s %s %s")` as tokenisation.
  - `strcasecmp`.
- `Decimal`: `%d` and its inverse.
- `Http`: the response reader.
- `Rio`: the connection, and the line reader that stands in for `Rio_readlineb`.
- `TinyUri`: `parse_uri`.
- `TinyResponse`: `get_filetype`, `clienterror`, the header block of `serve_static`, and the two lines `serve_dynamic` writes.
- `Tiny`: `read_requesthdrs` and `doit`.

The file system is a map from path to file: regular or not, the owner's read and execute bits, and the contents. `stat` on it gives the record `doit` tests. The CGI child is a function from the program and its `QUERY_STRING` to the bytes it prints.

What the code does, measured against its own header comment (tiny/tiny.c:3-4, "uses the GET method") and against HTTP/1.0 (RFC 1945):

- **The method test ignores letter case.** It is `strcasecmp`, so `get` and `GeT` are served as GET. Section 5.1.1 of RFC 1945 makes the method case-sensitive, so a strict reading would answer those with a 501. The model follows the code.
- **The request line is not checked.** Section 5.1 of RFC 1945 defines the request line as method, target and version. `doit` does not check that all three are there, and it does not check that a line was read at all. With fewer tokens `sscanf` leaves buffers unset, so the model requires a method token, plus a target token for GET. The version token is never used.
- **A static response says `HTTP/1.0 200 0K`, with a zero.** That is the line the code writes, and the model keeps it. The CGI status line is `HTTP/1.0 200 OK`.
- **The error page's body tag is `<body bgcolor=ffffff>`.** The source spells it as three adjacent C string literals, `"...bgcolor=""ffffff"">"`, which concatenate without the quotes.

Some source lines are not valid C as written. The model uses what they evidently mean:

- tiny/tiny.c:55 compares with `'GET'`, a character constant; the model compares with `"GET"`.
- Lines 62 and 170-174 have stray closing parentheses.
- Line 84 declares `cjhar *cause` and `shormsg`, but the body uses `shortmsg`.
- Line 153 calls `print`, which only traces output and is not modelled.
- TinyResponse.ClientError and TinyResponse.ServeStatic build their text as tiny/tiny.c:89-92 and 148-151 do, with `sprintf(buf, "%s...", buf, ...)`. There the destination is also an argument, which is undefined behaviour under section 7.19.6.6 of C99, because `sprintf`'s parameters are `restrict`-qualified. The comment at tiny/tiny.c:7 says this was fixed, but the calls are still there. The model appends to the text built so far, which is what the calls evidently intend.

## Model

| member | source | states |
|---|---|---|
| CStrings.IndexOf | tiny/tiny.c:127 | `index(uri, '?')`: no result exactly when `?` is absent; otherwise a position holding `?` with no `?` before it |
| CStrings.FindSub | tiny/tiny.c:118 | `strstr`: the position found holds an occurrence and no earlier position does; no result means no occurrence anywhere |
| CStrings.FindSubContains | tiny/tiny.c:118 | `strstr` returns non-NULL exactly when the substring occurs somewhere, which is how `parse_uri` and `get_filetype` use it |
| CStrings.CString | tiny/tiny.c:130 | the string a buffer holds is its longest NUL-free prefix, ended by a NUL when shorter than the buffer |
| CStrings.CStringTruncate | tiny/tiny.c:130 | writing a NUL at position k of a NUL-free buffer truncates the string it holds to its first k characters |
| CStrings.TokensAreWords | tiny/tiny.c:54 | every `%s` conversion yields a non-empty token without white space |
| CStrings.TokensAvoid | tiny/tiny.c:54 | a character absent from the line is absent from every token, so the target never holds a NUL |
| CStrings.TokensOfJoinWords | tiny/tiny.c:54 | words separated by single spaces, followed by white space, are read back as exactly those words in order |
| Decimal.FromNat | tiny/tiny.c:99 | `%d` of a size is a non-empty string of digits with no leading zero |
| Decimal.Parse | tiny/tiny.c:99 | reading a number succeeds exactly on a non-empty string of digits |
| Decimal.ParseFromNat | tiny/tiny.c:99 | reading back the `%d` text of n gives n |
| Http.SplitLineOfLine | tiny/tiny.c:95-96 | a line written with CR LF after text without CR is read back as that text, with the rest left over |
| Http.ReadHeadersOfLines | tiny/tiny.c:146-151 | header lines each ended by CR LF, then an empty line, are read back as exactly those headers; the bytes after them are the body |
| Http.ParseResponseOfHead | tiny/tiny.c:146-152 | a status line, header lines and an empty line, followed by any body, parse back into exactly those parts |
| Http.ParseResponseOfSplitHead | tiny/tiny.c:184-187 | the status line and first header written by one party, with headers and body written by another, still parse back as one response |
| Http.HeaderValue | tiny/tiny.c:97-99 | a header value found for a name comes from a header line that is the name followed by the value |
| Rio.Connection.Write | tiny/tiny.c:96 | `Rio_writen` appends its bytes to the connection and changes nothing else |
| Rio.LineReader.ReadLine | tiny/tiny.c:107-109 | `Rio_readlineb` returns the next unread line and advances past it |
| Rio.LineReader.constructor | tiny/tiny.c:50 | `Rio_readinitb` starts reading at the first line |
| TinyUri.Classify | tiny/tiny.c:115-139 | a target is static exactly when it does not contain `cgi-bin`; static targets have no CGI arguments; every file name starts with `.` |
| TinyUri.ClassifyStatic | tiny/tiny.c:118-124 | static file name is `.` + target, with `home.html` appended exactly when the target ends in `/`; it never ends in `/` |
| TinyUri.ClassifyDynamic | tiny/tiny.c:126-137 | dynamic file name is `.` + the part before the first `?`, free of `?`; CGI arguments are what follows it; both rejoin to the target; no `?` means empty arguments |
| TinyUri.StaticVerbatim | tiny/tiny.c:118-121 | a static target not ending in `/` maps to `.` + target, unchanged |
| TinyUri.DynamicSplitAt | tiny/tiny.c:126-136 | a dynamic target is split at its first `?` into program path and CGI arguments |
| TinyUri.DefaultFileAlias | tiny/tiny.c:121-123 | `/` and `/home.html` classify to the same file |
| TinyUri.NoTraversalCheck | tiny/tiny.c:120-121 | `/../etc/passwd` becomes `./../etc/passwd`: dot segments are not removed |
| TinyUri.AdderTarget | tiny/tiny.c:126-137 | `/cgi-bin/adder?15&20` names program `./cgi-bin/adder` with arguments `15&20` |
| TinyUri.ParseUri | tiny/tiny.c:115-139 | `parse_uri` on the buffer returns exactly `Classify` of the original target; static leaves the buffer unchanged; dynamic overwrites only the first `?` with NUL; the dynamic file name is `.` + the truncated string |
| TinyResponse.FileType | tiny/tiny.c:167-178 | the type of the first of `.html`, `.gif`, `.png`, `.jpg` occurring anywhere in the name, else `text/plain`; always a non-empty header value |
| TinyResponse.FileTypeBySubstring | tiny/tiny.c:168-169 | `./index.html.bak` is `text/html`: a substring match, not a suffix test |
| TinyResponse.FileTypeByOrder | tiny/tiny.c:168-175 | `./photo.jpg.html` is `text/html`: the table order decides, not the position in the name |
| TinyResponse.ContentLengthIs | tiny/tiny.c:99 | a response whose first header is `Content-length: ` with the `%d` text of n announces n |
| TinyResponse.ErrorBody | tiny/tiny.c:88-92 | the page `clienterror` builds: `<html><title>Tiny Error</title>`, `<body bgcolor=ffffff>`, `errnum: shortmsg`, `<p>longmsg: cause` and `<hr><em>The Tiny Web server</em>`, each of the last four ended by CR LF (no ensures; its framing is stated by ErrorResponseFramed) |
| TinyResponse.ErrorStatus | tiny/tiny.c:95 | the status line starts with `HTTP/1.0 ` and is a single line when the code and short message hold no CR |
| TinyResponse.ErrorResponse | tiny/tiny.c:95-101 | the four writes of `clienterror`: status line, `Content-type: text/html`, `Content-length: ` with the page's length and the empty line, then the page (no ensures; read back by ErrorResponseFramed) |
| TinyResponse.StaticHead | tiny/tiny.c:146-151 | the header block of `serve_static`: `HTTP/1.0 200 0K`, `Server: Tiny Web Server`, `Connection: close`, `Content-length: ` with the size, `Content-type: ` with the file type, then the empty line (no ensures; read back by StaticResponseFramed) |
| TinyResponse.DynamicHead | tiny/tiny.c:184-187 | the two lines `serve_dynamic` writes: `HTTP/1.0 200 OK` and `Server: Tiny Web Server` (no ensures; read back by DynamicResponseFramed) |
| Tiny.Respond | tiny/tiny.c:55-81 | the bytes each outcome puts on the wire: the 501, 404 and 403 pages with the source's messages, the static head followed by the file, or the dynamic head followed by the program's output (no ensures; stated by RespondFramed and RespondCgiFramed) |
| Tiny.StatOf | tiny/tiny.c:63-76 | `stat` succeeds exactly on a path in the file system, and then reports the file's size |
| CStrings.Tokens | tiny/tiny.c:54 | `sscanf("%s %s %s")`: white space is skipped and each maximal run of other characters is one token (no ensures; stated by TokensAreWords, TokensAvoid and TokensOfJoinWords) |
| Tiny.RequestTokens | tiny/tiny.c:54 | the tokens of the request line are those of the C string in the buffer, that is, before any NUL (no ensures; stated by RequestLineOf) |
| CStrings.EqualsIgnoreCase | tiny/tiny.c:55 | `strcasecmp(a, b) == 0`: same length and equal after mapping ASCII capitals to lower case (no ensures; stated by IsGetCases) |
| Tiny.IsGet | tiny/tiny.c:55 | the method passes the `strcasecmp` test against `GET` (no ensures; stated by IsGetCases) |
| TinyResponse.ErrorResponseFramed | tiny/tiny.c:88-101 | the error response parses back to status `HTTP/1.0 errnum shortmsg`, content type `text/html`, and the HTML page as body, with a Content-length equal to the page's length |
| TinyResponse.ClientError | tiny/tiny.c:84-102 | `clienterror` appends status line, content type, Content-length of the finished page with the empty line, then the page, and nothing else |
| TinyResponse.StaticResponseFramed | tiny/tiny.c:146-152 | a static response parses back to status `HTTP/1.0 200 0K` and headers Server, Connection: close, Content-length, Content-type: `get_filetype` in that order; the body is exactly the file, and the Content-length is its size |
| TinyResponse.ServeStatic | tiny/tiny.c:141-162 | `serve_static` appends the full header block, then exactly the `filesize` bytes of the file |
| TinyResponse.DynamicResponseFramed | tiny/tiny.c:184-187 | when the CGI output is header lines, an empty line and a body, the client reads status `HTTP/1.0 200 OK`, Tiny's Server header followed by the program's headers, and the program's body |
| TinyResponse.ServeDynamic | tiny/tiny.c:180-196 | `serve_dynamic` appends the status line and Server header, then the program's output; the program is started with the file name and `QUERY_STRING` = the CGI arguments |
| Tiny.HeaderBlockLength | tiny/tiny.c:104-113 | the number of lines up to and including the first empty line: that line is CR LF and none before it is |
| Tiny.ReadRequestHeaders | tiny/tiny.c:104-113 | `read_requesthdrs` consumes exactly the lines up to and including the first CR LF line and leaves every later line unread |
| Tiny.RequestUri | tiny/tiny.c:54 | for a GET, the target is a non-empty token without white space |
| Tiny.Decide | tiny/tiny.c:55-81 | a static file chosen for service is in the file system, with the size `stat` reports (what each branch decides is stated by NotGetIs501 and CheckOrder) |
| Tiny.Check | tiny/tiny.c:62-81 | a GET never ends in a 501; a static file chosen for service exists, with the size `stat` reports |
| Tiny.Doit | tiny/tiny.c:42-82 | `doit` appends exactly the response `Respond(Decide(...))` for its request line; after a 501 it has read only the request line; otherwise it has also read exactly the header block |
| Tiny.ServeTarget | tiny/tiny.c:62-81 | after the headers, `doit` appends exactly the response chosen for the classified target |
| Tiny.Answer | tiny/tiny.c:63-81 | a missing file gets the 404 page naming the file; otherwise the static or CGI branch runs |
| Tiny.AnswerStatic | tiny/tiny.c:68-73 | a static file that is not a readable regular file gets the 403 page; otherwise `serve_static` runs with the file's size and bytes |
| Tiny.AnswerDynamic | tiny/tiny.c:75-80 | a CGI target that is not an executable regular file gets the 403 page; otherwise `serve_dynamic` runs |
| Tiny.NotGetIs501 | tiny/tiny.c:55-58 | any method other than GET gets a 501 naming the method, whatever the target and file system |
| Tiny.IsGetCases | tiny/tiny.c:55 | the method passes exactly when it is one of the eight letter-case spellings of GET |
| Tiny.CheckOrder | tiny/tiny.c:62-81 | 404 iff the file is missing; 403 iff it exists without the needed regular-file and permission bits; static or CGI service only otherwise; error pages name the file; CGI gets the parsed arguments |
| Tiny.RespondFramed | tiny/tiny.c:55-81 | every response Tiny frames itself parses back with a Content-length equal to its body: 501, 404 and 403 status lines as sent, and the static file byte for byte |
| Tiny.RespondCgiFramed | tiny/tiny.c:79-80 | a CGI response is Tiny's two lines followed by the program's output, read back as one response |
| Tiny.RequestLineOf | tiny/tiny.c:54 | a request line `method target version` CR LF tokenises to those three words |
| Tiny.RequestLineDecides | tiny/tiny.c:54-81 | such a line is usable, and `doit` decides on it by its method and target alone |
| Tiny.ScenarioHome | tiny/tiny.c:55-73 | `GET /home.html` with a readable 1024-byte `./home.html` serves that file, 1024 bytes, as `text/html` |
| Tiny.ScenarioMissing | tiny/tiny.c:62-65 | `GET /missing.html` with no such file is a 404 with cause `./missing.html` |
| Tiny.ScenarioPost | tiny/tiny.c:55-57 | `POST /home.html` is a 501 with cause `POST` |
| Tiny.ScenarioAdder | tiny/tiny.c:62-80 | `GET /cgi-bin/adder?15&20` with an executable adder runs it with `QUERY_STRING` `15&20` |
| Tiny.UnreadableIs403 | tiny/tiny.c:63-71 | a static file that exists but may not be read is a 403, not a 404 |

## Left out

- The listening socket, `accept` loop, `Getnameinfo` and connection logging (tiny/tiny.c:19-40) are socket plumbing and are not modelled.
- The `printf` tracing of the request and response headers is diagnostic output only and is not modelled.
- TinyResponse.ServeStatic: `Open`, `Mmap`, `Close` and `Munmap` are not modelled. The file's bytes are passed in, and failures to open or map the file are not represented. For a 0-byte file, `mmap` with length 0 always fails (EINVAL), so the real server sends the header block and then exits in the `Mmap` wrapper. The model sends the header block with `Content-length: 0` and goes on.
- Rio.Connection.Write cannot fail. `Rio_writen` to a peer that has closed the connection ends the server, through SIGPIPE or the wrapper's error exit. The model does not capture that ending.
- TinyResponse.ServeDynamic: `Fork`, `setenv`, `Dup2`, `Execve` and `Wait` are not modelled. The child is a function from program and `QUERY_STRING` to its output, so the model does not capture a failed exec, environment inheritance or a child that never exits.
- `stat`, `S_ISREG`, `S_IRUSR` and `S_IXUSR` are modelled by a lookup (StatOf) in a map standing in for the file system; the system call itself is not modelled.
- Tiny.Doit: the size is a natural number. The truncation of `st_size` to the `int filesize` of `serve_static` is not modelled.
- `Rio_readlineb` is a line reader over a sequence of complete lines. Its buffering, `MAXLINE` cut-off and end-of-file result are not modelled.
- Tiny.ReadRequestHeaders requires a CR LF line among the unread lines. At end of input the real loop would spin forever, because `Rio_readlineb` leaves the buffer unchanged.
- Tiny.ReadRequestHeaders compares whole lines with CR LF. The source's `strcmp` stops at a NUL, but a line from `Rio_readlineb` ends at its first line feed, so both give the same result.
- Tiny.Doit requires that a request line is available, that it has a method token, and, for GET, a target token. Otherwise `sscanf` leaves buffers uninitialised and the behaviour is undefined.
- Overflows of the `MAXLINE` and `MAXBUF` buffers (long lines, targets or error pages) are not modelled. Strings are unbounded.
- Characters stand for bytes. The server does no decoding, and neither does the model.
