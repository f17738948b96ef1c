/**
 * `parse_uri` (tiny/tiny.c:115-139): splits a request target into the
 * file to serve, whether it is static content or a CGI program, and the
 * CGI arguments (the QUERY_STRING of section 4.1.7 of RFC 3875).
 */
module TinyUri {
  import opened Wrappers
  import opened CStrings

  /** The local root every path is resolved against. */
  const Root: string := "."
  /** A target that contains this is a CGI program. */
  const DynamicMarker: string := "cgi-bin"
  /** Served for a static target that names a directory. */
  const DefaultFile: string := "home.html"

  /** What `parse_uri` hands back: its return value (1 for static) and the two buffers it fills. */
  datatype Resource = Resource(isStatic: bool, filename: string, cgiargs: string)

  predicate EndsInSlash(s: string)
  {
    |s| > 0 && s[|s| - 1] == '/'
  }

  /**
   * What `parse_uri` computes from the target `uri`. The target is never
   * empty (it is a `%s` token); line 122 reads its last byte.
   */
  function Classify(uri: string): (r: Resource)
    requires |uri| > 0
    ensures r.isStatic <==> !Contains(uri, DynamicMarker)
    ensures r.isStatic ==> r.cgiargs == []
    ensures Root <= r.filename
  {
    if !Contains(uri, DynamicMarker) then
      Resource(true, Root + uri + (if uri[|uri| - 1] == '/' then DefaultFile else []), [])
    else
      match IndexOf(uri, '?')
      case None => Resource(false, Root + uri, [])
      case Some(k) => Resource(false, Root + uri[..k], uri[k + 1..])
  }

  /**
   * A static target becomes the file `.` + target, with the default file
   * added exactly when the target ends in `/`; the path never names a
   * directory and there are no CGI arguments.
   */
  lemma ClassifyStatic(uri: string)
    requires |uri| > 0 && !Contains(uri, DynamicMarker)
    ensures var r := Classify(uri);
      && r.isStatic && r.cgiargs == []
      && |r.filename| >= |Root| + |uri| && r.filename[..|Root| + |uri|] == Root + uri
      && (EndsInSlash(uri) <==> |r.filename| > |Root| + |uri|)
      && (EndsInSlash(uri) ==> r.filename[|Root| + |uri|..] == DefaultFile)
      && !EndsInSlash(r.filename)
  {
    var r := Classify(uri);
    if EndsInSlash(uri) {
      assert r.filename == (Root + uri) + DefaultFile;
    } else {
      assert r.filename == Root + uri;
    }
  }

  /**
   * A dynamic target is split at its first `?`: the part before it, which
   * holds no `?`, becomes the path under `.`, the part after it the CGI
   * arguments, and putting the two back together gives the target again.
   */
  lemma ClassifyDynamic(uri: string)
    requires |uri| > 0 && Contains(uri, DynamicMarker)
    ensures var r := Classify(uri);
      && !r.isStatic
      && Root <= r.filename && '?' !in r.filename
      && uri == r.filename[|Root|..] + (if '?' in uri then "?" + r.cgiargs else [])
      && ('?' !in uri ==> r.cgiargs == [])
  {
    var r := Classify(uri);
    match IndexOf(uri, '?')
    case None =>
      DynamicWhole(uri);
      assert uri == r.filename[|Root|..] + [];
    case Some(k) =>
      DynamicSplitAt(uri, k);
      SplitAtQuestion(uri, k);
      assert uri[k] in uri;
      assert r.filename == Root + uri[..k] && r.cgiargs == uri[k + 1..];
  }

  lemma DynamicWhole(uri: string)
    requires |uri| > 0 && Contains(uri, DynamicMarker) && '?' !in uri
    ensures Classify(uri) == Resource(false, Root + uri, [])
    ensures '?' !in Root + uri && (Root + uri)[|Root|..] == uri
  {
    assert '?' !in Root;
  }

  lemma SplitAtQuestion(uri: string, k: nat)
    requires k < |uri| && uri[k] == '?' && '?' !in uri[..k]
    ensures '?' !in Root + uri[..k] && (Root + uri[..k])[|Root|..] == uri[..k]
    ensures uri == uri[..k] + "?" + uri[k + 1..]
  {
    var path := uri[..k];
    assert '?' !in Root;
    assert (Root + path)[|Root|..] == path;
    assert uri[..k + 1] == path + "?";
    assert uri == uri[..k + 1] + uri[k + 1..];
  }

  /** The default file is added without normalisation: `/` and `/home.html` name the same file. */
  lemma DefaultFileAlias(dir: string, file: string)
    requires dir == "/" && file == "/home.html"
    ensures Classify(dir) == Classify(file)
  {
    NotContainsMissingChar(dir, DynamicMarker, 0);
    NotContainsMissingChar(file, DynamicMarker, 0);
    StaticVerbatim(file);
    assert dir + DefaultFile == file;
    assert Root + dir + DefaultFile == Root + (dir + DefaultFile);
  }

  /** A static target that does not end in `/` is taken verbatim. */
  lemma StaticVerbatim(uri: string)
    requires |uri| > 0 && !Contains(uri, DynamicMarker) && !EndsInSlash(uri)
    ensures Classify(uri) == Resource(true, Root + uri, [])
  {
  }

  /** A dynamic target is cut at the `?` at `k` when no earlier `?` occurs. */
  lemma DynamicSplitAt(uri: string, k: nat)
    requires Contains(uri, DynamicMarker)
    requires k < |uri| && uri[k] == '?' && '?' !in uri[..k]
    ensures Classify(uri) == Resource(false, Root + uri[..k], uri[k + 1..])
  {
    IndexOfUnique(uri, '?', k);
  }

  /** `/cgi-bin/adder?15&20` names the program `./cgi-bin/adder`, run with the arguments `15&20`. */
  lemma AdderTarget(uri: string)
    requires uri == "/cgi-bin/adder?15&20"
    ensures Classify(uri) == Resource(false, "./cgi-bin/adder", "15&20")
  {
    AdderMarker(uri);
    AdderQuery(uri);
    DynamicSplitAt(uri, 14);
  }

  lemma AdderMarker(uri: string)
    requires uri == "/cgi-bin/adder?15&20"
    ensures Contains(uri, DynamicMarker)
  {
    assert OccursAt(uri, DynamicMarker, 1);
  }

  lemma AdderQuery(uri: string)
    requires uri == "/cgi-bin/adder?15&20"
    ensures uri[14] == '?' && '?' !in uri[..14]
    ensures Root + uri[..14] == "./cgi-bin/adder" && uri[15..] == "15&20"
  {
    var path := uri[..14];
    assert path == "/cgi-bin/adder";
  }

  /** The target is not sanitised: `..` segments reach outside the local root. */
  lemma NoTraversalCheck(uri: string)
    requires uri == "/../etc/passwd"
    ensures Classify(uri) == Resource(true, "./../etc/passwd", [])
  {
    NotContainsMissingChar(uri, DynamicMarker, 1);
    StaticVerbatim(uri);
  }

  /**
   * `parse_uri` itself. `uri` holds the bytes of the target (its
   * terminating NUL is not part of the array); the dynamic branch
   * overwrites the first `?` with a NUL, truncating the string in place.
   */
  method ParseUri(uri: array<char>) returns (isStatic: bool, filename: string, cgiargs: string)
    requires uri.Length > 0 && NUL !in uri[..]
    modifies uri
    ensures Resource(isStatic, filename, cgiargs) == Classify(old(uri[..]))
    ensures isStatic ==> uri[..] == old(uri[..])
    ensures !isStatic ==> match IndexOf(old(uri[..]), '?')
      case None => uri[..] == old(uri[..])
      case Some(k) => uri[..] == old(uri[..])[k := NUL]
    ensures !isStatic ==> filename == Root + CString(uri[..])
  {
    var u := uri[..];
    if !Contains(u, DynamicMarker) {
      cgiargs := [];
      filename := Root;
      filename := filename + u;
      if u[|u| - 1] == '/' {
        filename := filename + DefaultFile;
      }
      isStatic := true;
    } else {
      var q := IndexOf(u, '?');
      if q.Some? {
        cgiargs := u[q.value + 1..];
        uri[q.value] := NUL;
        assert uri[..] == u[q.value := NUL];
        CStringTruncate(u, q.value);
      } else {
        cgiargs := [];
      }
      filename := Root;
      filename := filename + CString(uri[..]);
      isStatic := false;
    }
  }
}
