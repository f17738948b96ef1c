/**
 * The C library string routines that tiny.c relies on, stated over `string`:
 * `index`, `strstr`, the NUL-terminated view of a buffer, `isspace`,
 * `strcasecmp` and the `%s` conversions of `sscanf`.
 */
module CStrings {
  import opened Wrappers

  const NUL: char := '\0'

  /** `index(s, c)`: the position of the first occurrence of `c` in `s`, if any. */
  function IndexOf(s: string, c: char): (r: Option<nat>)
    ensures r.None? <==> c !in s
    ensures r.Some? ==> r.value < |s| && s[r.value] == c && c !in s[..r.value]
  {
    if |s| == 0 then None
    else if s[0] == c then Some(0)
    else match IndexOf(s[1..], c)
      case None => None
      case Some(k) =>
        assert s[..k + 1] == [s[0]] + s[1..][..k];
        Some(k + 1)
  }

  /** The first occurrence is the only position with `c` and no earlier `c`. */
  lemma IndexOfUnique(s: string, c: char, k: nat)
    requires k < |s| && s[k] == c && c !in s[..k]
    ensures IndexOf(s, c) == Some(k)
  {
  }

  /** `sub` occurs in `s` starting at position `i`. */
  predicate OccursAt(s: string, sub: string, i: nat)
  {
    i + |sub| <= |s| && s[i..i + |sub|] == sub
  }

  lemma OccursAtTail(s: string, sub: string, j: nat)
    requires |s| > 0
    ensures OccursAt(s, sub, j + 1) <==> OccursAt(s[1..], sub, j)
  {
    if j + 1 + |sub| <= |s| {
      assert s[j + 1..j + 1 + |sub|] == s[1..][j..j + |sub|];
    }
  }

  /** `strstr(s, sub)`: the position of the first occurrence of `sub` in `s`, if any. */
  function FindSub(s: string, sub: string): (r: Option<nat>)
    ensures r.Some? ==> OccursAt(s, sub, r.value)
    ensures r.Some? ==> forall j: nat :: j < r.value ==> !OccursAt(s, sub, j)
    ensures r.None? ==> forall j: nat :: !OccursAt(s, sub, j)
    decreases |s|
  {
    if OccursAt(s, sub, 0) then Some(0)
    else if |s| == 0 then None
    else
      match FindSub(s[1..], sub)
      case None =>
        assert forall j: nat :: !OccursAt(s, sub, j) by {
          forall j: nat ensures !OccursAt(s, sub, j) {
            if j > 0 { OccursAtTail(s, sub, j - 1); }
          }
        }
        None
      case Some(k) =>
        assert forall j: nat :: j < k + 1 ==> !OccursAt(s, sub, j) by {
          forall j: nat | j < k + 1 ensures !OccursAt(s, sub, j) {
            if j > 0 { OccursAtTail(s, sub, j - 1); }
          }
        }
        OccursAtTail(s, sub, k);
        Some(k + 1)
  }

  /** `strstr(s, sub) != NULL`: `sub` occurs somewhere in `s`. */
  predicate Contains(s: string, sub: string)
  {
    exists i: nat | i <= |s| :: OccursAt(s, sub, i)
  }

  /** `strstr` finds an occurrence exactly when there is one. */
  lemma FindSubContains(s: string, sub: string)
    ensures FindSub(s, sub).Some? <==> Contains(s, sub)
  {
    var r := FindSub(s, sub);
    if r.Some? {
      assert OccursAt(s, sub, r.value);
    }
  }

  /** A string cannot contain a substring that has a character it lacks. */
  lemma NotContainsMissingChar(s: string, sub: string, k: nat)
    requires k < |sub| && sub[k] !in s
    ensures !Contains(s, sub)
  {
    forall i: nat | i <= |s|
      ensures !OccursAt(s, sub, i)
    {
      if i + |sub| <= |s| {
        assert s[i..i + |sub|][k] == s[i + k];
      }
    }
  }

  /** The string held in a C buffer: everything before the first NUL. */
  function CString(a: string): (r: string)
    ensures NUL !in r
    ensures r <= a
    ensures |r| < |a| ==> a[|r|] == NUL
  {
    match IndexOf(a, NUL)
    case None => a
    case Some(k) => a[..k]
  }

  /** A string without NUL is read whole. */
  lemma CStringWhole(a: string)
    requires NUL !in a
    ensures CString(a) == a
  {
  }

  /** Writing a NUL at position k of a NUL-free buffer truncates its string to k bytes. */
  lemma CStringTruncate(a: string, k: nat)
    requires k < |a| && NUL !in a
    ensures CString(a[k := NUL]) == a[..k]
  {
    assert a[k := NUL][..k] == a[..k];
    IndexOfUnique(a[k := NUL], NUL, k);
  }

  /** `isspace` in the C locale: space, tab, newline, vertical tab, form feed, carriage return. */
  predicate IsSpace(c: char)
  {
    c == ' ' || 9 <= c as int <= 13
  }

  /** A token as `%s` reads it: a non-empty run of non-space characters. */
  predicate IsWord(w: string)
  {
    |w| > 0 && forall c <- w :: !IsSpace(c)
  }

  /** The number of non-space characters `s` starts with. */
  function WordRun(s: string): (n: nat)
    ensures n <= |s|
    ensures n == |s| || IsSpace(s[n])
    ensures |s| > 0 && !IsSpace(s[0]) ==> n > 0
  {
    if |s| > 0 && !IsSpace(s[0]) then 1 + WordRun(s[1..]) else 0
  }

  /** Every character before `WordRun(s)` is a non-space one. */
  lemma {:induction false} WordRunNoSpace(s: string)
    ensures forall i :: 0 <= i < WordRun(s) ==> !IsSpace(s[i])
  {
    if |s| > 0 && !IsSpace(s[0]) {
      WordRunNoSpace(s[1..]);
      assert forall i :: 1 <= i < WordRun(s) ==> s[i] == s[1..][i - 1];
    }
  }

  /** The white-space separated tokens of `s`, in order, as successive `%s` conversions read them. */
  function Tokens(s: string): seq<string>
    decreases |s|
  {
    if |s| == 0 then []
    else if IsSpace(s[0]) then Tokens(s[1..])
    else
      var n := WordRun(s);
      [s[..n]] + Tokens(s[n..])
  }

  /** Every token is a word: non-empty and free of white space. */
  lemma {:induction false} TokensAreWords(s: string)
    ensures forall k :: 0 <= k < |Tokens(s)| ==> IsWord(Tokens(s)[k])
    decreases |s|
  {
    if |s| > 0 {
      if IsSpace(s[0]) {
        TokensAreWords(s[1..]);
      } else {
        var n := WordRun(s);
        WordRunNoSpace(s);
        assert IsWord(s[..n]);
        TokensAreWords(s[n..]);
      }
    }
  }

  /** A character absent from `s` is absent from each of its tokens. */
  lemma {:induction false} TokensAvoid(s: string, c: char)
    requires c !in s
    ensures forall k :: 0 <= k < |Tokens(s)| ==> c !in Tokens(s)[k]
    decreases |s|
  {
    if |s| > 0 {
      if IsSpace(s[0]) {
        assert c !in s[1..];
        TokensAvoid(s[1..], c);
      } else {
        var n := WordRun(s);
        assert c !in s[..n];
        assert c !in s[n..];
        TokensAvoid(s[n..], c);
      }
    }
  }

  /** Words joined by single spaces, as a request line spells them. */
  function JoinWords(ws: seq<string>): string
  {
    if |ws| == 0 then []
    else if |ws| == 1 then ws[0]
    else ws[0] + " " + JoinWords(ws[1..])
  }

  lemma {:induction false} WordRunOfPrefix(w: string, t: string)
    requires forall c <- w :: !IsSpace(c)
    requires t == [] || IsSpace(t[0])
    ensures WordRun(w + t) == |w|
    decreases |w|
  {
    if |w| == 0 {
      assert w + t == t;
    } else {
      assert (w + t)[0] == w[0] && w[0] in w;
      assert (w + t)[1..] == w[1..] + t;
      assert forall c <- w[1..] :: c in w;
      WordRunOfPrefix(w[1..], t);
    }
  }

  /** A word followed by white space (or nothing) is read as one token. */
  lemma TokensOfWord(w: string, rest: string)
    requires IsWord(w)
    requires rest == [] || IsSpace(rest[0])
    ensures Tokens(w + rest) == [w] + Tokens(rest)
  {
    var s := w + rest;
    assert s[0] == w[0] && w[0] in w;
    WordRunOfPrefix(w, rest);
    assert s[..|w|] == w;
    assert s[|w|..] == rest;
  }

  /** Leading white space does not change the tokens. */
  lemma TokensAfterSpace(c: char, j: string)
    requires IsSpace(c)
    ensures Tokens([c] + j) == Tokens(j)
  {
    assert ([c] + j)[1..] == j;
  }

  lemma JoinWordsStart(ws: seq<string>, t: string)
    requires |ws| > 0 && IsWord(ws[0])
    ensures (JoinWords(ws) + t)[0] == ws[0][0] && !IsSpace(ws[0][0])
  {
    assert ws[0][0] in ws[0];
  }

  /** The first of several joined words is read as a token on its own. */
  lemma TokensOfJoinStep(ws: seq<string>, t: string)
    requires |ws| > 1 && IsWord(ws[0]) && IsWord(ws[1])
    ensures Tokens(JoinWords(ws) + t) == [ws[0]] + Tokens(JoinWords(ws[1..]) + t)
  {
    var j := JoinWords(ws[1..]) + t;
    assert JoinWords(ws) + t == ws[0] + ([' '] + j);
    TokensOfWord(ws[0], [' '] + j);
    JoinWordsStart(ws[1..], t);
    TokensAfterSpace(' ', j);
  }

  /** Tokenising words joined by single spaces, followed by a tail that starts with white space, gives the words back first. */
  lemma {:induction false} TokensOfJoinWords(ws: seq<string>, t: string)
    requires forall k :: 0 <= k < |ws| ==> IsWord(ws[k])
    requires t == [] || IsSpace(t[0])
    ensures Tokens(JoinWords(ws) + t) == ws + Tokens(t)
    decreases |ws|
  {
    if |ws| == 0 {
      assert JoinWords(ws) + t == t;
    } else if |ws| == 1 {
      TokensOfWord(ws[0], t);
      assert ws == [ws[0]];
    } else {
      calc {
        Tokens(JoinWords(ws) + t);
      == { TokensOfJoinStep(ws, t); }
        [ws[0]] + Tokens(JoinWords(ws[1..]) + t);
      == { TokensOfJoinWords(ws[1..], t); }
        [ws[0]] + (ws[1..] + Tokens(t));
      == { assert ws == [ws[0]] + ws[1..]; }
        ws + Tokens(t);
      }
    }
  }

  /** `tolower` in the C locale. */
  function ToLower(c: char): char
  {
    if 'A' <= c <= 'Z' then (c as int + 32) as char else c
  }

  /** `strcasecmp(a, b) == 0`: equal up to the case of ASCII letters. */
  predicate EqualsIgnoreCase(a: string, b: string)
  {
    |a| == |b| && forall i :: 0 <= i < |a| ==> ToLower(a[i]) == ToLower(b[i])
  }
}
