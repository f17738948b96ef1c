/**
 * The connection as the transaction sees it through the Rio package:
 * an append-only output (`Rio_writen`) and a reader that hands out the
 * input one line at a time (`Rio_readlineb`), each line with its terminator.
 */
module Rio {

  /** The write side of a connection: every byte written so far, in order. */
  class Connection {
    var written: string

    constructor ()
      ensures written == []
    {
      written := [];
    }

    /** `Rio_writen(fd, s, |s|)`: appends `s` to what the client receives. */
    method Write(s: string)
      modifies this
      ensures written == old(written) + s
    {
      written := written + s;
    }
  }

  /** Two writes in a row append their concatenation. */
  lemma AppendTwo(w: string, a: string, b: string)
    ensures w + a + b == w + (a + b)
  {
  }

  /** Three writes in a row append their concatenation. */
  lemma AppendThree(w: string, a: string, b: string, c: string)
    ensures w + a + b + c == w + (a + b + c)
  {
  }

  /** Four writes in a row append their concatenation. */
  lemma AppendFour(w: string, a: string, b: string, c: string, d: string)
    ensures w + a + b + c + d == w + (a + b + c + d)
  {
  }

  /** The read side of a connection, already cut into lines; `pos` is the next line to be read. */
  class LineReader {
    const lines: seq<string>
    var pos: nat

    ghost predicate Valid()
      reads this
    {
      pos <= |lines|
    }

    /** The lines not read yet. */
    function Unread(): (r: seq<string>)
      reads this
      requires Valid()
      ensures |r| == |lines| - pos
    {
      lines[pos..]
    }

    /** `Rio_readinitb`: a reader positioned at the first line of `input`. */
    constructor (input: seq<string>)
      ensures Valid() && lines == input && pos == 0
    {
      lines := input;
      pos := 0;
    }

    /** `Rio_readlineb`: the next line, terminator included. */
    method ReadLine() returns (line: string)
      requires Valid() && pos < |lines|
      modifies this
      ensures Valid() && pos == old(pos) + 1
      ensures line == lines[old(pos)]
    {
      line := lines[pos];
      pos := pos + 1;
    }
  }
}
