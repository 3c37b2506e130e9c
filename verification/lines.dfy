/** Cutting a byte stream into lines, however the stream arrives. */
module LineReading {
  import opened Bytes

  const NEWLINE: Byte := 10
  const CR: Byte := 13

  function NewlineAt(s: seq<Byte>): (i: nat)
    ensures i <= |s|
    ensures i < |s| ==> s[i] == NEWLINE
    ensures forall k :: 0 <= k < i ==> s[k] != NEWLINE
  {
    if s == [] || s[0] == NEWLINE then 0 else 1 + NewlineAt(s[1..])
  }

  function TrimCR(s: seq<Byte>): seq<Byte> {
    if s != [] && s[|s| - 1] == CR then TrimCR(s[..|s| - 1]) else s
  }

  /** The complete lines of a stream, without newlines and trailing CRs, and the unfinished rest. */
  function Split(s: seq<Byte>): (seq<seq<Byte>>, seq<Byte>)
    decreases |s|
  {
    var i := NewlineAt(s);
    if i == |s| then ([], s)
    else
      var (lines, rest) := Split(s[i + 1..]);
      ([TrimCR(s[..i])] + lines, rest)
  }

  function Concat(chunks: seq<seq<Byte>>): seq<Byte> {
    if chunks == [] then [] else chunks[0] + Concat(chunks[1..])
  }

  /** Lines as they are written: each followed by a newline. */
  function Written(lines: seq<seq<Byte>>): seq<Byte> {
    if lines == [] then [] else lines[0] + ([NEWLINE] + Written(lines[1..]))
  }

  lemma WrittenNext(lines: seq<seq<Byte>>, i: nat)
    requires i < |lines|
    ensures Written(lines[i..]) == lines[i] + ([NEWLINE] + Written(lines[i + 1..]))
  {
    assert lines[i..][1..] == lines[i + 1..];
  }

  lemma WrittenNothing()
    ensures Written([]) == []
  {
  }

  lemma NewlineUnique(s: seq<Byte>, i: nat)
    requires i <= |s| && (i < |s| ==> s[i] == NEWLINE) && forall k :: 0 <= k < i ==> s[k] != NEWLINE
    ensures NewlineAt(s) == i
  {
  }

  lemma SplitOne(s: seq<Byte>, i: nat)
    requires i == NewlineAt(s) < |s|
    ensures Split(s) == ([TrimCR(s[..i])] + Split(s[i + 1..]).0, Split(s[i + 1..]).1)
  {
    hide TrimCR, NewlineAt;
  }

  lemma Unfinished(buf: seq<Byte>)
    requires NewlineAt(buf) == |buf|
    ensures Split(buf) == ([], buf)
  {
  }

  /** The lines of a longer stream are the lines so far and those the rest goes on to form. */
  lemma {:induction false} SplitMore(a: seq<Byte>, b: seq<Byte>)
    ensures Split(a + b) == (Split(a).0 + Split(Split(a).1 + b).0, Split(Split(a).1 + b).1)
    decreases |a|
  {
    hide TrimCR, Split, NewlineAt;
    var i := NewlineAt(a);
    if i < |a| {
      NewlineUnique(a + b, i);
      assert (a + b)[..i] == a[..i] && (a + b)[i + 1..] == a[i + 1..] + b;
      SplitOne(a, i);
      SplitOne(a + b, i);
      SplitMore(a[i + 1..], b);
      var first := [TrimCR(a[..i])];
      var rest := Split(a[i + 1..]);
      assert first + rest.0 + Split(rest.1 + b).0 == first + (rest.0 + Split(rest.1 + b).0);
    } else {
      Unfinished(a);
      assert [] + Split(a + b).0 == Split(a + b).0;
    }
  }

  /** What a reader delivers from `chunks`, starting with `buf` unfinished. */
  function Deliver(buf: seq<Byte>, chunks: seq<seq<Byte>>): (seq<seq<Byte>>, seq<Byte>)
    decreases |chunks|
  {
    if chunks == [] then ([], buf)
    else
      var (lines, rest) := Split(buf + chunks[0]);
      var (more, end) := Deliver(rest, chunks[1..]);
      (lines + more, end)
  }

  /** However the stream is cut into reads, the same lines come out and the same rest is kept. */
  lemma {:induction false} ChunkIndependent(buf: seq<Byte>, chunks: seq<seq<Byte>>)
    requires NewlineAt(buf) == |buf|
    ensures Deliver(buf, chunks) == Split(buf + Concat(chunks))
    decreases |chunks|
  {
    hide Split, NewlineAt;
    if chunks == [] {
      assert buf + [] == buf;
      Unfinished(buf);
    } else {
      var (lines, rest) := Split(buf + chunks[0]);
      RestUnfinished(buf + chunks[0]);
      ChunkIndependent(rest, chunks[1..]);
      assert buf + Concat(chunks) == buf + chunks[0] + Concat(chunks[1..]);
      SplitMore(buf + chunks[0], Concat(chunks[1..]));
    }
  }

  lemma {:induction false} RestUnfinished(s: seq<Byte>)
    ensures NewlineAt(Split(s).1) == |Split(s).1|
    decreases |s|
  {
    hide TrimCR;
    var i := NewlineAt(s);
    if i < |s| {
      RestUnfinished(s[i + 1..]);
    }
  }

  predicate PlainLine(line: seq<Byte>) {
    NEWLINE !in line && (line != [] ==> line[|line| - 1] != CR)
  }

  lemma SplitFirst(line: seq<Byte>, rest: seq<Byte>)
    requires PlainLine(line)
    ensures Split(line + ([NEWLINE] + rest)) == ([line] + Split(rest).0, Split(rest).1)
  {
    var s := line + ([NEWLINE] + rest);
    assert forall k :: 0 <= k < |line| ==> s[k] == line[k] && line[k] in line;
    NewlineUnique(s, |line|);
    assert s[..|line|] == line && s[|line| + 1..] == rest;
  }

  /** Lines written one after the other are read back as they were. */
  lemma {:induction false} SplitWritten(lines: seq<seq<Byte>>)
    requires forall i :: 0 <= i < |lines| ==> PlainLine(lines[i])
    ensures Split(Written(lines)) == (lines, [])
    decreases |lines|
  {
    hide Split, PlainLine;
    if lines == [] {
      SplitNothing();
    } else {
      SplitFirst(lines[0], Written(lines[1..]));
      SplitWritten(lines[1..]);
      assert [lines[0]] + lines[1..] == lines;
    }
  }

  /**
   A line ends at a newline, with any number of carriage returns before it dropped; without a newline
   there is no line yet. This determines the lines of any stream.
   */
  lemma LineEnds(line: seq<Byte>, crs: nat, rest: seq<Byte>)
    requires forall i :: 0 <= i < |line| ==> line[i] != 10
    requires line != [] ==> line[|line| - 1] != 13
    ensures Split(line + Returns(crs) + [10] + rest) == ([line] + Split(rest).0, Split(rest).1)
    ensures Split(line) == ([], line)
  {
    hide TrimCR;
    var s, n := line + Returns(crs) + [10] + rest, |line| + crs;
    NewlineUnique(s, n);
    NewlineUnique(line, |line|);
    assert s[..n] == line + Returns(crs) && s[n + 1..] == rest;
    ReturnsTrimmed(line, crs);
  }

  function Returns(n: nat): (s: seq<Byte>)
    ensures |s| == n
  {
    seq(n, i => 13)
  }

  lemma {:induction false} ReturnsTrimmed(line: seq<Byte>, n: nat)
    requires line != [] ==> line[|line| - 1] != 13
    ensures TrimCR(line + Returns(n)) == line
  {
    var s := line + Returns(n);
    if n > 0 {
      assert s[..|s| - 1] == line + Returns(n - 1);
      ReturnsTrimmed(line, n - 1);
    } else {
      assert s == line;
    }
  }

  lemma SplitNothing()
    ensures Split([]) == ([], [])
  {
  }

  /** The firmware's reader over the data port. */
  class SerialLines {
    var buf: seq<Byte>

    constructor ()
      ensures buf == []
    {
      buf := [];
    }

    /** One call of `read_lines`, in which the port had `waiting` to read. */
    method ReadLines(waiting: seq<Byte>) returns (lines: seq<seq<Byte>>)
      modifies this
      ensures (lines, buf) == Split(old(buf) + waiting)
    {
      hide TrimCR;
      buf := buf + waiting;
      lines := [];
      ghost var stream := buf;
      assert [] + Split(buf).0 == Split(buf).0;
      while NEWLINE in buf
        invariant Split(stream) == (lines + Split(buf).0, Split(buf).1)
        decreases |buf|
      {
        var i := NewlineAt(buf);
        var line, rest := TrimCR(buf[..i]), buf[i + 1..];
        assert lines + ([line] + Split(rest).0) == lines + [line] + Split(rest).0;
        lines := lines + [line];
        buf := rest;
      }
      assert NewlineAt(buf) == |buf|;
      assert lines + [] == lines;
    }
  }
}
