/** The byte-at-a-time line reader: the simple form that the buffered reader of
    the PARENA runtime must agree with, and what it means for a whole file. */
module Lines {

  newtype byte = b: int | 0 <= b < 256
  type Bytes = seq<byte>

  const NEWLINE: byte := 10

  /** Consumes `s` one byte at a time until a newline or the end. Yields the line
      (the newline is consumed and left out) and what remains unread. */
  function ReadLine(s: Bytes, acc: Bytes := []): (r: (Bytes, Bytes))
    ensures |r.1| <= |s|
    ensures s != [] ==> |r.1| < |s|
  {
    if s == [] then (acc, [])
    else if s[0] == NEWLINE then (acc, s[1..])
    else ReadLine(s[1..], acc + [s[0]])
  }

  /** Every line of `s`, by "while not at end, read a line". */
  function ReadLines(s: Bytes): (ls: seq<Bytes>)
    decreases |s|
  {
    if s == [] then []
    else
      var (line, rest) := ReadLine(s);
      [line] + ReadLines(rest)
  }

  /** The text in which every line is closed by a newline. */
  function Unlines(ls: seq<Bytes>): (s: Bytes) {
    if ls == [] then [] else ls[0] + [NEWLINE] + Unlines(ls[1..])
  }

  ghost predicate NewlineFree(s: Bytes) { NEWLINE !in s }

  /** A text whose last line is closed. The empty text has no line to close. */
  predicate Closed(s: Bytes) { s == [] || s[|s| - 1] == NEWLINE }

  /** What one read-line call means: the line is the newline-free part before the
      first newline, and line, newline and remainder rebuild the text. */
  lemma {:induction false} ReadLineSplits(s: Bytes, acc: Bytes)
    requires NewlineFree(acc)
    ensures
      var (line, rest) := ReadLine(s, acc);
      && NewlineFree(line)
      && (if NEWLINE in s then acc + s == line + [NEWLINE] + rest
          else acc + s == line && rest == [])
  {
    if s != [] && s[0] != NEWLINE {
      ReadLineSplits(s[1..], acc + [s[0]]);
      assert acc + s == (acc + [s[0]]) + s[1..];
      assert NEWLINE in s <==> NEWLINE in s[1..];
    } else if s != [] {
      assert acc + s == acc + [NEWLINE] + s[1..];
    } else {
      assert acc + s == acc;
    }
  }

  /** Reading a newline-free line that is followed by a newline. */
  lemma {:induction false} ReadLineOfClosed(line: Bytes, rest: Bytes, acc: Bytes)
    requires NewlineFree(line)
    ensures ReadLine(line + [NEWLINE] + rest, acc) == (acc + line, rest)
  {
    var s := line + [NEWLINE] + rest;
    if line == [] {
      assert s[1..] == rest && acc + line == acc;
    } else {
      assert s[0] == line[0] && s[1..] == line[1..] + [NEWLINE] + rest;
      ReadLineOfClosed(line[1..], rest, acc + [line[0]]);
      assert (acc + [line[0]]) + line[1..] == acc + line;
    }
  }

  lemma {:induction false} ReadLinesNewlineFree(s: Bytes)
    ensures forall i :: 0 <= i < |ReadLines(s)| ==> NewlineFree(ReadLines(s)[i])
    decreases |s|
  {
    if s != [] {
      ReadLineSplits(s, []);
      ReadLinesNewlineFree(ReadLine(s).1);
    }
  }

  lemma UnlinesCons(line: Bytes, ls: seq<Bytes>)
    ensures Unlines([line] + ls) == line + [NEWLINE] + Unlines(ls)
  {
  }

  /** A line and what follows it: the last line is that of the rest, if there is one. */
  lemma ClosedTail(line: Bytes, rest: Bytes)
    ensures
      var s := line + [NEWLINE] + rest;
      && Closed(s) == Closed(rest)
      && line + [NEWLINE] + (rest + [NEWLINE]) == s + [NEWLINE]
  {
  }

  /** Rejoining the lines rebuilds the file, up to one missing final newline. */
  lemma {:induction false} RejoinedLines(s: Bytes)
    ensures Unlines(ReadLines(s)) == if Closed(s) then s else s + [NEWLINE]
    decreases |s|
  {
    if s != [] {
      var (line, rest) := ReadLine(s);
      ReadLineSplits(s, []);
      assert [] + s == s;
      RejoinedLines(rest);
      UnlinesCons(line, ReadLines(rest));
      if NEWLINE in s {
        ClosedTail(line, rest);
      } else {
        assert s + [NEWLINE] + [] == s + [NEWLINE];
      }
    }
  }

  /** Reading inverts joining: newline-free lines survive the round trip. */
  lemma {:induction false} LinesRoundTrip(ls: seq<Bytes>)
    requires forall i :: 0 <= i < |ls| ==> NewlineFree(ls[i])
    ensures ReadLines(Unlines(ls)) == ls
  {
    if ls != [] {
      ReadLineOfClosed(ls[0], Unlines(ls[1..]), []);
      assert [] + ls[0] == ls[0];
      LinesRoundTrip(ls[1..]);
      assert ls == [ls[0]] + ls[1..];
    }
  }
}
