/** Putting the lister's lines together again from arbitrary pieces. */
module Reassembly {
  import opened Wire
  import opened Listing

  const MAX_PATH_SIZE := 2048

  function FirstNewline(s: string): (i: nat)
    ensures i <= |s|
    ensures '\n' !in s[..i]
    ensures i < |s| ==> s[i] == '\n'
  {
    if s == "" || s[0] == '\n' then 0 else 1 + FirstNewline(s[1..])
  }

  lemma {:induction false} FirstNewlineUnique(s: string, i: nat)
    requires i <= |s| && '\n' !in s[..i]
    requires i < |s| ==> s[i] == '\n'
    ensures FirstNewline(s) == i
  {
    var j := FirstNewline(s);
    assert forall k :: 0 <= k < i ==> s[k] == s[..i][k];
    assert forall k :: 0 <= k < j ==> s[k] == s[..j][k];
  }

  /** `strstr(line, MARKER) != NULL`. */
  predicate Marked(line: string) {
    exists i :: 0 <= i <= |line| && MARKER <= line[i..]
  }

  /** The marker counts wherever it stands in a line. */
  lemma {:induction false} MarkedIff(line: string)
    ensures Marked(line) <==> exists a: string, b: string :: line == a + "@!-Finished Indexing-!@" + b
  {
    if Marked(line) {
      var i :| 0 <= i <= |line| && MARKER <= line[i..];
      assert line == line[..i] + MARKER + line[i..][|MARKER|..];
    }
    if a: string, b: string :| line == a + MARKER + b {
      assert line[|a|..] == MARKER + b;
    }
  }

  /** Complete lines, the unfinished line after them, and whether the end marker was seen. */
  datatype Progress = Progress(lines: seq<string>, rest: string, finished: bool) {
    function After(earlier: seq<string>): Progress {
      this.(lines := earlier + lines)
    }
  }

  /** One pass over the buffer. */
  function Absorb(s: string): Progress
    decreases |s|
  {
    var i := FirstNewline(s);
    if i == |s| then Progress([], s, false)
    else if Marked(s[..i]) then Progress([], s[..i], true)
    else Absorb(s[i + 1..]).After([s[..i]])
  }

  /** `strncat` into the buffer: what does not fit is lost. */
  function Feed(buffer: string, chunk: string): string {
    var s := buffer + chunk;
    if |s| < MAX_PATH_SIZE then s else s[..MAX_PATH_SIZE - 1]
  }

  /** The buffer holds what was received, but never more than 2047 characters. */
  lemma {:induction false} FeedCuts(buffer: string, chunk: string)
    ensures Feed(buffer, chunk) <= buffer + chunk
    ensures |Feed(buffer, chunk)| == if |buffer| + |chunk| <= 2047 then |buffer| + |chunk| else 2047
  {
  }

  /** The receive loop: pieces are taken until the marker was seen or none is left. */
  function Receive(buffer: string, chunks: seq<string>): Progress
    decreases |chunks|
  {
    if chunks == [] then Progress([], buffer, false)
    else
      var p := Absorb(Feed(buffer, chunks[0]));
      if p.finished then p else Receive(p.rest, chunks[1..]).After(p.lines)
  }

  /** No piece overflows the buffer. */
  predicate Fits(buffer: string, chunks: seq<string>)
    decreases |chunks|
  {
    chunks == [] || (
      && |buffer| + |chunks[0]| < MAX_PATH_SIZE
      && var p := Absorb(buffer + chunks[0]);
      p.finished || Fits(p.rest, chunks[1..]))
  }

  lemma {:induction false} AbsorbRest(s: string)
    ensures '\n' !in Absorb(s).rest
    decreases |s|
  {
    var i := FirstNewline(s);
    if i == |s| {
      assert s[..i] == s;
    } else if !Marked(s[..i]) {
      AbsorbRest(s[i + 1..]);
    }
  }

  /** A line that straddles two pieces is completed by the second one. */
  lemma {:induction false} AbsorbConcat(a: string, b: string)
    ensures Absorb(a + b) ==
            if Absorb(a).finished then Absorb(a) else Absorb(Absorb(a).rest + b).After(Absorb(a).lines)
    decreases |a|
  {
    var i := FirstNewline(a);
    if i < |a| {
      var s := a + b;
      assert s[..i] == a[..i];
      FirstNewlineUnique(s, i);
      assert s[i + 1..] == a[i + 1..] + b;
      AbsorbConcat(a[i + 1..], b);
      if !Marked(a[..i]) {
        var p := Absorb(a[i + 1..]);
        assert Absorb(a).lines == [a[..i]] + p.lines;
        if !p.finished {
          AfterTwice(Absorb(p.rest + b), [a[..i]], p.lines);
        }
      }
    } else {
      assert Absorb(a + b).After([]) == Absorb(a + b) by { assert forall l: seq<string> :: [] + l == l; }
    }
  }

  lemma {:induction false} AfterTwice(p: Progress, a: seq<string>, b: seq<string>)
    ensures p.After(b).After(a) == p.After(a + b)
  {
    assert a + (b + p.lines) == a + b + p.lines;
  }

  /** However the stream is cut, the pieces yield what the whole yields. */
  lemma {:induction false} ReceiveWhole(buffer: string, chunks: seq<string>)
    requires '\n' !in buffer && Fits(buffer, chunks)
    ensures Receive(buffer, chunks) == Absorb(buffer + Flat(chunks))
    decreases |chunks|
  {
    if chunks == [] {
      assert buffer + Flat(chunks) == buffer;
      FirstNewlineUnique(buffer, |buffer|);
    } else {
      var s := buffer + chunks[0];
      var p := Absorb(s);
      assert buffer + Flat(chunks) == s + Flat(chunks[1..]);
      AbsorbConcat(s, Flat(chunks[1..]));
      AbsorbRest(s);
      if !p.finished {
        ReceiveWhole(p.rest, chunks[1..]);
      }
    }
  }

  /** The stream of the lister. */
  function Stream(lines: seq<string>): string {
    if lines == [] then "" else lines[0] + "\n" + Stream(lines[1..])
  }

  predicate GoodLine(l: string) {
    '\n' !in l && !Marked(l)
  }

  lemma {:induction false} StreamConcat(a: seq<string>, b: seq<string>)
    ensures Stream(a + b) == Stream(a) + Stream(b)
    decreases |a|
  {
    if a == [] {
      assert a + b == b;
    } else {
      assert (a + b)[1..] == a[1..] + b;
      StreamConcat(a[1..], b);
    }
  }

  lemma {:induction false} AbsorbLine(l: string, more: string)
    requires '\n' !in l
    ensures Absorb(l + "\n" + more) == if Marked(l) then Progress([], l, true) else Absorb(more).After([l])
  {
    var s := l + "\n" + more;
    assert s[..|l|] == l && s[|l|] == '\n' && s[|l| + 1..] == more;
    FirstNewlineUnique(s, |l|);
  }

  lemma {:induction false} LineFirst(l: string, a: string, b: string, c: string, d: string)
    ensures l + "\n" + a + b + c + d == l + "\n" + (a + b + c + d)
  {
  }

  /** The whole stream decodes to its lines, up to the marker. */
  lemma {:induction false} StreamDecodes(lines: seq<string>, marker: string, more: string)
    requires forall i | 0 <= i < |lines| :: GoodLine(lines[i])
    requires '\n' !in marker && Marked(marker)
    ensures Absorb(Stream(lines) + marker + "\n" + more) == Progress(lines, marker, true)
    decreases |lines|
  {
    if lines == [] {
      AbsorbLine(marker, more);
      assert "" + marker == marker;
    } else {
      assert GoodLine(lines[0]);
      LineFirst(lines[0], Stream(lines[1..]), marker, "\n", more);
      AbsorbLine(lines[0], Stream(lines[1..]) + marker + "\n" + more);
      StreamDecodes(lines[1..], marker, more);
      assert [lines[0]] + lines[1..] == lines;
    }
  }

  lemma {:induction false} MarkerMarked()
    ensures '\n' !in MARKER && Marked(MARKER)
  {
    assert MARKER <= MARKER[0..];
  }
}
