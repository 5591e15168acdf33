/** The lister and the receiving loop as the code runs them, and the two together. */
module Indexer {
  import opened Wire
  import opened Paths
  import opened PathSets
  import opened Tries
  import opened Files
  import opened Listing
  import opened Reassembly
  import Metadata

  /** Every path with its newline fits the lister's buffer. */
  predicate ShortPaths(base: string, t: Tree)
    decreases t, 1
  {
    |base| + 1 < MAX_PATH_SIZE && (t.Folder? ==> ShortEntries(base, t.entries))
  }

  predicate ShortEntries(base: string, es: seq<Entry>)
    decreases es, 0
  {
    es == [] || (
      && (Hidden(es[0].name) || ShortPaths(base + "/" + es[0].name, es[0].tree))
      && ShortEntries(base, es[1..]))
  }

  /** The part of the stream due to one entry. */
  function EntryStream(base: string, e: Entry): string {
    if Hidden(e.name) then ""
    else Stream([base + "/" + e.name]) + Stream(Lines(base + "/" + e.name, e.tree))
  }

  /** What was sent and the entries to come make up `all`; stated so that it is
      opened in the lemmas below only. */
  ghost predicate Underway(sent: string, base: string, rest: seq<Entry>, all: string) {
    forall r {:trigger EntryLines(base, r)} | r == rest ::
      ShortEntries(base, r) && sent + Stream(EntryLines(base, r)) == all
  }

  lemma {:induction false} EntryLinesStep(base: string, es: seq<Entry>)
    requires es != []
    ensures Stream(EntryLines(base, es)) == EntryStream(base, es[0]) + Stream(EntryLines(base, es[1..]))
  {
    if !Hidden(es[0].name) {
      var path := base + "/" + es[0].name;
      StreamConcat([path], Lines(path, es[0].tree));
      StreamConcat([path] + Lines(path, es[0].tree), EntryLines(base, es[1..]));
    }
  }

  lemma {:induction false} EntryStep(sent: string, base: string, es: seq<Entry>, i: nat, all: string)
    requires i < |es| && Underway(sent, base, es[i..], all)
    ensures Hidden(es[i].name) || ShortPaths(base + "/" + es[i].name, es[i].tree)
    ensures Underway(sent + EntryStream(base, es[i]), base, es[i + 1..], all)
  {
    var rest := es[i..];
    assert rest[0] == es[i] && rest[1..] == es[i + 1..];
    assert sent + Stream(EntryLines(base, rest)) == all;
    EntryLinesStep(base, rest);
    assert sent + (EntryStream(base, es[i]) + Stream(EntryLines(base, es[i + 1..]))) ==
           sent + EntryStream(base, es[i]) + Stream(EntryLines(base, es[i + 1..]));
  }

  lemma {:induction false} FirstLine(sent: string, base: string, t: Tree)
    requires t.Folder? && ShortPaths(base, t)
    ensures Underway(sent + Stream([base]), base, t.entries, sent + Stream(Lines(base, t)))
  {
    StreamConcat([base], EntryLines(base, t.entries));
    assert sent + (Stream([base]) + Stream(EntryLines(base, t.entries))) ==
           sent + Stream([base]) + Stream(EntryLines(base, t.entries));
  }

  lemma {:induction false} LastEntry(sent: string, base: string, all: string)
    requires Underway(sent, base, [], all)
    ensures sent == all
  {
    assert Stream(EntryLines(base, [])) == "" && sent + "" == sent;
  }

  class Lister {
    var sent: string

    constructor ()
      ensures sent == ""
    {
      sent := "";
    }

    method SendLine(line: string)
      requires |line| + 1 < MAX_PATH_SIZE
      modifies this
      ensures sent == old(sent) + Stream([line])
    {
      sent := sent + (line + "\n");
      assert line + "\n" == Stream([line]);
    }

    /** `_indexSubFolders`. */
    method IndexSubFolders(base: string, t: Tree)
      requires t.Folder? && ShortPaths(base, t)
      modifies this
      ensures sent == old(sent) + Stream(Lines(base, t))
      decreases t, 1
    {
      FirstLine(sent, base, t);
      SendLine(base);
      var i := 0;
      assert t.entries[0..] == t.entries;
      while i < |t.entries|
        invariant 0 <= i <= |t.entries|
        invariant Underway(sent, base, t.entries[i..], old(sent) + Stream(Lines(base, t)))
      {
        EntryStep(sent, base, t.entries, i, old(sent) + Stream(Lines(base, t)));
        SendEntry(base, t.entries[i]);
        i := i + 1;
      }
      assert t.entries[i..] == [];
      LastEntry(sent, base, old(sent) + Stream(Lines(base, t)));
    }

    method SendEntry(base: string, e: Entry)
      requires Hidden(e.name) || ShortPaths(base + "/" + e.name, e.tree)
      modifies this
      ensures sent == old(sent) + EntryStream(base, e)
      decreases e, 0
    {
      if !Hidden(e.name) {
        var path := base + "/" + e.name;
        SendLine(path);
        if e.tree.Folder? {
          IndexSubFolders(path, e.tree);
        }
      }
    }

    /** `indexSubFolder`: the lines and then the end marker. */
    method IndexSubFolder(base: string, t: Tree)
      requires t.Folder? && ShortPaths(base, t)
      modifies this
      ensures sent == old(sent) + Stream(Lines(base, t)) + MARKER + "\n"
    {
      IndexSubFolders(base, t);
      sent := sent + MARKER + "\n";
    }
  }

  ghost predicate Shallow(lines: seq<string>) {
    forall i | 0 <= i < |lines| :: |Parse(lines[i])| < MAX_PATH
  }

  /** What is still to be done: the set the trie will hold and the outcome. */
  ghost function Outcome(ps: set<Path>, p: Progress): (set<Path>, string, bool) {
    (AddLines(ps, p.lines), p.rest, p.finished)
  }

  /** The rest of the buffer leads to this outcome; stated so that it is opened
      in the lemmas below only. */
  ghost predicate LeadsTo(ps: set<Path>, rest: string, all: (set<Path>, string, bool)) {
    forall r {:trigger Absorb(r)} | r == rest :: Shallow(Absorb(r).lines) && Outcome(ps, Absorb(r)) == all
  }

  lemma {:induction false} LineStep(ps: set<Path>, current: string, all: (set<Path>, string, bool))
    requires FirstNewline(current) < |current| && !Marked(current[..FirstNewline(current)])
    requires LeadsTo(ps, current, all)
    ensures var line := current[..FirstNewline(current)];
            var next := current[FirstNewline(current) + 1..];
            |Parse(line)| < MAX_PATH && LeadsTo(if line == "" then ps else Added(ps, Parse(line)), next, all)
  {
    var line, next := current[..FirstNewline(current)], current[FirstNewline(current) + 1..];
    assert Outcome(ps, Absorb(current)) == all;
    SplitShallow([line], Absorb(next).lines);
    assert [line][0] == line;
    assert Absorb(current).lines[1..] == Absorb(next).lines;
  }

  lemma {:induction false} NoMoreLines(ps: set<Path>, s: string, all: (set<Path>, string, bool))
    requires FirstNewline(s) < |s| ==> Marked(s[..FirstNewline(s)])
    requires LeadsTo(ps, s, all)
    ensures all == (ps, s[..FirstNewline(s)], FirstNewline(s) < |s|)
  {
    assert Outcome(ps, Absorb(s)) == all;
    assert FirstNewline(s) == |s| ==> s[..FirstNewline(s)] == s;
  }

  /** One line; an empty one is no path. */
  method AddLine(line: string, trie: Trie)
    requires trie.Valid() && |Parse(line)| < MAX_PATH
    modifies trie.Repr
    ensures trie.Valid() && fresh(trie.Repr - old(trie.Repr))
    ensures trie.Contents() == if line == "" then old(trie.Contents()) else Added(old(trie.Contents()), Parse(line))
    ensures old(trie.Packed()) ==> trie.Packed()
    ensures forall name | old(trie.RootIs(name)) :: trie.RootIs(name)
  {
    if line != "" {
      trie.Add(line);
    }
  }

  /** The inner loop of `indexHelper`: add the complete lines of the buffer. */
  method AddCompleteLines(buffer: string, trie: Trie) returns (rest: string, finished: bool)
    requires trie.Valid() && Shallow(Absorb(buffer).lines)
    modifies trie.Repr
    ensures trie.Valid() && fresh(trie.Repr - old(trie.Repr))
    ensures (trie.Contents(), rest, finished) == Outcome(old(trie.Contents()), Absorb(buffer))
    ensures old(trie.Packed()) ==> trie.Packed()
    ensures forall name | old(trie.RootIs(name)) :: trie.RootIs(name)
  {
    rest := buffer;
    var newline := FirstNewline(rest);
    ghost var all := Outcome(trie.Contents(), Absorb(buffer));
    while newline < |rest| && !Marked(rest[..newline])
      invariant newline == FirstNewline(rest)
      invariant trie.Valid() && fresh(trie.Repr - old(trie.Repr))
      invariant LeadsTo(trie.Contents(), rest, all)
      invariant old(trie.Packed()) ==> trie.Packed()
      invariant forall name | old(trie.RootIs(name)) :: trie.RootIs(name)
      decreases |rest|
    {
      LineStep(trie.Contents(), rest, all);
      AddLine(rest[..newline], trie);
      rest := rest[newline + 1..];
      newline := FirstNewline(rest);
    }
    NoMoreLines(trie.Contents(), rest, all);
    finished := newline < |rest|;
    rest := rest[..newline];
  }

  lemma {:induction false} PieceStep(ps: set<Path>, buffer: string, chunks: seq<string>, i: nat)
    requires i < |chunks| && Shallow(Receive(buffer, chunks[i..]).lines)
    ensures var p := Absorb(Feed(buffer, chunks[i]));
            && Shallow(p.lines)
            && (if p.finished then
                  Outcome(ps, Receive(buffer, chunks[i..])) == Outcome(ps, p)
                else
                  && Shallow(Receive(p.rest, chunks[i + 1..]).lines)
                  && Outcome(ps, Receive(buffer, chunks[i..])) ==
                     Outcome(AddLines(ps, p.lines), Receive(p.rest, chunks[i + 1..])))
  {
    var left := chunks[i..];
    assert left[0] == chunks[i] && left[1..] == chunks[i + 1..];
    var p := Absorb(Feed(buffer, chunks[i]));
    if !p.finished {
      var later := Receive(p.rest, left[1..]).lines;
      SplitShallow(p.lines, later);
      AddLinesConcat(ps, p.lines, later);
    }
  }

  /** After `i` pieces the outcome is reached, or the others lead to it; stated so
      that it is opened in the lemmas below only. */
  ghost predicate Pending(
      ps: set<Path>, rest: string, finished: bool, chunks: seq<string>, i: nat, all: (set<Path>, string, bool))
    requires i <= |chunks|
  {
    if finished then all == (ps, rest, true)
    else
      forall left {:trigger Receive(rest, left)} | left == chunks[i..] ::
        Shallow(Receive(rest, left).lines) && Outcome(ps, Receive(rest, left)) == all
  }

  lemma {:induction false} FirstPending(ps: set<Path>, chunks: seq<string>)
    requires Shallow(Receive("", chunks).lines)
    ensures Pending(ps, "", false, chunks, 0, Outcome(ps, Receive("", chunks)))
  {
    assert chunks[0..] == chunks;
  }

  lemma {:induction false} NextPending(
      ps: set<Path>, rest: string, chunks: seq<string>, i: nat, all: (set<Path>, string, bool))
    requires i < |chunks| && Pending(ps, rest, false, chunks, i, all)
    ensures var p := Absorb(Feed(rest, chunks[i]));
            Shallow(p.lines) && Pending(AddLines(ps, p.lines), p.rest, p.finished, chunks, i + 1, all)
  {
    assert Shallow(Receive(rest, chunks[i..]).lines);
    PieceStep(ps, rest, chunks, i);
  }

  lemma {:induction false} LastPending(
      ps: set<Path>, rest: string, finished: bool, chunks: seq<string>, i: nat, all: (set<Path>, string, bool))
    requires i <= |chunks| && Pending(ps, rest, finished, chunks, i, all) && (finished || i == |chunks|)
    ensures all == (ps, rest, finished)
  {
    if !finished {
      assert chunks[i..] == [];
      assert Outcome(ps, Receive(rest, chunks[i..])) == all;
    }
  }

  /** `indexHelper`: each piece is appended to what the last one left over. */
  method IndexHelper(chunks: seq<string>, trie: Trie) returns (rest: string, finished: bool)
    requires trie.Valid() && Shallow(Receive("", chunks).lines)
    modifies trie.Repr
    ensures trie.Valid() && fresh(trie.Repr - old(trie.Repr))
    ensures (trie.Contents(), rest, finished) == Outcome(old(trie.Contents()), Receive("", chunks))
    ensures old(trie.Packed()) ==> trie.Packed()
    ensures forall name | old(trie.RootIs(name)) :: trie.RootIs(name)
  {
    rest, finished := "", false;
    var i := 0;
    ghost var all := Outcome(trie.Contents(), Receive("", chunks));
    FirstPending(trie.Contents(), chunks);
    while i < |chunks| && !finished
      invariant 0 <= i <= |chunks|
      invariant trie.Valid() && fresh(trie.Repr - old(trie.Repr))
      invariant Pending(trie.Contents(), rest, finished, chunks, i, all)
      invariant old(trie.Packed()) ==> trie.Packed()
      invariant forall name | old(trie.RootIs(name)) :: trie.RootIs(name)
    {
      NextPending(trie.Contents(), rest, chunks, i, all);
      rest, finished := AddCompleteLines(Feed(rest, chunks[i]), trie);
      i := i + 1;
    }
    LastPending(trie.Contents(), rest, finished, chunks, i, all);
  }

  lemma {:induction false} SplitShallow(a: seq<string>, b: seq<string>)
    ensures Shallow(a + b) ==> Shallow(a) && Shallow(b)
  {
    assert forall i | 0 <= i < |a| :: (a + b)[i] == a[i];
    assert forall i | 0 <= i < |b| :: (a + b)[|a| + i] == b[i];
  }

  /** What a listing must satisfy for its lines to survive the trip: no newline
      and no end marker in a path, and fewer components than the parser keeps. */
  ghost predicate Plain(base: string, t: Tree) {
    var lines := Lines(base, t);
    Shallow(lines) && forall i | 0 <= i < |lines| :: GoodLine(lines[i])
  }

  /** End to end: for every cutting of the stream the lines received are the
      lines listed. */
  lemma {:induction false} ListingArrives(base: string, t: Tree, chunks: seq<string>)
    requires Plain(base, t) && Fits("", chunks)
    requires Stream(Lines(base, t)) + MARKER + "\n" <= Flat(chunks)
    ensures Receive("", chunks) == Progress(Lines(base, t), MARKER, true)
  {
    var sent := Stream(Lines(base, t)) + MARKER + "\n";
    var more := Flat(chunks)[|sent|..];
    assert "" + Flat(chunks) == Flat(chunks) == Stream(Lines(base, t)) + MARKER + "\n" + more;
    ReceiveWhole("", chunks);
    MarkerMarked();
    StreamDecodes(Lines(base, t), MARKER, more);
  }

  /** Indexing pipeline: whatever part of the tree was known before, the trie
      holds exactly the visible tree and the prefixes of its root afterwards. */
  lemma {:induction false} IndexingExact(ps: set<Path>, base: string, t: Tree, chunks: seq<string>)
    requires t.Folder? && Spelled(t) && Regular(t) && base != "" && Plain(base, t)
    requires Fits("", chunks) && Stream(Lines(base, t)) + MARKER + "\n" <= Flat(chunks)
    requires PrefixClosed(ps) && Narrow(ps) && ps <= Indexed(Parse(base), t)
    ensures AddLines(ps, Receive("", chunks).lines) == Indexed(Parse(base), t) <==> Indexable(t)
  {
    ListingArrives(base, t, chunks);
    IndexMeaning(ps, base, t);
  }

  /** Every path lies below the root folder. */
  ghost predicate BelowRoot(lines: seq<string>, root: string) {
    forall i | 0 <= i < |lines| ::
      var p := Parse(lines[i]); |p| >= 2 && p[0] == "." && p[1] == root
  }

  lemma {:induction false} BelowRootConcat(a: seq<string>, b: seq<string>, root: string)
    requires BelowRoot(a, root) && BelowRoot(b, root)
    ensures BelowRoot(a + b, root)
  {
  }

  lemma {:induction false} ChildBelowRoot(base: string, name: string, root: string)
    requires BelowRoot([base], root)
    ensures BelowRoot([base + "/" + name], root)
  {
    assert [base][0] == base;
    SplitConcat(base, name, PARSE_SKIP);
  }

  /** All lines of a listing do, whatever the names. */
  lemma {:induction false} LinesBelowRoot(base: string, t: Tree, root: string)
    requires BelowRoot([base], root)
    ensures BelowRoot(Lines(base, t), root)
    decreases t, 1
  {
    if t.Folder? {
      EntryLinesBelowRoot(base, t.entries, root);
      BelowRootConcat([base], EntryLines(base, t.entries), root);
    }
  }

  lemma {:induction false} EntryLinesBelowRoot(base: string, es: seq<Entry>, root: string)
    requires BelowRoot([base], root)
    ensures BelowRoot(EntryLines(base, es), root)
    decreases es, 0
  {
    if es != [] {
      EntryLinesBelowRoot(base, es[1..], root);
      if !Hidden(es[0].name) {
        var path := base + "/" + es[0].name;
        ChildBelowRoot(base, es[0].name, root);
        LinesBelowRoot(path, es[0].tree, root);
        BelowRootConcat([path], Lines(path, es[0].tree), root);
        BelowRootConcat([path] + Lines(path, es[0].tree), EntryLines(base, es[1..]), root);
      }
    }
  }

  lemma {:induction false} AddLinesRooted(ps: set<Path>, lines: seq<string>, root: string)
    requires Metadata.Rooted(ps, root) && BelowRoot(lines, root)
    ensures Metadata.Rooted(AddLines(ps, lines), root)
    decreases |lines|
  {
    if lines != [] {
      Metadata.RootedAdded(ps, root, Parse(lines[0]));
      AddLinesRooted(if lines[0] == "" then ps else Added(ps, Parse(lines[0])), lines[1..], root);
    }
  }

  lemma {:induction false} FirstLineRooted(base: string, root: string)
    requires base != "" && Parse(base) == [".", root]
    ensures Metadata.Rooted(AddLines({[]}, [base]), root)
  {
    var ps: set<Path>, c := {[]}, [".", root];
    assert c[..0] == [] && c[..1] == ["."] && c[..2] == c;
    assert ChildrenOf(ps, []) == {} && Deepest(ps, c, 0) == 0;
    assert [base][1..] == [] && AddLines(ps, [base]) == Added(ps, c);
    AddedClosed(ps, c);
    assert Added(ps, c) == ps + Prefixes(c, 2);
  }

  /** What listing a server's root folder leaves in a new trie is what a
      registration needs, also where a full node has cut it. */
  lemma {:induction false} ListedRooted(base: string, t: Tree, root: string)
    requires t.Folder? && base != "" && Parse(base) == [".", root]
    ensures Metadata.Rooted(AddLines({[]}, Lines(base, t)), root)
  {
    AddLinesConcat({[]}, [base], EntryLines(base, t.entries));
    FirstLineRooted(base, root);
    EntryLinesBelowRoot(base, t.entries, root);
    AddLinesRooted(AddLines({[]}, [base]), EntryLines(base, t.entries), root);
  }

  lemma {:induction false} NewServerLines(base: string, root: string, t: Tree, chunks: seq<string>)
    requires t.Folder? && Plain(base, t) && base != "" && Parse(base) == [".", root]
    requires Fits("", chunks) && Stream(Lines(base, t)) + MARKER + "\n" <= Flat(chunks)
    ensures Receive("", chunks).lines == Lines(base, t) && Shallow(Lines(base, t))
    ensures Metadata.Rooted(AddLines({[]}, Lines(base, t)), root)
    ensures Spelled(t) && Regular(t) ==>
              (AddLines({[]}, Lines(base, t)) == Indexed([".", root], t) <==> Indexable(t))
  {
    ListingArrives(base, t, chunks);
    ListedRooted(base, t, root);
    if Spelled(t) && Regular(t) {
      EmptyNarrow();
      assert {[]} <= Indexed(Parse(base), t) by { assert Parse(base)[..0] == []; }
      IndexMeaning({[]}, base, t);
    }
  }

  /** A new trie for the lines received. */
  method IndexNewTrie(chunks: seq<string>, ghost root: string) returns (trie: Trie)
    requires Shallow(Receive("", chunks).lines)
    requires Metadata.Rooted(AddLines({[]}, Receive("", chunks).lines), root)
    ensures trie.Valid() && fresh(trie.Repr) && trie.RootIs(root)
    ensures trie.Contents() == AddLines({[]}, Receive("", chunks).lines)
  {
    trie := new Trie(".");
    ghost var start := trie.Repr;
    var _, _ := IndexHelper(chunks, trie);
    assert trie.Repr <= start + (trie.Repr - start);
    trie.PackedRoot(root);
  }

  /** A registering server: a fresh trie, the pipeline, and the root slot. */
  method IndexNewServer(base: string, root: string, t: Tree, chunks: seq<string>) returns (trie: Trie)
    requires t.Folder? && Plain(base, t) && base != "" && Parse(base) == [".", root]
    requires Fits("", chunks) && Stream(Lines(base, t)) + MARKER + "\n" <= Flat(chunks)
    ensures trie.Valid() && fresh(trie.Repr)
    ensures trie.Contents() == AddLines({[]}, Lines(base, t))
    ensures Metadata.Rooted(trie.Contents(), root) && trie.RootIs(root)
    ensures Spelled(t) && Regular(t) ==> (trie.Contents() == Indexed([".", root], t) <==> Indexable(t))
  {
    NewServerLines(base, root, t, chunks);
    trie := IndexNewTrie(chunks, root);
  }
}
