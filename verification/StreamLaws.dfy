/** What the sending walk does when answers are bad or missing, and the texts
    themselves. */
module StreamLaws {
  import opened Files
  import opened Wire
  import opened TreeCopy
  import opened Streams

  /** The first `i` answers are good and the next is bad or missing. */
  predicate FailsAt(acks: seq<bool>, i: nat) {
    i <= |acks| && (forall k | 0 <= k < i :: acks[k]) && (i < |acks| ==> !acks[i])
  }

  /** The answers left after `i + 1` were asked for. */
  function LeftAfter(acks: seq<bool>, i: nat): seq<bool> {
    if i < |acks| then acks[i + 1..] else []
  }

  lemma {:induction false} FailsNext(acks: seq<bool>, i: nat)
    requires FailsAt(acks, i) && i > 0
    ensures acks[0] && FailsAt(acks[1..], i - 1) && LeftAfter(acks[1..], i - 1) == LeftAfter(acks, i)
  {
    if i < |acks| {
      assert acks[1..][i..] == acks[i + 1..];
    }
  }

  lemma {:induction false} StoppedChunks(chunks: seq<string>, acks: seq<bool>, i: nat)
    requires FailsAt(acks, i) && i < |chunks|
    ensures ChunkTrace(chunks, acks) == Trace(chunks[..i + 1], LeftAfter(acks, i))
    decreases i
  {
    if i == 0 {
      assert chunks[..1] == [chunks[0]];
    } else {
      FailsNext(acks, i);
      StoppedChunks(chunks[1..], acks[1..], i - 1);
      assert [chunks[0]] + chunks[1..][..i] == chunks[..i + 1];
    }
  }

  lemma {:induction false} StoppedContent(head: string, size: string, chunks: seq<string>, acks: seq<bool>, i: nat)
    requires FailsAt(acks, i) && 2 <= i < 2 + |chunks|
    ensures acks[0] && acks[1]
    ensures var t := ChunkTrace(chunks, acks[2..]);
            [head] + ([size] + t.msgs) == ([head, size] + chunks)[..i + 1] && t.acks == LeftAfter(acks, i)
  {
    FailsNext(acks, i);
    FailsNext(acks[1..], i - 1);
    assert acks[1..][1..] == acks[2..];
    StoppedChunks(chunks, acks[2..], i - 2);
    assert [head] + ([size] + chunks[..i - 1]) == ([head, size] + chunks)[..i + 1];
  }

  /** The same for header or size. */
  lemma {:induction false} StoppedEarly(head: string, size: string, chunks: seq<string>, acks: seq<bool>, i: nat)
    requires FailsAt(acks, i) && i < 2
    ensures i == 0 ==> !Acked(acks) && Later(acks) == LeftAfter(acks, i)
    ensures i == 1 ==> Acked(acks) && !Acked(acks[1..]) && Later(acks[1..]) == LeftAfter(acks, i)
    ensures ([head, size] + chunks)[..i + 1] == if i == 0 then [head] else [head] + [size]
  {
    assert i == 1 && |acks| > 1 ==> acks[1..][1..] == acks[2..];
  }

  /** A file stops right after the message whose answer is bad or missing:
      header, size or any chunk. */
  lemma {:induction false} StoppedFile(rel: string, content: string, acks: seq<bool>, i: nat)
    requires FailsAt(acks, i) && i < |Walk(rel, Leaf(content))|
    ensures FileTrace(rel, content, acks) == Trace(Walk(rel, Leaf(content))[..i + 1], LeftAfter(acks, i))
  {
    var head, size, chunks := FileHeader(rel), Decimal(|content|) + "\n", Chunks(content);
    assert Walk(rel, Leaf(content)) == [head, size] + chunks;
    if i < 2 {
      StoppedEarly(head, size, chunks, acks, i);
    } else {
      StoppedContent(head, size, chunks, acks, i);
    }
  }

  /** The line that announces a file or a folder. */
  function Header(rel: string, t: Tree): string {
    if t.Leaf? then FileHeader(rel) else DirHeader(rel)
  }

  lemma {:induction false} HeaderFirst(rel: string, t: Tree, acks: seq<bool>)
    ensures var msgs := TreeTrace(rel, t, acks).msgs; msgs != [] && msgs[0] == Header(rel, t)
  {
  }

  /** Once the folder is acknowledged every entry in it is announced, whatever
      becomes of the ones before it; until then none is. */
  lemma {:induction false} EveryEntryAnnounced(rel: string, es: seq<Entry>, acks: seq<bool>, k: nat)
    requires k < |es|
    ensures Acked(acks) ==>
              Header(rel + "/" + es[k].name, es[k].tree) in TreeTrace(rel, Folder(es), acks).msgs
    ensures !Acked(acks) ==> TreeTrace(rel, Folder(es), acks).msgs == [DirHeader(rel)]
  {
    if Acked(acks) {
      EntryAnnounced(rel, es, acks[1..], k);
    }
  }

  lemma {:induction false} EntryAnnounced(rel: string, es: seq<Entry>, acks: seq<bool>, k: nat)
    requires k < |es|
    ensures Header(rel + "/" + es[k].name, es[k].tree) in EntriesTrace(rel, es, acks).msgs
    decreases k
  {
    var first := TreeTrace(rel + "/" + es[0].name, es[0].tree, acks);
    if k == 0 {
      HeaderFirst(rel + "/" + es[0].name, es[0].tree, acks);
      assert first.msgs[0] in first.msgs;
    } else {
      EntryAnnounced(rel, es[1..], first.acks, k - 1);
    }
  }

  /** Part of `b` in the order of `b`. */
  predicate PartOf(a: seq<string>, b: seq<string>)
    decreases |b|
  {
    a == [] || (b != [] && ((a[0] == b[0] && PartOf(a[1..], b[1..])) || PartOf(a, b[1..])))
  }

  lemma {:induction false} PrefixIsPart(b: seq<string>, n: nat)
    requires n <= |b|
    ensures PartOf(b[..n], b)
    decreases n
  {
    if n > 0 {
      assert b[..n][1..] == b[1..][..n - 1];
      PrefixIsPart(b[1..], n - 1);
    }
  }

  lemma {:induction false} PartsJoin(a: seq<string>, b: seq<string>, c: seq<string>, d: seq<string>)
    requires PartOf(a, b) && PartOf(c, d)
    ensures PartOf(a + c, b + d)
    decreases |b|
  {
    if b == [] {
      assert a == [] && a + c == c && b + d == d;
    } else {
      assert (b + d)[1..] == b[1..] + d;
      if a != [] && a[0] == b[0] && PartOf(a[1..], b[1..]) {
        assert (a + c)[1..] == a[1..] + c;
        PartsJoin(a[1..], b[1..], c, d);
      } else {
        PartsJoin(a, b[1..], c, d);
      }
    }
  }

  /** Whatever the answers are, nothing is sent but messages of the walk, in its order. */
  lemma {:induction false} OnlyTheWalk(rel: string, t: Tree, acks: seq<bool>)
    ensures PartOf(TreeTrace(rel, t, acks).msgs, Walk(rel, t))
    decreases t, 1
  {
    if t.Leaf? {
      FilePart(rel, t.content, acks);
    } else if Acked(acks) {
      EntriesPart(rel, t.entries, acks[1..]);
      var rest := EntriesTrace(rel, t.entries, acks[1..]).msgs;
      assert ([DirHeader(rel)] + rest)[1..] == rest;
      assert Walk(rel, t)[1..] == WalkEntries(rel, t.entries);
    }
  }

  lemma {:induction false} EntriesPart(rel: string, es: seq<Entry>, acks: seq<bool>)
    ensures PartOf(EntriesTrace(rel, es, acks).msgs, WalkEntries(rel, es))
    decreases es, 0
  {
    if es != [] {
      var path := rel + "/" + es[0].name;
      var first := TreeTrace(path, es[0].tree, acks);
      var rest := EntriesTrace(rel, es[1..], first.acks);
      OnlyTheWalk(path, es[0].tree, acks);
      EntriesPart(rel, es[1..], first.acks);
      PartsJoin(first.msgs, Walk(path, es[0].tree), rest.msgs, WalkEntries(rel, es[1..]));
    }
  }

  /** Every sequence of answers is good throughout or fails somewhere. */
  function FirstBad(acks: seq<bool>): (i: nat)
    ensures FailsAt(acks, i)
  {
    if Acked(acks) then 1 + FirstBad(acks[1..]) else 0
  }

  lemma {:induction false} FilePart(rel: string, content: string, acks: seq<bool>)
    ensures PartOf(FileTrace(rel, content, acks).msgs, Walk(rel, Leaf(content)))
  {
    var all, i := Walk(rel, Leaf(content)), FirstBad(acks);
    if i < |all| {
      StoppedFile(rel, content, acks, i);
      PrefixIsPart(all, i + 1);
    } else {
      AckedFile(rel, content, acks);
      PrefixIsPart(all, |all|);
      assert all[..|all|] == all;
    }
  }

  /** The number read from a line of digits, one digit longer. */
  lemma {:induction false} ReadNextDigit(s: string, d: nat, acc: nat)
    requires d < 10 && forall k | 0 <= k < |s| :: IsDigit(s[k])
    ensures ReadNumber(s + [Digit(d)], acc) == 10 * ReadNumber(s, acc) + d
    decreases |s|
  {
    var t := s + [Digit(d)];
    if s != "" {
      assert t[1..] == s[1..] + [Digit(d)];
      ReadNextDigit(s[1..], d, 10 * acc + (s[0] as int - '0' as int));
    } else {
      assert t[1..] == "";
    }
  }

  /** What goes over the connection for a folder with one short file. */
  lemma {:induction false} SmallScript()
    ensures Script("./s", "d", Folder([Entry("f", Leaf("ab"))])) ==
            ["DEST ./s\n", "DIR d\n", "FILE d/f\n", "2\n", "ab", "END\n"]
  {
    var es := [Entry("f", Leaf("ab"))];
    assert es[1..] == [] && WalkEntries("d", []) == [];
    assert "d" + "/" + "f" == "d/f";
    assert Decimal(2) == ['2'] && Decimal(2) + "\n" == "2\n";
    assert Chunks("ab") == ["ab"];
    assert FileHeader("d/f") == "FILE d/f\n" && DirHeader("d") == "DIR d\n";
    assert Walk("d/f", Leaf("ab")) == ["FILE d/f\n", "2\n"] + ["ab"];
    assert WalkEntries("d", es) == Walk("d/f", Leaf("ab")) + [];
    assert Walk("d", Folder(es)) == ["DIR d\n"] + ["FILE d/f\n", "2\n", "ab"];
    assert "DEST " + "./s" + "\n" == "DEST ./s\n";
  }
}
