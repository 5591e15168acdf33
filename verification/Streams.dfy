/** The sending walk and the receiving loops as the code runs them. */
module Streams {
  import opened Files
  import opened Wire
  import opened TreeCopy

  /** What was sent, and the answers that `receive_ack` will still find. */
  datatype Trace = Trace(msgs: seq<string>, acks: seq<bool>)

  /** A missing answer is a failed one. */
  predicate Acked(acks: seq<bool>) {
    acks != [] && acks[0]
  }

  function Later(acks: seq<bool>): seq<bool> {
    if acks == [] then [] else acks[1..]
  }

  function Before(msg: string, t: Trace): Trace {
    t.(msgs := [msg] + t.msgs)
  }

  /** Content stops at the first chunk that is not acknowledged. */
  function ChunkTrace(chunks: seq<string>, acks: seq<bool>): Trace
    decreases |chunks|
  {
    if chunks == [] then Trace([], acks)
    else if !Acked(acks) then Trace([chunks[0]], Later(acks))
    else Before(chunks[0], ChunkTrace(chunks[1..], acks[1..]))
  }

  /** A file stops at its header or size likewise. */
  function FileTrace(rel: string, content: string, acks: seq<bool>): Trace {
    Before(FileHeader(rel),
           if !Acked(acks) then Trace([], Later(acks))
           else
             Before(Decimal(|content|) + "\n",
                    if !Acked(acks[1..]) then Trace([], Later(acks[1..]))
                    else ChunkTrace(Chunks(content), acks[2..])))
  }

  /** A folder stops at its header; a failed entry does not stop the next one. */
  function TreeTrace(rel: string, t: Tree, acks: seq<bool>): Trace
    decreases t, 1
  {
    if t.Leaf? then FileTrace(rel, t.content, acks)
    else
      Before(DirHeader(rel),
             if !Acked(acks) then Trace([], Later(acks)) else EntriesTrace(rel, t.entries, acks[1..]))
  }

  function EntriesTrace(rel: string, es: seq<Entry>, acks: seq<bool>): Trace
    decreases es, 0
  {
    if es == [] then Trace([], acks)
    else
      var first := TreeTrace(rel + "/" + es[0].name, es[0].tree, acks);
      var rest := EntriesTrace(rel, es[1..], first.acks);
      Trace(first.msgs + rest.msgs, rest.acks)
  }

  /** The first `n` answers are good. */
  predicate AllAcked(acks: seq<bool>, n: nat) {
    n <= |acks| && forall i | 0 <= i < n :: acks[i]
  }

  lemma {:induction false} AckedChunks(chunks: seq<string>, acks: seq<bool>)
    requires AllAcked(acks, |chunks|)
    ensures ChunkTrace(chunks, acks) == Trace(chunks, acks[|chunks|..])
    decreases |chunks|
  {
    if chunks != [] {
      AckedChunks(chunks[1..], acks[1..]);
      assert acks[1..][|chunks| - 1..] == acks[|chunks|..];
      assert [chunks[0]] + chunks[1..] == chunks;
    }
  }

  lemma {:induction false} TwoInFront(a: string, b: string, msgs: seq<string>)
    ensures [a] + ([b] + msgs) == [a, b] + msgs
  {
  }

  lemma {:induction false} AckedFile(rel: string, content: string, acks: seq<bool>)
    requires AllAcked(acks, 2 + |Chunks(content)|)
    ensures FileTrace(rel, content, acks) ==
            Trace([FileHeader(rel), Decimal(|content|) + "\n"] + Chunks(content), acks[2 + |Chunks(content)|..])
  {
    var size, chunks := Decimal(|content|) + "\n", Chunks(content);
    AckedChunks(chunks, acks[2..]);
    assert acks[2..][|chunks|..] == acks[2 + |chunks|..];
    TwoInFront(FileHeader(rel), size, chunks);
  }

  /** With every answer good, what is sent is the walk. */
  lemma {:induction false} AckedWalk(rel: string, t: Tree, acks: seq<bool>)
    requires AllAcked(acks, |Walk(rel, t)|)
    ensures TreeTrace(rel, t, acks) == Trace(Walk(rel, t), acks[|Walk(rel, t)|..])
    decreases t, 1
  {
    if t.Leaf? {
      AckedFile(rel, t.content, acks);
    } else {
      var n := |WalkEntries(rel, t.entries)|;
      AckedEntries(rel, t.entries, acks[1..]);
      assert acks[1..][n..] == acks[n + 1..];
    }
  }

  lemma {:induction false} AckedEntries(rel: string, es: seq<Entry>, acks: seq<bool>)
    requires AllAcked(acks, |WalkEntries(rel, es)|)
    ensures EntriesTrace(rel, es, acks) == Trace(WalkEntries(rel, es), acks[|WalkEntries(rel, es)|..])
    decreases es, 0
  {
    if es != [] {
      var n, m := |Walk(rel + "/" + es[0].name, es[0].tree)|, |WalkEntries(rel, es[1..])|;
      AckedWalk(rel + "/" + es[0].name, es[0].tree, acks);
      AckedEntries(rel, es[1..], acks[n..]);
      assert acks[n..][m..] == acks[n + m..];
    }
  }

  /** The sending end: the messages sent so far and the answers to come. */
  class Outbox {
    var sent: seq<string>
    var acks: seq<bool>

    constructor (acks: seq<bool>)
      ensures sent == [] && this.acks == acks
    {
      sent, this.acks := [], acks;
    }

    /** `send` followed by `receive_ack`. */
    method Send(msg: string) returns (acked: bool)
      modifies this
      ensures sent == old(sent) + [msg] && acked == Acked(old(acks)) && acks == Later(old(acks))
    {
      sent := sent + [msg];
      acked := acks != [] && acks[0];
      acks := if acks == [] then [] else acks[1..];
    }

    /** The `read` loop of `send_file_over_network`. */
    method SendContent(content: string)
      modifies this
      ensures var t := ChunkTrace(Chunks(content), old(acks)); sent == old(sent) + t.msgs && acks == t.acks
    {
      var done := 0;
      ghost var all := ChunkTrace(Chunks(content), acks);
      assert content[0..] == content;
      while done < |content|
        invariant 0 <= done <= |content|
        invariant sent + ChunkTrace(Chunks(content[done..]), acks).msgs == old(sent) + all.msgs
        invariant ChunkTrace(Chunks(content[done..]), acks).acks == all.acks
      {
        var n := if |content| - done < BUFFER_SIZE then |content| - done else BUFFER_SIZE;
        NextChunk(content, done, n);
        var acked := Send(content[done..done + n]);
        if !acked {
          return;
        }
        done := done + n;
      }
      assert content[done..] == "";
    }

    /** `send_file_over_network`: header, size, then `read` by `read`. */
    method SendFile(rel: string, content: string)
      modifies this
      ensures var t := FileTrace(rel, content, old(acks)); sent == old(sent) + t.msgs && acks == t.acks
    {
      var acked := Send(FileHeader(rel));
      if acked {
        acked := Send(Decimal(|content|) + "\n");
        if acked {
          SendContent(content);
        }
      }
    }

    /** `send_directory_over_network`: the header, then the entries in order. */
    method SendDirectory(rel: string, t: Tree)
      requires t.Folder?
      modifies this
      ensures var r := TreeTrace(rel, t, old(acks)); sent == old(sent) + r.msgs && acks == r.acks
      decreases t, 1
    {
      var acked := Send(DirHeader(rel));
      if !acked {
        return;
      }
      var i := 0;
      assert t.entries[0..] == t.entries;
      ghost var all := HeaderTraced(old(sent), rel, t, old(acks));
      while i < |t.entries|
        invariant 0 <= i <= |t.entries|
        invariant Underway(sent, acks, rel, t.entries[i..], all)
      {
        EntryTraced(sent, acks, rel, t.entries, i, all);
        SendEntry(rel, t.entries[i]);
        i := i + 1;
      }
      assert t.entries[i..] == [];
      LastTraced(sent, acks, rel, all);
    }

    method SendEntry(rel: string, e: Entry)
      modifies this
      ensures var r := TreeTrace(rel + "/" + e.name, e.tree, old(acks)); sent == old(sent) + r.msgs && acks == r.acks
      decreases e, 0
    {
      if e.tree.Leaf? {
        SendFile(rel + "/" + e.name, e.tree.content);
      } else {
        SendDirectory(rel + "/" + e.name, e.tree);
      }
    }
  }

  /** What was sent and the entries to come make up `all`; stated so that it is
      opened in the lemmas below only. */
  ghost predicate Underway(sent: seq<string>, acks: seq<bool>, rel: string, rest: seq<Entry>, all: Trace) {
    forall es {:trigger EntriesTrace(rel, es, acks)} | es == rest ::
      var r := EntriesTrace(rel, es, acks); sent + r.msgs == all.msgs && r.acks == all.acks
  }

  lemma {:induction false} HeaderTraced(sent: seq<string>, rel: string, t: Tree, acks: seq<bool>) returns (all: Trace)
    requires t.Folder? && Acked(acks)
    ensures all == Trace(sent + TreeTrace(rel, t, acks).msgs, TreeTrace(rel, t, acks).acks)
    ensures Underway(sent + [DirHeader(rel)], Later(acks), rel, t.entries, all)
  {
    all := Trace(sent + TreeTrace(rel, t, acks).msgs, TreeTrace(rel, t, acks).acks);
    var rest := EntriesTrace(rel, t.entries, acks[1..]);
    assert sent + ([DirHeader(rel)] + rest.msgs) == sent + [DirHeader(rel)] + rest.msgs;
  }

  lemma {:induction false} EntryTraced(
      sent: seq<string>, acks: seq<bool>, rel: string, es: seq<Entry>, i: nat, all: Trace)
    requires i < |es| && Underway(sent, acks, rel, es[i..], all)
    ensures var first := TreeTrace(rel + "/" + es[i].name, es[i].tree, acks);
            Underway(sent + first.msgs, first.acks, rel, es[i + 1..], all)
  {
    var rest := es[i..];
    assert rest[0] == es[i] && rest[1..] == es[i + 1..];
    var first := TreeTrace(rel + "/" + es[i].name, es[i].tree, acks);
    var later := EntriesTrace(rel, es[i + 1..], first.acks);
    assert EntriesTrace(rel, rest, acks) == Trace(first.msgs + later.msgs, later.acks);
    assert sent + (first.msgs + later.msgs) == sent + first.msgs + later.msgs;
  }

  lemma {:induction false} LastTraced(sent: seq<string>, acks: seq<bool>, rel: string, all: Trace)
    requires Underway(sent, acks, rel, [], all)
    ensures all == Trace(sent, acks)
  {
    assert EntriesTrace(rel, [], acks) == Trace([], acks) && sent + [] == sent;
  }

  lemma {:induction false} NextChunk(content: string, done: nat, n: nat)
    requires done < |content| && n == if |content| - done < BUFFER_SIZE then |content| - done else BUFFER_SIZE
    ensures Chunks(content[done..]) == [content[done..done + n]] + Chunks(content[done + n..])
  {
    var left := content[done..];
    assert left[..n] == content[done..done + n] && left[n..] == content[done + n..];
    assert n == |left| ==> left[..n] == left && left[n..] == "";
  }

  /** The receiving end: the pieces that `recv` will hand out. */
  class Inbox {
    var parts: seq<string>

    ghost predicate Valid()
      reads this
    {
      forall i :: 0 <= i < |parts| ==> parts[i] != ""
    }

    constructor (parts: seq<string>)
      requires forall i :: 0 <= i < |parts| ==> parts[i] != ""
      ensures Valid() && this.parts == parts
    {
      this.parts := parts;
    }

    /** `recv`: at least one byte, at most `max`, never across two pieces; no
        byte at all once the other side has closed. */
    method Recv(max: nat) returns (bytes: string)
      requires Valid() && max >= 1
      modifies this
      ensures Valid() && |bytes| <= max && bytes + Flat(parts) == old(Flat(parts))
      ensures bytes == "" <==> old(Flat(parts)) == ""
    {
      if parts == [] {
        return "";
      }
      var head := parts[0];
      if |head| <= max {
        bytes, parts := head, parts[1..];
      } else {
        bytes := head[..max];
        assert head == bytes + head[max..];
        parts := [head[max..]] + parts[1..];
        assert parts[1..] == old(parts)[1..];
      }
    }

    /** The inner loop: keep receiving until the chunk is complete or the
        connection ends. */
    method RecvChunk(toReceive: nat) returns (chunk: string, ok: bool)
      requires Valid()
      modifies this
      ensures Valid() && chunk + Flat(parts) == old(Flat(parts))
      ensures ok == (toReceive <= |old(Flat(parts))|)
      ensures |chunk| == if ok then toReceive else |old(Flat(parts))|
    {
      chunk := "";
      while |chunk| < toReceive
        invariant Valid() && |chunk| <= toReceive && chunk + Flat(parts) == old(Flat(parts))
        decreases toReceive - |chunk|
      {
        var bytes := Recv(toReceive - |chunk|);
        if bytes == "" {
          assert chunk + "" == chunk;
          return chunk, false;
        }
        assert chunk + (bytes + Flat(parts)) == chunk + bytes + Flat(parts);
        chunk := chunk + bytes;
      }
      ok := true;
    }
  }

  /** `receive_and_save_file` after the size, for every way the stream is cut:
      exactly `size` bytes are written and the next byte is left for the next
      header; if the stream ends before, the full chunks are written and the
      rest is dropped.  One ack is sent per chunk written. */
  method ReceiveContent(inbox: Inbox, size: nat) returns (written: string, acks: nat, ok: bool)
    requires inbox.Valid()
    modifies inbox
    ensures inbox.Valid() && ok == (size <= |old(Flat(inbox.parts))|)
    ensures ok ==> written + Flat(inbox.parts) == old(Flat(inbox.parts)) && |written| == size
    ensures !ok ==> written <= old(Flat(inbox.parts)) && Flat(inbox.parts) == ""
    ensures !ok ==> |written| == |old(Flat(inbox.parts))| - |old(Flat(inbox.parts))| % BUFFER_SIZE
    ensures acks == |Chunks(written)|
  {
    ghost var stream := Flat(inbox.parts);
    written, acks := "", 0;
    ghost var chunks := [];
    while |written| < size
      invariant inbox.Valid() && acks == |chunks|
      invariant Receiving(stream, written, Flat(inbox.parts), chunks, size)
    {
      var remaining := size - |written|;
      var toReceive := if remaining < BUFFER_SIZE then remaining else BUFFER_SIZE;
      ghost var left := Flat(inbox.parts);
      var chunk, complete := inbox.RecvChunk(toReceive);
      if !complete {
        EndsEarly(stream, written, left, chunks, size);
        return written, acks, false;
      }
      ChunkReceived(stream, written, left, chunks, size, chunk, Flat(inbox.parts));
      written, acks, chunks := written + chunk, acks + 1, chunks + [chunk];
    }
    ChunksCounted(written, chunks);
    ok := true;
  }

  ghost predicate Receiving(stream: string, written: string, left: string, chunks: seq<string>, size: nat) {
    |written| <= size && written + left == stream && FullChunks(written, chunks, size)
  }

  lemma {:induction false} ChunkReceived(
      stream: string, written: string, left: string, chunks: seq<string>, size: nat, chunk: string, later: string)
    requires Receiving(stream, written, left, chunks, size) && |written| < size && chunk + later == left
    requires |chunk| == if size - |written| < BUFFER_SIZE then size - |written| else BUFFER_SIZE
    ensures Receiving(stream, written + chunk, later, chunks + [chunk], size)
  {
    ChunkAdded(written, chunks, chunk, size);
    assert written + (chunk + later) == written + chunk + later;
  }

  /** The chunks written so far: full ones, but for the last of the file. */
  ghost predicate FullChunks(written: string, chunks: seq<string>, size: nat) {
    && Flat(chunks) == written
    && (forall i :: 0 <= i < |chunks| ==> 0 < |chunks[i]| <= BUFFER_SIZE)
    && (forall i :: 0 <= i < |chunks| - 1 ==> |chunks[i]| == BUFFER_SIZE)
    && (|written| < size && chunks != [] ==> |chunks[|chunks| - 1]| == BUFFER_SIZE)
  }

  /** Before the last chunk all of them are full. */
  lemma {:induction false} EndsEarly(stream: string, written: string, left: string, chunks: seq<string>, size: nat)
    requires Receiving(stream, written, left, chunks, size) && |stream| < size && |left| < BUFFER_SIZE
    ensures written <= stream && |written| == |stream| - |stream| % BUFFER_SIZE
    ensures |Chunks(written)| == |chunks|
  {
    FullLength(chunks);
    assert |stream| == |chunks| * BUFFER_SIZE + |left|;
    ChunksCounted(written, chunks);
  }

  lemma {:induction false} FullLength(chunks: seq<string>)
    requires forall i :: 0 <= i < |chunks| ==> |chunks[i]| == BUFFER_SIZE
    ensures |Flat(chunks)| == |chunks| * BUFFER_SIZE
    decreases |chunks|
  {
    if chunks != [] {
      FullLength(chunks[1..]);
    }
  }

  lemma {:induction false} ChunkAdded(written: string, chunks: seq<string>, chunk: string, size: nat)
    requires FullChunks(written, chunks, size) && |written| < size
    requires |chunk| == if size - |written| < BUFFER_SIZE then size - |written| else BUFFER_SIZE
    ensures FullChunks(written + chunk, chunks + [chunk], size)
  {
    FlatAppend(chunks, chunk);
  }

  /** Cutting a content into such chunks is what the sender does. */
  lemma {:induction false} ChunksCounted(content: string, chunks: seq<string>)
    requires FullChunks(content, chunks, |content|)
    ensures Chunks(content) == chunks
    decreases |chunks|
  {
    if |chunks| > 1 {
      var rest := content[BUFFER_SIZE..];
      assert content == chunks[0] + Flat(chunks[1..]) && content[..BUFFER_SIZE] == chunks[0];
      assert rest == Flat(chunks[1..]);
      NonEmptyFlat(chunks[1..]);
      ChunksCounted(rest, chunks[1..]);
    } else if |chunks| == 1 {
      assert Flat(chunks[1..]) == "" && content == chunks[0];
    }
  }

  lemma {:induction false} NonEmptyFlat(parts: seq<string>)
    requires parts != [] && parts[0] != ""
    ensures Flat(parts) != ""
  {
    assert |Flat(parts)| >= |parts[0]|;
  }
}
