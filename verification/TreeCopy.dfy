/** The two ends of the server-to-server tree copy as message functions. */
module TreeCopy {
  import opened Paths
  import opened Files
  import opened Wire

  function DirHeader(rel: string): string {
    "DIR " + rel + "\n"
  }

  function FileHeader(rel: string): string {
    "FILE " + rel + "\n"
  }

  /** `send_directory_over_network` and `send_file_over_network`: the messages
      of a pre-order walk, each path given relative to the skipped prefix. */
  function Walk(rel: string, t: Tree): seq<string>
    decreases t, 1
  {
    if t.Leaf? then [FileHeader(rel), Decimal(|t.content|) + "\n"] + Chunks(t.content)
    else [DirHeader(rel)] + WalkEntries(rel, t.entries)
  }

  function WalkEntries(rel: string, es: seq<Entry>): seq<string>
    decreases es, 0
  {
    if es == [] then [] else Walk(rel + "/" + es[0].name, es[0].tree) + WalkEntries(rel, es[1..])
  }

  /** `copy_different_src`: destination, walk, end marker. */
  function Script(base: string, rel: string, t: Tree): seq<string> {
    ["DEST " + base + "\n"] + Walk(rel, t) + ["END\n"]
  }

  /** Where the receiving loops stand. */
  datatype Receiver =
    | AwaitDest
    | AwaitHeader(base: string)
    | AwaitSize(base: string, path: string)
    | InFile(base: string, path: string, size: nat, total: nat, chunk: string)
    | Finished
    | Broken

  predicate AtText(r: Receiver) {
    r.AwaitDest? || r.AwaitHeader? || r.AwaitSize?
  }

  /** The size of the chunk being collected. */
  function ToReceive(r: Receiver): int
    requires r.InFile?
  {
    if r.size - r.total < BUFFER_SIZE then r.size - r.total else BUFFER_SIZE
  }

  predicate Wf(r: Receiver) {
    r.InFile? ==> r.total < r.size && |r.chunk| < ToReceive(r)
  }

  /** The path built from a header; `copy_different_dest` strips a leading "./",
      `copy_different_dest_b` does not. */
  function Target(strip: bool, base: string, name: string): string {
    base + "/" + (if strip && "./" <= name then name[2..] else name)
  }

  /** What a delivery does: new state, whether an ack was sent, and whether the
      file system operation behind it succeeded. */
  datatype Delivery = Delivery(recv: Receiver, fs: FS, acked: bool, ok: bool)

  function OnHeader(strip: bool, base: string, fs: FS, msg: string): Delivery {
    if "END\n" <= msg then Delivery(Finished, fs, false, true)
    else if "FILE " <= msg then Delivery(AwaitSize(base, Target(strip, base, Scan(msg[5..]))), fs, true, true)
    else if "DIR " <= msg then
      var p := Resolve(Target(strip, base, Scan(msg[4..])));
      Delivery(AwaitHeader(base), Mkdir(fs, p), true, IsDir(Mkdir(fs, p), p))
    else Delivery(AwaitHeader(base), fs, false, true)
  }

  function OnSize(base: string, path: string, fs: FS, msg: string): Delivery {
    var p, size := Resolve(path), ReadNumber(msg, 0);
    if !CanOpen(fs, p) then Delivery(AwaitHeader(base), fs, true, false)
    else
      Delivery(if size == 0 then AwaitHeader(base) else InFile(base, path, size, 0, ""), fs[p := File("")], true, true)
  }

  /** One text message, taken from the socket in a single `recv`. */
  function OnText(strip: bool, r: Receiver, fs: FS, msg: string): Delivery
    requires AtText(r)
  {
    match r
    case AwaitDest =>
      if "DEST " <= msg then
        var base := Scan(msg[5..]);
        var fs' := Mkdir(fs, Resolve(base));
        Delivery(AwaitHeader(base), fs', true, IsDir(fs', Resolve(base)))
      else Delivery(Broken, fs, false, false)
    case AwaitHeader(base) => OnHeader(strip, base, fs, msg)
    case AwaitSize(base, path) => OnSize(base, path, fs, msg)
  }

  function Append(fs: FS, p: Path, bytes: string): FS {
    if p in fs && fs[p].File? then fs[p := File(fs[p].content + bytes)] else fs
  }

  /** Some bytes of file content; a full chunk is written and acknowledged. */
  function OnBytes(r: Receiver, fs: FS, bytes: string): Delivery
    requires r.InFile? && Wf(r) && |r.chunk| + |bytes| <= ToReceive(r)
  {
    var chunk := r.chunk + bytes;
    if |chunk| < ToReceive(r) then Delivery(r.(chunk := chunk), fs, false, true)
    else
      var total := r.total + |chunk|;
      var fs' := Append(fs, Resolve(r.path), chunk);
      Delivery(if total == r.size then AwaitHeader(r.base) else r.(total := total, chunk := ""), fs', true, true)
  }

  /** The message has the form the receiver is waiting for. */
  predicate Fits(r: Receiver, msg: string) {
    Wf(r) && if r.InFile? then r.chunk == "" && |msg| == ToReceive(r) else AtText(r) && 0 < |msg| < BUFFER_SIZE
  }

  function Deliver(strip: bool, r: Receiver, fs: FS, msg: string): Delivery
    requires Fits(r, msg)
  {
    if r.InFile? then OnBytes(r, fs, msg) else OnText(strip, r, fs, msg)
  }

  /** What becomes of a transfer.  `Ends`: both ends finish, `clean` if every
      operation succeeded.  `Cut`: content was taken for the end marker, the
      receiver closes the connection and the sender gives up.  `Jam`: the
      receiver leaves a message without an answer and the sender waits for ever.
      `Unknown`: content was taken for a file or folder header. */
  datatype Outcome = Ends(fs: FS, clean: bool) | Cut(fs: FS) | Jam(fs: FS) | Unknown

  function Mark(o: Outcome, ok: bool): Outcome {
    if o.Ends? then Ends(o.fs, o.clean && ok) else o
  }

  predicate Announces(msg: string) {
    "FILE " <= msg || "DIR " <= msg
  }

  predicate Closes(msg: string) {
    "END\n" <= msg
  }

  /** Something that reaches the header loop and gets no answer. */
  predicate Stray(r: Receiver, msg: string) {
    r.AwaitHeader? && 0 < |msg| <= BUFFER_SIZE && !Announces(msg)
  }

  /** What a stray message does to the transfer. */
  function Astray(fs: FS, msg: string): Outcome {
    if Closes(msg) then Cut(fs) else Jam(fs)
  }

  /** Delivery of a whole script, one message at a time: every message but the
      last has to be acknowledged, and the last one ends the transfer. */
  function Follow(strip: bool, r: Receiver, fs: FS, msgs: seq<string>): Outcome
    decreases |msgs|
  {
    if msgs == [] then Unknown
    else if |msgs| > 1 && Stray(r, msgs[0]) then Astray(fs, msgs[0])
    else if !Fits(r, msgs[0]) then Unknown
    else
      var d := Deliver(strip, r, fs, msgs[0]);
      if |msgs| == 1 then (if d.recv == Finished && !d.acked then Ends(d.fs, d.ok) else Unknown)
      else if d.acked then Mark(Follow(strip, d.recv, d.fs, msgs[1..]), d.ok)
      else Unknown
  }

  /** A file that arrives: what cannot be opened is skipped if it is empty, and
      otherwise its content is read as a header. */
  function SentFile(fs: FS, at: Path, content: string): Outcome {
    if CanOpen(fs, at) then Ends(fs[at := File(content)], true)
    else if content == "" then Ends(fs, false)
    else if Announces(content) then Unknown
    else Astray(fs, content)
  }

  /** A tree that arrives, entry by entry in the order of the walk. */
  function Sent(fs: FS, at: Path, t: Tree): Outcome
    decreases t, 1
  {
    if t.Leaf? then SentFile(fs, at, t.content)
    else Mark(SentEntries(Mkdir(fs, at), at, t.entries), IsDir(Mkdir(fs, at), at))
  }

  function SentEntries(fs: FS, at: Path, es: seq<Entry>): Outcome
    decreases es, 0
  {
    if es == [] then Ends(fs, true)
    else
      var o := Sent(fs, at + [es[0].name], es[0].tree);
      if o.Ends? then Mark(SentEntries(o.fs, at, es[1..]), o.clean) else o
  }

  /** The rest of a script after a part with this outcome. */
  function Then(o: Outcome, strip: bool, base: string, rest: seq<string>): Outcome {
    if o.Ends? then Mark(Follow(strip, AwaitHeader(base), o.fs, rest), o.clean) else o
  }

  /** Names the sender can transmit: clean, single components, not "." or "..". */
  predicate EntryName(n: string) {
    Clean(n) && '/' !in n && n !in {"", ".", ".."}
  }

  /** Every header fits in one `recv`, and every size in a `long`. */
  predicate Sendable(rel: string, t: Tree)
    decreases t, 1
  {
    && rel != "" && Clean(rel) && |rel| + 6 < BUFFER_SIZE
    && if t.Leaf? then |t.content| < MAX_FILE_SIZE else SendableEntries(rel, t.entries)
  }

  predicate SendableEntries(rel: string, es: seq<Entry>)
    decreases es, 0
  {
    es == [] || (EntryName(es[0].name) && Sendable(rel + "/" + es[0].name, es[0].tree) && SendableEntries(rel, es[1..]))
  }

  lemma {:induction false} DotSlash(s: string)
    ensures Resolve("./" + s) == Resolve(s)
  {
    SplitConcat(".", s, RESOLVE_SKIP);
    SplitName(".", RESOLVE_SKIP);
    assert "." + "/" + s == "./" + s;
  }

  /** Both receiver variants resolve a header to base plus relative path. */
  lemma {:induction false} TargetResolves(strip: bool, base: string, rel: string)
    ensures Resolve(Target(strip, base, rel)) == Resolve(base) + Resolve(rel)
  {
    if strip && "./" <= rel {
      var s := rel[2..];
      assert rel == "./" + s;
      DotSlash(s);
      SplitConcat(base, s, RESOLVE_SKIP);
    } else {
      SplitConcat(base, rel, RESOLVE_SKIP);
    }
  }

  lemma {:induction false} ChildResolves(rel: string, name: string)
    requires EntryName(name)
    ensures Resolve(rel + "/" + name) == Resolve(rel) + [name]
  {
    SplitConcat(rel, name, RESOLVE_SKIP);
    SplitName(name, RESOLVE_SKIP);
  }

  /** One more message in front. */
  lemma {:induction false} FollowFirst(strip: bool, r: Receiver, fs: FS, msg: string, d: Delivery, rest: seq<string>)
    requires rest != [] && Fits(r, msg) && Deliver(strip, r, fs, msg) == d && d.acked
    ensures Follow(strip, r, fs, [msg] + rest) == Mark(Follow(strip, d.recv, d.fs, rest), d.ok)
  {
    assert ([msg] + rest)[1..] == rest;
    assert !Stray(r, msg);
  }

  lemma {:induction false} AppendTwice(fs: FS, p: Path, a: string, b: string)
    ensures Append(Append(fs, p, a), p, b) == Append(fs, p, a + b)
  {
    if p in fs && fs[p].File? {
      assert fs[p].content + a + b == fs[p].content + (a + b);
    }
  }

  /** A full chunk is written, acknowledged and leaves the receiver at a boundary. */
  lemma {:induction false} ChunkDelivered(strip: bool, r: Receiver, fs: FS, chunk: string)
    requires r.InFile? && Wf(r) && r.chunk == "" && |chunk| == ToReceive(r)
    ensures Fits(r, chunk)
    ensures var total := r.total + |chunk|;
            Deliver(strip, r, fs, chunk) ==
            Delivery(if total == r.size then AwaitHeader(r.base) else r.(total := total),
                     Append(fs, Resolve(r.path), chunk), true, true)
  {
    assert r.chunk + chunk == chunk;
  }

  /** File content: the receiver's chunk lengths are the sender's. */
  lemma {:induction false} FollowChunks(strip: bool, r: Receiver, fs: FS, content: string, rest: seq<string>)
    requires r.InFile? && Wf(r) && r.chunk == "" && |content| == r.size - r.total && rest != []
    ensures Follow(strip, r, fs, Chunks(content) + rest) ==
            Follow(strip, AwaitHeader(r.base), Append(fs, Resolve(r.path), content), rest)
    decreases |content|
  {
    if |content| <= BUFFER_SIZE {
      ChunkDelivered(strip, r, fs, content);
      FollowFirst(strip, r, fs, content, Deliver(strip, r, fs, content), rest);
    } else {
      var head, tail := content[..BUFFER_SIZE], content[BUFFER_SIZE..];
      ChunkDelivered(strip, r, fs, head);
      var d := Deliver(strip, r, fs, head);
      assert head + tail == content;
      AppendTwice(fs, Resolve(r.path), head, tail);
      FollowChunks(strip, d.recv, d.fs, tail, rest);
      FollowFirst(strip, r, fs, head, d, Chunks(tail) + rest);
      assert Chunks(content) + rest == [head] + (Chunks(tail) + rest);
    }
  }

  /** The size line opens the file, or not. */
  lemma {:induction false} SizeRead(strip: bool, base: string, path: string, n: nat, fs: FS)
    requires n < MAX_FILE_SIZE
    ensures Fits(AwaitSize(base, path), Decimal(n) + "\n")
    ensures Deliver(strip, AwaitSize(base, path), fs, Decimal(n) + "\n") ==
            if CanOpen(fs, Resolve(path)) then
              Delivery(if n == 0 then AwaitHeader(base) else InFile(base, path, n, 0, ""),
                       fs[Resolve(path) := File("")], true, true)
            else Delivery(AwaitHeader(base), fs, true, false)
  {
    ReadSize(n);
    SizeLine(n);
  }

  /** Content that nobody opened a file for. */
  lemma {:induction false} FollowUnopened(strip: bool, base: string, fs: FS, content: string, rest: seq<string>)
    requires rest != [] && content != "" && !Announces(content)
    ensures Follow(strip, AwaitHeader(base), fs, Chunks(content) + rest) == Astray(fs, content)
  {
    var head := (Chunks(content) + rest)[0];
    assert head == Chunks(content)[0] && head <= content;
    assert !Announces(head);
    assert Closes(head) <==> Closes(content);
  }

  lemma {:induction false} FollowSized(strip: bool, base: string, path: string, content: string, fs: FS, rest: seq<string>)
    requires |content| < MAX_FILE_SIZE && rest != [] && SentFile(fs, Resolve(path), content) != Unknown
    ensures Follow(strip, AwaitSize(base, path), fs, [Decimal(|content|) + "\n"] + (Chunks(content) + rest)) ==
            Then(SentFile(fs, Resolve(path), content), strip, base, rest)
  {
    var at, line := Resolve(path), Decimal(|content|) + "\n";
    SizeRead(strip, base, path, |content|, fs);
    BlankThenContent(fs, at, content);
    FollowFirst(strip, AwaitSize(base, path), fs, line, Deliver(strip, AwaitSize(base, path), fs, line),
                Chunks(content) + rest);
    if content == "" {
      assert Chunks(content) + rest == rest;
    } else if CanOpen(fs, at) {
      FollowChunks(strip, InFile(base, path, |content|, 0, ""), fs[at := File("")], content, rest);
    } else {
      FollowUnopened(strip, base, fs, content, rest);
    }
  }

  /** A file: header, size line, content. */
  lemma {:induction false} FollowFile(strip: bool, base: string, rel: string, content: string, fs: FS, rest: seq<string>)
    requires Sendable(rel, Leaf(content)) && rest != []
    requires SentFile(fs, Resolve(base) + Resolve(rel), content) != Unknown
    ensures Follow(strip, AwaitHeader(base), fs, Walk(rel, Leaf(content)) + rest) ==
            Then(SentFile(fs, Resolve(base) + Resolve(rel), content), strip, base, rest)
  {
    var path, line := Target(strip, base, rel), Decimal(|content|) + "\n";
    HeaderRead(strip, base, rel, fs);
    TargetResolves(strip, base, rel);
    FollowSized(strip, base, path, content, fs, rest);
    var tail := [line] + (Chunks(content) + rest);
    FollowFirst(strip, AwaitHeader(base), fs, FileHeader(rel), Delivery(AwaitSize(base, path), fs, true, true), tail);
    WalkLeaf(rel, content, rest);
  }

  lemma {:induction false} WalkLeaf(rel: string, content: string, rest: seq<string>)
    ensures Walk(rel, Leaf(content)) + rest ==
            [FileHeader(rel)] + ([Decimal(|content|) + "\n"] + (Chunks(content) + rest))
  {
  }

  lemma {:induction false} BlankThenContent(fs: FS, p: Path, content: string)
    ensures Append(fs[p := File("")], p, content) == fs[p := File(content)]
  {
    assert "" + content == content;
  }

  /** Headers are read back. */
  lemma {:induction false} HeaderRead(strip: bool, base: string, rel: string, fs: FS)
    requires rel != "" && Clean(rel) && |rel| + 6 < BUFFER_SIZE
    ensures Fits(AwaitHeader(base), FileHeader(rel)) && Fits(AwaitHeader(base), DirHeader(rel))
    ensures Deliver(strip, AwaitHeader(base), fs, FileHeader(rel)) ==
            Delivery(AwaitSize(base, Target(strip, base, rel)), fs, true, true)
    ensures var p := Resolve(Target(strip, base, rel));
            Deliver(strip, AwaitHeader(base), fs, DirHeader(rel)) ==
            Delivery(AwaitHeader(base), Mkdir(fs, p), true, IsDir(Mkdir(fs, p), p))
  {
    ScanLine(rel);
    var f, d := FileHeader(rel), DirHeader(rel);
    assert f[0] == 'F' && d[0] == 'D';
    assert f[5..] == rel + "\n" && d[4..] == rel + "\n";
    assert "FILE " <= f && "DIR " <= d;
  }

  /** A directory header makes the directory if it can. */
  lemma {:induction false} FollowDir(strip: bool, base: string, rel: string, fs: FS, rest: seq<string>)
    requires rel != "" && Clean(rel) && |rel| + 6 < BUFFER_SIZE && rest != []
    ensures var at := Resolve(base) + Resolve(rel);
            Follow(strip, AwaitHeader(base), fs, [DirHeader(rel)] + rest) ==
            Mark(Follow(strip, AwaitHeader(base), Mkdir(fs, at), rest), IsDir(Mkdir(fs, at), at))
  {
    var at := Resolve(base) + Resolve(rel);
    HeaderRead(strip, base, rel, fs);
    TargetResolves(strip, base, rel);
    FollowFirst(strip, AwaitHeader(base), fs, DirHeader(rel),
                Delivery(AwaitHeader(base), Mkdir(fs, at), true, IsDir(Mkdir(fs, at), at)), rest);
  }

  /** The whole walk, whatever it meets at the destination. */
  lemma {:induction false} FollowWalk(strip: bool, base: string, rel: string, t: Tree, fs: FS, rest: seq<string>)
    requires Sendable(rel, t) && rest != [] && Sent(fs, Resolve(base) + Resolve(rel), t) != Unknown
    ensures Follow(strip, AwaitHeader(base), fs, Walk(rel, t) + rest) ==
            Then(Sent(fs, Resolve(base) + Resolve(rel), t), strip, base, rest)
    decreases t, 1
  {
    var at := Resolve(base) + Resolve(rel);
    if t.Leaf? {
      assert t == Leaf(t.content);
      FollowFile(strip, base, rel, t.content, fs, rest);
    } else {
      WalkFolder(rel, t, rest);
      FollowDir(strip, base, rel, fs, WalkEntries(rel, t.entries) + rest);
      FollowEntries(strip, base, rel, t.entries, Mkdir(fs, at), rest);
      ThenMark(SentEntries(Mkdir(fs, at), at, t.entries), IsDir(Mkdir(fs, at), at), strip, base, rest);
    }
  }

  lemma {:induction false} WalkFolder(rel: string, t: Tree, rest: seq<string>)
    requires t.Folder?
    ensures Walk(rel, t) + rest == [DirHeader(rel)] + (WalkEntries(rel, t.entries) + rest)
  {
  }

  lemma {:induction false} ThenMark(o: Outcome, ok: bool, strip: bool, base: string, rest: seq<string>)
    ensures Then(Mark(o, ok), strip, base, rest) == Mark(Then(o, strip, base, rest), ok)
  {
  }

  lemma {:induction false} EntrySite(base: string, rel: string, name: string)
    requires EntryName(name)
    ensures Resolve(base) + Resolve(rel + "/" + name) == Resolve(base) + Resolve(rel) + [name]
  {
    ChildResolves(rel, name);
  }

  lemma {:induction false} WalkCons(rel: string, es: seq<Entry>, rest: seq<string>)
    requires es != []
    ensures WalkEntries(rel, es) + rest ==
            Walk(rel + "/" + es[0].name, es[0].tree) + (WalkEntries(rel, es[1..]) + rest)
  {
  }

  lemma {:induction false} FolderStays(fs: FS, at: Path, name: string, t: Tree)
    requires IsDir(fs, at) && Regular(t)
    ensures IsDir(Graft(fs, at + [name], t), at)
  {
    GraftMeaning(fs, at + [name], t, at);
  }

  lemma {:induction false} FollowEntries(strip: bool, base: string, rel: string, es: seq<Entry>, fs: FS, rest: seq<string>)
    requires SendableEntries(rel, es) && rest != [] && SentEntries(fs, Resolve(base) + Resolve(rel), es) != Unknown
    ensures Follow(strip, AwaitHeader(base), fs, WalkEntries(rel, es) + rest) ==
            Then(SentEntries(fs, Resolve(base) + Resolve(rel), es), strip, base, rest)
    decreases es, 0
  {
    var at := Resolve(base) + Resolve(rel);
    if es == [] {
      assert WalkEntries(rel, es) + rest == rest;
    } else {
      EntrySite(base, rel, es[0].name);
      WalkCons(rel, es, rest);
      FollowWalk(strip, base, rel + "/" + es[0].name, es[0].tree, fs, WalkEntries(rel, es[1..]) + rest);
      var o := Sent(fs, at + [es[0].name], es[0].tree);
      if o.Ends? {
        FollowEntries(strip, base, rel, es[1..], o.fs, rest);
        ThenMark(SentEntries(o.fs, at, es[1..]), o.clean, strip, base, rest);
      }
    }
  }

  /** Without conflicts everything arrives. */
  lemma {:induction false} SentIsGraft(fs: FS, at: Path, t: Tree)
    requires Regular(t) && ConflictFree(fs, at, t) && ParentIsDir(fs, at)
    ensures Sent(fs, at, t) == Ends(Graft(fs, at, t), true)
    decreases t, 1
  {
    if t.Folder? {
      assert Mkdir(fs, at) == fs[at := Dir];
      DirKeepsFree(fs, at, t.entries);
      SentEntriesAreGrafts(fs[at := Dir], at, t.entries);
    }
  }

  lemma {:induction false} SentEntriesAreGrafts(fs: FS, at: Path, es: seq<Entry>)
    requires RegularEntries(es) && ConflictFreeEntries(fs, at, es) && IsDir(fs, at)
    ensures SentEntries(fs, at, es) == Ends(GraftEntries(fs, at, es), true)
    decreases es, 0
  {
    if es != [] {
      var at' := at + [es[0].name];
      assert at'[..|at|] == at;
      SentIsGraft(fs, at', es[0].tree);
      NextEntryFree(fs, at, es);
      FolderStays(fs, at, es[0].name, es[0].tree);
      SentEntriesAreGrafts(Graft(fs, at', es[0].tree), at, es[1..]);
    }
  }

  lemma {:induction false} DirKeepsFree(fs: FS, at: Path, es: seq<Entry>)
    requires ConflictFreeEntries(fs, at, es)
    ensures ConflictFreeEntries(fs[at := Dir], at, es)
  {
    forall p, i | 0 <= i < |es| && Below(at + [es[i].name], p)
      ensures Look(fs[at := Dir], p) == Look(fs, p)
    {
      assert |p| > |at|;
    }
    ConflictFreeEntriesFrame(fs, fs[at := Dir], at, es);
  }

  /** The texts of a copy can be sent and read back. */
  predicate Speakable(base: string, rel: string, t: Tree) {
    base != "" && Clean(base) && |base| + 6 < BUFFER_SIZE && Sendable(rel, t)
  }

  /** Decoding the encoded tree, whatever it meets at the destination. */
  lemma {:induction false} FollowScript(strip: bool, base: string, rel: string, t: Tree, fs: FS)
    requires Speakable(base, rel, t)
    requires Sent(Mkdir(fs, Resolve(base)), Resolve(base) + Resolve(rel), t) != Unknown
    ensures var fs1 := Mkdir(fs, Resolve(base));
            Follow(strip, AwaitDest, fs, Script(base, rel, t)) ==
            Mark(Sent(fs1, Resolve(base) + Resolve(rel), t), IsDir(fs1, Resolve(base)))
  {
    var fs1, at := Mkdir(fs, Resolve(base)), Resolve(base) + Resolve(rel);
    var dest, tail := "DEST " + base + "\n", Walk(rel, t) + ["END\n"];
    ScanLine(base);
    assert dest[5..] == base + "\n" && "DEST " <= dest;
    FollowFirst(strip, AwaitDest, fs, dest, Delivery(AwaitHeader(base), fs1, true, IsDir(fs1, Resolve(base))), tail);
    assert Script(base, rel, t) == [dest] + tail;
    FollowWalk(strip, base, rel, t, fs1, ["END\n"]);
    FollowEnd(strip, base, if Sent(fs1, at, t).Ends? then Sent(fs1, at, t).fs else fs1);
  }

  lemma {:induction false} FollowEnd(strip: bool, base: string, fs: FS)
    ensures Follow(strip, AwaitHeader(base), fs, ["END\n"]) == Ends(fs, true)
  {
  }

  /** A conflict-free transfer grafts the tree at base plus relative path, every
      operation succeeding. */
  lemma {:induction false} FollowGraft(strip: bool, base: string, rel: string, t: Tree, fs: FS)
    requires Speakable(base, rel, t) && Regular(t)
    requires var fs1, at := Mkdir(fs, Resolve(base)), Resolve(base) + Resolve(rel);
             IsDir(fs1, Resolve(base)) && ParentIsDir(fs1, at) && ConflictFree(fs1, at, t)
    ensures Follow(strip, AwaitDest, fs, Script(base, rel, t)) ==
            Ends(Graft(Mkdir(fs, Resolve(base)), Resolve(base) + Resolve(rel), t), true)
  {
    SentIsGraft(Mkdir(fs, Resolve(base)), Resolve(base) + Resolve(rel), t);
    FollowScript(strip, base, rel, t, fs);
  }
}
