/** `copysame`: the copy within one storage server, and its agreement with the
    copy over the network. */
module LocalCopy {
  import opened Paths
  import opened Files
  import opened TreeCopy
  import opened CopyProtocol
  import opened Conflicts
  import MirrorPaths

  const COPY_BUFFER := 4096

  /** What the local copy of a tree leaves, failures included: a file that cannot
      be opened and a folder that cannot be made are skipped. */
  function Copied(fs: FS, at: Path, t: Tree): FS
    decreases t, 1
  {
    if t.Leaf? then (if CanOpen(fs, at) then fs[at := File(t.content)] else fs)
    else if at !in fs && !ParentIsDir(fs, at) then fs
    else CopiedEntries(Mkdir(fs, at), at, t.entries)
  }

  function CopiedEntries(fs: FS, at: Path, es: seq<Entry>): FS
    decreases es, 0
  {
    if es == [] then fs else CopiedEntries(Copied(fs, at + [es[0].name], es[0].tree), at, es[1..])
  }

  /** Without conflicts nothing is skipped. */
  lemma {:induction false} CopiedIsGraft(fs: FS, at: Path, t: Tree)
    requires Regular(t) && ConflictFree(fs, at, t) && ParentIsDir(fs, at)
    ensures Copied(fs, at, t) == Graft(fs, at, t)
    decreases t, 1
  {
    if t.Folder? {
      assert Mkdir(fs, at) == fs[at := Dir];
      DirKeepsFree(fs, at, t.entries);
      CopiedEntriesAreGrafts(fs[at := Dir], at, t.entries);
    }
  }

  lemma {:induction false} CopiedEntriesAreGrafts(fs: FS, at: Path, es: seq<Entry>)
    requires RegularEntries(es) && ConflictFreeEntries(fs, at, es) && IsDir(fs, at)
    ensures CopiedEntries(fs, at, es) == GraftEntries(fs, at, es)
    decreases es, 0
  {
    if es != [] {
      var at' := at + [es[0].name];
      assert at'[..|at|] == at;
      CopiedIsGraft(fs, at', es[0].tree);
      NextEntryFree(fs, at, es);
      FolderStays(fs, at, es[0].name, es[0].tree);
      CopiedEntriesAreGrafts(Graft(fs, at', es[0].tree), at, es[1..]);
    }
  }

  lemma {:induction false} CopiedKeepsKinds(fs: FS, at: Path, t: Tree)
    ensures KindsKept(fs, Copied(fs, at, t))
    decreases t, 1
  {
    if t.Folder? {
      CopiedEntriesKeepKinds(Mkdir(fs, at), at, t.entries);
    }
  }

  lemma {:induction false} CopiedEntriesKeepKinds(fs: FS, at: Path, es: seq<Entry>)
    ensures KindsKept(fs, CopiedEntries(fs, at, es))
    decreases es, 0
  {
    if es != [] {
      var at' := at + [es[0].name];
      CopiedKeepsKinds(fs, at', es[0].tree);
      CopiedEntriesKeepKinds(Copied(fs, at', es[0].tree), at, es[1..]);
    }
  }

  /** The local copy places the tree if and only if there was no conflict. */
  lemma {:induction false} CopiedExactly(fs: FS, at: Path, t: Tree)
    requires Regular(t) && ParentIsDir(fs, at)
    ensures IsGraft(Copied(fs, at, t), fs, at, t) <==> ConflictFree(fs, at, t)
  {
    if ConflictFree(fs, at, t) {
      CopiedIsGraft(fs, at, t);
      forall p
        ensures Look(Copied(fs, at, t), p) == Grafted(fs, at, t, p)
      {
        GraftMeaning(fs, at, t, p);
      }
    }
    if IsGraft(Copied(fs, at, t), fs, at, t) {
      CopiedKeepsKinds(fs, at, t);
      forall q | TreeAt(t, q).Some? && at + q in fs
        ensures fs[at + q] == Dir <==> TreeAt(t, q).value == Dir
      {
        var p := at + q;
        assert p[..|at|] == at && p[|at|..] == q;
        assert Look(Copied(fs, at, t), p) == Grafted(fs, at, t, p);
      }
      AgreesConflictFree(fs, at, t);
    }
  }

  /** The code reads the source from the disk it writes to.  One file: opening
      it for writing cuts it to nothing before anything is read. */
  function LiveFile(fs: FS, src: Path, at: Path): FS {
    if src !in fs || fs[src].Dir? || !CanOpen(fs, at) then fs
    else fs[at := File(if src == at then "" else fs[src].content)]
  }

  /** A tree whose folders enumerate as `t` does. */
  function Live(fs: FS, src: Path, at: Path, t: Tree): FS
    decreases t, 1
  {
    if t.Leaf? then LiveFile(fs, src, at)
    else if at !in fs && !ParentIsDir(fs, at) then fs
    else if !IsDir(Mkdir(fs, at), src) then Mkdir(fs, at)
    else LiveEntries(Mkdir(fs, at), src, at, t.entries)
  }

  function LiveEntries(fs: FS, src: Path, at: Path, es: seq<Entry>): FS
    decreases es, 0
  {
    if es == [] then fs
    else LiveEntries(Live(fs, src + [es[0].name], at + [es[0].name], es[0].tree), src, at, es[1..])
  }

  /** A folder that cannot be read leaves an empty folder behind, where there was
      nothing and one can be made; a file that cannot be read leaves nothing. */
  lemma {:induction false} NothingToRead(fs: FS, src: Path, at: Path, t: Tree, p: Path)
    requires src !in fs && src != at
    ensures Look(Live(fs, src, at, t), p) ==
            if p == at && t.Folder? && at !in fs && ParentIsDir(fs, at) then Some(Dir) else Look(fs, p)
  {
  }

  /** The tree is what the disk holds at `src`. */
  ghost predicate Held(fs: FS, src: Path, t: Tree) {
    forall q :: TreeAt(t, q).Some? ==> Look(fs, src + q) == TreeAt(t, q)
  }

  ghost predicate HeldEntries(fs: FS, src: Path, es: seq<Entry>) {
    forall q :: q != [] && EntriesAt(es, q).Some? ==> Look(fs, src + q) == EntriesAt(es, q)
  }

  /** Nothing of the tree, placed at `at`, comes to lie at or below `top`. */
  ghost predicate Clear(top: Path, at: Path, t: Tree) {
    forall q :: TreeAt(t, q).Some? ==> !Below(top, at + q)
  }

  ghost predicate ClearEntries(top: Path, at: Path, es: seq<Entry>) {
    forall q :: q != [] && EntriesAt(es, q).Some? ==> !Below(top, at + q)
  }

  lemma {:induction false} ClearHead(top: Path, at: Path, es: seq<Entry>)
    requires es != [] && RegularEntries(es) && ClearEntries(top, at, es)
    ensures Clear(top, at + [es[0].name], es[0].tree) && ClearEntries(top, at, es[1..])
  {
    forall q | TreeAt(es[0].tree, q).Some?
      ensures !Below(top, at + [es[0].name] + q)
    {
      var r := [es[0].name] + q;
      assert r[1..] == q && at + r == at + [es[0].name] + q && EntriesAt(es, r).Some?;
    }
    forall q | q != [] && EntriesAt(es[1..], q).Some?
      ensures !Below(top, at + q)
    {
      OtherEntry(es, q);
    }
  }

  lemma {:induction false} HeldHead(fs: FS, src: Path, es: seq<Entry>)
    requires es != [] && RegularEntries(es) && HeldEntries(fs, src, es)
    ensures Held(fs, src + [es[0].name], es[0].tree) && HeldEntries(fs, src, es[1..])
  {
    forall q | TreeAt(es[0].tree, q).Some?
      ensures Look(fs, src + [es[0].name] + q) == TreeAt(es[0].tree, q)
    {
      var r := [es[0].name] + q;
      assert r[1..] == q && src + r == src + [es[0].name] + q && EntriesAt(es, r).Some?;
    }
    forall q | q != [] && EntriesAt(es[1..], q).Some?
      ensures Look(fs, src + q) == EntriesAt(es[1..], q)
    {
      OtherEntry(es, q);
    }
  }

  lemma {:induction false} OtherEntry(es: seq<Entry>, q: Path)
    requires es != [] && RegularEntries(es) && q != [] && EntriesAt(es[1..], q).Some?
    ensures EntriesAt(es, q) == EntriesAt(es[1..], q)
  {
    if es[0].name == q[0] {
      MissingEntry(es[1..], q);
    }
  }

  lemma {:induction false} FolderParts(fs: FS, top: Path, src: Path, at: Path, t: Tree)
    requires t.Folder? && Held(fs, src, t) && Clear(top, at, t) && Below(top, src)
    ensures IsDir(fs, src) && at != src && !Below(top, at)
    ensures HeldEntries(fs, src, t.entries) && ClearEntries(top, at, t.entries)
  {
    assert TreeAt(t, []) == Some(Dir) && at + [] == at && src + [] == src;
    assert forall q | q != [] :: TreeAt(t, q) == EntriesAt(t.entries, q);
  }

  /** Nothing at or below `top` changes. */
  lemma {:induction false} CopiedLeaves(fs: FS, top: Path, at: Path, t: Tree, p: Path)
    requires Regular(t) && Clear(top, at, t) && Below(top, p)
    ensures Look(Copied(fs, at, t), p) == Look(fs, p)
    decreases t, 1
  {
    assert TreeAt(t, []).Some? && at + [] == at && p != at;
    if t.Folder? {
      assert forall q | q != [] :: TreeAt(t, q) == EntriesAt(t.entries, q);
      CopiedEntriesLeave(Mkdir(fs, at), top, at, t.entries, p);
    }
  }

  lemma {:induction false} CopiedEntriesLeave(fs: FS, top: Path, at: Path, es: seq<Entry>, p: Path)
    requires RegularEntries(es) && ClearEntries(top, at, es) && Below(top, p)
    ensures Look(CopiedEntries(fs, at, es), p) == Look(fs, p)
    decreases es, 0
  {
    if es != [] {
      ClearHead(top, at, es);
      CopiedLeaves(fs, top, at + [es[0].name], es[0].tree, p);
      CopiedEntriesLeave(Copied(fs, at + [es[0].name], es[0].tree), top, at, es[1..], p);
    }
  }

  lemma {:induction false} StillHeld(fs: FS, fs': FS, top: Path, src: Path, es: seq<Entry>)
    requires HeldEntries(fs, src, es) && Below(top, src)
    requires forall p | Below(top, p) :: Look(fs', p) == Look(fs, p)
    ensures HeldEntries(fs', src, es)
  {
    forall q | q != [] && EntriesAt(es, q).Some?
      ensures Look(fs', src + q) == EntriesAt(es, q)
    {
      assert (src + q)[..|top|] == src[..|top|];
    }
  }

  /** Reading the source while writing beside it is reading it beforehand. */
  lemma {:induction false} LiveIsCopied(fs: FS, top: Path, src: Path, at: Path, t: Tree)
    requires Regular(t) && Held(fs, src, t) && Clear(top, at, t) && Below(top, src)
    ensures Live(fs, src, at, t) == Copied(fs, at, t)
    decreases t, 1
  {
    if t.Leaf? {
      assert TreeAt(t, []) == Some(File(t.content)) && at + [] == at && src + [] == src;
    } else {
      FolderParts(fs, top, src, at, t);
      var fs1 := Mkdir(fs, at);
      assert forall p | Below(top, p) :: Look(fs1, p) == Look(fs, p);
      assert Look(fs1, src) == Look(fs, src);
      StillHeld(fs, fs1, top, src, t.entries);
      LiveEntriesAreCopied(fs1, top, src, at, t.entries);
    }
  }

  lemma {:induction false} LiveEntriesAreCopied(fs: FS, top: Path, src: Path, at: Path, es: seq<Entry>)
    requires RegularEntries(es) && HeldEntries(fs, src, es) && ClearEntries(top, at, es) && Below(top, src)
    ensures LiveEntries(fs, src, at, es) == CopiedEntries(fs, at, es)
    decreases es, 0
  {
    if es != [] {
      var src', at' := src + [es[0].name], at + [es[0].name];
      ClearHead(top, at, es);
      HeldHead(fs, src, es);
      assert src'[..|top|] == src[..|top|];
      LiveIsCopied(fs, top, src', at', es[0].tree);
      forall p | Below(top, p)
        ensures Look(Copied(fs, at', es[0].tree), p) == Look(fs, p)
      {
        CopiedLeaves(fs, top, at', es[0].tree, p);
      }
      StillHeld(fs, Copied(fs, at', es[0].tree), top, src, es[1..]);
      LiveEntriesAreCopied(Copied(fs, at', es[0].tree), top, src, at, es[1..]);
    }
  }

  /** A destination outside the source, from where the copy does not reach back. */
  lemma {:induction false} OutsideIsClear(src: Path, dest: Path, t: Tree)
    requires src != [] && !Below(src, dest)
    requires var at := dest + [src[|src| - 1]]; !Below(at, src)
    ensures Clear(src, dest + [src[|src| - 1]], t)
  {
    var at := dest + [src[|src| - 1]];
    forall q | TreeAt(t, q).Some?
      ensures !Below(src, at + q)
    {
      if |src| <= |dest| {
        assert (at + q)[..|src|] == dest[..|src|];
      } else {
        assert |at + q| >= |src| ==> (at + q)[..|src|][..|at|] == at;
      }
    }
  }

  /** What is at `p` once every file of the tree at `src` has been emptied. */
  ghost function Emptied(fs: FS, src: Path, t: Tree, p: Path): Option<Node> {
    if Below(src, p) && IsFile(TreeAt(t, p[|src|..])) then Some(File("")) else Look(fs, p)
  }

  ghost function EntriesEmptied(fs: FS, src: Path, es: seq<Entry>, p: Path): Option<Node> {
    if Below(src, p) && |p| > |src| && IsFile(EntriesAt(es, p[|src|..])) then Some(File("")) else Look(fs, p)
  }

  /** A copy into the folder where the source lies empties every file of it and
      changes nothing else. */
  lemma {:induction false} SelfCopy(fs: FS, src: Path, t: Tree, p: Path)
    requires Regular(t) && Held(fs, src, t) && ParentIsDir(fs, src)
    ensures Look(Live(fs, src, src, t), p) == Emptied(fs, src, t, p)
    decreases t, 1
  {
    assert TreeAt(t, []).Some? && src + [] == src && Look(fs, src) == TreeAt(t, []);
    assert Below(src, p) && |p| == |src| ==> p == src && p[|src|..] == [];
    if t.Folder? {
      assert forall q | q != [] :: TreeAt(t, q) == EntriesAt(t.entries, q);
      SelfCopyEntries(fs, src, t.entries, p);
    }
  }

  lemma {:induction false} SelfCopyEntries(fs: FS, src: Path, es: seq<Entry>, p: Path)
    requires RegularEntries(es) && HeldEntries(fs, src, es) && IsDir(fs, src)
    ensures Look(LiveEntries(fs, src, src, es), p) == EntriesEmptied(fs, src, es, p)
    decreases es, 0
  {
    if es != [] {
      var src', t := src + [es[0].name], es[0].tree;
      var fs' := Live(fs, src', src', t);
      assert src'[..|src|] == src;
      HeldHead(fs, src, es);
      SelfCopy(fs, src', t, p);
      SelfCopy(fs, src', t, src);
      assert Look(fs', src) == Look(fs, src);
      forall q | q != [] && EntriesAt(es[1..], q).Some?
        ensures Look(fs', src + q) == EntriesAt(es[1..], q)
      {
        EntriesSplit(es, q);
        assert (src + q)[..|src'|][|src|] == q[0] && src'[|src|] == es[0].name;
        SelfCopy(fs, src', t, src + q);
      }
      SelfCopyEntries(fs', src, es[1..], p);
      EmptiedSplit(fs, src, es, p);
    }
  }

  lemma {:induction false} EmptiedSplit(fs: FS, src: Path, es: seq<Entry>, p: Path)
    requires es != [] && RegularEntries(es)
    ensures EntriesEmptied(fs, src, es, p) ==
            if Below(src, p) && |p| > |src| && IsFile(EntriesAt(es[1..], p[|src|..])) then Some(File(""))
            else Emptied(fs, src + [es[0].name], es[0].tree, p)
  {
    var src' := src + [es[0].name];
    if Below(src, p) && |p| > |src| {
      var q := p[|src|..];
      EntriesSplit(es, q);
      assert Below(src', p) <==> q[0] == es[0].name;
      assert |p| >= |src'| && p[|src'|..] == q[1..];
    } else {
      assert |p| >= |src'| ==> p[..|src'|][..|src|] == p[..|src|];
      assert src'[..|src|] == src;
    }
  }

  /** So it leaves the disk alone if and only if every file was empty. */
  lemma {:induction false} CopyOntoItself(fs: FS, src: Path, t: Tree)
    requires Regular(t) && Held(fs, src, t) && ParentIsDir(fs, src)
    ensures forall p :: Look(Live(fs, src, src, t), p) == Emptied(fs, src, t, p)
    ensures Live(fs, src, src, t) == fs <==> EveryFile(Blank, t)
  {
    var fs' := Live(fs, src, src, t);
    forall p
      ensures Look(fs', p) == Emptied(fs, src, t, p)
    {
      SelfCopy(fs, src, t, p);
    }
    EveryFileIff(Blank, t);
    if fs' == fs {
      forall q
        ensures IsFile(TreeAt(t, q)) ==> Has(Blank, TreeAt(t, q).value.content)
      {
        var p := src + q;
        assert p[..|src|] == src && p[|src|..] == q;
        assert Look(fs', p) == Emptied(fs, src, t, p);
        assert TreeAt(t, q).Some? ==> Look(fs, p) == TreeAt(t, q);
      }
    }
    if EveryFile(Blank, t) {
      forall p
        ensures Look(fs', p) == Look(fs, p)
      {
        assert Below(src, p) ==> p == src + p[|src|..];
        var q := if Below(src, p) then p[|src|..] else [];
        assert IsFile(TreeAt(t, q)) ==> Has(Blank, TreeAt(t, q).value.content);
        assert Look(fs', p) == Emptied(fs, src, t, p);
      }
      SameLooks(fs', fs);
    }
  }

  /** The disk of the storage server. */
  class Disk {
    var fs: FS

    constructor (fs: FS)
      ensures this.fs == fs
    {
      this.fs := fs;
    }

    /** `copy_file`: truncate or create, then copy buffer by buffer. */
    method CopyFile(src: Path, dest: Path)
      modifies this
      ensures fs == LiveFile(old(fs), src, dest)
    {
      if src !in fs || fs[src].Dir? || !CanOpen(fs, dest) {
        return;
      }
      fs := fs[dest := File("")];
      ghost var content := fs[src].content;
      var done := 0;
      while done < |fs[src].content|
        invariant 0 <= done <= |content| && src in fs && fs[src] == File(content)
        invariant fs == old(fs)[dest := File(content[..done])]
      {
        var n := if |fs[src].content| - done < COPY_BUFFER then |fs[src].content| - done else COPY_BUFFER;
        assert content[..done + n] == content[..done] + content[done..done + n];
        fs := Append(fs, dest, fs[src].content[done..done + n]);
        done := done + n;
      }
      assert content[..done] == content;
    }

    /** `copy_directory`: make the folder unless something is there, then copy
        the entries in the order of `readdir`. */
    method CopyDirectory(src: Path, t: Tree, dest: Path)
      requires t.Folder?
      modifies this
      ensures fs == Live(old(fs), src, dest, t)
      decreases t
    {
      if dest !in fs {
        if !ParentIsDir(fs, dest) {
          return;
        }
        fs := fs[dest := Dir];
      }
      if !IsDir(fs, src) {
        return;
      }
      var i := 0;
      assert t.entries[0..] == t.entries;
      while i < |t.entries|
        invariant 0 <= i <= |t.entries|
        invariant LiveEntries(fs, src, dest, t.entries[i..]) == Live(old(fs), src, dest, t)
      {
        var e := t.entries[i];
        assert t.entries[i..][0] == e && t.entries[i..][1..] == t.entries[i + 1..];
        if e.tree.Leaf? {
          CopyFile(src + [e.name], dest + [e.name]);
        } else {
          CopyDirectory(src + [e.name], e.tree, dest + [e.name]);
        }
        i := i + 1;
      }
    }

    /** `copy_same`: the source goes to the destination folder under its own
        name; a missing source is refused. */
    method CopySame(src: string, t: Tree, dest: string) returns (ok: bool)
      requires Resolve(src) in fs ==> (fs[Resolve(src)] == Dir <==> t.Folder?)
      modifies this
      ensures ok == (Resolve(src) in old(fs))
      ensures fs == if ok then Live(old(fs), Resolve(src), Resolve(dest + "/" + BaseName(src)), t) else old(fs)
    {
      if Resolve(src) !in fs {
        return false;
      }
      var final := Resolve(dest + "/" + BaseName(src));
      if t.Leaf? {
        CopyFile(Resolve(src), final);
      } else {
        CopyDirectory(Resolve(src), t, final);
      }
      return true;
    }
  }

  /** What arrives over the network is what the local copy leaves, conflicts
      included, as long as the transfer ends. */
  lemma {:induction false} SentIsCopied(fs: FS, at: Path, t: Tree)
    requires Hung(fs, []) && Sent(fs, at, t).Ends?
    ensures Sent(fs, at, t).fs == Copied(fs, at, t)
    decreases t, 1
  {
    if t.Folder? {
      if at !in fs && !ParentIsDir(fs, at) {
        NothingArrives(Blank, fs, at, t.entries);
      } else {
        HungMkdir(fs, at);
        SentEntriesAreCopied(Mkdir(fs, at), at, t.entries);
      }
    }
  }

  lemma {:induction false} SentEntriesAreCopied(fs: FS, at: Path, es: seq<Entry>)
    requires Hung(fs, []) && SentEntries(fs, at, es).Ends?
    ensures SentEntries(fs, at, es).fs == CopiedEntries(fs, at, es)
    decreases es, 0
  {
    if es != [] {
      var at' := at + [es[0].name];
      SentIsCopied(fs, at', es[0].tree);
      HungSent(fs, at', es[0].tree);
      SentEntriesAreCopied(Sent(fs, at', es[0].tree).fs, at, es[1..]);
    }
  }

  lemma {:induction false} FinalPlace(dest: string, name: string)
    requires EntryName(name)
    ensures Resolve(name) == [name] && Resolve(dest + "/" + name) == Resolve(dest) + [name]
  {
    ChildResolves(dest, name);
    SplitName(name, RESOLVE_SKIP);
  }

  /** What `copy_different_src` announces the source as. */
  function Announced(src: string, dest: string): string {
    MirrorPaths.Tail(src, MirrorPaths.Skip(src, dest))
  }

  /** The two routes mean the same: every network copy that completes, with or
      without conflicts, leaves exactly what `copysame` leaves when it reads the
      same tree from the disk it writes to. */
  lemma {:induction false} RoutesAgree(strip: bool, src: string, dest: string, t: Tree, fs: FS, run: seq<Action>)
    requires EntryName(BaseName(src)) && Speakable(dest, Announced(src, dest), t) && Regular(t)
    requires !("./" + MirrorPaths.FOLDER <= dest)
    requires Hung(fs, []) && IsDir(fs, Resolve(dest)) && Held(fs, Resolve(src), t)
    requires Clear(Resolve(src), Resolve(dest) + [BaseName(src)], t)
    requires Sent(fs, Resolve(dest) + [BaseName(src)], t) != Unknown
    requires IsRun(strip, Initial(Script(dest, Announced(src, dest), t), fs), run)
    requires Complete(After(strip, Initial(Script(dest, Announced(src, dest), t), fs), run))
    ensures After(strip, Initial(Script(dest, Announced(src, dest), t), fs), run).fs ==
            Live(fs, Resolve(src), Resolve(dest + "/" + BaseName(src)), t)
  {
    MirrorPaths.SkipToName(src, dest);
    NamedRoutesAgree(strip, src, dest, t, fs, run);
  }

  lemma {:induction false} NamedRoutesAgree(strip: bool, src: string, dest: string, t: Tree, fs: FS, run: seq<Action>)
    requires EntryName(BaseName(src)) && Speakable(dest, BaseName(src), t) && Regular(t)
    requires Hung(fs, []) && IsDir(fs, Resolve(dest)) && Held(fs, Resolve(src), t)
    requires Clear(Resolve(src), Resolve(dest) + [BaseName(src)], t)
    requires Sent(fs, Resolve(dest) + [BaseName(src)], t) != Unknown
    requires IsRun(strip, Initial(Script(dest, BaseName(src), t), fs), run)
    requires Complete(After(strip, Initial(Script(dest, BaseName(src), t), fs), run))
    ensures After(strip, Initial(Script(dest, BaseName(src), t), fs), run).fs ==
            Live(fs, Resolve(src), Resolve(dest + "/" + BaseName(src)), t)
  {
    var at := Resolve(dest) + [BaseName(src)];
    FinalPlace(dest, BaseName(src));
    assert Mkdir(fs, Resolve(dest)) == fs;
    CompletedLeaves(strip, dest, BaseName(src), t, fs, run);
    SentIsCopied(fs, at, t);
    LiveIsCopied(fs, Resolve(src), Resolve(src), at, t);
  }
}
