/** Directory trees and the part of a file system a copy touches. */
module Files {
  import opened Paths

  datatype Option<T> = None | Some(value: T)

  /** A source tree as `readdir` enumerates it. */
  datatype Tree = Leaf(content: string) | Folder(entries: seq<Entry>)
  datatype Entry = Entry(name: string, tree: Tree)

  datatype Node = Dir | File(content: string)

  /** A file system: what is found at each path below the working directory. */
  type FS = map<Path, Node>

  function Look(fs: FS, p: Path): Option<Node> {
    if p in fs then Some(fs[p]) else None
  }

  lemma {:induction false} SameLooks(a: FS, b: FS)
    requires forall p :: Look(a, p) == Look(b, p)
    ensures a == b
  {
    forall p
      ensures p in a <==> p in b
    {
      assert Look(a, p) == Look(b, p);
    }
    assert forall p | p in a :: Look(a, p) == Look(b, p);
  }

  predicate IsDir(fs: FS, p: Path) {
    p in fs && fs[p] == Dir
  }

  predicate ParentIsDir(fs: FS, p: Path) {
    p != [] && IsDir(fs, p[..|p| - 1])
  }

  /** Everything below `top` lies in a folder. */
  ghost predicate Hung(fs: FS, top: Path) {
    forall p | p in fs && |p| > |top| && top <= p :: ParentIsDir(fs, p)
  }

  /** `mkdir` where an existing entry is no error: the new file system, and
      whether the path is a directory now. */
  function Mkdir(fs: FS, p: Path): FS {
    if p !in fs && ParentIsDir(fs, p) then fs[p := Dir] else fs
  }

  /** `fopen(p, "wb")` succeeds. */
  predicate CanOpen(fs: FS, p: Path) {
    ParentIsDir(fs, p) && !IsDir(fs, p)
  }

  /** What the tree holds at a relative path. */
  function TreeAt(t: Tree, q: Path): Option<Node>
    decreases t, 1
  {
    if q == [] then Some(if t.Leaf? then File(t.content) else Dir)
    else if t.Leaf? then None
    else EntriesAt(t.entries, q)
  }

  function EntriesAt(es: seq<Entry>, q: Path): Option<Node>
    requires q != []
    decreases es, 0
  {
    if es == [] then None
    else if es[0].name == q[0] then TreeAt(es[0].tree, q[1..])
    else EntriesAt(es[1..], q)
  }

  /** Entry names differ within every folder. */
  predicate Regular(t: Tree)
    decreases t, 1
  {
    t.Leaf? || RegularEntries(t.entries)
  }

  predicate RegularEntries(es: seq<Entry>)
    decreases es, 0
  {
    es == [] || (Regular(es[0].tree) && Fresh(es[0].name, es[1..]) && RegularEntries(es[1..]))
  }

  predicate Fresh(name: string, es: seq<Entry>) {
    forall i :: 0 <= i < |es| ==> es[i].name != name
  }

  /** The tree placed at `at`, entry by entry in the order of the walk. */
  function Graft(fs: FS, at: Path, t: Tree): FS
    decreases t, 1
  {
    if t.Leaf? then fs[at := File(t.content)] else GraftEntries(fs[at := Dir], at, t.entries)
  }

  function GraftEntries(fs: FS, at: Path, es: seq<Entry>): FS
    decreases es, 0
  {
    if es == [] then fs else GraftEntries(Graft(fs, at + [es[0].name], es[0].tree), at, es[1..])
  }

  /** No file stands where the tree has a folder, and no folder where it has a file. */
  predicate ConflictFree(fs: FS, at: Path, t: Tree)
    decreases t, 1
  {
    if t.Leaf? then !IsDir(fs, at)
    else (at in fs ==> fs[at] == Dir) && ConflictFreeEntries(fs, at, t.entries)
  }

  predicate ConflictFreeEntries(fs: FS, at: Path, es: seq<Entry>)
    decreases es, 0
  {
    es == [] || (ConflictFree(fs, at + [es[0].name], es[0].tree) && ConflictFreeEntries(fs, at, es[1..]))
  }

  predicate Below(at: Path, p: Path) {
    |at| <= |p| && p[..|at|] == at
  }

  /** What a graft means: at `at` and below the tree decides where it has a
      node; everything else is untouched. */
  function Grafted(fs: FS, at: Path, t: Tree, p: Path): Option<Node> {
    if Below(at, p) && TreeAt(t, p[|at|..]).Some? then TreeAt(t, p[|at|..]) else Look(fs, p)
  }

  function EntriesGrafted(fs: FS, at: Path, es: seq<Entry>, p: Path): Option<Node> {
    if Below(at, p) && |p| > |at| && EntriesAt(es, p[|at|..]).Some? then EntriesAt(es, p[|at|..]) else Look(fs, p)
  }

  lemma {:induction false} MissingEntry(es: seq<Entry>, q: Path)
    requires q != [] && Fresh(q[0], es)
    ensures EntriesAt(es, q) == None
    decreases |es|
  {
    if es != [] {
      MissingEntry(es[1..], q);
    }
  }

  /** The walk computes the graft. */
  lemma {:induction false} GraftMeaning(fs: FS, at: Path, t: Tree, p: Path)
    requires Regular(t)
    ensures Look(Graft(fs, at, t), p) == Grafted(fs, at, t, p)
    decreases t, 1
  {
    assert Below(at, p) && |p| == |at| ==> p == at && p[|at|..] == [];
    if t.Folder? {
      EntriesMeaning(fs[at := Dir], at, t.entries, p);
    }
  }

  lemma {:induction false} EntriesMeaning(fs: FS, at: Path, es: seq<Entry>, p: Path)
    requires RegularEntries(es)
    ensures Look(GraftEntries(fs, at, es), p) == EntriesGrafted(fs, at, es, p)
    decreases es, 0
  {
    if es != [] {
      var at' := at + [es[0].name];
      GraftMeaning(fs, at', es[0].tree, p);
      EntriesMeaning(Graft(fs, at', es[0].tree), at, es[1..], p);
      if Below(at, p) && |p| > |at| {
        var q := p[|at|..];
        assert Below(at', p) <==> q[0] == es[0].name;
        if q[0] == es[0].name {
          assert p[|at'|..] == q[1..];
          MissingEntry(es[1..], q);
        }
      } else {
        assert !Below(at', p);
      }
    }
  }

  /** A graft beside a subtree creates no conflict in it. */
  lemma {:induction false} ConflictFreeFrame(fs: FS, fs': FS, at: Path, t: Tree)
    requires forall p :: Below(at, p) ==> Look(fs', p) == Look(fs, p)
    requires ConflictFree(fs, at, t)
    ensures ConflictFree(fs', at, t)
    decreases t, 1
  {
    assert Below(at, at) && Look(fs', at) == Look(fs, at);
    if t.Folder? {
      forall p | Below(at, p) && |p| > |at|
        ensures Look(fs', p) == Look(fs, p)
      {
      }
      ConflictFreeEntriesFrame(fs, fs', at, t.entries);
    }
  }

  lemma {:induction false} ConflictFreeEntriesFrame(fs: FS, fs': FS, at: Path, es: seq<Entry>)
    requires forall p, i :: 0 <= i < |es| && Below(at + [es[i].name], p) ==> Look(fs', p) == Look(fs, p)
    requires ConflictFreeEntries(fs, at, es)
    ensures ConflictFreeEntries(fs', at, es)
    decreases es, 0
  {
    if es != [] {
      ConflictFreeFrame(fs, fs', at + [es[0].name], es[0].tree);
      forall p, i | 0 <= i < |es[1..]| && Below(at + [es[1..][i].name], p)
        ensures Look(fs', p) == Look(fs, p)
      {
        assert es[1..][i] == es[i + 1];
      }
      ConflictFreeEntriesFrame(fs, fs', at, es[1..]);
    }
  }

  /** After one entry, the remaining entries are still free of conflicts. */
  lemma {:induction false} NextEntryFree(fs: FS, at: Path, es: seq<Entry>)
    requires es != [] && RegularEntries(es) && ConflictFreeEntries(fs, at, es)
    ensures ConflictFreeEntries(Graft(fs, at + [es[0].name], es[0].tree), at, es[1..])
  {
    var at' := at + [es[0].name];
    var fs' := Graft(fs, at', es[0].tree);
    var rest := es[1..];
    forall p, i | 0 <= i < |rest| && Below(at + [rest[i].name], p)
      ensures Look(fs', p) == Look(fs, p)
    {
      GraftMeaning(fs, at', es[0].tree, p);
      assert p[..|at| + 1][|at|] == p[|at|];
      assert at'[|at|] == es[0].name && rest[i] == es[i + 1];
    }
    ConflictFreeEntriesFrame(fs, fs', at, rest);
  }

  /** The same, path by path. */
  ghost predicate Agrees(fs: FS, at: Path, t: Tree) {
    forall q :: TreeAt(t, q).Some? && at + q in fs ==> (fs[at + q] == Dir <==> TreeAt(t, q).value == Dir)
  }

  lemma {:induction false} ConflictFreeAgrees(fs: FS, at: Path, t: Tree, q: Path)
    requires ConflictFree(fs, at, t) && TreeAt(t, q).Some? && at + q in fs
    ensures fs[at + q] == Dir <==> TreeAt(t, q).value == Dir
    decreases t, 1
  {
    if q == [] {
      assert at + q == at;
    } else {
      EntriesAgree(fs, at, t.entries, q);
    }
  }

  lemma {:induction false} EntriesAgree(fs: FS, at: Path, es: seq<Entry>, q: Path)
    requires ConflictFreeEntries(fs, at, es) && q != [] && EntriesAt(es, q).Some? && at + q in fs
    ensures fs[at + q] == Dir <==> EntriesAt(es, q).value == Dir
    decreases es, 0
  {
    if es[0].name == q[0] {
      assert at + q == at + [es[0].name] + q[1..];
      ConflictFreeAgrees(fs, at + [es[0].name], es[0].tree, q[1..]);
    } else {
      EntriesAgree(fs, at, es[1..], q);
    }
  }

  lemma {:induction false} AgreesConflictFree(fs: FS, at: Path, t: Tree)
    requires Regular(t) && Agrees(fs, at, t)
    ensures ConflictFree(fs, at, t)
    decreases t, 1
  {
    assert TreeAt(t, []).Some? && at + [] == at;
    if t.Folder? {
      forall q | q != [] && EntriesAt(t.entries, q).Some? && at + q in fs
        ensures fs[at + q] == Dir <==> EntriesAt(t.entries, q).value == Dir
      {
        assert TreeAt(t, q).Some?;
      }
      AgreesEntries(fs, at, t.entries);
    }
  }

  lemma {:induction false} AgreesEntries(fs: FS, at: Path, es: seq<Entry>)
    requires RegularEntries(es)
    requires forall q :: q != [] && EntriesAt(es, q).Some? && at + q in fs ==>
                           (fs[at + q] == Dir <==> EntriesAt(es, q).value == Dir)
    ensures ConflictFreeEntries(fs, at, es)
    decreases es, 0
  {
    if es != [] {
      var name := es[0].name;
      forall q | TreeAt(es[0].tree, q).Some? && at + [name] + q in fs
        ensures fs[at + [name] + q] == Dir <==> TreeAt(es[0].tree, q).value == Dir
      {
        var r := [name] + q;
        assert at + r == at + [name] + q && r[1..] == q && EntriesAt(es, r).Some?;
      }
      AgreesConflictFree(fs, at + [name], es[0].tree);
      forall q | q != [] && EntriesAt(es[1..], q).Some? && at + q in fs
        ensures fs[at + q] == Dir <==> EntriesAt(es[1..], q).value == Dir
      {
        if q[0] == name {
          MissingEntry(es[1..], q);
        }
        assert EntriesAt(es, q) == EntriesAt(es[1..], q);
      }
      AgreesEntries(fs, at, es[1..]);
    }
  }
}
