/** From registrations through the initial copies to exact mirrors. */
module Deployment {
  import opened Paths
  import opened Files
  import opened TreeCopy
  import opened MirrorPaths
  import opened Disks
  import opened Replication
  import Conflicts
  import CopyProtocol
  import Listing
  import Placement

  function ConfigOf(r: Placement.Registry): Config {
    Config(seq(|r.servers|, i requires 0 <= i < |r.servers| => r.servers[i].name),
           seq(|r.servers|, i requires 0 <= i < |r.servers| => r.servers[i].first),
           seq(|r.servers|, i requires 0 <= i < |r.servers| => r.servers[i].second))
  }

  /** Root folders with ordinary names, none of them the backup folder. */
  predicate NamesOk(r: Placement.Registry) {
    forall i | 0 <= i < |r.servers| :: FileName(r.servers[i].name) && r.servers[i].name != FOLDER
  }

  /** The placement after any history of registrations and crashes is one that
      replication can work with. */
  lemma {:induction false} PlacementServes(max: nat, run: seq<Placement.Event>)
    requires NamesOk(Placement.After(Placement.Registry([], []), max, run))
    ensures ConfigOf(Placement.After(Placement.Registry([], []), max, run)).Ok()
  {
    Placement.RunKeeps(Placement.Registry([], []), max, run);
    var r := Placement.After(Placement.Registry([], []), max, run);
    forall i | 0 <= i < |r.servers|
      ensures var s := r.servers[i]; s.first != i && s.second != i && (s.first == s.second ==> s.first == -1)
    {
      assert if |r.servers| >= 3 then Placement.BackedUp(r, i) else Placement.Alone(r.servers[i]);
    }
  }

  /** With three servers or more the backups that replication sends to are the
      two written down for the server's place in the order of registration. */
  lemma {:induction false} BackupsOf(max: nat, run: seq<Placement.Event>, i: nat, b: nat)
    requires var n := |Placement.After(Placement.Registry([], []), max, run).servers|; n >= 3 && i < n
    ensures var r := Placement.After(Placement.Registry([], []), max, run);
            && |ConfigOf(r).first| == |ConfigOf(r).second| == |r.servers|
            && ConfigOf(r).roots[i] == r.servers[i].name
            && (ConfigOf(r).Backup(i, b) <==> b == Placement.FirstOf(i) || b == Placement.SecondOf(i))
  {
    Placement.PlacementExact(max, run, i, b);
  }

  /** The mirror of server `a` holds nothing that is not in the tree. */
  ghost predicate NothingStale(fs: FS, b: string, a: string, t: Tree) {
    forall q :: [FOLDER, b, a] + q in fs ==> TreeAt(t, q).Some?
  }

  /** The effect of a conflict-free copy of server `a` to server `b`. */
  function Backed(fs: FS, b: string, a: string, t: Tree): FS {
    Graft(Mkdir(fs, [FOLDER, b]), [FOLDER, b, a], t)
  }

  lemma {:induction false} BackedLook(fs: FS, b: string, a: string, t: Tree, p: Path)
    requires Regular(t)
    ensures Look(Backed(fs, b, a, t), p) ==
            if Below([FOLDER, b, a], p) && TreeAt(t, p[3..]).Some? then TreeAt(t, p[3..])
            else Look(Mkdir(fs, [FOLDER, b]), p)
  {
    GraftMeaning(Mkdir(fs, [FOLDER, b]), [FOLDER, b, a], t, p);
  }

  /** A graft gives an exact mirror if and only if nothing stale was there: old
      mirrors are never removed. */
  lemma {:induction false} BackedMirrors(fs: FS, b: string, a: string, t: Tree, d: FS)
    requires Regular(t) && Exactly(d, [a], t)
    ensures Mirrors(Backed(fs, b, a, t), [FOLDER, b], d, a) <==> NothingStale(fs, b, a, t)
  {
    var fs', at := Backed(fs, b, a, t), [FOLDER, b];
    forall q
      ensures SameAt(fs', at, d, [a] + q) <==> ([FOLDER, b, a] + q in fs ==> TreeAt(t, q).Some?)
    {
      var p := [FOLDER, b, a] + q;
      assert at + ([a] + q) == p && p[..3] == [FOLDER, b, a] && p[3..] == q;
      BackedLook(fs, b, a, t, p);
      assert Look(d, [a] + q) == TreeAt(t, q);
      assert Look(Mkdir(fs, at), p) == Look(fs, p);
    }
    if Mirrors(fs', at, d, a) {
      forall q
        ensures [FOLDER, b, a] + q in fs ==> TreeAt(t, q).Some?
      {
        assert SameAt(fs', at, d, [a] + q);
      }
    }
    if NothingStale(fs, b, a, t) {
      forall x: Path | x != [] && x[0] == a
        ensures SameAt(fs', at, d, x)
      {
        assert x == [a] + x[1..];
      }
    }
  }

  /** No entry of the old mirror is of the other kind than in the tree. */
  predicate NothingInTheWay(fs: FS, b: string, a: string, t: Tree) {
    ConflictFree(Mkdir(fs, [FOLDER, b]), [FOLDER, b, a], t)
  }

  /** The system during the first copy of server `a` to server `b`. */
  ghost function Copying(fs: FS, b: string, a: string, t: Tree): CopyProtocol.System {
    CopyProtocol.Initial(Script(Base(b), "./" + a, t), fs)
  }

  /** A run of that copy that cannot be continued. */
  ghost predicate IsCopy(fs: FS, b: string, a: string, t: Tree, run: seq<CopyProtocol.Action>) {
    && CopyProtocol.IsRun(true, Copying(fs, b, a, t), run)
    && forall x :: !CopyProtocol.Enabled(CopyProtocol.After(true, Copying(fs, b, a, t), run), x)
  }

  lemma {:induction false} CopySite(a: string, b: string)
    requires FileName(a) && FileName(b)
    ensures Resolve(Base(b)) == [FOLDER, b] && Resolve("./" + a) == [a]
    ensures Resolve(Base(b)) + Resolve("./" + a) == [FOLDER, b, a]
  {
    BaseResolves(b);
    DotSlash(a);
    SplitName(a, RESOLVE_SKIP);
  }

  /** Every finished run of a conflict-free first copy has this effect. */
  lemma {:induction false} InitialCopyBacks(a: string, b: string, t: Tree, fs: FS, run: seq<CopyProtocol.Action>)
    requires FileName(a) && FileName(b) && CopyProtocol.Copyable(Base(b), "./" + a, t, fs)
    requires NothingInTheWay(fs, b, a, t) && IsCopy(fs, b, a, t, run)
    ensures CopyProtocol.After(true, Copying(fs, b, a, t), run).fs == Backed(fs, b, a, t)
  {
    CopySite(a, b);
    SentIsGraft(Mkdir(fs, [FOLDER, b]), [FOLDER, b, a], t);
    CopyProtocol.CopyFate(true, Base(b), "./" + a, t, fs, run);
  }

  /** In no state of any run is the mirror exact if something stale or of the
      other kind was there before. */
  lemma {:induction false} MirrorNeedsClearing(
      a: string, b: string, t: Tree, fs: FS, d: FS, run: seq<CopyProtocol.Action>)
    requires FileName(a) && FileName(b) && Regular(t) && Exactly(d, [a], t)
    requires CopyProtocol.IsRun(true, Copying(fs, b, a, t), run)
    requires Mirrors(CopyProtocol.After(true, Copying(fs, b, a, t), run).fs, [FOLDER, b], d, a)
    ensures NothingStale(fs, b, a, t) && NothingInTheWay(fs, b, a, t)
  {
    var fs', at := CopyProtocol.After(true, Copying(fs, b, a, t), run).fs, [FOLDER, b, a];
    CopyProtocol.RunKeepsKinds(true, Copying(fs, b, a, t), run);
    forall q | at + q in fs
      ensures TreeAt(t, q).Some? && (fs[at + q] == Dir <==> TreeAt(t, q).value == Dir)
    {
      assert [FOLDER, b] + ([a] + q) == at + q;
      assert SameAt(fs', [FOLDER, b], d, [a] + q);
      assert Look(d, [a] + q) == TreeAt(t, q);
    }
    var fs1 := Mkdir(fs, [FOLDER, b]);
    forall q | TreeAt(t, q).Some? && at + q in fs1
      ensures fs1[at + q] == Dir <==> TreeAt(t, q).value == Dir
    {
      assert at + q != [FOLDER, b];
    }
    AgreesConflictFree(fs1, at, t);
  }

  /** The first copy, run as far as it goes, makes an exact mirror if and only if
      the old mirror held nothing that the primary lacks and nothing of the other
      kind. */
  lemma {:induction false} InitialCopyExact(a: string, b: string, t: Tree, fs: FS, d: FS, run: seq<CopyProtocol.Action>)
    requires FileName(a) && FileName(b) && Exactly(d, [a], t)
    requires CopyProtocol.Copyable(Base(b), "./" + a, t, fs) && IsCopy(fs, b, a, t, run)
    ensures Mirrors(CopyProtocol.After(true, Copying(fs, b, a, t), run).fs, [FOLDER, b], d, a) <==>
            NothingStale(fs, b, a, t) && NothingInTheWay(fs, b, a, t)
  {
    if NothingStale(fs, b, a, t) && NothingInTheWay(fs, b, a, t) {
      InitialCopyBacks(a, b, t, fs, run);
      BackedMirrors(fs, b, a, t, d);
    }
    if Mirrors(CopyProtocol.After(true, Copying(fs, b, a, t), run).fs, [FOLDER, b], d, a) {
      MirrorNeedsClearing(a, b, t, fs, d, run);
    }
  }

  /** A disk with an old mirror of `a` that holds one entry. */
  ghost function OldMirror(b: string, a: string, x: string, n: Node): FS {
    map[[] := Dir, [FOLDER] := Dir, [FOLDER, b] := Dir, [FOLDER, b, a] := Dir, [FOLDER, b, a, x] := n]
  }

  /** A failing input: a file that the primary has removed meanwhile. */
  lemma {:induction false} StaleFileStays(a: string, b: string, x: string, run: seq<CopyProtocol.Action>)
    requires FileName(a) && FileName(b)
    requires CopyProtocol.IsRun(true, Copying(OldMirror(b, a, x, File("")), b, a, Folder([])), run)
    ensures var y := CopyProtocol.After(true, Copying(OldMirror(b, a, x, File("")), b, a, Folder([])), run);
            !Mirrors(y.fs, [FOLDER, b], map[[a] := Dir], a)
  {
    var fs, t := OldMirror(b, a, x, File("")), Folder([]);
    var d: FS := map[[a] := Dir];
    forall q
      ensures Look(d, [a] + q) == TreeAt(t, q)
    {
      assert q == [] ==> [a] + q == [a];
      assert q != [] ==> |[a] + q| > 1 && EntriesAt([], q) == None;
    }
    assert [FOLDER, b, a] + [x] == [FOLDER, b, a, x] && EntriesAt([], [x]) == None;
    assert !NothingStale(fs, b, a, t);
    var y := CopyProtocol.After(true, Copying(fs, b, a, t), run);
    if Mirrors(y.fs, [FOLDER, b], d, a) {
      MirrorNeedsClearing(a, b, t, fs, d, run);
    }
  }

  lemma {:induction false} OneFileAt(x: string, q: Path)
    ensures TreeAt(Folder([Entry(x, Leaf("y"))]), q) ==
            if q == [] then Some(Dir) else if q == [x] then Some(File("y")) else None
  {
    var es := [Entry(x, Leaf("y"))];
    assert es[0].name == x && es[0].tree == Leaf("y") && es[1..] == [];
    if q != [] {
      assert EntriesAt([], q) == None;
      assert q[0] == x ==> q == [x] + q[1..];
      assert q[0] == x && q[1..] == [] ==> q == [x];
      assert EntriesAt(es, q) == if q[0] == x then TreeAt(es[0].tree, q[1..]) else EntriesAt(es[1..], q);
    }
  }

  lemma {:induction false} OneFileHeld(a: string, x: string)
    ensures var t := Folder([Entry(x, Leaf("y"))]);
            Regular(t) && Exactly(map[[a] := Dir, [a, x] := File("y")], [a], t) && TreeAt(t, [x]) == Some(File("y"))
  {
    var d: FS := map[[a] := Dir, [a, x] := File("y")];
    assert [Entry(x, Leaf("y"))][1..] == [];
    OneFileAt(x, [x]);
    forall q
      ensures Look(d, [a] + q) == TreeAt(Folder([Entry(x, Leaf("y"))]), q)
    {
      OneFileAt(x, q);
      assert q == [] ==> [a] + q == [a];
      assert ([a] + q)[1..] == q && [a, x][1..] == [x];
      assert q == [x] ==> [a] + q == [a, x];
    }
  }

  lemma {:induction false} OldMirrorHung(b: string, a: string, x: string, n: Node)
    ensures Hung(OldMirror(b, a, x, n), [])
  {
    var fs := OldMirror(b, a, x, n);
    assert [FOLDER][..0] == [] && [FOLDER, b][..1] == [FOLDER];
    assert [FOLDER, b, a][..2] == [FOLDER, b] && [FOLDER, b, a, x][..3] == [FOLDER, b, a];
    assert ParentIsDir(fs, [FOLDER]) && ParentIsDir(fs, [FOLDER, b]);
    assert ParentIsDir(fs, [FOLDER, b, a]) && ParentIsDir(fs, [FOLDER, b, a, x]);
  }

  /** Another: a folder of the old mirror where the primary has a file now.  The
      mirror is exact in no state of any run, */
  lemma {:induction false} FolderInTheWay(a: string, b: string, x: string, run: seq<CopyProtocol.Action>)
    requires FileName(a) && FileName(b)
    requires CopyProtocol.IsRun(true, Copying(OldMirror(b, a, x, Dir), b, a, Folder([Entry(x, Leaf("y"))])), run)
    ensures var y := CopyProtocol.After(true, Copying(OldMirror(b, a, x, Dir), b, a, Folder([Entry(x, Leaf("y"))])), run);
            !Mirrors(y.fs, [FOLDER, b], map[[a] := Dir, [a, x] := File("y")], a)
  {
    var fs, t := OldMirror(b, a, x, Dir), Folder([Entry(x, Leaf("y"))]);
    var d: FS := map[[a] := Dir, [a, x] := File("y")];
    OneFileHeld(a, x);
    var fs1 := Mkdir(fs, [FOLDER, b]);
    assert [FOLDER, b, a] + [x] == [FOLDER, b, a, x] && fs1 == fs;
    var y := CopyProtocol.After(true, Copying(fs, b, a, t), run);
    if Mirrors(y.fs, [FOLDER, b], d, a) {
      MirrorNeedsClearing(a, b, t, fs, d, run);
      ConflictFreeAgrees(fs1, [FOLDER, b, a], t, [x]);
    }
  }

  lemma {:induction false} OldMirrorCopyable(a: string, b: string, x: string, n: Node, t: Tree)
    requires FileName(a) && FileName(b) && Speakable(Base(b), "./" + a, t) && Regular(t)
    ensures CopyProtocol.Copyable(Base(b), "./" + a, t, OldMirror(b, a, x, n))
    ensures Mkdir(OldMirror(b, a, x, n), Resolve(Base(b))) == OldMirror(b, a, x, n)
  {
    CopySite(a, b);
    assert [FOLDER, b, a][..2] == [FOLDER, b];
  }

  lemma {:induction false} OneFileQuiet(x: string)
    ensures Conflicts.EveryFile(Conflicts.Quiet, Folder([Entry(x, Leaf("y"))]))
  {
    var es := [Entry(x, Leaf("y"))];
    var file := Leaf("y");
    assert Conflicts.EveryFile(Conflicts.Quiet, file) && Conflicts.EveryEntry(Conflicts.Quiet, []);
    assert es[0].tree == file && es[1..] == [];
    assert Conflicts.EveryEntry(Conflicts.Quiet, es);
  }

  lemma {:induction false} OldMirrorShut(a: string, b: string, x: string)
    ensures !Conflicts.Opens(OldMirror(b, a, x, Dir), [FOLDER, b, a], Folder([Entry(x, Leaf("y"))]))
  {
    OneFileAt(x, [x]);
    assert [FOLDER, b, a] + [x] == [FOLDER, b, a, x];
    assert Conflicts.IsFile(TreeAt(Folder([Entry(x, Leaf("y"))]), [x])) && !Conflicts.Has(Conflicts.Blank, "y");
    assert !Conflicts.Open(OldMirror(b, a, x, Dir), [FOLDER, b, a], [x]);
  }

  /** and the copy ends with the sender waiting. */
  lemma {:induction false} FolderInTheWayHangs(a: string, b: string, x: string, run: seq<CopyProtocol.Action>)
    requires FileName(a) && FileName(b) && Speakable(Base(b), "./" + a, Folder([Entry(x, Leaf("y"))]))
    requires IsCopy(OldMirror(b, a, x, Dir), b, a, Folder([Entry(x, Leaf("y"))]), run)
    ensures CopyProtocol.After(true, Copying(OldMirror(b, a, x, Dir), b, a, Folder([Entry(x, Leaf("y"))])), run)
            .sender.Waiting?
  {
    CopySite(a, b);
    OneFileHeld(a, x);
    OneFileQuiet(x);
    OldMirrorHung(b, a, x, Dir);
    OldMirrorCopyable(a, b, x, Dir, Folder([Entry(x, Leaf("y"))]));
    OldMirrorShut(a, b, x);
    Conflicts.EveryFileShut(Conflicts.Quiet, OldMirror(b, a, x, Dir), [FOLDER, b, a], Folder([Entry(x, Leaf("y"))]));
    Conflicts.ConflictDeadlocks(true, Base(b), "./" + a, Folder([Entry(x, Leaf("y"))]), OldMirror(b, a, x, Dir), run);
  }

  /** The backup folder is there, and the mirror of `a` at `b` can be made. */
  ghost predicate Clearable(fs: FS, b: string, a: string, t: Tree) {
    && IsDir(fs, [FOLDER]) && ([FOLDER, b] in fs ==> IsDir(fs, [FOLDER, b]))
    && NothingStale(fs, b, a, t) && NothingInTheWay(fs, b, a, t)
  }

  lemma {:induction false} ClearableCopyable(fs: FS, b: string, a: string, t: Tree)
    requires FileName(a) && FileName(b) && Regular(t) && Speakable(Base(b), "./" + a, t) && Clearable(fs, b, a, t)
    ensures CopyProtocol.Copyable(Base(b), "./" + a, t, fs)
  {
    CopySite(a, b);
    assert [FOLDER, b][..1] == [FOLDER] && [FOLDER, b, a][..2] == [FOLDER, b];
  }

  /** One ordered copy, from server `o.0` to server `o.1`, run as far as it goes. */
  ghost function CopyOne(
      cfg: Config, trees: seq<Tree>, disks: seq<FS>, o: (nat, nat), run: seq<CopyProtocol.Action>): seq<FS>
    requires |trees| == |disks| == |cfg.roots| && o.0 < |disks| && o.1 < |disks|
    requires IsCopy(disks[o.1], cfg.roots[o.1], cfg.roots[o.0], trees[o.0], run)
  {
    disks[o.1 := CopyProtocol.After(true, Copying(disks[o.1], cfg.roots[o.1], cfg.roots[o.0], trees[o.0]), run).fs]
  }

  ghost predicate InRange(orders: seq<(nat, nat)>, n: nat) {
    forall k | 0 <= k < |orders| :: orders[k].0 < n && orders[k].1 < n && orders[k].0 != orders[k].1
  }

  /** The ordered copies one after the other, each in its own way. */
  ghost predicate AreCopies(
      cfg: Config, trees: seq<Tree>, disks: seq<FS>, orders: seq<(nat, nat)>, runs: seq<seq<CopyProtocol.Action>>)
    requires |trees| == |disks| == |cfg.roots| && InRange(orders, |disks|)
    decreases |orders|
  {
    && |runs| == |orders|
    && (orders == [] ||
        var (i, b) := orders[0];
        && IsCopy(disks[b], cfg.roots[b], cfg.roots[i], trees[i], runs[0])
        && AreCopies(cfg, trees, CopyOne(cfg, trees, disks, orders[0], runs[0]), orders[1..], runs[1..]))
  }

  ghost function CopyAll(
      cfg: Config, trees: seq<Tree>, disks: seq<FS>, orders: seq<(nat, nat)>, runs: seq<seq<CopyProtocol.Action>>)
      : (r: seq<FS>)
    requires |trees| == |disks| == |cfg.roots| && InRange(orders, |disks|)
    requires AreCopies(cfg, trees, disks, orders, runs)
    ensures |r| == |disks|
    decreases |orders|
  {
    if orders == [] then disks
    else CopyAll(cfg, trees, CopyOne(cfg, trees, disks, orders[0], runs[0]), orders[1..], runs[1..])
  }

  /** Every server holds its tree, and every mirror that is asked for can be made. */
  ghost predicate Ready(cfg: Config, trees: seq<Tree>, disks: seq<FS>, pairs: seq<(nat, nat)>) {
    && cfg.Ok() && |trees| == |disks| == |cfg.roots| && InRange(pairs, |disks|)
    && (forall i | 0 <= i < |disks| :: Regular(trees[i]) && Exactly(disks[i], [cfg.roots[i]], trees[i]))
    && (forall k | 0 <= k < |pairs| :: CanBack(cfg, trees, disks, pairs[k].0, pairs[k].1))
  }

  ghost predicate CanBack(cfg: Config, trees: seq<Tree>, disks: seq<FS>, i: nat, b: nat)
    requires i < |disks| == |trees| == |cfg.roots| && b < |disks|
  {
    && Speakable(Base(cfg.roots[b]), "./" + cfg.roots[i], trees[i])
    && Clearable(disks[b], cfg.roots[b], cfg.roots[i], trees[i])
  }

  lemma {:induction false} BackedKeepsOwn(fs: FS, b: string, a: string, t: Tree, own: string, tree: Tree)
    requires Regular(t) && own != FOLDER && Exactly(fs, [own], tree)
    ensures Exactly(Backed(fs, b, a, t), [own], tree)
  {
    forall q
      ensures Look(Backed(fs, b, a, t), [own] + q) == TreeAt(tree, q)
    {
      var p := [own] + q;
      BackedLook(fs, b, a, t, p);
      assert |p| >= 3 ==> p[..3][0] == p[0];
      assert p[0] != FOLDER && [FOLDER, b][0] == FOLDER;
      assert Look(fs, p) == TreeAt(tree, q);
    }
  }

  /** What a copy leaves at the mirror of `c`. */
  lemma {:induction false} BackedAt(fs: FS, b: string, a: string, t: Tree, c: string, q: Path)
    requires Regular(t)
    ensures Look(Backed(fs, b, a, t), [FOLDER, b, c] + q) ==
            if c == a && TreeAt(t, q).Some? then TreeAt(t, q) else Look(fs, [FOLDER, b, c] + q)
  {
    var p := [FOLDER, b, c] + q;
    BackedLook(fs, b, a, t, p);
    assert p[..3] == [FOLDER, b, c] && p[3..] == q;
    assert p[..3][2] == c && [FOLDER, b, a][2] == a;
    assert Look(Mkdir(fs, [FOLDER, b]), p) == Look(fs, p);
  }

  lemma {:induction false} BackedFolders(fs: FS, b: string, a: string, t: Tree)
    requires Regular(t) && IsDir(fs, [FOLDER]) && ([FOLDER, b] in fs ==> IsDir(fs, [FOLDER, b]))
    ensures IsDir(Backed(fs, b, a, t), [FOLDER]) && IsDir(Backed(fs, b, a, t), [FOLDER, b])
  {
    BackedLook(fs, b, a, t, [FOLDER]);
    BackedLook(fs, b, a, t, [FOLDER, b]);
    assert [FOLDER, b][..1] == [FOLDER];
    assert Look(Mkdir(fs, [FOLDER, b]), [FOLDER]) == Some(Dir);
    assert Look(Mkdir(fs, [FOLDER, b]), [FOLDER, b]) == Some(Dir);
  }

  /** A copy keeps every mirror on that disk makeable. */
  lemma {:induction false} BackedClearable(fs: FS, b: string, a: string, t: Tree, c: string, tree: Tree)
    requires Regular(t) && Regular(tree) && Clearable(fs, b, c, tree) && (c == a ==> tree == t)
    ensures Clearable(Backed(fs, b, a, t), b, c, tree)
  {
    var fs', at := Backed(fs, b, a, t), [FOLDER, b, c];
    var fs1, fs1' := Mkdir(fs, [FOLDER, b]), Mkdir(fs', [FOLDER, b]);
    BackedFolders(fs, b, a, t);
    forall q
      ensures at + q in fs' ==> TreeAt(tree, q).Some?
      ensures TreeAt(tree, q).Some? && at + q in fs1' ==> (fs1'[at + q] == Dir <==> TreeAt(tree, q).value == Dir)
    {
      BackedAt(fs, b, a, t, c, q);
      assert at + q in fs ==> TreeAt(tree, q).Some?;
      assert Look(fs1', at + q) == Look(fs', at + q) && Look(fs1, at + q) == Look(fs, at + q);
      if TreeAt(tree, q).Some? && at + q in fs1 {
        ConflictFreeAgrees(fs1, at, tree, q);
      }
    }
    AgreesConflictFree(fs1', at, tree);
  }

  /** A finished copy is a graft when the servers are ready. */
  lemma {:induction false} CopyOneIs(
      cfg: Config, trees: seq<Tree>, disks: seq<FS>, pairs: seq<(nat, nat)>, o: (nat, nat),
      run: seq<CopyProtocol.Action>)
    requires Ready(cfg, trees, disks, pairs) && o in pairs
    requires IsCopy(disks[o.1], cfg.roots[o.1], cfg.roots[o.0], trees[o.0], run)
    ensures o.0 < |disks| && o.1 < |disks| && o.0 != o.1
    ensures CopyOne(cfg, trees, disks, o, run) ==
            disks[o.1 := Backed(disks[o.1], cfg.roots[o.1], cfg.roots[o.0], trees[o.0])]
  {
    var i, b := o.0, o.1;
    assert CanBack(cfg, trees, disks, i, b);
    ClearableCopyable(disks[b], cfg.roots[b], cfg.roots[i], trees[i]);
    InitialCopyBacks(cfg.roots[i], cfg.roots[b], trees[i], disks[b], run);
  }

  lemma {:induction false} CopyOneReady(
      cfg: Config, trees: seq<Tree>, disks: seq<FS>, pairs: seq<(nat, nat)>, o: (nat, nat),
      run: seq<CopyProtocol.Action>)
    requires Ready(cfg, trees, disks, pairs) && o in pairs
    requires IsCopy(disks[o.1], cfg.roots[o.1], cfg.roots[o.0], trees[o.0], run)
    ensures Ready(cfg, trees, CopyOne(cfg, trees, disks, o, run), pairs)
  {
    CopyOneIs(cfg, trees, disks, pairs, o, run);
    var next, b := CopyOne(cfg, trees, disks, o, run), o.1;
    var a, t := cfg.roots[o.0], trees[o.0];
    BackedKeepsOwn(disks[b], cfg.roots[b], a, t, cfg.roots[b], trees[b]);
    forall k | 0 <= k < |pairs|
      ensures CanBack(cfg, trees, next, pairs[k].0, pairs[k].1)
    {
      var i := pairs[k].0;
      assert CanBack(cfg, trees, disks, i, pairs[k].1);
      if pairs[k].1 == b {
        assert cfg.roots[i] == a ==> i == o.0;
        BackedClearable(disks[b], cfg.roots[b], a, t, cfg.roots[i], trees[i]);
      }
    }
  }

  /** A later copy to the same server leaves the mirror of another one alone. */
  lemma {:induction false} BackedKeepsMirror(fs: FS, b: string, a: string, t: Tree, c: string, d: FS)
    requires Regular(t) && c != a && Mirrors(fs, [FOLDER, b], d, c)
    ensures Mirrors(Backed(fs, b, a, t), [FOLDER, b], d, c)
  {
    forall x: Path | x != [] && x[0] == c
      ensures SameAt(Backed(fs, b, a, t), [FOLDER, b], d, x)
    {
      assert SameAt(fs, [FOLDER, b], d, x);
      assert [FOLDER, b] + x == [FOLDER, b, c] + x[1..];
      BackedAt(fs, b, a, t, c, x[1..]);
    }
  }

  /** The mirror of `i` at `b` is exact. */
  ghost predicate Exact(cfg: Config, disks: seq<FS>, i: nat, b: nat)
    requires cfg.Ok() && |disks| == |cfg.roots| && i < |disks| && b < |disks|
  {
    Mirrors(disks[b], cfg.At(b), disks[i], cfg.roots[i])
  }

  lemma {:induction false} SameTreeMirror(fs: FS, at: Path, d: FS, e: FS, r: string, t: Tree)
    requires Exactly(d, [r], t) && Exactly(e, [r], t) && Mirrors(fs, at, d, r)
    ensures Mirrors(fs, at, e, r)
  {
    forall x: Path | x != [] && x[0] == r
      ensures SameAt(fs, at, e, x)
    {
      assert x == [r] + x[1..] && SameAt(fs, at, d, x);
      assert Look(d, [r] + x[1..]) == Look(e, [r] + x[1..]);
    }
  }

  lemma {:induction false} CopyOneExact(
      cfg: Config, trees: seq<Tree>, disks: seq<FS>, pairs: seq<(nat, nat)>, o: (nat, nat),
      run: seq<CopyProtocol.Action>, i: nat, b: nat)
    requires Ready(cfg, trees, disks, pairs) && o in pairs && i < |disks| && b < |disks|
    requires IsCopy(disks[o.1], cfg.roots[o.1], cfg.roots[o.0], trees[o.0], run)
    requires o == (i, b) || Exact(cfg, disks, i, b)
    ensures Exact(cfg, CopyOne(cfg, trees, disks, o, run), i, b)
  {
    CopyOneIs(cfg, trees, disks, pairs, o, run);
    CopyOneReady(cfg, trees, disks, pairs, o, run);
    var next := CopyOne(cfg, trees, disks, o, run);
    var r, t := cfg.roots[i], trees[i];
    if o == (i, b) {
      assert CanBack(cfg, trees, disks, i, b);
      BackedMirrors(disks[b], cfg.roots[b], r, t, next[i]);
    } else {
      if o.1 == b {
        assert cfg.roots[o.0] == r ==> o.0 == i;
        BackedKeepsMirror(disks[b], cfg.roots[b], cfg.roots[o.0], trees[o.0], r, disks[i]);
      }
      SameTreeMirror(next[b], cfg.At(b), disks[i], next[i], r, t);
    }
  }

  lemma {:induction false} CopyAllExact(
      cfg: Config, trees: seq<Tree>, disks: seq<FS>, pairs: seq<(nat, nat)>, orders: seq<(nat, nat)>,
      runs: seq<seq<CopyProtocol.Action>>, i: nat, b: nat)
    requires Ready(cfg, trees, disks, pairs) && InRange(orders, |disks|) && i < |disks| && b < |disks|
    requires (forall o | o in orders :: o in pairs) && AreCopies(cfg, trees, disks, orders, runs)
    requires (i, b) in orders || Exact(cfg, disks, i, b)
    ensures Exact(cfg, CopyAll(cfg, trees, disks, orders, runs), i, b)
    decreases |orders|
  {
    if orders != [] {
      CopyOneReady(cfg, trees, disks, pairs, orders[0], runs[0]);
      if orders[0] == (i, b) || Exact(cfg, disks, i, b) {
        CopyOneExact(cfg, trees, disks, pairs, orders[0], runs[0], i, b);
      } else {
        assert (i, b) in orders[1..];
      }
      CopyAllExact(cfg, trees, CopyOne(cfg, trees, disks, orders[0], runs[0]), pairs, orders[1..], runs[1..], i, b);
    }
  }

  lemma {:induction false} CopyAllReady(
      cfg: Config, trees: seq<Tree>, disks: seq<FS>, pairs: seq<(nat, nat)>, orders: seq<(nat, nat)>,
      runs: seq<seq<CopyProtocol.Action>>)
    requires Ready(cfg, trees, disks, pairs) && InRange(orders, |disks|)
    requires (forall o | o in orders :: o in pairs) && AreCopies(cfg, trees, disks, orders, runs)
    ensures Ready(cfg, trees, CopyAll(cfg, trees, disks, orders, runs), pairs)
    decreases |orders|
  {
    if orders != [] {
      CopyOneReady(cfg, trees, disks, pairs, orders[0], runs[0]);
      CopyAllReady(cfg, trees, CopyOne(cfg, trees, disks, orders[0], runs[0]), pairs, orders[1..], runs[1..]);
    }
  }

  lemma {:induction false} BackupsOrdered(r: Placement.Registry, i: nat, b: nat)
    requires Placement.Inv(r) && i < |r.servers|
    ensures ConfigOf(r).Backup(i, b) ==> (i, b) in r.orders
  {
    assert if |r.servers| >= 3 then Placement.BackedUp(r, i) else Placement.Alone(r.servers[i]);
  }

  lemma {:induction false} OrdersInRange(r: Placement.Registry, n: nat)
    requires Placement.OrdersOk(r) && n == |r.servers|
    ensures InRange(r.orders, n)
  {
  }

  /** Mirrors from the copies, tries from the listings, nothing in flight. */
  ghost function Deployed(
      cfg: Config, trees: seq<Tree>, disks: seq<FS>, orders: seq<(nat, nat)>, runs: seq<seq<CopyProtocol.Action>>): State
    requires |trees| == |disks| == |cfg.roots| && InRange(orders, |disks|)
    requires AreCopies(cfg, trees, disks, orders, runs)
  {
    State(CopyAll(cfg, trees, disks, orders, runs),
          seq(|disks|, i requires 0 <= i < |disks| => Listed(cfg.roots[i], trees[i])),
          seq(|disks|, _ => []))
  }

  /** The root of a server is a folder, and every name below it is a component of a path. */
  predicate Listable(t: Tree) {
    t.Folder? && Listing.Spelled(t)
  }

  /** A server's index is exact if and only if its tree is within the fan-out limit. */
  lemma {:induction false} DeployedIndexAt(
      cfg: Config, trees: seq<Tree>, disks: seq<FS>, orders: seq<(nat, nat)>,
      runs: seq<seq<CopyProtocol.Action>>, i: nat)
    requires Ready(cfg, trees, disks, orders) && AreCopies(cfg, trees, disks, orders, runs)
    requires i < |disks| && Listable(trees[i])
    ensures IndexAt(cfg, Deployed(cfg, trees, disks, orders, runs), i) <==> Listing.Indexable(trees[i])
  {
    var s := Deployed(cfg, trees, disks, orders, runs);
    CopyAllReady(cfg, trees, disks, orders, orders, runs);
    assert Exactly(s.disks[i], [cfg.roots[i]], trees[i]);
    ExactlyHung(s.disks[i], cfg.roots[i], trees[i]);
    IndexedTracks(s.disks[i], cfg.roots[i], trees[i]);
  }

  lemma {:induction false} DeployedIndex(
      cfg: Config, trees: seq<Tree>, disks: seq<FS>, orders: seq<(nat, nat)>, runs: seq<seq<CopyProtocol.Action>>)
    requires Ready(cfg, trees, disks, orders) && AreCopies(cfg, trees, disks, orders, runs)
    requires forall i | 0 <= i < |trees| :: Listable(trees[i])
    ensures IndexOk(cfg, Deployed(cfg, trees, disks, orders, runs)) <==>
            forall i | 0 <= i < |trees| :: Listing.Indexable(trees[i])
  {
    var s := Deployed(cfg, trees, disks, orders, runs);
    forall i | 0 <= i < |trees|
      ensures IndexAt(cfg, s, i) <==> Listing.Indexable(trees[i])
    {
      DeployedIndexAt(cfg, trees, disks, orders, runs, i);
    }
  }

  lemma {:induction false} DeployedFresh(
      r: Placement.Registry, trees: seq<Tree>, disks: seq<FS>, runs: seq<seq<CopyProtocol.Action>>)
    requires Placement.Inv(r) && Ready(ConfigOf(r), trees, disks, r.orders)
    requires AreCopies(ConfigOf(r), trees, disks, r.orders, runs)
    ensures Replication.Fresh(ConfigOf(r), Deployed(ConfigOf(r), trees, disks, r.orders, runs))
  {
    var cfg := ConfigOf(r);
    var s := Deployed(cfg, trees, disks, r.orders, runs);
    forall i, b | 0 <= i < |disks| && 0 <= b < |disks| && cfg.Backup(i, b)
      ensures Mirrors(s.disks[b], cfg.At(b), s.disks[i], cfg.roots[i])
    {
      BackupsOrdered(r, i, b);
      CopyAllExact(cfg, trees, disks, r.orders, r.orders, runs, i, b);
      assert Exact(cfg, s.disks, i, b);
    }
  }

  /** After any history of registrations, once the copies it ordered have run as
      far as they go, every mirror is exact; and every index is exact if and only
      if no folder that is shown shows more entries than a trie node has slots.
      Replication starts from there. */
  lemma {:induction false} CopiesMakeFresh(
      max: nat, history: seq<Placement.Event>, trees: seq<Tree>, disks: seq<FS>, runs: seq<seq<CopyProtocol.Action>>)
    requires var r := Placement.After(Placement.Registry([], []), max, history);
             Ready(ConfigOf(r), trees, disks, r.orders) && AreCopies(ConfigOf(r), trees, disks, r.orders, runs)
    ensures var r := Placement.After(Placement.Registry([], []), max, history);
            var s := Deployed(ConfigOf(r), trees, disks, r.orders, runs);
            && Replication.Fresh(ConfigOf(r), s)
            && ((forall i | 0 <= i < |trees| :: Listable(trees[i])) ==>
                  (IndexOk(ConfigOf(r), s) <==> forall i | 0 <= i < |trees| :: Listing.Indexable(trees[i])))
  {
    var r := Placement.After(Placement.Registry([], []), max, history);
    Placement.RunKeeps(Placement.Registry([], []), max, history);
    DeployedFresh(r, trees, disks, runs);
    if forall i | 0 <= i < |trees| :: Listable(trees[i]) {
      DeployedIndex(ConfigOf(r), trees, disks, r.orders, runs);
    }
  }

  /** The orders of a history are between servers it registered. */
  lemma {:induction false} HistoryInRange(max: nat, history: seq<Placement.Event>)
    ensures var r := Placement.After(Placement.Registry([], []), max, history); InRange(r.orders, |r.servers|)
  {
    Placement.RunOrders(Placement.Registry([], []), max, history);
    var r := Placement.After(Placement.Registry([], []), max, history);
    OrdersInRange(r, |r.servers|);
  }
}
