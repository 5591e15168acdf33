/** Replication of creates and removes: a primary's successful command is sent
    on to its backups, which apply it to their mirror some time later. */
module Replication {
  import opened Paths
  import opened PathSets
  import opened Files
  import opened MirrorPaths
  import opened Disks
  import Listing

  datatype Cmd = Cmd(op: Op, path: string)

  /** A command on a path strictly below some server's root. */
  predicate Good(c: Cmd) {
    Proper(c.path) && |Parse(c.path)| >= 3
  }

  function Rel(c: Cmd): Path
    requires Good(c)
  {
    Parse(c.path)[1..]
  }

  /** Server roots, and for every server its two backups or -1. */
  datatype Config = Config(roots: seq<string>, first: seq<int>, second: seq<int>) {
    ghost predicate Ok() {
      && |first| == |second| == |roots|
      && (forall i | 0 <= i < |roots| :: FileName(roots[i]) && roots[i] != FOLDER)
      && (forall i, j | 0 <= i < j < |roots| :: roots[i] != roots[j])
      && (forall i | 0 <= i < |roots| :: first[i] != i && second[i] != i && (first[i] == second[i] ==> first[i] == -1))
    }

    predicate Backup(i: nat, b: nat)
      requires i < |first| == |second|
    {
      first[i] == b || second[i] == b
    }

    function At(b: nat): Path
      requires b < |roots|
    {
      [FOLDER, roots[b]]
    }
  }

  /** Per server: its disk, its trie at the naming server, and the backup
      commands on their way to it. */
  datatype State = State(disks: seq<FS>, tries: seq<set<Path>>, channels: seq<seq<Cmd>>)

  predicate Sized(cfg: Config, s: State) {
    |s.disks| == |s.tries| == |s.channels| == |cfg.roots|
  }

  datatype Step = Client(server: nat, cmd: Cmd) | Deliver(server: nat)

  predicate Creates(op: Op) {
    op.MakeFolder? || op.Touch?
  }

  /** The naming server finds the server: by the parent for a create, by the path for a remove. */
  predicate Found(trie: set<Path>, c: Cmd) {
    Parse(if Creates(c.op) then CutLast(c.path) else c.path) in trie
  }

  predicate Allowed(cfg: Config, s: State, step: Step) {
    match step
    case Client(i, c) => i < |cfg.roots| && Good(c) && Parse(c.path)[1] == cfg.roots[i]
    case Deliver(b) => b < |s.channels| && s.channels[b] != []
  }

  /** The command goes to `backupServer1` and `backupServer2`. */
  function Forwarded(cfg: Config, channels: seq<seq<Cmd>>, i: nat, c: Cmd): seq<seq<Cmd>>
    requires i < |cfg.first| == |cfg.second|
  {
    seq(|channels|, b requires 0 <= b < |channels| =>
          if cfg.Backup(i, b) then channels[b] + [c] else channels[b])
  }

  predicate Performed(s: State, i: nat, c: Cmd)
    requires i < |s.disks| == |s.tries|
  {
    Found(s.tries[i], c) && Succeeds(s.disks[i], c.op, Resolve(c.path))
  }

  function Next(cfg: Config, s: State, step: Step): State
    requires cfg.Ok() && Sized(cfg, s) && Allowed(cfg, s, step)
  {
    match step
    case Client(i, c) =>
      if !Performed(s, i, c) then s
      else
        State(s.disks[i := Exec(s.disks[i], c.op, Resolve(c.path))],
              s.tries[i := if Creates(c.op) then Added(s.tries[i], Parse(c.path)) else Removed(s.tries[i], Parse(c.path))],
              Forwarded(cfg, s.channels, i, c))
    case Deliver(b) =>
      State(s.disks[b := Apply(s.disks[b], cfg.roots[b], s.channels[b][0])], s.tries,
            s.channels[b := s.channels[b][1..]])
  }

  /** A `*b` command at the backup server. */
  function Apply(d: FS, root: string, c: Cmd): FS {
    Exec(d, c.op, Resolve(CommandPath("./" + root, c.path)))
  }

  function Replay(d: FS, root: string, cmds: seq<Cmd>): FS
    decreases |cmds|
  {
    if cmds == [] then d else Replay(Apply(d, root, cmds[0]), root, cmds[1..])
  }

  /** Every command succeeds in its turn. */
  predicate NoneFails(d: FS, root: string, cmds: seq<Cmd>)
    decreases |cmds|
  {
    cmds == [] || (
      && Succeeds(d, cmds[0].op, Resolve(CommandPath("./" + root, cmds[0].path)))
      && NoneFails(Apply(d, root, cmds[0]), root, cmds[1..]))
  }

  /** A storage server's loop over the backup commands of the naming server. */
  class StorageServer {
    const rootPath: string
    var disk: FS

    constructor (rootPath: string, disk: FS)
      ensures this.rootPath == rootPath && this.disk == disk
    {
      this.rootPath, this.disk := rootPath, disk;
    }

    method Listen(cmds: seq<Cmd>, ghost root: string) returns (failures: nat)
      requires rootPath == "./" + root
      modifies this
      ensures disk == Replay(old(disk), root, cmds)
      ensures failures == 0 <==> NoneFails(old(disk), root, cmds)
    {
      failures := 0;
      var k := 0;
      assert cmds[0..] == cmds;
      while k < |cmds|
        invariant 0 <= k <= |cmds|
        invariant Replay(disk, root, cmds[k..]) == Replay(old(disk), root, cmds)
        invariant failures == 0 && NoneFails(disk, root, cmds[k..]) <==> NoneFails(old(disk), root, cmds)
      {
        var c := cmds[k];
        assert cmds[k..][0] == c && cmds[k..][1..] == cmds[k + 1..];
        var path := Resolve(CommandPath(rootPath, c.path));
        if !Succeeds(disk, c.op, path) {
          failures := failures + 1;
        }
        disk := Exec(disk, c.op, path);
        k := k + 1;
      }
      assert cmds[k..] == [];
    }
  }

  ghost predicate AllGood(cmds: seq<Cmd>) {
    forall k | 0 <= k < |cmds| :: Good(cmds[k])
  }

  /** The commands in flight to `b`, applied to its disk, give the mirror of `i`. */
  ghost predicate Synced(cfg: Config, s: State, i: nat, b: nat)
    requires cfg.Ok() && Sized(cfg, s) && i < |cfg.roots| && b < |cfg.roots|
  {
    Mirrors(Replay(s.disks[b], cfg.roots[b], s.channels[b]), cfg.At(b), s.disks[i], cfg.roots[i])
  }

  ghost predicate ChannelOk(cfg: Config, s: State, b: nat)
    requires Sized(cfg, s) && b < |cfg.roots|
  {
    AllGood(s.channels[b]) && NoneFails(s.disks[b], cfg.roots[b], s.channels[b])
  }

  ghost predicate Inv(cfg: Config, s: State) {
    && cfg.Ok() && Sized(cfg, s)
    && (forall b | 0 <= b < |cfg.roots| :: ChannelOk(cfg, s, b))
    && (forall i, b | 0 <= i < |cfg.roots| && 0 <= b < |cfg.roots| && cfg.Backup(i, b) :: Synced(cfg, s, i, b))
  }

  lemma {:induction false} ReplaySnoc(d: FS, root: string, cmds: seq<Cmd>, c: Cmd)
    ensures Replay(d, root, cmds + [c]) == Apply(Replay(d, root, cmds), root, c)
    ensures NoneFails(d, root, cmds + [c]) <==>
            && NoneFails(d, root, cmds)
            && Succeeds(Replay(d, root, cmds), c.op, Resolve(CommandPath("./" + root, c.path)))
    decreases |cmds|
  {
    var all := cmds + [c];
    if cmds == [] {
      assert all == [c] && all[1..] == [];
    } else {
      assert all[1..] == cmds[1..] + [c];
      ReplaySnoc(Apply(d, root, cmds[0]), root, cmds[1..], c);
    }
  }

  /** A backup command acts at the mirror folder plus the relative path. */
  lemma {:induction false} ActsAt(root: string, c: Cmd)
    requires FileName(root) && Good(c)
    ensures Resolve(CommandPath("./" + root, c.path)) == [FOLDER, root] + Rel(c)
  {
    CommandResolves(root, c.path);
  }

  /** Replaying looks only at the mirror folder. */
  lemma {:induction false} ReplaySame(d: FS, e: FS, root: string, cmds: seq<Cmd>)
    requires FileName(root) && AllGood(cmds) && SameBelow(d, e, [FOLDER, root])
    ensures SameBelow(Replay(d, root, cmds), Replay(e, root, cmds), [FOLDER, root])
    ensures NoneFails(d, root, cmds) <==> NoneFails(e, root, cmds)
    decreases |cmds|
  {
    if cmds != [] {
      ActsAt(root, cmds[0]);
      ExecSame(d, e, [FOLDER, root], cmds[0].op, Rel(cmds[0]));
      ReplaySame(Apply(d, root, cmds[0]), Apply(e, root, cmds[0]), root, cmds[1..]);
    }
  }

  /** A server's own commands stay clear of its mirror folder. */
  lemma {:induction false} OwnCommand(cfg: Config, s: State, i: nat, c: Cmd)
    requires Inv(cfg, s) && Allowed(cfg, s, Client(i, c))
    ensures var d := Exec(s.disks[i], c.op, Resolve(c.path));
            && SameBelow(Replay(s.disks[i], cfg.roots[i], s.channels[i]),
                         Replay(d, cfg.roots[i], s.channels[i]), cfg.At(i))
            && NoneFails(d, cfg.roots[i], s.channels[i])
  {
    ProperResolves(c.path);
    assert ChannelOk(cfg, s, i);
    ExecOutside(s.disks[i], cfg.At(i), c.op, Resolve(c.path));
    ReplaySame(s.disks[i], Exec(s.disks[i], c.op, Resolve(c.path)), cfg.roots[i], s.channels[i]);
  }

  /** One more command in flight for what the primary has just done itself. */
  lemma {:induction false} SnocSame(d: FS, root: string, cmds: seq<Cmd>, c: Cmd, e: FS, r: string)
    requires FileName(root) && Good(c) && Rel(c)[0] == r && Mirrors(Replay(d, root, cmds), [FOLDER, root], e, r)
    ensures Mirrors(Replay(d, root, cmds + [c]), [FOLDER, root], Exec(e, c.op, Resolve(c.path)), r)
    ensures NoneFails(d, root, cmds) && Succeeds(e, c.op, Resolve(c.path)) ==> NoneFails(d, root, cmds + [c])
  {
    var now := Replay(d, root, cmds);
    ProperResolves(c.path);
    ActsAt(root, c);
    ReplaySnoc(d, root, cmds, c);
    SucceedsAgree(now, [FOLDER, root], e, r, c.op, Rel(c));
    ExecAgree(now, [FOLDER, root], e, r, c.op, Rel(c));
  }

  /** One more command in flight that concerns another primary. */
  lemma {:induction false} SnocOther(d: FS, root: string, cmds: seq<Cmd>, c: Cmd, e: FS, r: string)
    requires FileName(root) && Good(c) && Rel(c)[0] != r && Mirrors(Replay(d, root, cmds), [FOLDER, root], e, r)
    ensures Mirrors(Replay(d, root, cmds + [c]), [FOLDER, root], e, r)
  {
    ActsAt(root, c);
    ReplaySnoc(d, root, cmds, c);
    var at := [FOLDER, root];
    assert (at + Rel(c))[|at|] == Rel(c)[0];
    ExecBeside(Replay(d, root, cmds), at, e, r, c.op, at + Rel(c));
  }

  /** What a client command does to the disk and the channel of server `b`. */
  lemma {:induction false} ClientAt(cfg: Config, s: State, i: nat, c: Cmd, b: nat)
    requires cfg.Ok() && Sized(cfg, s) && Allowed(cfg, s, Client(i, c)) && Performed(s, i, c) && b < |cfg.roots|
    ensures var t := Next(cfg, s, Client(i, c));
            && Sized(cfg, t)
            && t.disks[b] == (if b == i then Exec(s.disks[i], c.op, Resolve(c.path)) else s.disks[b])
            && t.channels[b] == (if cfg.Backup(i, b) then s.channels[b] + [c] else s.channels[b])
  {
  }

  lemma {:induction false} ClientChannel(cfg: Config, s: State, i: nat, c: Cmd, b: nat)
    requires Inv(cfg, s) && Allowed(cfg, s, Client(i, c)) && Performed(s, i, c) && b < |cfg.roots|
    ensures ChannelOk(cfg, Next(cfg, s, Client(i, c)), b)
  {
    ClientAt(cfg, s, i, c, b);
    assert ChannelOk(cfg, s, b);
    if b == i {
      OwnCommand(cfg, s, i, c);
    } else if cfg.Backup(i, b) {
      assert Synced(cfg, s, i, b);
      SnocSame(s.disks[b], cfg.roots[b], s.channels[b], c, s.disks[i], cfg.roots[i]);
    }
  }

  /** A backup that is itself the primary of the command. */
  lemma {:induction false} ClientSyncedOwn(cfg: Config, s: State, i: nat, c: Cmd, j: nat)
    requires Inv(cfg, s) && Allowed(cfg, s, Client(i, c)) && Performed(s, i, c)
    requires j < |cfg.roots| && cfg.Backup(j, i)
    ensures Synced(cfg, Next(cfg, s, Client(i, c)), j, i)
  {
    ClientAt(cfg, s, i, c, i);
    ClientAt(cfg, s, i, c, j);
    OwnCommand(cfg, s, i, c);
    var d := Exec(s.disks[i], c.op, Resolve(c.path));
    assert Synced(cfg, s, j, i);
    MirrorsSame(Replay(s.disks[i], cfg.roots[i], s.channels[i]), Replay(d, cfg.roots[i], s.channels[i]),
                cfg.At(i), s.disks[j], cfg.roots[j]);
  }

  lemma {:induction false} ClientSynced(cfg: Config, s: State, i: nat, c: Cmd, j: nat, b: nat)
    requires Inv(cfg, s) && Allowed(cfg, s, Client(i, c)) && Performed(s, i, c)
    requires j < |cfg.roots| && b < |cfg.roots| && cfg.Backup(j, b)
    ensures Synced(cfg, Next(cfg, s, Client(i, c)), j, b)
  {
    if b == i {
      ClientSyncedOwn(cfg, s, i, c, j);
    } else {
      ClientAt(cfg, s, i, c, b);
      ClientAt(cfg, s, i, c, j);
      assert Synced(cfg, s, j, b);
      if j == i {
        SnocSame(s.disks[b], cfg.roots[b], s.channels[b], c, s.disks[i], cfg.roots[i]);
      } else if cfg.Backup(i, b) {
        SnocOther(s.disks[b], cfg.roots[b], s.channels[b], c, s.disks[j], cfg.roots[j]);
      }
    }
  }

  lemma {:induction false} DeliverKeeps(cfg: Config, s: State, b: nat)
    requires Inv(cfg, s) && Allowed(cfg, s, Deliver(b))
    ensures Inv(cfg, Next(cfg, s, Deliver(b)))
  {
    var t := Next(cfg, s, Deliver(b));
    var c := s.channels[b][0];
    assert ChannelOk(cfg, s, b) && Good(c);
    forall k | 0 <= k < |cfg.roots|
      ensures ChannelOk(cfg, t, k)
    {
      assert ChannelOk(cfg, s, k);
    }
    ActsAt(cfg.roots[b], c);
    forall i, k | 0 <= i < |cfg.roots| && 0 <= k < |cfg.roots| && cfg.Backup(i, k)
      ensures Synced(cfg, t, i, k)
    {
      assert Synced(cfg, s, i, k);
      if i == b {
        var d := Replay(s.disks[k], cfg.roots[k], s.channels[k]);
        ExecElsewhere(d, cfg.At(k), s.disks[b], cfg.roots[b], c.op, cfg.At(b) + Rel(c));
      }
    }
  }

  lemma {:induction false} StepKeeps(cfg: Config, s: State, step: Step)
    requires Inv(cfg, s) && Allowed(cfg, s, step)
    ensures Inv(cfg, Next(cfg, s, step))
  {
    match step
    case Client(i, c) =>
      if Performed(s, i, c) {
        forall b | 0 <= b < |cfg.roots|
          ensures ChannelOk(cfg, Next(cfg, s, step), b)
        {
          ClientChannel(cfg, s, i, c, b);
        }
        forall j, b | 0 <= j < |cfg.roots| && 0 <= b < |cfg.roots| && cfg.Backup(j, b)
          ensures Synced(cfg, Next(cfg, s, step), j, b)
        {
          ClientSynced(cfg, s, i, c, j, b);
        }
      }
    case Deliver(b) =>
      DeliverKeeps(cfg, s, b);
  }

  /** Every step is allowed when it is taken. */
  predicate IsRun(cfg: Config, s: State, run: seq<Step>)
    requires cfg.Ok() && Sized(cfg, s)
    decreases |run|
  {
    run == [] || (Allowed(cfg, s, run[0]) && IsRun(cfg, Next(cfg, s, run[0]), run[1..]))
  }

  function After(cfg: Config, s: State, run: seq<Step>): (t: State)
    requires cfg.Ok() && Sized(cfg, s) && IsRun(cfg, s, run)
    ensures Sized(cfg, t)
    decreases |run|
  {
    if run == [] then s else After(cfg, Next(cfg, s, run[0]), run[1..])
  }

  lemma {:induction false} RunKeeps(cfg: Config, s: State, run: seq<Step>)
    requires Inv(cfg, s) && IsRun(cfg, s, run)
    ensures Inv(cfg, After(cfg, s, run))
    decreases |run|
  {
    if run != [] {
      StepKeeps(cfg, s, run[0]);
      RunKeeps(cfg, Next(cfg, s, run[0]), run[1..]);
    }
  }

  /** Nothing in flight and every mirror up to date: the state after the
      initial copies. */
  ghost predicate Fresh(cfg: Config, s: State) {
    && cfg.Ok() && Sized(cfg, s)
    && (forall b | 0 <= b < |cfg.roots| :: s.channels[b] == [])
    && (forall i, b | 0 <= i < |cfg.roots| && 0 <= b < |cfg.roots| && cfg.Backup(i, b) ::
          Mirrors(s.disks[b], cfg.At(b), s.disks[i], cfg.roots[i]))
  }

  /** In every reachable state the commands in flight complete every mirror, the
      next backup command succeeds, and an empty channel means equality. */
  lemma {:induction false} ReplicationCorrect(cfg: Config, s: State, run: seq<Step>, i: nat, b: nat)
    requires Fresh(cfg, s) && IsRun(cfg, s, run)
    requires i < |cfg.roots| && b < |cfg.roots| && cfg.Backup(i, b)
    ensures var t := After(cfg, s, run);
            && Synced(cfg, t, i, b) && NoneFails(t.disks[b], cfg.roots[b], t.channels[b])
            && (t.channels[b] != [] ==>
                  Succeeds(t.disks[b], t.channels[b][0].op,
                           Resolve(CommandPath("./" + cfg.roots[b], t.channels[b][0].path))))
            && (t.channels[b] == [] ==> Mirrors(t.disks[b], cfg.At(b), t.disks[i], cfg.roots[i]))
  {
    FreshInv(cfg, s);
    RunKeeps(cfg, s, run);
    var t := After(cfg, s, run);
    assert ChannelOk(cfg, t, b) && Synced(cfg, t, i, b);
  }

  /** Delivering everything that is in flight to `b`. */
  function Drained(b: nat, n: nat): seq<Step> {
    if n == 0 then [] else [Deliver(b)] + Drained(b, n - 1)
  }

  lemma {:induction false} DeliverAt(cfg: Config, s: State, b: nat)
    requires Inv(cfg, s) && Allowed(cfg, s, Deliver(b))
    ensures var t := Next(cfg, s, Deliver(b));
            Sized(cfg, t) && t.channels[b] == s.channels[b][1..] && t.channels[b := []] == s.channels[b := []]
  {
  }

  lemma {:induction false} RunCons(cfg: Config, s: State, step: Step, run: seq<Step>)
    requires cfg.Ok() && Sized(cfg, s) && Allowed(cfg, s, step)
    requires Sized(cfg, Next(cfg, s, step)) && IsRun(cfg, Next(cfg, s, step), run)
    ensures IsRun(cfg, s, [step] + run) && After(cfg, s, [step] + run) == After(cfg, Next(cfg, s, step), run)
  {
    assert ([step] + run)[1..] == run;
  }

  lemma {:induction false} DrainRun(cfg: Config, s: State, b: nat, n: nat)
    requires Inv(cfg, s) && b < |cfg.roots| && |s.channels[b]| == n
    ensures IsRun(cfg, s, Drained(b, n)) && After(cfg, s, Drained(b, n)).channels == s.channels[b := []]
    decreases n
  {
    if n == 0 {
      assert s.channels[b := []] == s.channels;
    } else {
      var t := Next(cfg, s, Deliver(b));
      DeliverAt(cfg, s, b);
      DeliverKeeps(cfg, s, b);
      DrainRun(cfg, t, b, n - 1);
      RunCons(cfg, s, Deliver(b), Drained(b, n - 1));
    }
  }

  /** The channels can always be drained, and then every mirror is exact. */
  lemma {:induction false} Drains(cfg: Config, s: State, b: nat, i: nat)
    requires Inv(cfg, s) && b < |cfg.roots| && i < |cfg.roots| && cfg.Backup(i, b)
    ensures var run := Drained(b, |s.channels[b]|);
            && IsRun(cfg, s, run)
            && var t := After(cfg, s, run);
            && t.channels == s.channels[b := []]
            && Mirrors(t.disks[b], cfg.At(b), t.disks[i], cfg.roots[i])
  {
    var run := Drained(b, |s.channels[b]|);
    DrainRun(cfg, s, b, |s.channels[b]|);
    RunKeeps(cfg, s, run);
    assert Synced(cfg, After(cfg, s, run), i, b);
  }

  // The naming server's index

  ghost predicate KnownAt(trie: set<Path>, d: FS, x: Path) {
    ["."] + x in trie <==> x in d
  }

  /** A path below a root with no hidden component; the root's own name is not looked at. */
  predicate Shown(x: Path) {
    forall k | 1 <= k < |x| :: !Listing.Hidden(x[k])
  }

  /** Of what is shown, the index knows exactly what is on the primary's disk. */
  ghost predicate Tracks(trie: set<Path>, d: FS, r: string) {
    PrefixClosed(trie) && forall x: Path | x != [] && x[0] == r && Shown(x) :: KnownAt(trie, d, x)
  }

  lemma {:induction false} ExecHangs(d: FS, r: string, op: Op, x: Path)
    requires Hung(d, [r])
    ensures Hung(Exec(d, op, x), [r])
  {
    var e := Exec(d, op, x);
    forall y | y in e && |y| >= 2 && y[0] == r
      ensures IsDir(e, y[..|y| - 1])
    {
      assert y in d ==> IsDir(d, y[..|y| - 1]);
      assert y[..|y| - 1] == x ==> ChildOf(x, y);
    }
  }

  lemma {:induction false} PrefixHangs(d: FS, r: string, y: Path, k: nat)
    requires Hung(d, [r]) && y in d && 1 <= k < |y| && y[0] == r
    ensures IsDir(d, y[..k]) && y[..k + 1] in d
    decreases |y| - k
  {
    if k + 1 == |y| {
      assert y[..k + 1] == y;
    } else {
      PrefixHangs(d, r, y, k + 1);
      assert y[..k + 1][..k] == y[..k];
    }
  }

  /** What a remove takes away has nothing below it. */
  lemma {:induction false} NothingBelow(d: FS, r: string, x: Path, y: Path)
    requires Hung(d, [r]) && x in d && (d[x].File? || Childless(d, x))
    requires x != [] && x[0] == r && y in d && x <= y
    ensures y == x
  {
    assert y[..|x|] == x;
    assert |x| < |y| ==> ChildOf(x, y[..|x| + 1]);
    if |x| < |y| {
      PrefixHangs(d, r, y, |x|);
    }
  }

  lemma {:induction false} RemoveTracks(trie: set<Path>, d: FS, r: string, op: Op, x: Path)
    requires Tracks(trie, d, r) && Hung(d, [r]) && !Creates(op) && |x| >= 2 && x[0] == r && Succeeds(d, op, x)
    ensures Tracks(Removed(trie, ["."] + x), Exec(d, op, x), r)
  {
    var c := ["."] + x;
    RemovedClosed(trie, c);
    forall y: Path | y != [] && y[0] == r && Shown(y)
      ensures KnownAt(Removed(trie, c), Exec(d, op, x), y)
    {
      assert KnownAt(trie, d, y);
      assert c <= ["."] + y <==> x <= y by {
        assert (["."] + y)[1..] == y && c[1..] == x;
        assert c <= ["."] + y ==> forall k | 0 <= k < |x| :: x[k] == c[k + 1] == (["."] + y)[k + 1] == y[k];
      }
      if y in d && x <= y {
        NothingBelow(d, r, x, y);
      }
    }
  }

  /** A create keeps the index exact unless it makes a shown path whose folder
      is full in the trie. */
  lemma {:induction false} CreateTracks(trie: set<Path>, d: FS, r: string, op: Op, x: Path)
    requires Tracks(trie, d, r) && Creates(op) && |x| >= 2 && x[0] == r && Succeeds(d, op, x)
    requires ["."] + x[..|x| - 1] in trie
    ensures Tracks(Added(trie, ["."] + x), Exec(d, op, x), r) <==>
            x in d || !Shown(x) || !Full(trie, ["."] + x[..|x| - 1])
  {
    var c, e := ["."] + x, Exec(d, op, x);
    var ps := Added(trie, c);
    assert c[..|c| - 1] == ["."] + x[..|x| - 1];
    AddedChild(trie, c);
    AddedClosed(trie, c);
    assert Shown(x) ==> KnownAt(trie, d, x);
    if x in d || !Shown(x) || !Full(trie, c[..|c| - 1]) {
      forall y: Path | y != [] && y[0] == r && Shown(y)
        ensures KnownAt(ps, e, y)
      {
        assert KnownAt(trie, d, y);
        assert ["."] + y == c ==> y == x by { assert (["."] + y)[1..] == y && c[1..] == x; }
      }
    } else {
      assert ps == trie && !KnownAt(ps, e, x);
    }
  }

  /** The index of server `i` is exact. */
  ghost predicate IndexAt(cfg: Config, s: State, i: nat)
    requires Sized(cfg, s) && i < |cfg.roots|
  {
    Tracks(s.tries[i], s.disks[i], cfg.roots[i]) && Hung(s.disks[i], [cfg.roots[i]])
  }

  ghost predicate IndexOk(cfg: Config, s: State) {
    cfg.Ok() && Sized(cfg, s) && forall i | 0 <= i < |cfg.roots| :: IndexAt(cfg, s, i)
  }

  /** A command that creates a new shown path finds a free slot below its parent. */
  predicate HasRoom(trie: set<Path>, d: FS, c: Cmd)
    requires Good(c)
  {
    Creates(c.op) && Rel(c) !in d && Shown(Rel(c)) ==> !Full(trie, Parse(CutLast(c.path)))
  }

  /** The condition a step must meet for the index to stay exact. */
  predicate Roomy(cfg: Config, s: State, step: Step)
    requires Sized(cfg, s) && Allowed(cfg, s, step)
  {
    step.Client? && Performed(s, step.server, step.cmd) ==>
      HasRoom(s.tries[step.server], s.disks[step.server], step.cmd)
  }

  lemma {:induction false} ElsewhereTracks(trie: set<Path>, d: FS, r: string, op: Op, p: Path)
    requires Tracks(trie, d, r) && p != [] && p[0] != r
    ensures Tracks(trie, Exec(d, op, p), r)
  {
    forall y: Path | y != [] && y[0] == r && Shown(y)
      ensures KnownAt(trie, Exec(d, op, p), y)
    {
      assert KnownAt(trie, d, y);
    }
  }

  lemma {:induction false} CommandParts(c: Cmd)
    requires Good(c)
    ensures var x := Rel(c);
            |x| >= 2 && Parse(c.path) == ["."] + x && Parse(CutLast(c.path)) == ["."] + x[..|x| - 1]
  {
    var x := Rel(c);
    assert Parse(c.path) == ["."] + x;
    CutLastIsParent(c.path);
    assert Parse(CutLast(c.path)) == Parse(c.path)[..|Parse(c.path)| - 1];
  }

  lemma {:induction false} CommandCreates(trie: set<Path>, d: FS, r: string, c: Cmd)
    requires Tracks(trie, d, r) && Good(c) && Creates(c.op) && Rel(c)[0] == r
    requires Found(trie, c) && Succeeds(d, c.op, Rel(c))
    ensures Tracks(Added(trie, Parse(c.path)), Exec(d, c.op, Rel(c)), r) <==> HasRoom(trie, d, c)
  {
    CommandParts(c);
    CreateTracks(trie, d, r, c.op, Rel(c));
  }

  lemma {:induction false} CommandRemoves(trie: set<Path>, d: FS, r: string, c: Cmd)
    requires Tracks(trie, d, r) && Hung(d, [r]) && Good(c) && !Creates(c.op) && Rel(c)[0] == r
    requires Succeeds(d, c.op, Rel(c))
    ensures Tracks(Removed(trie, Parse(c.path)), Exec(d, c.op, Rel(c)), r)
  {
    CommandParts(c);
    RemoveTracks(trie, d, r, c.op, Rel(c));
  }

  lemma {:induction false} CommandTracks(trie: set<Path>, d: FS, r: string, c: Cmd)
    requires Tracks(trie, d, r) && Hung(d, [r]) && Good(c) && Rel(c)[0] == r
    requires Found(trie, c) && Succeeds(d, c.op, Rel(c))
    ensures var trie' := if Creates(c.op) then Added(trie, Parse(c.path)) else Removed(trie, Parse(c.path));
            Tracks(trie', Exec(d, c.op, Rel(c)), r) <==> HasRoom(trie, d, c)
  {
    if Creates(c.op) {
      CommandCreates(trie, d, r, c);
    } else {
      CommandRemoves(trie, d, r, c);
    }
  }

  lemma {:induction false} ClientIndex(cfg: Config, s: State, i: nat, c: Cmd)
    requires Inv(cfg, s) && IndexOk(cfg, s) && Allowed(cfg, s, Client(i, c)) && Performed(s, i, c)
    ensures IndexAt(cfg, Next(cfg, s, Client(i, c)), i) <==> HasRoom(s.tries[i], s.disks[i], c)
  {
    assert IndexAt(cfg, s, i);
    ProperResolves(c.path);
    ExecHangs(s.disks[i], cfg.roots[i], c.op, Rel(c));
    CommandTracks(s.tries[i], s.disks[i], cfg.roots[i], c);
  }

  lemma {:induction false} DeliverIndex(cfg: Config, s: State, b: nat)
    requires Inv(cfg, s) && IndexOk(cfg, s) && Allowed(cfg, s, Deliver(b))
    ensures IndexAt(cfg, Next(cfg, s, Deliver(b)), b)
  {
    var c := s.channels[b][0];
    assert IndexAt(cfg, s, b) && ChannelOk(cfg, s, b) && Good(c);
    ActsAt(cfg.roots[b], c);
    ElsewhereTracks(s.tries[b], s.disks[b], cfg.roots[b], c.op, cfg.At(b) + Rel(c));
    ExecHangs(s.disks[b], cfg.roots[b], c.op, cfg.At(b) + Rel(c));
  }

  /** What a step leaves alone. */
  lemma {:induction false} StepLeaves(cfg: Config, s: State, step: Step, k: nat)
    requires Inv(cfg, s) && Allowed(cfg, s, step) && k < |cfg.roots|
    requires k != step.server || (step.Client? && !Performed(s, step.server, step.cmd))
    ensures var t := Next(cfg, s, step);
            Sized(cfg, t) && t.tries[k] == s.tries[k] && t.disks[k] == s.disks[k]
  {
  }

  lemma {:induction false} OtherIndex(cfg: Config, s: State, step: Step, k: nat)
    requires Inv(cfg, s) && IndexOk(cfg, s) && Allowed(cfg, s, step) && k < |cfg.roots|
    requires k != step.server || (step.Client? && !Performed(s, step.server, step.cmd))
    ensures IndexAt(cfg, Next(cfg, s, step), k)
  {
    assert IndexAt(cfg, s, k);
    StepLeaves(cfg, s, step, k);
  }

  /** The index of the server a step is about. */
  lemma {:induction false} ThisIndex(cfg: Config, s: State, step: Step)
    requires Inv(cfg, s) && IndexOk(cfg, s) && Allowed(cfg, s, step)
    ensures IndexAt(cfg, Next(cfg, s, step), step.server) <==> Roomy(cfg, s, step)
  {
    if step.Deliver? {
      DeliverIndex(cfg, s, step.server);
    } else if Performed(s, step.server, step.cmd) {
      ClientIndex(cfg, s, step.server, step.cmd);
    } else {
      OtherIndex(cfg, s, step, step.server);
    }
  }

  lemma {:induction false} IndexButOne(cfg: Config, s: State, i: nat)
    requires cfg.Ok() && Sized(cfg, s) && i < |cfg.roots|
    requires forall k | 0 <= k < |cfg.roots| && k != i :: IndexAt(cfg, s, k)
    ensures IndexOk(cfg, s) <==> IndexAt(cfg, s, i)
  {
  }

  lemma {:induction false} OtherIndices(cfg: Config, s: State, step: Step)
    requires Inv(cfg, s) && IndexOk(cfg, s) && Allowed(cfg, s, step)
    ensures Sized(cfg, Next(cfg, s, step))
    ensures forall k | 0 <= k < |cfg.roots| && k != step.server :: IndexAt(cfg, Next(cfg, s, step), k)
  {
    forall k | 0 <= k < |cfg.roots| && k != step.server
      ensures IndexAt(cfg, Next(cfg, s, step), k)
    {
      OtherIndex(cfg, s, step, k);
    }
  }

  /** One step keeps the index exact if and only if a new path finds room. */
  lemma {:induction false} IndexStep(cfg: Config, s: State, step: Step)
    requires Inv(cfg, s) && IndexOk(cfg, s) && Allowed(cfg, s, step)
    ensures IndexOk(cfg, Next(cfg, s, step)) <==> Roomy(cfg, s, step)
  {
    ThisIndex(cfg, s, step);
    OtherIndices(cfg, s, step);
    IndexButOne(cfg, Next(cfg, s, step), step.server);
  }

  ghost predicate RoomyRun(cfg: Config, s: State, run: seq<Step>)
    requires cfg.Ok() && Sized(cfg, s) && IsRun(cfg, s, run)
    decreases |run|
  {
    run == [] || (Roomy(cfg, s, run[0]) && RoomyRun(cfg, Next(cfg, s, run[0]), run[1..]))
  }

  /** The index is exact before and after every step of the run. */
  ghost predicate IndexedRun(cfg: Config, s: State, run: seq<Step>)
    requires cfg.Ok() && Sized(cfg, s) && IsRun(cfg, s, run)
    decreases |run|
  {
    IndexOk(cfg, s) && (run == [] || IndexedRun(cfg, Next(cfg, s, run[0]), run[1..]))
  }

  /** So it is if and only if every new shown path found room when it came. */
  lemma {:induction false} RunIndexed(cfg: Config, s: State, run: seq<Step>)
    requires Inv(cfg, s) && IndexOk(cfg, s) && IsRun(cfg, s, run)
    ensures IndexedRun(cfg, s, run) <==> RoomyRun(cfg, s, run)
    ensures RoomyRun(cfg, s, run) ==> IndexOk(cfg, After(cfg, s, run))
    decreases |run|
  {
    if run != [] {
      StepKeeps(cfg, s, run[0]);
      IndexStep(cfg, s, run[0]);
      if Roomy(cfg, s, run[0]) {
        RunIndexed(cfg, Next(cfg, s, run[0]), run[1..]);
      }
    }
  }

  lemma {:induction false} FreshInv(cfg: Config, s: State)
    requires Fresh(cfg, s)
    ensures Inv(cfg, s)
  {
    assert forall k | 0 <= k < |cfg.roots| :: ChannelOk(cfg, s, k);
  }

  lemma {:induction false} CopiesAt(cfg: Config, t: State, i: nat, b: nat, p: string)
    requires cfg.Ok() && Sized(cfg, t) && i < |cfg.roots| && b < |cfg.roots|
    requires IndexAt(cfg, t, i) && Mirrors(t.disks[b], cfg.At(b), t.disks[i], cfg.roots[i])
    requires Proper(p) && Parse(p)[1] == cfg.roots[i]
    ensures Shown(Resolve(p)) ==> (Parse(p) in t.tries[i] <==> Resolve(p) in t.disks[i])
    ensures Look(t.disks[i], Resolve(p)) == Look(t.disks[b], Mirror(cfg.roots[b], p))
  {
    ProperResolves(p);
    var x := Resolve(p);
    assert Parse(p) == ["."] + x;
    assert Shown(x) ==> KnownAt(t.tries[i], t.disks[i], x);
    assert SameAt(t.disks[b], cfg.At(b), t.disks[i], x);
  }

  /** Index, primary and mirror: once the channel to `b` is empty, primary and
      mirror hold the same at every path below the root of `i`, and a shown path
      is in the trie exactly when it is there. */
  lemma {:induction false} ThreeCopiesAgree(cfg: Config, s: State, run: seq<Step>, i: nat, b: nat, p: string)
    requires Fresh(cfg, s) && IndexOk(cfg, s) && IsRun(cfg, s, run) && RoomyRun(cfg, s, run)
    requires i < |cfg.roots| && b < |cfg.roots| && cfg.Backup(i, b) && After(cfg, s, run).channels[b] == []
    requires Proper(p) && Parse(p)[1] == cfg.roots[i]
    ensures var t := After(cfg, s, run);
            && (Shown(Resolve(p)) ==> (Parse(p) in t.tries[i] <==> Resolve(p) in t.disks[i]))
            && Look(t.disks[i], Resolve(p)) == Look(t.disks[b], Mirror(cfg.roots[b], p))
  {
    FreshInv(cfg, s);
    ReplicationCorrect(cfg, s, run, i, b);
    RunIndexed(cfg, s, run);
    CopiesAt(cfg, After(cfg, s, run), i, b, p);
  }

  /** The disk holds exactly this tree at `at`. */
  ghost predicate Exactly(d: FS, at: Path, t: Files.Tree) {
    forall q :: Look(d, at + q) == TreeAt(t, q)
  }

  lemma {:induction false} TreeParent(t: Files.Tree, q: Path)
    requires TreeAt(t, q).Some? && q != []
    ensures TreeAt(t, q[..|q| - 1]) == Some(Dir)
    decreases t, 1
  {
    EntriesParent(t.entries, q);
  }

  lemma {:induction false} EntriesParent(es: seq<Files.Entry>, q: Path)
    requires q != [] && EntriesAt(es, q).Some?
    ensures |q| > 1 ==> EntriesAt(es, q[..|q| - 1]) == Some(Dir)
    decreases es, 0
  {
    if es[0].name == q[0] {
      if |q| > 1 {
        assert q[..|q| - 1][1..] == q[1..][..|q[1..]| - 1];
        TreeParent(es[0].tree, q[1..]);
      }
    } else {
      EntriesParent(es[1..], q);
    }
  }

  /** What a trie holds once the root folder `r` has been listed into it. */
  function Listed(r: string, t: Files.Tree): set<Path> {
    Listing.AddLines({[]}, Listing.Lines("./" + r, t))
  }

  lemma {:induction false} RootPath(r: string)
    requires FileName(r)
    ensures "./" + r != "" && Parse("./" + r) == [".", r]
  {
    SplitConcat(".", r, PARSE_SKIP);
    SplitName(".", PARSE_SKIP);
    SplitName(r, PARSE_SKIP);
    assert "." + "/" + r == "./" + r;
  }

  /** The disk of a tree is hung below its root. */
  lemma {:induction false} ExactlyHung(d: FS, r: string, t: Files.Tree)
    requires Exactly(d, [r], t)
    ensures Hung(d, [r])
  {
    forall x | x in d && |x| > 1 && [r] <= x
      ensures ParentIsDir(d, x)
    {
      var q := x[1..];
      assert x == [r] + q && Look(d, [r] + q) == TreeAt(t, q);
      TreeParent(t, q);
      assert [r] + q[..|q| - 1] == x[..|x| - 1] && Look(d, [r] + q[..|q| - 1]) == Some(Dir);
    }
  }

  /** The visible tree itself is an exact index, hidden entries on the disk or not. */
  lemma {:induction false} VisibleTracks(d: FS, r: string, t: Files.Tree)
    requires Regular(t) && Exactly(d, [r], t)
    ensures Tracks(Listing.Indexed([".", r], t), d, r)
  {
    var c := [".", r];
    Listing.IndexedClosed(c, t);
    forall x: Path | x != [] && x[0] == r && Shown(x)
      ensures KnownAt(Listing.Indexed(c, t), d, x)
    {
      IndexedKnown(d, r, t, x);
    }
  }

  lemma {:induction false} BelowRootParts(r: string, p: Path)
    requires Below([".", r], p)
    ensures p == ["."] + p[1..] && p[1..] == [r] + p[2..]
    ensures (forall k | 0 <= k < |p[2..]| :: !Listing.Hidden(p[2..][k])) ==> Shown(p[1..])
  {
    assert p[0] == p[..2][0] && p[1] == p[..2][1];
    var x, q := p[1..], p[2..];
    assert forall k | 1 <= k < |x| :: x[k] == q[k - 1];
  }

  /** An exact index holds the visible tree. */
  lemma {:induction false} TracksVisible(ps: set<Path>, d: FS, r: string, t: Files.Tree)
    requires Regular(t) && Exactly(d, [r], t) && Tracks(ps, d, r)
    ensures Listing.VisibleSet([".", r], t) <= ps
  {
    var c := [".", r];
    forall p | p in Listing.VisibleSet(c, t)
      ensures p in ps
    {
      Listing.VisibleSetIff(c, t, p);
      BelowRootParts(r, p);
      assert Look(d, [r] + p[2..]) == TreeAt(t, p[2..]);
      assert KnownAt(ps, d, p[1..]);
    }
  }

  /** What listing a server leaves is an exact index of its disk, hidden entries
      or not, if and only if no folder that is shown shows more entries than a
      trie node has slots. */
  lemma {:induction false} IndexedTracks(d: FS, r: string, t: Files.Tree)
    requires FileName(r) && t.Folder? && Regular(t) && Listing.Spelled(t) && Exactly(d, [r], t)
    ensures Tracks(Listed(r, t), d, r) <==> Listing.Indexable(t)
  {
    RootPath(r);
    Listing.EmptyNarrow();
    var base, c := "./" + r, [".", r];
    assert {[]} <= Listing.Indexed(c, t) by { assert c[..0] == []; }
    Listing.IndexMeaning({[]}, base, t);
    if Listing.Indexable(t) {
      VisibleTracks(d, r, t);
    }
    if Tracks(Listed(r, t), d, r) {
      Listing.AddLinesNarrow({[]}, Listing.Lines(base, t));
      TracksVisible(Listed(r, t), d, r, t);
      Listing.NarrowIndexable(c, t, Listed(r, t));
    }
  }

  /** A failing input: a server with 257 files in its root folder. */
  lemma {:induction false} OverfullServer(d: FS, r: string)
    requires FileName(r) && Exactly(d, [r], Files.Folder(Listing.ManyFiles(MAX_FOLDERS + 1)))
    ensures !Tracks(Listed(r, Files.Folder(Listing.ManyFiles(MAX_FOLDERS + 1))), d, r)
  {
    Listing.ManyFilesShape(MAX_FOLDERS + 1);
    IndexedTracks(d, r, Files.Folder(Listing.ManyFiles(MAX_FOLDERS + 1)));
  }

  lemma {:induction false} IndexedKnown(d: FS, r: string, t: Files.Tree, x: Path)
    requires Regular(t) && Exactly(d, [r], t) && x != [] && x[0] == r && Shown(x)
    ensures KnownAt(Listing.Indexed([".", r], t), d, x)
  {
    var c, p, q := [".", r], ["."] + x, x[1..];
    Listing.IndexedIff(c, t, p);
    assert p[..2] == c && p[2..] == q;
    assert x == [r] + q && Look(d, [r] + q) == TreeAt(t, q);
    assert forall k | 0 <= k < |q| :: q[k] == x[k + 1];
    assert |q| == 0 ==> p == c && q == [];
  }
}
