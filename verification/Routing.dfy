/** The naming server's part in replication is that of the metadata model. */
module Routing {
  import opened Paths
  import opened PathSets
  import opened Files
  import opened MirrorPaths
  import opened Disks
  import opened Replication
  import opened Uncached
  import Indexer
  import Metadata
  import Ownership

  /** A client command as the naming server sees it, with the verdict of the storage server. */
  function AsCommand(c: Cmd, ok: bool): Metadata.Command {
    if Creates(c.op) then Metadata.Create(c.path, ok) else Metadata.Remove(c.path, ok)
  }

  function Tables(cfg: Config, s: State): Plain {
    Plain(s.tries, cfg.roots)
  }

  /** The metadata of a naming server whose cache is empty. */
  ghost function Meta(p: Plain): Metadata.State {
    Metadata.State(p.tries, p.roots, [])
  }

  ghost predicate Owned(p: Plain) {
    Metadata.Owned(Meta(p))
  }

  lemma {:induction false} NotRefused(p: string)
    requires Proper(p)
    ensures !Metadata.Refused(p)
  {
    ProperResolves(p);
    assert "./" <= p && |p| >= 3;
  }

  lemma {:induction false} ParentProper(c: Cmd)
    requires Good(c)
    ensures Proper(CutLast(c.path)) && Parse(CutLast(c.path)) == Parse(c.path)[..|Parse(c.path)| - 1]
  {
    CutLastIsParent(c.path);
    assert Parse(CutLast(c.path)) == Parse(c.path)[..|Parse(c.path)| - 1];
  }

  /** A path below the root of server `i` is found there or nowhere. */
  lemma {:induction false} FoundThere(p: Plain, i: nat, q: Path)
    requires Owned(p) && i < |p.tries| && |q| >= 2 && q[1] == p.roots[i]
    ensures Metadata.FirstMatch(p.tries, q) == if q in p.tries[i] then i else -1
  {
    var j := Metadata.FirstMatch(p.tries, q);
    Metadata.OwnerIsUnique(Meta(p), q, i);
    assert j >= 0 ==> Metadata.Rooted(p.tries[j], p.roots[j]);
  }

  lemma {:induction false} PathFound(p: Plain, i: nat, path: string)
    requires Owned(p) && i < |p.tries| && i < |p.roots| && Proper(path) && Parse(path)[1] == p.roots[i]
    ensures !Metadata.Refused(path)
    ensures Metadata.FirstMatch(p.tries, Parse(path)) == if Parse(path) in p.tries[i] then i else -1
  {
    NotRefused(path);
    FoundThere(p, i, Parse(path));
  }

  /** The server that serves a command is the one the naming server picks. */
  lemma {:induction false} PicksPrimary(cfg: Config, s: State, i: nat, c: Cmd, ok: bool)
    requires cfg.Ok() && Sized(cfg, s) && Owned(Tables(cfg, s)) && Allowed(cfg, s, Client(i, c))
    ensures PlainOwner(Tables(cfg, s), AsCommand(c, ok)) == if Found(s.tries[i], c) then i else -1
  {
    if Creates(c.op) {
      PicksForCreate(Tables(cfg, s), i, c, ok);
    } else {
      PathFound(Tables(cfg, s), i, c.path);
    }
  }

  lemma {:induction false} PicksForCreate(p: Plain, i: nat, c: Cmd, ok: bool)
    requires Owned(p) && i < |p.tries| && i < |p.roots| && Good(c) && Parse(c.path)[1] == p.roots[i]
    ensures PlainOwner(p, Metadata.Create(c.path, ok)) == if Parse(CutLast(c.path)) in p.tries[i] then i else -1
  {
    ParentProper(c);
    PathFound(p, i, CutLast(c.path));
  }

  /** What the verdict of a storage server is. */
  predicate Verdict(s: State, i: nat, c: Cmd)
    requires i < |s.disks|
  {
    Succeeds(s.disks[i], c.op, Resolve(c.path))
  }

  /** The tries after a client command. */
  lemma {:induction false} ClientTries(cfg: Config, s: State, i: nat, c: Cmd)
    requires cfg.Ok() && Sized(cfg, s) && Allowed(cfg, s, Client(i, c))
    ensures Next(cfg, s, Client(i, c)).tries ==
            if Found(s.tries[i], c) && Verdict(s, i, c) then
              s.tries[i := if Creates(c.op) then Added(s.tries[i], Parse(c.path)) else Removed(s.tries[i], Parse(c.path))]
            else s.tries
  {
  }

  lemma {:induction false} PlainTries(p: Plain, c: Cmd, ok: bool)
    ensures var i := PlainOwner(p, AsCommand(c, ok));
            PlainApply(p, AsCommand(c, ok)).roots == p.roots &&
            PlainApply(p, AsCommand(c, ok)).tries ==
            if i != -1 && ok then
              p.tries[i := if Creates(c.op) then Added(p.tries[i], Parse(c.path)) else Removed(p.tries[i], Parse(c.path))]
            else p.tries
  {
  }

  /** A client command changes the tables as the metadata model has it; a
      delivery does not concern them. */
  lemma {:induction false} ClientIsPlain(cfg: Config, s: State, i: nat, c: Cmd)
    requires cfg.Ok() && Sized(cfg, s) && Owned(Tables(cfg, s)) && Allowed(cfg, s, Client(i, c))
    ensures Tables(cfg, Next(cfg, s, Client(i, c))) ==
            PlainApply(Tables(cfg, s), AsCommand(c, Verdict(s, i, c)))
  {
    PicksPrimary(cfg, s, i, c, Verdict(s, i, c));
    ClientTries(cfg, s, i, c);
    PlainTries(Tables(cfg, s), c, Verdict(s, i, c));
  }

  lemma {:induction false} OwnedStays(p: Plain, c: Metadata.Command)
    requires Owned(p) && Ownership.Admissible(Meta(p), c)
    ensures Owned(PlainApply(p, c))
  {
    Ownership.StepSound(Meta(p), 1, c);
    SameStep(Meta(p), 1, c);
    assert Strip(Metadata.Apply(Meta(p), 1, c)) == PlainApply(p, c);
  }

  /** What the naming server sees of a step. */
  function StepCommands(s: State, step: Step): seq<Metadata.Command>
    requires step.Client? ==> step.server < |s.disks|
  {
    if step.Deliver? then [] else [AsCommand(step.cmd, Verdict(s, step.server, step.cmd))]
  }

  ghost function CommandsOf(cfg: Config, s: State, run: seq<Step>): seq<Metadata.Command>
    requires cfg.Ok() && Sized(cfg, s) && IsRun(cfg, s, run)
    decreases |run|
  {
    if run == [] then [] else StepCommands(s, run[0]) + CommandsOf(cfg, Next(cfg, s, run[0]), run[1..])
  }

  lemma {:induction false} StepIsPlain(cfg: Config, s: State, step: Step)
    requires cfg.Ok() && Sized(cfg, s) && Owned(Tables(cfg, s)) && Allowed(cfg, s, step)
    ensures Sized(cfg, Next(cfg, s, step)) && Owned(Tables(cfg, Next(cfg, s, step)))
    ensures Tables(cfg, Next(cfg, s, step)) == PlainRun(Tables(cfg, s), StepCommands(s, step))
  {
    if step.Client? {
      var i, c := step.server, step.cmd;
      ClientIsPlain(cfg, s, i, c);
      OwnedStays(Tables(cfg, s), AsCommand(c, Verdict(s, i, c)));
      PlainRunOne(Tables(cfg, s), AsCommand(c, Verdict(s, i, c)));
    }
  }

  lemma {:induction false} PlainRunOne(p: Plain, c: Metadata.Command)
    ensures PlainRun(p, [c]) == PlainApply(p, c)
  {
    assert [c][1..] == [];
  }

  lemma {:induction false} PlainRunConcat(p: Plain, a: seq<Metadata.Command>, b: seq<Metadata.Command>)
    ensures PlainRun(p, a + b) == PlainRun(PlainRun(p, a), b)
    decreases |a|
  {
    if a == [] {
      assert a + b == b;
    } else {
      assert (a + b)[1..] == a[1..] + b;
      PlainRunConcat(PlainApply(p, a[0]), a[1..], b);
    }
  }

  /** Over every run of the replicated system the tables are those of the
      cacheless naming server, and ownership stays unique. */
  lemma {:induction false} RunIsPlain(cfg: Config, s: State, run: seq<Step>)
    requires cfg.Ok() && Sized(cfg, s) && Owned(Tables(cfg, s)) && IsRun(cfg, s, run)
    ensures Tables(cfg, After(cfg, s, run)) == PlainRun(Tables(cfg, s), CommandsOf(cfg, s, run))
    ensures Owned(Tables(cfg, After(cfg, s, run)))
    decreases |run|
  {
    if run != [] {
      var t := Next(cfg, s, run[0]);
      StepIsPlain(cfg, s, run[0]);
      RunIsPlain(cfg, t, run[1..]);
      PlainRunConcat(Tables(cfg, s), StepCommands(s, run[0]), CommandsOf(cfg, t, run[1..]));
    }
  }

  /** Listings of servers with different roots are where ownership starts, also
      where a full node has cut them. */
  lemma {:induction false} ListingsOwned(cfg: Config, s: State, trees: seq<Tree>)
    requires cfg.Ok() && Sized(cfg, s) && |trees| == |cfg.roots|
    requires forall i | 0 <= i < |trees| :: trees[i].Folder? && s.tries[i] == Listed(cfg.roots[i], trees[i])
    ensures Owned(Tables(cfg, s))
  {
    forall i | 0 <= i < |trees|
      ensures Metadata.Rooted(s.tries[i], cfg.roots[i])
    {
      RootPath(cfg.roots[i]);
      Indexer.ListedRooted("./" + cfg.roots[i], trees[i], cfg.roots[i]);
    }
  }
}
