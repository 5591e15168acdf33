/** What a client command does to the primary and, once delivered, to both of its
    backups. */
module ReplicationLaws {
  import opened Paths
  import opened Files
  import opened MirrorPaths
  import opened Disks
  import opened Replication

  /** What the path of a command holds once the command has been performed. */
  function Outcome(op: Op): Option<Node> {
    match op
    case MakeFolder => Some(Dir)
    case Touch => Some(File(""))
    case RemoveFolder => None
    case Remove => None
  }

  lemma {:induction false} ExecOutcome(d: FS, op: Op, p: Path, q: Path)
    requires Succeeds(d, op, p)
    ensures Look(Exec(d, op, p), q) == if q == p then Outcome(op) else Look(d, q)
  {
  }

  /** A command whose path the naming server finds and that the disk can perform
      takes effect at its path alone, and goes to the first and the second backup
      of that server and to nobody else.  Any other command changes nothing. */
  lemma {:induction false} ClientActs(cfg: Config, s: State, i: nat, c: Cmd, q: Path, b: nat)
    requires Inv(cfg, s) && Allowed(cfg, s, Client(i, c)) && b < |cfg.roots|
    ensures var t, x := Next(cfg, s, Client(i, c)), Resolve(c.path);
            && Sized(cfg, t)
            && if Found(s.tries[i], c) && Succeeds(s.disks[i], c.op, x) then
                 && Look(t.disks[i], q) == (if q == x then Outcome(c.op) else Look(s.disks[i], q))
                 && (b != i ==> t.disks[b] == s.disks[b])
                 && t.channels[b] ==
                    if cfg.first[i] == b || cfg.second[i] == b then s.channels[b] + [c] else s.channels[b]
               else t == s
  {
    if Performed(s, i, c) {
      ExecOutcome(s.disks[i], c.op, Resolve(c.path), q);
      ClientAt(cfg, s, i, c, i);
      ClientAt(cfg, s, i, c, b);
    }
  }

  /** Draining one server's channel changes no other disk. */
  lemma {:induction false} DrainLeaves(cfg: Config, s: State, b: nat, n: nat, i: nat)
    requires Inv(cfg, s) && b < |cfg.roots| && |s.channels[b]| == n && i < |cfg.roots| && i != b
    ensures IsRun(cfg, s, Drained(b, n)) && After(cfg, s, Drained(b, n)).disks[i] == s.disks[i]
    decreases n
  {
    if n > 0 {
      var t := Next(cfg, s, Deliver(b));
      DeliverAt(cfg, s, b);
      DeliverKeeps(cfg, s, b);
      StepLeaves(cfg, s, Deliver(b), i);
      DrainLeaves(cfg, t, b, n - 1, i);
      RunCons(cfg, s, Deliver(b), Drained(b, n - 1));
    }
  }

  /** Once the channel is drained, both backups have at the mirror path what the
      command left at the primary. */
  lemma {:induction false} ReachesBackups(cfg: Config, s: State, i: nat, c: Cmd, b: nat)
    requires Inv(cfg, s) && Allowed(cfg, s, Client(i, c)) && b < |cfg.roots|
    requires Found(s.tries[i], c) && Succeeds(s.disks[i], c.op, Resolve(c.path))
    requires cfg.first[i] == b || cfg.second[i] == b
    ensures var run := [Client(i, c)] + Drained(b, |s.channels[b]| + 1);
            && IsRun(cfg, s, run)
            && var u := After(cfg, s, run);
            && u.channels[b] == []
            && Look(u.disks[i], Resolve(c.path)) == Outcome(c.op)
            && Look(u.disks[b], Mirror(cfg.roots[b], c.path)) == Outcome(c.op)
  {
    var t, x, n := Next(cfg, s, Client(i, c)), Resolve(c.path), |s.channels[b]| + 1;
    StepKeeps(cfg, s, Client(i, c));
    ClientActs(cfg, s, i, c, x, b);
    DrainLeaves(cfg, t, b, n, i);
    Drains(cfg, t, b, i);
    RunCons(cfg, s, Client(i, c), Drained(b, n));
    ProperResolves(c.path);
    assert SameAt(After(cfg, t, Drained(b, n)).disks[b], cfg.At(b), t.disks[i], x);
  }
}
