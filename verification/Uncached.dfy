/** The naming server without its cache, and the proof that clients cannot tell
    the difference. */
module Uncached {
  import opened Paths
  import opened PathSets
  import opened Metadata
  import opened Ownership

  datatype Plain = Plain(tries: seq<set<Path>>, roots: seq<string>)

  function Strip(s: State): Plain {
    Plain(s.tries, s.roots)
  }

  /** The server that a plain search finds for a command, or -1. */
  function PlainOwner(p: Plain, c: Command): (i: int)
    ensures -1 <= i < |p.tries|
  {
    match c
    case Lookup(path) => FirstMatch(p.tries, Parse(path))
    case Create(path, _) => if Refused(CutLast(path)) then -1 else FirstMatch(p.tries, Parse(CutLast(path)))
    case Remove(path, _) => if Refused(path) then -1 else FirstMatch(p.tries, Parse(path))
    case Register(_, _) => -1
    case Reindex(_, _) => -1
  }

  function PlainApply(p: Plain, c: Command): Plain {
    var i := PlainOwner(p, c);
    match c
    case Lookup(_) => p
    case Create(path, ok) =>
      if i == -1 || !ok then p else p.(tries := p.tries[i := Added(p.tries[i], Parse(path))])
    case Remove(path, ok) =>
      if i == -1 || !ok then p else p.(tries := p.tries[i := Removed(p.tries[i], Parse(path))])
    case Register(root, ps) => if root in p.roots then p else Plain(p.tries + [ps], p.roots + [root])
    case Reindex(k, ps) => if k < |p.tries| then p.(tries := p.tries[k := ps]) else p
  }

  /** The server the naming server picks through its cache. */
  function Owner(s: State, c: Command): int {
    match c
    case Lookup(path) => Answer(s, path)
    case Create(path, _) => if Refused(CutLast(path)) then -1 else Answer(s, CutLast(path))
    case Remove(path, _) => if Refused(path) then -1 else Answer(s, path)
    case Register(_, _) => -1
    case Reindex(_, _) => -1
  }

  ghost function Owners(s: State, capacity: nat, cs: seq<Command>): seq<int>
    decreases |cs|
  {
    if cs == [] then [] else [Owner(s, cs[0])] + Owners(Apply(s, capacity, cs[0]), capacity, cs[1..])
  }

  function PlainOwners(p: Plain, cs: seq<Command>): seq<int>
    decreases |cs|
  {
    if cs == [] then [] else [PlainOwner(p, cs[0])] + PlainOwners(PlainApply(p, cs[0]), cs[1..])
  }

  function PlainRun(p: Plain, cs: seq<Command>): Plain
    decreases |cs|
  {
    if cs == [] then p else PlainRun(PlainApply(p, cs[0]), cs[1..])
  }

  /** In a coherent state both pick the same server. */
  lemma {:induction false} SameOwner(s: State, c: Command)
    requires Coherent(s)
    ensures Owner(s, c) == PlainOwner(Strip(s), c)
  {
    match c
    case Lookup(path) => CachedIsUncached(s, path);
    case Create(path, _) => CachedIsUncached(s, CutLast(path));
    case Remove(path, _) => CachedIsUncached(s, path);
    case Register(_, _) =>
    case Reindex(_, _) =>
  }

  lemma {:induction false} SameStep(s: State, capacity: nat, c: Command)
    requires Coherent(s)
    ensures Strip(Apply(s, capacity, c)) == PlainApply(Strip(s), c)
  {
    SameOwner(s, c);
  }

  /** Over every run that meets the coherence conditions the cached server picks
      the servers that the plain one picks and ends with the same tries. */
  lemma {:induction false} CacheInvisible(s: State, capacity: nat, cs: seq<Command>)
    requires Inv(s, capacity) && AdmissibleRun(s, capacity, cs) && SafeRun(s, capacity, cs)
    ensures Owners(s, capacity, cs) == PlainOwners(Strip(s), cs)
    ensures Strip(Run(s, capacity, cs)) == PlainRun(Strip(s), cs)
    decreases |cs|
  {
    if cs != [] {
      SameOwner(s, cs[0]);
      SameStep(s, capacity, cs[0]);
      StepExact(s, capacity, cs[0]);
      CacheInvisible(Apply(s, capacity, cs[0]), capacity, cs[1..]);
    }
  }
}
