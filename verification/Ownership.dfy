/** Unique ownership over every run, whether or not the cache stays coherent. */
module Ownership {
  import opened Paths
  import opened PathSets
  import opened Cache
  import opened Metadata

  /** The commands as they come: canonical paths, any verdict of the storage
      server, and listings below one root folder.  Only the removal of a
      server's root folder is excluded. */
  ghost predicate Admissible(s: State, c: Command) {
    match c
    case Lookup(path) => Canonical(path)
    case Create(path, _) => Canonical(path)
    case Remove(path, ok) => Canonical(path) && (ok ==> |Parse(path)| >= 3)
    case Register(root, ps) => Rooted(ps, root)
    case Reindex(i, ps) => i < |s.tries| && i < |s.roots| && Rooted(ps, s.roots[i])
  }

  ghost predicate AdmissibleRun(s: State, capacity: nat, cs: seq<Command>)
    decreases |cs|
  {
    cs == [] || (Admissible(s, cs[0]) && AdmissibleRun(Apply(s, capacity, cs[0]), capacity, cs[1..]))
  }

  /** A cached index may be out of date, but it names the server whose root the
      key lies below. */
  ghost predicate Tagged(roots: seq<string>, e: Entry) {
    && Canonical(e.key) && 0 <= e.index < |roots|
    && (|Parse(e.key)| >= 2 ==> Parse(e.key)[1] == roots[e.index])
  }

  ghost predicate AllTagged(roots: seq<string>, q: seq<Entry>) {
    forall k | 0 <= k < |q| :: Tagged(roots, q[k])
  }

  ghost predicate Sound(s: State) {
    Owned(s) && AllTagged(s.roots, s.cache)
  }

  lemma {:induction false} WithoutTagged(roots: seq<string>, q: seq<Entry>, i: nat)
    requires AllTagged(roots, q) && i < |q|
    ensures AllTagged(roots, Without(q, i))
  {
    var r := Without(q, i);
    assert forall k | 0 <= k < |r| :: r[k] == q[if k < i then k else k + 1];
  }

  lemma {:induction false} RoomTagged(roots: seq<string>, q: seq<Entry>, capacity: nat)
    requires AllTagged(roots, q)
    ensures AllTagged(roots, Room(q, capacity))
  {
    if Room(q, capacity) != q {
      WithoutTagged(roots, q, 0);
      assert Room(q, capacity) == Without(q, 0);
    }
  }

  lemma {:induction false} AddedTagged(roots: seq<string>, q: seq<Entry>, capacity: nat, key: string, i: int)
    requires AllTagged(roots, q) && Tagged(roots, Entry(key, i))
    ensures AllTagged(roots, AddedTo(q, capacity, key, i))
  {
    RoomTagged(roots, q, capacity);
    AppendTagged(roots, Room(q, capacity), Entry(key, i));
  }

  lemma {:induction false} AppendTagged(roots: seq<string>, q: seq<Entry>, e: Entry)
    requires AllTagged(roots, q) && Tagged(roots, e)
    ensures AllTagged(roots, q + [e])
  {
  }

  /** What a search finds lies below the root of the server it is found at. */
  lemma {:induction false} FoundTagged(s: State, path: string)
    requires Owned(s) && Canonical(path) && FirstMatch(s.tries, Parse(path)) != -1
    ensures Tagged(s.roots, Entry(path, FirstMatch(s.tries, Parse(path))))
  {
    var i := FirstMatch(s.tries, Parse(path));
    assert Rooted(s.tries[i], s.roots[i]);
  }

  lemma {:induction false} AnswerTagged(s: State, path: string)
    requires Sound(s) && Canonical(path) && Answer(s, path) != -1
    ensures Tagged(s.roots, Entry(path, Answer(s, path)))
  {
    var i := Find(s.cache, path);
    if i != -1 {
      assert Tagged(s.roots, s.cache[i]);
    } else {
      FoundTagged(s, path);
    }
  }

  lemma {:induction false} TouchSound(s: State, capacity: nat, path: string)
    requires Sound(s) && Canonical(path)
    ensures Sound(Touch(s, capacity, path))
  {
    var i := Find(s.cache, path);
    if i != -1 {
      WithoutTagged(s.roots, s.cache, i);
      assert Tagged(s.roots, s.cache[i]);
    } else if FirstMatch(s.tries, Parse(path)) != -1 {
      FoundTagged(s, path);
      AddedTagged(s.roots, s.cache, capacity, path, FirstMatch(s.tries, Parse(path)));
    }
  }

  /** A create adds below the root of the server it was sent to, even if that
      server was named by an entry out of date. */
  lemma {:induction false} CreateSound(s: State, capacity: nat, path: string, ok: bool)
    requires Sound(s) && Canonical(path)
    ensures Sound(Created(s, capacity, path, ok))
  {
    var parent := CutLast(path);
    if !Refused(parent) {
      assert |Parse(path)| == 1 ==> path == ".";
      CutLastIsParent(path);
      TouchSound(s, capacity, parent);
      var i := Answer(s, parent);
      if i != -1 {
        AnswerTagged(s, parent);
        assert |Parse(parent)| == 1 ==> parent == ".";
        AddedTagged(s.roots, Touch(s, capacity, parent).cache, capacity, path, i);
        assert Rooted(s.tries[i], s.roots[i]);
        RootedAdded(s.tries[i], s.roots[i], Parse(path));
        if ok {
          OwnedUpdate(s, Created(s, capacity, path, ok), i, Added(s.tries[i], Parse(path)));
        }
      }
    }
  }

  lemma {:induction false} RemoveSound(s: State, capacity: nat, path: string, ok: bool)
    requires Sound(s) && Canonical(path) && (ok ==> |Parse(path)| >= 3)
    ensures Sound(RemovedState(s, capacity, path, ok))
  {
    TouchSound(s, capacity, path);
    var i, q := Answer(s, path), Touch(s, capacity, path).cache;
    if !Refused(path) && i != -1 {
      AnswerTagged(s, path);
      if Find(q, path) != -1 {
        WithoutTagged(s.roots, q, Find(q, path));
      }
      if ok {
        assert Rooted(s.tries[i], s.roots[i]);
        RootedRemove(s.tries[i], s.roots[i], Parse(path));
        OwnedUpdate(s, RemovedState(s, capacity, path, ok), i, Removed(s.tries[i], Parse(path)));
      }
    }
  }

  lemma {:induction false} RegisterSound(s: State, root: string, ps: set<Path>)
    requires Sound(s) && Rooted(ps, root)
    ensures Sound(Registered(s, root, ps))
  {
    var t := Registered(s, root, ps);
    forall j | 0 <= j < |t.tries|
      ensures Rooted(t.tries[j], t.roots[j])
    {
      assert j < |s.tries| ==> Rooted(s.tries[j], s.roots[j]);
    }
    forall k | 0 <= k < |s.cache|
      ensures Tagged(t.roots, s.cache[k])
    {
      assert Tagged(s.roots, s.cache[k]);
    }
  }

  /** Every command keeps ownership, coherent or not. */
  lemma {:induction false} StepSound(s: State, capacity: nat, c: Command)
    requires Sound(s) && Admissible(s, c)
    ensures Sound(Apply(s, capacity, c))
  {
    match c
    case Lookup(path) => TouchSound(s, capacity, path);
    case Create(path, ok) => CreateSound(s, capacity, path, ok);
    case Remove(path, ok) => RemoveSound(s, capacity, path, ok);
    case Register(root, ps) => RegisterSound(s, root, ps);
    case Reindex(i, ps) => OwnedUpdate(s, Reindexed(s, i, ps), i, ps);
  }

  lemma {:induction false} RunSound(s: State, capacity: nat, cs: seq<Command>)
    requires Sound(s) && AdmissibleRun(s, capacity, cs)
    ensures Sound(Run(s, capacity, cs))
    decreases |cs|
  {
    if cs != [] {
      StepSound(s, capacity, cs[0]);
      RunSound(Apply(s, capacity, cs[0]), capacity, cs[1..]);
    }
  }

  /** From the empty naming server, after every run: roots differ, a path of two
      or more components is in at most one trie, and the first match is that
      trie whatever the order of the servers. */
  lemma {:induction false} UniqueOwnership(capacity: nat, cs: seq<Command>, p: Path, i: nat)
    requires AdmissibleRun(State([], [], []), capacity, cs)
    requires |p| >= 2 && i < |Run(State([], [], []), capacity, cs).tries|
    ensures var s := Run(State([], [], []), capacity, cs);
            && Owned(s) && (FirstMatch(s.tries, p) == i <==> p in s.tries[i])
            && forall j | 0 <= j < |s.tries| && p in s.tries[i] && p in s.tries[j] :: j == i
  {
    RunSound(State([], [], []), capacity, cs);
    var s := Run(State([], [], []), capacity, cs);
    OwnerIsUnique(s, p, i);
    forall j | 0 <= j < |s.tries|
      ensures FirstMatch(s.tries, p) == j <==> p in s.tries[j]
    {
      OwnerIsUnique(s, p, j);
    }
  }

  /** The condition under which a command keeps the cache coherent. */
  ghost predicate Safe(s: State, capacity: nat, c: Command) {
    match c
    case Lookup(_) => true
    case Create(path, ok) => CreateSafe(s, capacity, path, ok)
    case Remove(path, ok) => RemoveSafe(s, capacity, path, ok)
    case Register(_, _) => true
    case Reindex(i, ps) => forall e | e in s.cache && e.index == i :: Parse(e.key) in ps
  }

  ghost predicate SafeRun(s: State, capacity: nat, cs: seq<Command>)
    decreases |cs|
  {
    cs == [] || (Safe(s, capacity, cs[0]) && SafeRun(Apply(s, capacity, cs[0]), capacity, cs[1..]))
  }

  /** The cache is coherent before and after every command of the run. */
  ghost predicate CoherentRun(s: State, capacity: nat, cs: seq<Command>)
    decreases |cs|
  {
    Coherent(s) && (cs == [] || CoherentRun(Apply(s, capacity, cs[0]), capacity, cs[1..]))
  }

  lemma {:induction false} StepExact(s: State, capacity: nat, c: Command)
    requires Inv(s, capacity) && Admissible(s, c)
    ensures Coherent(Apply(s, capacity, c)) <==> Safe(s, capacity, c)
    ensures Safe(s, capacity, c) ==> Inv(Apply(s, capacity, c), capacity)
  {
    match c
    case Lookup(path) => TouchKeeps(s, capacity, path);
    case Create(path, ok) => CreateExact(s, capacity, path, ok);
    case Remove(path, ok) => RemoveExact(s, capacity, path, ok);
    case Register(root, ps) => RegisterKeeps(s, capacity, root, ps);
    case Reindex(i, ps) => ReindexExact(s, capacity, i, ps);
  }

  /** A run stays coherent all the way if and only if each command meets its
      condition when it comes. */
  lemma {:induction false} CoherenceExact(s: State, capacity: nat, cs: seq<Command>)
    requires Inv(s, capacity) && AdmissibleRun(s, capacity, cs)
    ensures CoherentRun(s, capacity, cs) <==> SafeRun(s, capacity, cs)
    ensures SafeRun(s, capacity, cs) ==> Inv(Run(s, capacity, cs), capacity)
    decreases |cs|
  {
    if cs != [] {
      StepExact(s, capacity, cs[0]);
      var t := Apply(s, capacity, cs[0]);
      if Safe(s, capacity, cs[0]) {
        CoherenceExact(t, capacity, cs[1..]);
      } else {
        assert !CoherentRun(t, capacity, cs[1..]);
      }
    }
  }

  /** The runs of ordinary use meet the condition. */
  lemma {:induction false} LegalIsSafe(s: State, capacity: nat, cs: seq<Command>)
    requires Inv(s, capacity) && Legal(s, capacity, cs)
    ensures AdmissibleRun(s, capacity, cs) && SafeRun(s, capacity, cs)
    decreases |cs|
  {
    if cs != [] {
      StepKeeps(s, capacity, cs[0]);
      assert Admissible(s, cs[0]);
      StepExact(s, capacity, cs[0]);
      LegalIsSafe(Apply(s, capacity, cs[0]), capacity, cs[1..]);
    }
  }
}
