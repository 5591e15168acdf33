/** The storage server's table of locks, one per requested path. */
module LockTable {
  import opened Collections
  import opened Locks
  import opened LockProtocol

  const MAX_REQ := 1024

  function IndexOf(paths: seq<string>, path: string): (i: nat)
    ensures i <= |paths|
    ensures i < |paths| ==> paths[i] == path
    ensures i == |paths| <==> path !in paths
  {
    if paths == [] || paths[0] == path then 0 else 1 + IndexOf(paths[1..], path)
  }

  /** All locks of a storage server together with the threads on them. */
  datatype System = System(paths: seq<string>, locks: seq<State>)

  datatype Event =
    | Request(path: string, kind: Kind)   // atomic lookup-or-init, then the thread arrives
    | Step(lock: nat, action: Action)

  predicate Possible(y: System, e: Event) {
    match e
    case Request(path, _) => path in y.paths || |y.paths| < MAX_REQ
    case Step(l, a) => l < |y.locks| && Enabled(y.locks[l], a)
  }

  function Happen(y: System, e: Event): System
    requires |y.locks| == |y.paths| && Possible(y, e)
  {
    match e
    case Request(path, kind) =>
      var i := IndexOf(y.paths, path);
      var th := Thread(kind, Arriving);
      if i < |y.paths| then y.(locks := y.locks[i := y.locks[i].(ts := y.locks[i].ts + [th])])
      else System(y.paths + [path], y.locks + [State(Vars(0, false, false), [th])])
    case Step(l, a) => y.(locks := y.locks[l := Next(y.locks[l], a)])
  }

  /** `conc_array` and `num_of_requests`. */
  class Table {
    var paths: seq<string>
    var locks: seq<FileLock>

    ghost predicate Valid()
      reads this
    {
      && |locks| == |paths| <= MAX_REQ && Distinct(paths)
      && forall i, j :: 0 <= i < j < |locks| ==> locks[i] != locks[j]
    }

    /** The objects stand for the locks of the system. */
    ghost predicate Represents(y: System)
      reads this, locks
    {
      && Valid() && paths == y.paths && |y.locks| == |locks|
      && forall i :: 0 <= i < |locks| ==> locks[i].View() == y.locks[i].v
    }

    constructor ()
      ensures Valid() && paths == []
    {
      paths, locks := [], [];
    }

    /** `doesLockRequestedFileAlreadExist`. */
    method Find(path: string) returns (i: int)
      requires Valid()
      ensures i == if path in paths then IndexOf(paths, path) else -1
    {
      i := 0;
      while i < |paths|
        invariant 0 <= i <= |paths| && path !in paths[..i]
      {
        if paths[i] == path {
          return;
        }
        i := i + 1;
      }
      assert paths[..i] == paths;
      i := -1;
    }

    /** The lookup-or-init pattern: a known path keeps its slot and its lock, a
        new one takes the next slot with a free lock. */
    method LookupOrInit(path: string) returns (i: nat)
      requires Valid() && (path in paths || |paths| < MAX_REQ)
      modifies this
      ensures Valid() && i < |paths| && i == IndexOf(old(paths), path) && paths[i] == path
      ensures old(paths) <= paths && old(locks) <= locks
      ensures if path in old(paths) then paths == old(paths)
              else paths == old(paths) + [path] && fresh(locks[i]) && locks[i].View() == Vars(0, false, false)
    {
      var k := Find(path);
      if k == -1 {
        var lock := new FileLock();
        paths, locks := paths + [path], locks + [lock];
        i := |paths| - 1;
      } else {
        i := k;
      }
    }

    /** The objects follow the protocol: a request finds or makes the lock of its
        path, and a step of a thread changes that lock alone. */
    method Follow(e: Event, kind: Kind, ghost y: System)
      requires Represents(y) && Possible(y, e)
      requires e.Step? ==> kind == y.locks[e.lock].ts[e.action.t].kind
      modifies this, locks
      ensures Represents(Happen(y, e))
    {
      match e
      case Request(path, _) =>
        var _ := LookupOrInit(path);
      case Step(l, a) =>
        Perform(locks[l], a, kind, y.locks[l]);
    }
  }

  ghost predicate SystemInv(y: System) {
    && |y.locks| == |y.paths| && Distinct(y.paths)
    && forall l :: 0 <= l < |y.locks| ==> Inv(y.locks[l])
  }

  lemma {:induction false} InsideAppend(ts: seq<Thread>, th: Thread, k: Kind)
    requires th.phase == Arriving
    ensures InsideOf(ts + [th], k) == InsideOf(ts, k)
    decreases |ts|
  {
    if ts == [] {
      assert (ts + [th])[1..] == [];
    } else {
      assert (ts + [th])[1..] == ts[1..] + [th];
      InsideAppend(ts[1..], th, k);
    }
  }

  lemma {:induction false} ArrivalKeeps(s: State, th: Thread)
    requires Inv(s) && th.phase == Arriving
    ensures Inv(s.(ts := s.ts + [th]))
  {
    var s' := s.(ts := s.ts + [th]);
    InsideAppend(s.ts, th, Reader);
    InsideAppend(s.ts, th, Writer);
    InsideAppend(s.ts, th, Deleter);
    if SomeWaiting(s'.ts) {
      var i :| 0 <= i < |s'.ts| && s'.ts[i].phase == Waiting;
      assert s.ts[i].phase == Waiting;
      if !Held(s.v) {
        var j :| 0 <= j < |s.ts| && s.ts[j].phase == Woken;
        assert s'.ts[j].phase == Woken;
      }
    }
  }

  lemma {:induction false} EventKeeps(y: System, e: Event)
    requires SystemInv(y) && Possible(y, e)
    ensures SystemInv(Happen(y, e))
    ensures y.paths <= Happen(y, e).paths
  {
    match e
    case Request(path, kind) =>
      var th := Thread(kind, Arriving);
      var i := IndexOf(y.paths, path);
      if i < |y.paths| {
        ArrivalKeeps(y.locks[i], th);
      } else {
        InitialInv(State(Vars(0, false, false), [th]));
      }
    case Step(l, a) => StepKeeps(y.locks[l], a);
  }

  ghost predicate IsHistory(y: System, es: seq<Event>)
    decreases |es|
  {
    es == [] || (|y.locks| == |y.paths| && Possible(y, es[0]) && IsHistory(Happen(y, es[0]), es[1..]))
  }

  ghost function Eventually(y: System, es: seq<Event>): System
    requires IsHistory(y, es)
    decreases |es|
  {
    if es == [] then y else Eventually(Happen(y, es[0]), es[1..])
  }

  lemma {:induction false} HistoryKeeps(y: System, es: seq<Event>)
    requires SystemInv(y) && IsHistory(y, es)
    ensures SystemInv(Eventually(y, es)) && y.paths <= Eventually(y, es).paths
    decreases |es|
  {
    if es != [] {
      EventKeeps(y, es[0]);
      HistoryKeeps(Happen(y, es[0]), es[1..]);
    }
  }

  /** Exclusion per path: two threads inside locks of the same path are both
      readers, after every history of requests and lock steps. */
  lemma {:induction false} PathExclusion(es: seq<Event>, l: nat, i: nat, m: nat, j: nat)
    requires IsHistory(System([], []), es)
    requires var y := Eventually(System([], []), es);
             && |y.locks| == |y.paths| && l < |y.locks| && m < |y.locks| && y.paths[l] == y.paths[m]
             && i < |y.locks[l].ts| && j < |y.locks[m].ts| && (l, i) != (m, j)
             && Inside(y.locks[l].ts[i]) && Inside(y.locks[m].ts[j])
    ensures var y := Eventually(System([], []), es);
            y.locks[l].ts[i].kind == Reader && y.locks[m].ts[j].kind == Reader
  {
    HistoryKeeps(System([], []), es);
    var y := Eventually(System([], []), es);
    assert l == m;
    Exclusion(y.locks[l], i, j);
  }
}
