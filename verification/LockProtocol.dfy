/** Any number of threads on one lock, in mutex-atomic steps. */
module LockProtocol {
  import opened Locks

  /** Arriving: about to take the mutex.  Waiting: in `pthread_cond_wait`.
      Woken: signalled, about to re-test the condition.  Abandoned: a holder
      that returned without releasing, as the writers do when `fopen` fails. */
  datatype Phase = Arriving | Waiting | Woken | Holding | Abandoned | Done

  datatype Thread = Thread(kind: Kind, phase: Phase)

  datatype State = State(v: Vars, ts: seq<Thread>)

  datatype Action =
    | Attempt(t: nat)
    | Release(t: nat, w: nat)   // w: the thread a signal picks
    | Abandon(t: nat)
    | Spurious(t: nat)

  predicate Inside(th: Thread) {
    th.phase == Holding || th.phase == Abandoned
  }

  predicate Ready(th: Thread) {
    th.phase == Arriving || th.phase == Woken
  }

  predicate Unfinished(th: Thread) {
    th.phase != Done && th.phase != Abandoned
  }

  predicate SomeWaiting(ts: seq<Thread>) {
    exists i :: 0 <= i < |ts| && ts[i].phase == Waiting
  }

  function WakeAll(ts: seq<Thread>): seq<Thread> {
    seq(|ts|, i requires 0 <= i < |ts| => if ts[i].phase == Waiting then ts[i].(phase := Woken) else ts[i])
  }

  predicate Enabled(s: State, a: Action) {
    a.t < |s.ts| &&
    match a
    case Attempt(t) => Ready(s.ts[t])
    case Release(t, w) =>
      && s.ts[t].phase == Holding
      && (WakeOf(s.v, s.ts[t].kind) == One && SomeWaiting(s.ts) ==> w < |s.ts| && s.ts[w].phase == Waiting)
    case Abandon(t) => s.ts[t].phase == Holding && s.ts[t].kind == Writer
    case Spurious(t) => s.ts[t].phase == Waiting
  }

  function Next(s: State, a: Action): (s': State)
    requires Enabled(s, a)
    ensures |s'.ts| == |s.ts|
  {
    var th := s.ts[a.t];
    match a
    case Attempt(t) =>
      if Blocked(s.v, th.kind) then s.(ts := s.ts[t := th.(phase := Waiting)])
      else State(Acquired(s.v, th.kind), s.ts[t := th.(phase := Holding)])
    case Release(t, w) =>
      var ts := s.ts[t := th.(phase := Done)];
      var ts' := match WakeOf(s.v, th.kind)
                 case Nobody => ts
                 case One => if SomeWaiting(s.ts) then ts[w := ts[w].(phase := Woken)] else ts
                 case All => WakeAll(ts);
      State(Released(s.v, th.kind), ts')
    case Abandon(t) => s.(ts := s.ts[t := th.(phase := Abandoned)])
    case Spurious(t) => s.(ts := s.ts[t := th.(phase := Woken)])
  }

  /** How many of the threads inside are of a kind. */
  function InsideOf(ts: seq<Thread>, k: Kind): nat {
    if ts == [] then 0 else (if Inside(ts[0]) && ts[0].kind == k then 1 else 0) + InsideOf(ts[1..], k)
  }

  function ReadyCount(ts: seq<Thread>): (n: nat)
    ensures n <= |ts|
  {
    if ts == [] then 0 else (if Ready(ts[0]) then 1 else 0) + ReadyCount(ts[1..])
  }

  function UnfinishedCount(ts: seq<Thread>): nat {
    if ts == [] then 0 else (if Unfinished(ts[0]) then 1 else 0) + UnfinishedCount(ts[1..])
  }

  function Bit(b: bool): nat {
    if b then 1 else 0
  }

  /** The fields count the threads inside, and writers and deleters are alone. */
  ghost predicate Safe(s: State) {
    && s.v.readers == InsideOf(s.ts, Reader)
    && Bit(s.v.writing) == InsideOf(s.ts, Writer)
    && Bit(s.v.deleting) == InsideOf(s.ts, Deleter)
    && !(s.v.writing && s.v.deleting)
    && (s.v.writing || s.v.deleting ==> s.v.readers == 0)
    && forall i :: 0 <= i < |s.ts| && s.ts[i].phase == Abandoned ==> s.ts[i].kind == Writer
  }

  predicate Held(v: Vars) {
    v.readers > 0 || v.writing || v.deleting
  }

  /** No lost wake-up: waiters imply a holder or a woken thread. */
  ghost predicate Live(s: State) {
    SomeWaiting(s.ts) ==> Held(s.v) || exists i :: 0 <= i < |s.ts| && s.ts[i].phase == Woken
  }

  lemma {:induction false} InsideUpdate(ts: seq<Thread>, t: nat, th: Thread, k: Kind)
    requires t < |ts|
    ensures InsideOf(ts[t := th], k) ==
            InsideOf(ts, k) - Bit(Inside(ts[t]) && ts[t].kind == k) + Bit(Inside(th) && th.kind == k)
    decreases |ts|
  {
    if t == 0 {
      assert ts[t := th][1..] == ts[1..];
    } else {
      assert ts[t := th][1..] == ts[1..][t - 1 := th];
      InsideUpdate(ts[1..], t - 1, th, k);
    }
  }

  lemma {:induction false} ReadyUpdate(ts: seq<Thread>, t: nat, th: Thread)
    requires t < |ts|
    ensures ReadyCount(ts[t := th]) == ReadyCount(ts) - Bit(Ready(ts[t])) + Bit(Ready(th))
    decreases |ts|
  {
    if t == 0 {
      assert ts[t := th][1..] == ts[1..];
    } else {
      assert ts[t := th][1..] == ts[1..][t - 1 := th];
      ReadyUpdate(ts[1..], t - 1, th);
    }
  }

  lemma {:induction false} UnfinishedUpdate(ts: seq<Thread>, t: nat, th: Thread)
    requires t < |ts|
    ensures UnfinishedCount(ts[t := th]) == UnfinishedCount(ts) - Bit(Unfinished(ts[t])) + Bit(Unfinished(th))
    decreases |ts|
  {
    if t == 0 {
      assert ts[t := th][1..] == ts[1..];
    } else {
      assert ts[t := th][1..] == ts[1..][t - 1 := th];
      UnfinishedUpdate(ts[1..], t - 1, th);
    }
  }

  /** Waking threads changes neither who is inside nor who is unfinished. */
  lemma {:induction false} WakeAllCounts(ts: seq<Thread>, k: Kind)
    ensures InsideOf(WakeAll(ts), k) == InsideOf(ts, k)
    ensures UnfinishedCount(WakeAll(ts)) == UnfinishedCount(ts)
    decreases |ts|
  {
    if ts != [] {
      assert WakeAll(ts)[1..] == WakeAll(ts[1..]);
      WakeAllCounts(ts[1..], k);
    }
  }

  /** One thread inside is counted; two are counted twice. */
  lemma {:induction false} InsideAtLeast(ts: seq<Thread>, i: nat, j: nat, k: Kind)
    requires i < |ts| && j < |ts| && Inside(ts[i]) && ts[i].kind == k
    ensures InsideOf(ts, k) >= 1
    ensures i != j && Inside(ts[j]) && ts[j].kind == k ==> InsideOf(ts, k) >= 2
    decreases |ts|
  {
    if i == 0 {
      if j > 0 && Inside(ts[j]) && ts[j].kind == k {
        InsideAtLeast(ts[1..], j - 1, j - 1, k);
      }
    } else if j == 0 {
      InsideAtLeast(ts[1..], i - 1, i - 1, k);
    } else {
      InsideAtLeast(ts[1..], i - 1, j - 1, k);
    }
  }

  lemma {:induction false} InsideWitness(ts: seq<Thread>, k: Kind)
    requires InsideOf(ts, k) > 0
    ensures exists i :: 0 <= i < |ts| && Inside(ts[i]) && ts[i].kind == k
    decreases |ts|
  {
    if Inside(ts[0]) && ts[0].kind == k {
    } else {
      InsideWitness(ts[1..], k);
      var i :| 0 <= i < |ts[1..]| && Inside(ts[1..][i]) && ts[1..][i].kind == k;
      assert Inside(ts[i + 1]) && ts[i + 1].kind == k;
    }
  }

  /** Mutual exclusion: a writer or deleter inside is alone. */
  lemma {:induction false} Exclusion(s: State, i: nat, j: nat)
    requires Safe(s) && i < |s.ts| && j < |s.ts| && i != j && Inside(s.ts[i]) && Inside(s.ts[j])
    ensures s.ts[i].kind == Reader && s.ts[j].kind == Reader
  {
    InsideAtLeast(s.ts, i, j, s.ts[i].kind);
    InsideAtLeast(s.ts, j, i, s.ts[j].kind);
  }

  ghost predicate Inv(s: State) {
    Safe(s) && Live(s)
  }

  /** The counts after a release: the releaser leaves, nobody enters. */
  lemma {:induction false} ReleaseCounts(s: State, t: nat, w: nat, k: Kind)
    requires Enabled(s, Release(t, w))
    ensures var ts := Next(s, Release(t, w)).ts;
            && InsideOf(ts, k) == InsideOf(s.ts, k) - Bit(s.ts[t].kind == k)
            && UnfinishedCount(ts) == UnfinishedCount(s.ts) - 1
  {
    var th := s.ts[t];
    var ts := s.ts[t := th.(phase := Done)];
    InsideUpdate(s.ts, t, th.(phase := Done), k);
    UnfinishedUpdate(s.ts, t, th.(phase := Done));
    match WakeOf(s.v, th.kind)
    case Nobody =>
    case One =>
      if SomeWaiting(s.ts) {
        InsideUpdate(ts, w, ts[w].(phase := Woken), k);
        UnfinishedUpdate(ts, w, ts[w].(phase := Woken));
      }
    case All => WakeAllCounts(ts, k);
  }

  /** The counts after any other step: one thread changes its phase. */
  lemma {:induction false} OtherCounts(s: State, a: Action, k: Kind)
    requires Enabled(s, a) && !a.Release?
    ensures var s' := Next(s, a);
            InsideOf(s'.ts, k) == InsideOf(s.ts, k) + Bit(a.Attempt? && !Blocked(s.v, s.ts[a.t].kind) && s.ts[a.t].kind == k)
  {
    var th := Next(s, a).ts[a.t];
    InsideUpdate(s.ts, a.t, th, k);
  }

  lemma {:induction false} SafeStep(s: State, a: Action)
    requires Safe(s) && Enabled(s, a)
    ensures Safe(Next(s, a))
  {
    if a.Release? {
      ReleaseCounts(s, a.t, a.w, Reader);
      ReleaseCounts(s, a.t, a.w, Writer);
      ReleaseCounts(s, a.t, a.w, Deleter);
      InsideAtLeast(s.ts, a.t, a.t, s.ts[a.t].kind);
    } else {
      OtherCounts(s, a, Reader);
      OtherCounts(s, a, Writer);
      OtherCounts(s, a, Deleter);
    }
  }

  /** A blocked or releasing thread never leaves waiters unattended. */
  lemma {:induction false} LiveStep(s: State, a: Action)
    requires Inv(s) && Enabled(s, a)
    ensures Live(Next(s, a))
  {
    var s' := Next(s, a);
    match a
    case Attempt(t) =>
    case Spurious(t) => assert s'.ts[t].phase == Woken;
    case Abandon(t) =>
      InsideAtLeast(s.ts, t, t, Writer);
    case Release(t, w) =>
      InsideAtLeast(s.ts, t, t, s.ts[t].kind);
      match WakeOf(s.v, s.ts[t].kind)
      case Nobody =>
      case One =>
        if SomeWaiting(s.ts) {
          assert s'.ts[w].phase == Woken;
        } else {
          assert forall i :: 0 <= i < |s.ts| && s'.ts[i].phase == Waiting ==> s.ts[i].phase == Waiting;
        }
      case All =>
  }

  lemma {:induction false} StepKeeps(s: State, a: Action)
    requires Inv(s) && Enabled(s, a)
    ensures Inv(Next(s, a))
  {
    SafeStep(s, a);
    LiveStep(s, a);
  }

  /** Requests still to be served first, then threads about to run. */
  function Rank(s: State): nat {
    UnfinishedCount(s.ts) * (|s.ts| + 1) + ReadyCount(s.ts)
  }

  lemma {:induction false} RankStep(u: nat, u': nat, r: nat, r': nat, n: nat)
    requires (u' == u && r' < r) || (u' == u - 1 && r' < n)
    ensures u' * n + r' < u * n + r
  {
    if u' == u - 1 {
      assert u * n == u' * n + n;
    }
  }

  lemma {:induction false} RankDecreases(s: State, a: Action)
    requires Enabled(s, a) && !a.Spurious?
    ensures Rank(Next(s, a)) < Rank(s)
  {
    var s' := Next(s, a);
    if a.Release? {
      ReleaseCounts(s, a.t, a.w, Reader);
    } else {
      ReadyUpdate(s.ts, a.t, s'.ts[a.t]);
      UnfinishedUpdate(s.ts, a.t, s'.ts[a.t]);
    }
    RankStep(UnfinishedCount(s.ts), UnfinishedCount(s'.ts), ReadyCount(s.ts), ReadyCount(s'.ts), |s.ts| + 1);
  }

  ghost predicate IsRun(s: State, run: seq<Action>)
    decreases |run|
  {
    run == [] || (Enabled(s, run[0]) && IsRun(Next(s, run[0]), run[1..]))
  }

  ghost function After(s: State, run: seq<Action>): (s': State)
    requires IsRun(s, run)
    ensures |s'.ts| == |s.ts|
    decreases |run|
  {
    if run == [] then s else After(Next(s, run[0]), run[1..])
  }

  /** All threads about to request the free lock. */
  predicate Initial(s: State) {
    s.v == Vars(0, false, false) && forall i :: 0 <= i < |s.ts| ==> s.ts[i].phase == Arriving
  }

  lemma {:induction false} InitialInv(s: State)
    requires Initial(s)
    ensures Inv(s)
  {
    NoneInside(s.ts, Reader);
    NoneInside(s.ts, Writer);
    NoneInside(s.ts, Deleter);
  }

  lemma {:induction false} NoneInside(ts: seq<Thread>, k: Kind)
    requires forall i :: 0 <= i < |ts| ==> ts[i].phase == Arriving
    ensures InsideOf(ts, k) == 0
    decreases |ts|
  {
    if ts != [] {
      NoneInside(ts[1..], k);
    }
  }

  lemma {:induction false} RunKeeps(s: State, run: seq<Action>)
    requires Inv(s) && IsRun(s, run)
    ensures Inv(After(s, run))
    decreases |run|
  {
    if run != [] {
      StepKeeps(s, run[0]);
      RunKeeps(Next(s, run[0]), run[1..]);
    }
  }

  /** Safety of every run, spurious wake-ups and abandoned locks included. */
  lemma {:induction false} MutualExclusion(s: State, run: seq<Action>, i: nat, j: nat)
    requires Initial(s) && IsRun(s, run)
    requires i < |s.ts| && j < |s.ts| && i != j
    ensures var ts := After(s, run).ts;
            Inside(ts[i]) && Inside(ts[j]) ==> ts[i].kind == Reader && ts[j].kind == Reader
    ensures var r := After(s, run); r.v.readers == InsideOf(r.ts, Reader)
  {
    InitialInv(s);
    RunKeeps(s, run);
    var r := After(s, run);
    if Inside(r.ts[i]) && Inside(r.ts[j]) {
      Exclusion(r, i, j);
    }
  }

  /** Runs without spurious wake-ups are bounded. */
  lemma {:induction false} RunBounded(s: State, run: seq<Action>)
    requires IsRun(s, run) && forall i :: 0 <= i < |run| ==> !run[i].Spurious?
    ensures |run| + Rank(After(s, run)) <= Rank(s)
    decreases |run|
  {
    if run != [] {
      RankDecreases(s, run[0]);
      RunBounded(Next(s, run[0]), run[1..]);
    }
  }

  /** Nothing can run any more: no attempt and no release is enabled. */
  ghost predicate Stuck(s: State) {
    forall a: Action :: a.Attempt? || a.Release? ==> !Enabled(s, a)
  }

  lemma {:induction false} StuckPhases(s: State, i: nat)
    requires Stuck(s) && i < |s.ts|
    ensures s.ts[i].phase in {Waiting, Abandoned, Done}
  {
    assert !Enabled(s, Attempt(i));
    if s.ts[i].phase == Holding {
      if SomeWaiting(s.ts) {
        var w :| 0 <= w < |s.ts| && s.ts[w].phase == Waiting;
        assert Enabled(s, Release(i, w));
      } else {
        assert Enabled(s, Release(i, 0));
      }
    }
  }

  /** A stuck lock has served everybody, unless a holder walked away. */
  lemma {:induction false} StuckMeansServed(s: State)
    requires Inv(s) && Stuck(s)
    ensures AllDone(s.ts) <==> !SomeAbandoned(s.ts)
  {
    forall i | 0 <= i < |s.ts|
      ensures s.ts[i].phase in {Waiting, Abandoned, Done}
    {
      StuckPhases(s, i);
    }
    if SomeWaiting(s.ts) {
      assert Held(s.v);
      var k := if s.v.writing then Writer else if s.v.deleting then Deleter else Reader;
      InsideWitness(s.ts, k);
    }
  }

  /** Progress: every run without spurious wake-ups is finite, and one that
      cannot be continued has served every request if and only if no holder
      walked away without releasing. */
  lemma {:induction false} EveryRequestServed(s: State, run: seq<Action>)
    requires Initial(s) && IsRun(s, run) && forall i :: 0 <= i < |run| ==> !run[i].Spurious?
    ensures |run| <= |s.ts| * (|s.ts| + 2)
    ensures Stuck(After(s, run)) ==>
              (AllDone(After(s, run).ts) <==> forall i :: 0 <= i < |run| ==> !run[i].Abandon?)
  {
    InitialInv(s);
    RunKeeps(s, run);
    RunBounded(s, run);
    InitialRank(s);
    AbandonedIff(s, run);
    if Stuck(After(s, run)) {
      StuckMeansServed(After(s, run));
    }
  }

  lemma {:induction false} InitialRank(s: State)
    ensures Rank(s) <= |s.ts| * (|s.ts| + 2)
  {
    AllUnfinished(s.ts);
    var n := |s.ts|;
    assert UnfinishedCount(s.ts) * (n + 1) <= n * (n + 1);
    assert n * (n + 1) + n == n * (n + 2);
  }

  lemma {:induction false} AllUnfinished(ts: seq<Thread>)
    ensures UnfinishedCount(ts) <= |ts|
    decreases |ts|
  {
    if ts != [] {
      AllUnfinished(ts[1..]);
    }
  }

  predicate AllDone(ts: seq<Thread>) {
    forall i :: 0 <= i < |ts| ==> ts[i].phase == Done
  }

  predicate SomeAbandoned(ts: seq<Thread>) {
    exists i :: 0 <= i < |ts| && ts[i].phase == Abandoned
  }

  lemma {:induction false} AbandonedStep(s: State, a: Action)
    requires Enabled(s, a)
    ensures SomeAbandoned(Next(s, a).ts) <==> SomeAbandoned(s.ts) || a.Abandon?
  {
    var s' := Next(s, a);
    if SomeAbandoned(s.ts) {
      var i :| 0 <= i < |s.ts| && s.ts[i].phase == Abandoned;
      assert s'.ts[i].phase == Abandoned;
    }
    if SomeAbandoned(s'.ts) {
      var i :| 0 <= i < |s'.ts| && s'.ts[i].phase == Abandoned;
      assert s.ts[i].phase == Abandoned || a == Abandon(i);
    }
    if a.Abandon? {
      assert s'.ts[a.t].phase == Abandoned;
    }
  }

  lemma {:induction false} AbandonedIff(s: State, run: seq<Action>)
    requires IsRun(s, run)
    ensures SomeAbandoned(After(s, run).ts) <==> SomeAbandoned(s.ts) || exists i :: 0 <= i < |run| && run[i].Abandon?
    decreases |run|
  {
    if run != [] {
      AbandonedStep(s, run[0]);
      AbandonedIff(Next(s, run[0]), run[1..]);
      assert forall i :: 0 <= i < |run[1..]| ==> run[1..][i] == run[i + 1];
      if i :| 0 <= i < |run| && run[i].Abandon? {
        assert i == 0 || run[1..][i - 1].Abandon?;
      }
    }
  }

  /** After a writer walks away, nobody is ever served again. */
  lemma {:induction false} AbandonedLockIsDead(s: State, run: seq<Action>, i: nat)
    requires Safe(s) && SomeAbandoned(s.ts) && IsRun(s, run) && i < |s.ts|
    ensures After(s, run).ts[i].phase == Done <==> s.ts[i].phase == Done
    decreases |run|
  {
    if run != [] {
      var a := run[0];
      var j :| 0 <= j < |s.ts| && s.ts[j].phase == Abandoned;
      InsideAtLeast(s.ts, j, j, s.ts[j].kind);
      if a.Release? {
        Exclusion(s, a.t, j);
      }
      SafeStep(s, a);
      AbandonedStep(s, a);
      AbandonedLockIsDead(Next(s, a), run[1..], i);
    }
  }

  /** A failing run: the first writer cannot open its file, the second waits for ever. */
  lemma {:induction false} AbandonedRun()
    ensures var writer := Thread(Writer, Arriving);
            var s, run := State(Vars(0, false, false), [writer, writer]), [Attempt(0), Abandon(0), Attempt(1)];
            && Initial(s) && IsRun(s, run) && Stuck(After(s, run)) && After(s, run).ts[1].phase == Waiting
  {
    var free, held := Vars(0, false, false), Vars(0, true, false);
    var writer := Thread(Writer, Arriving);
    var s0 := State(free, [writer, writer]);
    var s1 := State(held, [Thread(Writer, Holding), writer]);
    var s2 := State(held, [Thread(Writer, Abandoned), writer]);
    var s3 := State(held, [Thread(Writer, Abandoned), Thread(Writer, Waiting)]);
    assert Next(s0, Attempt(0)) == s1 && Next(s1, Abandon(0)) == s2 && Next(s2, Attempt(1)) == s3;
    OneStep(s2, Attempt(1), []);
    OneStep(s1, Abandon(0), [Attempt(1)]);
    OneStep(s0, Attempt(0), [Abandon(0), Attempt(1)]);
    assert [Abandon(0)] + [Attempt(1)] == [Abandon(0), Attempt(1)];
    assert [Attempt(0)] + [Abandon(0), Attempt(1)] == [Attempt(0), Abandon(0), Attempt(1)];
    assert [Attempt(1)] + [] == [Attempt(1)];
  }

  lemma {:induction false} OneStep(s: State, a: Action, run: seq<Action>)
    requires Enabled(s, a) && IsRun(Next(s, a), run)
    ensures IsRun(s, [a] + run) && After(s, [a] + run) == After(Next(s, a), run)
  {
    assert ([a] + run)[1..] == run;
  }

  /** The lock object follows the protocol: one step of a thread of this kind. */
  method Perform(lock: FileLock, a: Action, kind: Kind, ghost s: State)
    requires lock.View() == s.v && Enabled(s, a) && kind == s.ts[a.t].kind
    modifies lock
    ensures lock.View() == Next(s, a).v
  {
    if a.Attempt? {
      var _ := Enter(lock, kind);
    } else if a.Release? {
      var _ := Leave(lock, kind);
    }
  }

  method Enter(lock: FileLock, kind: Kind) returns (entered: bool)
    modifies lock
    ensures entered == !Blocked(old(lock.View()), kind)
    ensures lock.View() == if entered then Acquired(old(lock.View()), kind) else old(lock.View())
  {
    match kind
    case Reader => entered := lock.TryRead();
    case Writer => entered := lock.TryWrite();
    case Deleter => entered := lock.TryDelete();
  }

  method Leave(lock: FileLock, kind: Kind) returns (wake: Wake)
    modifies lock
    ensures lock.View() == Released(old(lock.View()), kind) && wake == WakeOf(old(lock.View()), kind)
  {
    match kind
    case Reader => wake := lock.ReleaseRead();
    case Writer => wake := lock.ReleaseWrite();
    case Deleter => wake := lock.ReleaseDelete();
  }
}
