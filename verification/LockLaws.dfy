/** What the lock means for the threads, said without its fields. */
module LockLaws {
  import opened Locks
  import opened LockProtocol

  /** A thread may be inside with everybody who is inside: all of them readers. */
  predicate MayJoin(ts: seq<Thread>, i: nat)
    requires i < |ts|
  {
    forall j :: 0 <= j < |ts| && Inside(ts[j]) ==> ts[i].kind == Reader && ts[j].kind == Reader
  }

  lemma {:induction false} NobodyOfKind(ts: seq<Thread>, k: Kind)
    ensures InsideOf(ts, k) == 0 <==> forall j :: 0 <= j < |ts| ==> !(Inside(ts[j]) && ts[j].kind == k)
  {
    if InsideOf(ts, k) > 0 {
      InsideWitness(ts, k);
    }
    forall j | 0 <= j < |ts|
      ensures Inside(ts[j]) && ts[j].kind == k ==> InsideOf(ts, k) > 0
    {
      if Inside(ts[j]) && ts[j].kind == k {
        InsideAtLeast(ts, j, j, k);
      }
    }
  }

  lemma {:induction false} BlockedExact(s: State, k: Kind)
    requires Safe(s)
    ensures Blocked(s.v, k) <==>
            exists j :: 0 <= j < |s.ts| && Inside(s.ts[j]) && (k != Reader || s.ts[j].kind != Reader)
  {
    NobodyOfKind(s.ts, Reader);
    NobodyOfKind(s.ts, Writer);
    NobodyOfKind(s.ts, Deleter);
  }

  /** An attempt succeeds if and only if the thread is a reader and everybody
      inside is a reader, or nobody is inside; otherwise the thread waits. */
  lemma {:induction false} AttemptExact(s: State, i: nat)
    requires Safe(s) && i < |s.ts| && Ready(s.ts[i])
    ensures var ts := Next(s, Attempt(i)).ts;
            && (ts[i].phase == Holding <==> MayJoin(s.ts, i))
            && (ts[i].phase == Waiting <==> !MayJoin(s.ts, i))
            && ts[i].kind == s.ts[i].kind && forall j | 0 <= j < |ts| && j != i :: ts[j] == s.ts[j]
  {
    BlockedExact(s, s.ts[i].kind);
  }

  predicate AloneInside(ts: seq<Thread>, i: nat) {
    forall j :: 0 <= j < |ts| && j != i ==> !Inside(ts[j])
  }

  lemma {:induction false} LastReader(s: State, i: nat)
    requires Safe(s) && i < |s.ts| && Inside(s.ts[i]) && s.ts[i].kind == Reader
    ensures s.v.readers == 1 <==> AloneInside(s.ts, i)
  {
    var out := s.ts[i := Thread(Reader, Done)];
    InsideUpdate(s.ts, i, Thread(Reader, Done), Reader);
    NobodyOfKind(out, Reader);
    forall j | 0 <= j < |s.ts| && j != i
      ensures out[j] == s.ts[j] && (Inside(s.ts[j]) ==> s.ts[j].kind == Reader)
    {
      if Inside(s.ts[j]) {
        Exclusion(s, i, j);
      }
    }
  }

  /** Whom a release wakes: a deleter everybody who waits; a writer, and a reader
      who was the last one inside, one of them; any other reader nobody. */
  lemma {:induction false} ReleaseExact(s: State, i: nat, w: nat)
    requires Safe(s) && Enabled(s, Release(i, w))
    ensures var ts := Next(s, Release(i, w)).ts;
            && ts[i] == Thread(s.ts[i].kind, Done)
            && forall j | 0 <= j < |ts| && j != i ::
                 if s.ts[j].phase == Waiting
                    && (s.ts[i].kind == Deleter || (j == w && (s.ts[i].kind == Writer || AloneInside(s.ts, i))))
                 then ts[j] == Thread(s.ts[j].kind, Woken)
                 else ts[j] == s.ts[j]
    ensures s.ts[i].kind != Deleter && (s.ts[i].kind == Writer || AloneInside(s.ts, i)) && SomeWaiting(s.ts) ==>
              w < |s.ts| && s.ts[w].phase == Waiting
  {
    if s.ts[i].kind == Reader {
      LastReader(s, i);
    }
  }

  /** Returning without a release, and waking up for no reason, concern one thread. */
  lemma {:induction false} OtherSteps(s: State, i: nat)
    requires i < |s.ts|
    ensures Enabled(s, Abandon(i)) ==>
              Next(s, Abandon(i)) == State(s.v, s.ts[i := Thread(s.ts[i].kind, Abandoned)])
    ensures Enabled(s, Spurious(i)) ==>
              Next(s, Spurious(i)) == State(s.v, s.ts[i := Thread(s.ts[i].kind, Woken)])
  {
  }

  /** Who can do what: a thread about to take the mutex tries, a waiting one may
      wake up for no reason, one that holds the lock can give it up to any waiter
      or, as a writer, go away with it, and nobody else does anything. */
  lemma {:induction false} WhatCanHappen(s: State, i: nat)
    requires i < |s.ts|
    ensures var p := s.ts[i].phase;
            && (Enabled(s, Attempt(i)) <==> p == Arriving || p == Woken)
            && (Enabled(s, Spurious(i)) <==> p == Waiting)
            && (Enabled(s, Abandon(i)) <==> p == Holding && s.ts[i].kind == Writer)
            && ((exists w :: Enabled(s, Release(i, w))) <==> p == Holding)
            && (p == Holding ==> forall w | 0 <= w < |s.ts| && s.ts[w].phase == Waiting :: Enabled(s, Release(i, w)))
  {
    if s.ts[i].phase == Holding {
      if w: nat :| w < |s.ts| && s.ts[w].phase == Waiting {
        assert Enabled(s, Release(i, w));
      } else {
        assert Enabled(s, Release(i, 0));
      }
    }
  }

  /** Of `n` readers the first `k` are inside. */
  function SomeReaders(n: nat, k: nat): State {
    State(Vars(k, false, false), seq(n, i => Thread(Reader, if i < k then Holding else Arriving)))
  }

  function EnterFrom(n: nat, k: nat): seq<Action>
    decreases n - k
  {
    if k >= n then [] else [Attempt(k)] + EnterFrom(n, k + 1)
  }

  lemma {:induction false} ReadersEnter(n: nat, k: nat)
    requires k <= n
    ensures IsRun(SomeReaders(n, k), EnterFrom(n, k))
    ensures After(SomeReaders(n, k), EnterFrom(n, k)) == SomeReaders(n, n)
    decreases n - k
  {
    if k < n {
      var s := SomeReaders(n, k);
      assert Next(s, Attempt(k)).ts == SomeReaders(n, k + 1).ts;
      ReadersEnter(n, k + 1);
      OneStep(s, Attempt(k), EnterFrom(n, k + 1));
    }
  }

  /** Readers share the lock: for every `n`, some run ends with `n` readers inside. */
  lemma {:induction false} ReadersShare(n: nat) returns (s: State, run: seq<Action>)
    ensures Initial(s) && |s.ts| == n && IsRun(s, run)
    ensures forall i | 0 <= i < n :: After(s, run).ts[i] == Thread(Reader, Holding)
  {
    s, run := SomeReaders(n, 0), EnterFrom(n, 0);
    ReadersEnter(n, 0);
  }
}
