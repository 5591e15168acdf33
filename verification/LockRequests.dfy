/** What arrives at the lock table, and what that means for exclusion. */
module LockRequests {
  import opened Collections
  import opened Locks
  import opened LockProtocol
  import opened LockTable

  function Kinds(ts: seq<Thread>): seq<Kind> {
    seq(|ts|, i requires 0 <= i < |ts| => ts[i].kind)
  }

  /** The kinds a history asks for on a path, in order. */
  function AskedFor(es: seq<Event>, path: string): seq<Kind> {
    if es == [] then []
    else (if es[0].Request? && es[0].path == path then [es[0].kind] else []) + AskedFor(es[1..], path)
  }

  lemma {:induction false} AskedOne(e: Event, path: string)
    ensures AskedFor([e], path) == if e.Request? && e.path == path then [e.kind] else []
  {
    assert [e][1..] == [];
  }

  lemma {:induction false} NextKinds(s: State, a: Action)
    requires Enabled(s, a)
    ensures Kinds(Next(s, a).ts) == Kinds(s.ts)
  {
  }

  function KindsAt(y: System, l: nat): seq<Kind> {
    if l < |y.locks| then Kinds(y.locks[l].ts) else []
  }

  /** One event adds at most one thread, and that to the lock of its path. */
  lemma {:induction false} EventKinds(y: System, e: Event, l: nat)
    requires SystemInv(y) && Possible(y, e) && SystemInv(Happen(y, e)) && l < |Happen(y, e).paths|
    ensures KindsAt(Happen(y, e), l) == KindsAt(y, l) + AskedFor([e], Happen(y, e).paths[l])
  {
    var z := Happen(y, e);
    AskedOne(e, z.paths[l]);
    if e.Step? {
      NextKinds(y.locks[e.lock], e.action);
    } else {
      var i := IndexOf(y.paths, e.path);
      assert z.paths[l] == e.path <==> l == i;
      assert l == i ==> Kinds(z.locks[l].ts) == KindsAt(y, l) + [e.kind];
    }
  }

  lemma {:induction false} AskedConcat(a: seq<Event>, b: seq<Event>, path: string)
    ensures AskedFor(a + b, path) == AskedFor(a, path) + AskedFor(b, path)
    decreases |a|
  {
    if a == [] {
      assert a + b == b;
    } else {
      assert (a + b)[1..] == a[1..] + b;
      AskedConcat(a[1..], b, path);
    }
  }

  /** What one event adds at the place of a path that is listed in the end. */
  lemma {:induction false} EventAdds(y: System, e: Event, l: nat, paths: seq<string>)
    requires SystemInv(y) && Possible(y, e) && SystemInv(Happen(y, e))
    requires Happen(y, e).paths <= paths && Distinct(paths) && l < |paths|
    ensures KindsAt(Happen(y, e), l) == KindsAt(y, l) + AskedFor([e], paths[l])
  {
    var z := Happen(y, e);
    if l < |z.paths| {
      EventKinds(y, e, l);
    } else {
      AskedOne(e, paths[l]);
      NewPathUnasked(y, e, paths[l]);
      assert paths[l] !in z.paths by {
        assert forall k | 0 <= k < |z.paths| :: z.paths[k] == paths[k];
      }
      assert |y.paths| <= |z.paths|;
    }
  }

  lemma {:induction false} HistoryKinds(y: System, es: seq<Event>, l: nat)
    requires SystemInv(y) && IsHistory(y, es) && l < |Eventually(y, es).paths|
    ensures KindsAt(Eventually(y, es), l) == KindsAt(y, l) + AskedFor(es, Eventually(y, es).paths[l])
    decreases |es|
  {
    if es != [] {
      var z := Happen(y, es[0]);
      EventKeeps(y, es[0]);
      HistoryKeeps(z, es[1..]);
      HistoryKinds(z, es[1..], l);
      var paths := Eventually(z, es[1..]).paths;
      EventAdds(y, es[0], l, paths);
      AskedFirst(es, paths[l]);
      Regroup(KindsAt(y, l), AskedFor([es[0]], paths[l]), AskedFor(es[1..], paths[l]));
      EventuallyLater(y, es);
    }
  }

  lemma {:induction false} Regroup(a: seq<Kind>, b: seq<Kind>, c: seq<Kind>)
    ensures a + b + c == a + (b + c)
  {
  }

  lemma {:induction false} AskedFirst(es: seq<Event>, path: string)
    requires es != []
    ensures AskedFor(es, path) == AskedFor([es[0]], path) + AskedFor(es[1..], path)
  {
    AskedOne(es[0], path);
  }

  lemma {:induction false} EventuallyLater(y: System, es: seq<Event>)
    requires IsHistory(y, es) && es != []
    ensures Eventually(y, es) == Eventually(Happen(y, es[0]), es[1..])
  {
  }

  /** A path that is not listed after an event was not asked for by it. */
  lemma {:induction false} NewPathUnasked(y: System, e: Event, path: string)
    requires SystemInv(y) && Possible(y, e)
    ensures AskedFor([e], path) != [] ==> path in Happen(y, e).paths
  {
    AskedOne(e, path);
    if e.Request? && path == e.path {
      assert Happen(y, e).paths[IndexOf(y.paths, path)] == path;
    }
  }

  /** After every history from the empty table, the threads on a lock are exactly
      those that asked for its path, in order and with the kinds they asked for. */
  lemma {:induction false} ThreadsAreRequests(es: seq<Event>, l: nat)
    requires IsHistory(System([], []), es) && l < |Eventually(System([], []), es).locks|
    ensures var y := Eventually(System([], []), es);
            && |y.locks| == |y.paths| && Distinct(y.paths)
            && Kinds(y.locks[l].ts) == AskedFor(es, y.paths[l])
  {
    HistoryKeeps(System([], []), es);
    HistoryKinds(System([], []), es, l);
  }

  lemma {:induction false} AskedIsListed(y: System, es: seq<Event>, path: string)
    requires SystemInv(y) && IsHistory(y, es) && AskedFor(es, path) != []
    ensures path in Eventually(y, es).paths
    decreases |es|
  {
    var z := Happen(y, es[0]);
    EventKeeps(y, es[0]);
    HistoryKeeps(z, es[1..]);
    if AskedFor(es[1..], path) != [] {
      AskedIsListed(z, es[1..], path);
    } else {
      assert [es[0]][1..] == [];
      NewPathUnasked(y, es[0], path);
      var i :| 0 <= i < |z.paths| && z.paths[i] == path;
      assert Eventually(z, es[1..]).paths[i] == path;
    }
  }

  /** The thread of request `r`: which one it is on the lock of its path. */
  function Place(es: seq<Event>, r: nat): nat
    requires r < |es| && es[r].Request?
  {
    |AskedFor(es[..r], es[r].path)|
  }

  lemma {:induction false} PlaceAsked(es: seq<Event>, r: nat)
    requires r < |es| && es[r].Request?
    ensures Place(es, r) < |AskedFor(es, es[r].path)| && AskedFor(es, es[r].path)[Place(es, r)] == es[r].kind
  {
    var path := es[r].path;
    assert es == es[..r] + es[r..] && es[r..][0] == es[r];
    AskedConcat(es[..r], es[r..], path);
  }

  lemma {:induction false} PlacesDiffer(es: seq<Event>, q: nat, r: nat)
    requires q < r < |es| && es[q].Request? && es[r].Request? && es[q].path == es[r].path
    ensures Place(es, q) < Place(es, r)
  {
    var path := es[q].path;
    assert es[..r] == es[..q] + es[q..r] && es[q..r][0] == es[q];
    AskedConcat(es[..q], es[q..r], path);
  }

  /** Request `r` is served at the moment. */
  ghost predicate Served(es: seq<Event>, r: nat)
    requires IsHistory(System([], []), es) && r < |es| && es[r].Request?
  {
    var y := Eventually(System([], []), es);
    exists l :: 0 <= l < |y.locks| == |y.paths| && y.paths[l] == es[r].path
                && Place(es, r) < |y.locks[l].ts| && Inside(y.locks[l].ts[Place(es, r)])
  }

  /** Exclusion of requests: two requests for one path, one of them a writer or a
      deleter, are never inside together. */
  lemma {:induction false} RequestsExclude(es: seq<Event>, q: nat, r: nat)
    requires IsHistory(System([], []), es) && q < r < |es|
    requires es[q].Request? && es[r].Request? && es[q].path == es[r].path
    requires es[q].kind != Reader || es[r].kind != Reader
    ensures !(Served(es, q) && Served(es, r))
  {
    var y := Eventually(System([], []), es);
    PlacesDiffer(es, q, r);
    PlaceAsked(es, q);
    PlaceAsked(es, r);
    forall l, m | 0 <= l < |y.locks| == |y.paths| && 0 <= m < |y.locks| && y.paths[l] == y.paths[m] == es[q].path
                  && Place(es, q) < |y.locks[l].ts| && Inside(y.locks[l].ts[Place(es, q)])
                  && Place(es, r) < |y.locks[m].ts|
      ensures !Inside(y.locks[m].ts[Place(es, r)])
    {
      ThreadsAreRequests(es, l);
      ThreadsAreRequests(es, m);
      assert Kinds(y.locks[l].ts)[Place(es, q)] == es[q].kind && Kinds(y.locks[m].ts)[Place(es, r)] == es[r].kind;
      if Inside(y.locks[m].ts[Place(es, r)]) {
        PathExclusion(es, l, Place(es, q), m, Place(es, r));
      }
    }
  }

  /** Every request has a thread on the lock of its path. */
  lemma {:induction false} RequestHasThread(es: seq<Event>, r: nat) returns (l: nat)
    requires IsHistory(System([], []), es) && r < |es| && es[r].Request?
    ensures var y := Eventually(System([], []), es);
            && l < |y.locks| == |y.paths| && y.paths[l] == es[r].path
            && Place(es, r) < |y.locks[l].ts| && y.locks[l].ts[Place(es, r)].kind == es[r].kind
  {
    PlaceAsked(es, r);
    HistoryKeeps(System([], []), es);
    AskedIsListed(System([], []), es, es[r].path);
    var y := Eventually(System([], []), es);
    l :| 0 <= l < |y.paths| && y.paths[l] == es[r].path;
    ThreadsAreRequests(es, l);
    assert Kinds(y.locks[l].ts)[Place(es, r)] == es[r].kind;
  }

  /** The first request for a path goes in at once. */
  lemma {:induction false} FirstIsServed(path: string, kind: Kind)
    ensures var es := [Request(path, kind), Step(0, Attempt(0))];
            IsHistory(System([], []), es) && Served(es, 0)
  {
    var es := [Request(path, kind), Step(0, Attempt(0))];
    var y0: System := System([], []);
    var y1 := Happen(y0, es[0]);
    var y2 := Happen(y1, es[1]);
    assert es[1..][0] == es[1] && es[1..][1..] == [];
    assert IsHistory(y2, []) && IsHistory(y1, es[1..]);
    assert Eventually(y2, []) == y2 && Eventually(y1, es[1..]) == y2;
    assert Eventually(y0, es) == y2;
    assert es[..0] == [] && Place(es, 0) == 0;
    assert y2.paths[0] == path && Inside(y2.locks[0].ts[0]);
  }
}
