/** The naming server's metadata as a state machine: the path sets of the
    registered servers with the lookup cache in front of them. */
module Metadata {
  import opened Collections
  import opened Paths
  import opened PathSets
  import opened Cache

  /** Server `i` is rooted at "./" + roots[i] and its trie holds tries[i]. */
  datatype State = State(tries: seq<set<Path>>, roots: seq<string>, cache: seq<Entry>)

  const MAX_STORAGE_SERVERS := 10

  /** `search_in_tries`: the first server whose trie holds the path, or -1. */
  function FirstMatch(tries: seq<set<Path>>, p: Path): (i: int)
    ensures -1 <= i < |tries|
    ensures i >= 0 ==> p in tries[i]
    ensures forall j :: 0 <= j < (if i == -1 then |tries| else i) ==> p !in tries[j]
  {
    MatchFrom(tries, p, 0)
  }

  function MatchFrom(tries: seq<set<Path>>, p: Path, k: nat): (i: int)
    requires k <= |tries|
    ensures -1 <= i < |tries| && (i == -1 || k <= i)
    ensures i >= 0 ==> p in tries[i]
    ensures forall j :: k <= j < (if i == -1 then |tries| else i) ==> p !in tries[j]
    decreases |tries| - k
  {
    if k == |tries| then -1 else if p in tries[k] then k else MatchFrom(tries, p, k + 1)
  }

  /** The client commands and server events that change the metadata.  `ok` is
      the storage server's verdict: it is up and did not answer "Could not". */
  datatype Command =
    | Lookup(path: string)
    | Create(path: string, ok: bool)
    | Remove(path: string, ok: bool)
    | Register(root: string, paths: set<Path>)
    | Reindex(server: nat, paths: set<Path>)

  /** `search_storage_server`: the answer and the touched cache. */
  function Answer(s: State, path: string): int {
    var i := Find(s.cache, path);
    if i != -1 then s.cache[i].index else FirstMatch(s.tries, Parse(path))
  }

  function Touch(s: State, capacity: nat, path: string): State {
    s.(cache := LookedUp(s.cache, capacity, path, FirstMatch(s.tries, Parse(path))))
  }

  predicate Refused(path: string) {
    path in {"./", ".", "/", "", " "}
  }

  /** The create branch of `process_client`: look the parent up, cache the new
      path under the parent's server at once, and add it if the server agrees. */
  function Created(s: State, capacity: nat, path: string, ok: bool): State {
    var parent := CutLast(path);
    if Refused(parent) then s
    else
      var i := Answer(s, parent);
      var t := Touch(s, capacity, parent);
      if i == -1 then t
      else
        var u := t.(cache := AddedTo(t.cache, capacity, path, i));
        if ok && 0 <= i < |s.tries|
        then u.(tries := u.tries[i := Added(s.tries[i], Parse(path))])
        else u
  }

  /** The remove branch: look the path up, drop it from the cache, and delete
      its subtree if the server agrees. */
  function RemovedState(s: State, capacity: nat, path: string, ok: bool): State {
    if Refused(path) then s
    else
      var i := Answer(s, path);
      var t := Touch(s, capacity, path);
      if i == -1 then t
      else
        var u := t.(cache := Deleted(t.cache, path));
        if ok && 0 <= i < |s.tries| then u.(tries := u.tries[i := Removed(s.tries[i], Parse(path))]) else u
  }

  /** A registration: a known root is a restart and changes nothing here. */
  function Registered(s: State, root: string, paths: set<Path>): State {
    if root in s.roots then s else s.(tries := s.tries + [paths], roots := s.roots + [root])
  }

  function Reindexed(s: State, i: nat, paths: set<Path>): State {
    if i < |s.tries| then s.(tries := s.tries[i := paths]) else s
  }

  function Apply(s: State, capacity: nat, c: Command): State {
    match c
    case Lookup(path) => Touch(s, capacity, path)
    case Create(path, ok) => Created(s, capacity, path, ok)
    case Remove(path, ok) => RemovedState(s, capacity, path, ok)
    case Register(root, paths) => Registered(s, root, paths)
    case Reindex(i, paths) => Reindexed(s, i, paths)
  }

  /** The paths of one server: closed, and all below its root folder. */
  ghost predicate Rooted(ps: set<Path>, root: string) {
    && PrefixClosed(ps) && [".", root] in ps
    && forall p | p in ps && p != [] :: p[0] == "." && (|p| >= 2 ==> p[1] == root)
  }

  /** Unique ownership: server roots differ pairwise. */
  ghost predicate Owned(s: State) {
    && |s.roots| == |s.tries|
    && (forall i | 0 <= i < |s.tries| :: Rooted(s.tries[i], s.roots[i]))
    && (forall i, j | 0 <= i < j < |s.roots| :: s.roots[i] != s.roots[j])
  }

  ghost predicate EntryOk(tries: seq<set<Path>>, e: Entry) {
    Canonical(e.key) && e.index >= 0 && e.index == FirstMatch(tries, Parse(e.key))
  }

  /** Coherence: distinct keys, and every entry tells what the tries tell. */
  ghost predicate CacheOk(tries: seq<set<Path>>, q: seq<Entry>) {
    Distinct(Keys(q)) && forall i | 0 <= i < |q| :: EntryOk(tries, q[i])
  }

  ghost predicate Coherent(s: State) {
    CacheOk(s.tries, s.cache)
  }

  ghost predicate Inv(s: State, capacity: nat) {
    capacity >= 1 && Owned(s) && Coherent(s) && |s.cache| <= capacity
  }

  /** A path of two or more components is in at most one trie, so the first
      match does not depend on the order of the servers. */
  lemma {:induction false} OwnerIsUnique(s: State, p: Path, i: nat)
    requires Owned(s) && |p| >= 2 && i < |s.tries|
    ensures FirstMatch(s.tries, p) == i <==> p in s.tries[i]
  {
    var j := FirstMatch(s.tries, p);
    assert j >= 0 ==> Rooted(s.tries[j], s.roots[j]);
    assert Rooted(s.tries[i], s.roots[i]);
  }

  /** In a coherent state the cached answer is the uncached one. */
  lemma {:induction false} CachedIsUncached(s: State, path: string)
    requires Coherent(s)
    ensures Answer(s, path) == FirstMatch(s.tries, Parse(path))
  {
    var i := Find(s.cache, path);
    assert i != -1 ==> EntryOk(s.tries, s.cache[i]);
  }

  lemma {:induction false} WithoutDistinct<T>(s: seq<T>, i: nat)
    requires Distinct(s) && i < |s|
    ensures Distinct(Without(s, i)) && s[i] !in Without(s, i)
  {
    var r := Without(s, i);
    assert forall k | 0 <= k < |r| :: r[k] == s[if k < i then k else k + 1];
  }

  lemma {:induction false} WithoutEntries(tries: seq<set<Path>>, q: seq<Entry>, i: nat)
    requires i < |q| && forall k | 0 <= k < |q| :: EntryOk(tries, q[k])
    ensures forall k | 0 <= k < |q| - 1 :: EntryOk(tries, Without(q, i)[k])
    ensures Keys(Without(q, i)) == Without(Keys(q), i)
  {
    var r := Without(q, i);
    assert forall k | 0 <= k < |r| :: r[k] == q[if k < i then k else k + 1];
  }

  lemma {:induction false} WithoutOk(tries: seq<set<Path>>, q: seq<Entry>, i: nat)
    requires CacheOk(tries, q) && i < |q|
    ensures CacheOk(tries, Without(q, i)) && q[i].key !in Keys(Without(q, i))
  {
    WithoutEntries(tries, q, i);
    WithoutDistinct(Keys(q), i);
  }

  lemma {:induction false} AppendDistinct<T>(s: seq<T>, x: T)
    ensures Distinct(s + [x]) <==> Distinct(s) && x !in s
  {
    var r := s + [x];
    assert forall k | 0 <= k < |s| :: r[k] == s[k];
    assert r[|s|] == x;
  }

  lemma {:induction false} AppendExact(tries: seq<set<Path>>, q: seq<Entry>, e: Entry)
    ensures CacheOk(tries, q + [e]) <==> CacheOk(tries, q) && EntryOk(tries, e) && e.key !in Keys(q)
  {
    var r := q + [e];
    assert Keys(r) == Keys(q) + [e.key];
    AppendDistinct(Keys(q), e.key);
    assert forall k | 0 <= k < |q| :: r[k] == q[k];
    if CacheOk(tries, r) {
      assert EntryOk(tries, r[|q|]);
      assert forall k | 0 <= k < |q| :: EntryOk(tries, r[k]);
    }
  }

  lemma {:induction false} RoomKeys(q: seq<Entry>, capacity: nat, k: string)
    requires k in Keys(Room(q, capacity))
    ensures k in Keys(q)
  {
    var r := Room(q, capacity);
    var j :| 0 <= j < |r| && Keys(r)[j] == k;
    assert k == Keys(q)[|q| - |r| + j];
  }

  lemma {:induction false} RoomOk(tries: seq<set<Path>>, q: seq<Entry>, capacity: nat)
    requires CacheOk(tries, q) && |q| <= capacity && 1 <= capacity
    ensures CacheOk(tries, Room(q, capacity)) && |Room(q, capacity)| < capacity
  {
    if |q| == capacity {
      WithoutOk(tries, q, 0);
      assert Evicted(q) == Without(q, 0);
    }
  }

  lemma {:induction false} LookedUpOk(tries: seq<set<Path>>, q: seq<Entry>, capacity: nat, path: string)
    requires CacheOk(tries, q) && |q| <= capacity && 1 <= capacity && Canonical(path)
    ensures var r := LookedUp(q, capacity, path, FirstMatch(tries, Parse(path)));
            && CacheOk(tries, r) && |r| <= capacity
            && (FirstMatch(tries, Parse(path)) != -1 ==> |r| > 0 && r[|r| - 1].key == path)
  {
    var i, found := Find(q, path), FirstMatch(tries, Parse(path));
    if i != -1 {
      WithoutOk(tries, q, i);
      AppendExact(tries, Without(q, i), q[i]);
    } else if found != -1 {
      RoomOk(tries, q, capacity);
      if path in Keys(Room(q, capacity)) {
        RoomKeys(q, capacity, path);
      }
      AppendExact(tries, Room(q, capacity), Entry(path, found));
    }
  }

  /** A lookup of a canonical path keeps everything. */
  lemma {:induction false} TouchKeeps(s: State, capacity: nat, path: string)
    requires Inv(s, capacity) && Canonical(path)
    ensures Inv(Touch(s, capacity, path), capacity)
  {
    LookedUpOk(s.tries, s.cache, capacity, path);
  }

  /** When a create is harmless: it is refused, its parent is unknown, or the
      path is not yet cached and is, or gets, indexed. */
  ghost predicate CreateSafe(s: State, capacity: nat, path: string, ok: bool) {
    var parent := CutLast(path);
    var i := Answer(s, parent);
    Refused(parent) || i == -1 || (
      && path !in Keys(Room(Touch(s, capacity, parent).cache, capacity))
      && (FirstMatch(s.tries, Parse(path)) != -1
          || (ok && 0 <= i < |s.tries| && !Full(s.tries[i], Parse(parent)))))
  }

  /** What is known when a create passes the checks: the parent is canonical,
      has at least two components, and is in the trie of its server. */
  lemma {:induction false} CreateParent(s: State, path: string)
    requires Coherent(s) && Owned(s) && Canonical(path) && !Refused(CutLast(path))
    ensures Canonical(CutLast(path)) && |Parse(CutLast(path))| >= 2
    ensures Parse(path) == Parse(CutLast(path)) + [BaseName(path)]
    ensures var i := Answer(s, CutLast(path)); i == -1 || (0 <= i < |s.tries| && Parse(CutLast(path)) in s.tries[i])
  {
    assert |Parse(path)| == 1 ==> path == ".";
    CutLastIsParent(path);
    CachedIsUncached(s, CutLast(path));
  }

  /** The first match depends only on which tries hold the path. */
  lemma {:induction false} SameMatch(tries: seq<set<Path>>, tries': seq<set<Path>>, p: Path)
    requires |tries| <= |tries'| && forall j | 0 <= j < |tries| :: p in tries[j] <==> p in tries'[j]
    requires |tries| == |tries'| || FirstMatch(tries, p) != -1
    ensures FirstMatch(tries', p) == FirstMatch(tries, p)
  {
  }

  /** Adding one path changes the first match of that path only. */
  lemma {:induction false} MatchAfterAdd(s: State, i: nat, p: Path, q: Path)
    requires Owned(s) && i < |s.tries| && |p| >= 2 && p[0] == "." && p[1] == s.roots[i]
    ensures var tries := s.tries[i := s.tries[i] + {p}];
            FirstMatch(tries, q) == if q == p then i else FirstMatch(s.tries, q)
  {
    var tries := s.tries[i := s.tries[i] + {p}];
    if q == p {
      forall j | 0 <= j < i
        ensures p !in tries[j]
      {
        assert Rooted(s.tries[j], s.roots[j]);
      }
      assert p in tries[i];
    } else {
      SameMatch(s.tries, tries, q);
    }
  }

  lemma {:induction false} RootedAdd(ps: set<Path>, root: string, p: Path)
    requires Rooted(ps, root) && |p| >= 3 && p[..|p| - 1] in ps
    ensures Rooted(ps + {p}, root) && p[0] == "." && p[1] == root
  {
    var init := p[..|p| - 1];
    assert init[0] == p[0] && init[1] == p[1];
    forall q, k | q in ps + {p} && 0 <= k <= |q|
      ensures q[..k] in ps + {p}
    {
      if q == p && k < |p| {
        assert p[..k] == init[..k];
      } else if q == p {
        assert p[..k] == p;
      }
    }
  }

  /** Adding a path below the root, with whatever prefixes are missing. */
  lemma {:induction false} RootedAdded(ps: set<Path>, root: string, p: Path)
    requires Rooted(ps, root) && |p| >= 2 && p[0] == "." && p[1] == root
    ensures Rooted(Added(ps, p), root)
  {
    AddedClosed(ps, p);
    forall q | q in Added(ps, p) && q != []
      ensures q[0] == "." && (|q| >= 2 ==> q[1] == root)
    {
      assert q in ps || exists k | 0 <= k <= |p| :: q == p[..k];
    }
  }

  /** Whether a create below server `i` adds its path to the trie. */
  ghost predicate Grows(s: State, i: nat, path: string, ok: bool)
    requires i < |s.tries|
  {
    ok && Parse(path) !in s.tries[i] && !Full(s.tries[i], Parse(CutLast(path)))
  }

  ghost function Grown(tries: seq<set<Path>>, i: nat, p: Path): seq<set<Path>>
    requires i < |tries|
  {
    tries[i := tries[i] + {p}]
  }

  lemma {:induction false} CreateAdds(ps: set<Path>, root: string, path: string)
    requires Rooted(ps, root) && Canonical(path) && |Parse(path)| >= 3 && Parse(CutLast(path)) in ps
    requires Parse(path) == Parse(CutLast(path)) + [BaseName(path)]
    ensures var p := Parse(path);
            && p[0] == "." && p[1] == root && Rooted(ps + {p}, root)
            && Added(ps, p) == if p !in ps && !Full(ps, Parse(CutLast(path))) then ps + {p} else ps
  {
    var p := Parse(path);
    assert p[..|p| - 1] == Parse(CutLast(path));
    AddedChild(ps, p);
    RootedAdd(ps, root, p);
    assert p in ps ==> ps + {p} == ps;
  }

  lemma {:induction false} UpdateSame(tries: seq<set<Path>>, i: nat)
    requires i < |tries|
    ensures tries[i := tries[i]] == tries
  {
    assert forall k | 0 <= k < |tries| :: tries[i := tries[i]][k] == tries[k];
  }

  /** The state after a create whose parent is known. */
  lemma {:induction false} CreateState(s: State, capacity: nat, path: string, ok: bool)
    requires Inv(s, capacity) && Canonical(path)
    requires !Refused(CutLast(path)) && Answer(s, CutLast(path)) != -1
    ensures var i, p, t := Answer(s, CutLast(path)), Parse(path), Created(s, capacity, path, ok);
            && 0 <= i < |s.tries| && |p| >= 3 && p[0] == "." && p[1] == s.roots[i]
            && t.cache == Room(Touch(s, capacity, CutLast(path)).cache, capacity) + [Entry(path, i)]
            && t.roots == s.roots && Rooted(s.tries[i] + {p}, s.roots[i])
            && t.tries == if Grows(s, i, path, ok) then Grown(s.tries, i, p) else s.tries
  {
    CreateParent(s, path);
    var i := Answer(s, CutLast(path));
    assert Rooted(s.tries[i], s.roots[i]);
    CreateAdds(s.tries[i], s.roots[i], path);
    UpdateSame(s.tries, i);
  }

  lemma {:induction false} CreateCache(s: State, i: nat, path: string, grew: bool, q: seq<Entry>)
    requires Owned(s) && CacheOk(s.tries, q) && Canonical(path) && i < |s.tries|
    requires var p := Parse(path); |p| >= 2 && p[0] == "." && p[1] == s.roots[i]
    ensures var tries := if grew then Grown(s.tries, i, Parse(path)) else s.tries;
            CacheOk(tries, q + [Entry(path, i)]) <==>
            path !in Keys(q) && (grew || FirstMatch(s.tries, Parse(path)) != -1)
  {
    var p := Parse(path);
    var tries := if grew then Grown(s.tries, i, p) else s.tries;
    AppendExact(tries, q, Entry(path, i));
    var m := FirstMatch(s.tries, p);
    assert m != -1 ==> Rooted(s.tries[m], s.roots[m]);
    MatchAfterAdd(s, i, p, p);
    forall k | 0 <= k < |q|
      ensures EntryOk(tries, q[k])
    {
      assert EntryOk(s.tries, q[k]);
      MatchAfterAdd(s, i, p, Parse(q[k].key));
    }
  }

  lemma {:induction false} CreateFound(s: State, capacity: nat, path: string, ok: bool)
    requires Inv(s, capacity) && Canonical(path)
    requires !Refused(CutLast(path)) && Answer(s, CutLast(path)) != -1
    ensures Coherent(Created(s, capacity, path, ok)) <==> CreateSafe(s, capacity, path, ok)
    ensures |Created(s, capacity, path, ok).cache| <= capacity
  {
    var i, q := Answer(s, CutLast(path)), Touch(s, capacity, CutLast(path)).cache;
    CreateState(s, capacity, path, ok);
    CreateParent(s, path);
    LookedUpOk(s.tries, s.cache, capacity, CutLast(path));
    RoomOk(s.tries, q, capacity);
    CreateCache(s, i, path, Grows(s, i, path, ok), Room(q, capacity));
    assert Parse(path) in s.tries[i] ==> FirstMatch(s.tries, Parse(path)) != -1;
  }

  /** Replacing one server's paths by other paths below the same root. */
  lemma {:induction false} OwnedUpdate(s: State, t: State, i: nat, ps: set<Path>)
    requires Owned(s) && i < |s.tries| && Rooted(ps, s.roots[i])
    requires t.roots == s.roots && t.tries == s.tries[i := ps]
    ensures Owned(t)
  {
    forall j | 0 <= j < |t.tries|
      ensures Rooted(t.tries[j], t.roots[j])
    {
      assert t.tries[j] == if j == i then ps else s.tries[j];
      assert Rooted(s.tries[j], s.roots[j]);
    }
  }

  /** Exactly when a create keeps the cache coherent; ownership always stands. */
  lemma {:induction false} CreateExact(s: State, capacity: nat, path: string, ok: bool)
    requires Inv(s, capacity) && Canonical(path)
    ensures Coherent(Created(s, capacity, path, ok)) <==> CreateSafe(s, capacity, path, ok)
    ensures Owned(Created(s, capacity, path, ok)) && |Created(s, capacity, path, ok).cache| <= capacity
  {
    var t := Created(s, capacity, path, ok);
    if !Refused(CutLast(path)) {
      var i := Answer(s, CutLast(path));
      if i == -1 {
        CreateParent(s, path);
        TouchKeeps(s, capacity, CutLast(path));
      } else {
        CreateFound(s, capacity, path, ok);
        CreateState(s, capacity, path, ok);
        if Grows(s, i, path, ok) {
          OwnedUpdate(s, t, i, s.tries[i] + {Parse(path)});
        }
      }
    }
  }

  /** The queue a remove leaves behind. */
  function QueueAfterRemove(s: State, capacity: nat, path: string): seq<Entry> {
    Deleted(Touch(s, capacity, path).cache, path)
  }

  /** When a remove is harmless: nothing is deleted, or no cached path lies
      below the deleted one. */
  ghost predicate RemoveSafe(s: State, capacity: nat, path: string, ok: bool) {
    Refused(path) || Answer(s, path) == -1 || !ok ||
    forall e | e in QueueAfterRemove(s, capacity, path) :: !(Parse(path) <= Parse(e.key))
  }

  lemma {:induction false} QueueOk(s: State, capacity: nat, path: string)
    requires Inv(s, capacity) && Canonical(path)
    ensures var q := QueueAfterRemove(s, capacity, path);
            CacheOk(s.tries, q) && |q| <= capacity && path !in Keys(q)
  {
    LookedUpOk(s.tries, s.cache, capacity, path);
    var q := Touch(s, capacity, path).cache;
    if Find(q, path) != -1 {
      WithoutOk(s.tries, q, Find(q, path));
    }
  }

  lemma {:induction false} RootedRemove(ps: set<Path>, root: string, p: Path)
    requires Rooted(ps, root) && |p| >= 3
    ensures Rooted(Removed(ps, p), root)
  {
    RemovedClosed(ps, p);
  }

  /** A deleted subtree takes the first match from exactly its own paths. */
  lemma {:induction false} MatchAfterRemove(s: State, i: nat, p: Path, q: Path)
    requires Owned(s) && i < |s.tries| && |p| >= 2 && p in s.tries[i]
    ensures var tries := s.tries[i := Removed(s.tries[i], p)];
            FirstMatch(tries, q) == if p <= q then -1 else FirstMatch(s.tries, q)
  {
    var tries := s.tries[i := Removed(s.tries[i], p)];
    assert Rooted(s.tries[i], s.roots[i]);
    if p <= q {
      forall j | 0 <= j < |tries|
        ensures q !in tries[j]
      {
        assert Rooted(s.tries[j], s.roots[j]);
        assert q[1] == p[1];
      }
    } else {
      SameMatch(s.tries, tries, q);
    }
  }

  lemma {:induction false} RemoveCache(s: State, i: nat, p: Path, q: seq<Entry>)
    requires Owned(s) && CacheOk(s.tries, q) && i < |s.tries| && |p| >= 2 && p in s.tries[i]
    ensures CacheOk(s.tries[i := Removed(s.tries[i], p)], q) <==> forall e | e in q :: !(p <= Parse(e.key))
  {
    var tries := s.tries[i := Removed(s.tries[i], p)];
    forall k | 0 <= k < |q|
      ensures EntryOk(tries, q[k]) <==> !(p <= Parse(q[k].key))
    {
      assert EntryOk(s.tries, q[k]);
      MatchAfterRemove(s, i, p, Parse(q[k].key));
    }
  }

  /** The state after a remove that found its server. */
  lemma {:induction false} RemoveFound(s: State, capacity: nat, path: string, ok: bool)
    requires Inv(s, capacity) && Canonical(path) && !Refused(path) && Answer(s, path) != -1
    ensures 0 <= Answer(s, path) < |s.tries| && Parse(path) in s.tries[Answer(s, path)]
    ensures RemovedState(s, capacity, path, ok) ==
            State(if ok then s.tries[Answer(s, path) := Removed(s.tries[Answer(s, path)], Parse(path))] else s.tries,
                  s.roots, QueueAfterRemove(s, capacity, path))
  {
    CachedIsUncached(s, path);
  }

  lemma {:induction false} RemoveDeletes(s: State, capacity: nat, path: string)
    requires Inv(s, capacity) && Canonical(path) && |Parse(path)| >= 3 && !Refused(path) && Answer(s, path) != -1
    ensures Coherent(RemovedState(s, capacity, path, true)) <==> RemoveSafe(s, capacity, path, true)
    ensures Owned(RemovedState(s, capacity, path, true))
  {
    var i, p := Answer(s, path), Parse(path);
    RemoveFound(s, capacity, path, true);
    QueueOk(s, capacity, path);
    assert Rooted(s.tries[i], s.roots[i]);
    RootedRemove(s.tries[i], s.roots[i], p);
    OwnedUpdate(s, RemovedState(s, capacity, path, true), i, Removed(s.tries[i], p));
    RemoveCache(s, i, p, QueueAfterRemove(s, capacity, path));
  }

  /** Exactly when a remove keeps the cache coherent; server roots are not removed. */
  lemma {:induction false} RemoveExact(s: State, capacity: nat, path: string, ok: bool)
    requires Inv(s, capacity) && Canonical(path) && (ok ==> |Parse(path)| >= 3)
    ensures Coherent(RemovedState(s, capacity, path, ok)) <==> RemoveSafe(s, capacity, path, ok)
    ensures Owned(RemovedState(s, capacity, path, ok)) && |RemovedState(s, capacity, path, ok).cache| <= capacity
  {
    if Refused(path) {
    } else if Answer(s, path) == -1 {
      TouchKeeps(s, capacity, path);
    } else {
      RemoveFound(s, capacity, path, ok);
      QueueOk(s, capacity, path);
      if ok {
        RemoveDeletes(s, capacity, path);
      }
    }
  }

  /** Exactly when replacing a server's paths keeps the cache coherent: no
      cached path of that server is gone. */
  lemma {:induction false} ReindexExact(s: State, capacity: nat, i: nat, ps: set<Path>)
    requires Inv(s, capacity) && i < |s.tries| && Rooted(ps, s.roots[i])
    ensures Owned(s.(tries := s.tries[i := ps]))
    ensures Coherent(s.(tries := s.tries[i := ps])) <==>
            forall e | e in s.cache && e.index == i :: Parse(e.key) in ps
  {
    var t := s.(tries := s.tries[i := ps]);
    OwnedUpdate(s, t, i, ps);
    forall k | 0 <= k < |s.cache|
      ensures EntryOk(t.tries, s.cache[k]) <==> s.cache[k].index != i || Parse(s.cache[k].key) in ps
    {
      ReindexEntry(s, t, i, ps, s.cache[k]);
    }
  }

  lemma {:induction false} ReindexEntry(s: State, t: State, i: nat, ps: set<Path>, e: Entry)
    requires Owned(s) && Owned(t) && i < |s.tries| && t.roots == s.roots && t.tries == s.tries[i := ps]
    requires EntryOk(s.tries, e)
    ensures EntryOk(t.tries, e) <==> e.index != i || Parse(e.key) in ps
  {
    var p := Parse(e.key);
    if |p| >= 2 {
      OwnerIsUnique(s, p, e.index);
      OwnerIsUnique(t, p, e.index);
    } else {
      assert p == ["."];
      DotEverywhere(s);
      DotEverywhere(t);
    }
  }

  /** "." is a node of every trie. */
  lemma {:induction false} DotEverywhere(s: State)
    requires Owned(s)
    ensures forall i | 0 <= i < |s.tries| :: ["."] in s.tries[i]
    ensures FirstMatch(s.tries, ["."]) == if s.tries == [] then -1 else 0
  {
    forall i | 0 <= i < |s.tries|
      ensures ["."] in s.tries[i]
    {
      assert Rooted(s.tries[i], s.roots[i]);
      assert [".", s.roots[i]][..1] == ["."];
    }
  }

  /** A registration appends a server or changes nothing. */
  lemma {:induction false} RegisterKeeps(s: State, capacity: nat, root: string, ps: set<Path>)
    requires Inv(s, capacity) && Rooted(ps, root)
    ensures Inv(Apply(s, capacity, Register(root, ps)), capacity)
  {
    var t := Apply(s, capacity, Register(root, ps));
    if root !in s.roots {
      forall j | 0 <= j < |t.tries|
        ensures Rooted(t.tries[j], t.roots[j])
      {
        assert j < |s.tries| ==> Rooted(s.tries[j], s.roots[j]);
      }
      forall k | 0 <= k < |s.cache|
        ensures EntryOk(t.tries, s.cache[k])
      {
        assert EntryOk(s.tries, s.cache[k]);
        SameMatch(s.tries, t.tries, Parse(s.cache[k].key));
      }
    }
  }

  /** What clients and storage servers do: canonical paths; a create succeeds
      on an unindexed path with room below its parent; what a storage server
      removes is childless and not a server root; a reindex only grows. */
  ghost predicate Allowed(s: State, c: Command) {
    match c
    case Lookup(path) => Canonical(path)
    case Create(path, ok) =>
      && Canonical(path)
      && var i := FirstMatch(s.tries, Parse(CutLast(path)));
      Refused(CutLast(path)) || i == -1 ||
      (ok && FirstMatch(s.tries, Parse(path)) == -1 && !Full(s.tries[i], Parse(CutLast(path))))
    case Remove(path, ok) =>
      && Canonical(path) && (ok ==> |Parse(path)| >= 3)
      && (ok ==> forall i, q | 0 <= i < |s.tries| && q in s.tries[i] && Parse(path) <= q :: q == Parse(path))
    case Register(root, ps) => Rooted(ps, root) && (root in s.roots || |s.tries| < MAX_STORAGE_SERVERS)
    case Reindex(i, ps) => i < |s.tries| && i < |s.roots| && s.tries[i] <= ps && Rooted(ps, s.roots[i])
  }

  lemma {:induction false} CachedIsIndexed(tries: seq<set<Path>>, q: seq<Entry>, path: string)
    requires CacheOk(tries, q) && path in Keys(q)
    ensures FirstMatch(tries, Parse(path)) != -1
  {
    var k :| 0 <= k < |q| && Keys(q)[k] == path;
    assert EntryOk(tries, q[k]);
  }

  lemma {:induction false} FreshCreateSafe(s: State, capacity: nat, path: string)
    requires Inv(s, capacity) && Canonical(path)
    requires FirstMatch(s.tries, Parse(path)) == -1
    requires !Refused(CutLast(path)) && Answer(s, CutLast(path)) != -1
    ensures path !in Keys(Room(Touch(s, capacity, CutLast(path)).cache, capacity))
  {
    CreateParent(s, path);
    LookedUpOk(s.tries, s.cache, capacity, CutLast(path));
    var q := Touch(s, capacity, CutLast(path)).cache;
    RoomOk(s.tries, q, capacity);
    if path in Keys(Room(q, capacity)) {
      CachedIsIndexed(s.tries, Room(q, capacity), path);
    }
  }

  lemma {:induction false} ChildlessRemoveSafe(s: State, path: string, q: seq<Entry>)
    requires CacheOk(s.tries, q) && Canonical(path) && path !in Keys(q)
    requires forall i, p | 0 <= i < |s.tries| && p in s.tries[i] && Parse(path) <= p :: p == Parse(path)
    ensures forall e | e in q :: !(Parse(path) <= Parse(e.key))
  {
    forall k | 0 <= k < |q|
      ensures !(Parse(path) <= Parse(q[k].key))
    {
      assert EntryOk(s.tries, q[k]) && Keys(q)[k] == q[k].key;
      CanonicalInjective(path, q[k].key);
    }
  }

  /** Every allowed command keeps ownership, coherence and the capacity bound. */
  lemma {:induction false} StepKeeps(s: State, capacity: nat, c: Command)
    requires Inv(s, capacity) && Allowed(s, c)
    ensures Inv(Apply(s, capacity, c), capacity)
  {
    match c
    case Lookup(path) => TouchKeeps(s, capacity, path);
    case Create(path, ok) =>
      CreateExact(s, capacity, path, ok);
      CachedIsUncached(s, CutLast(path));
      if !Refused(CutLast(path)) && Answer(s, CutLast(path)) != -1 {
        FreshCreateSafe(s, capacity, path);
      }
    case Remove(path, ok) =>
      RemoveExact(s, capacity, path, ok);
      QueueOk(s, capacity, path);
      if ok {
        ChildlessRemoveSafe(s, path, QueueAfterRemove(s, capacity, path));
      }
    case Register(root, ps) => RegisterKeeps(s, capacity, root, ps);
    case Reindex(i, ps) =>
      ReindexExact(s, capacity, i, ps);
      forall k | 0 <= k < |s.cache| && s.cache[k].index == i
        ensures Parse(s.cache[k].key) in ps
      {
        assert EntryOk(s.tries, s.cache[k]);
      }
  }

  ghost function Run(s: State, capacity: nat, cs: seq<Command>): State
    decreases |cs|
  {
    if cs == [] then s else Run(Apply(s, capacity, cs[0]), capacity, cs[1..])
  }

  ghost predicate Legal(s: State, capacity: nat, cs: seq<Command>)
    decreases |cs|
  {
    cs == [] || (Allowed(s, cs[0]) && Legal(Apply(s, capacity, cs[0]), capacity, cs[1..]))
  }

  lemma {:induction false} RunKeeps(s: State, capacity: nat, cs: seq<Command>)
    requires Inv(s, capacity) && Legal(s, capacity, cs)
    ensures Inv(Run(s, capacity, cs), capacity)
    decreases |cs|
  {
    if cs != [] {
      StepKeeps(s, capacity, cs[0]);
      RunKeeps(Apply(s, capacity, cs[0]), capacity, cs[1..]);
    }
  }

  /** From the empty naming server, after every legal run: cached lookup equals
      uncached lookup, and a path of two or more components has one owner. */
  lemma {:induction false} CacheCoherence(capacity: nat, cs: seq<Command>, path: string)
    requires capacity >= 1 && Legal(State([], [], []), capacity, cs)
    ensures var s := Run(State([], [], []), capacity, cs);
            && |s.cache| <= capacity && Distinct(Keys(s.cache))
            && Answer(s, path) == FirstMatch(s.tries, Parse(path))
            && forall i | 0 <= i < |s.tries| && |Parse(path)| >= 2 ::
                 Answer(s, path) == i <==> Parse(path) in s.tries[i]
  {
    var s := Run(State([], [], []), capacity, cs);
    RunKeeps(State([], [], []), capacity, cs);
    CachedIsUncached(s, path);
    forall i | 0 <= i < |s.tries| && |Parse(path)| >= 2
      ensures FirstMatch(s.tries, Parse(path)) == i <==> Parse(path) in s.tries[i]
    {
      OwnerIsUnique(s, Parse(path), i);
    }
  }

  /** One server with one file, whose path is cached. */
  ghost function OneFile(r: string, f: string): State {
    State([{[], ["."], [".", r], [".", r, f]}], [r], [Entry(Join([".", r, f]), 0)])
  }

  lemma {:induction false} OneFileRooted(r: string, f: string)
    ensures Rooted(OneFile(r, f).tries[0], r)
  {
    var ps := OneFile(r, f).tries[0];
    assert [".", r][..1] == ["."] && [".", r, f][..1] == ["."] && [".", r, f][..2] == [".", r];
    forall p, k | p in ps && 0 <= k <= |p|
      ensures p[..k] in ps
    {
      assert p[..0] == [] && p[..|p|] == p;
    }
  }

  lemma {:induction false} OneFilePaths(r: string, f: string)
    requires IsName(r) && IsName(f)
    ensures Canonical(Join([".", r, f])) && Parse(Join([".", r, f])) == [".", r, f]
    ensures Parse(Join([".", r])) == [".", r] && CutLast(Join([".", r, f])) == Join([".", r])
  {
    var d, c := [".", r], [".", r, f];
    assert c[..2] == d;
    CanonicalJoin(d);
    CanonicalJoin(c);
    LastSlashUnique(Join(d), f);
  }

  lemma {:induction false} OneFileParent(r: string, f: string)
    requires |r| >= 1
    ensures !Refused(Join([".", r])) && Join([".", r]) != Join([".", r, f])
  {
    var d, c := [".", r], [".", r, f];
    assert c[..2] == d && d[..1] == ["."];
    assert |Join(d)| >= 3 && |Join(c)| > |Join(d)|;
  }

  lemma {:induction false} CreatedCache(s: State, capacity: nat, path: string, ok: bool)
    requires !Refused(CutLast(path)) && Answer(s, CutLast(path)) != -1
    ensures Created(s, capacity, path, ok).cache ==
            AddedTo(Touch(s, capacity, CutLast(path)).cache, capacity, path, Answer(s, CutLast(path)))
  {
  }

  lemma {:induction false} OneFileFound(r: string, f: string)
    requires IsName(r) && IsName(f)
    ensures var s := OneFile(r, f);
            && FirstMatch(s.tries, Parse(Join([".", r, f]))) == 0 && FirstMatch(s.tries, Parse(Join([".", r]))) == 0
            && Find(s.cache, Join([".", r])) == -1
  {
    OneFilePaths(r, f);
    OneFileParent(r, f);
    assert Keys(OneFile(r, f).cache) == [Join([".", r, f])];
  }

  lemma {:induction false} OneFileInv(r: string, f: string)
    requires IsName(r) && IsName(f)
    ensures Inv(OneFile(r, f), 3)
  {
    OneFilePaths(r, f);
    OneFileFound(r, f);
    OneFileRooted(r, f);
  }

  lemma {:induction false} OneFileTouched(r: string, f: string)
    requires IsName(r) && IsName(f)
    ensures Answer(OneFile(r, f), Join([".", r])) == 0
    ensures Touch(OneFile(r, f), 3, Join([".", r])).cache ==
            [Entry(Join([".", r, f]), 0), Entry(Join([".", r]), 0)]
  {
    OneFileFound(r, f);
  }

  /** Touching a file that is already cached stores its path twice. */
  lemma {:induction false} TouchExistingDuplicates(r: string, f: string)
    requires IsName(r) && IsName(f)
    ensures Inv(OneFile(r, f), 3)
    ensures var path := Join([".", r, f]);
            Created(OneFile(r, f), 3, path, true).cache == [Entry(path, 0), Entry(Join([".", r]), 0), Entry(path, 0)]
  {
    OneFileInv(r, f);
    OneFileTouched(r, f);
    OneFilePaths(r, f);
    OneFileParent(r, f);
    CreatedCache(OneFile(r, f), 3, Join([".", r, f]), true);
  }
}
