/** What each command does to the tables and to the cache, told by what a search
    finds afterwards. */
module TableLaws {
  import opened Collections
  import opened Paths
  import opened PathSets
  import opened Cache
  import opened Metadata

  lemma {:induction false} JoinLength(c: Path)
    requires c != [] && |c[0]| >= 1
    ensures |Join(c)| >= |c|
    decreases |c|
  {
    if |c| > 1 {
      JoinLength(c[..|c| - 1]);
    }
  }

  /** The first two characters of a longer canonical path. */
  lemma {:induction false} JoinStarts(c: Path)
    requires |c| >= 2 && c[0] == "."
    ensures "./" <= Join(c)
    decreases |c|
  {
    var init := c[..|c| - 1];
    if |c| > 2 {
      JoinStarts(init);
    } else {
      assert init == ["."];
    }
  }

  /** Among canonical paths only the top itself is refused. */
  lemma {:induction false} RefusedExact(path: string)
    requires Canonical(path)
    ensures Refused(path) <==> |Parse(path)| == 1
    ensures Refused(path) <==> path == "."
  {
    var c := Parse(path);
    ParseNames(path);
    if |c| >= 2 {
      JoinStarts(c);
      var init := c[..|c| - 1];
      JoinLength(init);
      assert IsName(c[|c| - 1]);
      assert |Join(c)| >= 3;
    }
  }

  /** A lookup changes no table. */
  lemma {:induction false} LookupTables(s: State, capacity: nat, path: string)
    ensures Touch(s, capacity, path).tries == s.tries && Touch(s, capacity, path).roots == s.roots
  {
  }

  /** The server a create is sent to is the one that holds the parent. */
  lemma {:induction false} ParentHolder(s: State, path: string, j: nat)
    requires Owned(s) && Coherent(s) && Canonical(path) && !Refused(CutLast(path)) && j < |s.tries|
    ensures Answer(s, CutLast(path)) == j <==> Parse(CutLast(path)) in s.tries[j]
  {
    CreateParent(s, path);
    CachedIsUncached(s, CutLast(path));
    OwnerIsUnique(s, Parse(CutLast(path)), j);
  }

  /** Server `j` takes the path: it holds the parent, agrees and has room below it. */
  ghost predicate Takes(s: State, j: nat, path: string, ok: bool)
    requires j < |s.tries|
  {
    var parent := CutLast(path);
    ok && !Refused(parent) && Parse(parent) in s.tries[j] && !Full(s.tries[j], Parse(parent))
  }

  lemma {:induction false} CreatedTries(s: State, capacity: nat, path: string, ok: bool)
    ensures var i, t := Answer(s, CutLast(path)), Created(s, capacity, path, ok);
            && t.roots == s.roots
            && t.tries == if !Refused(CutLast(path)) && ok && 0 <= i < |s.tries|
                          then s.tries[i := Added(s.tries[i], Parse(path))] else s.tries
  {
  }

  lemma {:induction false} AddedBelow(ps: set<Path>, root: string, path: string, q: Path)
    requires Rooted(ps, root) && Canonical(path) && |Parse(path)| >= 3 && Parse(CutLast(path)) in ps
    requires Parse(path) == Parse(CutLast(path)) + [BaseName(path)]
    ensures q in Added(ps, Parse(path)) <==> q in ps || (q == Parse(path) && !Full(ps, Parse(CutLast(path))))
  {
    CreateAdds(ps, root, path);
  }

  lemma {:induction false} AddedToHolder(s: State, i: nat, path: string, q: Path)
    requires Owned(s) && Coherent(s) && Canonical(path) && !Refused(CutLast(path))
    requires i < |s.tries| && Answer(s, CutLast(path)) == i
    ensures q in Added(s.tries[i], Parse(path)) <==>
            q in s.tries[i] || (q == Parse(path) && Takes(s, i, path, true))
  {
    CreateParent(s, path);
    AddedBelow(s.tries[i], s.roots[i], path, q);
  }

  /** After a create every server holds what it held, and the one that takes the
      new path holds that too. */
  lemma {:induction false} CreateTables(s: State, capacity: nat, path: string, ok: bool, j: nat, q: Path)
    requires Inv(s, capacity) && Canonical(path) && j < |s.tries|
    ensures var t := Created(s, capacity, path, ok);
            && |t.tries| == |s.tries| && t.roots == s.roots
            && (q in t.tries[j] <==> q in s.tries[j] || (q == Parse(path) && Takes(s, j, path, ok)))
  {
    CreatedTries(s, capacity, path, ok);
    if !Refused(CutLast(path)) {
      ParentHolder(s, path, j);
      if Answer(s, CutLast(path)) == j {
        AddedToHolder(s, j, path, q);
      }
    }
  }

  lemma {:induction false} RemovedTries(s: State, capacity: nat, path: string, ok: bool)
    ensures var i, t := Answer(s, path), RemovedState(s, capacity, path, ok);
            && t.roots == s.roots
            && t.tries == if !Refused(path) && ok && 0 <= i < |s.tries|
                          then s.tries[i := Removed(s.tries[i], Parse(path))] else s.tries
  {
  }

  /** The server a remove is sent to is the one that holds the path, and nobody
      else holds anything below it. */
  lemma {:induction false} PathHolder(s: State, path: string, j: nat, q: Path)
    requires Owned(s) && Coherent(s) && |Parse(path)| >= 2 && j < |s.tries|
    ensures Answer(s, path) == j <==> Parse(path) in s.tries[j]
    ensures Parse(path) <= q && q in s.tries[j] ==> Answer(s, path) == j
  {
    CachedIsUncached(s, path);
    OwnerIsUnique(s, Parse(path), j);
    assert Rooted(s.tries[j], s.roots[j]);
    assert Parse(path) <= q ==> q[..|Parse(path)|] == Parse(path);
  }

  /** After a remove that succeeds nobody holds the path or anything below it, and
      nothing else is gone. */
  lemma {:induction false} RemoveTables(s: State, capacity: nat, path: string, ok: bool, j: nat, q: Path)
    requires Inv(s, capacity) && Canonical(path) && j < |s.tries|
    ensures var t := RemovedState(s, capacity, path, ok);
            && |t.tries| == |s.tries| && t.roots == s.roots
            && (q in t.tries[j] <==> q in s.tries[j] && !(ok && path != "." && Parse(path) <= q))
  {
    RefusedExact(path);
    RemovedTries(s, capacity, path, ok);
    if !Refused(path) {
      PathHolder(s, path, j, q);
    }
  }

  /** A server with a new root is stored last: what lies below its root is found
      there and nowhere else, and nothing else changes.  A known root changes
      nothing at all. */
  lemma {:induction false} RegisterTables(s: State, root: string, ps: set<Path>, p: Path)
    requires Owned(s) && Rooted(ps, root)
    ensures var t := Registered(s, root, ps);
            && t.cache == s.cache && (root in s.roots ==> t == s)
            && (root !in s.roots ==>
                  && t.roots == s.roots + [root] && |t.tries| == |s.tries| + 1
                  && (forall j | 0 <= j < |s.tries| :: t.tries[j] == s.tries[j])
                  && (|p| >= 2 && p[1] == root ==> FirstMatch(t.tries, p) == if p in ps then |s.tries| else -1))
  {
    var t := Registered(s, root, ps);
    forall j | 0 <= j < |s.tries| && root !in s.roots && |p| >= 2 && p[1] == root
      ensures p !in t.tries[j]
    {
      assert Rooted(s.tries[j], s.roots[j]);
    }
    assert root !in s.roots ==> t.tries[|s.tries|] == ps;
  }

  /** After a new listing the paths below that server's root are found exactly if
      they were listed, and all others as before. */
  lemma {:induction false} ReindexTables(s: State, i: nat, ps: set<Path>, p: Path)
    requires Owned(s) && i < |s.tries| && Rooted(ps, s.roots[i]) && |p| >= 2
    ensures var t := Reindexed(s, i, ps);
            && t.cache == s.cache && t.roots == s.roots && |t.tries| == |s.tries|
            && FirstMatch(t.tries, p) ==
               if p[1] == s.roots[i] then (if p in ps then i else -1) else FirstMatch(s.tries, p)
  {
    var t := Reindexed(s, i, ps);
    OwnedUpdate(s, t, i, ps);
    OwnerIsUnique(t, p, i);
    assert Rooted(s.tries[i], s.roots[i]);
    if p[1] == s.roots[i] {
      forall j | 0 <= j < |s.tries| && j != i
        ensures p !in t.tries[j]
      {
        assert Rooted(s.tries[j], s.roots[j]);
      }
    } else {
      SameMatch(s.tries, t.tries, p);
    }
  }

  /** The first entry with this key is the one that answers. */
  lemma {:induction false} FindLast(q: seq<Entry>, e: Entry)
    requires e.key !in Keys(q)
    ensures Find(q + [e], e.key) == |q|
  {
    var r := q + [e];
    assert Keys(r)[|q|] == e.key;
    assert forall k | 0 <= k < |q| :: r[k] == q[k] && Keys(q)[k] == q[k].key;
  }

  /** After a create of a new path a lookup answers the parent's server at once;
      the search agrees if and only if the server did and had room.  So the answer
      is wrong after every create that fails. */
  lemma {:induction false} CreateIsAnswered(s: State, capacity: nat, path: string, ok: bool)
    requires Inv(s, capacity) && Canonical(path) && FirstMatch(s.tries, Parse(path)) == -1
    requires !Refused(CutLast(path)) && FirstMatch(s.tries, Parse(CutLast(path))) != -1
    ensures var i, t := FirstMatch(s.tries, Parse(CutLast(path))), Created(s, capacity, path, ok);
            && Answer(t, path) == i
            && FirstMatch(t.tries, Parse(path)) == if ok && !Full(s.tries[i], Parse(CutLast(path))) then i else -1
  {
    var i, q := FirstMatch(s.tries, Parse(CutLast(path))), Touch(s, capacity, CutLast(path)).cache;
    CachedIsUncached(s, CutLast(path));
    CreateState(s, capacity, path, ok);
    FreshCreateSafe(s, capacity, path);
    FindLast(Room(q, capacity), Entry(path, i));
    MatchAfterAdd(s, i, Parse(path), Parse(path));
  }

  /** Deleting takes the one entry and leaves the rest in order. */
  lemma {:induction false} DeletedExact(a: seq<Entry>, e: Entry, b: seq<Entry>)
    requires e.key !in Keys(a)
    ensures Deleted(a + [e] + b, e.key) == a + b
  {
    var q := a + [e] + b;
    assert Keys(q)[|a|] == e.key;
    assert forall k | 0 <= k < |a| :: q[k] == a[k] && Keys(a)[k] == a[k].key;
    assert q[|a|] == e;
    assert Find(q, e.key) == |a|;
  }

  lemma {:induction false} DeletedAbsent(q: seq<Entry>, key: string)
    ensures key !in Keys(q) <==> Deleted(q, key) == q
  {
  }
}
