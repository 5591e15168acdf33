/** The set of paths a trie stands for, and what the trie operations do to it. */
module PathSets {
  import opened Paths

  const MAX_FOLDERS := 256

  /** Every prefix of a member is a member; the empty path is the root node. */
  ghost predicate PrefixClosed(ps: set<Path>) {
    [] in ps && forall p, k | p in ps && 0 <= k <= |p| :: p[..k] in ps
  }

  function ChildrenOf(ps: set<Path>, d: Path): set<Path> {
    set p | p in ps && |p| == |d| + 1 && p[..|d|] == d
  }

  predicate Full(ps: set<Path>, d: Path) {
    |ChildrenOf(ps, d)| >= MAX_FOLDERS
  }

  /** Length of the longest prefix of `c` reached by walking down from the first `i` components. */
  function Deepest(ps: set<Path>, c: Path, i: nat): (d: nat)
    requires i <= |c| && c[..i] in ps
    ensures i <= d <= |c| && c[..d] in ps
    ensures d < |c| ==> c[..d + 1] !in ps
    ensures forall k | i <= k <= d :: c[..k] in ps
    decreases |c| - i
  {
    if i < |c| && c[..i + 1] in ps then Deepest(ps, c, i + 1) else i
  }

  /** Adding a path: nothing when it is there or its deepest existing
      ancestor has no free slot, and all missing prefixes otherwise. */
  function Added(ps: set<Path>, c: Path): set<Path> {
    if [] !in ps then ps
    else
      assert c[..0] == [];
      var d := Deepest(ps, c, 0);
      if d < |c| && Full(ps, c[..d]) then ps else ps + Prefixes(c, |c|)
  }

  lemma {:induction false} DeepestIs(ps: set<Path>, c: Path, i: nat)
    requires PrefixClosed(ps) && i < |c| && c[..i] in ps && c[..i + 1] !in ps
    ensures c[..0] in ps && Deepest(ps, c, 0) == i
  {
    assert c[..0] == [];
    var d := Deepest(ps, c, 0);
    assert forall k | 0 <= k <= i :: c[..k] in ps by {
      assert forall k | 0 <= k <= i :: c[..i][..k] == c[..k];
    }
  }

  function Prefixes(c: Path, i: nat): set<Path>
    requires i <= |c|
  {
    set k | 0 <= k <= i :: c[..k]
  }

  lemma {:induction false} AddedFully(ps: set<Path>, c: Path)
    requires PrefixClosed(ps) && c in ps
    ensures Added(ps, c) == ps
  {
    assert c[..|c|] == c && c[..0] == [];
    assert forall k | 0 <= k <= |c| :: c[..k] in ps;
  }

  /** Below a missing prefix there is nothing, so every further node is new. */
  lemma {:induction false} NothingBelow(ps: set<Path>, c: Path, d: nat, i: nat)
    requires PrefixClosed(ps) && d < i < |c| && c[..d + 1] !in ps
    ensures c[..i + 1] !in ps + Prefixes(c, i)
    ensures !Full(ps + Prefixes(c, i), c[..i])
  {
    var qs := ps + Prefixes(c, i);
    forall p | p in ps && |p| > i
      ensures p[..i] != c[..i]
    {
      assert p[..i][..d + 1] == p[..d + 1] && c[..i][..d + 1] == c[..d + 1];
    }
    assert c[..i + 1][..i] == c[..i];
    assert ChildrenOf(qs, c[..i]) == {};
  }

  /** What is left to do after `i` components; `inside` says whether the current
      node hangs in the trie. */
  ghost function AddFrom(ps: set<Path>, c: Path, i: nat, inside: bool): set<Path>
    requires i <= |c|
    decreases |c| - i
  {
    if i == |c| || !inside then ps
    else if c[..i + 1] in ps then AddFrom(ps, c, i + 1, true)
    else if Full(ps, c[..i]) then AddFrom(ps, c, i + 1, false)
    else AddFrom(ps + {c[..i + 1]}, c, i + 1, true)
  }

  lemma {:induction false} PrefixesNext(ps: set<Path>, c: Path, i: nat)
    requires i < |c|
    ensures ps + Prefixes(c, i) + {c[..i + 1]} == ps + Prefixes(c, i + 1)
  {
    assert Prefixes(c, i) + {c[..i + 1]} == Prefixes(c, i + 1);
  }

  lemma {:induction false} AddFromOne(ps: set<Path>, c: Path, i: nat)
    requires i < |c| && c[..i + 1] !in ps && !Full(ps, c[..i])
    ensures AddFrom(ps, c, i, true) == AddFrom(ps + {c[..i + 1]}, c, i + 1, true)
  {
  }

  /** From a missing prefix on, every component gets its node. */
  lemma {:induction false} AddFromMissing(ps: set<Path>, c: Path, d: nat, i: nat, qs: set<Path>)
    requires PrefixClosed(ps) && d < i <= |c| && c[..d + 1] !in ps && qs == ps + Prefixes(c, i)
    ensures AddFrom(qs, c, i, true) == ps + Prefixes(c, |c|)
    decreases |c| - i
  {
    if i < |c| {
      NothingBelow(ps, c, d, i);
      PrefixesNext(ps, c, i);
      AddFromOne(qs, c, i);
      AddFromMissing(ps, c, d, i + 1, qs + {c[..i + 1]});
    }
  }

  /** The component-by-component loop computes `Added`. */
  lemma {:induction false} AddFromIsAdded(ps: set<Path>, c: Path, i: nat)
    requires PrefixClosed(ps) && i <= |c| && c[..i] in ps
    ensures AddFrom(ps, c, i, true) == Added(ps, c)
    decreases |c| - i
  {
    if i == |c| {
      assert c[..i] == c;
      AddedFully(ps, c);
    } else if c[..i + 1] in ps {
      AddFromIsAdded(ps, c, i + 1);
    } else {
      DeepestIs(ps, c, i);
      assert forall k | 0 <= k <= i :: c[..i][..k] == c[..k];
      assert ps + {c[..i + 1]} == ps + Prefixes(c, i + 1);
      AddFromMissing(ps, c, i, i + 1, ps + {c[..i + 1]});
    }
  }

  /** Deleting a path: the whole subtree goes, nothing else. */
  function Removed(ps: set<Path>, c: Path): set<Path> {
    set p | p in ps && !(c <= p)
  }

  lemma {:induction false} AddedClosed(ps: set<Path>, c: Path)
    requires PrefixClosed(ps)
    ensures PrefixClosed(Added(ps, c))
  {
    assert c[..0] == [];
    var qs := Prefixes(c, |c|);
    forall p, k | p in ps + qs && 0 <= k <= |p|
      ensures p[..k] in ps + qs
    {
      if p in qs {
        assert p[..k] == c[..k];
      }
    }
  }

  /** Without a path there is nothing below it. */
  lemma {:induction false} NotStored(ps: set<Path>, c: Path)
    requires PrefixClosed(ps) && c !in ps
    ensures Removed(ps, c) == ps
  {
    assert forall p | p in ps && c <= p :: p[..|c|] == c;
  }

  lemma {:induction false} RemovedClosed(ps: set<Path>, c: Path)
    requires PrefixClosed(ps) && c != []
    ensures PrefixClosed(Removed(ps, c))
  {
    forall p, k | p in Removed(ps, c) && 0 <= k <= |p|
      ensures p[..k] in Removed(ps, c)
    {
      assert c <= p[..k] ==> c <= p;
    }
  }

  /** A create below an indexed, non-full parent adds exactly one path. */
  lemma {:induction false} AddedChild(ps: set<Path>, c: Path)
    requires PrefixClosed(ps)
    requires c != [] && c[..|c| - 1] in ps
    ensures Full(ps, c[..|c| - 1]) && c !in ps ==> Added(ps, c) == ps
    ensures !Full(ps, c[..|c| - 1]) || c in ps ==> Added(ps, c) == ps + {c}
  {
    assert c[..0] == [] && c[..|c|] == c;
    var init := c[..|c| - 1];
    forall k | 0 <= k < |c|
      ensures c[..k] in ps
    {
      assert c[..k] == init[..k];
    }
    assert Deepest(ps, c, 0) >= |c| - 1;
    var qs := Prefixes(c, |c|);
    assert forall q :: q in qs ==> q in ps || q == c;
    assert c[..|c|] in qs;
  }
}
