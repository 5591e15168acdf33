/** The heap tries of the registered storage servers. */
module TrieTables {
  import opened Paths
  import opened PathSets
  import opened Tries
  import opened Metadata
  import opened Listing
  import opened Reassembly
  import opened Indexer

  ghost predicate Apart(reprs: seq<set<object>>) {
    forall i, j | 0 <= i < j < |reprs| :: reprs[i] !! reprs[j]
  }

  /** `storage_servers[..].root`: the tries do not share nodes, and each keeps
      its server's root folder in slot 0 below slot 0. */
  class TrieTable {
    var tries: seq<Trie>
    ghost var sets: seq<set<Path>>
    ghost var roots: seq<string>
    ghost var reprs: seq<set<object>>
    ghost var foot: set<object>

    ghost predicate Valid()
      reads this, foot
    {
      && this !in foot && |sets| == |tries| && |roots| == |tries| && |reprs| == |tries|
      && Apart(reprs) && forall i | 0 <= i < |tries| :: Holds(i)
    }

    /** Slot `i` holds the trie of server `i`. */
    ghost predicate Holds(i: nat)
      requires i < |tries| && |sets| == |tries| && |roots| == |tries| && |reprs| == |tries|
      reads this, foot
    {
      && tries[i] in reprs[i] && reprs[i] <= foot && tries[i].Repr == reprs[i]
      && tries[i].Valid() && tries[i].Contents() == sets[i] && tries[i].RootIs(roots[i])
    }

    /** The metadata without the cache. */
    ghost function Tables(): State
      reads this
    {
      State(sets, roots, [])
    }

    constructor ()
      ensures Valid() && sets == [] && roots == [] && foot == {}
    {
      tries, sets, roots, reprs, foot := [], [], [], [], {};
    }

    /** `search_in_tries`. */
    method Search(path: string) returns (r: int)
      requires Valid()
      ensures r == FirstMatch(sets, Parse(path))
    {
      var comps := ParsePath(path);
      r := 0;
      while r < |tries|
        invariant 0 <= r <= |tries|
        invariant FirstMatch(sets, comps) == MatchFrom(sets, comps, r)
      {
        assert Holds(r);
        var found := tries[r].SearchComponents(comps);
        if found {
          return;
        }
        r := r + 1;
      }
      r := -1;
    }

    /** Publishes a change of slot `i` alone. */
    ghost method Settle(i: nat)
      requires |sets| == |tries| && |roots| == |tries| && |reprs| == |tries|
      requires i < |tries| && this !in foot && this !in tries[i].Repr && Apart(reprs)
      requires tries[i].Valid() && tries[i].RootIs(roots[i])
      requires forall j | 0 <= j < |tries| && j != i :: Holds(j) && reprs[j] !! tries[i].Repr
      modifies this
      ensures Valid() && tries == old(tries) && roots == old(roots)
      ensures sets == old(sets)[i := tries[i].Contents()] && foot == old(foot) + tries[i].Repr
    {
      tries[i].InRepr();
      sets, reprs := sets[i := tries[i].Contents()], reprs[i := tries[i].Repr];
      foot := foot + tries[i].Repr;
      forall j | 0 <= j < |tries|
        ensures Holds(j)
      {
        assert j != i ==> old(Holds(j));
      }
    }

    method AddAt(i: nat, path: string)
      requires Valid() && i < |tries| && |Parse(path)| < MAX_PATH
      modifies this, foot
      ensures Valid() && fresh(foot - old(foot)) && tries == old(tries) && roots == old(roots)
      ensures sets == old(sets)[i := Added(old(sets)[i], Parse(path))]
    {
      assert Holds(i);
      tries[i].Add(path);
      forall j | 0 <= j < |tries| && j != i
        ensures Holds(j) && reprs[j] !! tries[i].Repr
      {
        assert old(Holds(j));
      }
      Settle(i);
    }

    method DeleteAt(i: nat, path: string)
      requires Valid() && i < |tries| && 3 <= |Parse(path)| < MAX_PATH
      modifies this, foot
      ensures Valid() && fresh(foot - old(foot)) && tries == old(tries) && roots == old(roots)
      ensures sets == old(sets)[i := Removed(old(sets)[i], Parse(path))]
    {
      assert Holds(i);
      tries[i].Delete(path);
      forall j | 0 <= j < |tries| && j != i
        ensures Holds(j) && reprs[j] !! tries[i].Repr
      {
        assert old(Holds(j));
      }
      Settle(i);
    }

    /** The name check of a registration, through the root slots. */
    method Knows(trie: Trie, ghost root: string) returns (known: bool)
      requires Valid() && trie.Valid() && trie.RootIs(root)
      ensures known <==> root in roots
    {
      var name := trie.RootName(root);
      var i := 0;
      while i < |tries|
        invariant 0 <= i <= |tries| && root !in roots[..i]
      {
        assert Holds(i);
        var other := tries[i].RootName(roots[i]);
        if name == other {
          return true;
        }
        i := i + 1;
      }
      assert roots[..i] == roots;
      return false;
    }

    method Append(trie: Trie, ghost root: string)
      requires Valid() && trie.Valid() && trie.RootIs(root)
      requires this !in trie.Repr && trie.Repr !! foot
      modifies this
      ensures Valid() && foot == old(foot) + trie.Repr
      ensures sets == old(sets) + [trie.Contents()] && roots == old(roots) + [root]
    {
      trie.InRepr();
      assert forall j | 0 <= j < |tries| :: Holds(j) && reprs[j] <= foot;
      tries, sets, roots := tries + [trie], sets + [trie.Contents()], roots + [root];
      reprs, foot := reprs + [trie.Repr], foot + trie.Repr;
      forall j | 0 <= j < |tries|
        ensures Holds(j)
      {
        assert j < |old(tries)| ==> old(Holds(j));
      }
    }

    /** A known root is a restart and the new trie is dropped. */
    method Admit(trie: Trie, ghost root: string)
      requires Valid() && trie.Valid() && trie.RootIs(root)
      requires this !in trie.Repr && trie.Repr !! foot
      modifies this
      ensures Valid() && old(foot) <= foot <= old(foot) + trie.Repr
      ensures Tables() == Registered(old(Tables()), root, trie.Contents())
    {
      var known := Knows(trie, root);
      if !known {
        Append(trie, root);
      }
    }

    /** Indexing into a trie of one's own leaves the table alone. */
    method IndexFresh(chunks: seq<string>, trie: Trie)
      requires Valid() && trie.Valid() && trie.Packed() && trie.Contents() == {[]}
      requires this !in trie.Repr && trie.Repr !! foot && Shallow(Receive("", chunks).lines)
      modifies trie.Repr
      ensures Valid() && this !in trie.Repr && trie.Repr !! foot && fresh(trie.Repr - old(trie.Repr))
      ensures trie.Valid() && trie.Packed()
      ensures trie.Contents() == AddLines({[]}, Receive("", chunks).lines)
    {
      var _, _ := IndexHelper(chunks, trie);
      assert forall j | 0 <= j < |tries| :: old(Holds(j));
    }

    /** A new trie for what a server lists. */
    method IndexNew(chunks: seq<string>, ghost root: string) returns (trie: Trie)
      requires Valid() && Shallow(Receive("", chunks).lines)
      requires Rooted(AddLines({[]}, Receive("", chunks).lines), root)
      ensures Valid() && trie.Valid() && trie.RootIs(root) && fresh(trie.Repr)
      ensures this !in trie.Repr && trie.Repr !! foot
      ensures trie.Contents() == AddLines({[]}, Receive("", chunks).lines)
    {
      trie := new Trie(".");
      IndexFresh(chunks, trie);
      trie.PackedRoot(root);
    }

    /** Gives server `i` a new trie in place of its old one. */
    method Replace(i: nat, trie: Trie)
      requires Valid() && i < |tries| && trie.Valid() && trie.RootIs(roots[i])
      requires this !in trie.Repr && trie.Repr !! foot
      modifies this
      ensures Valid() && old(foot) <= foot <= old(foot) + trie.Repr && roots == old(roots)
      ensures sets == old(sets)[i := trie.Contents()]
    {
      assert forall j | 0 <= j < |tries| :: Holds(j) && reprs[j] <= foot;
      tries := tries[i := trie];
      forall j | 0 <= j < |tries| && j != i
        ensures Holds(j) && reprs[j] !! tries[i].Repr
      {
        assert old(Holds(j));
      }
      Settle(i);
    }

    /** The re-index after a copy builds a new trie and installs it. */
    method ReindexAt(i: nat, chunks: seq<string>)
      requires Valid() && i < |tries| && Shallow(Receive("", chunks).lines)
      requires Rooted(AddLines({[]}, Receive("", chunks).lines), roots[i])
      modifies this
      ensures Valid() && fresh(foot - old(foot)) && roots == old(roots)
      ensures sets == old(sets)[i := AddLines({[]}, Receive("", chunks).lines)]
    {
      var trie := IndexNew(chunks, roots[i]);
      Replace(i, trie);
    }

    /** `register_storage_server`, metadata part: index into a new trie. */
    method Register(chunks: seq<string>, ghost root: string)
      requires Valid() && Shallow(Receive("", chunks).lines)
      requires Rooted(AddLines({[]}, Receive("", chunks).lines), root)
      requires root in roots || |tries| < MAX_STORAGE_SERVERS
      modifies this
      ensures Valid() && fresh(foot - old(foot))
      ensures Tables() == Registered(old(Tables()), root, AddLines({[]}, Receive("", chunks).lines))
    {
      var trie := IndexNew(chunks, root);
      Admit(trie, root);
    }
  }
}
