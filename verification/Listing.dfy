/** Indexing a storage server: a recursive lister sends one path per line, the
    naming server reassembles the lines from arbitrary pieces and adds them to
    the server's trie. */
module Listing {
  import opened Collections
  import opened Paths
  import opened PathSets
  import opened Files

  const MARKER := "@!-Finished Indexing-!@"

  predicate Hidden(name: string) {
    name != "" && name[0] == '.'
  }

  /** `_indexSubFolders`: the folder itself, then every visible entry, each
      subfolder being listed (its own path once more) right after its line. */
  function Lines(base: string, t: Tree): seq<string>
    decreases t, 1
  {
    if t.Leaf? then [] else [base] + EntryLines(base, t.entries)
  }

  function EntryLines(base: string, es: seq<Entry>): seq<string>
    decreases es, 0
  {
    if es == [] then []
    else if Hidden(es[0].name) then EntryLines(base, es[1..])
    else
      var path := base + "/" + es[0].name;
      [path] + Lines(path, es[0].tree) + EntryLines(base, es[1..])
  }

  /** An entry is listed unless its name starts with a dot, and then not even what
      is below it is. */
  lemma {:induction false} DotHides(base: string, e: Entry, rest: seq<Entry>)
    ensures var lines, later := EntryLines(base, [e] + rest), EntryLines(base, rest);
            if e.name != "" && e.name[0] == '.' then lines == later
            else |lines| > |later| && lines[0] == base + "/" + e.name && lines[|lines| - |later|..] == later
  {
    var es := [e] + rest;
    assert es[0] == e && es[1..] == rest;
  }

  /** Adding the lines one after the other; empty lines are skipped. */
  function AddLines(ps: set<Path>, lines: seq<string>): set<Path>
    decreases |lines|
  {
    if lines == [] then ps
    else AddLines(if lines[0] == "" then ps else Added(ps, Parse(lines[0])), lines[1..])
  }

  /** The visible part of a tree below `c`. */
  function VisibleSet(c: Path, t: Tree): set<Path>
    decreases t, 1
  {
    if t.Leaf? then {c} else {c} + VisibleEntries(c, t.entries)
  }

  function VisibleEntries(c: Path, es: seq<Entry>): set<Path>
    decreases es, 0
  {
    if es == [] then {}
    else if Hidden(es[0].name) then VisibleEntries(c, es[1..])
    else VisibleSet(c + [es[0].name], es[0].tree) + VisibleEntries(c, es[1..])
  }

  /** The same, path by path: a node of the tree with no hidden component. */
  predicate VisibleAt(t: Tree, q: Path) {
    TreeAt(t, q).Some? && forall i :: 0 <= i < |q| ==> !Hidden(q[i])
  }

  function VisibleCount(es: seq<Entry>): nat {
    if es == [] then 0 else (if Hidden(es[0].name) then 0 else 1) + VisibleCount(es[1..])
  }

  /** Every name in the tree is a path component. */
  predicate Spelled(t: Tree)
    decreases t, 1
  {
    t.Leaf? || SpelledEntries(t.entries)
  }

  predicate SpelledEntries(es: seq<Entry>)
    decreases es, 0
  {
    es == [] || (IsName(es[0].name) && Spelled(es[0].tree) && SpelledEntries(es[1..]))
  }

  /** No folder that is shown shows more entries than a trie node has slots. */
  predicate Indexable(t: Tree)
    decreases t, 1
  {
    t.Leaf? || (VisibleCount(t.entries) <= MAX_FOLDERS && IndexableEntries(t.entries))
  }

  predicate IndexableEntries(es: seq<Entry>)
    decreases es, 0
  {
    es == [] || ((Hidden(es[0].name) || Indexable(es[0].tree)) && IndexableEntries(es[1..]))
  }

  lemma {:induction false} VisibleSetIff(c: Path, t: Tree, p: Path)
    requires Regular(t)
    ensures p in VisibleSet(c, t) <==> Below(c, p) && VisibleAt(t, p[|c|..])
    decreases t, 1
  {
    assert Below(c, p) && |p| == |c| ==> p == c && p[|c|..] == [];
    if t.Folder? {
      VisibleEntriesIff(c, t.entries, p);
    }
  }

  lemma {:induction false} VisibleEntriesIff(c: Path, es: seq<Entry>, p: Path)
    requires RegularEntries(es)
    ensures p in VisibleEntries(c, es) <==>
            && Below(c, p) && |p| > |c| && EntriesAt(es, p[|c|..]).Some?
            && forall i :: 0 <= i < |p[|c|..]| ==> !Hidden(p[|c|..][i])
    decreases es, 0
  {
    if es != [] {
      var c' := c + [es[0].name];
      VisibleEntriesIff(c, es[1..], p);
      VisibleSetIff(c', es[0].tree, p);
      if Below(c, p) && |p| > |c| {
        var q := p[|c|..];
        assert Below(c', p) <==> q[0] == es[0].name;
        if q[0] == es[0].name {
          assert p[|c'|..] == q[1..];
          assert forall i :: 0 <= i < |q[1..]| ==> q[1..][i] == q[i + 1];
          MissingEntry(es[1..], q);
          if VisibleAt(es[0].tree, q[1..]) && !Hidden(q[0]) {
            forall i | 0 <= i < |q|
              ensures !Hidden(q[i])
            {
              assert i > 0 ==> q[i] == q[1..][i - 1];
            }
          }
        }
      } else {
        assert !Below(c', p);
      }
    }
  }

  lemma {:induction false} AddLinesConcat(ps: set<Path>, a: seq<string>, b: seq<string>)
    ensures AddLines(ps, a + b) == AddLines(AddLines(ps, a), b)
    decreases |a|
  {
    if a == [] {
      assert a + b == b;
    } else {
      assert (a + b)[1..] == a[1..] + b;
      AddLinesConcat(if a[0] == "" then ps else Added(ps, Parse(a[0])), a[1..], b);
    }
  }

  lemma {:induction false} AddLinesClosed(ps: set<Path>, lines: seq<string>)
    requires PrefixClosed(ps)
    ensures PrefixClosed(AddLines(ps, lines))
    decreases |lines|
  {
    if lines != [] {
      AddedClosed(ps, Parse(lines[0]));
      AddLinesClosed(if lines[0] == "" then ps else Added(ps, Parse(lines[0])), lines[1..]);
    }
  }

  lemma {:induction false} ChildPath(base: string, name: string)
    requires IsName(name)
    ensures Parse(base + "/" + name) == Parse(base) + [name]
  {
    SplitConcat(base, name, PARSE_SKIP);
    SplitName(name, PARSE_SKIP);
  }

  /** No node of `w` has more children than a trie node has slots. */
  ghost predicate Narrow(w: set<Path>) {
    forall d :: |ChildrenOf(w, d)| <= MAX_FOLDERS
  }

  /** Inside a set that fits the tries, adding never meets a full node. */
  lemma {:induction false} AddWithin(ps: set<Path>, w: set<Path>, p: Path)
    requires PrefixClosed(ps) && PrefixClosed(w) && Narrow(w) && ps <= w && p in w
    ensures Added(ps, p) == ps + Prefixes(p, |p|) <= w
  {
    assert p[..0] == [];
    var d := Deepest(ps, p, 0);
    if d < |p| {
      var parent, next := p[..d], p[..d + 1];
      assert next[..d] == parent && next in w;
      assert next in ChildrenOf(w, parent) && next !in ChildrenOf(ps, parent);
      SubsetSize(ChildrenOf(ps, parent) + {next}, ChildrenOf(w, parent));
    }
  }

  /** The line of one entry adds exactly its path. */
  lemma {:induction false} AddOneLine(ps: set<Path>, w: set<Path>, base: string, name: string)
    requires PrefixClosed(ps) && PrefixClosed(w) && Narrow(w) && ps <= w
    requires Parse(base) in ps && IsName(name) && Parse(base) + [name] in w
    ensures AddLines(ps, [base + "/" + name]) == ps + {Parse(base) + [name]}
  {
    var c := Parse(base);
    var p := c + [name];
    ChildPath(base, name);
    AddWithin(ps, w, p);
    assert forall k | 0 <= k <= |c| :: p[..k] == c[..k];
    assert p[..|p|] == p;
    assert ps + Prefixes(p, |p|) == ps + {p};
    assert [base + "/" + name][1..] == [];
  }

  /** Listing a folder that is known already adds what is visible below it. */
  lemma {:induction false} AddFolder(ps: set<Path>, w: set<Path>, base: string, t: Tree)
    requires PrefixClosed(ps) && PrefixClosed(w) && Narrow(w) && ps <= w
    requires Parse(base) in ps && base != "" && Spelled(t) && VisibleSet(Parse(base), t) <= w
    ensures AddLines(ps, Lines(base, t)) == ps + VisibleSet(Parse(base), t)
    decreases t, 1
  {
    if t.Folder? {
      AddedFully(ps, Parse(base));
      assert AddLines(ps, [base]) == ps by { assert [base][1..] == []; }
      AddLinesConcat(ps, [base], EntryLines(base, t.entries));
      AddEntries(ps, w, base, t.entries);
    }
  }

  lemma {:induction false} AddEntries(ps: set<Path>, w: set<Path>, base: string, es: seq<Entry>)
    requires PrefixClosed(ps) && PrefixClosed(w) && Narrow(w) && ps <= w
    requires Parse(base) in ps && SpelledEntries(es) && VisibleEntries(Parse(base), es) <= w
    ensures AddLines(ps, EntryLines(base, es)) == ps + VisibleEntries(Parse(base), es)
    decreases es, 0
  {
    if es == [] {
    } else if Hidden(es[0].name) {
      AddEntries(ps, w, base, es[1..]);
    } else {
      var name, t := es[0].name, es[0].tree;
      var path := base + "/" + name;
      ChildPath(base, name);
      VisibleHead(Parse(path), t);
      AddOneLine(ps, w, base, name);
      AddLinesClosed(ps, [path]);
      var ps1 := ps + {Parse(path)};
      AddFolder(ps1, w, path, t);
      AddLinesClosed(ps1, Lines(path, t));
      var ps2 := ps1 + VisibleSet(Parse(path), t);
      AddEntries(ps2, w, base, es[1..]);
      AddLinesConcat(ps, [path], Lines(path, t));
      AddLinesConcat(ps, [path] + Lines(path, t), EntryLines(base, es[1..]));
    }
  }

  lemma {:induction false} VisibleHead(c: Path, t: Tree)
    ensures c in VisibleSet(c, t)
  {
  }

  lemma {:induction false} VisibleBelow(c: Path, t: Tree)
    requires Regular(t)
    ensures forall p | p in VisibleSet(c, t) :: Below(c, p)
  {
    forall p | p in VisibleSet(c, t)
      ensures Below(c, p)
    {
      VisibleSetIff(c, t, p);
    }
  }

  /** The visible tree itself fits. */
  lemma {:induction false} VisibleNarrow(c: Path, t: Tree, d: Path)
    requires Regular(t) && Indexable(t)
    ensures |ChildrenOf(VisibleSet(c, t), d)| <= MAX_FOLDERS
    decreases t, 1
  {
    var kids := ChildrenOf(VisibleSet(c, t), d);
    if t.Leaf? {
      SubsetSize(kids, {c});
    } else if d == c {
      forall p | p in kids
        ensures p in EntryPaths(c, t.entries)
      {
        EntryPathsCover(c, t.entries, p);
      }
      EntryPathsCount(c, t.entries);
      SubsetSize(kids, EntryPaths(c, t.entries));
    } else if Below(c, d) {
      EntriesNarrow(c, t.entries, d);
      assert c !in kids;
      assert kids == ChildrenOf(VisibleEntries(c, t.entries), d);
    } else {
      VisibleBelow(c, t);
      assert forall p | Below(c, p) && |p| > |c| :: p[..|p| - 1][..|c|] == p[..|c|];
      assert forall p | Below(c, p) && |p| == |c| :: p == c;
      SubsetSize(kids, {c});
    }
  }

  lemma {:induction false} EntriesNarrow(c: Path, es: seq<Entry>, d: Path)
    requires RegularEntries(es) && IndexableEntries(es) && Below(c, d) && |d| > |c|
    ensures |ChildrenOf(VisibleEntries(c, es), d)| <= MAX_FOLDERS
    decreases es, 0
  {
    if es != [] {
      EntriesNarrow(c, es[1..], d);
      if !Hidden(es[0].name) {
        VisibleNarrow(c + [es[0].name], es[0].tree, d);
        EntryOrOthers(c, es, d);
      }
    }
  }

  /** A path has children in one entry's tree only. */
  lemma {:induction false} EntryOrOthers(c: Path, es: seq<Entry>, d: Path)
    requires es != [] && RegularEntries(es) && !Hidden(es[0].name) && Below(c, d) && |d| > |c|
    ensures ChildrenOf(VisibleEntries(c, es), d) ==
            if d[|c|] == es[0].name then ChildrenOf(VisibleSet(c + [es[0].name], es[0].tree), d)
            else ChildrenOf(VisibleEntries(c, es[1..]), d)
  {
    var here := c + [es[0].name];
    var first, others := VisibleSet(here, es[0].tree), VisibleEntries(c, es[1..]);
    assert ChildrenOf(first + others, d) == ChildrenOf(first, d) + ChildrenOf(others, d);
    if d[|c|] == es[0].name {
      forall p | p in ChildrenOf(VisibleEntries(c, es[1..]), d)
        ensures false
      {
        VisibleEntriesIff(c, es[1..], p);
        assert p[|c|..][0] == p[|c|] == d[|c|];
        MissingEntry(es[1..], p[|c|..]);
      }
    } else {
      VisibleBelow(here, es[0].tree);
      assert forall p | Below(here, p) :: p[..|here|][|c|] == p[|c|];
      assert forall p: Path | |p| == |d| + 1 && p[..|d|] == d :: p[|c|] == d[|c|];
    }
  }

  function EntryPaths(c: Path, es: seq<Entry>): set<Path> {
    if es == [] then {}
    else (if Hidden(es[0].name) then {} else {c + [es[0].name]}) + EntryPaths(c, es[1..])
  }

  lemma {:induction false} EntryPathsNamed(c: Path, es: seq<Entry>, name: string)
    requires Fresh(name, es)
    ensures c + [name] !in EntryPaths(c, es)
    decreases |es|
  {
    if es != [] {
      EntryPathsNamed(c, es[1..], name);
      assert (c + [name])[|c|] == name && (c + [es[0].name])[|c|] == es[0].name;
    }
  }

  lemma {:induction false} EntryPathsCount(c: Path, es: seq<Entry>)
    requires RegularEntries(es)
    ensures |EntryPaths(c, es)| == VisibleCount(es)
    decreases |es|
  {
    if es != [] {
      EntryPathsCount(c, es[1..]);
      EntryPathsNamed(c, es[1..], es[0].name);
    }
  }

  lemma {:induction false} EntryPathsShown(c: Path, es: seq<Entry>)
    ensures EntryPaths(c, es) <= VisibleEntries(c, es)
    decreases |es|
  {
    if es != [] {
      EntryPathsShown(c, es[1..]);
      VisibleHead(c + [es[0].name], es[0].tree);
    }
  }

  lemma {:induction false} EntryPathsCover(c: Path, es: seq<Entry>, p: Path)
    requires RegularEntries(es) && p in VisibleEntries(c, es) && |p| == |c| + 1
    ensures p in EntryPaths(c, es)
    decreases |es|
  {
    if p in VisibleEntries(c, es[1..]) {
      EntryPathsCover(c, es[1..], p);
    } else {
      VisibleBelow(c + [es[0].name], es[0].tree);
      assert p[..|p|] == p;
    }
  }

  /** What a trie holds once a tree is indexed: the prefixes of the root path
      and the visible paths from it on. */
  function Indexed(c: Path, t: Tree): set<Path> {
    Prefixes(c, |c|) + VisibleSet(c, t)
  }

  lemma {:induction false} IndexedIff(c: Path, t: Tree, p: Path)
    requires Regular(t)
    ensures p in Indexed(c, t) <==> p <= c || (Below(c, p) && VisibleAt(t, p[|c|..]))
  {
    VisibleSetIff(c, t, p);
    assert p <= c ==> p == c[..|p|];
  }

  lemma {:induction false} IndexedPrefix(c: Path, t: Tree, p: Path, k: nat)
    requires Regular(t) && p in Indexed(c, t) && k <= |p|
    ensures p[..k] in Indexed(c, t)
  {
    IndexedIff(c, t, p);
    IndexedIff(c, t, p[..k]);
    if |c| < k {
      assert p[..k][..|c|] == p[..|c|];
      assert p[..k][|c|..] == p[|c|..][..k - |c|];
      VisiblePrefix(t, p[|c|..], k - |c|);
    } else {
      assert Below(c, p) ==> p[..k] == p[..|c|][..k];
    }
  }

  lemma {:induction false} IndexedNarrow(c: Path, t: Tree, d: Path)
    requires Regular(t) && Indexable(t)
    ensures |ChildrenOf(Indexed(c, t), d)| <= MAX_FOLDERS
  {
    VisibleNarrow(c, t, d);
    if |d| < |c| {
      VisibleBelow(c, t);
      forall p | p in ChildrenOf(Indexed(c, t), d)
        ensures p == c[..|d| + 1]
      {
        assert Below(c, p) ==> p == p[..|c|];
      }
      SubsetSize(ChildrenOf(Indexed(c, t), d), {c[..|d| + 1]});
    } else {
      assert ChildrenOf(Indexed(c, t), d) == ChildrenOf(VisibleSet(c, t), d);
    }
  }

  lemma {:induction false} IndexedClosed(c: Path, t: Tree)
    requires Regular(t)
    ensures PrefixClosed(Indexed(c, t))
  {
    assert c[..0] == [];
    forall p, k | p in Indexed(c, t) && 0 <= k <= |p|
      ensures p[..k] in Indexed(c, t)
    {
      IndexedPrefix(c, t, p, k);
    }
  }

  /** Every shown folder within a narrow set is within the limit. */
  lemma {:induction false} NarrowIndexable(c: Path, t: Tree, w: set<Path>)
    requires Regular(t) && Narrow(w) && VisibleSet(c, t) <= w
    ensures Indexable(t)
    decreases t, 1
  {
    if t.Folder? {
      EntryPathsCount(c, t.entries);
      EntryPathsShown(c, t.entries);
      EntryPathsChildren(c, t.entries);
      assert EntryPaths(c, t.entries) <= ChildrenOf(w, c);
      SubsetSize(EntryPaths(c, t.entries), ChildrenOf(w, c));
      NarrowEntries(c, t.entries, w);
    }
  }

  lemma {:induction false} EntryPathsChildren(c: Path, es: seq<Entry>)
    ensures forall p | p in EntryPaths(c, es) :: |p| == |c| + 1 && p[..|c|] == c
    decreases |es|
  {
    if es != [] {
      EntryPathsChildren(c, es[1..]);
    }
  }

  lemma {:induction false} NarrowEntries(c: Path, es: seq<Entry>, w: set<Path>)
    requires RegularEntries(es) && Narrow(w) && VisibleEntries(c, es) <= w
    ensures IndexableEntries(es)
    decreases es, 0
  {
    if es != [] {
      if !Hidden(es[0].name) {
        NarrowIndexable(c + [es[0].name], es[0].tree, w);
      }
      NarrowEntries(c, es[1..], w);
    }
  }

  /** A tree fits a trie exactly when it is within the fan-out limit. */
  lemma {:induction false} IndexableExact(c: Path, t: Tree)
    requires Regular(t)
    ensures Narrow(Indexed(c, t)) <==> Indexable(t)
  {
    if Indexable(t) {
      forall d
        ensures |ChildrenOf(Indexed(c, t), d)| <= MAX_FOLDERS
      {
        IndexedNarrow(c, t, d);
      }
    }
    if Narrow(Indexed(c, t)) {
      NarrowIndexable(c, t, Indexed(c, t));
    }
  }

  lemma {:induction false} VisiblePrefix(t: Tree, q: Path, k: nat)
    requires VisibleAt(t, q) && k <= |q|
    ensures VisibleAt(t, q[..k])
  {
    TreePrefix(t, q, k);
    assert forall i | 0 <= i < k :: q[..k][i] == q[i];
  }

  lemma {:induction false} TreePrefix(t: Tree, q: Path, k: nat)
    requires TreeAt(t, q).Some? && k <= |q|
    ensures TreeAt(t, q[..k]).Some?
    decreases t, 1
  {
    if k > 0 {
      EntriesPrefix(t.entries, q, k);
    }
  }

  lemma {:induction false} EntriesPrefix(es: seq<Entry>, q: Path, k: nat)
    requires q != [] && EntriesAt(es, q).Some? && 0 < k <= |q|
    ensures EntriesAt(es, q[..k]).Some?
    decreases es, 0
  {
    if es[0].name == q[0] {
      assert q[..k][1..] == q[1..][..k - 1];
      TreePrefix(es[0].tree, q[1..], k - 1);
    } else {
      EntriesPrefix(es[1..], q, k);
    }
  }

  /** Prefixes of `c` give a node at most one new child, the next prefix. */
  lemma {:induction false} PrefixesChild(ps: set<Path>, c: Path, d: Path)
    ensures ChildrenOf(ps + Prefixes(c, |c|), d) <=
            ChildrenOf(ps, d) + (if |d| < |c| && c[..|d|] == d then {c[..|d| + 1]} else {})
  {
    forall j | 0 <= j <= |c| && c[..j] in ChildrenOf(Prefixes(c, |c|), d)
      ensures j == |d| + 1 && c[..|d|] == d
    {
      assert c[..j][..|d|] == c[..|d|];
    }
  }

  /** Adding never overfills a node. */
  lemma {:induction false} AddedNarrow(ps: set<Path>, c: Path, d: Path)
    requires PrefixClosed(ps) && Narrow(ps)
    ensures |ChildrenOf(Added(ps, c), d)| <= MAX_FOLDERS
  {
    assert c[..0] == [];
    var k := Deepest(ps, c, 0);
    var more, now := ps + Prefixes(c, |c|), ChildrenOf(ps, d);
    PrefixesChild(ps, c, d);
    if Added(ps, c) == more {
      if |d| < |c| && c[..|d|] == d {
        var next := c[..|d| + 1];
        SubsetSize(ChildrenOf(more, d), now + {next});
        if |d| < k {
          assert next in ps && next[..|d|] == d;
          assert now + {next} == now;
        } else if k < |d| {
          NothingBelow(ps, c, k, |d|);
          SubsetSize(now, ChildrenOf(ps + Prefixes(c, |d|), d));
        }
      } else {
        SubsetSize(ChildrenOf(more, d), now);
      }
    }
  }

  lemma {:induction false} AddLinesNarrow(ps: set<Path>, lines: seq<string>)
    requires PrefixClosed(ps) && Narrow(ps)
    ensures Narrow(AddLines(ps, lines))
    decreases |lines|
  {
    if lines != [] {
      var c := Parse(lines[0]);
      AddedClosed(ps, c);
      forall d
        ensures |ChildrenOf(Added(ps, c), d)| <= MAX_FOLDERS
      {
        AddedNarrow(ps, c, d);
      }
      AddLinesNarrow(if lines[0] == "" then ps else Added(ps, c), lines[1..]);
    }
  }

  lemma {:induction false} IndexNarrow(ps: set<Path>, base: string, t: Tree)
    requires t.Folder? && Spelled(t) && Regular(t) && base != ""
    requires PrefixClosed(ps) && ps <= Indexed(Parse(base), t) && Narrow(Indexed(Parse(base), t))
    ensures AddLines(ps, Lines(base, t)) == Indexed(Parse(base), t)
  {
    var c := Parse(base);
    var w := Indexed(c, t);
    IndexedClosed(c, t);
    assert c[..|c|] == c;
    AddWithin(ps, w, c);
    AddLinesConcat(ps, [base], EntryLines(base, t.entries));
    var ps1 := ps + Prefixes(c, |c|);
    assert AddLines(ps, [base]) == ps1 by { assert [base][1..] == []; }
    AddedClosed(ps, c);
    AddEntries(ps1, w, base, t.entries);
    assert ps1 + VisibleEntries(c, t.entries) == w;
  }

  /** Indexing and re-indexing: whatever part of the tree the trie held before,
      it holds the whole visible tree and nothing else afterwards, exactly when
      no folder that is shown shows more entries than a trie node has slots. */
  lemma {:induction false} IndexMeaning(ps: set<Path>, base: string, t: Tree)
    requires t.Folder? && Spelled(t) && Regular(t) && base != ""
    requires PrefixClosed(ps) && Narrow(ps) && ps <= Indexed(Parse(base), t)
    ensures AddLines(ps, Lines(base, t)) == Indexed(Parse(base), t) <==> Indexable(t)
  {
    AddLinesNarrow(ps, Lines(base, t));
    IndexableExact(Parse(base), t);
    if Indexable(t) {
      IndexNarrow(ps, base, t);
    }
  }

  /** A folder of `n` files with distinct names. */
  function ManyFiles(n: nat): seq<Entry> {
    if n == 0 then [] else [EmptyFile(Tally(n))] + ManyFiles(n - 1)
  }

  function EmptyFile(name: string): Entry {
    Entry(name, Leaf(""))
  }

  /** "x", "xx", "xxx", ... */
  function Tally(n: nat): (s: string)
    ensures |s| == n && forall k | 0 <= k < n :: s[k] == 'x'
  {
    if n == 0 then "" else ['x'] + Tally(n - 1)
  }

  lemma {:induction false} TallyIsName(n: nat)
    requires n > 0
    ensures IsName(Tally(n)) && !Hidden(Tally(n))
  {
    assert Tally(n)[0] == 'x';
  }

  lemma {:induction false} ManyFilesNames(n: nat)
    ensures |ManyFiles(n)| == n
    ensures forall k | 0 <= k < n :: |ManyFiles(n)[k].name| == n - k
    decreases n
  {
    if n > 0 {
      ManyFilesNames(n - 1);
      assert forall k | 1 <= k < n :: ManyFiles(n)[k] == ManyFiles(n - 1)[k - 1];
    }
  }

  lemma {:induction false} ManyFilesShape(n: nat)
    ensures RegularEntries(ManyFiles(n)) && SpelledEntries(ManyFiles(n)) && VisibleCount(ManyFiles(n)) == n
    decreases n
  {
    if n > 0 {
      var es := ManyFiles(n);
      assert es[1..] == ManyFiles(n - 1) && es[0] == EmptyFile(Tally(n));
      ManyFilesNames(n - 1);
      ManyFilesShape(n - 1);
      TallyIsName(n);
      assert Fresh(es[0].name, es[1..]);
    }
  }

  /** So up to 256 files are indexed, and no more. */
  lemma {:induction false} ManyFilesIndexable(n: nat)
    ensures Indexable(Folder(ManyFiles(n))) <==> n <= 256
  {
    ManyFilesShape(n);
    ManyFilesFlat(n);
  }

  lemma {:induction false} ManyFilesFlat(n: nat)
    ensures IndexableEntries(ManyFiles(n))
    decreases n
  {
    if n > 0 {
      assert ManyFiles(n)[1..] == ManyFiles(n - 1) && ManyFiles(n)[0] == EmptyFile(Tally(n));
      ManyFilesFlat(n - 1);
    }
  }

  /** A folder showing one file more than a trie node has slots is not indexed completely. */
  lemma {:induction false} OverfullFolderIsCut(base: string)
    requires base != ""
    ensures var t := Folder(ManyFiles(MAX_FOLDERS + 1));
            && Regular(t) && Spelled(t)
            && AddLines({[]}, Lines(base, t)) != Indexed(Parse(base), t)
  {
    var t := Folder(ManyFiles(MAX_FOLDERS + 1));
    ManyFilesShape(MAX_FOLDERS + 1);
    EmptyNarrow();
    assert {[]} <= Indexed(Parse(base), t) by { assert Parse(base)[..0] == []; }
    IndexMeaning({[]}, base, t);
  }

  lemma {:induction false} EmptyNarrow()
    ensures PrefixClosed({[]}) && Narrow({[]})
  {
    forall d: Path
      ensures |ChildrenOf({[]}, d)| <= MAX_FOLDERS
    {
      assert ChildrenOf({[]}, d) == {};
    }
  }
}
