/** The heap trie of tries.c. */
module Tries {
  import opened Paths
  import opened PathSets

  const MAX_PATH := 256

  class TrieNode {
    const children: array<TrieNode?>
    var isLeaf: bool
    const data: string

    /** `CreateNode`. */
    constructor (data: string)
      ensures this.data == data && isLeaf
      ensures fresh(children) && children.Length == MAX_FOLDERS
      ensures forall j | 0 <= j < MAX_FOLDERS :: children[j] == null
    {
      this.data := data;
      this.isLeaf := true;
      this.children := new TrieNode?[MAX_FOLDERS](_ => null);
    }
  }

  /** The paths of the nodes in the first `k` slots. */
  ghost function Present(s: seq<TrieNode?>, at: map<TrieNode, Path>, k: nat): set<Path>
    requires k <= |s| && forall j | 0 <= j < k && s[j] != null :: s[j] in at
  {
    if k == 0 then {}
    else if s[k - 1] == null then Present(s, at, k - 1)
    else Present(s, at, k - 1) + {at[s[k - 1]]}
  }

  lemma {:induction false} PresentIff(s: seq<TrieNode?>, at: map<TrieNode, Path>, k: nat, p: Path)
    requires k <= |s| && forall j | 0 <= j < k && s[j] != null :: s[j] in at
    ensures p in Present(s, at, k) <==> exists j :: 0 <= j < k && s[j] != null && at[s[j]] == p
  {
    if k > 0 {
      PresentIff(s, at, k - 1, p);
    }
  }

  lemma {:induction false} CountPresent(s: seq<TrieNode?>, at: map<TrieNode, Path>, k: nat, slot: map<Path, nat>)
    requires k <= |s| && forall j | 0 <= j < k && s[j] != null :: s[j] in at
    requires forall j | 0 <= j < k && s[j] != null :: at[s[j]] in slot && slot[at[s[j]]] == j
    ensures |Present(s, at, k)| <= k
    ensures |Present(s, at, k)| == k <==> forall j | 0 <= j < k :: s[j] != null
  {
    if k > 0 {
      CountPresent(s, at, k - 1, slot);
      if s[k - 1] != null {
        PresentIff(s, at, k - 1, at[s[k - 1]]);
      }
    }
  }

  /** The reachable part of the heap as a value: the path of every node (and
      back), the slots of every node, the owner of every child array, and the
      slot a node hangs in.  All conditions are local to a node. */
  datatype Shape = Shape(
    at: map<TrieNode, Path>,
    node: map<Path, TrieNode>,
    slots: map<TrieNode, seq<TrieNode?>>,
    own: map<array<TrieNode?>, TrieNode>,
    up: map<TrieNode, (TrieNode, nat)>)
  {
    ghost predicate Named() {
      && (forall p | p in node :: node[p] in at && at[node[p]] == p)
      && (forall n | n in at :: at[n] in node && node[at[n]] == n)
      && (forall n | n in at :: n in slots && |slots[n]| == MAX_FOLDERS)
      && (forall n | n in at :: n.children in own && own[n.children] == n)
    }

    ghost predicate Downward()
      requires Named()
    {
      forall n, j {:trigger slots[n][j]} | n in at && 0 <= j < MAX_FOLDERS && slots[n][j] != null ::
        var c := slots[n][j];
        c in at && c in up && up[c] == (n, j) && at[c] == at[n] + [c.data]
    }

    ghost predicate Upward()
      requires Named()
    {
      // the triggers keep the parent's parent out of the picture
      && (forall c {:trigger c in up} | c in at && at[c] != [] :: c in up)
      && (forall c {:trigger up[c]} | c in at && at[c] != [] ::
            up[c].0 in at && up[c].1 < MAX_FOLDERS && slots[up[c].0][up[c].1] == c)
    }

    ghost predicate Ok() {
      [] in node && Named() && Downward() && Upward()
    }

    /** Two slots of a node never hold the same name. */
    lemma {:induction false} SiblingsDistinct(n: TrieNode, j: nat, k: nat)
      requires Ok() && n in at && j < k < MAX_FOLDERS
      requires slots[n][j] != null && slots[n][k] != null
      ensures slots[n][j].data != slots[n][k].data
    {
      var c, d := slots[n][j], slots[n][k];
      assert up[c] == (n, j) && up[d] == (n, k);
    }

    /** Following the parent slots shows that the paths are prefix-closed. */
    lemma {:induction false} NodeClosed(n: TrieNode, k: nat)
      requires Ok() && n in at && k <= |at[n]|
      ensures at[n][..k] in node
      decreases |at[n]|
    {
      if k == |at[n]| {
        assert at[n][..k] == at[n];
      } else {
        var p := up[n].0;
        assert at[n] == at[p] + [n.data];
        NodeClosed(p, k);
        assert at[n][..k] == at[p][..k];
      }
    }

    lemma {:induction false} Closed()
      requires Ok()
      ensures PrefixClosed(node.Keys)
    {
      forall p, k | p in node && 0 <= k <= |p|
        ensures p[..k] in node
      {
        NodeClosed(node[p], k);
      }
    }

    /** A path is present below `n` exactly when one of the slots carries it. */
    lemma {:induction false} SlotOf(n: TrieNode, name: string)
      requires Ok() && n in at
      ensures at[n] + [name] in node <==>
              exists j :: 0 <= j < MAX_FOLDERS && slots[n][j] != null && slots[n][j].data == name
    {
      if at[n] + [name] in node {
        var c := node[at[n] + [name]];
        var p := up[c].0;
        assert at[c] == at[p] + [c.data];
        assert at[c][..|at[c]| - 1] == at[p] && at[c][..|at[c]| - 1] == at[n];
        assert p == n;
      }
    }

    /** All slots are taken exactly when the path set is full below `n`. */
    lemma {:induction false} FullSlots(n: TrieNode)
      requires Ok() && n in at
      ensures Full(node.Keys, at[n]) <==> forall j | 0 <= j < MAX_FOLDERS :: slots[n][j] != null
    {
      var ps := Present(slots[n], at, MAX_FOLDERS);
      var kids := ChildrenOf(node.Keys, at[n]);
      assert ps == kids by {
        forall p
          ensures p in ps <==> p in kids
        {
          PresentIff(slots[n], at, MAX_FOLDERS, p);
          if p in kids {
            assert p == at[n] + [p[|p| - 1]];
            SlotOf(n, p[|p| - 1]);
          }
        }
      }
      assert forall j | 0 <= j < MAX_FOLDERS && slots[n][j] != null :: up[slots[n][j]] == (n, j);
      CountPresent(slots[n], at, MAX_FOLDERS, map p | p in node && p != [] :: up[node[p]].1);
    }

    /** Hang `kid` in slot `j` of `n`. */
    ghost function Hung(n: TrieNode, j: nat, kid: TrieNode): Shape
      requires Ok() && n in at && j < MAX_FOLDERS
    {
      var p := at[n] + [kid.data];
      Shape(at[kid := p], node[p := kid],
            slots[kid := seq(MAX_FOLDERS, _ => null)][n := slots[n][j := kid]],
            own[kid.children := kid], up[kid := (n, j)])
    }

    ghost predicate CanHang(n: TrieNode, j: nat, kid: TrieNode) {
      && Ok() && n in at && j < MAX_FOLDERS && slots[n][j] == null
      && kid !in at && at[n] + [kid.data] !in node && kid.children !in own
    }

    lemma {:induction false} HungNamed(n: TrieNode, j: nat, kid: TrieNode)
      requires CanHang(n, j, kid)
      ensures Hung(n, j, kid).Named()
    {
    }

    lemma {:induction false} HungUpward(n: TrieNode, j: nat, kid: TrieNode)
      requires CanHang(n, j, kid)
      ensures Hung(n, j, kid).Named() && Hung(n, j, kid).Upward()
    {
      HungNamed(n, j, kid);
    }

    lemma {:induction false} HungOk(n: TrieNode, j: nat, kid: TrieNode)
      requires CanHang(n, j, kid)
      ensures Hung(n, j, kid).Ok()
    {
      HungUpward(n, j, kid);
    }

    /** Without deletes, slot 0 is the first one taken. */
    ghost predicate Dense()
      requires Named()
    {
      forall n, j | n in at && 0 <= j < MAX_FOLDERS && slots[n][j] != null :: slots[n][0] != null
    }

    /** Nodes keep their paths, occupied slots keep their child, and slots fill in order. */
    ghost predicate GrowsTo(t: Shape)
      requires Named() && t.Named()
    {
      && (forall n | n in at :: n in t.at && t.at[n] == at[n])
      && (forall n, j | n in at && 0 <= j < MAX_FOLDERS && slots[n][j] != null :: t.slots[n][j] == slots[n][j])
      && (Dense() ==> t.Dense())
    }

    lemma {:induction false} HungKeeps(n: TrieNode, j: nat, kid: TrieNode)
      requires CanHang(n, j, kid)
      ensures var t := Hung(n, j, kid);
              && t.Named()
              && (forall m | m in at :: m in t.at && t.at[m] == at[m])
              && (forall m, k | m in at && 0 <= k < MAX_FOLDERS && slots[m][k] != null :: t.slots[m][k] == slots[m][k])
    {
      HungNamed(n, j, kid);
    }

    lemma {:induction false} GrowsHung(n: TrieNode, j: nat, kid: TrieNode)
      requires CanHang(n, j, kid) && forall k | 0 <= k < j :: slots[n][k] != null
      ensures Hung(n, j, kid).Named() && GrowsTo(Hung(n, j, kid))
    {
      HungKeeps(n, j, kid);
      if Dense() {
        HungDense(n, j, kid);
      }
    }

    lemma {:induction false} GrowsTrans(t: Shape, u: Shape)
      requires Named() && t.Named() && u.Named() && GrowsTo(t) && t.GrowsTo(u)
      ensures GrowsTo(u)
    {
    }

    /** The server's root folder sits in slot 0 below slot 0. */
    ghost predicate RootSlot(name: string)
      requires Ok()
    {
      var dot := slots[node[[]]][0];
      && dot != null && dot.data == "."
      && slots[dot][0] != null && slots[dot][0].data == name
    }

    lemma {:induction false} HungDense(n: TrieNode, j: nat, kid: TrieNode)
      requires CanHang(n, j, kid) && Dense() && forall k | 0 <= k < j :: slots[n][k] != null
      ensures Hung(n, j, kid).Named() && Hung(n, j, kid).Dense()
    {
      HungNamed(n, j, kid);
    }

    lemma {:induction false} DenseSlot(n: TrieNode, name: string)
      requires Ok() && Dense() && n in at && at[n] + [name] in node
      requires forall p | p in node && |p| == |at[n]| + 1 && p[..|at[n]|] == at[n] :: p[|at[n]|] == name
      ensures slots[n][0] != null && slots[n][0].data == name
    {
      SlotOf(n, name);
      var c := slots[n][0];
      assert at[c] == at[n] + [c.data];
    }

    /** After indexing a single root folder, its name is in the root slot. */
    lemma {:induction false} DenseRootSlot(name: string)
      requires Ok() && Dense() && [".", name] in node
      requires forall p | p in node && |p| >= 1 :: p[0] == "." && (|p| >= 2 ==> p[1] == name)
      ensures RootSlot(name)
    {
      NodeClosed(node[[".", name]], 1);
      assert [".", name][..1] == ["."] && [] + ["."] == ["."];
      DenseSlot(node[[]], ".");
      var dot := slots[node[[]]][0];
      assert at[dot] == ["."] && ["."] + [name] == [".", name];
      DenseSlot(dot, name);
    }

    lemma {:induction false} GrowthKeepsRootSlot(t: Shape, name: string)
      requires Ok() && t.Ok() && GrowsTo(t) && RootSlot(name)
      ensures t.RootSlot(name)
    {
      assert t.node[[]] == node[[]];
    }

    /** Deletes of three or more components never touch the root slot. */
    lemma {:induction false} PruneKeepsRootSlot(c: Path, name: string)
      requires Ok() && |c| >= 3 && c in node && RootSlot(name)
      ensures Pruned(c).Ok() && Pruned(c).RootSlot(name)
    {
      PrunedOk(c);
      var dot := slots[node[[]]][0];
      assert at[dot] == ["."];
      assert |at[up[node[c]].0]| == |c| - 1;
    }

    /** Cut the subtree at `c` off its slot. */
    ghost function Pruned(c: Path): Shape
      requires Ok() && c != [] && c in node
    {
      var (n, j) := up[node[c]];
      Shape(map m | m in at && !(c <= at[m]) :: at[m], map p | p in node && !(c <= p) :: node[p],
            slots[n := slots[n][j := null]], own, up)
    }

    lemma {:induction false} PrunedNamed(c: Path)
      requires Ok() && c != [] && c in node
      ensures Pruned(c).Named() && Pruned(c).node.Keys == Removed(node.Keys, c)
    {
    }

    lemma {:induction false} PrunedUpward(c: Path)
      requires Ok() && c != [] && c in node
      ensures Pruned(c).Named() && Pruned(c).Upward()
      ensures Pruned(c).node.Keys == Removed(node.Keys, c)
    {
      PrunedNamed(c);
      var h := Pruned(c);
      forall m | m in h.at && h.at[m] != []
        ensures up[m].0 in h.at && h.slots[up[m].0][up[m].1] == m
      {
        assert at[up[m].0] <= at[m];
      }
    }

    lemma {:induction false} PrunedSlot(c: Path, n: TrieNode, j: nat)
      requires Ok() && c != [] && c in node
      requires n in at && !(c <= at[n]) && j < MAX_FOLDERS && slots[n][j] != null
      ensures c <= at[slots[n][j]] ==> (n, j) == up[node[c]]
    {
      var m := slots[n][j];
      assert at[m] == at[n] + [m.data];
      assert c <= at[m] ==> c == at[m];
    }

    lemma {:induction false} PrunedOk(c: Path)
      requires Ok() && c != [] && c in node
      ensures Pruned(c).Ok() && Pruned(c).node.Keys == Removed(node.Keys, c)
    {
      var h := Pruned(c);
      PrunedUpward(c);
      forall n, j | n in h.at && 0 <= j < MAX_FOLDERS && h.slots[n][j] != null
        ensures h.slots[n][j] == slots[n][j] && slots[n][j] in h.at
      {
        PrunedSlot(c, n, j);
      }
      assert h.Downward();
    }
  }

  /** The shape of a trie that is its root alone. */
  ghost function RootShape(r: TrieNode): Shape {
    Shape(map[r := []], map[[] := r], map[r := seq(MAX_FOLDERS, _ => null)], map[r.children := r], map[])
  }

  lemma {:induction false} RootShapeOk(r: TrieNode)
    ensures RootShape(r).Ok() && RootShape(r).Dense() && RootShape(r).node.Keys == {[]}
  {
    assert forall j | 0 <= j < MAX_FOLDERS :: RootShape(r).slots[r][j] == null;
  }

  /** A trie, known in C by its root pointer. */
  class Trie {
    const root: TrieNode
    ghost var shape: Shape
    ghost var Repr: set<object>

    ghost function Footprint(): set<object>
      reads this
    {
      {this} + shape.at.Keys + shape.own.Keys
    }

    /** The invariant, stated through a quantifier so that clients do not
        unfold it. */
    ghost predicate Valid()
      reads this, Repr
    {
      forall t {:trigger t.Wf()} | t == this :: t.Repr == t.Footprint() && t.Wf()
    }

    /** Slot 0 below slot 0 holds the server's root folder. */
    ghost predicate RootIs(name: string)
      reads this
    {
      forall t {:trigger t.RootHere(name)} | t == this :: t.RootHere(name)
    }

    /** Slots have been filled in order. */
    ghost predicate Packed()
      reads this
    {
      forall t {:trigger t.PackedHere()} | t == this :: t.PackedHere()
    }

    ghost predicate PackedHere()
      reads this
    {
      shape.Named() && shape.Dense()
    }

    ghost predicate RootHere(name: string)
      reads this
    {
      shape.Ok() && [] in shape.node && shape.RootSlot(name)
    }

    ghost predicate Wf()
      reads this, Footprint()
    {
      shape.Ok() && shape.node[[]] == root && Linked()
    }

    /** The heap agrees with the shape, and leaves have no children. */
    ghost predicate Linked()
      reads this, shape.at.Keys, set n <- shape.at.Keys :: n.children
    {
      forall n | n in shape.at :: n in shape.slots && NodeIs(n, shape.slots[n])
    }

    static ghost predicate NodeIs(n: TrieNode, slots: seq<TrieNode?>)
      reads n, n.children
    {
      && n.children.Length == MAX_FOLDERS && n.children[..] == slots
      && (n.isLeaf ==> forall j | 0 <= j < MAX_FOLDERS :: n.children[j] == null)
    }

    /** The stored paths; the empty path stands for the root node. */
    ghost function Contents(): set<Path>
      reads this
    {
      shape.node.Keys
    }

    constructor (data: string)
      ensures Valid() && Packed() && Contents() == {[]} && fresh(Repr)
    {
      var r := new TrieNode(data);
      root := r;
      shape := RootShape(r);
      Repr := {this, r, r.children};
      new;
      RootShapeOk(r);
      assert forall j | 0 <= j < MAX_FOLDERS :: r.children[j] == shape.slots[r][j];
      assert NodeIs(r, shape.slots[r]);
      assert Wf() && PackedHere();
    }

    /** The inner loop shared by add, search and delete. */
    static method FindChild(n: TrieNode, name: string) returns (j: nat)
      requires n.children.Length == MAX_FOLDERS
      ensures j <= MAX_FOLDERS
      ensures j < MAX_FOLDERS ==> n.children[j] != null && n.children[j].data == name
      ensures forall k | 0 <= k < j :: n.children[k] == null || n.children[k].data != name
    {
      j := 0;
      while j < MAX_FOLDERS && !(n.children[j] != null && n.children[j].data == name)
        invariant j <= MAX_FOLDERS
        invariant forall k | 0 <= k < j :: n.children[k] == null || n.children[k].data != name
      {
        j := j + 1;
      }
    }

    static method FreeSlot(n: TrieNode) returns (j: nat)
      requires n.children.Length == MAX_FOLDERS
      ensures j <= MAX_FOLDERS
      ensures j < MAX_FOLDERS ==> n.children[j] == null
      ensures forall k | 0 <= k < j :: n.children[k] != null
    {
      j := 0;
      while j < MAX_FOLDERS && n.children[j] != null
        invariant j <= MAX_FOLDERS
        invariant forall k | 0 <= k < j :: n.children[k] != null
      {
        j := j + 1;
      }
    }

    /** One step down: the child is found exactly when the longer path is stored. */
    method Descend(curr: TrieNode, name: string) returns (j: nat)
      requires Wf() && curr in shape.at
      ensures j <= MAX_FOLDERS && (j < MAX_FOLDERS <==> shape.at[curr] + [name] in Contents())
      ensures j < MAX_FOLDERS ==>
                && curr.children[j] != null && curr.children[j] in shape.at
                && shape.at[curr.children[j]] == shape.at[curr] + [name]
                && shape.up[curr.children[j]] == (curr, j)
    {
      j := FindChild(curr, name);
      shape.SlotOf(curr, name);
      assert forall k | 0 <= k < MAX_FOLDERS :: curr.children[k] == shape.slots[curr][k];
    }

    /** `SearchPath`: succeeds exactly on the stored paths. */
    method Search(path: string) returns (found: bool)
      requires Valid()
      ensures found <==> Parse(path) in Contents()
    {
      assert Wf();
      var comps := ParsePath(path);
      found := SearchLoop(comps);
    }

    /** `SearchPathHelper`. */
    method SearchComponents(comps: Path) returns (found: bool)
      requires Valid()
      ensures found <==> comps in Contents()
    {
      assert Wf();
      found := SearchLoop(comps);
    }

    method SearchLoop(comps: Path) returns (found: bool)
      requires Wf()
      ensures found <==> comps in Contents()
    {
      var curr := root;
      var i := 0;
      shape.Closed();
      while i < |comps|
        invariant 0 <= i <= |comps|
        invariant curr in shape.at && shape.at[curr] == comps[..i]
      {
        assert comps[..i + 1] == comps[..i] + [comps[i]];
        var j := Descend(curr, comps[i]);
        if j == MAX_FOLDERS {
          assert comps[..i + 1] !in Contents();
          return false;
        }
        curr := curr.children[j];
        i := i + 1;
      }
      assert comps[..i] == comps;
      return true;
    }

    static ghost predicate Childless(n: TrieNode)
      reads n, n.children
    {
      n.isLeaf && n.children.Length == MAX_FOLDERS && forall j | 0 <= j < MAX_FOLDERS :: n.children[j] == null
    }

    /** Overwrite one slot of one node; the rest of the heap stands. */
    method Store(n: TrieNode, j: nat, kid: TrieNode?, ghost next: Shape)
      requires n.children.Length == MAX_FOLDERS && j < MAX_FOLDERS
      requires n in next.at ==> n in next.slots && next.slots[n] == n.children[..][j := kid]
      requires n in next.at && kid == null ==> NodeIs(n, n.children[..])
      requires forall m | m in next.at && m != n ::
                 m in next.slots && NodeIs(m, next.slots[m]) && m.children != n.children
      modifies this, n, n.children
      ensures Linked() && shape == next
    {
      n.children[j] := kid;
      if kid != null {
        n.isLeaf := false;
      }
      shape := next;
      assert n in next.at ==> n.children[..] == next.slots[n];
      assert n in next.at ==> NodeIs(n, next.slots[n]);
    }

    /** A node made by an add that found no free slot. */
    ghost predicate Detached(n: TrieNode)
      reads this, n, n.children
    {
      n !in shape.at && n.children !in shape.own && Childless(n)
    }

    ghost predicate CanLink(curr: TrieNode, kid: TrieNode)
      reads this, Footprint(), curr, curr.children, kid, kid.children
    {
      && Wf() && Detached(kid) && kid != curr && kid.children != curr.children
      && if curr in shape.at then shape.at[curr] + [kid.data] !in Contents() else Detached(curr)
    }

    ghost function Linking(curr: TrieNode, slot: nat, kid: TrieNode): Shape
      requires CanLink(curr, kid)
      reads this, Footprint(), curr, curr.children, kid, kid.children
    {
      if curr in shape.at && slot < MAX_FOLDERS then shape.Hung(curr, slot, kid) else shape
    }

    lemma {:induction false} LinkInside(curr: TrieNode, slot: nat, kid: TrieNode)
      requires CanLink(curr, kid) && curr in shape.at && slot < MAX_FOLDERS
      requires shape.slots[curr][slot] == null
      ensures shape.CanHang(curr, slot, kid)
      ensures var next := shape.Hung(curr, slot, kid);
              && next.Ok() && next.node[[]] == root
              && next.slots[curr] == curr.children[..][slot := kid]
              && (forall m | m in next.at && m != curr ::
                    m in next.slots && NodeIs(m, next.slots[m]) && m.children != curr.children)
    {
      shape.HungOk(curr, slot, kid);
      var next := shape.Hung(curr, slot, kid);
      assert NodeIs(curr, shape.slots[curr]);
      assert NodeIs(kid, next.slots[kid]);
    }

    lemma {:induction false} LinkReady(curr: TrieNode, slot: nat, kid: TrieNode)
      requires CanLink(curr, kid) && slot <= MAX_FOLDERS && curr.children.Length == MAX_FOLDERS
      requires slot < MAX_FOLDERS ==> curr.children[slot] == null
      requires forall k | 0 <= k < slot :: curr.children[k] != null
      ensures curr in shape.at ==>
                && (slot < MAX_FOLDERS <==> !Full(Contents(), shape.at[curr]))
                && (slot < MAX_FOLDERS ==> shape.CanHang(curr, slot, kid))
                && forall k | 0 <= k < slot :: shape.slots[curr][k] != null
      ensures var next := Linking(curr, slot, kid);
              && next.Ok() && next.node[[]] == root
              && (slot < MAX_FOLDERS ==>
                    && (curr in next.at ==> curr in next.slots && next.slots[curr] == curr.children[..][slot := kid])
                    && (forall m | m in next.at && m != curr ::
                          m in next.slots && NodeIs(m, next.slots[m]) && m.children != curr.children))
    {
      if curr in shape.at {
        shape.FullSlots(curr);
        assert forall j | 0 <= j < MAX_FOLDERS :: curr.children[j] == shape.slots[curr][j];
        if slot < MAX_FOLDERS {
          LinkInside(curr, slot, kid);
        }
      }
    }

    /** The slot search of an add: hang `kid` in the first free slot of `curr`,
        which may itself be a node that never made it into the trie. */
    method Link(curr: TrieNode, kid: TrieNode) returns (slot: nat)
      requires CanLink(curr, kid)
      modifies this, curr, curr.children
      ensures Wf() && slot <= MAX_FOLDERS
      ensures curr in old(shape.at) ==>
                && (slot < MAX_FOLDERS <==> !Full(old(Contents()), old(shape.at[curr])))
                && (slot < MAX_FOLDERS ==> old(shape).CanHang(curr, slot, kid))
                && forall k | 0 <= k < slot :: old(shape).slots[curr][k] != null
      ensures shape == old(Linking(curr, slot, kid))
    {
      slot := FreeSlot(curr);
      LinkReady(curr, slot, kid);
      if slot < MAX_FOLDERS {
        Store(curr, slot, kid, Linking(curr, slot, kid));
      }
    }

    /** What has joined the trie since the earlier state is new in the heap. */
    twostate predicate Younger()
      reads this
    {
      && (forall n | n in shape.at :: n in old(shape.at) || (fresh(n) && fresh(n.children)))
      && (forall a | a in shape.own :: a in old(shape.own) || fresh(a))
    }

    /** What one round of the add loop does to the paths. */
    static ghost predicate Extended(s: Shape, curr: TrieNode, name: string, t: Shape, next: TrieNode)
      requires s.Named() && t.Named()
    {
      if curr !in s.at then t == s && next !in t.at
      else
        var p := s.at[curr] + [name];
        if p !in s.node && Full(s.node.Keys, s.at[curr]) then t == s && next !in t.at
        else
          next in t.at && t.at[next] == p && t.node.Keys == s.node.Keys + {p}
    }

    static lemma {:induction false} ExtendedByHanging(s: Shape, curr: TrieNode, slot: nat, kid: TrieNode)
      requires s.CanHang(curr, slot, kid) && !Full(s.node.Keys, s.at[curr])
      requires forall k | 0 <= k < slot :: s.slots[curr][k] != null
      ensures var t := s.Hung(curr, slot, kid);
              t.Named() && s.GrowsTo(t) && Extended(s, curr, kid.data, t, kid)
    {
      s.GrowsHung(curr, slot, kid);
      var t := s.Hung(curr, slot, kid);
      assert t.node.Keys == s.node.Keys + {s.at[curr] + [kid.data]};
    }

    /** One round of the add loop: follow the child, or make one.  A new child
        goes to the first free slot; without one it stays detached. */
    method Extend(curr: TrieNode, name: string) returns (next: TrieNode)
      requires Wf() && (curr in shape.at || Detached(curr))
      modifies this, curr, curr.children
      ensures Wf() && old(shape).GrowsTo(shape) && Younger()
      ensures next in old(shape.at) || (fresh(next) && fresh(next.children))
      ensures Extended(old(shape), curr, name, shape, next)
      ensures next in shape.at || Detached(next)
    {
      var j := FindChild(curr, name);
      if curr in shape.at {
        shape.SlotOf(curr, name);
        assert forall k | 0 <= k < MAX_FOLDERS :: curr.children[k] == shape.slots[curr][k];
      }
      if j < MAX_FOLDERS {
        next := curr.children[j];
      } else {
        next := MakeChild(curr, name);
      }
    }

    method MakeChild(curr: TrieNode, name: string) returns (next: TrieNode)
      requires Wf() && if curr in shape.at then shape.at[curr] + [name] !in Contents() else Detached(curr)
      modifies this, curr, curr.children
      ensures Wf() && old(shape).GrowsTo(shape) && Younger()
      ensures fresh(next) && fresh(next.children)
      ensures Extended(old(shape), curr, name, shape, next)
      ensures next in shape.at || Detached(next)
    {
      next := new TrieNode(name);
      var slot := Link(curr, next);
      if curr in old(shape.at) && slot < MAX_FOLDERS {
        ExtendedByHanging(old(shape), curr, slot, next);
      }
    }

    /** The state of an add, opened in its steps only. */
    ghost predicate Adding(start: Shape, c: Path, i: nat, curr: TrieNode)
      reads this, Footprint(), curr, curr.children
    {
      forall t {:trigger t.AddingHere(start, c, i, curr)} | t == this :: t.AddingHere(start, c, i, curr)
    }

    /** The state of an add after `i` components of `c`: `curr` is the current
        node, and what remains to be added does not depend on the past. */
    ghost predicate AddingHere(start: Shape, c: Path, i: nat, curr: TrieNode)
      reads this, Footprint(), curr, curr.children
    {
      && Wf() && start.Named() && start.GrowsTo(shape) && i <= |c|
      && AddFrom(Contents(), c, i, curr in shape.at) == AddFrom(start.node.Keys, c, 0, true)
      && (if curr in shape.at then shape.at[curr] == c[..i] else Detached(curr))
    }

    static lemma {:induction false} ExtendedAddFrom(s: Shape, curr: TrieNode, t: Shape, next: TrieNode, c: Path, i: nat)
      requires s.Named() && t.Named() && i < |c| && Extended(s, curr, c[i], t, next)
      requires curr in s.at ==> s.at[curr] == c[..i]
      ensures AddFrom(t.node.Keys, c, i + 1, next in t.at) == AddFrom(s.node.Keys, c, i, curr in s.at)
      ensures next in t.at ==> t.at[next] == c[..i + 1]
    {
      assert c[..i] + [c[i]] == c[..i + 1];
      assert c[..i + 1] in s.node.Keys ==> s.node.Keys + {c[..i + 1]} == s.node.Keys;
    }

    /** One round of the add loop, from the shape before it. */
    lemma {:induction false} AddAdvances(start: Shape, before: Shape, c: Path, i: nat, curr: TrieNode, next: TrieNode)
      requires Wf() && start.Named() && before.Named() && start.GrowsTo(before) && before.GrowsTo(shape) && i < |c|
      requires AddFrom(before.node.Keys, c, i, curr in before.at) == AddFrom(start.node.Keys, c, 0, true)
      requires (curr in before.at ==> before.at[curr] == c[..i]) && Extended(before, curr, c[i], shape, next)
      requires next in shape.at || Detached(next)
      ensures Adding(start, c, i + 1, next)
    {
      ExtendedAddFrom(before, curr, shape, next, c, i);
      start.GrowsTrans(before, shape);
      assert AddingHere(start, c, i + 1, next);
    }

    method AddStep(curr: TrieNode, name: string, ghost start: Shape, ghost c: Path, ghost i: nat)
      returns (next: TrieNode)
      requires Adding(start, c, i, curr) && i < |c| && c[i] == name
      modifies this, curr, curr.children
      ensures Adding(start, c, i + 1, next)
      ensures Younger()
      ensures next in old(shape.at) || (fresh(next) && fresh(next.children))
    {
      assert AddingHere(start, c, i, curr);
      next := Extend(curr, name);
      AddAdvances(start, old(shape), c, i, curr, next);
    }

    lemma {:induction false} AddStarts(c: Path)
      requires Wf()
      ensures Adding(shape, c, 0, root)
    {
      assert c[..0] == [];
      assert AddingHere(shape, c, 0, root);
    }

    lemma {:induction false} AddEnds(start: Shape, c: Path, curr: TrieNode)
      requires Adding(start, c, |c|, curr)
      ensures Wf() && start.Named() && start.GrowsTo(shape) && Contents() == AddFrom(start.node.Keys, c, 0, true)
    {
      assert AddingHere(start, c, |c|, curr);
    }

    /** The walk of `AddPathToTrie`. */
    method AddWalk(comps: Path)
      requires Wf()
      modifies Footprint()
      ensures Wf() && Younger() && old(shape).GrowsTo(shape)
      ensures Contents() == AddFrom(old(Contents()), comps, 0, true)
    {
      var curr, i := root, 0;
      AddStarts(comps);
      while i < |comps|
        invariant 0 <= i <= |comps|
        invariant Adding(old(shape), comps, i, curr)
        invariant Younger()
        invariant curr in old(shape.at) || (fresh(curr) && fresh(curr.children))
      {
        curr := AddStep(curr, comps[i], old(shape), comps, i);
        i := i + 1;
      }
      AddEnds(old(shape), comps, curr);
    }

    method AddLoop(path: string)
      requires Wf() && |Parse(path)| < MAX_PATH
      modifies Footprint()
      ensures Wf() && Younger()
      ensures Contents() == Added(old(Contents()), Parse(path))
      ensures old(shape).GrowsTo(shape)
    {
      var comps := ParsePath(path);
      AddWalk(comps);
      old(shape).Closed();
      assert comps[..0] == [];
      AddFromIsAdded(old(Contents()), comps, 0);
    }

    /** The walk of a delete: the parent of the last component and its slot. */
    method FindSlot(comps: Path) returns (prev: TrieNode, at: nat)
      requires Wf() && comps != [] && comps in Contents()
      ensures shape.up[shape.node[comps]] == (prev, at)
      ensures prev in shape.at && at < MAX_FOLDERS && prev.children.Length == MAX_FOLDERS
    {
      prev, at := root, 0;
      var curr, i := root, 0;
      shape.Closed();
      while i < |comps|
        invariant 0 <= i <= |comps|
        invariant curr in shape.at && shape.at[curr] == comps[..i]
        invariant prev in shape.at && at < MAX_FOLDERS
        invariant i > 0 ==> shape.up[curr] == (prev, at)
      {
        assert comps[..i + 1] == comps[..i] + [comps[i]];
        var j := Descend(curr, comps[i]);
        prev, at := curr, j;
        curr := curr.children[j];
        i := i + 1;
      }
      assert comps[..i] == comps;
      assert NodeIs(prev, shape.slots[prev]);
    }

    /** Clears the slot of a stored path. */
    method ClearSlot(comps: Path)
      requires Wf() && comps != [] && comps in Contents()
      modifies Footprint()
      ensures Wf() && Younger() && shape == old(shape).Pruned(comps)
      ensures Contents() == Removed(old(Contents()), comps)
    {
      var prev, at := FindSlot(comps);
      PruneReady(comps, prev, at);
      Store(prev, at, null, shape.Pruned(comps));
    }

    /** `DeletePath`: the slot of the last component is cleared; a path that is
        not stored changes nothing. */
    method DeleteLoop(path: string)
      requires Wf() && 0 < |Parse(path)| < MAX_PATH
      modifies Footprint()
      ensures Wf() && Younger()
      ensures Contents() == Removed(old(Contents()), Parse(path))
      ensures shape == if Parse(path) in old(Contents()) then old(shape).Pruned(Parse(path)) else old(shape)
    {
      var comps := ParsePath(path);
      var found := SearchLoop(comps);
      if found {
        ClearSlot(comps);
      } else {
        shape.Closed();
        NotStored(Contents(), comps);
      }
    }

    lemma {:induction false} PruneReady(c: Path, n: TrieNode, j: nat)
      requires Wf() && c != [] && c in Contents() && shape.up[shape.node[c]] == (n, j)
      ensures n in shape.at && j < MAX_FOLDERS && n.children.Length == MAX_FOLDERS
      ensures NodeIs(n, n.children[..])
      ensures var next := shape.Pruned(c);
              && next.Ok() && next.node[[]] == root && next.node.Keys == Removed(Contents(), c)
              && n in next.slots && next.slots[n] == n.children[..][j := null]
              && (forall m | m in next.at && m != n ::
                    m in next.slots && NodeIs(m, next.slots[m]) && m.children != n.children)
    {
      shape.PrunedOk(c);
      assert NodeIs(n, shape.slots[n]);
    }

    twostate lemma {:induction false} YoungerFootprint()
      requires Younger()
      ensures fresh(Footprint() - old(Footprint()))
    {
    }

    /** Brings the published footprint up to date. */
    ghost method Seal()
      requires Wf()
      modifies this`Repr
      ensures Valid() && Repr == old(Footprint()) && shape == old(shape)
    {
      Repr := Footprint();
      assert forall n | n in shape.at :: NodeIs(n, shape.slots[n]);
      assert Wf();
    }

    /** `AddPathToTrie`: all missing prefixes are stored, or nothing when the
        deepest existing one is full; the root slot stands. */
    method Add(path: string)
      requires Valid() && |Parse(path)| < MAX_PATH
      modifies Repr
      ensures Valid() && fresh(Repr - old(Repr))
      ensures Contents() == Added(old(Contents()), Parse(path))
      ensures forall name | old(RootIs(name)) :: RootIs(name)
      ensures old(Packed()) ==> Packed()
    {
      assert Wf();
      assert old(Packed()) ==> PackedHere();
      AddLoop(path);
      assert old(Packed()) ==> PackedHere();
      YoungerFootprint();
      Seal();
      forall name | old(RootIs(name))
        ensures RootIs(name)
      {
        assert old(RootHere(name));
        old(shape).GrowthKeepsRootSlot(shape, name);
        assert RootHere(name);
      }
    }

    /** `DeletePath`: exactly the subtree goes; below a root folder the root
        slot stands. */
    method Delete(path: string)
      requires Valid() && 0 < |Parse(path)| < MAX_PATH
      modifies Repr
      ensures Valid() && fresh(Repr - old(Repr))
      ensures Contents() == Removed(old(Contents()), Parse(path))
      ensures |Parse(path)| >= 3 ==> forall name | old(RootIs(name)) :: RootIs(name)
    {
      assert Wf();
      DeleteLoop(path);
      YoungerFootprint();
      Seal();
      if |Parse(path)| >= 3 {
        forall name | old(RootIs(name))
          ensures RootIs(name)
        {
          assert old(RootHere(name));
          if Parse(path) in old(Contents()) {
            old(shape).PruneKeepsRootSlot(Parse(path), name);
          }
          assert RootHere(name);
        }
      }
    }

    /** After indexing one root folder into an empty trie, the root slot holds it. */
    lemma {:induction false} PackedRoot(name: string)
      requires Valid() && Packed() && [".", name] in Contents()
      requires forall p | p in Contents() && |p| >= 1 :: p[0] == "." && (|p| >= 2 ==> p[1] == name)
      ensures RootIs(name)
    {
      assert Wf() && PackedHere();
      shape.DenseRootSlot(name);
      assert RootHere(name);
    }

    lemma {:induction false} InRepr()
      requires Valid()
      ensures this in Repr
    {
      assert Wf();
    }

    lemma {:induction false} ContentsClosed()
      requires Valid()
      ensures PrefixClosed(Contents())
    {
      assert Wf();
      shape.Closed();
    }

    /** `root->childeren[0]->childeren[0]->data` is defined. */
    method RootName(ghost expected: string) returns (name: string)
      requires Valid() && RootIs(expected)
      ensures name == expected
    {
      assert Wf() && RootHere(expected);
      var dot := root.children[0];
      name := dot.children[0].data;
    }
  }
}
