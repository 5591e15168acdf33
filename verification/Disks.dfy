/** A server's disk and the four commands that change it. */
module Disks {
  import opened Paths
  import opened Files

  datatype Op = MakeFolder | Touch | RemoveFolder | Remove

  predicate ChildOf(p: Path, q: Path) {
    |q| == |p| + 1 && q[..|p|] == p
  }

  predicate Childless(d: FS, p: Path) {
    forall q | q in d :: !ChildOf(p, q)
  }

  /** `mkdir`, `fopen(.., "w")`, `rmdir` and `remove` on a path. */
  predicate Succeeds(d: FS, op: Op, p: Path) {
    && p != []
    && match op
       case MakeFolder => p !in d && ParentIsDir(d, p)
       case Touch => CanOpen(d, p)
       case RemoveFolder => IsDir(d, p) && Childless(d, p)
       case Remove => p in d && (d[p].File? || Childless(d, p))
  }

  function Exec(d: FS, op: Op, p: Path): FS {
    if !Succeeds(d, op, p) then d
    else
      match op
      case MakeFolder => d[p := Dir]
      case Touch => d[p := File("")]
      case RemoveFolder => d - {p}
      case Remove => d - {p}
  }

  /** `d` below `at` and `e` have the same at `x`. */
  ghost predicate SameAt(d: FS, at: Path, e: FS, x: Path) {
    (at + x in d <==> x in e) && (x in e && at + x in d ==> d[at + x] == e[x])
  }

  /** `d` mirrors below `at` what `e` has under the name `r`. */
  ghost predicate Mirrors(d: FS, at: Path, e: FS, r: string) {
    forall x: Path | x != [] && x[0] == r :: SameAt(d, at, e, x)
  }

  lemma {:induction false} ChildBelow(at: Path, x: Path, y: Path)
    ensures ChildOf(x, y) <==> ChildOf(at + x, at + y)
  {
    assert (at + y)[|at|..] == y && (at + x)[|at|..] == x;
    if |y| == |x| + 1 {
      assert (at + y)[..|at + x|] == at + y[..|x|];
      assert at + y[..|x|] == at + x <==> y[..|x|] == x by {
        assert (at + y[..|x|])[|at|..] == y[..|x|];
      }
    }
  }

  lemma {:induction false} ChildrenAgree(d: FS, at: Path, e: FS, r: string, x: Path)
    requires Mirrors(d, at, e, r) && x != [] && x[0] == r
    ensures Childless(d, at + x) <==> Childless(e, x)
  {
    forall y | ChildOf(x, y)
      ensures SameAt(d, at, e, y) && ChildOf(at + x, at + y)
    {
      assert y[0] == y[..|x|][0];
      ChildBelow(at, x, y);
    }
    forall q | ChildOf(at + x, q)
      ensures q == at + q[|at|..] && ChildOf(x, q[|at|..])
    {
      assert q[..|at|] == q[..|at + x|][..|at|] == at;
      assert q == at + q[|at|..];
      ChildBelow(at, x, q[|at|..]);
    }
    assert Childless(e, x) ==> forall q | q in d && ChildOf(at + x, q) :: q[|at|..] in e;
  }

  /** The same command succeeds or fails on both sides. */
  lemma {:induction false} SucceedsAgree(d: FS, at: Path, e: FS, r: string, op: Op, x: Path)
    requires Mirrors(d, at, e, r) && |x| >= 2 && x[0] == r
    ensures Succeeds(d, op, at + x) <==> Succeeds(e, op, x)
  {
    ChildrenAgree(d, at, e, r, x);
    assert SameAt(d, at, e, x);
    assert SameAt(d, at, e, x[..|x| - 1]);
    assert (at + x)[..|at + x| - 1] == at + x[..|x| - 1];
  }

  lemma {:induction false} ExecAgree(d: FS, at: Path, e: FS, r: string, op: Op, x: Path)
    requires Mirrors(d, at, e, r) && |x| >= 2 && x[0] == r
    ensures Mirrors(Exec(d, op, at + x), at, Exec(e, op, x), r)
  {
    SucceedsAgree(d, at, e, r, op, x);
    forall y: Path | y != [] && y[0] == r
      ensures SameAt(Exec(d, op, at + x), at, Exec(e, op, x), y)
    {
      assert SameAt(d, at, e, y);
      assert at + y == at + x ==> y == x by {
        assert (at + y)[|at|..] == y && (at + x)[|at|..] == x;
      }
    }
  }

  /** A command elsewhere on the mirroring disk does not matter, */
  lemma {:induction false} ExecBeside(d: FS, at: Path, e: FS, r: string, op: Op, p: Path)
    requires Mirrors(d, at, e, r) && !(|p| > |at| && p[..|at|] == at && p[|at|] == r)
    ensures Mirrors(Exec(d, op, p), at, e, r)
  {
    forall y: Path | y != [] && y[0] == r
      ensures SameAt(Exec(d, op, p), at, e, y)
    {
      assert SameAt(d, at, e, y);
      assert (at + y)[..|at|] == at && (at + y)[|at|] == r;
    }
  }

  /** nor does one elsewhere on the mirrored disk. */
  lemma {:induction false} ExecElsewhere(d: FS, at: Path, e: FS, r: string, op: Op, p: Path)
    requires Mirrors(d, at, e, r) && p != [] && p[0] != r
    ensures Mirrors(d, at, Exec(e, op, p), r)
  {
    forall y: Path | y != [] && y[0] == r
      ensures SameAt(d, at, Exec(e, op, p), y)
    {
      assert SameAt(d, at, e, y);
    }
  }

  ghost predicate LooksSame(d: FS, e: FS, p: Path) {
    (p in d <==> p in e) && (p in d && p in e ==> d[p] == e[p])
  }

  /** The disks have the same at `at` and below. */
  ghost predicate SameBelow(d: FS, e: FS, at: Path) {
    forall p: Path | at <= p :: LooksSame(d, e, p)
  }

  lemma {:induction false} ExecSame(d: FS, e: FS, at: Path, op: Op, x: Path)
    requires SameBelow(d, e, at) && x != []
    ensures Succeeds(d, op, at + x) <==> Succeeds(e, op, at + x)
    ensures SameBelow(Exec(d, op, at + x), Exec(e, op, at + x), at)
  {
    var p := at + x;
    assert LooksSame(d, e, p);
    assert p[..|p| - 1] == at + x[..|x| - 1] && LooksSame(d, e, p[..|p| - 1]);
    assert forall q | ChildOf(p, q) :: at <= q by {
      assert forall q | ChildOf(p, q) :: q[..|at|] == q[..|p|][..|at|] == p[..|at|];
    }
    assert Childless(d, p) <==> Childless(e, p) by {
      assert forall q | ChildOf(p, q) :: LooksSame(d, e, q);
    }
    forall q: Path | at <= q
      ensures LooksSame(Exec(d, op, p), Exec(e, op, p), q)
    {
      assert LooksSame(d, e, q);
    }
  }

  lemma {:induction false} ExecOutside(d: FS, at: Path, op: Op, p: Path)
    requires !(at <= p)
    ensures SameBelow(d, Exec(d, op, p), at)
  {
    assert forall q: Path | at <= q :: LooksSame(d, Exec(d, op, p), q);
  }

  lemma {:induction false} MirrorsSame(d: FS, d': FS, at: Path, e: FS, r: string)
    requires Mirrors(d, at, e, r) && SameBelow(d, d', at)
    ensures Mirrors(d', at, e, r)
  {
    forall y: Path | y != [] && y[0] == r
      ensures SameAt(d', at, e, y)
    {
      assert SameAt(d, at, e, y);
      assert at <= at + y && LooksSame(d, d', at + y);
    }
  }
}
