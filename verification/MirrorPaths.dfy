/** Where a backup server keeps the mirror of a path.  Four routes compute the
    place with their own string arithmetic; all of them agree. */
module MirrorPaths {
  import opened Paths
  import opened Files
  import opened TreeCopy
  import opened CopyProtocol

  const FOLDER := "backupfolderforss"

  /** The name of one file or folder. */
  predicate FileName(n: string) {
    IsName(n) && n !in {".", ".."}
  }

  /** A canonical path below some server's root, or that root, with no dots in it. */
  predicate Proper(p: string) {
    Canonical(p) && |Parse(p)| >= 2 && forall k | 1 <= k < |Parse(p)| :: FileName(Parse(p)[k])
  }

  /** The mirror of `p` at the backup server rooted at "./" + b. */
  function Mirror(b: string, p: string): Path
    requires Proper(p)
  {
    [FOLDER, b] + Parse(p)[1..]
  }

  function Base(b: string): string {
    "./" + FOLDER + "/" + b
  }

  /** `s + 2` on a C string. */
  function Tail(s: string, n: nat): string {
    if n <= |s| then s[n..] else ""
  }

  /** The `*b` commands: both paths lose their leading "./". */
  function CommandPath(rootPath: string, p: string): string {
    "./" + FOLDER + "/" + Tail(rootPath, 2) + "/" + Tail(p, 2)
  }

  function LengthToSkip(src: string): nat {
    |src| - |BaseName(src)|
  }

  /** `copy_different_src`: a root folder that goes to a backup keeps its "./". */
  function Skip(src: string, dest: string): nat {
    if LengthToSkip(src) == 2 && "./" + FOLDER <= dest then 0 else LengthToSkip(src)
  }

  /** `copy_different_src_b`. */
  function SkipB(src: string): nat {
    if LengthToSkip(src) == 2 then 0 else LengthToSkip(src)
  }

  /** How a path comes to its mirror: a `*b` command; the first copy of a whole
      server, "copy ./a ./backupfolderforss/b"; "lcopy" of a written file; or
      "copydifferentb dest/name ./backupfolderforss/b/dest" after a copy. */
  datatype Route = ByCommand | Initial(a: string) | AfterWrite(file: string) | AfterCopy(dest: string, name: string)
  {
    /** What the copying routes send. */
    function Source(): string {
      match this
      case ByCommand => ""
      case Initial(a) => "./" + a
      case AfterWrite(file) => file
      case AfterCopy(dest, name) => dest + "/" + name
    }

    function DestOf(b: string): string {
      if AfterCopy? then Base(b) + "/" + Tail(dest, 2) else Base(b)
    }

    /** The length cut off every announced path; nothing for a written file. */
    function Skipped(b: string): nat {
      match this
      case ByCommand => 0
      case Initial(_) => Skip(Source(), DestOf(b))
      case AfterWrite(_) => 0
      case AfterCopy(_, _) => SkipB(Source())
    }

    /** Only `copy_different_dest` strips "./". */
    predicate Strips() {
      !AfterCopy?
    }

    /** The path at which the backup server rooted at "./" + b puts `p`. */
    function Place(b: string, p: string): string {
      if ByCommand? then CommandPath("./" + b, p) else Target(Strips(), DestOf(b), Tail(p, Skipped(b)))
    }

    /** The paths this route carries. */
    predicate Carries(p: string) {
      match this
      case ByCommand => true
      case Initial(a) => FileName(a) && From("./" + a, p)
      case AfterWrite(file) => p == file
      case AfterCopy(dest, name) => FileName(name) && Proper(dest) && From(dest + "/" + name, p)
    }
  }

  /** A path at or below `top`. */
  predicate From(top: string, p: string) {
    top <= p && (|p| > |top| ==> p[|top|] == '/')
  }

  lemma {:induction false} JoinDot(c: Path)
    requires |c| >= 2 && c[0] == "."
    ensures "./" <= Join(c)
    decreases |c|
  {
    if |c| > 2 {
      JoinDot(c[..|c| - 1]);
    }
  }

  lemma {:induction false} ResolveLast(init: Path, last: string)
    requires init != [] && FileName(last) && Resolve(Join(init)) == init[1..]
    ensures Resolve(Join(init + [last])) == (init + [last])[1..]
  {
    var c := init + [last];
    assert c[..|c| - 1] == init;
    SplitName(last, RESOLVE_SKIP);
    SplitConcat(Join(init), last, RESOLVE_SKIP);
  }

  lemma {:induction false} ResolveJoin(c: Path)
    requires c != [] && c[0] == "." && AllNames(c)
    requires forall k | 1 <= k < |c| :: FileName(c[k])
    ensures Resolve(Join(c)) == c[1..]
    decreases |c|
  {
    if |c| == 1 {
      SplitName(".", RESOLVE_SKIP);
    } else {
      var init, last := c[..|c| - 1], c[|c| - 1];
      ResolveJoin(init);
      ResolveLast(init, last);
      assert c == init + [last];
    }
  }

  /** The storage server resolves a proper path to its components after ".". */
  lemma {:induction false} ProperResolves(p: string)
    requires Proper(p)
    ensures |p| >= 3 && "./" <= p && Resolve(p) == Resolve(p[2..]) == Parse(p)[1..]
  {
    ParseNames(p);
    JoinDot(Parse(p));
    ResolveJoin(Parse(p));
    assert p == "./" + p[2..];
    DotSlash(p[2..]);
    assert p[2..] != "" by {
      SplitName("", RESOLVE_SKIP);
    }
  }

  lemma {:induction false} TwoNames(f: string, b: string)
    requires FileName(f) && FileName(b)
    ensures Resolve("./" + f + "/" + b) == [f, b]
  {
    assert "./" + f + "/" + b == "./" + (f + "/" + b);
    DotSlash(f + "/" + b);
    SplitConcat(f, b, RESOLVE_SKIP);
    SplitName(f, RESOLVE_SKIP);
    SplitName(b, RESOLVE_SKIP);
  }

  lemma {:induction false} FolderIsName()
    ensures FileName(FOLDER)
  {
  }

  lemma {:induction false} BaseResolves(b: string)
    requires FileName(b)
    ensures Resolve(Base(b)) == [FOLDER, b]
  {
    FolderIsName();
    TwoNames(FOLDER, b);
  }

  lemma {:induction false} CommandResolves(b: string, p: string)
    requires FileName(b) && Proper(p)
    ensures Resolve(CommandPath("./" + b, p)) == Mirror(b, p)
  {
    ProperResolves(p);
    BaseResolves(b);
    assert Tail("./" + b, 2) == b;
    assert CommandPath("./" + b, p) == Base(b) + "/" + p[2..];
    SplitConcat(Base(b), p[2..], RESOLVE_SKIP);
  }

  lemma {:induction false} SkipLength(dir: string, name: string)
    requires '/' !in name
    ensures LengthToSkip(dir + "/" + name) == |dir| + 1
  {
    LastSlashUnique(dir, name);
  }

  lemma {:induction false} RootSkip(a: string, b: string)
    requires FileName(a)
    ensures Skip("./" + a, Base(b)) == 0
  {
    SkipLength(".", a);
    assert "." + "/" + a == "./" + a;
    assert Base(b)[..|"./" + FOLDER|] == "./" + FOLDER;
  }

  /** An ordinary copy announces the source under its own name. */
  lemma {:induction false} SkipToName(src: string, dest: string)
    requires !("./" + FOLDER <= dest)
    ensures Tail(src, Skip(src, dest)) == BaseName(src)
  {
  }

  /** And everything below the source under that name. */
  lemma {:induction false} SkipBelow(src: string, dest: string, p: string)
    requires !("./" + FOLDER <= dest) && From(src, p)
    ensures Tail(p, Skip(src, dest)) == BaseName(src) + p[|src|..]
  {
    var n := |src| - |BaseName(src)|;
    assert p == src + p[|src|..];
    assert p[n..] == src[n..] + p[|src|..];
  }

  /** A copy to a backup does the same, but for a root folder, which keeps its path. */
  lemma {:induction false} SkipForBackup(src: string, dest: string)
    ensures Tail(src, SkipB(src)) == if LastSlash(src) == 1 then src else BaseName(src)
    ensures "./" + FOLDER <= dest ==> Skip(src, dest) == SkipB(src)
  {
  }

  lemma {:induction false} WholeResolves(b: string, p: string)
    requires FileName(b) && Proper(p)
    ensures Resolve(Target(true, Base(b), Tail(p, 0))) == Mirror(b, p)
  {
    ProperResolves(p);
    BaseResolves(b);
    assert Tail(p, 0) == p;
    TargetResolves(true, Base(b), p);
  }

  /** Cutting a copied path at its destination folder. */
  lemma {:induction false} CutAt(dest: string, rest: string, p: string)
    requires Proper(dest) && Proper(p) && p == dest + "/" + rest
    ensures Parse(p)[1..] == Parse(dest)[1..] + Resolve(rest)
  {
    ProperResolves(dest);
    ProperResolves(p);
    SplitConcat(dest, rest, RESOLVE_SKIP);
  }

  lemma {:induction false} CopiedBase(b: string, dest: string)
    requires FileName(b) && Proper(dest)
    ensures |dest| >= 3 && Resolve(Base(b) + "/" + Tail(dest, 2)) == [FOLDER, b] + Parse(dest)[1..]
  {
    ProperResolves(dest);
    BaseResolves(b);
    SplitConcat(Base(b), dest[2..], RESOLVE_SKIP);
  }

  lemma {:induction false} FromCut(dest: string, name: string, p: string)
    requires From(dest + "/" + name, p)
    ensures p == dest + "/" + Tail(p, |dest| + 1)
  {
    assert p[..|dest| + 1] == (dest + "/" + name)[..|dest| + 1] == dest + "/";
  }

  lemma {:induction false} CopiedPlace(b: string, dest: string, name: string, p: string)
    requires FileName(name) && |dest| >= 2
    ensures AfterCopy(dest, name).Place(b, p) == Target(false, Base(b) + "/" + Tail(dest, 2), Tail(p, |dest| + 1))
  {
    SkipLength(dest, name);
  }

  lemma {:induction false} TargetAt(base: string, rel: string, at: Path, more: Path)
    requires Resolve(base) == at && Resolve(rel) == more
    ensures Resolve(Target(false, base, rel)) == at + more
  {
    TargetResolves(false, base, rel);
  }

  lemma {:induction false} CopiedResolves(b: string, dest: string, name: string, p: string)
    requires FileName(b) && FileName(name) && Proper(dest) && Proper(p) && From(dest + "/" + name, p)
    ensures Resolve(AfterCopy(dest, name).Place(b, p)) == Mirror(b, p)
  {
    var rest, base := Tail(p, |dest| + 1), Base(b) + "/" + Tail(dest, 2);
    CopiedBase(b, dest);
    CopiedPlace(b, dest, name, p);
    FromCut(dest, name, p);
    CutAt(dest, rest, p);
    TargetAt(base, rest, [FOLDER, b] + Parse(dest)[1..], Resolve(rest));
    Regroup([FOLDER, b], Parse(dest)[1..], Resolve(rest));
  }

  /** Mirror-path agreement: whatever route a path takes, the backup server puts
      it at the same place. */
  lemma {:induction false} RoutesAgree(route: Route, b: string, p: string)
    requires FileName(b) && Proper(p) && route.Carries(p)
    ensures Resolve(route.Place(b, p)) == Mirror(b, p)
  {
    match route
    case ByCommand =>
      CommandResolves(b, p);
    case Initial(a) =>
      RootSkip(a, b);
      WholeResolves(b, p);
    case AfterWrite(_) =>
      WholeResolves(b, p);
    case AfterCopy(dest, name) =>
      CopiedResolves(b, dest, name, p);
  }

  /** A finished backup copy has grafted the source at its mirror path. */
  lemma {:induction false} CopyReachesMirror(route: Route, b: string, t: Tree, fs: FS, run: seq<Action>)
    requires !route.ByCommand? && FileName(b) && Proper(route.Source()) && route.Carries(route.Source())
    requires Copyable(route.DestOf(b), Tail(route.Source(), route.Skipped(b)), t, fs)
    requires ConflictFree(Mkdir(fs, Resolve(route.DestOf(b))), Mirror(b, route.Source()), t)
    requires var start := CopyProtocol.Initial(Script(route.DestOf(b), Tail(route.Source(), route.Skipped(b)), t), fs);
             IsRun(route.Strips(), start, run) && Complete(After(route.Strips(), start, run))
    ensures var start := CopyProtocol.Initial(Script(route.DestOf(b), Tail(route.Source(), route.Skipped(b)), t), fs);
            IsGraft(After(route.Strips(), start, run).fs, Mkdir(fs, Resolve(route.DestOf(b))),
                    Mirror(b, route.Source()), t)
  {
    var base, rel := route.DestOf(b), Tail(route.Source(), route.Skipped(b));
    RoutesAgree(route, b, route.Source());
    TargetResolves(route.Strips(), base, rel);
    CopyCorrect(route.Strips(), base, rel, t, fs, run);
  }
}
