/** Path strings and their components.

    The naming server parses a path with `strtok` on '/' and drops "~"; the
    storage server hands path strings to the operating system, which drops
    empty and "." components.  Both are the same split with a different set
    of skipped components. */
module Paths {

  type Path = seq<string>

  const PARSE_SKIP: set<string> := {"", "~"}
  const RESOLVE_SKIP: set<string> := {"", "."}

  function FirstSlash(s: string): (i: nat)
    ensures i <= |s|
    ensures '/' !in s[..i]
    ensures i < |s| ==> s[i] == '/'
  {
    if s == "" || s[0] == '/' then 0 else 1 + FirstSlash(s[1..])
  }

  function Keep(t: string, skip: set<string>): seq<string> {
    if t in skip then [] else [t]
  }

  function Split(s: string, skip: set<string>): seq<string>
    decreases |s|
  {
    var i := FirstSlash(s);
    if i == |s| then Keep(s, skip) else Keep(s[..i], skip) + Split(s[i + 1..], skip)
  }

  /** The components the naming server sees (`ParsePath`). */
  function Parse(s: string): Path {
    Split(s, PARSE_SKIP)
  }

  /** The components the file system sees. */
  function Resolve(s: string): Path {
    Split(s, RESOLVE_SKIP)
  }

  lemma {:induction false} FirstSlashUnique(s: string, i: nat)
    requires i <= |s| && '/' !in s[..i]
    requires i < |s| ==> s[i] == '/'
    ensures FirstSlash(s) == i
  {
    var j := FirstSlash(s);
    assert forall k :: 0 <= k < i ==> s[k] == s[..i][k];
    assert forall k :: 0 <= k < j ==> s[k] == s[..j][k];
  }

  /** Parsing is a homomorphism from '/'-joined strings to sequences. */
  lemma {:induction false} SplitConcat(a: string, b: string, skip: set<string>)
    ensures Split(a + "/" + b, skip) == Split(a, skip) + Split(b, skip)
    decreases |a|
  {
    var s := a + "/" + b;
    var i := FirstSlash(a);
    assert s[..i] == a[..i];
    assert s[i] == '/';
    FirstSlashUnique(s, i);
    if i == |a| {
      assert s[..i] == a && s[i + 1..] == b;
    } else {
      assert s[i + 1..] == a[i + 1..] + "/" + b;
      SplitConcat(a[i + 1..], b, skip);
    }
  }

  lemma {:induction false} SplitName(n: string, skip: set<string>)
    requires '/' !in n
    ensures Split(n, skip) == Keep(n, skip)
  {
    FirstSlashUnique(n, |n|);
    assert n[..|n|] == n;
  }

  /** One component between slashes: the naming server passes over nothing and
      "~", the file system over nothing and ".". */
  lemma {:induction false} OneComponent(n: string)
    requires '/' !in n
    ensures Parse(n) == if n == "" || n == "~" then [] else [n]
    ensures Resolve(n) == if n == "" || n == "." then [] else [n]
  {
    SplitName(n, PARSE_SKIP);
    SplitName(n, RESOLVE_SKIP);
  }

  predicate IsName(n: string) {
    '/' !in n && n !in PARSE_SKIP
  }

  predicate AllNames(c: Path) {
    forall k :: 0 <= k < |c| ==> IsName(c[k])
  }

  function Join(c: Path): string
    requires c != []
  {
    if |c| == 1 then c[0] else Join(c[..|c| - 1]) + "/" + c[|c| - 1]
  }

  lemma {:induction false} ParseJoin(c: Path)
    requires c != [] && AllNames(c)
    ensures Parse(Join(c)) == c
    decreases |c|
  {
    var last := c[|c| - 1];
    SplitName(last, PARSE_SKIP);
    if |c| == 1 {
      assert c == [last];
    } else {
      var init := c[..|c| - 1];
      ParseJoin(init);
      SplitConcat(Join(init), last, PARSE_SKIP);
      assert c == init + [last];
    }
  }

  lemma {:induction false} ParseNames(s: string)
    ensures AllNames(Parse(s))
    decreases |s|
  {
    var i := FirstSlash(s);
    if i == |s| {
      assert s[..i] == s;
    } else {
      ParseNames(s[i + 1..]);
    }
  }

  /** A canonical path: rooted at ".", and spelled exactly as its components. */
  predicate Canonical(s: string) {
    var c := Parse(s);
    c != [] && c[0] == "." && s == Join(c)
  }

  lemma {:induction false} CanonicalInjective(s: string, t: string)
    requires Canonical(s) && Canonical(t)
    ensures s == t <==> Parse(s) == Parse(t)
  {
  }

  lemma {:induction false} CanonicalJoin(c: Path)
    requires c != [] && c[0] == "." && AllNames(c)
    ensures Canonical(Join(c)) && Parse(Join(c)) == c
  {
    ParseJoin(c);
  }

  /** `strrchr(s, '/')`, or -1 when there is no slash. */
  function LastSlash(s: string): (i: int)
    ensures -1 <= i < |s|
    ensures i >= 0 ==> s[i] == '/'
  {
    if s == "" then -1
    else if s[|s| - 1] == '/' then |s| - 1
    else LastSlash(s[..|s| - 1])
  }

  lemma {:induction false} LastSlashUnique(a: string, b: string)
    requires '/' !in b
    ensures LastSlash(a + "/" + b) == |a|
    decreases |b|
  {
    var s := a + "/" + b;
    if b != "" {
      var init := b[..|b| - 1];
      assert s[..|s| - 1] == a + "/" + init;
      LastSlashUnique(a, init);
    }
  }

  /** Truncation at the last '/', as done before a create. */
  function CutLast(s: string): string {
    var i := LastSlash(s);
    if i < 0 then s else s[..i]
  }

  /** What follows the last '/', as in `strrchr(s, '/') + 1`. */
  function BaseName(s: string): string {
    s[LastSlash(s) + 1..]
  }

  /** Cutting a canonical path at its last slash yields the canonical parent. */
  lemma {:induction false} CutLastIsParent(s: string)
    requires Canonical(s) && |Parse(s)| >= 2
    ensures Canonical(CutLast(s))
    ensures Parse(s) == Parse(CutLast(s)) + [BaseName(s)]
    ensures s == CutLast(s) + "/" + BaseName(s)
  {
    var c := Parse(s);
    var init, last := c[..|c| - 1], c[|c| - 1];
    ParseNames(s);
    LastSlashUnique(Join(init), last);
    assert CutLast(s) == Join(init);
    CanonicalJoin(init);
    assert BaseName(s) == last;
  }

  /** What the loop keeps of a token. */
  function Kept(token: string): Path {
    if token != "" && token != "~" then [token] else []
  }

  lemma {:induction false} KeptIsKeep(token: string)
    ensures Kept(token) == Keep(token, PARSE_SKIP)
  {
  }

  lemma {:induction false} Regroup(a: Path, b: Path, c: Path)
    ensures a + (b + c) == a + b + c
  {
  }

  lemma {:induction false} ParseStep(path: string, comps: Path, i: nat, end: nat)
    requires i <= end <= |path| && '/' !in path[i..end]
    requires end < |path| ==> path[end] == '/'
    requires Parse(path) == comps + Parse(path[i..])
    ensures Parse(path) == comps + Kept(path[i..end]) + Parse(path[if end < |path| then end + 1 else end..])
  {
    SplitStep(path, i, end);
    KeptIsKeep(path[i..end]);
    Regroup(comps, Kept(path[i..end]), Parse(path[if end < |path| then end + 1 else end..]));
  }

  lemma {:induction false} ParseEnd(path: string, comps: Path)
    requires Parse(path) == comps + Parse(path[|path|..])
    ensures Parse(path) == comps
  {
    assert path[|path|..] == "";
    SplitName("", PARSE_SKIP);
  }

  /** `ParsePath`: the `strtok` loop. */
  method ParsePath(path: string) returns (comps: seq<string>)
    ensures comps == Parse(path)
  {
    comps := [];
    var i := 0;
    assert path[0..] == path;
    while i < |path|
      invariant 0 <= i <= |path|
      invariant Parse(path) == comps + Parse(path[i..])
    {
      var end := TokenEnd(path, i);
      ParseStep(path, comps, i, end);
      comps := comps + Kept(path[i..end]);
      i := if end < |path| then end + 1 else end;
    }
    ParseEnd(path, comps);
  }

  /** One token of `strtok`: scan to the next delimiter. */
  method TokenEnd(path: string, start: nat) returns (end: nat)
    requires start <= |path|
    ensures start <= end <= |path|
    ensures '/' !in path[start..end]
    ensures end < |path| ==> path[end] == '/'
  {
    end := start;
    while end < |path| && path[end] != '/'
      invariant start <= end <= |path|
      invariant '/' !in path[start..end]
    {
      end := end + 1;
    }
  }

  lemma {:induction false} SplitStep(s: string, i: nat, end: nat)
    requires i <= end <= |s| && '/' !in s[i..end]
    requires end < |s| ==> s[end] == '/'
    ensures Parse(s[i..]) == Keep(s[i..end], PARSE_SKIP) + Parse(s[if end < |s| then end + 1 else end..])
  {
    var rest := s[i..];
    assert rest[..end - i] == s[i..end];
    FirstSlashUnique(rest, end - i);
    if end < |s| {
      assert rest[end - i + 1..] == s[end + 1..];
    } else {
      assert s[end..] == "" && rest == s[i..end];
      SplitName("", PARSE_SKIP);
    }
  }
}
