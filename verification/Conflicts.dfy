/** What a copy does when it meets an entry of the other kind. */
module Conflicts {
  import opened Paths
  import opened Files
  import opened Wire
  import opened TreeCopy
  import opened CopyProtocol

  /** What may be asked of file contents: not to look like a file or folder
      header, not to look like any message of the header loop, to be empty. */
  datatype Trait = Hushed | Quiet | Blank

  predicate Has(w: Trait, content: string) {
    match w
    case Hushed => !Announces(content)
    case Quiet => !Announces(content) && !Closes(content)
    case Blank => content == ""
  }

  predicate EveryFile(w: Trait, t: Tree)
    decreases t, 1
  {
    if t.Leaf? then Has(w, t.content) else EveryEntry(w, t.entries)
  }

  predicate EveryEntry(w: Trait, es: seq<Entry>)
    decreases es, 0
  {
    es == [] || (EveryFile(w, es[0].tree) && EveryEntry(w, es[1..]))
  }

  predicate IsFile(n: Option<Node>) {
    n.Some? && n.value.File?
  }

  /** A trait carries over to the traits that ask for less. */
  predicate Implies(w: Trait, v: Trait) {
    w == v || w == Blank || v == Hushed
  }

  /** What a trait of the files that cannot be opened says about the outcome. */
  predicate Permits(w: Trait, o: Outcome) {
    match w
    case Hushed => o != Unknown
    case Quiet => o != Unknown && !o.Cut?
    case Blank => o.Ends?
  }

  lemma {:induction false} HungMkdir(fs: FS, at: Path)
    requires Hung(fs, [])
    ensures Hung(Mkdir(fs, at), [])
  {
  }

  lemma {:induction false} HungFile(fs: FS, at: Path, content: string)
    requires Hung(fs, []) && CanOpen(fs, at)
    ensures Hung(fs[at := File(content)], [])
  {
  }

  lemma {:induction false} HungSent(fs: FS, at: Path, t: Tree)
    requires Hung(fs, []) && Sent(fs, at, t) != Unknown
    ensures Hung(Sent(fs, at, t).fs, [])
    decreases t, 1
  {
    if t.Leaf? {
      if CanOpen(fs, at) {
        HungFile(fs, at, t.content);
      }
    } else {
      HungMkdir(fs, at);
      HungEntries(Mkdir(fs, at), at, t.entries);
    }
  }

  lemma {:induction false} HungEntries(fs: FS, at: Path, es: seq<Entry>)
    requires Hung(fs, []) && SentEntries(fs, at, es) != Unknown
    ensures Hung(SentEntries(fs, at, es).fs, [])
    decreases es, 0
  {
    if es != [] {
      HungSent(fs, at + [es[0].name], es[0].tree);
      var o := Sent(fs, at + [es[0].name], es[0].tree);
      if o.Ends? {
        HungEntries(o.fs, at, es[1..]);
      }
    }
  }

  /** Nothing beside the target changes. */
  lemma {:induction false} SentBeside(fs: FS, at: Path, t: Tree, p: Path)
    requires Sent(fs, at, t) != Unknown && !Below(at, p)
    ensures Look(Sent(fs, at, t).fs, p) == Look(fs, p)
    decreases t, 1
  {
    assert Below(at, at);
    if t.Folder? {
      SentEntriesBeside(Mkdir(fs, at), at, t.entries, p);
    }
  }

  lemma {:induction false} SentEntriesBeside(fs: FS, at: Path, es: seq<Entry>, p: Path)
    requires SentEntries(fs, at, es) != Unknown && !Below(at, p)
    ensures Look(SentEntries(fs, at, es).fs, p) == Look(fs, p)
    decreases es, 0
  {
    if es != [] {
      var at' := at + [es[0].name];
      assert |p| >= |at'| ==> p[..|at'|][..|at|] == p[..|at|];
      assert at'[..|at|] == at;
      SentBeside(fs, at', es[0].tree, p);
      var o := Sent(fs, at', es[0].tree);
      if o.Ends? {
        SentEntriesBeside(o.fs, at, es[1..], p);
      }
    }
  }

  lemma {:induction false} NoParent(fs: FS, at: Path, name: string)
    requires Hung(fs, []) && !IsDir(fs, at)
    ensures at + [name] !in fs && !ParentIsDir(fs, at + [name])
  {
    assert (at + [name])[..|at|] == at;
  }

  /** Where no folder is, nothing arrives, and the contents alone decide. */
  lemma {:induction false} NothingArrives(w: Trait, fs: FS, at: Path, es: seq<Entry>)
    requires Hung(fs, []) && !IsDir(fs, at)
    ensures SentEntries(fs, at, es).Ends? ==> SentEntries(fs, at, es).fs == fs
    ensures EveryEntry(w, es) ==> Permits(w, SentEntries(fs, at, es))
    ensures SentEntries(fs, at, es).Ends? ==> EveryEntry(Blank, es)
    decreases es, 0
  {
    if es != [] {
      NothingArrivesAt(w, fs, at, es[0].name, es[0].tree);
      NothingArrives(w, fs, at, es[1..]);
    }
  }

  lemma {:induction false} NothingArrivesAt(w: Trait, fs: FS, at: Path, name: string, t: Tree)
    requires Hung(fs, []) && !IsDir(fs, at)
    ensures Sent(fs, at + [name], t).Ends? ==> Sent(fs, at + [name], t).fs == fs
    ensures EveryFile(w, t) ==> Permits(w, Sent(fs, at + [name], t))
    ensures Sent(fs, at + [name], t).Ends? ==> EveryFile(Blank, t)
    decreases t, 1
  {
    NoParent(fs, at, name);
    if t.Folder? {
      NothingArrives(w, fs, at + [name], t.entries);
    }
  }

  /** Every file that meets a folder or lies below a file of the destination has
      the trait. */
  predicate Passes(w: Trait, fs: FS, at: Path, t: Tree)
    decreases t, 1
  {
    if t.Leaf? then Has(w, t.content) || !IsDir(fs, at)
    else if at in fs && fs[at] != Dir then EveryEntry(w, t.entries)
    else PassesEntries(w, fs, at, t.entries)
  }

  predicate PassesEntries(w: Trait, fs: FS, at: Path, es: seq<Entry>)
    decreases es, 0
  {
    es == [] || (Passes(w, fs, at + [es[0].name], es[0].tree) && PassesEntries(w, fs, at, es[1..]))
  }

  lemma {:induction false} PassesFrame(w: Trait, fs: FS, fs': FS, at: Path, t: Tree)
    requires forall p | Below(at, p) :: Look(fs', p) == Look(fs, p)
    ensures Passes(w, fs, at, t) <==> Passes(w, fs', at, t)
    decreases t, 1
  {
    assert Below(at, at) && Look(fs', at) == Look(fs, at);
    if t.Folder? {
      forall p, i | 0 <= i < |t.entries| && Below(at + [t.entries[i].name], p)
        ensures Look(fs', p) == Look(fs, p)
      {
        assert p[..|at| + 1][..|at|] == p[..|at|] && (at + [t.entries[i].name])[..|at|] == at;
      }
      PassesEntriesFrame(w, fs, fs', at, t.entries);
    }
  }

  lemma {:induction false} PassesEntriesFrame(w: Trait, fs: FS, fs': FS, at: Path, es: seq<Entry>)
    requires forall p, i | 0 <= i < |es| && Below(at + [es[i].name], p) :: Look(fs', p) == Look(fs, p)
    ensures PassesEntries(w, fs, at, es) <==> PassesEntries(w, fs', at, es)
    decreases es, 0
  {
    if es != [] {
      PassesFrame(w, fs, fs', at + [es[0].name], es[0].tree);
      forall p, i | 0 <= i < |es[1..]| && Below(at + [es[1..][i].name], p)
        ensures Look(fs', p) == Look(fs, p)
      {
        assert es[1..][i] == es[i + 1];
      }
      PassesEntriesFrame(w, fs, fs', at, es[1..]);
    }
  }

  lemma {:induction false} SentPasses(w: Trait, fs: FS, at: Path, t: Tree)
    requires Hung(fs, []) && Regular(t) && ParentIsDir(fs, at)
    ensures Passes(w, fs, at, t) ==> Permits(w, Sent(fs, at, t))
    ensures Sent(fs, at, t).Ends? ==> Passes(Blank, fs, at, t)
    decreases t, 1
  {
    if t.Folder? {
      if at in fs && fs[at] != Dir {
        NothingArrives(w, fs, at, t.entries);
      } else {
        var fs1 := Mkdir(fs, at);
        SentEntriesPass(w, fs1, at, t.entries);
        forall p, i | 0 <= i < |t.entries| && Below(at + [t.entries[i].name], p)
          ensures Look(fs1, p) == Look(fs, p)
        {
          assert |p| > |at|;
        }
        PassesEntriesFrame(w, fs, fs1, at, t.entries);
        PassesEntriesFrame(Blank, fs, fs1, at, t.entries);
      }
    }
  }

  /** What is sent for one entry does not matter to the others. */
  lemma {:induction false} OthersPass(w: Trait, fs: FS, at: Path, es: seq<Entry>)
    requires es != [] && RegularEntries(es) && Sent(fs, at + [es[0].name], es[0].tree) != Unknown
    ensures var fs' := Sent(fs, at + [es[0].name], es[0].tree).fs;
            PassesEntries(w, fs, at, es[1..]) <==> PassesEntries(w, fs', at, es[1..])
  {
    var at', t, rest := at + [es[0].name], es[0].tree, es[1..];
    var fs' := Sent(fs, at', t).fs;
    forall p, i | 0 <= i < |rest| && Below(at + [rest[i].name], p)
      ensures Look(fs', p) == Look(fs, p)
    {
      assert rest[i] == es[i + 1];
      assert p[..|at| + 1][|at|] == p[|at|] && at'[|at|] == es[0].name;
      SentBeside(fs, at', t, p);
    }
    PassesEntriesFrame(w, fs, fs', at, rest);
  }

  lemma {:induction false} SentEntriesPass(w: Trait, fs: FS, at: Path, es: seq<Entry>)
    requires Hung(fs, []) && RegularEntries(es) && IsDir(fs, at)
    ensures PassesEntries(w, fs, at, es) ==> Permits(w, SentEntries(fs, at, es))
    ensures SentEntries(fs, at, es).Ends? ==> PassesEntries(Blank, fs, at, es)
    decreases es, 0
  {
    if es != [] {
      var at' := at + [es[0].name];
      assert at'[..|at|] == at;
      SentPasses(w, fs, at', es[0].tree);
      var o := Sent(fs, at', es[0].tree);
      if o.Ends? {
        HungSent(fs, at', es[0].tree);
        SentBeside(fs, at', es[0].tree, at);
        OthersPass(w, fs, at, es);
        OthersPass(Blank, fs, at, es);
        SentEntriesPass(w, o.fs, at, es[1..]);
      }
    }
  }

  /** The same path by path: the place of a file is no folder, and what stands
      on the way to it is. */
  ghost predicate Open(fs: FS, at: Path, q: Path) {
    !IsDir(fs, at + q) && forall k | 0 <= k < |q| :: at + q[..k] in fs ==> IsDir(fs, at + q[..k])
  }

  /** Every file whose place cannot be opened has the trait. */
  ghost predicate Shut(w: Trait, fs: FS, at: Path, t: Tree) {
    forall q :: IsFile(TreeAt(t, q)) && !Open(fs, at, q) ==> Has(w, TreeAt(t, q).value.content)
  }

  ghost predicate ShutEntries(w: Trait, fs: FS, at: Path, es: seq<Entry>) {
    forall q :: q != [] && IsFile(EntriesAt(es, q)) && !Open(fs, at, q) ==> Has(w, EntriesAt(es, q).value.content)
  }

  /** Every file with content can be opened. */
  ghost predicate Opens(fs: FS, at: Path, t: Tree) {
    Shut(Blank, fs, at, t)
  }

  lemma {:induction false} OpenStep(fs: FS, at: Path, q: Path)
    requires q != []
    ensures Open(fs, at, q) <==> (at in fs ==> IsDir(fs, at)) && Open(fs, at + [q[0]], q[1..])
  {
    var at', r := at + [q[0]], q[1..];
    assert at + q == at' + r && at + q[..0] == at;
    forall k | 0 <= k < |r|
      ensures at' + r[..k] == at + q[..k + 1]
    {
      assert q[..k + 1] == [q[0]] + r[..k];
    }
    if Open(fs, at, q) {
      forall k | 0 <= k < |r|
        ensures at' + r[..k] in fs ==> IsDir(fs, at' + r[..k])
      {
        assert at + q[..k + 1] in fs ==> IsDir(fs, at + q[..k + 1]);
      }
    }
    if (at in fs ==> IsDir(fs, at)) && Open(fs, at', r) {
      forall k | 0 <= k < |q|
        ensures at + q[..k] in fs ==> IsDir(fs, at + q[..k])
      {
        if k > 0 {
          assert at' + r[..k - 1] == at + q[..k];
        }
      }
    }
  }

  /** An entry's own tree, and the entries after it. */
  lemma {:induction false} EntriesSplit(es: seq<Entry>, q: Path)
    requires es != [] && RegularEntries(es)
    ensures EntriesAt(es, [es[0].name] + q) == TreeAt(es[0].tree, q)
    ensures q != [] && q[0] == es[0].name ==> EntriesAt(es, q) == TreeAt(es[0].tree, q[1..])
    ensures q != [] && q[0] == es[0].name ==> EntriesAt(es[1..], q) == None
    ensures q != [] && q[0] != es[0].name ==> EntriesAt(es, q) == EntriesAt(es[1..], q)
  {
    assert ([es[0].name] + q)[1..] == q;
    if q != [] && q[0] == es[0].name {
      MissingEntry(es[1..], q);
    }
  }

  ghost predicate AllFiles(w: Trait, t: Tree) {
    forall q :: IsFile(TreeAt(t, q)) ==> Has(w, TreeAt(t, q).value.content)
  }

  ghost predicate AllFilesBelow(w: Trait, es: seq<Entry>) {
    forall q :: q != [] && IsFile(EntriesAt(es, q)) ==> Has(w, EntriesAt(es, q).value.content)
  }

  lemma {:induction false} EveryEntryIff(w: Trait, es: seq<Entry>)
    requires RegularEntries(es)
    ensures EveryEntry(w, es) <==> AllFilesBelow(w, es)
    decreases es, 0
  {
    if es != [] {
      EveryFileIff(w, es[0].tree);
      EveryEntryIff(w, es[1..]);
      if AllFilesBelow(w, es) {
        forall q
          ensures IsFile(TreeAt(es[0].tree, q)) ==> Has(w, TreeAt(es[0].tree, q).value.content)
          ensures q != [] && IsFile(EntriesAt(es[1..], q)) ==> Has(w, EntriesAt(es[1..], q).value.content)
        {
          var r := [es[0].name] + q;
          EntriesSplit(es, q);
          assert IsFile(EntriesAt(es, r)) ==> Has(w, EntriesAt(es, r).value.content);
        }
      }
      if EveryEntry(w, es) {
        forall q | q != []
          ensures IsFile(EntriesAt(es, q)) ==> Has(w, EntriesAt(es, q).value.content)
        {
          EntriesSplit(es, q);
        }
      }
    }
  }

  lemma {:induction false} EveryFileIff(w: Trait, t: Tree)
    requires Regular(t)
    ensures EveryFile(w, t) <==> AllFiles(w, t)
    decreases t, 1
  {
    if t.Leaf? {
      assert TreeAt(t, []) == Some(File(t.content));
    } else {
      EveryEntryIff(w, t.entries);
      assert forall q | q != [] :: TreeAt(t, q) == EntriesAt(t.entries, q);
    }
  }

  lemma {:induction false} FileInTheWay(w: Trait, fs: FS, at: Path, es: seq<Entry>)
    requires RegularEntries(es) && at in fs && fs[at] != Dir
    ensures EveryEntry(w, es) <==> ShutEntries(w, fs, at, es)
  {
    EveryEntryIff(w, es);
    forall q | q != []
      ensures !Open(fs, at, q)
    {
      OpenStep(fs, at, q);
    }
  }

  lemma {:induction false} PassesIff(w: Trait, fs: FS, at: Path, t: Tree)
    requires Regular(t)
    ensures Passes(w, fs, at, t) <==> Shut(w, fs, at, t)
    decreases t, 1
  {
    if t.Leaf? {
      assert TreeAt(t, []) == Some(File(t.content)) && at + [] == at;
      assert Open(fs, at, []) <==> !IsDir(fs, at);
    } else {
      assert forall q | q != [] :: TreeAt(t, q) == EntriesAt(t.entries, q);
      assert Shut(w, fs, at, t) <==> ShutEntries(w, fs, at, t.entries);
      if at in fs && fs[at] != Dir {
        FileInTheWay(w, fs, at, t.entries);
      } else {
        PassesEntriesIff(w, fs, at, t.entries);
      }
    }
  }

  lemma {:induction false} PassesEntriesIff(w: Trait, fs: FS, at: Path, es: seq<Entry>)
    requires RegularEntries(es) && (at in fs ==> IsDir(fs, at))
    ensures PassesEntries(w, fs, at, es) <==> ShutEntries(w, fs, at, es)
    decreases es, 0
  {
    if es != [] {
      var at' := at + [es[0].name];
      PassesIff(w, fs, at', es[0].tree);
      PassesEntriesIff(w, fs, at, es[1..]);
      if ShutEntries(w, fs, at, es) {
        forall q
          ensures IsFile(TreeAt(es[0].tree, q)) && !Open(fs, at', q) ==> Has(w, TreeAt(es[0].tree, q).value.content)
          ensures q != [] && IsFile(EntriesAt(es[1..], q)) && !Open(fs, at, q) ==>
                    Has(w, EntriesAt(es[1..], q).value.content)
        {
          var r := [es[0].name] + q;
          EntriesSplit(es, q);
          OpenStep(fs, at, r);
          assert r[1..] == q;
          assert IsFile(EntriesAt(es, r)) && !Open(fs, at, r) ==> Has(w, EntriesAt(es, r).value.content);
        }
      }
      if PassesEntries(w, fs, at, es) {
        forall q | q != []
          ensures IsFile(EntriesAt(es, q)) && !Open(fs, at, q) ==> Has(w, EntriesAt(es, q).value.content)
        {
          EntriesSplit(es, q);
          OpenStep(fs, at, q);
        }
      }
    }
  }

  /** A transfer ends exactly when every file with content can be opened. */
  lemma {:induction false} SentOpens(fs: FS, at: Path, t: Tree)
    requires Hung(fs, []) && Regular(t) && ParentIsDir(fs, at)
    ensures Sent(fs, at, t).Ends? <==> Opens(fs, at, t)
  {
    SentPasses(Blank, fs, at, t);
    PassesIff(Blank, fs, at, t);
  }

  /** What the files that cannot be opened hold decides how else it comes out. */
  lemma {:induction false} SentPermits(w: Trait, fs: FS, at: Path, t: Tree)
    requires Hung(fs, []) && Regular(t) && ParentIsDir(fs, at) && Shut(w, fs, at, t)
    ensures Permits(w, Sent(fs, at, t))
  {
    SentPasses(w, fs, at, t);
    PassesIff(w, fs, at, t);
  }

  lemma {:induction false} ShutImplies(w: Trait, v: Trait, fs: FS, at: Path, t: Tree)
    requires Shut(w, fs, at, t) && Implies(w, v)
    ensures Shut(v, fs, at, t)
  {
    forall q | IsFile(TreeAt(t, q)) && !Open(fs, at, q)
      ensures Has(v, TreeAt(t, q).value.content)
    {
      assert Has(w, TreeAt(t, q).value.content);
    }
  }

  /** The fate of a copy, from what the tree and the destination hold. */
  lemma {:induction false} FateExact(base: string, rel: string, t: Tree, fs: FS)
    requires Copyable(base, rel, t, fs) && Hung(fs, [])
    ensures var fs1, at := Mkdir(fs, Resolve(base)), Resolve(base) + Resolve(rel);
            && (Sent(fs1, at, t).Ends? <==> Opens(fs1, at, t))
            && (Shut(Hushed, fs1, at, t) ==> Sent(fs1, at, t) != Unknown)
            && (Shut(Quiet, fs1, at, t) ==> (Sent(fs1, at, t).Jam? <==> !Opens(fs1, at, t)))
  {
    var fs1, at := Mkdir(fs, Resolve(base)), Resolve(base) + Resolve(rel);
    assert Hung(fs1, []);
    SentOpens(fs1, at, t);
    if Shut(Hushed, fs1, at, t) {
      SentPermits(Hushed, fs1, at, t);
    }
    if Shut(Quiet, fs1, at, t) {
      SentPermits(Quiet, fs1, at, t);
    }
  }

  /** Every run that cannot be continued has completed if every file with content
      could be opened; and only if, unless the content of one that could not was
      taken for a header.  Otherwise the sender waits for ever, unless it was
      taken for the end marker. */
  lemma {:induction false} CompletesExactly(strip: bool, base: string, rel: string, t: Tree, fs: FS, run: seq<Action>)
    requires Copyable(base, rel, t, fs) && Hung(fs, [])
    requires IsRun(strip, Initial(Script(base, rel, t), fs), run)
    requires forall a :: !Enabled(After(strip, Initial(Script(base, rel, t), fs), run), a)
    ensures var y := After(strip, Initial(Script(base, rel, t), fs), run);
            var fs1, at := Mkdir(fs, Resolve(base)), Resolve(base) + Resolve(rel);
            && (Opens(fs1, at, t) ==> Complete(y))
            && (Shut(Hushed, fs1, at, t) ==> (Complete(y) <==> Opens(fs1, at, t)))
            && (Shut(Quiet, fs1, at, t) ==> (y.sender.Waiting? <==> !Opens(fs1, at, t)))
  {
    var fs1, at := Mkdir(fs, Resolve(base)), Resolve(base) + Resolve(rel);
    FateExact(base, rel, t, fs);
    if Shut(Quiet, fs1, at, t) {
      ShutImplies(Quiet, Hushed, fs1, at, t);
    }
    if Sent(fs1, at, t) != Unknown {
      CopyFate(strip, base, rel, t, fs, run);
    }
  }

  lemma {:induction false} NeverCompletes(strip: bool, base: string, rel: string, t: Tree, fs: FS, run: seq<Action>)
    requires Copyable(base, rel, t, fs) && Hung(fs, [])
    requires IsRun(strip, Initial(Script(base, rel, t), fs), run)
    requires var fs1, at := Mkdir(fs, Resolve(base)), Resolve(base) + Resolve(rel);
             Shut(Hushed, fs1, at, t) && !Opens(fs1, at, t)
    ensures !Complete(After(strip, Initial(Script(base, rel, t), fs), run))
  {
    FateExact(base, rel, t, fs);
    RunGood(strip, base, rel, t, fs, run);
    LostNeverCompletes(strip, After(strip, Initial(Script(base, rel, t), fs), run),
                       Fate(Sent(Mkdir(fs, Resolve(base)), Resolve(base) + Resolve(rel), t)));
  }

  /** A transfer that meets such a file is bounded and never completes. */
  lemma {:induction false} ConflictDeadlocks(strip: bool, base: string, rel: string, t: Tree, fs: FS, run: seq<Action>)
    requires Copyable(base, rel, t, fs) && Hung(fs, [])
    requires IsRun(strip, Initial(Script(base, rel, t), fs), run)
    requires var fs1, at := Mkdir(fs, Resolve(base)), Resolve(base) + Resolve(rel);
             Shut(Quiet, fs1, at, t) && !Opens(fs1, at, t)
    ensures |run| <= Work(Script(base, rel, t)) + 1
    ensures var y := After(strip, Initial(Script(base, rel, t), fs), run);
            !Complete(y) && ((forall a :: !Enabled(y, a)) ==> y.sender.Waiting?)
  {
    ShutImplies(Quiet, Hushed, Mkdir(fs, Resolve(base)), Resolve(base) + Resolve(rel), t);
    EveryRunEnds(strip, Initial(Script(base, rel, t), fs), run);
    NeverCompletes(strip, base, rel, t, fs, run);
    if forall a :: !Enabled(After(strip, Initial(Script(base, rel, t), fs), run), a) {
      CompletesExactly(strip, base, rel, t, fs, run);
    }
  }

  lemma {:induction false} EveryFileShut(w: Trait, fs: FS, at: Path, t: Tree)
    requires Regular(t) && EveryFile(w, t)
    ensures Shut(w, fs, at, t)
  {
    EveryFileIff(w, t);
  }

  /** A folder with another folder or a file of the same name in the way. */
  ghost function InTheWay(b: string, f: string, n: Node): FS {
    map[[] := Dir, [b] := Dir, [b, f] := n]
  }

  lemma {:induction false} InTheWayOk(b: string, f: string, n: Node, t: Tree)
    requires EntryName(b) && EntryName(f) && |b| + 6 < BUFFER_SIZE && Sendable(f, t) && Regular(t)
    ensures Copyable(b, f, t, InTheWay(b, f, n)) && Hung(InTheWay(b, f, n), [])
    ensures Resolve(b) + Resolve(f) == [b, f] && Mkdir(InTheWay(b, f, n), Resolve(b)) == InTheWay(b, f, n)
  {
    var fs := InTheWay(b, f, n);
    SplitName(b, RESOLVE_SKIP);
    SplitName(f, RESOLVE_SKIP);
    assert [b] + [f] == [b, f] && [b, f][..1] == [b] && [b][..0] == [];
    assert ParentIsDir(fs, [b]) && ParentIsDir(fs, [b, f]);
  }

  /** A failing input: a file holding "x" sent onto a folder of the same name. */
  lemma {:induction false} FileOntoFolder(strip: bool, b: string, f: string, run: seq<Action>)
    requires EntryName(b) && EntryName(f) && |b| + 6 < BUFFER_SIZE && |f| + 6 < BUFFER_SIZE
    requires var start := Initial(Script(b, f, Leaf("x")), InTheWay(b, f, Dir));
             IsRun(strip, start, run) && forall a :: !Enabled(After(strip, start, run), a)
    ensures var y := After(strip, Initial(Script(b, f, Leaf("x")), InTheWay(b, f, Dir)), run);
            y.sender.Waiting? && !Complete(y)
  {
    var fs, t := InTheWay(b, f, Dir), Leaf("x");
    InTheWayOk(b, f, Dir, t);
    assert TreeAt(t, []) == Some(File("x")) && [b, f] + [] == [b, f];
    assert IsFile(TreeAt(t, [])) && !Open(fs, [b, f], []) && !Has(Blank, "x") && Has(Quiet, "x");
    EveryFileShut(Quiet, fs, [b, f], t);
    ConflictDeadlocks(strip, b, f, t, fs, run);
  }

  /** Another: a folder with a file "x" in it sent onto a file. */
  lemma {:induction false} FolderOntoFile(strip: bool, b: string, f: string, g: string, run: seq<Action>)
    requires EntryName(b) && EntryName(f) && EntryName(g) && |b| + 6 < BUFFER_SIZE && |f| + |g| + 7 < BUFFER_SIZE
    requires var start := Initial(Script(b, f, Folder([Entry(g, Leaf("x"))])), InTheWay(b, f, File("")));
             IsRun(strip, start, run) && forall a :: !Enabled(After(strip, start, run), a)
    ensures var y := After(strip, Initial(Script(b, f, Folder([Entry(g, Leaf("x"))])), InTheWay(b, f, File(""))), run);
            y.sender.Waiting? && !Complete(y)
  {
    var fs, t := InTheWay(b, f, File("")), Folder([Entry(g, Leaf("x"))]);
    OneEntry(f, g);
    InTheWayOk(b, f, File(""), t);
    assert [b, f] + [g][..0] == [b, f];
    assert IsFile(TreeAt(t, [g])) && !Open(fs, [b, f], [g]) && !Has(Blank, "x");
    EveryFileShut(Quiet, fs, [b, f], t);
    ConflictDeadlocks(strip, b, f, t, fs, run);
  }

  lemma {:induction false} OneEntry(f: string, g: string)
    requires EntryName(f) && EntryName(g) && |f| + |g| + 7 < BUFFER_SIZE
    ensures var t := Folder([Entry(g, Leaf("x"))]);
            Sendable(f, t) && Regular(t) && EveryFile(Quiet, t) && TreeAt(t, [g]) == Some(File("x"))
  {
    var es := [Entry(g, Leaf("x"))];
    assert es[1..] == [] && [g][1..] == [];
    assert Clean(f + "/" + g);
    assert !Announces("x") && !Closes("x");
    assert EntriesAt(es, [g]) == TreeAt(Leaf("x"), []);
  }

  /** Content that looks like the end marker: the transfer is cut off, with
      nothing copied, and the sender goes on as if all was well. */
  lemma {:induction false} EndMarkerCuts(strip: bool, b: string, f: string, more: string, run: seq<Action>)
    requires EntryName(b) && EntryName(f) && |b| + 6 < BUFFER_SIZE && |f| + 6 < BUFFER_SIZE
    requires |more| + 4 < MAX_FILE_SIZE
    requires var start := Initial(Script(b, f, Leaf("END\n" + more)), InTheWay(b, f, Dir));
             IsRun(strip, start, run) && forall a :: !Enabled(After(strip, start, run), a)
    ensures var y := After(strip, Initial(Script(b, f, Leaf("END\n" + more)), InTheWay(b, f, Dir)), run);
            y.sender.SenderCut? && y.recv == Finished && y.fs == InTheWay(b, f, Dir)
  {
    var fs, content := InTheWay(b, f, Dir), "END\n" + more;
    InTheWayOk(b, f, Dir, Leaf(content));
    assert content[0] == 'E' && "END\n" <= content;
    assert Sent(fs, [b, f], Leaf(content)) == Cut(fs);
    CopyFate(strip, b, f, Leaf(content), fs, run);
    RunGood(strip, b, f, Leaf(content), fs, run);
  }

  lemma {:induction false} RunConcat(strip: bool, y: System, a: seq<Action>, b: seq<Action>)
    requires IsRun(strip, y, a) && IsRun(strip, After(strip, y, a), b)
    ensures IsRun(strip, y, a + b) && After(strip, y, a + b) == After(strip, After(strip, y, a), b)
    decreases |a|
  {
    if a == [] {
      assert a + b == b;
    } else {
      assert (a + b)[1..] == a[1..] + b;
      RunConcat(strip, Next(strip, y, a[0]), a[1..], b);
    }
  }

  lemma {:induction false} RunStep(strip: bool, y: System, a: Action)
    requires Enabled(y, a)
    ensures IsRun(strip, y, [a]) && After(strip, y, [a]) == Next(strip, y, a)
  {
    assert [a][1..] == [];
  }

  lemma {:induction false} RunThen(strip: bool, y: System, a: seq<Action>, x: Action)
    requires IsRun(strip, y, a) && Enabled(After(strip, y, a), x)
    ensures IsRun(strip, y, a + [x]) && After(strip, y, a + [x]) == Next(strip, After(strip, y, a), x)
  {
    RunStep(strip, After(strip, y, a), x);
    RunConcat(strip, y, a, [x]);
  }

  /** The sender takes an ack and sends the next of several messages. */
  lemma {:induction false} SendNext(strip: bool, y: System, m: string, rest: seq<string>) returns (run: seq<Action>)
    requires y.sender == Waiting([m] + rest) && rest != [] && y.ack == ACK
    ensures IsRun(strip, y, run)
    ensures After(strip, y, run) == y.(sender := Waiting(rest), data := y.data + m, ack := "")
  {
    assert ([m] + rest)[0] == m && ([m] + rest)[1..] == rest;
    RunStep(strip, y, TakeAck);
    run := [TakeAck] + [Send];
    RunThen(strip, y, [TakeAck], Send);
  }

  /** One message there and one ack back. */
  lemma {:induction false} RoundTrip(strip: bool, y: System, m: string, rest: seq<string>) returns (run: seq<Action>)
    requires y.sender == Waiting([m] + rest) && rest != [] && y.data == "" && y.ack == ACK
    requires AtText(y.recv) && 0 < |m| < BUFFER_SIZE && OnText(strip, y.recv, y.fs, m).acked
    ensures IsRun(strip, y, run)
    ensures var d := OnText(strip, y.recv, y.fs, m);
            After(strip, y, run) == System(Waiting(rest), "", ACK, d.recv, d.fs)
  {
    var sent := SendNext(strip, y, m, rest);
    assert "" + m == m && m[..|m|] == m && m[|m|..] == "" && "" + ACK == ACK;
    RunThen(strip, y, sent, TakeText);
    run := sent + [TakeText];
  }

  lemma {:induction false} DestTrip(strip: bool, b: string, f: string, rest: seq<string>) returns (run: seq<Action>)
    requires EntryName(b) && EntryName(f) && |b| + 6 < BUFFER_SIZE && rest != []
    ensures var fs := InTheWay(b, f, Dir);
            && IsRun(strip, Initial(["DEST " + b + "\n"] + rest, fs), run)
            && After(strip, Initial(["DEST " + b + "\n"] + rest, fs), run) ==
               System(Waiting(rest), "", ACK, AwaitHeader(b), fs)
  {
    var fs, dest := InTheWay(b, f, Dir), "DEST " + b + "\n";
    SplitName(b, RESOLVE_SKIP);
    ScanLine(b);
    assert dest[5..] == b + "\n" && "DEST " <= dest && Mkdir(fs, [b]) == fs;
    run := RoundTrip(strip, Initial([dest] + rest, fs), dest, rest);
  }

  lemma {:induction false} HeaderTrip(strip: bool, b: string, f: string, fs: FS, rest: seq<string>)
    returns (run: seq<Action>)
    requires EntryName(f) && |f| + 6 < BUFFER_SIZE && rest != []
    ensures var y := System(Waiting([FileHeader(f)] + rest), "", ACK, AwaitHeader(b), fs);
            && IsRun(strip, y, run)
            && After(strip, y, run) == System(Waiting(rest), "", ACK, AwaitSize(b, Target(strip, b, f)), fs)
  {
    HeaderRead(strip, b, f, fs);
    run := RoundTrip(strip, System(Waiting([FileHeader(f)] + rest), "", ACK, AwaitHeader(b), fs), FileHeader(f), rest);
  }

  lemma {:induction false} SizeTrip(strip: bool, b: string, path: string, n: nat, fs: FS, rest: seq<string>)
    returns (run: seq<Action>)
    requires n < MAX_FILE_SIZE && !CanOpen(fs, Resolve(path)) && rest != []
    ensures var y := System(Waiting([Decimal(n) + "\n"] + rest), "", ACK, AwaitSize(b, path), fs);
            && IsRun(strip, y, run)
            && After(strip, y, run) == System(Waiting(rest), "", ACK, AwaitHeader(b), fs)
  {
    SizeRead(strip, b, path, n, fs);
    var y := System(Waiting([Decimal(n) + "\n"] + rest), "", ACK, AwaitSize(b, path), fs);
    run := RoundTrip(strip, y, Decimal(n) + "\n", rest);
  }

  lemma {:induction false} ScriptOfOne(b: string, f: string, c: string)
    requires |c| == BUFFER_SIZE
    ensures Script(b, f, Leaf(c)) ==
            ["DEST " + b + "\n"] + ([FileHeader(f)] + ([Decimal(|c|) + "\n"] + ([c] + ["END\n"])))
  {
    assert Chunks(c) == [c];
  }

  lemma {:induction false} FolderThere(strip: bool, b: string, f: string)
    requires EntryName(b) && EntryName(f)
    ensures !CanOpen(InTheWay(b, f, Dir), Resolve(Target(strip, b, f)))
  {
    TargetResolves(strip, b, f);
    SplitName(b, RESOLVE_SKIP);
    SplitName(f, RESOLVE_SKIP);
    assert [b] + [f] == [b, f];
  }

  /** The transfer of one file up to the point where its content is due. */
  lemma {:induction false} UpToContent(strip: bool, b: string, f: string, c: string) returns (run: seq<Action>)
    requires EntryName(b) && EntryName(f) && |b| + 6 < BUFFER_SIZE && |f| + 6 < BUFFER_SIZE && |c| == BUFFER_SIZE
    ensures IsRun(strip, Initial(Script(b, f, Leaf(c)), InTheWay(b, f, Dir)), run)
    ensures After(strip, Initial(Script(b, f, Leaf(c)), InTheWay(b, f, Dir)), run) ==
            System(Waiting([c] + ["END\n"]), "", ACK, AwaitHeader(b), InTheWay(b, f, Dir))
  {
    var fs, start := InTheWay(b, f, Dir), Initial(Script(b, f, Leaf(c)), InTheWay(b, f, Dir));
    var rest3 := [c] + ["END\n"];
    var rest2 := [Decimal(|c|) + "\n"] + rest3;
    ScriptOfOne(b, f, c);
    FolderThere(strip, b, f);
    run := DestTrip(strip, b, f, [FileHeader(f)] + rest2);
    var header := HeaderTrip(strip, b, f, fs, rest2);
    RunConcat(strip, start, run, header);
    var size := SizeTrip(strip, b, Target(strip, b, f), |c|, fs, rest3);
    RunConcat(strip, start, run + header, size);
    run := run + header + size;
  }

  /** A full chunk that announces a folder: the receiver answers after all but
      one byte of it. */
  lemma {:induction false} TakesAnnouncement(strip: bool, b: string, fs: FS, c: string) returns (run: seq<Action>, fs': FS)
    requires |c| == BUFFER_SIZE && "DIR " <= c
    ensures var y := System(Waiting([c] + ["END\n"]), "", ACK, AwaitHeader(b), fs);
            && IsRun(strip, y, run)
            && After(strip, y, run) == System(Waiting(["END\n"]), c[BUFFER_SIZE - 1..], ACK, AwaitHeader(b), fs')
  {
    var y := System(Waiting([c] + ["END\n"]), "", ACK, AwaitHeader(b), fs);
    var sent := SendNext(strip, y, c, ["END\n"]);
    var msg := c[..BUFFER_SIZE - 1];
    assert "" + c == c && "" + ACK == ACK;
    assert msg[..4] == c[..4] && msg[0] == 'D' && "DIR " <= msg;
    var d := OnText(strip, AwaitHeader(b), fs, msg);
    fs' := d.fs;
    RunThen(strip, y, sent, TakeText);
    run := sent + [TakeText];
  }

  /** If the receiver comes first, it drops the byte and then sees the end. */
  lemma {:induction false} ReceiverFirst(strip: bool, b: string, fs: FS, z: string) returns (run: seq<Action>)
    requires |z| == 1
    ensures var y := System(Waiting(["END\n"]), z, ACK, AwaitHeader(b), fs);
            IsRun(strip, y, run) && Complete(After(strip, y, run))
  {
    var end: string := "END\n";
    var last: seq<string> := [end];
    assert last[1..] == [] && last[0] == end;
    var y := System(Waiting(last), z, ACK, AwaitHeader(b), fs);
    var y1 := System(Waiting(last), "", ACK, AwaitHeader(b), fs);
    assert z[..1] == z && z[1..] == "" && ACK + "" == ACK;
    assert Next(strip, y, TakeText) == y1;
    RunStep(strip, y, TakeText);
    var y2 := System(Sending(last), "", "", AwaitHeader(b), fs);
    assert Next(strip, y1, TakeAck) == y2;
    RunThen(strip, y, [TakeText], TakeAck);
    var y3 := System(SenderDone, end, "", AwaitHeader(b), fs);
    assert "" + end == end && Next(strip, y2, Send) == y3;
    RunThen(strip, y, [TakeText] + [TakeAck], Send);
    assert end[..4] == end && end[4..] == "";
    RunThen(strip, y, [TakeText] + [TakeAck] + [Send], TakeText);
    run := [TakeText] + [TakeAck] + [Send] + [TakeText];
  }

  /** If the sender comes first, the byte hides the end from the receiver. */
  lemma {:induction false} SenderFirst(strip: bool, b: string, fs: FS, z: string) returns (run: seq<Action>)
    requires |z| == 1
    ensures var y := System(Waiting(["END\n"]), z, ACK, AwaitHeader(b), fs);
            IsRun(strip, y, run) && After(strip, y, run) == System(SenderDone, "", "", AwaitHeader(b), fs)
  {
    var end: string := "END\n";
    var last: seq<string> := [end];
    assert last[1..] == [] && last[0] == end;
    var y := System(Waiting(last), z, ACK, AwaitHeader(b), fs);
    var y1 := System(Sending(last), z, "", AwaitHeader(b), fs);
    assert Next(strip, y, TakeAck) == y1;
    RunStep(strip, y, TakeAck);
    var y2 := System(SenderDone, z + end, "", AwaitHeader(b), fs);
    assert Next(strip, y1, Send) == y2;
    RunThen(strip, y, [TakeAck], Send);
    var all := z + end;
    assert all[1] == 'E' && |all| == 5 && all[..5] == all && all[5..] == "";
    assert !Announces(all) && !Closes(all);
    RunThen(strip, y, [TakeAck] + [Send], TakeText);
    run := [TakeAck] + [Send] + [TakeText];
  }

  /** Content that is taken for a header has no fate of its own: when it fills a
      buffer, the same transfer completes or not as the two ends take turns. */
  lemma {:induction false} TimingDecides(strip: bool, b: string, f: string, c: string)
    returns (completes: seq<Action>, hangs: seq<Action>)
    requires EntryName(b) && EntryName(f) && |b| + 6 < BUFFER_SIZE && |f| + 6 < BUFFER_SIZE
    requires |c| == BUFFER_SIZE && "DIR " <= c
    ensures var start := Initial(Script(b, f, Leaf(c)), InTheWay(b, f, Dir));
            && IsRun(strip, start, completes) && Complete(After(strip, start, completes))
            && IsRun(strip, start, hangs) && !Complete(After(strip, start, hangs))
            && forall a :: !Enabled(After(strip, start, hangs), a)
  {
    var fs, start := InTheWay(b, f, Dir), Initial(Script(b, f, Leaf(c)), InTheWay(b, f, Dir));
    var run := UpToContent(strip, b, f, c);
    var taken, fs' := TakesAnnouncement(strip, b, fs, c);
    RunConcat(strip, start, run, taken);
    var z := c[BUFFER_SIZE - 1..];
    var first := ReceiverFirst(strip, b, fs', z);
    RunConcat(strip, start, run + taken, first);
    var second := SenderFirst(strip, b, fs', z);
    RunConcat(strip, start, run + taken, second);
    completes, hangs := run + taken + first, run + taken + second;
  }
}
