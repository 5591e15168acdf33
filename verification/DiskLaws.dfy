/** What the four commands do to a disk, told by what can be done next. */
module DiskLaws {
  import opened Paths
  import opened Files
  import opened Disks

  /** No command changes any other path, and one that fails changes nothing. */
  lemma {:induction false} OnlyThere(d: FS, op: Op, p: Path, q: Path)
    ensures q != p || !Succeeds(d, op, p) ==> Look(Exec(d, op, p), q) == Look(d, q)
  {
  }

  lemma {:induction false} FailsQuietly(d: FS, op: Op, p: Path)
    requires !Succeeds(d, op, p)
    ensures Exec(d, op, p) == d
  {
  }

  lemma {:induction false} ParentOf(p: Path, name: string)
    ensures p + [name] != [] && (p + [name])[..|p + [name]| - 1] == p && ChildOf(p, p + [name])
  {
    assert (p + [name])[..|p|] == p;
  }

  /** A folder takes a new folder or file under any missing name, and nothing
      else takes either. */
  lemma {:induction false} FolderTakes(d: FS, p: Path, name: string)
    requires p + [name] !in d
    ensures Succeeds(d, MakeFolder, p + [name]) <==> IsDir(d, p)
    ensures Succeeds(d, Touch, p + [name]) <==> IsDir(d, p)
  {
    ParentOf(p, name);
  }

  /** A new folder is a folder: it cannot be made again nor touched, and it takes
      folders and files. */
  lemma {:induction false} FolderMade(d: FS, p: Path, name: string)
    requires Succeeds(d, MakeFolder, p)
    ensures var e := Exec(d, MakeFolder, p);
            && IsDir(e, p) && !Succeeds(e, MakeFolder, p) && !Succeeds(e, Touch, p)
            && (p + [name] !in d ==> Succeeds(e, MakeFolder, p + [name]) && Succeeds(e, Touch, p + [name]))
  {
    assert p + [name] != p;
    if p + [name] !in d {
      FolderTakes(Exec(d, MakeFolder, p), p, name);
    }
  }

  /** On an ordinary disk it can be removed again, either way, and then nothing
      has happened. */
  lemma {:induction false} FolderRemoved(d: FS, p: Path)
    requires Hung(d, []) && Succeeds(d, MakeFolder, p)
    ensures var e := Exec(d, MakeFolder, p);
            && Succeeds(e, RemoveFolder, p) && Exec(e, RemoveFolder, p) == d
            && Succeeds(e, Remove, p) && Exec(e, Remove, p) == d
  {
    var e := Exec(d, MakeFolder, p);
    forall q | q in e
      ensures !ChildOf(p, q)
    {
      assert ChildOf(p, q) ==> q != p && q != [] && q[..|q| - 1] == p;
      assert q in d && q != [] ==> ParentIsDir(d, q);
    }
    assert e - {p} == d;
  }

  /** A touched file is there and empty, also if it was there before; it is no
      folder, and nothing can be made below it. */
  lemma {:induction false} FileTouched(d: FS, p: Path, name: string)
    requires Succeeds(d, Touch, p)
    ensures var e := Exec(d, Touch, p);
            && Look(e, p) == Some(File("")) && Exec(e, Touch, p) == e
            && !Succeeds(e, MakeFolder, p) && !Succeeds(e, RemoveFolder, p)
            && !Succeeds(e, MakeFolder, p + [name]) && !Succeeds(e, Touch, p + [name])
  {
    ParentOf(p, name);
    assert p[..|p| - 1] != p;
  }

  /** A file can be removed, and a new one leaves no trace. */
  lemma {:induction false} FileRemoved(d: FS, p: Path)
    requires p != [] && p in d && d[p].File?
    ensures Succeeds(d, Remove, p) && !Succeeds(d, RemoveFolder, p) && p !in Exec(d, Remove, p)
  {
  }

  lemma {:induction false} TouchUndone(d: FS, p: Path)
    requires Succeeds(d, Touch, p) && p !in d
    ensures Succeeds(Exec(d, Touch, p), Remove, p) && Exec(Exec(d, Touch, p), Remove, p) == d
  {
    assert Exec(d, Touch, p) - {p} == d;
  }

  /** A folder with something in it stays; an empty one goes, either way; and what
      is missing cannot be removed. */
  lemma {:induction false} RemovalExact(d: FS, p: Path)
    requires p != []
    ensures Succeeds(d, RemoveFolder, p) <==> IsDir(d, p) && forall name :: p + [name] !in d
    ensures IsDir(d, p) ==> (Succeeds(d, Remove, p) <==> Succeeds(d, RemoveFolder, p))
    ensures p !in d ==> !Succeeds(d, Remove, p) && !Succeeds(d, RemoveFolder, p)
    ensures Succeeds(d, RemoveFolder, p) ==> p !in Exec(d, RemoveFolder, p)
    ensures Succeeds(d, Remove, p) ==> p !in Exec(d, Remove, p)
  {
    forall q | ChildOf(p, q)
      ensures q == p + [q[|p|]]
    {
    }
    forall name: string
      ensures ChildOf(p, p + [name])
    {
      ParentOf(p, name);
    }
    assert Childless(d, p) <==> forall name :: p + [name] !in d;
  }

  /** The folders a copy makes and the files it opens are those of the commands;
      a folder that is already there is no failure. */
  lemma {:induction false} CopyMakes(d: FS, p: Path)
    requires p != []
    ensures Mkdir(d, p) == Exec(d, MakeFolder, p)
    ensures CanOpen(d, p) <==> Succeeds(d, Touch, p)
    ensures IsDir(Mkdir(d, p), p) <==> IsDir(d, p) || Succeeds(d, MakeFolder, p)
  {
  }
}
