/** The remote host's filesystem as the scripts see it: a map from path to a
    directory or a file; a path missing from the map is absent. */
module FileSystem {
  import opened Base64

  /** A path as its sequence of components. */
  type Path = seq<string>

  datatype Node = Dir | File(data: seq<Byte>)

  type FileSystem = map<Path, Node>

  /** [System.IO.Path]::GetDirectoryName */
  function Parent(p: Path): Path
  {
    if |p| == 0 then [] else p[..|p| - 1]
  }

  /** p names dir itself or a directory on the way to it. */
  predicate OnTheWay(p: Path, dir: Path)
  {
    0 < |p| <= |dir| && dir[..|p|] == p
  }

  /** An entry can be made at p: its parent is a directory. A top-level
      component is a drive, which no command creates. */
  predicate Placeable(fs: FileSystem, p: Path)
  {
    |p| > 1 && Parent(p) in fs && fs[Parent(p)] == Dir
  }

  /** Every entry is a drive (a top-level directory) or sits in a directory,
      so no file has entries beneath it. */
  predicate WellFormed(fs: FileSystem)
  {
    forall p :: p in fs ==> Placeable(fs, p) || (|p| == 1 && fs[p] == Dir)
  }

  /** p lies below a drive that exists. */
  predicate DriveExists(fs: FileSystem, p: Path)
  {
    |p| > 1 && p[..1] in fs && fs[p[..1]] == Dir
  }

  /** No file at dir or on the way to it: each of its prefixes that exists is
      a directory. */
  predicate NoFileOn(fs: FileSystem, dir: Path)
  {
    forall k :: 0 < k <= |dir| && dir[..k] in fs ==> fs[dir[..k]] == Dir
  }

  /** New-Item -ItemType directory -Force: the missing directories on the way
      to dir are created from the top down; an entry that is already there is
      left alone, and nothing is created beneath a file (New-Item fails
      there, and the failure is silenced). */
  function MakeDirs(fs: FileSystem, dir: Path): FileSystem
    decreases |dir|
  {
    if |dir| == 0 then fs
    else
      var up := MakeDirs(fs, Parent(dir));
      if dir in up || !Placeable(up, dir) then up else up[dir := Dir]
  }

  /** Creating directories keeps every entry that was there. */
  lemma {:induction false} MakeDirsKeeps(fs: FileSystem, dir: Path)
    ensures forall p :: p in fs ==> p in MakeDirs(fs, dir) && MakeDirs(fs, dir)[p] == fs[p]
    decreases |dir|
  {
    if |dir| > 0 {
      MakeDirsKeeps(fs, Parent(dir));
    }
  }

  /** Every entry that was not there before is a directory on the way to dir. */
  lemma {:induction false} MakeDirsOnlyOnTheWay(fs: FileSystem, dir: Path)
    ensures forall p :: p in MakeDirs(fs, dir) && p !in fs ==>
      MakeDirs(fs, dir)[p] == Dir && OnTheWay(p, dir)
    decreases |dir|
  {
    if |dir| > 0 {
      MakeDirsOnlyOnTheWay(fs, Parent(dir));
      forall p | OnTheWay(p, Parent(dir))
        ensures OnTheWay(p, dir)
      {
        OnTheWayUp(p, dir);
      }
      assert dir[..|dir|] == dir;
    }
  }

  /** On an existing drive with no file on the way, afterwards every prefix
      of dir is a directory. */
  lemma {:induction false} MakeDirsCreates(fs: FileSystem, dir: Path)
    requires NoFileOn(fs, dir) && (|dir| > 0 ==> dir[..1] in fs)
    ensures forall k :: 0 < k <= |dir| ==> dir[..k] in MakeDirs(fs, dir) && MakeDirs(fs, dir)[dir[..k]] == Dir
    decreases |dir|
  {
    if |dir| > 0 {
      var up := MakeDirs(fs, Parent(dir));
      assert NoFileOn(fs, Parent(dir)) by {
        forall k | 0 < k <= |Parent(dir)| && Parent(dir)[..k] in fs
          ensures fs[Parent(dir)[..k]] == Dir
        {
          assert Parent(dir)[..k] == dir[..k];
        }
      }
      if |dir| > 1 {
        assert Parent(dir)[..1] == dir[..1];
      }
      MakeDirsCreates(fs, Parent(dir));
      MakeDirsKeeps(fs, Parent(dir));
      MakeDirsOnlyOnTheWay(fs, Parent(dir));
      assert dir[..|dir|] == dir;
      if |dir| > 1 {
        assert Parent(dir)[..|dir| - 1] == Parent(dir);
      }
      assert dir in MakeDirs(fs, dir) && MakeDirs(fs, dir)[dir] == Dir;
      forall k | 0 < k < |dir|
        ensures dir[..k] in MakeDirs(fs, dir) && MakeDirs(fs, dir)[dir[..k]] == Dir
      {
        assert Parent(dir)[..k] == dir[..k];
      }
    }
  }

  /** Once everything on the way exists, creating the directories changes nothing. */
  lemma {:induction false} MakeDirsNoop(fs: FileSystem, dir: Path)
    requires forall k :: 0 < k <= |dir| ==> dir[..k] in fs
    ensures MakeDirs(fs, dir) == fs
    decreases |dir|
  {
    if |dir| > 0 {
      assert dir[..|dir|] == dir;
      forall k | 0 < k <= |Parent(dir)|
        ensures Parent(dir)[..k] in fs
      {
        assert Parent(dir)[..k] == dir[..k];
      }
      MakeDirsNoop(fs, Parent(dir));
    }
  }

  /** Creating the directories twice is the same as creating them once. */
  lemma {:induction false} MakeDirsIdempotent(fs: FileSystem, dir: Path)
    ensures MakeDirs(MakeDirs(fs, dir), dir) == MakeDirs(fs, dir)
    decreases |dir|
  {
    if |dir| > 0 {
      var up := MakeDirs(fs, Parent(dir));
      MakeDirsIdempotent(fs, Parent(dir));
      if !(dir in up || !Placeable(up, dir)) {
        assert !OnTheWay(dir, Parent(dir));
        MakeDirsUpdate(up, Parent(dir), dir, Dir);
      }
    }
  }

  /** Creating directories does not interact with a change to a path that is
      not on the way: the change can be made before or after. */
  lemma {:induction false} MakeDirsUpdate(fs: FileSystem, dir: Path, q: Path, n: Node)
    requires !OnTheWay(q, dir)
    ensures MakeDirs(fs[q := n], dir) == MakeDirs(fs, dir)[q := n]
    decreases |dir|
  {
    if |dir| > 0 {
      assert q != dir by { assert dir[..|dir|] == dir; }
      if OnTheWay(q, Parent(dir)) {
        OnTheWayUp(q, dir);
        assert false;
      }
      if |dir| > 1 {
        assert OnTheWay(Parent(dir), dir);
      }
      MakeDirsUpdate(fs, Parent(dir), q, n);
      MakeDirsUpdateStep(fs, dir, q, n);
    }
  }

  /** One more directory, created after the change or before it. */
  lemma MakeDirsUpdateStep(fs: FileSystem, dir: Path, q: Path, n: Node)
    requires |dir| > 0 && q != dir && (|dir| > 1 ==> q != Parent(dir))
    requires MakeDirs(fs[q := n], Parent(dir)) == MakeDirs(fs, Parent(dir))[q := n]
    ensures MakeDirs(fs[q := n], dir) == MakeDirs(fs, dir)[q := n]
  {
    var up: FileSystem := MakeDirs(fs, Parent(dir));
    var up': FileSystem := MakeDirs(fs[q := n], Parent(dir));
    assert Placeable(up', dir) == Placeable(up, dir);
    if dir in up || !Placeable(up, dir) {
      assert MakeDirs(fs, dir) == up;
    } else {
      assert dir !in up';
      assert up'[dir := Dir] == up[dir := Dir][q := n];
    }
  }

  // ---- well-formedness ----

  /** In a well-formed filesystem every proper prefix of an entry is a directory. */
  lemma {:induction false} WellFormedPrefixes(fs: FileSystem, p: Path)
    requires WellFormed(fs) && p in fs
    ensures forall k :: 0 < k < |p| ==> p[..k] in fs && fs[p[..k]] == Dir
    decreases |p|
  {
    if |p| > 1 {
      assert Placeable(fs, p);
      WellFormedPrefixes(fs, Parent(p));
      forall k | 0 < k < |p|
        ensures p[..k] in fs && fs[p[..k]] == Dir
      {
        if k < |p| - 1 {
          assert Parent(p)[..k] == p[..k];
        }
      }
    }
  }

  /** In a well-formed filesystem nothing exists on a drive that does not. */
  lemma NoDriveNoEntry(fs: FileSystem, p: Path)
    requires WellFormed(fs) && |p| > 0 && p[..1] !in fs
    ensures p !in fs
  {
    if |p| == 1 {
      assert p == p[..1];
    } else if p in fs {
      WellFormedPrefixes(fs, p);
      assert false;
    }
  }

  /** Without its drive no directory on the way to dir is created. */
  lemma {:induction false} MakeDirsNoDrive(fs: FileSystem, dir: Path)
    requires WellFormed(fs) && |dir| > 0 && dir[..1] !in fs
    ensures MakeDirs(fs, dir) == fs
    decreases |dir|
  {
    if |dir| > 1 {
      assert Parent(dir)[..1] == dir[..1];
      MakeDirsNoDrive(fs, Parent(dir));
      NoDriveNoEntry(fs, Parent(dir));
    }
  }

  /** Making an entry where it can be made, over nothing or over a file, keeps
      the filesystem well formed. */
  lemma PlaceKeepsWellFormed(fs: FileSystem, q: Path, n: Node)
    requires WellFormed(fs) && Placeable(fs, q) && (q !in fs || fs[q].File?)
    ensures WellFormed(fs[q := n])
  {
    var placed := fs[q := n];
    forall p | p in placed
      ensures Placeable(placed, p) || (|p| == 1 && placed[p] == Dir)
    {
      assert Parent(q) != q;
      if p != q {
        assert Placeable(fs, p) || (|p| == 1 && fs[p] == Dir);
      }
    }
  }

  /** Removing a file keeps the filesystem well formed. */
  lemma RemoveKeepsWellFormed(fs: FileSystem, q: Path)
    requires WellFormed(fs) && (q !in fs || fs[q].File?)
    ensures WellFormed(fs - {q})
  {
    var removed := fs - {q};
    forall p | p in removed
      ensures Placeable(removed, p) || (|p| == 1 && removed[p] == Dir)
    {
      assert Placeable(fs, p) || (|p| == 1 && fs[p] == Dir);
    }
  }

  /** Creating directories keeps the filesystem well formed. */
  lemma {:induction false} MakeDirsKeepsWellFormed(fs: FileSystem, dir: Path)
    requires WellFormed(fs)
    ensures WellFormed(MakeDirs(fs, dir))
    decreases |dir|
  {
    if |dir| > 0 {
      var up := MakeDirs(fs, Parent(dir));
      MakeDirsKeepsWellFormed(fs, Parent(dir));
      if !(dir in up || !Placeable(up, dir)) {
        PlaceKeepsWellFormed(up, dir, Dir);
      }
    }
  }

  /** What is on the way to a directory's parent is on the way to it. */
  lemma OnTheWayUp(p: Path, dir: Path)
    requires |dir| > 0 && OnTheWay(p, Parent(dir))
    ensures OnTheWay(p, dir)
  {
    assert Parent(dir)[..|p|] == dir[..|p|];
  }

  // ---- StreamReader.ReadLine: lines end at "\n", "\r" or "\r\n" ----

  const LF: Byte := 10
  const CR: Byte := 13

  predicate IsBreak(b: Byte)
  {
    b == LF || b == CR
  }

  predicate NoBreak(d: seq<Byte>)
  {
    forall i :: 0 <= i < |d| ==> !IsBreak(d[i])
  }

  /** The index of the first line break, or |d| when there is none. */
  function BreakAt(d: seq<Byte>): (i: nat)
    ensures i <= |d| && NoBreak(d[..i])
    ensures i < |d| ==> IsBreak(d[i])
    decreases |d|
  {
    if |d| == 0 then 0
    else if IsBreak(d[0]) then 0
    else
      var i := 1 + BreakAt(d[1..]);
      assert d[..i] == [d[0]] + d[1..][..i - 1];
      i
  }

  /** The lines ReadLine returns one by one until it returns null. */
  function Lines(d: seq<Byte>): seq<seq<Byte>>
    decreases |d|
  {
    if |d| == 0 then []
    else
      var i := BreakAt(d);
      if i == |d| then [d]
      else
        var next := if d[i] == CR && i + 1 < |d| && d[i + 1] == LF then i + 2 else i + 1;
        [d[..i]] + Lines(d[next..])
  }

  /** Text without line breaks is read back as one line, or as none when empty;
      ReadLine never hands out a line break. */
  lemma LinesOfOneLine(d: seq<Byte>)
    requires NoBreak(d)
    ensures Lines(d) == if d == [] then [] else [d]
  {
    if |d| > 0 {
      assert BreakAt(d) == |d|;
    }
  }

  lemma {:induction false} LinesHaveNoBreak(d: seq<Byte>)
    ensures forall j :: 0 <= j < |Lines(d)| ==> NoBreak(Lines(d)[j])
    decreases |d|
  {
    if |d| > 0 {
      var i := BreakAt(d);
      if i < |d| {
        var next := if d[i] == CR && i + 1 < |d| && d[i + 1] == LF then i + 2 else i + 1;
        LinesHaveNoBreak(d[next..]);
      }
    }
  }
}
