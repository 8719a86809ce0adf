/** What the remote commands do to the host's filesystem and which exit code
    they end with: the stream-writer commands of writeContentChannel
    (winrmcp/cp.go:260-311), the restore script (winrmcp/cp.go:133-166) and the
    cleanup script (winrmcp/cp.go:200-205). */
module Scripts {
  import opened Base64
  import opened FileSystem

  /** Exit code of a powershell process that ended on an unhandled error. */
  const ScriptFailure: int := 1

  /** Exit code of the restore script when the destination is a directory. */
  const DirectoryConflict: int := 1

  datatype Command =
    | OpenStream(path: Path, append: bool)       // $v = New-Object System.IO.StreamWriter path, append, UTF8
    | WriteStream(path: Path, text: seq<Byte>)   // $v.Write(text), $v bound to path
    | CloseStream                                // $v.Close()
    | DisposeStream                              // $v.Dispose($true)
    | RemoveVariable                             // Remove-Variable -Name v
    | RestoreScript(from: Path, to: Path)
    | CleanupScript(path: Path)

  datatype Outcome = Outcome(fs: FileSystem, exit: int)

  /** Opening a StreamWriter: append mode keeps an existing file, otherwise the
      file is created empty or truncated; a directory cannot be opened, and
      no file can be created where its parent is not a directory. */
  function OpenWriter(fs: FileSystem, path: Path, append: bool): Outcome
  {
    if path in fs && fs[path].Dir? then Outcome(fs, ScriptFailure)
    else if !Placeable(fs, path) then Outcome(fs, ScriptFailure)
    else if append && path in fs then Outcome(fs, 0)
    else Outcome(fs[path := File([])], 0)
  }

  /** Writing a string through the stream appends its characters to the file. */
  function WriteText(fs: FileSystem, path: Path, text: seq<Byte>): Outcome
  {
    if path in fs && fs[path].File? then Outcome(fs[path := File(fs[path].data + text)], 0)
    else Outcome(fs, ScriptFailure)
  }

  /** The restore loop: FromBase64String on each line, appending the bytes;
      ok is false when a line does not decode, and bytes holds what was
      written before it. */
  function DecodeLines(lines: seq<seq<Byte>>): (r: (seq<Byte>, bool))
    decreases |lines|
  {
    if |lines| == 0 then ([], true)
    else
      match FromBase64(lines[0])
      case None => ([], false)
      case Some(bytes) =>
        var (rest, ok) := DecodeLines(lines[1..]);
        (bytes + rest, ok)
  }

  /** The first half of the restore script once the destination is not a
      directory: a file there is removed, an absent destination gets its
      parent directories created. */
  function Cleared(fs: FileSystem, dest: Path): FileSystem
  {
    if dest in fs then fs - {dest} else MakeDirs(fs, Parent(dest))
  }

  /** The restore script, step by step:
      a directory at the destination ends it with exit code 1 and nothing changed;
      otherwise the destination is cleared; then a temp file is decoded line
      by line into the destination, and without a temp file the destination
      is created empty. Opening the temp file fails on a directory, but that
      error ends only its own statement: the destination is still opened,
      and so created empty, before the loop fails on the missing reader.
      Creating the destination fails where its parent is not a directory. */
  function Restore(fs: FileSystem, tmp: Path, dest: Path): Outcome
  {
    if dest in fs && fs[dest].Dir? then Outcome(fs, DirectoryConflict)
    else
      var cleared := Cleared(fs, dest);
      if tmp in cleared then
        match cleared[tmp]
        case Dir =>
          if !Placeable(cleared, dest) then Outcome(cleared, ScriptFailure)
          else Outcome(cleared[dest := File([])], ScriptFailure)
        case File(text) =>
          if !Placeable(cleared, dest) then Outcome(cleared, ScriptFailure)
          else
            var (bytes, ok) := DecodeLines(Lines(text));
            Outcome(cleared[dest := File(bytes)], if ok then 0 else ScriptFailure)
      else if !Placeable(cleared, dest) then Outcome(cleared, ScriptFailure)
      else Outcome(cleared[dest := File([])], 0)
  }

  /** The cleanup script: remove the temp file if it exists; the script itself
      always ends normally. */
  function Cleanup(fs: FileSystem, tmp: Path): Outcome
  {
    if tmp in fs then Outcome(fs - {tmp}, 0) else Outcome(fs, 0)
  }

  /** What a command does when the host gets to run it. */
  function Effect(cmd: Command, fs: FileSystem): Outcome
  {
    match cmd
    case OpenStream(path, append) => OpenWriter(fs, path, append)
    case WriteStream(path, text) => WriteText(fs, path, text)
    case CloseStream => Outcome(fs, 0)
    case DisposeStream => Outcome(fs, 0)
    case RemoveVariable => Outcome(fs, 0)
    case RestoreScript(from, to) => Restore(fs, from, to)
    case CleanupScript(path) => Cleanup(fs, path)
  }

  // ---- properties of the scripts ----

  /** A temp file holding the encoding of data decodes back to exactly data. */
  lemma DecodeEncodedText(data: seq<Byte>)
    ensures DecodeLines(Lines(Encode(data))) == (data, true)
  {
    EncodeHasNoWhitespace(data);
    LinesOfOneLine(Encode(data));
    FromBase64Encode(data);
    if data != [] {
      assert Encode(data) != [] by { EncodeLength(data); }
      var lines := [Encode(data)];
      assert lines[1..] == [];
      assert data + [] == data;
    } else {
      assert Encode(data) == [];
    }
  }

  /** A directory at the destination: exit code 1, nothing changed. */
  lemma RestoreDirectoryConflict(fs: FileSystem, tmp: Path, dest: Path)
    requires dest in fs && fs[dest] == Dir
    ensures Restore(fs, tmp, dest) == Outcome(fs, DirectoryConflict)
  {
  }

  /** In a well-formed filesystem with no file on the way to the
      destination's parent, the destination can be created once cleared. */
  lemma RestorePlaceable(fs: FileSystem, dest: Path)
    requires WellFormed(fs) && DriveExists(fs, dest) && NoFileOn(fs, Parent(dest))
    requires dest !in fs || fs[dest].File?
    ensures Placeable(Cleared(fs, dest), dest)
  {
    if dest in fs {
      assert Placeable(fs, dest);
      assert Parent(dest) != dest;
    } else {
      assert Parent(dest)[..1] == dest[..1];
      MakeDirsCreates(fs, Parent(dest));
      assert Parent(dest)[..|Parent(dest)|] == Parent(dest);
    }
  }

  /** Without a temp file the destination ends up an empty file, whatever
      file it was before, with exit code 0 (provided the temp path is not one
      of the directories the restore creates, and the destination's parent
      is not blocked by a file). */
  lemma RestoreWithoutTemp(fs: FileSystem, tmp: Path, dest: Path)
    requires WellFormed(fs) && DriveExists(fs, dest) && NoFileOn(fs, Parent(dest))
    requires tmp !in fs && !OnTheWay(tmp, Parent(dest))
    requires dest !in fs || fs[dest].File?
    ensures var r := Restore(fs, tmp, dest);
      r.exit == 0 && r.fs == Cleared(fs, dest)[dest := File([])]
  {
    MakeDirsOnlyOnTheWay(fs, Parent(dest));
    assert tmp !in Cleared(fs, dest);
    RestorePlaceable(fs, dest);
  }

  /** Restoring a temp file that holds the encoding of data: the destination
      receives exactly data with exit code 0, an existing destination file is
      replaced, an absent one gets its parent directories, the temp file stays,
      and nothing else changes. */
  lemma RestoreDecodes(fs: FileSystem, tmp: Path, dest: Path, data: seq<Byte>)
    requires WellFormed(fs) && DriveExists(fs, dest) && NoFileOn(fs, Parent(dest))
    requires tmp != dest
    requires tmp in fs && fs[tmp] == File(Encode(data))
    requires dest !in fs || fs[dest].File?
    ensures var r := Restore(fs, tmp, dest);
      && r.exit == 0
      && r.fs == (if dest in fs then fs[dest := File(data)]
                  else MakeDirs(fs, Parent(dest))[dest := File(data)])
  {
    var cleared := Cleared(fs, dest);
    MakeDirsKeeps(fs, Parent(dest));
    assert tmp in cleared && cleared[tmp] == File(Encode(data));
    DecodeEncodedText(data);
    RestorePlaceable(fs, dest);
    if dest in fs {
      assert cleared[dest := File(data)] == fs[dest := File(data)];
    }
  }

  /** A temp path that is a directory: OpenText fails, but the destination
      has already been created empty when the script ends with exit code 1. */
  lemma RestoreTempDirectory(fs: FileSystem, tmp: Path, dest: Path)
    requires WellFormed(fs) && DriveExists(fs, dest) && NoFileOn(fs, Parent(dest))
    requires tmp != dest && tmp in fs && fs[tmp] == Dir
    requires dest !in fs || fs[dest].File?
    ensures var r := Restore(fs, tmp, dest);
      r.exit == ScriptFailure && r.fs == Cleared(fs, dest)[dest := File([])]
  {
    MakeDirsKeeps(fs, Parent(dest));
    RestorePlaceable(fs, dest);
  }

  /** Nothing exists beneath a file in a well-formed filesystem. */
  lemma FileBlocksBelow(fs: FileSystem, p: Path, k: nat)
    requires WellFormed(fs) && 0 < k < |p|
    requires p[..k] in fs && fs[p[..k]].File?
    ensures p !in fs
  {
    if p in fs {
      WellFormedPrefixes(fs, p);
      assert false;
    }
  }

  /** A file on the way to the destination in a well-formed filesystem: the
      restore fails with exit code 1 and the destination does not exist. */
  lemma RestoreUnderFile(fs: FileSystem, tmp: Path, dest: Path, k: nat)
    requires WellFormed(fs) && 0 < k < |dest|
    requires dest[..k] in fs && fs[dest[..k]].File?
    ensures var r := Restore(fs, tmp, dest);
      r.exit == ScriptFailure && dest !in r.fs
  {
    FileBlocksBelow(fs, dest, k);
    var pp := Parent(dest);
    var cleared := MakeDirs(fs, pp);
    MakeDirsKeeps(fs, pp);
    MakeDirsOnlyOnTheWay(fs, pp);
    MakeDirsKeepsWellFormed(fs, pp);
    assert dest !in cleared;
    assert pp[..k] == dest[..k];
    if k < |pp| {
      FileBlocksBelow(cleared, pp, k);
    } else {
      assert pp == dest[..k];
    }
    assert !Placeable(cleared, dest);
  }

  /** A destination on a drive that does not exist: New-Item creates
      nothing, the destination cannot be opened, and the restore exits with
      1 having changed nothing. */
  lemma RestoreOnMissingDrive(fs: FileSystem, tmp: Path, dest: Path)
    requires WellFormed(fs) && |dest| > 0 && dest[..1] !in fs
    ensures Restore(fs, tmp, dest) == Outcome(fs, ScriptFailure)
  {
    NoDriveNoEntry(fs, dest);
    if |dest| > 1 {
      assert Parent(dest)[..1] == dest[..1];
      MakeDirsNoDrive(fs, Parent(dest));
      NoDriveNoEntry(fs, Parent(dest));
    }
  }

  /** The parent directory of an absent destination exists, as a directory
      with every directory on the way to it, after a restore that was not
      stopped by a conflict, and creating it again changes nothing. */
  lemma RestoreCreatesParent(fs: FileSystem, tmp: Path, dest: Path)
    requires dest !in fs && DriveExists(fs, dest) && NoFileOn(fs, Parent(dest))
    ensures var r := Restore(fs, tmp, dest);
      forall k :: 0 < k <= |Parent(dest)| ==> Parent(dest)[..k] in r.fs && r.fs[Parent(dest)[..k]] == Dir
    ensures MakeDirs(MakeDirs(fs, Parent(dest)), Parent(dest)) == MakeDirs(fs, Parent(dest))
  {
    assert Parent(dest)[..1] == dest[..1];
    MakeDirsCreates(fs, Parent(dest));
    MakeDirsIdempotent(fs, Parent(dest));
    forall k | 0 < k <= |Parent(dest)|
      ensures Parent(dest)[..k] != dest
    {
      assert |Parent(dest)[..k]| < |dest|;
    }
  }

  /** Exit code 0 in every case but a destination directory, a temp directory,
      a destination that cannot be created (its drive is missing or a file is
      on the way) or a temp line that is not base64. */
  lemma RestoreExitCodes(fs: FileSystem, tmp: Path, dest: Path)
    ensures var r := Restore(fs, tmp, dest);
      r.exit == 0 || r.exit == DirectoryConflict
    ensures Restore(fs, tmp, dest).exit == DirectoryConflict <==>
      (dest in fs && fs[dest].Dir?) ||
      (var cleared := Cleared(fs, dest);
       || !Placeable(cleared, dest)
       || (tmp in cleared && (cleared[tmp].Dir? || !DecodeLines(Lines(cleared[tmp].data)).1)))
  {
  }

  /** The restore keeps the filesystem well formed. */
  lemma RestoreKeepsWellFormed(fs: FileSystem, tmp: Path, dest: Path)
    requires WellFormed(fs)
    ensures WellFormed(Restore(fs, tmp, dest).fs)
  {
    if !(dest in fs && fs[dest].Dir?) {
      var cleared := Cleared(fs, dest);
      if dest in fs {
        RemoveKeepsWellFormed(fs, dest);
      } else {
        MakeDirsKeepsWellFormed(fs, Parent(dest));
        MakeDirsOnlyOnTheWay(fs, Parent(dest));
      }
      assert dest !in cleared;
      if Placeable(cleared, dest) {
        if tmp in cleared && cleared[tmp].File? {
          PlaceKeepsWellFormed(cleared, dest, File(DecodeLines(Lines(cleared[tmp].data)).0));
        } else {
          PlaceKeepsWellFormed(cleared, dest, File([]));
        }
      }
    }
  }

  /** Cleanup removes the temp file if it exists, changes nothing otherwise,
      always exits with 0, and a second cleanup is a no-op. */
  lemma CleanupRemovesTemp(fs: FileSystem, tmp: Path)
    ensures var r := Cleanup(fs, tmp);
      && r.exit == 0
      && tmp !in r.fs
      && (forall p :: p != tmp ==> (p in r.fs <==> p in fs))
      && (forall p :: p in r.fs ==> r.fs[p] == fs[p])
    ensures tmp !in fs ==> Cleanup(fs, tmp).fs == fs
    ensures Cleanup(Cleanup(fs, tmp).fs, tmp) == Cleanup(fs, tmp)
  {
  }
}
