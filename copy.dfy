/** doCopy (winrmcp/cp.go:16-51) with restoreContent (winrmcp/cp.go:126-191)
    and cleanupContent (winrmcp/cp.go:193-230): name the temp file, upload the
    source into it, restore it into the destination and remove it. The first
    phase that fails ends the copy with its error, wrapped in that phase's
    context. */
module Copy {
  import opened Errors
  import opened Base64
  import opened Chunking
  import opened Naming
  import opened FileSystem
  import opened Scripts
  import opened Remote
  import opened Source
  import opened Upload

  /** "%TEMP%\" and the name: the temp file as uploadContent is told it; the
      length of this text sizes the chunks. */
  function UploadPath(name: string): string
  {
    "%TEMP%\\" + name
  }

  /** The temp file on the host. uploadContent names it "%TEMP%\<name>",
      restore and cleanup "$env:TEMP\<name>"; both denote this one path. */
  function TempPath(name: string): Path
  {
    ["%TEMP%", name]
  }

  /** The phases of a copy, in the order doCopy starts them. */
  datatype Phase = UploadPhase | RestorePhase | CleanupPhase

  function PhaseContext(p: Phase): Context
  {
    match p
    case UploadPhase => UploadCtx
    case RestorePhase => RestoreCtx
    case CleanupPhase => CleanupCtx
  }

  /** The context a copy's error is wrapped in after the given phases were
      started: naming the temp file when none was, otherwise the last one. */
  function ErrorContext(phases: seq<Phase>): Context
  {
    if |phases| == 0 then NameCtx else PhaseContext(phases[|phases| - 1])
  }

  /** The copy's error, the reader position, the host afterwards and the
      phases that were started. */
  datatype CopyOut = CopyOut(err: Option<Error>, pos: nat, host: Host, phases: seq<Phase>)

  /** restoreContent and cleanupContent alike: open a shell (its error is
      returned as it is), run the script, close the shell, and turn a nonzero
      exit code into an error carrying it. */
  function RunInShell(f: Faults, h: Host, op: Op, cmd: Command): (r: (Option<Error>, Host))
    ensures r.1.shellsOpened - h.shellsOpened == r.1.shellsClosed - h.shellsClosed
    ensures f.shellFails(h.shellsOpened) ==> r == (Some(ShellFailed), h)
    ensures !f.shellFails(h.shellsOpened) && f.runFails(h.ran) != 0 ==>
      r.0 == Some(ExitCode(op, f.runFails(h.ran))) && r.1.fs == h.fs
    ensures !f.shellFails(h.shellsOpened) && f.runFails(h.ran) == 0 ==>
      var o := Effect(cmd, h.fs);
      && r.1.fs == o.fs
      && (r.0.None? <==> o.exit == 0)
      && (o.exit != 0 ==> r.0 == Some(ExitCode(op, o.exit)))
  {
    if f.shellFails(h.shellsOpened) then (Some(ShellFailed), h)
    else
      var run := Run(f, h.(shellsOpened := h.shellsOpened + 1), cmd);
      (CheckExit(op, run.0), run.1.(shellsClosed := run.1.shellsClosed + 1))
  }

  /** doCopy with the uuid the temp file is named from and the writer mode
      appendTo (the code as written opens every session's writer with false). */
  function CopyOutcome(src: Source, f: Faults, uuid: Option<string>, maxChunks: nat, dest: Path, appendTo: bool,
                       pos: nat, h: Host): (r: CopyOut)
    requires pos <= |src.data|
    ensures |r.phases| <= 3 && r.phases == [UploadPhase, RestorePhase, CleanupPhase][..|r.phases|]
    ensures |r.phases| == 0 <==> uuid.None?
    ensures r.err.None? ==> |r.phases| == 3
    ensures r.err.Some? ==> r.err.value.Wrapped? && r.err.value.context == ErrorContext(r.phases)
    ensures pos <= r.pos <= |src.data|
    ensures r.host.shellsOpened - h.shellsOpened == r.host.shellsClosed - h.shellsClosed
  {
    match TempFileName(uuid)
    case Err(e) => CopyOut(Some(Wrapped(NameCtx, e)), pos, h, [])
    case Ok(name) =>
      var tmp := TempPath(name);
      var up := Upload.Upload(src, f, UploadPath(name), tmp, maxChunks, appendTo, pos, h);
      if up.err.Some? then CopyOut(Some(Wrapped(UploadCtx, up.err.value)), up.pos, up.host, [UploadPhase])
      else
        var restore := RunInShell(f, up.host, RestoreOp, RestoreScript(tmp, dest));
        if restore.0.Some? then
          CopyOut(Some(Wrapped(RestoreCtx, restore.0.value)), up.pos, restore.1, [UploadPhase, RestorePhase])
        else
          var cleanup := RunInShell(f, restore.1, CleanupOp, CleanupScript(tmp));
          var err := if cleanup.0.Some? then Some(Wrapped(CleanupCtx, cleanup.0.value)) else None;
          CopyOut(err, up.pos, cleanup.1, [UploadPhase, RestorePhase, CleanupPhase])
  }

  /** Whatever the faults, an upload error ends the copy: it is reported in
      the upload context, and neither the restore nor the cleanup runs. */
  lemma UploadErrorEndsCopy(src: Source, f: Faults, uuid: Option<string>, maxChunks: nat, dest: Path, appendTo: bool,
                            pos: nat, h: Host)
    requires pos <= |src.data| && uuid.Some?
    ensures var name := TempFileName(uuid);
      name.Ok? &&
      var up := Upload.Upload(src, f, UploadPath(name.value), TempPath(name.value), maxChunks, appendTo, pos, h);
      up.err.Some? ==>
      CopyOutcome(src, f, uuid, maxChunks, dest, appendTo, pos, h)
        == CopyOut(Some(Wrapped(UploadCtx, up.err.value)), up.pos, up.host, [UploadPhase])
  {
  }

  // ---- the operations over a client ----

  /** restoreContent */
  method RestoreContent(client: Client, from: Path, to: Path) returns (err: Option<Error>)
    modifies client
    ensures (err, client.State()) == RunInShell(client.faults, old(client.State()), RestoreOp, RestoreScript(from, to))
  {
    var ok := client.CreateShell();
    if !ok {
      return Some(ShellFailed);
    }
    var code := client.Execute(RestoreScript(from, to));
    client.CloseShell();
    err := CheckExit(RestoreOp, code);
  }

  /** cleanupContent */
  method CleanupContent(client: Client, path: Path) returns (err: Option<Error>)
    modifies client
    ensures (err, client.State()) == RunInShell(client.faults, old(client.State()), CleanupOp, CleanupScript(path))
  {
    var ok := client.CreateShell();
    if !ok {
      return Some(ShellFailed);
    }
    var code := client.Execute(CleanupScript(path));
    client.CloseShell();
    err := CheckExit(CleanupOp, code);
  }

  /** doCopy, with the temp file written by appending writers. */
  method DoCopy(client: Client, uuid: Option<string>, maxChunks: nat, reader: Reader, dest: Path)
    returns (err: Option<Error>)
    requires reader.Valid()
    modifies client, reader
    ensures reader.Valid()
    ensures var c := CopyOutcome(reader.src, client.faults, uuid, maxChunks, dest, true, old(reader.pos), old(client.State()));
      err == c.err && reader.pos == c.pos && client.State() == c.host
  {
    var name := TempFileName(uuid);
    if name.Err? {
      return Some(Wrapped(NameCtx, name.error));
    }
    var tmp := TempPath(name.value);
    var e := UploadContent(client, maxChunks, UploadPath(name.value), tmp, true, reader);
    if e.Some? {
      return Some(Wrapped(UploadCtx, e.value));
    }
    e := RestoreContent(client, tmp, dest);
    if e.Some? {
      return Some(Wrapped(RestoreCtx, e.value));
    }
    e := CleanupContent(client, tmp);
    if e.Some? {
      return Some(Wrapped(CleanupCtx, e.value));
    }
    return None;
  }

  // ---- what a copy does to the host ----

  /** The reference for a successful copy: data written at dest, replacing a
      file there, or, when dest is absent, after creating its parent
      directories. */
  function Placed(fs: FileSystem, dest: Path, data: seq<Byte>): FileSystem
  {
    (if dest in fs then fs else MakeDirs(fs, Parent(dest)))[dest := File(data)]
  }

  /** Restore and cleanup on a healthy host whose fresh temp file holds the
      encoding of d: both succeed and the host ends as if d had been placed at
      dest directly. */
  lemma RestoreThenCleanup(f: Faults, h1: Host, fs0: FileSystem, tmp: Path, dest: Path, d: seq<Byte>)
    requires Healthy(f) && tmp !in fs0 && h1.fs == fs0[tmp := File(Encode(d))]
    requires WellFormed(fs0) && Placeable(fs0, tmp) && DriveExists(fs0, dest) && NoFileOn(fs0, Parent(dest))
    requires dest != tmp && !OnTheWay(tmp, Parent(dest))
    requires dest !in fs0 || fs0[dest].File?
    ensures var restore := RunInShell(f, h1, RestoreOp, RestoreScript(tmp, dest));
      && restore.0 == None
      && var cleanup := RunInShell(f, restore.1, CleanupOp, CleanupScript(tmp));
      && cleanup.0 == None
      && cleanup.1.fs == Placed(fs0, dest, d)
  {
    RestoreBesideTemp(fs0, tmp, dest, d);
    HealthyRun(f, h1, RestoreOp, RestoreScript(tmp, dest));
    var restore := RunInShell(f, h1, RestoreOp, RestoreScript(tmp, dest));
    HealthyCleanup(f, restore.1, Placed(fs0, dest, d), tmp, Encode(d));
  }

  /** Cleanup on a healthy host removes the temp file and nothing else. */
  lemma HealthyCleanup(f: Faults, h: Host, fs: FileSystem, tmp: Path, text: seq<Byte>)
    requires Healthy(f) && tmp !in fs && h.fs == fs[tmp := File(text)]
    ensures var cleanup := RunInShell(f, h, CleanupOp, CleanupScript(tmp));
      cleanup.0 == None && cleanup.1.fs == fs
  {
    assert Cleanup(h.fs, tmp) == Outcome(fs, 0) by {
      assert h.fs - {tmp} == fs;
    }
    HealthyRun(f, h, CleanupOp, CleanupScript(tmp));
  }

  /** On a healthy host a command run in its own shell does what its script
      does, and its exit code decides the error. */
  lemma HealthyRun(f: Faults, h: Host, op: Op, cmd: Command)
    requires Healthy(f)
    ensures var r := RunInShell(f, h, op, cmd);
      r.0 == CheckExit(op, Effect(cmd, h.fs).exit) && r.1.fs == Effect(cmd, h.fs).fs
  {
    assert !f.shellFails(h.shellsOpened) && f.runFails(h.ran) == 0;
  }


  /** The restore script run beside a fresh temp file holding the encoding of
      d places d at dest and leaves the temp file as it is. */
  lemma RestoreBesideTemp(fs0: FileSystem, tmp: Path, dest: Path, d: seq<Byte>)
    requires tmp !in fs0 && dest != tmp && !OnTheWay(tmp, Parent(dest))
    requires WellFormed(fs0) && Placeable(fs0, tmp) && DriveExists(fs0, dest) && NoFileOn(fs0, Parent(dest))
    requires dest !in fs0 || fs0[dest].File?
    ensures tmp !in Placed(fs0, dest, d)
    ensures Restore(fs0[tmp := File(Encode(d))], tmp, dest) == Outcome(Placed(fs0, dest, d)[tmp := File(Encode(d))], 0)
  {
    var fs1: FileSystem := fs0[tmp := File(Encode(d))];
    var before: FileSystem := if dest in fs0 then fs0 else MakeDirs(fs0, Parent(dest));
    var cleared: FileSystem := if dest in fs1 then fs1 else MakeDirs(fs1, Parent(dest));
    if dest !in fs0 {
      MakeDirsUpdate(fs0, Parent(dest), tmp, File(Encode(d)));
      MakeDirsAvoids(fs0, Parent(dest), tmp);
    }
    assert cleared == before[tmp := File(Encode(d))];
    PlaceKeepsWellFormed(fs0, tmp, File(Encode(d)));
    TempOffTheWay(fs0, tmp, Parent(dest), File(Encode(d)));
    RestoreDecodes(fs1, tmp, dest, d);
    assert Restore(fs1, tmp, dest).fs == cleared[dest := File(d)];
    UpdateSwap(before, tmp, File(Encode(d)), dest, File(d));
  }

  /** A change to a path off the way keeps what is on the way. */
  lemma TempOffTheWay(fs: FileSystem, q: Path, dir: Path, n: Node)
    requires NoFileOn(fs, dir) && !OnTheWay(q, dir)
    ensures NoFileOn(fs[q := n], dir)
  {
    forall k | 0 < k <= |dir| && dir[..k] in fs[q := n]
      ensures fs[q := n][dir[..k]] == Dir
    {
      assert dir[..k] != q;
    }
  }

  /** Creating directories never creates a path that is not on the way. */
  lemma MakeDirsAvoids(fs: FileSystem, dir: Path, q: Path)
    requires q !in fs && !OnTheWay(q, dir)
    ensures q !in MakeDirs(fs, dir)
  {
    MakeDirsOnlyOnTheWay(fs, dir);
  }

  /** Updates of two different paths can be made in either order. */
  lemma UpdateSwap(m: FileSystem, p: Path, x: Node, q: Path, y: Node)
    requires p != q
    ensures m[p := x][q := y] == m[q := y][p := x]
  {
  }

  /** The upload on a healthy host whose temp file is fresh, with appending
      writers: the temp file ends holding the encoding of everything read. */
  lemma UploadAppends(src: Source, f: Faults, filePath: string, tmp: Path, maxChunks: nat, pos: nat, h: Host)
    requires Healthy(f) && |filePath| <= 7996 && pos <= |src.data| && tmp !in h.fs && Placeable(h.fs, tmp)
    ensures var up := Upload.Upload(src, f, filePath, tmp, maxChunks, true, pos, h);
      && up.err == (if src.fails then Some(ReadFailed) else None)
      && up.pos == |src.data|
      && up.host.fs == h.fs[tmp := File(Encode(src.data[pos..]))]
  {
    ChunkFitsBudget(|filePath|, []);
    var size: nat := ChunkSize(|filePath|);
    var b: nat := Budget(maxChunks);
    var up := Upload.Upload(src, f, filePath, tmp, maxChunks, true, pos, h);
    UploadHealthy(src, f, filePath, tmp, maxChunks, true, pos, h);
    assert UploadSends(src, size, b, pos, h.fs, tmp, true, up);
    var cs := Chunks(src.data, size, pos);
    ChunksConcat(src.data, size, pos);
    assert StartText(h.fs, tmp, true) == [];
    assert FinalText(h.fs, tmp, true, cs, b) == Encode(src.data[pos..]);
  }

  /** The temp file's length for a uuid of |u| characters. */
  lemma UploadPathLength(u: string)
    ensures |UploadPath(TempFileName(Some(u)).value)| == |u| + 19
  {
  }

  /** A copy on a healthy host with a fresh temp file: the destination
      receives exactly the bytes read, replacing a file or creating the
      missing directories, the temp file is gone and nothing else changes;
      with a failing source the copy stops after the upload. */
  lemma CopyRoundTrip(src: Source, f: Faults, u: string, maxChunks: nat, dest: Path, pos: nat, h: Host)
    requires Healthy(f) && |u| <= 7977 && pos <= |src.data|
    requires var tmp := TempPath(TempFileName(Some(u)).value);
      tmp !in h.fs && Placeable(h.fs, tmp) && dest != tmp && !OnTheWay(tmp, Parent(dest))
    requires WellFormed(h.fs) && DriveExists(h.fs, dest) && NoFileOn(h.fs, Parent(dest))
    requires dest !in h.fs || h.fs[dest].File?
    ensures var r := CopyOutcome(src, f, Some(u), maxChunks, dest, true, pos, h);
      && r.pos == |src.data|
      && (!src.fails ==> r.err == None && r.host.fs == Placed(h.fs, dest, src.data[pos..]))
      && (src.fails ==> r.err == Some(Wrapped(UploadCtx, ReadFailed)) && r.phases == [UploadPhase])
  {
    var name: string := TempFileName(Some(u)).value;
    var tmp: Path := TempPath(name);
    var filePath: string := UploadPath(name);
    UploadPathLength(u);
    UploadAppends(src, f, filePath, tmp, maxChunks, pos, h);
    var up := Upload.Upload(src, f, filePath, tmp, maxChunks, true, pos, h);
    if !src.fails {
      RestoreThenCleanup(f, up.host, h.fs, tmp, dest, src.data[pos..]);
    }
  }

  /** A directory at the destination: the copy fails in the restore phase
      with exit code 1, no cleanup runs, the directory is untouched and the
      temp file is left behind. */
  lemma CopyOntoDirectory(src: Source, f: Faults, u: string, maxChunks: nat, dest: Path, appendTo: bool,
                          pos: nat, h: Host)
    requires Healthy(f) && |u| <= 7977 && pos <= |src.data| && !src.fails
    requires TempPath(TempFileName(Some(u)).value) !in h.fs && Placeable(h.fs, TempPath(TempFileName(Some(u)).value))
    requires dest in h.fs && h.fs[dest] == Dir
    ensures var r := CopyOutcome(src, f, Some(u), maxChunks, dest, appendTo, pos, h);
      var tmp := TempPath(TempFileName(Some(u)).value);
      && r.err == Some(Wrapped(RestoreCtx, ExitCode(RestoreOp, DirectoryConflict)))
      && r.phases == [UploadPhase, RestorePhase]
      && tmp in r.host.fs && r.host.fs[tmp].File?
      && r.host.fs - {tmp} == h.fs - {tmp}
  {
    var name: string := TempFileName(Some(u)).value;
    var tmp: Path := TempPath(name);
    var filePath: string := UploadPath(name);
    UploadPathLength(u);
    UploadTouchesOnlyTemp(src, f, filePath, tmp, maxChunks, appendTo, pos, h);
    var up := Upload.Upload(src, f, filePath, tmp, maxChunks, appendTo, pos, h);
    assert up.err == None;
    assert dest != tmp;
    var rest: FileSystem := h.fs - {tmp};
    assert dest in rest && rest[dest] == Dir;
    assert dest in up.host.fs && up.host.fs[dest] == Dir;
    RestoreDirectoryConflict(up.host.fs, tmp, dest);
    var restore := RunInShell(f, up.host, RestoreOp, RestoreScript(tmp, dest));
    assert restore.0 == Some(ExitCode(RestoreOp, DirectoryConflict)) && restore.1.fs == up.host.fs;
  }

  /** The message of a directory conflict ends with "code=1". */
  lemma DirectoryConflictMessage()
    ensures var m := Message(Wrapped(RestoreCtx, ExitCode(RestoreOp, DirectoryConflict)));
      EndsWith(m, "code=1")
  {
    MessageEndsWithCode(Wrapped(RestoreCtx, ExitCode(RestoreOp, DirectoryConflict)));
    assert Decimal(1) == "1";
  }

  /** A healthy upload reads the whole source, fails only with the source's
      read error, and leaves a file at the temp path and everything else as
      it was. */
  lemma UploadTouchesOnlyTemp(src: Source, f: Faults, filePath: string, tmp: Path, maxChunks: nat, appendTo: bool,
                              pos: nat, h: Host)
    requires Healthy(f) && |filePath| <= 7996 && pos <= |src.data|
    requires (tmp !in h.fs || h.fs[tmp].File?) && Placeable(h.fs, tmp)
    ensures var up := Upload.Upload(src, f, filePath, tmp, maxChunks, appendTo, pos, h);
      && up.err == (if src.fails then Some(ReadFailed) else None)
      && up.pos == |src.data|
      && tmp in up.host.fs && up.host.fs[tmp].File?
      && up.host.fs - {tmp} == h.fs - {tmp}
  {
    ChunkSizeSign(|filePath|);
    var size: nat := ChunkSize(|filePath|);
    var b: nat := Budget(maxChunks);
    var up := Upload.Upload(src, f, filePath, tmp, maxChunks, appendTo, pos, h);
    UploadHealthy(src, f, filePath, tmp, maxChunks, appendTo, pos, h);
    assert UploadSends(src, size, b, pos, h.fs, tmp, appendTo, up);
    var text: seq<Byte> := FinalText(h.fs, tmp, appendTo, Chunks(src.data, size, pos), b);
    assert up.host.fs == h.fs[tmp := File(text)];
  }

  /** A restore whose script ends with a nonzero code, whatever the cause,
      fails the copy with that code at the end of its message, and the
      cleanup is skipped. */
  lemma RestoreFailureSkipsCleanup(src: Source, f: Faults, uuid: Option<string>, maxChunks: nat, dest: Path,
                                   appendTo: bool, pos: nat, h: Host)
    requires pos <= |src.data| && uuid.Some?
    requires var tmp := TempPath(TempFileName(uuid).value);
      var up := Upload.Upload(src, f, UploadPath(TempFileName(uuid).value), tmp, maxChunks, appendTo, pos, h);
      up.err.None? && RunInShell(f, up.host, RestoreOp, RestoreScript(tmp, dest)).0.Some?
    ensures var r := CopyOutcome(src, f, uuid, maxChunks, dest, appendTo, pos, h);
      && r.phases == [UploadPhase, RestorePhase]
      && r.err.Some? && r.err.value.Wrapped? && r.err.value.context == RestoreCtx
      && var cause := r.err.value.cause;
      cause.ExitCode? ==> cause.code != 0 && EndsWith(Message(r.err.value), "code=" + Decimal(cause.code))
  {
    var r := CopyOutcome(src, f, uuid, maxChunks, dest, appendTo, pos, h);
    if r.err.value.cause.ExitCode? {
      MessageEndsWithCode(r.err.value);
    }
  }

  // ---- the code as written: every session truncates the temp file ----

  /** Split into a multiple of b, the last part is empty. */
  lemma {:induction false} SplitLastEmpty<T>(xs: seq<T>, b: nat, m: nat)
    requires b >= 1 && |xs| == m * b
    ensures Last(Split(xs, b)) == []
    decreases m
  {
    if m > 0 {
      MulStep(m - 1, b);
      assert |xs[b..]| == (m - 1) * b;
      SplitLastEmpty(xs[b..], b, m - 1);
      assert Split(xs, b) == [xs[..b]] + Split(xs[b..], b);
    }
  }

  /** With truncating writers a source whose chunks fill whole sessions
      arrives as an empty file, reported as a success. */
  lemma AsWrittenEmptiesDestination(src: Source, f: Faults, u: string, maxChunks: nat, dest: Path, pos: nat, h: Host,
                                    m: nat)
    requires Healthy(f) && |u| <= 7977 && pos <= |src.data| && !src.fails
    requires ChunkSize(|u| + 19) > 0
    requires |Chunks(src.data, ChunkSize(|u| + 19), pos)| == m * Budget(maxChunks)
    requires var tmp := TempPath(TempFileName(Some(u)).value);
      tmp !in h.fs && Placeable(h.fs, tmp) && dest != tmp && !OnTheWay(tmp, Parent(dest))
    requires WellFormed(h.fs) && DriveExists(h.fs, dest) && NoFileOn(h.fs, Parent(dest))
    requires dest !in h.fs || h.fs[dest].File?
    ensures var r := CopyOutcome(src, f, Some(u), maxChunks, dest, false, pos, h);
      r.err == None && r.host.fs == Placed(h.fs, dest, [])
  {
    var name: string := TempFileName(Some(u)).value;
    var tmp: Path := TempPath(name);
    var filePath: string := UploadPath(name);
    UploadPathLength(u);
    var size: nat := ChunkSize(|filePath|);
    var b: nat := Budget(maxChunks);
    UploadHealthy(src, f, filePath, tmp, maxChunks, false, pos, h);
    var up := Upload.Upload(src, f, filePath, tmp, maxChunks, false, pos, h);
    var cs := Chunks(src.data, size, pos);
    SplitLastEmpty(cs, b, m);
    assert FinalText(h.fs, tmp, false, cs, b) == [];
    assert Encode([]) == [];
    RestoreThenCleanup(f, up.host, h.fs, tmp, dest, []);
  }

  /** One byte with maxChunks 0 on a healthy host holding only the drive and
      the temp directory: the copy reports success and the destination is an
      empty file. */
  lemma AsWrittenOneByteArrivesEmpty()
    ensures var f := Faults(k => false, i => 0);
      var src := Source([65], false);
      var dest := ["C:", "out.bin"];
      var fs := map[["%TEMP%"] := Dir, ["C:"] := Dir];
      var r := CopyOutcome(src, f, Some("0"), 0, dest, false, 0, Host(fs, 0, 0, 0));
      r.err == None && dest in r.host.fs && r.host.fs[dest] == File([]) && r.host.fs[dest] != File(src.data)
  {
    var f := Faults(k => false, i => 0);
    var src := Source([65], false);
    var dest: Path := ["C:", "out.bin"];
    var fs: FileSystem := map[["%TEMP%"] := Dir, ["C:"] := Dir];
    var h := Host(fs, 0, 0, 0);
    assert WellFormed(fs);
    assert NoFileOn(fs, Parent(dest)) by {
      assert Parent(dest) == ["C:"];
      assert Parent(dest)[..1] == ["C:"];
    }
    var tmp: Path := TempPath(TempFileName(Some("0")).value);
    assert Placeable(fs, tmp) by {
      assert Parent(tmp) == ["%TEMP%"];
    }
    assert DriveExists(fs, dest) by {
      assert dest[..1] == ["C:"];
    }
    ChunkSizeSign(20);
    var size: nat := ChunkSize(20);
    assert Chunks(src.data, size, 1) == [];
    assert |Chunks(src.data, size, 0)| == 1 * Budget(0);
    AsWrittenEmptiesDestination(src, f, "0", 0, dest, 0, h, 1);
  }
}
