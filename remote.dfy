/** The remote command-execution capability the copy is built on (winrm.Client,
    its shells and commands), reduced to what the copy observes: creating a
    shell may fail, a command ends with an exit code, and a command that the
    host does run changes the filesystem as module Scripts says. */
module Remote {
  import opened FileSystem
  import opened Scripts

  /** The behaviour of the capability, fixed for a whole copy:
      shellFails(k) makes the k-th CreateShell fail, and a nonzero runFails(i)
      makes the i-th command fail to run with that exit code and no effect. */
  datatype Faults = Faults(shellFails: nat -> bool, runFails: nat -> int)

  /** Everything the copy changes on the host: the filesystem, the number of
      commands run and the numbers of shells shellsOpened and shellsClosed. */
  datatype Host = Host(fs: FileSystem, ran: nat, shellsOpened: nat, shellsClosed: nat)

  /** A capability on which every shell opens and every command runs. */
  ghost predicate Healthy(f: Faults)
  {
    forall i :: !f.shellFails(i) && f.runFails(i) == 0
  }

  /** shell.Execute, cmd.Wait and cmd.ExitCode of one command. */
  function Run(f: Faults, h: Host, cmd: Command): (r: (int, Host))
    ensures r.1.ran == h.ran + 1 && r.1.shellsOpened == h.shellsOpened && r.1.shellsClosed == h.shellsClosed
    ensures f.runFails(h.ran) != 0 ==> r == (f.runFails(h.ran), h.(ran := h.ran + 1))
    ensures f.runFails(h.ran) == 0 ==> r.0 == Effect(cmd, h.fs).exit && r.1.fs == Effect(cmd, h.fs).fs
  {
    var forced := f.runFails(h.ran);
    if forced != 0 then (forced, h.(ran := h.ran + 1))
    else
      var o := Effect(cmd, h.fs);
      (o.exit, Host(o.fs, h.ran + 1, h.shellsOpened, h.shellsClosed))
  }

  /** The client a copy is handed: it opens shells and runs commands in them. */
  class Client {
    const faults: Faults
    var fs: FileSystem
    var ran: nat
    var shellsOpened: nat
    var shellsClosed: nat

    function State(): Host
      reads this
    {
      Host(fs, ran, shellsOpened, shellsClosed)
    }

    constructor (faults: Faults, fs: FileSystem)
      ensures this.faults == faults && State() == Host(fs, 0, 0, 0)
    {
      this.faults := faults;
      this.fs := fs;
      ran, shellsOpened, shellsClosed := 0, 0, 0;
    }

    /** client.CreateShell */
    method CreateShell() returns (ok: bool)
      modifies this
      ensures ok == !faults.shellFails(old(shellsOpened))
      ensures State() == if ok then old(State()).(shellsOpened := old(shellsOpened) + 1) else old(State())
    {
      ok := !faults.shellFails(shellsOpened);
      if ok {
        shellsOpened := shellsOpened + 1;
      }
    }

    /** shell.Close */
    method CloseShell()
      modifies this
      ensures State() == old(State()).(shellsClosed := old(shellsClosed) + 1)
    {
      shellsClosed := shellsClosed + 1;
    }

    /** Runs one command to completion and reports its exit code. */
    method Execute(cmd: Command) returns (code: int)
      modifies this
      ensures (code, State()) == Run(faults, old(State()), cmd)
    {
      var r := Run(faults, State(), cmd);
      code := r.0;
      fs, ran := r.1.fs, r.1.ran;
    }
  }
}

/** The io.Reader the bytes come from: it hands out its data in order, filling
    the buffer as far as the data goes, and then reports io.EOF, or, for a
    failing source, an error other than io.EOF. */
module Source {
  import opened Base64

  datatype Source = Source(data: seq<Byte>, fails: bool)

  /** The error a Read returns with its byte count: nil, io.EOF or another error. */
  datatype ReadStatus = Filled | Eof | Failed

  function Min(a: int, b: int): int
  {
    if a <= b then a else b
  }

  /** What Read(p) returns from position pos with a buffer of size bytes. */
  function ReadAt(src: Source, pos: nat, size: nat): (r: (nat, ReadStatus))
    requires pos <= |src.data|
    ensures pos + r.0 <= |src.data| && r.0 <= size
    ensures r.1 == Failed <==> pos == |src.data| && src.fails
    ensures r.0 == 0 <==> size == 0 || pos == |src.data|
  {
    if pos < |src.data| then (Min(size, |src.data| - pos), Filled)
    else (0, if src.fails then Failed else Eof)
  }

  class Reader {
    const src: Source
    var pos: nat

    ghost predicate Valid()
      reads this
    {
      pos <= |src.data|
    }

    constructor (src: Source)
      ensures Valid() && this.src == src && pos == 0
    {
      this.src := src;
      pos := 0;
    }

    /** reader.Read(p): copies the next bytes into the front of p. */
    method Read(p: array<Byte>) returns (n: nat, status: ReadStatus)
      requires Valid()
      modifies this, p
      ensures Valid()
      ensures (n, status) == ReadAt(src, old(pos), p.Length)
      ensures pos == old(pos) + n
      ensures p[..n] == src.data[old(pos)..pos]
    {
      var r := ReadAt(src, pos, p.Length);
      n, status := r.0, r.1;
      var j := 0;
      while j < n
        invariant 0 <= j <= n && pos == old(pos)
        invariant p[..j] == src.data[pos..pos + j]
      {
        p[j] := src.data[pos + j];
        j := j + 1;
      }
      pos := pos + n;
    }
  }
}
