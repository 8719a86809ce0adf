/** The session-bounded upload (uploadContent and uploadChunks,
    winrmcp/cp.go:53-124) with the stream writer of writeContentChannel
    (winrmcp/cp.go:260-311) run in sequence: each chunk is appended in order
    and the first failing append ends the session with its error. */
module Upload {
  import opened Errors
  import opened Base64
  import opened Chunking
  import opened FileSystem
  import opened Scripts
  import opened Remote
  import opened Source

  /** How the chunk loop of one session ended. */
  datatype LoopEnd = Exhausted | BudgetSpent | Stopped(error: Error)

  /** The loop's end, the reader position, the host afterwards, and the chunk
      texts the host appended, in order. */
  datatype LoopOut = LoopOut(end: LoopEnd, pos: nat, host: Host, sent: seq<seq<Byte>>)

  /** The for-loop of uploadChunks from iteration i on: read a chunk; stop on
      an error other than EOF or on a zero-byte read; otherwise encode the
      bytes read and append the text through the stream. */
  function ChunkLoop(src: Source, f: Faults, tmp: Path, size: nat, budget: nat, i: nat, pos: nat, h: Host): (r: LoopOut)
    requires pos <= |src.data| && i <= budget
    ensures pos <= r.pos <= |src.data|
    ensures r.host.shellsOpened == h.shellsOpened && r.host.shellsClosed == h.shellsClosed
    ensures |r.sent| <= budget - i
    ensures r.end == BudgetSpent ==> |r.sent| == budget - i && r.pos >= pos + (budget - i)
    decreases budget - i
  {
    if i == budget then LoopOut(BudgetSpent, pos, h, [])
    else
      var read := ReadAt(src, pos, size);
      if read.1 == Failed then LoopOut(Stopped(ReadFailed), pos, h, [])
      else if read.0 == 0 then LoopOut(Exhausted, pos, h, [])
      else
        var text := Encode(src.data[pos..pos + read.0]);
        var run := Run(f, h, WriteStream(tmp, text));
        if run.0 != 0 then
          LoopOut(Stopped(Wrapped(WriteStreamCtx, ExitCode(UploadOp, run.0))), pos + read.0, run.1, [])
        else
          var rest := ChunkLoop(src, f, tmp, size, budget, i + 1, pos + read.0, run.1);
          rest.(sent := [text] + rest.sent)
  }

  /** Close, dispose and remove the stream variable: best effort, every exit
      code ignored. */
  function Teardown(f: Faults, h: Host): (r: Host)
    ensures r == h.(ran := h.ran + 3)
  {
    var closedStream := Run(f, h, CloseStream).1;
    var disposed := Run(f, closedStream, DisposeStream).1;
    Run(f, disposed, RemoveVariable).1
  }

  /** Whether the session saw the end of the source, its error if any, the
      reader position, the host afterwards, and the chunk texts appended. */
  datatype SessionOut = SessionOut(done: bool, err: Option<Error>, pos: nat, host: Host, sent: seq<seq<Byte>>)

  /** One call of uploadChunks: open a shell, size the buffer, open the stream
      writer on the temp file, run the chunk loop with the budget, tear the
      stream down and close the shell. appendTo is the mode the writer is
      opened in (winrmcp/cp.go:94 passes false). */
  function Session(src: Source, f: Faults, filePath: string, tmp: Path, maxChunks: nat, appendTo: bool,
                   pos: nat, h: Host): (r: SessionOut)
    requires pos <= |src.data|
    ensures pos <= r.pos <= |src.data|
    ensures r.done ==> r.err.None?
    ensures |r.sent| <= Budget(maxChunks)
    ensures !r.done && r.err.None? ==> |r.sent| == Budget(maxChunks) && r.pos >= pos + Budget(maxChunks)
    ensures r.host.shellsOpened - h.shellsOpened == r.host.shellsClosed - h.shellsClosed
  {
    if f.shellFails(h.shellsOpened) then
      SessionOut(false, Some(Wrapped(CreateShellCtx, ShellFailed)), pos, h, [])
    else
      var withShell := h.(shellsOpened := h.shellsOpened + 1);
      var size := ChunkSize(|filePath|);
      if size < 0 then
        SessionOut(false, Some(NegativeBuffer), pos, withShell.(shellsClosed := withShell.shellsClosed + 1), [])
      else
        var open := Run(f, withShell, OpenStream(tmp, appendTo));
        if open.0 != 0 then
          SessionOut(false, Some(Wrapped(OpenWriterCtx, ExitCode(UploadOp, open.0))), pos,
                     open.1.(shellsClosed := open.1.shellsClosed + 1), [])
        else
          Finish(f, ChunkLoop(src, f, tmp, size, Budget(maxChunks), 0, pos, open.1))
  }

  /** The end of a session whose stream was opened: the stream is torn down,
      the shell closed, and the loop's end decides what uploadChunks returns. */
  function Finish(f: Faults, loop: LoopOut): (r: SessionOut)
    ensures r.pos == loop.pos && r.sent == loop.sent
    ensures r.done <==> loop.end == Exhausted
    ensures r.err.None? <==> !loop.end.Stopped?
    ensures loop.end.Stopped? ==> r.err == Some(loop.end.error)
    ensures r.host == loop.host.(ran := loop.host.ran + 3, shellsClosed := loop.host.shellsClosed + 1)
  {
    var h := Teardown(f, loop.host);
    var closed := h.(shellsClosed := h.shellsClosed + 1);
    match loop.end
    case Exhausted => SessionOut(true, None, loop.pos, closed, loop.sent)
    case BudgetSpent => SessionOut(false, None, loop.pos, closed, loop.sent)
    case Stopped(e) => SessionOut(false, Some(e), loop.pos, closed, loop.sent)
  }

  /** The error, the reader position, the host afterwards, and the chunk texts
      each session appended, one entry per session. */
  datatype UploadOut = UploadOut(err: Option<Error>, pos: nat, host: Host, sessions: seq<seq<seq<Byte>>>)

  /** uploadContent: sessions until one reports done or one fails. */
  function Upload(src: Source, f: Faults, filePath: string, tmp: Path, maxChunks: nat, appendTo: bool,
                  pos: nat, h: Host): (r: UploadOut)
    requires pos <= |src.data|
    ensures pos <= r.pos <= |src.data|
    ensures r.host.shellsOpened - h.shellsOpened == r.host.shellsClosed - h.shellsClosed
    ensures |r.sessions| >= 1
    decreases |src.data| - pos
  {
    var s := Session(src, f, filePath, tmp, maxChunks, appendTo, pos, h);
    if s.err.Some? || s.done then UploadOut(s.err, s.pos, s.host, [s.sent])
    else
      var rest := Upload(src, f, filePath, tmp, maxChunks, appendTo, s.pos, s.host);
      rest.(sessions := [s.sent] + rest.sessions)
  }

  /** Whatever the faults, a session that ends with an error, or that saw the
      end of the source, is the upload's last: its error is the upload's, and
      no further session is opened. */
  lemma SessionErrorEndsUpload(src: Source, f: Faults, filePath: string, tmp: Path, maxChunks: nat, appendTo: bool,
                               pos: nat, h: Host)
    requires pos <= |src.data|
    ensures var s := Session(src, f, filePath, tmp, maxChunks, appendTo, pos, h);
      s.err.Some? || s.done ==>
      Upload(src, f, filePath, tmp, maxChunks, appendTo, pos, h) == UploadOut(s.err, s.pos, s.host, [s.sent])
  {
  }

  /** Two runs of the chunk loop that end alike, in the same place and state. */
  predicate SameEnd(a: LoopOut, b: LoopOut)
  {
    a.end == b.end && a.pos == b.pos && a.host == b.host
  }

  /** One full iteration of the chunk loop: the chunk read is appended and the
      loop carries on from the next position. */
  lemma ChunkLoopStep(src: Source, f: Faults, tmp: Path, size: nat, budget: nat, i: nat, pos: nat, h: Host,
                      n: nat, text: seq<Byte>, i': nat, pos': nat, h': Host)
    requires pos <= |src.data| && i < budget && i' == i + 1 && pos' == pos + n
    requires ReadAt(src, pos, size).0 == n && ReadAt(src, pos, size).1 != Failed && n != 0
    requires text == Encode(src.data[pos..pos']) && Run(f, h, WriteStream(tmp, text)) == (0, h')
    ensures var rest := ChunkLoop(src, f, tmp, size, budget, i', pos', h');
      ChunkLoop(src, f, tmp, size, budget, i, pos, h) == rest.(sent := [text] + rest.sent)
  {
    var rest := ChunkLoop(src, f, tmp, size, budget, i', pos', h');
    var r := ChunkLoop(src, f, tmp, size, budget, i, pos, h);
    assert r == rest.(sent := [text] + rest.sent);
  }

  /** A read that fails with an error other than io.EOF stops the loop with
      that error: nothing is appended and the reader stays where it was. */
  lemma ReadFailureStops(src: Source, f: Faults, tmp: Path, size: nat, budget: nat, i: nat, pos: nat, h: Host)
    requires pos <= |src.data| && i < budget && ReadAt(src, pos, size).1 == Failed
    ensures var r := ChunkLoop(src, f, tmp, size, budget, i, pos, h);
      r == LoopOut(Stopped(ReadFailed), pos, h, [])
  {
  }

  /** A read of zero bytes that did not fail ends the loop: the source is
      exhausted and nothing more is appended. */
  lemma EmptyReadFinishes(src: Source, f: Faults, tmp: Path, size: nat, budget: nat, i: nat, pos: nat, h: Host)
    requires pos <= |src.data| && i < budget
    requires ReadAt(src, pos, size).1 != Failed && ReadAt(src, pos, size).0 == 0
    ensures var r := ChunkLoop(src, f, tmp, size, budget, i, pos, h);
      r == LoopOut(Exhausted, pos, h, [])
  {
  }

  /** An append that ends with a nonzero exit code stops the loop with an
      error carrying that code, after the bytes were read. */
  lemma WriteFailureStops(src: Source, f: Faults, tmp: Path, size: nat, budget: nat, i: nat, pos: nat, h: Host,
                          n: nat, text: seq<Byte>, code: int, h': Host)
    requires pos <= |src.data| && i < budget
    requires ReadAt(src, pos, size).1 != Failed && ReadAt(src, pos, size).0 == n && n != 0
    requires text == Encode(src.data[pos..pos + n])
    requires Run(f, h, WriteStream(tmp, text)) == (code, h') && code != 0
    ensures var r := ChunkLoop(src, f, tmp, size, budget, i, pos, h);
      r == LoopOut(Stopped(Wrapped(WriteStreamCtx, ExitCode(UploadOp, code))), pos + n, h', [])
  {
  }

  /** The for-loop of uploadChunks: reads into the chunk buffer and appends
      each encoded chunk through the stream, at most budget times. */
  method SendChunks(client: Client, tmp: Path, size: nat, budget: nat, reader: Reader, chunk: array<Byte>)
    returns (end: LoopEnd)
    requires reader.Valid() && chunk.Length == size
    modifies client, reader, chunk
    ensures reader.Valid()
    ensures var spec := ChunkLoop(reader.src, client.faults, tmp, size, budget, 0, old(reader.pos), old(client.State()));
      end == spec.end && reader.pos == spec.pos && client.State() == spec.host
  {
    ghost var spec := ChunkLoop(reader.src, client.faults, tmp, size, budget, 0, reader.pos, client.State());
    end := BudgetSpent;
    var i := 0;
    while i < budget
      invariant 0 <= i <= budget && reader.Valid() && chunk.Length == size
      invariant SameEnd(ChunkLoop(reader.src, client.faults, tmp, size, budget, i, reader.pos, client.State()), spec)
      decreases budget - i
    {
      var stop := SendChunk(client, tmp, size, budget, i, reader, chunk);
      if stop.Some? {
        return stop.value;
      }
      i := i + 1;
    }
  }

  /** One iteration of the for-loop: read into the buffer; stop on a failed
      read, on a read of zero bytes or on a failed append; otherwise the
      loop carries on from where the reader and the host now are. */
  method SendChunk(client: Client, tmp: Path, size: nat, budget: nat, i: nat, reader: Reader, chunk: array<Byte>)
    returns (stop: Option<LoopEnd>)
    requires reader.Valid() && chunk.Length == size && i < budget
    modifies client, reader, chunk
    ensures reader.Valid()
    ensures var r := ChunkLoop(reader.src, client.faults, tmp, size, budget, i, old(reader.pos), old(client.State()));
      stop.Some? ==> r.end == stop.value && r.pos == reader.pos && r.host == client.State()
    ensures stop.None? ==> SameEnd(ChunkLoop(reader.src, client.faults, tmp, size, budget, i, old(reader.pos), old(client.State())),
                                   ChunkLoop(reader.src, client.faults, tmp, size, budget, i + 1, reader.pos, client.State()))
  {
    ghost var pos, h := reader.pos, client.State();
    var n, status := reader.Read(chunk);
    if status == Failed {
      ReadFailureStops(reader.src, client.faults, tmp, size, budget, i, pos, h);
      return Some(Stopped(ReadFailed));
    }
    if n == 0 {
      EmptyReadFinishes(reader.src, client.faults, tmp, size, budget, i, pos, h);
      return Some(Exhausted);
    }
    var content := Encode(chunk[..n]);
    var code := client.Execute(WriteStream(tmp, content));
    if code != 0 {
      WriteFailureStops(reader.src, client.faults, tmp, size, budget, i, pos, h, n, content, code, client.State());
      return Some(Stopped(Wrapped(WriteStreamCtx, ExitCode(UploadOp, code))));
    }
    ChunkLoopStep(reader.src, client.faults, tmp, size, budget, i, pos, h, n, content, i + 1, reader.pos, client.State());
    return None;
  }

  /** uploadChunks over a client and a reader. */
  method UploadChunks(client: Client, filePath: string, tmp: Path, maxChunks: nat, appendTo: bool, reader: Reader)
    returns (done: bool, err: Option<Error>)
    requires reader.Valid()
    modifies client, reader
    ensures reader.Valid()
    ensures var s := Session(reader.src, client.faults, filePath, tmp, maxChunks, appendTo, old(reader.pos), old(client.State()));
      done == s.done && err == s.err && reader.pos == s.pos && client.State() == s.host
  {
    ghost var pos, h := reader.pos, client.State();
    var ok := client.CreateShell();
    if !ok {
      return false, Some(Wrapped(CreateShellCtx, ShellFailed));
    }
    var size := ChunkSize(|filePath|);
    if size < 0 {
      client.CloseShell();
      return false, Some(NegativeBuffer);
    }
    var code := client.Execute(OpenStream(tmp, appendTo));
    if code != 0 {
      client.CloseShell();
      return false, Some(Wrapped(OpenWriterCtx, ExitCode(UploadOp, code)));
    }
    SessionOpened(reader.src, client.faults, filePath, tmp, maxChunks, appendTo, pos, h, size, client.State());
    done, err := StreamChunks(client, tmp, size, Budget(maxChunks), reader);
  }

  /** The part of uploadChunks after the stream is open: allocate the chunk
      buffer, run the loop, tear the stream down and close the shell. */
  method StreamChunks(client: Client, tmp: Path, size: nat, budget: nat, reader: Reader)
    returns (done: bool, err: Option<Error>)
    requires reader.Valid()
    modifies client, reader
    ensures reader.Valid()
    ensures var s := Finish(client.faults, ChunkLoop(reader.src, client.faults, tmp, size, budget, 0, old(reader.pos), old(client.State())));
      done == s.done && err == s.err && reader.pos == s.pos && client.State() == s.host
  {
    var chunk := new Byte[size];
    var end := SendChunks(client, tmp, size, budget, reader, chunk);
    var _ := client.Execute(CloseStream);
    var _ := client.Execute(DisposeStream);
    var _ := client.Execute(RemoveVariable);
    client.CloseShell();
    match end
    case Exhausted => done, err := true, None;
    case BudgetSpent => done, err := false, None;
    case Stopped(e) => done, err := false, Some(e);
  }

  /** uploadContent over a client and a reader. */
  method UploadContent(client: Client, maxChunks: nat, filePath: string, tmp: Path, appendTo: bool, reader: Reader)
    returns (err: Option<Error>)
    requires reader.Valid()
    modifies client, reader
    ensures reader.Valid()
    ensures var u := Upload(reader.src, client.faults, filePath, tmp, maxChunks, appendTo, old(reader.pos), old(client.State()));
      err == u.err && reader.pos == u.pos && client.State() == u.host
  {
    ghost var spec := Upload(reader.src, client.faults, filePath, tmp, maxChunks, appendTo, reader.pos, client.State());
    var done := false;
    while !done
      invariant reader.Valid()
      invariant !done ==> var rest := Upload(reader.src, client.faults, filePath, tmp, maxChunks, appendTo, reader.pos, client.State());
        rest.err == spec.err && rest.pos == spec.pos && rest.host == spec.host
      invariant done ==> spec.err.None? && reader.pos == spec.pos && client.State() == spec.host
      decreases |reader.src.data| - reader.pos, !done
    {
      var e;
      done, e := UploadChunks(client, filePath, tmp, maxChunks, appendTo, reader);
      if e.Some? {
        return e;
      }
    }
    return None;
  }

  // ---- what a run sends ----

  /** The chunk texts a reader at pos yields with a buffer of size bytes, in
      order: each is the encoding of the next full buffer, the last one of
      what remains. */
  function Chunks(data: seq<Byte>, size: nat, pos: nat): (cs: seq<seq<Byte>>)
    requires size > 0 && pos <= |data|
    ensures |cs| == 0 <==> pos == |data|
    decreases |data| - pos
  {
    if pos == |data| then []
    else
      var n := Min(size, |data| - pos);
      [Encode(data[pos..pos + n])] + Chunks(data, size, pos + n)
  }

  /** The texts of a list of chunks written one after another. */
  function Concat<T>(xss: seq<seq<T>>): (r: seq<T>)
    ensures |xss| == 1 ==> r == xss[0]
    decreases |xss|
  {
    if |xss| == 0 then [] else xss[0] + Concat(xss[1..])
  }

  /** The way a healthy run divides the chunks over sessions: b to a session,
      and a last session with the rest, empty when b divides the count. */
  function Split<T>(xs: seq<T>, b: nat): (r: seq<seq<T>>)
    requires b >= 1
    ensures |r| >= 1
    decreases |xs|
  {
    if |xs| < b then [xs] else [xs[..b]] + Split(xs[b..], b)
  }

  function Last<T>(xs: seq<T>): T
    requires |xs| > 0
  {
    xs[|xs| - 1]
  }

  /** What the temp file holds before a session's first chunk: its old content
      when the writer appends, nothing otherwise. */
  function StartText(fs: FileSystem, tmp: Path, appendTo: bool): seq<Byte>
  {
    if appendTo && tmp in fs && fs[tmp].File? then fs[tmp].data else []
  }

  lemma {:induction false} ConcatAppend<T>(xss: seq<seq<T>>, yss: seq<seq<T>>)
    ensures Concat(xss + yss) == Concat(xss) + Concat(yss)
    decreases |xss|
  {
    if |xss| == 0 {
      assert xss + yss == yss;
    } else {
      assert (xss + yss)[1..] == xss[1..] + yss;
      ConcatAppend(xss[1..], yss);
    }
  }

  /** The shape of the division into sessions: every session but the last
      holds b chunks, the last fewer than b (the remainder), and together they
      give back the whole sequence. */
  lemma {:induction false} SplitShape<T>(xs: seq<T>, b: nat)
    requires b >= 1
    ensures var r := Split(xs, b);
      && (|r| - 1) * b + |Last(r)| == |xs|
      && (forall j :: 0 <= j < |r| - 1 ==> |r[j]| == b)
      && |Last(r)| < b
      && Concat(r) == xs
    decreases |xs|
  {
    if |xs| >= b {
      var rest := Split(xs[b..], b);
      SplitShape(xs[b..], b);
      var r := Split(xs, b);
      assert r == [xs[..b]] + rest;
      assert r[1..] == rest;
      assert Last(r) == Last(rest);
      MulStep(|rest| - 1, b);
      assert xs[..b] + xs[b..] == xs;
    }
  }

  /** Written one after another, the chunks are the encoding of the whole
      remaining data: every chunk but the last covers a whole number of 3-byte
      groups, so no padding falls inside the text. */
  lemma {:induction false} ChunksConcat(data: seq<Byte>, size: nat, pos: nat)
    requires size > 0 && size % 3 == 0 && pos <= |data|
    ensures Concat(Chunks(data, size, pos)) == Encode(data[pos..])
    decreases |data| - pos
  {
    if pos < |data| {
      var next: nat := pos + Min(size, |data| - pos);
      var head: seq<Byte> := data[pos..next];
      ChunksUnfold(data, size, pos);
      ChunksConcat(data, size, next);
      ConcatCons(Encode(head), Chunks(data, size, next));
      if size <= |data| - pos {
        assert next == pos + size;
        FullChunkThenRest(data, size, pos, next, head);
      } else {
        LastChunk(data, size, pos, next, head);
      }
    }
  }

  /** The first chunk, then the chunks from where it ends. */
  lemma ChunksUnfold(data: seq<Byte>, size: nat, pos: nat)
    requires size > 0 && pos < |data|
    ensures var next := pos + Min(size, |data| - pos);
      Chunks(data, size, pos) == [Encode(data[pos..next])] + Chunks(data, size, next)
  {
  }

  lemma ConcatCons<T>(x: seq<T>, xss: seq<seq<T>>)
    ensures Concat([x] + xss) == x + Concat(xss)
  {
    assert ([x] + xss)[1..] == xss;
  }

  /** The last chunk holds everything from pos on. */
  lemma LastChunk(data: seq<Byte>, size: nat, pos: nat, next: nat, head: seq<Byte>)
    requires size > 0 && next == |data| && pos <= next && head == data[pos..next]
    ensures Encode(data[pos..]) == Encode(head) + Concat(Chunks(data, size, next))
  {
    assert head == data[pos..];
    assert Concat(Chunks(data, size, next)) == [];
  }

  /** A chunk of whole groups encodes apart from what follows it. */
  lemma FullChunkThenRest(data: seq<Byte>, size: nat, pos: nat, next: nat, head: seq<Byte>)
    requires size % 3 == 0 && next == pos + size && next <= |data| && head == data[pos..next]
    ensures Encode(data[pos..]) == Encode(head) + Encode(data[next..])
  {
    var tail: seq<Byte> := data[next..];
    assert data[pos..] == head + tail;
    EncodeAppend(head, tail);
  }

  /** The number of chunks is the remaining length divided by the buffer size,
      rounded up: the chunks but the last are full, and the last is not empty. */
  lemma {:induction false} ChunkCount(data: seq<Byte>, size: nat, pos: nat)
    requires size > 0 && pos <= |data|
    ensures CeilingOf(|Chunks(data, size, pos)|, size, |data| - pos)
    decreases |data| - pos
  {
    var rem: nat := |data| - pos;
    if rem > 0 {
      var next: nat := pos + Min(size, rem);
      ChunksUnfold(data, size, pos);
      var k: nat := |Chunks(data, size, next)|;
      assert |Chunks(data, size, pos)| == k + 1;
      if rem <= size {
        assert k == 0;
        CeilingOfOne(size, rem);
      } else {
        ChunkCount(data, size, next);
        CeilingOfNext(k, size, rem);
      }
    }
  }


  /** k is rem / size rounded up. */
  predicate CeilingOf(k: nat, size: nat, rem: nat)
  {
    k * size - size < rem <= k * size
  }

  lemma CeilingOfOne(size: nat, rem: nat)
    requires 0 < rem <= size
    ensures CeilingOf(1, size, rem)
  {
  }

  lemma CeilingOfNext(k: nat, size: nat, rem: nat)
    requires size < rem && CeilingOf(k, size, rem - size)
    ensures CeilingOf(k + 1, size, rem)
  {
    MulStep(k, size);
  }

  lemma MulStep(k: int, m: int)
    ensures (k + 1) * m == k * m + m && (k - 1) * m == k * m - m
  {
  }

  /** Every chunk fits the command: for a path of at most 7996 characters the
      encoding of each chunk is at most 8000 - len(filePath) characters long. */
  lemma ChunksFit(data: seq<Byte>, pathLen: nat, pos: nat)
    requires pathLen <= 7996 && pos <= |data|
    ensures var size := ChunkSize(pathLen);
      size > 0 &&
      var cs := Chunks(data, size, pos);
      forall j :: 0 <= j < |cs| ==> 0 < |cs[j]| <= CommandLimit - pathLen
  {
    ChunkSizeSign(pathLen);
    FullChunkFits(pathLen);
    ChunksWithin(data, ChunkSize(pathLen), pos, CommandLimit - pathLen);
  }

  lemma {:induction false} ChunksWithin(data: seq<Byte>, size: nat, pos: nat, limit: int)
    requires size > 0 && pos <= |data| && EncodedLength(size) <= limit
    ensures var cs := Chunks(data, size, pos);
      forall j :: 0 <= j < |cs| ==> 0 < |cs[j]| <= limit
    decreases |data| - pos
  {
    if pos < |data| {
      var next: nat := pos + Min(size, |data| - pos);
      var chunk: seq<Byte> := data[pos..next];
      ChunksUnfold(data, size, pos);
      ChunksWithin(data, size, next, limit);
      EncodeLength(chunk);
      EncodedLengthMonotone(|chunk|, size);
      ConsWithin(Encode(chunk), Chunks(data, size, next), limit);
    }
  }

  lemma ConsWithin<T>(x: seq<T>, xss: seq<seq<T>>, limit: int)
    requires 0 < |x| <= limit && forall j :: 0 <= j < |xss| ==> 0 < |xss[j]| <= limit
    ensures var ys := [x] + xss;
      forall j :: 0 <= j < |ys| ==> 0 < |ys[j]| <= limit
  {
  }


  /** Every chunk but the last ends without padding, so the concatenated text
      still decodes as one line. */
  lemma {:induction false} ChunksUnpadded(data: seq<Byte>, size: nat, pos: nat)
    requires size > 0 && size % 3 == 0 && pos <= |data|
    ensures var cs := Chunks(data, size, pos);
      forall j, k :: 0 <= j < |cs| - 1 && 0 <= k < |cs[j]| ==> cs[j][k] != Pad
    decreases |data| - pos
  {
    if pos < |data| {
      var next: nat := pos + Min(size, |data| - pos);
      var head: seq<Byte> := data[pos..next];
      ChunksUnfold(data, size, pos);
      ChunksUnpadded(data, size, next);
      if next < |data| {
        assert |head| == size;
        EncodeUnpadded(head);
      }
      ConsUnpadded(Encode(head), Chunks(data, size, next));
    }
  }

  lemma ConsUnpadded(x: seq<Byte>, xss: seq<seq<Byte>>)
    requires |xss| > 0 ==> forall k :: 0 <= k < |x| ==> x[k] != Pad
    requires forall j, k :: 0 <= j < |xss| - 1 && 0 <= k < |xss[j]| ==> xss[j][k] != Pad
    ensures var ys := [x] + xss;
      forall j, k :: 0 <= j < |ys| - 1 && 0 <= k < |ys[j]| ==> ys[j][k] != Pad
  {
    var ys := [x] + xss;
    forall j, k | 0 <= j < |ys| - 1 && 0 <= k < |ys[j]|
      ensures ys[j][k] != Pad
    {
      if j > 0 {
        assert ys[j] == xss[j - 1];
      }
    }
  }


  // ---- a healthy run ----

  /** What the chunk loop from iteration i of budget did on a healthy host,
      started at pos with the temp file holding t: it sent the next
      budget - i chunks, or all that remain, each appended to the temp file in
      order; it stopped on the reader's end (Exhausted, or the read error of a
      failing source) when fewer remained, and spent its budget otherwise. */
  predicate LoopSends(src: Source, size: nat, budget: nat, i: nat, pos: nat, h: Host, tmp: Path, t: seq<Byte>, r: LoopOut)
    requires size > 0 && pos <= |src.data| && i <= budget
  {
    LoopTakes(src, size, budget, i, pos, r) && r.host == h.(fs := h.fs[tmp := File(t + Concat(r.sent))], ran := h.ran + |r.sent|)
  }

  /** How the loop ended and which chunks it sent; see LoopSends. */
  predicate LoopTakes(src: Source, size: nat, budget: nat, i: nat, pos: nat, r: LoopOut)
    requires size > 0 && pos <= |src.data| && i <= budget
  {
    var cs := Chunks(src.data, size, pos);
    && (|cs| < budget - i ==>
          r.end == (if src.fails then Stopped(ReadFailed) else Exhausted) && r.pos == |src.data| && r.sent == cs)
    && (|cs| >= budget - i ==>
          r.end == BudgetSpent && r.pos <= |src.data| && r.sent == cs[..budget - i]
          && Chunks(src.data, size, r.pos) == cs[budget - i..])
  }

  /** On a healthy host an append to a file adds the text to its end. */
  lemma HealthyAppend(f: Faults, h: Host, tmp: Path, t: seq<Byte>, text: seq<Byte>)
    requires Healthy(f) && tmp in h.fs && h.fs[tmp] == File(t)
    ensures Run(f, h, WriteStream(tmp, text)) == (0, h.(fs := h.fs[tmp := File(t + text)], ran := h.ran + 1))
  {
    assert f.runFails(h.ran) == 0;
  }

  /** One chunk sent ahead of what the rest of the loop sends. */
  lemma LoopSendsStep(src: Source, size: nat, budget: nat, i: nat, pos: nat, h: Host, tmp: Path, t: seq<Byte>,
                      n: nat, text: seq<Byte>, i': nat, pos': nat, h': Host, t': seq<Byte>, rest: LoopOut, r: LoopOut)
    requires size > 0 && pos < |src.data| && i < budget && n == Min(size, |src.data| - pos)
    requires i' == i + 1 && pos' == pos + n && text == Encode(src.data[pos..pos']) && t' == t + text
    requires tmp in h.fs && h' == h.(fs := h.fs[tmp := File(t')], ran := h.ran + 1)
    requires LoopSends(src, size, budget, i', pos', h', tmp, t', rest)
    requires r == rest.(sent := [text] + rest.sent)
    ensures LoopSends(src, size, budget, i, pos, h, tmp, t, r)
  {
    LoopTakesStep(src, size, budget, i, pos, n, text, i', pos', rest, r);
    var c: seq<Byte> := Concat(rest.sent);
    assert r.sent[1..] == rest.sent;
    assert Concat(r.sent) == text + c;
    var whole: seq<Byte> := t + Concat(r.sent);
    assert whole == t' + c;
    assert h'.fs[tmp := File(t' + c)] == h.fs[tmp := File(whole)];
  }

  lemma LoopTakesStep(src: Source, size: nat, budget: nat, i: nat, pos: nat, n: nat, text: seq<Byte>,
                      i': nat, pos': nat, rest: LoopOut, r: LoopOut)
    requires size > 0 && pos < |src.data| && i < budget && n == Min(size, |src.data| - pos)
    requires i' == i + 1 && pos' == pos + n && text == Encode(src.data[pos..pos'])
    requires LoopTakes(src, size, budget, i', pos', rest)
    requires r == rest.(sent := [text] + rest.sent)
    ensures LoopTakes(src, size, budget, i, pos, r)
  {
    var cs := Chunks(src.data, size, pos);
    var tail := Chunks(src.data, size, pos');
    var k: nat := budget - i';
    assert cs == [text] + tail;
    if |tail| >= k {
      assert cs[..k + 1] == [text] + tail[..k];
      assert cs[k + 1..] == tail[k..];
    }
  }

  /** The chunk loop on a healthy host: see LoopSends. */
  lemma {:induction false} ChunkLoopHealthy(src: Source, f: Faults, tmp: Path, size: nat, budget: nat, i: nat,
                                            pos: nat, h: Host, t: seq<Byte>)
    requires Healthy(f) && size > 0 && pos <= |src.data| && i <= budget
    requires tmp in h.fs && h.fs[tmp] == File(t)
    ensures LoopSends(src, size, budget, i, pos, h, tmp, t, ChunkLoop(src, f, tmp, size, budget, i, pos, h))
    decreases budget - i
  {
    var r := ChunkLoop(src, f, tmp, size, budget, i, pos, h);
    if i == budget || pos == |src.data| {
      assert t + Concat(r.sent) == t;
      assert h.fs[tmp := File(t)] == h.fs;
    } else {
      var n: nat := Min(size, |src.data| - pos);
      var text: seq<Byte> := Encode(src.data[pos..pos + n]);
      var t': seq<Byte> := t + text;
      var i': nat := i + 1;
      var pos': nat := pos + n;
      var h': Host := h.(fs := h.fs[tmp := File(t')], ran := h.ran + 1);
      HealthyAppend(f, h, tmp, t, text);
      ChunkLoopStep(src, f, tmp, size, budget, i, pos, h, n, text, i', pos', h');
      var rest := ChunkLoop(src, f, tmp, size, budget, i', pos', h');
      ChunkLoopHealthy(src, f, tmp, size, budget, i', pos', h', t');
      LoopSendsStep(src, size, budget, i, pos, h, tmp, t, n, text, i', pos', h', t', rest, r);
    }
  }


  /** On a healthy host a session opens its shell and its stream, with the
      temp file then holding the start text, and the rest is its chunk loop. */
  lemma SessionOpens(src: Source, f: Faults, filePath: string, tmp: Path, maxChunks: nat, appendTo: bool,
                     pos: nat, h: Host, size: nat, t: seq<Byte>, h2: Host)
    requires Healthy(f) && pos <= |src.data|
    requires (tmp !in h.fs || h.fs[tmp].File?) && Placeable(h.fs, tmp)
    requires size == ChunkSize(|filePath|) && t == StartText(h.fs, tmp, appendTo)
    requires h2 == Host(h.fs[tmp := File(t)], h.ran + 1, h.shellsOpened + 1, h.shellsClosed)
    ensures Session(src, f, filePath, tmp, maxChunks, appendTo, pos, h) == Finish(f, ChunkLoop(src, f, tmp, size, Budget(maxChunks), 0, pos, h2))
  {
    assert !f.shellFails(h.shellsOpened);
    var withShell: Host := h.(shellsOpened := h.shellsOpened + 1);
    assert f.runFails(withShell.ran) == 0;
    if appendTo && tmp in h.fs {
      assert h.fs[tmp := File(t)] == h.fs;
    }
    assert OpenWriter(h.fs, tmp, appendTo) == Outcome(h.fs[tmp := File(t)], 0);
    assert Run(f, withShell, OpenStream(tmp, appendTo)) == (0, h2);
    SessionOpened(src, f, filePath, tmp, maxChunks, appendTo, pos, h, size, h2);
  }

  /** A session whose shell and stream writer opened is its chunk loop,
      followed by the teardown. */
  lemma SessionOpened(src: Source, f: Faults, filePath: string, tmp: Path, maxChunks: nat, appendTo: bool,
                      pos: nat, h: Host, size: nat, h': Host)
    requires pos <= |src.data| && !f.shellFails(h.shellsOpened) && size == ChunkSize(|filePath|)
    requires Run(f, h.(shellsOpened := h.shellsOpened + 1), OpenStream(tmp, appendTo)) == (0, h')
    ensures Session(src, f, filePath, tmp, maxChunks, appendTo, pos, h) == Finish(f, ChunkLoop(src, f, tmp, size, Budget(maxChunks), 0, pos, h'))
  {
    var loop: LoopOut := ChunkLoop(src, f, tmp, size, Budget(maxChunks), 0, pos, h');
    assert Session(src, f, filePath, tmp, maxChunks, appendTo, pos, h) == Finish(f, loop);
  }

  /** What a session did on a healthy host: the same as its chunk loop (see
      LoopSends), with done reported exactly when the loop saw the end of a
      source that does not fail. */
  predicate SessionSends(src: Source, size: nat, b: nat, pos: nat, fs: FileSystem, tmp: Path, t: seq<Byte>, r: SessionOut)
  {
    size > 0 && pos <= |src.data| &&
    var cs := Chunks(src.data, size, pos);
    && (|cs| < b ==>
          r.done == !src.fails && r.err == (if src.fails then Some(ReadFailed) else None)
          && r.pos == |src.data| && r.sent == cs)
    && (|cs| >= b ==>
          !r.done && r.err == None && r.pos <= |src.data| && r.sent == cs[..b] && Chunks(src.data, size, r.pos) == cs[b..])
    && r.host.fs == fs[tmp := File(t + Concat(r.sent))]
  }

  /** A session on a healthy host: it appends the next Budget(maxChunks)
      chunks to the temp file, or all that remain, reporting done when it saw
      the end of the source, the read error when the source fails there, and
      neither when it spent its budget. */
  lemma SessionHealthy(src: Source, f: Faults, filePath: string, tmp: Path, maxChunks: nat, appendTo: bool,
                       pos: nat, h: Host)
    requires Healthy(f) && |filePath| <= 7996 && pos <= |src.data|
    requires (tmp !in h.fs || h.fs[tmp].File?) && Placeable(h.fs, tmp)
    ensures SessionSends(src, ChunkSize(|filePath|), Budget(maxChunks), pos, h.fs, tmp, StartText(h.fs, tmp, appendTo),
                         Session(src, f, filePath, tmp, maxChunks, appendTo, pos, h))
  {
    ChunkSizeSign(|filePath|);
    var size: nat := ChunkSize(|filePath|);
    var b: nat := Budget(maxChunks);
    var t: seq<Byte> := StartText(h.fs, tmp, appendTo);
    var h2: Host := Host(h.fs[tmp := File(t)], h.ran + 1, h.shellsOpened + 1, h.shellsClosed);
    SessionOpens(src, f, filePath, tmp, maxChunks, appendTo, pos, h, size, t, h2);
    var loop := ChunkLoop(src, f, tmp, size, b, 0, pos, h2);
    ChunkLoopHealthy(src, f, tmp, size, b, 0, pos, h2, t);
    LoopMakesSession(src, f, size, b, pos, h.fs, h2, tmp, t, loop);
  }

  /** A session's outcome from its chunk loop's. */
  lemma LoopMakesSession(src: Source, f: Faults, size: nat, b: nat, pos: nat, fs: FileSystem, h2: Host, tmp: Path,
                         t: seq<Byte>, loop: LoopOut)
    requires size > 0 && pos <= |src.data| && h2.fs == fs[tmp := File(t)]
    requires LoopSends(src, size, b, 0, pos, h2, tmp, t, loop)
    ensures SessionSends(src, size, b, pos, fs, tmp, t, Finish(f, loop))
  {
    var r := Finish(f, loop);
    var text: seq<Byte> := t + Concat(r.sent);
    assert h2.fs[tmp := File(text)] == fs[tmp := File(text)];
  }

  /** What the temp file holds after a healthy upload: with an appending
      writer its start text followed by every chunk; with a truncating writer
      only the chunks of the last session. */
  function FinalText(fs: FileSystem, tmp: Path, appendTo: bool, cs: seq<seq<Byte>>, b: nat): seq<Byte>
    requires b >= 1
  {
    if appendTo then StartText(fs, tmp, true) + Concat(cs) else Concat(Last(Split(cs, b)))
  }

  /** What a whole upload did on a healthy host: it opened one session per
      part of Split(chunks, b), in order; it read the source to its end; it
      ends with the source's read error if the source fails, with no error
      otherwise; and only the temp file changed, to FinalText. */
  predicate UploadSends(src: Source, size: nat, b: nat, pos: nat, fs: FileSystem, tmp: Path, appendTo: bool, u: UploadOut)
  {
    size > 0 && b >= 1 && pos <= |src.data| &&
    var cs := Chunks(src.data, size, pos);
    && u.sessions == Split(cs, b)
    && u.err == (if src.fails then Some(ReadFailed) else None)
    && u.pos == |src.data|
    && u.host.fs == fs[tmp := File(FinalText(fs, tmp, appendTo, cs, b))]
  }

  /** uploadContent on a healthy host; see UploadSends. */
  lemma {:induction false} UploadHealthy(src: Source, f: Faults, filePath: string, tmp: Path, maxChunks: nat, appendTo: bool,
                                         pos: nat, h: Host)
    requires Healthy(f) && |filePath| <= 7996 && pos <= |src.data|
    requires (tmp !in h.fs || h.fs[tmp].File?) && Placeable(h.fs, tmp)
    ensures UploadSends(src, ChunkSize(|filePath|), Budget(maxChunks), pos, h.fs, tmp, appendTo,
                        Upload(src, f, filePath, tmp, maxChunks, appendTo, pos, h))
    decreases |src.data| - pos
  {
    ChunkSizeSign(|filePath|);
    var size: nat := ChunkSize(|filePath|);
    var b: nat := Budget(maxChunks);
    var t: seq<Byte> := StartText(h.fs, tmp, appendTo);
    var s := Session(src, f, filePath, tmp, maxChunks, appendTo, pos, h);
    SessionHealthy(src, f, filePath, tmp, maxChunks, appendTo, pos, h);
    var u := Upload(src, f, filePath, tmp, maxChunks, appendTo, pos, h);
    if |Chunks(src.data, size, pos)| < b {
      assert u == UploadOut(s.err, s.pos, s.host, [s.sent]);
      LastSession(src, size, b, pos, h.fs, tmp, appendTo, t, s, u);
    } else {
      var rest := Upload(src, f, filePath, tmp, maxChunks, appendTo, s.pos, s.host);
      assert u == rest.(sessions := [s.sent] + rest.sessions);
      assert Placeable(s.host.fs, tmp) by { assert Parent(tmp) != tmp; }
      UploadHealthy(src, f, filePath, tmp, maxChunks, appendTo, s.pos, s.host);
      UploadSendsStep(src, size, b, pos, h.fs, tmp, appendTo, t, s, rest, u);
    }
  }

  /** A session that saw the end of the source is the last one. */
  lemma LastSession(src: Source, size: nat, b: nat, pos: nat, fs: FileSystem, tmp: Path, appendTo: bool, t: seq<Byte>,
                    s: SessionOut, u: UploadOut)
    requires size > 0 && b >= 1 && pos <= |src.data| && t == StartText(fs, tmp, appendTo)
    requires SessionSends(src, size, b, pos, fs, tmp, t, s) && |Chunks(src.data, size, pos)| < b
    requires u == UploadOut(s.err, s.pos, s.host, [s.sent])
    ensures UploadSends(src, size, b, pos, fs, tmp, appendTo, u)
  {
    var cs := Chunks(src.data, size, pos);
    assert Split(cs, b) == [cs];
    assert Last([cs]) == cs;
    if !appendTo {
      assert t + Concat(cs) == Concat(cs);
    }
  }

  /** A session that spent its budget is followed by the rest of the upload. */
  lemma UploadSendsStep(src: Source, size: nat, b: nat, pos: nat, fs: FileSystem, tmp: Path, appendTo: bool, t: seq<Byte>,
                        s: SessionOut, rest: UploadOut, u: UploadOut)
    requires size > 0 && b >= 1 && pos <= |src.data| && t == StartText(fs, tmp, appendTo)
    requires SessionSends(src, size, b, pos, fs, tmp, t, s) && |Chunks(src.data, size, pos)| >= b
    requires s.pos <= |src.data| && UploadSends(src, size, b, s.pos, s.host.fs, tmp, appendTo, rest)
    requires u == rest.(sessions := [s.sent] + rest.sessions)
    ensures UploadSends(src, size, b, pos, fs, tmp, appendTo, u)
  {
    var cs := Chunks(src.data, size, pos);
    var head: seq<seq<Byte>> := cs[..b];
    var tail: seq<seq<Byte>> := cs[b..];
    assert Split(cs, b) == [head] + Split(tail, b);
    var fs1: FileSystem := s.host.fs;
    assert head + tail == cs;
    FinalTextStep(fs, fs1, tmp, appendTo, t, head, tail, cs, b);
    var last: seq<Byte> := FinalText(fs1, tmp, appendTo, tail, b);
    assert fs1[tmp := File(last)] == fs[tmp := File(last)];
  }

  /** The temp file's final text, seen from after the first session. */
  lemma FinalTextStep(fs: FileSystem, fs1: FileSystem, tmp: Path, appendTo: bool, t: seq<Byte>,
                      head: seq<seq<Byte>>, tail: seq<seq<Byte>>, cs: seq<seq<Byte>>, b: nat)
    requires b >= 1 && |head| == b && cs == head + tail && t == StartText(fs, tmp, appendTo)
    requires fs1 == fs[tmp := File(t + Concat(head))]
    ensures FinalText(fs1, tmp, appendTo, tail, b) == FinalText(fs, tmp, appendTo, cs, b)
  {
    if appendTo {
      assert StartText(fs1, tmp, true) == t + Concat(head);
      ConcatAfter(t, head, tail);
    } else {
      SplitFull(cs, b, head, tail);
    }
  }

  /** The texts of head then tail, after t. */
  lemma ConcatAfter<T>(t: seq<T>, head: seq<seq<T>>, tail: seq<seq<T>>)
    ensures (t + Concat(head)) + Concat(tail) == t + Concat(head + tail)
  {
    ConcatAppend(head, tail);
  }

  /** Past the first full part, the last part of a split is the same. */
  lemma SplitFull<T>(cs: seq<T>, b: nat, head: seq<T>, tail: seq<T>)
    requires b >= 1 && |head| == b && cs == head + tail
    ensures Last(Split(cs, b)) == Last(Split(tail, b))
  {
    assert cs[..b] == head && cs[b..] == tail;
    var rest := Split(tail, b);
    assert Split(cs, b) == [head] + rest;
    assert ([head] + rest)[|rest|] == rest[|rest| - 1];
  }
}
