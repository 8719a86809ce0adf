# winrmcp copy core, modelled in Dafny

winrmcp copies a byte stream to a Windows host using only remote commands.
`doCopy` works in three phases:

1. It names a temporary file after a uuid.
2. It uploads the source into that file. The source is split into chunks
   sized to fit the command-line limit. Each chunk is base64-encoded and
   appended through a PowerShell `StreamWriter`. A new shell opens after at
   most max(`MaxOperationsPerShell`, 1) chunks.
3. It runs a restore script that decodes the temp file into the destination,
   then a cleanup script that removes the temp file.

The first phase that fails ends the copy. Its error is wrapped in that phase's
context, and a nonzero exit code becomes an error that carries the code.

The model follows `winrmcp/cp.go` file by file:

- `errors.dfy` (module `Errors`): the errors and the exit-code mapping. It also
  holds the decimal text of a code, so the code can be read back from the
  message.
- `base64.dfy` (module `Base64`): standard padded base64, section 4 of
  RFC 4648. It has an encoder, a strict decoder, the .NET decoder that skips
  whitespace before decoding strictly, and their round trips. It also proves
  that padding followed by more text does not decode.
- `chunking.dfy` (module `Chunking`): the chunk size
  `((8000 - len(filePath)) / 4) * 3`, using Go's truncating division, and the
  chunk budget.
- `naming.dfy` (module `Naming`): `tempVariable` and `tempFileName`. The uuid
  text is an input.
- `filesystem.dfy` (module `FileSystem`): the host's filesystem as a map from
  path to directory or file. A one-component path is a drive. No command
  creates a drive. Any other entry can only be made inside a directory. A
  filesystem is well formed when every entry is a drive directory or sits in
  a directory. The module covers `New-Item -Force` directory creation, which
  stops silently at a file or at a missing drive, and splitting a file into
  lines.
- `scripts.dfy` (module `Scripts`): what each remote command does to the
  filesystem and the exit code it ends with. This covers the stream-writer
  commands, the restore script and the cleanup script.
- `remote.dfy`:
  - module `Remote`: the remote capability as a `Client` class that opens and
    closes shells and executes commands. Which shells and commands fail is a
    `Faults` parameter.
  - module `Source`: the `io.Reader` as a `Reader` class with a position.
- `upload.dfy` (module `Upload`): `uploadChunks` and `uploadContent`.
  - The methods `UploadContent`, `UploadChunks`, `StreamChunks`, `SendChunks`
    and `SendChunk` run on the client and the reader. Each is proved equal to
    one of the specification functions `Upload`, `Session` and `ChunkLoop`.
  - Lemmas describe those functions over all inputs: which chunks are sent,
    how they are divided over sessions, and what the temp file ends up
    holding.
- `copy.dfy` (module `Copy`): `doCopy`, `restoreContent` and
  `cleanupContent`.
  - These are the methods `DoCopy`, `RestoreContent` and `CleanupContent`.
    Their specifications are `CopyOutcome` and `RunInShell`.
  - Lemmas cover the end-to-end round trip and the failure orderings.

## Model

| member | source | states |
|---|---|---|
| Errors.CheckExit | winrmcp/cp.go:187-189 | A nonzero exit code of an operation becomes the error "<op> operation returned code=<n>"; code 0 is no error. Its meaning is stated by CheckExitMeaning. |
| Errors.Message | winrmcp/cp.go:187-189 | The text of an error: the operation and code for an exit code, and each wrapping context followed by ": " and the cause. Its properties are MessageEndsWithCode and ExitMessageCarriesCode. |
| Errors.CheckExitMeaning | winrmcp/cp.go:187-190 | An exit code gives no error exactly when it is 0. A nonzero code gives an error that carries that code. |
| Errors.MessageEndsWithCode | winrmcp/cp.go:252-255 | Wrapping an exit-code error in any number of fmt.Errorf contexts keeps "code=<n>" at the end of its message. |
| Errors.ExitMessageCarriesCode | winrmcp/cp.go:226-229 | The message of a failed operation is "<op> operation returned code=". The rest of it parses back to exactly the exit code. |
| Errors.DecimalRoundTrip | winrmcp/cp.go:188 | The "%d" text of any integer, negative ones included, parses back to that integer. |
| Errors.DigitsRoundTrip | winrmcp/cp.go:188 | The decimal digits of a natural number parse back to it. |
| Base64.Encode | winrmcp/cp.go:113 | The standard padded base64 encoding that `base64.StdEncoding.EncodeToString` produces. Its inverse is Decode, by DecodeEncode. |
| Base64.Decode | winrmcp/cp.go:155 | The strict decoding `FromBase64String` applies once whitespace is removed: text of a length that is not a multiple of 4, a character outside the alphabet or padding before the end is rejected. |
| Base64.StripWhitespace | winrmcp/cp.go:155 | Removes the space, tab, CR and LF characters `FromBase64String` skips; what remains holds no whitespace and is no longer than the input. |
| Base64.FromBase64 | winrmcp/cp.go:155 | `[System.Convert]::FromBase64String`: whitespace anywhere is skipped and the rest is decoded strictly. Its properties are FromBase64Encode and FromBase64SkipsWhitespace. |
| Base64.StripWhitespaceKeepsClean | winrmcp/cp.go:155 | Text without whitespace is unchanged by the skipping. |
| Base64.StripWhitespaceAppend | winrmcp/cp.go:155 | Skipping whitespace distributes over concatenation. |
| Base64.FromBase64Encode | winrmcp/cp.go:113-155 | `FromBase64String` gives back exactly the bytes the Go encoder encoded. |
| Base64.FromBase64SkipsWhitespace | winrmcp/cp.go:155 | A whitespace character anywhere in a line does not change what the line decodes to. |
| Base64.FromBase64TrailingSpace | winrmcp/cp.go:155 | "QQ==" followed by a space decodes to the one byte 'A'. |
| Base64.EncodeLength | winrmcp/cp.go:74-77 | The encoding of n bytes is 4·⌈n/3⌉ characters long. |
| Base64.DecodeEncode | winrmcp/cp.go:113 | Decoding the encoding of any byte sequence gives back exactly that sequence. |
| Base64.EncodeUnpadded | winrmcp/cp.go:74-75 | Bytes whose count is a multiple of 3 encode with no '=' padding. |
| Base64.EncodeAppend | winrmcp/cp.go:113 | Take a first part whose length is a multiple of 3. The encoding of it followed by a second part equals the two encodings concatenated. |
| Base64.EncodeHasNoWhitespace | winrmcp/cp.go:152-157 | An encoding contains no whitespace, in particular no CR or LF, so the restore loop reads it as one line and nothing in it is skipped. |
| Base64.PaddedThenMoreFails | winrmcp/cp.go:155 | A padded encoding followed by more encoded text is rejected by the decoder. This is why only the last chunk may be padded. |
| Base64.ValueInvertsSymbol | winrmcp/cp.go:113 | The alphabet's symbol for each 6-bit value maps back to that value, and only that symbol does. |
| Base64.GroupRoundTrip | winrmcp/cp.go:113 | Three bytes encode to a quad that decodes back to them. |
| Base64.TwoRoundTrip | winrmcp/cp.go:113 | Two trailing bytes round-trip through their "="-padded quad. |
| Base64.OneRoundTrip | winrmcp/cp.go:113 | One trailing byte round-trips through its "=="-padded quad. |
| Chunking.ChunkFitsBudget | winrmcp/cp.go:73-84 | For a path of at most 7996 characters, the chunk size is positive and a multiple of 3. Every chunk of at most that size encodes to at most 8000 − len(filePath) characters. |
| Chunking.ChunkSizeSign | winrmcp/cp.go:84-85 | The chunk size is positive exactly for paths of at most 7996 characters. It is zero for 7997–8003 and negative from 8004 on. |
| Chunking.FullChunkFits | winrmcp/cp.go:77-84 | A full chunk's encoded length is within the command budget. |
| Chunking.Budget | winrmcp/cp.go:87-89 | maxChunks 0 is raised to 1, so the budget is always at least 1. |
| Chunking.ChunkSize | winrmcp/cp.go:84 | Three bytes per four base64 characters that fit in 8000 − len(filePath), with Go's truncating division. Its properties are ChunkSizeSign, ChunkFitsBudget and FullChunkFits. |
| Chunking.GoDiv | winrmcp/cp.go:84 | Go's division truncates toward zero: for a non-negative dividend q·b is the largest multiple of b not above it, and for a negative one the smallest not below it. |
| Naming.TempVariable | winrmcp/cp.go:315-325 | The prefix followed by the uuid text with its dashes removed, or the uuid generator's error. Its properties are TempVariableShape and TempVariableInjective. |
| Naming.TempFileName | winrmcp/cp.go:327-334 | "winrmcp-", the uuid text and ".tmp", or the uuid generator's error. Its properties are TempFileNameShape and NamesNeedUuid. |
| Naming.TempVariableShape | winrmcp/cp.go:315-325 | The variable name starts with the prefix. The rest is the uuid text with no dash. |
| Naming.RemoveDashes | winrmcp/cp.go:323 | Removing dashes yields text no longer than the input and containing no '-'. |
| Naming.RemoveDashesAppend | winrmcp/cp.go:323 | Removing dashes distributes over concatenation. |
| Naming.RemoveDashesKeepsDashFree | winrmcp/cp.go:323 | Dash-free text is left unchanged. |
| Naming.UuidWithoutDashes | winrmcp/cp.go:316-323 | A canonical 8-4-4-4-12 uuid loses exactly its four separators. |
| Naming.TempVariableInjective | winrmcp/cp.go:315-325 | Distinct canonical uuids give distinct variable names. |
| Naming.TempFileNameShape | winrmcp/cp.go:327-334 | The file name is "winrmcp-", then the uuid, then ".tmp". Distinct uuids give distinct names. |
| Naming.NamesNeedUuid | winrmcp/cp.go:316-319 | Each name is an error exactly when uuid generation failed. |
| FileSystem.MakeDirsKeeps | winrmcp/cp.go:143-146 | Creating directories keeps every existing entry unchanged. |
| FileSystem.MakeDirsOnlyOnTheWay | winrmcp/cp.go:143-146 | Every new entry is a directory on the way to the target directory. |
| FileSystem.MakeDirs | winrmcp/cp.go:145 | `New-Item -ItemType directory -Force` creates the missing directories on the way to the target, top down. It silently creates nothing beneath a file or on a drive that does not exist. |
| FileSystem.MakeDirsCreates | winrmcp/cp.go:143-146 | On an existing drive with no file on the way to the target, afterwards the target and every prefix of it exist as directories. |
| FileSystem.MakeDirsNoDrive | winrmcp/cp.go:145 | On a drive that does not exist, no directory is created. |
| FileSystem.NoDriveNoEntry | winrmcp/cp.go:145-151 | In a well-formed filesystem no entry exists on a drive that does not exist. |
| FileSystem.MakeDirsIdempotent | winrmcp/cp.go:145 | Creating the directories a second time changes nothing. |
| FileSystem.MakeDirsNoop | winrmcp/cp.go:145 | If every directory on the way already exists, nothing changes. |
| FileSystem.MakeDirsUpdate | winrmcp/cp.go:143-146 | Directory creation commutes with an update of a path off the way. |
| FileSystem.MakeDirsKeepsWellFormed | winrmcp/cp.go:145 | Directory creation keeps every entry inside a directory. |
| FileSystem.WellFormedPrefixes | winrmcp/cp.go:145-151 | In a well-formed filesystem every proper prefix of an entry exists and is a directory. |
| FileSystem.PlaceKeepsWellFormed | winrmcp/cp.go:151 | Creating or overwriting a file where its parent is a directory keeps the filesystem well formed. |
| FileSystem.RemoveKeepsWellFormed | winrmcp/cp.go:141 | Removing a file keeps the filesystem well formed. |
| FileSystem.Lines | winrmcp/cp.go:153 | The lines `ReadLine` returns in turn: each ends at CR, LF or CR LF, and a final line without a break is returned too. |
| FileSystem.LinesOfOneLine | winrmcp/cp.go:152-154 | Text without a line break is read as one line, or as none when it is empty. |
| FileSystem.LinesHaveNoBreak | winrmcp/cp.go:153 | No line that ReadLine returns contains a line break. |
| FileSystem.BreakAt | winrmcp/cp.go:153 | A line ends at the first CR or LF, or at the end of the text. |
| Scripts.OpenWriter | winrmcp/cp.go:273 | The `StreamWriter` opens an existing file in append mode as it is and otherwise creates or truncates it; a directory, or a path whose parent is not a directory, fails with exit 1. |
| Scripts.WriteText | winrmcp/cp.go:286-290 | A write appends the text to the open file; with no file to write it fails with exit 1. |
| Scripts.Restore | winrmcp/cp.go:133-166 | The restore script: a destination directory exits with 1; a destination file is removed and an absent one gets its parent directories; the temp file is decoded line by line into the destination, or an empty destination is written when there is no temp file. A temp path that is a directory fails with exit 1, but the destination has been opened, and so created empty, before the failure. Its properties are the Restore lemmas below. |
| Scripts.Cleanup | winrmcp/cp.go:200-205 | The cleanup script removes the temp path if it exists and always ends normally. Its properties are CleanupRemovesTemp. |
| Scripts.DecodeEncodedText | winrmcp/cp.go:148-157 | A temp file holding the encoding of some data decodes, line by line, to exactly that data. |
| Scripts.RestoreDirectoryConflict | winrmcp/cp.go:136-139 | A directory at the destination gives exit 1 and leaves the filesystem unchanged. |
| Scripts.RestorePlaceable | winrmcp/cp.go:140-146 | In a well-formed filesystem, with the destination's drive existing and no file on the way to its parent, the destination can be created once it is cleared. |
| Scripts.RestoreDecodes | winrmcp/cp.go:136-162 | In a well-formed filesystem, with the destination's drive existing and no file on the way to its parent, if the temp file holds encoded data, the destination receives exactly that data with exit 0. An existing file is replaced. An absent destination gets its parent directories. Nothing else changes. |
| Scripts.RestoreWithoutTemp | winrmcp/cp.go:163-165 | In a well-formed filesystem, with the destination's drive existing and no file on the way to its parent, if there is no temp file, the destination is created empty with exit 0 and nothing else changes but the cleared destination. |
| Scripts.RestoreTempDirectory | winrmcp/cp.go:148-161 | A temp path that is a directory makes `OpenText` fail, yet `OpenWrite` still runs: the restore exits with 1 and leaves an empty file at the cleared destination. |
| Scripts.FileBlocksBelow | winrmcp/cp.go:145 | In a well-formed filesystem nothing exists beneath a file. |
| Scripts.RestoreUnderFile | winrmcp/cp.go:145-151 | With a file on the way to the destination, New-Item creates nothing, OpenWrite or `echo` fails, the restore exits with 1 and the destination does not exist. |
| Scripts.RestoreOnMissingDrive | winrmcp/cp.go:143-151 | A destination on a drive that does not exist: New-Item creates nothing, OpenWrite fails, the restore exits with 1 and the filesystem is unchanged. |
| Scripts.RestoreCreatesParent | winrmcp/cp.go:143-146 | On an existing drive with no file on the way, an absent destination gets its parent directory and every directory above it, and creating them again changes nothing. |
| Scripts.RestoreExitCodes | winrmcp/cp.go:136-166 | The restore exits with 0 or 1. It exits with 1 exactly when the destination is a directory, the cleared destination cannot be created because its parent is not a directory (its drive is missing or a file is on the way), the temp path is a directory, or a temp line is not base64. |
| Scripts.RestoreKeepsWellFormed | winrmcp/cp.go:136-166 | The restore keeps every entry inside a directory. |
| Scripts.CleanupRemovesTemp | winrmcp/cp.go:200-205 | Cleanup always exits with 0. It removes the temp file and changes nothing else. With no temp file it changes nothing. A second cleanup is a no-op. |
| Remote.Run | winrmcp/cp.go:232-256 | A command either fails with the forced exit code and no effect, or does what its script does and reports its exit code. Either way it counts as one command run. |
| Remote.Client.CreateShell | winrmcp/cp.go:67-70 | Opening a shell succeeds unless the capability refuses it. Only the count of opened shells changes. |
| Remote.Client.CloseShell | winrmcp/cp.go:71 | Closing a shell only counts the close. |
| Remote.Client.Execute | winrmcp/cp.go:233-255 | Executing a command changes the host exactly as Run says and returns its exit code. |
| Source.ReadAt | winrmcp/cp.go:103-110 | A read returns min(size, remaining) bytes. It returns 0 bytes only at the end or for an empty buffer. It fails only at the end of a failing source. |
| Source.Reader.Read | winrmcp/cp.go:103 | Read fills the front of the buffer with the next bytes of the source and advances the position by the count returned. |
| Upload.ChunkLoop | winrmcp/cp.go:102-123 | The chunk loop from iteration i sends at most budget − i chunks. It ends with BudgetSpent only after exactly budget − i chunks. It never opens or closes a shell. |
| Upload.ChunkLoopStep | winrmcp/cp.go:102-116 | After a successful read and append, the chunk is sent first and the loop continues from the next position. |
| Upload.ReadFailureStops | winrmcp/cp.go:105-107 | A read error other than EOF stops the loop with that error. Nothing more is sent. |
| Upload.EmptyReadFinishes | winrmcp/cp.go:108-110 | A zero-byte read without an error ends the session as done, with no error and nothing more sent. |
| Upload.WriteFailureStops | winrmcp/cp.go:114-121 | An append that fails stops the loop with an error that carries its exit code. |
| Upload.Session | winrmcp/cp.go:66-124 | A session sends at most max(maxChunks, 1) chunks. If it reports done, it has no error. If it reports neither done nor an error, it spent its whole budget. It closes every shell it opens. |
| Upload.Finish | winrmcp/cp.go:98-123 | After the loop the stream is torn down and the shell closed. The result is done exactly when the source was exhausted, and the error is exactly the loop's error. |
| Upload.Teardown | winrmcp/cp.go:295-306 | Close, Dispose and Remove-Variable run whatever their exit codes, and they change nothing else. |
| Upload.Upload | winrmcp/cp.go:53-64 | uploadContent opens at least one session, never moves the reader backwards, and closes every shell it opens. |
| Upload.SessionErrorEndsUpload | winrmcp/cp.go:57-62 | Whatever the faults, a session that ends with an error or reports done is the last: the upload returns that session's error and opens no further session. |
| Upload.SendChunks | winrmcp/cp.go:102-123 | The imperative for-loop over the buffer ends as ChunkLoop does: same end, same reader position, same host state. |
| Upload.SendChunk | winrmcp/cp.go:103-121 | One iteration either ends the loop as ChunkLoop does, or leaves ChunkLoop's outcome from the next iteration unchanged. |
| Upload.UploadChunks | winrmcp/cp.go:66-124 | uploadChunks returns the (done, err) pair of Session and leaves the reader and the host where Session says. |
| Upload.StreamChunks | winrmcp/cp.go:85-123 | Once the stream is open, the method ends as Finish of ChunkLoop says. |
| Upload.UploadContent | winrmcp/cp.go:53-64 | The `for !done` loop returns Upload's error and leaves the reader and the host where Upload says. |
| Upload.Chunks | winrmcp/cp.go:102-113 | The list of chunk encodings is empty exactly when the reader is at the end. |
| Upload.ChunksConcat | winrmcp/cp.go:148-157 | Written one after another, the chunk encodings equal the encoding of all remaining data. |
| Upload.ChunksUnpadded | winrmcp/cp.go:113 | No chunk encoding but the last contains '='. |
| Upload.ChunksFit | winrmcp/cp.go:73-84 | For a path of at most 7996 characters, every chunk encoding is non-empty and at most 8000 − len(filePath) characters. |
| Upload.ChunkCount | winrmcp/cp.go:102-110 | The number of chunks is ⌈remaining / size⌉. |
| Upload.SplitShape | winrmcp/cp.go:53-64 | Every session but the last holds b chunks and the last holds k mod b, so there are ⌊k/b⌋+1 sessions. Taken in order, they give back the chunk sequence. |
| Upload.ConcatAppend | winrmcp/cp.go:286-290 | Appending text lists one after another concatenates them. |
| Upload.ChunkLoopHealthy | winrmcp/cp.go:102-123 | On a healthy host the loop sends the next chunks in source order, each appended to the temp file. It stops at the source's end, or after its budget. |
| Upload.SessionHealthy | winrmcp/cp.go:66-124 | On a healthy host a session sends the next max(maxChunks, 1) chunks, or all that remain. It reports done at the end of a source that does not fail, and the read error at the end of one that does. |
| Upload.UploadHealthy | winrmcp/cp.go:53-64 | On a healthy host the sessions are exactly Split(chunks, max(maxChunks, 1)), in order. The whole source is read, and only the temp file changes. An appending writer leaves all the chunks in it; a truncating writer leaves only the last session's. |
| Upload.SessionOpens | winrmcp/cp.go:67-97 | On a healthy host a session opens its shell and stream, then runs its chunk loop. |
| Upload.HealthyAppend | winrmcp/cp.go:286-290 | On a healthy host an append extends the temp file by the text. |
| Copy.RunInShell | winrmcp/cp.go:126-230 | A failed shell returns its error unchanged. Otherwise the script's effect is applied, a nonzero exit code becomes an error carrying it, and the shell is closed. |
| Copy.RestoreContent | winrmcp/cp.go:126-191 | restoreContent over a client behaves as RunInShell of the restore script. |
| Copy.CleanupContent | winrmcp/cp.go:193-230 | cleanupContent over a client behaves as RunInShell of the cleanup script. |
| Copy.CopyOutcome | winrmcp/cp.go:16-51 | The phases start in the order upload, restore, cleanup, and no phase starts after a failure. Without a uuid no phase starts. Success means all three ran. Every error is wrapped in the context of the last phase started. |
| Copy.UploadErrorEndsCopy | winrmcp/cp.go:27-30 | Whatever the faults, an upload error ends the copy with that error in the upload context; neither restore nor cleanup runs and the host is as the upload left it. |
| Copy.DoCopy | winrmcp/cp.go:16-51 | doCopy, run with appending writers, ends exactly as CopyOutcome says. |
| Copy.CopyRoundTrip | winrmcp/cp.go:16-51 | On a healthy, well-formed host with a fresh temp file in a directory, the destination's drive existing and no file on the way to its parent, a copy of a source that does not fail succeeds. The destination then holds exactly the source and the temp file is gone. A failing source stops the copy in the upload phase with the read error. |
| Copy.CopyOntoDirectory | winrmcp/cp.go:36-39 | A directory at the destination fails the copy in the restore phase with exit code 1. Cleanup is skipped. |
| Copy.DirectoryConflictMessage | winrmcp/cp.go:187-190 | The message of that failure ends with "code=1". |
| Copy.RestoreFailureSkipsCleanup | winrmcp/cp.go:36-48 | A failed restore ends the copy in the restore phase. Cleanup never runs. |
| Copy.UploadTouchesOnlyTemp | winrmcp/cp.go:53-64 | A healthy upload reads the whole source and fails only with the source's own read error. It leaves a file at the temp path and every other path as it was. |
| Copy.UploadAppends | winrmcp/cp.go:53-64 | A healthy upload with appending writers leaves the temp file holding the encoding of everything read. |
| Copy.RestoreThenCleanup | winrmcp/cp.go:36-48 | On a healthy, well-formed host with the destination's drive existing and no file on the way to its parent, restore then cleanup place the data at the destination with no error, and the temp file is removed. |
| Copy.AsWrittenEmptiesDestination | winrmcp/cp.go:94 | With truncating writers, take a source whose chunks fill whole sessions. The copy reports success and the destination is an empty file. |
| Copy.AsWrittenOneByteArrivesEmpty | winrmcp/cp.go:87-97 | With truncating writers and maxChunks 0, a one-byte source is reported copied but arrives as an empty file. |

## Left out

- The goroutines that drain stdout and stderr, and the `sync.WaitGroup`
  around them, are left out. Their only purpose is concurrency.
- The channel pair and the `select` race between `uploadChunks` and the
  writer goroutine are modelled sequentially. Each chunk is appended in
  order, and the first failing append ends the session with its error.
  - Interleavings are not modelled.
  - In the source, an append failure that happens after the last chunk is
    handed over can be lost.
- The literal text of `writeContentChannel` does not compile as written. Its
  parameter name does not match the body. It has two-value returns in a
  three-result function. The `Write` format has no argument, and one
  `executeCommandSync` call has no shell. Only its evident behaviour is
  modelled:
  - New-Object opens the stream with the given append mode;
  - each chunk is appended through the stream;
  - Close, Dispose and Remove-Variable run best-effort, and their failures
    are only logged.
- The stream variable that `writeContentChannel` gets from `tempVariable` is
  not threaded through the upload. The commands name the stream by its temp
  path. A failed `tempVariable` inside a session is therefore not modelled.
  `tempVariable` itself is modelled in `Naming`.
- The paths in four error contexts are left out of the modelled message
  text, because paths are components, not strings. The four are "Error
  uploading file to <path>", "Error restoring file from <path> to <path>",
  "Error removing temporary file <path>" and "Error writing to stream for
  temporary file <path>".
- Cleanup removes a temp path that is a directory as a single entry; what
  `Remove-Item` does with the entries beneath it is not modelled.
- The WinRM client itself is abstracted to a `Faults` parameter. This covers
  shell creation, `shell.Execute`, `cmd.Wait` and `shell.Close`. The
  parameter says which shell openings fail and which commands fail to run,
  and with which exit code. An `Execute` that returns a Go error is modelled
  as a command that ends with a nonzero code.
- Exact exit codes of PowerShell failures other than the directory conflict
  are not modelled: every such failure exits with 1.
- The exact PowerShell and command strings are not modelled. Neither are
  `GetFullPath` resolution and the `.Trim("'")` of the destination.
  - `%TEMP%\name` and `$env:TEMP\name` are the same path in the model.
  - Paths are sequences of components, and the parent directory is the
    prefix.
- The UTF-8 `StreamWriter` and the `echo $null >` output encoding are not
  modelled. File content is bytes, and an empty file is empty.
- Short reads are not modelled. A `Reader` returns min(buffer, remaining)
  bytes, then io.EOF at the end or, for a failing source, an error other
  than EOF.
- uuid generation and its randomness are not modelled. The uuid is an input,
  and `None` stands for a failed `uuid.NewV4`.
- The `WINRMCP_DEBUG` logging is not modelled. It is purely observational.
- Upload.Session: a negative `MaxOperationsPerShell` cannot occur, because
  maxChunks is a `nat`. In Go a negative value makes a session send nothing
  and report not done, so the `for !done` loop of `uploadContent` then opens
  and closes shells forever without sending a chunk.
- Upload.Session: a path longer than 8003 characters makes Go's `make` panic.
  The model ends the session with a `NegativeBuffer` error instead.
- Upload.Session: for a path of 7997 to 8003 characters the chunk size is 0.
  A read into the empty buffer returns 0 bytes, so the upload ends at once
  and sends nothing, in Go and in the model alike. The healthy-run lemmas
  require a path of at most 7996 characters.

## Findings

| source | as written | input that shows it | evidently intended | confidence | as-written member | corrected member |
|---|---|---|---|---|---|---|
| winrmcp/cp.go:94 | Every `uploadChunks` session opens the temp file's writer with `appendTo` false, which truncates the file. Only the last session's chunks survive. | Any source of more than `max(MaxOperationsPerShell, 1)` chunks loses all but the last session's chunks. A non-empty source whose chunk count is a multiple of that budget arrives empty. For example, one byte with `MaxOperationsPerShell` 0: the second session truncates the file and sends nothing, the copy reports success, and the destination is empty. | Sessions after the first append to the temp file. The temp file is fresh because its name comes from a new uuid, so the destination receives the whole source. | not executed | Copy.AsWrittenEmptiesDestination, Copy.AsWrittenOneByteArrivesEmpty | Copy.CopyRoundTrip, Copy.DoCopy |
