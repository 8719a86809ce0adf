/** Optional values and the errors a copy can end with, including the
    mapping of a remote command's exit code to an error (winrmcp/cp.go). */
module Errors {

  datatype Option<+T> = None | Some(value: T)

  /** A Go (value, error) pair: exactly one of the two is meaningful. */
  datatype Result<+T> = Ok(value: T) | Err(error: Error)

  /** The operation named in "<op> operation returned code=<n>". */
  datatype Op = UploadOp | RestoreOp | CleanupOp

  /** The text that fmt.Errorf puts in front of a wrapped error. */
  datatype Context =
    | CreateShellCtx   // "Couldn't create shell"
    | OpenWriterCtx    // "Unable to write to file with shell"
    | WriteStreamCtx   // "Error writing to stream for temporary file <file path>", path left out
    | NameCtx          // "Error generating unique filename"
    | UploadCtx        // "Error uploading file to <temp path>", path left out
    | RestoreCtx       // "Error restoring file from <temp path> to <dest>", paths left out
    | CleanupCtx       // "Error removing temporary file <temp path>", path left out

  datatype Error =
    | ShellFailed                    // the remote capability could not create a shell
    | ReadFailed                     // the source reader failed with an error other than EOF
    | NameFailed                     // the uuid generator failed
    | NegativeBuffer                 // make([]byte, chunkSize) with a negative size (a Go panic)
    | ExitCode(op: Op, code: int)    // a remote command finished with a nonzero exit code
    | Wrapped(context: Context, cause: Error)

  function OpName(op: Op): string
  {
    match op
    case UploadOp => "upload"
    case RestoreOp => "restore"
    case CleanupOp => "cleanup"
  }

  function ContextText(c: Context): string
  {
    match c
    case CreateShellCtx => "Couldn't create shell"
    case OpenWriterCtx => "Unable to write to file with shell"
    case WriteStreamCtx => "Error writing to stream for temporary file"
    case NameCtx => "Error generating unique filename"
    case UploadCtx => "Error uploading file"
    case RestoreCtx => "Error restoring file"
    case CleanupCtx => "Error removing temporary file"
  }

  /** What every runner does with the exit code once its command has finished. */
  function CheckExit(op: Op, code: int): (r: Option<Error>)
  {
    if code != 0 then Some(ExitCode(op, code)) else None
  }

  /** The innermost exit code an error carries, if any. */
  function CodeOf(e: Error): Option<int>
  {
    match e
    case ExitCode(_, code) => Some(code)
    case Wrapped(_, cause) => CodeOf(cause)
    case _ => None
  }

  /** The text fmt.Errorf produces, with "%v" of a cause appended after ": ". */
  function Message(e: Error): string
  {
    match e
    case ShellFailed => "shell creation failed"
    case ReadFailed => "read failed"
    case NameFailed => "uuid generation failed"
    case NegativeBuffer => "makeslice: len out of range"
    case ExitCode(op, code) => OpName(op) + " operation returned code=" + Decimal(code)
    case Wrapped(c, cause) => ContextText(c) + ": " + Message(cause)
  }

  /** Exit code 0 is success; any other code becomes an error carrying it. */
  lemma CheckExitMeaning(op: Op, code: int)
    ensures CheckExit(op, code).None? <==> code == 0
    ensures code != 0 ==> CodeOf(CheckExit(op, code).value) == Some(code)
  {
  }

  /** s ends with suffix. */
  predicate EndsWith(s: string, suffix: string)
  {
    |suffix| <= |s| && s[|s| - |suffix|..] == suffix
  }

  /** Text put in front keeps the end of a string. */
  lemma EndsWithAfter(head: string, s: string, suffix: string)
    requires EndsWith(s, suffix)
    ensures EndsWith(head + s, suffix)
  {
    assert (head + s)[|head + s| - |suffix|..] == s[|s| - |suffix|..];
  }

  /** Wrapping keeps the code: it stays readable at the end of every message. */
  lemma {:induction false} MessageEndsWithCode(e: Error)
    requires CodeOf(e).Some?
    ensures EndsWith(Message(e), "code=" + Decimal(CodeOf(e).value))
  {
    match e
    case ExitCode(op, code) =>
      EndsWithAfter(OpName(op) + " operation returned ", "code=" + Decimal(code), "code=" + Decimal(code));
      assert Message(e) == (OpName(op) + " operation returned ") + ("code=" + Decimal(code));
    case Wrapped(c, cause) =>
      MessageEndsWithCode(cause);
      EndsWithAfter(ContextText(c) + ": ", Message(cause), "code=" + Decimal(CodeOf(cause).value));
  }

  /** Reading the code back from the error text of a failed operation. */
  lemma ExitMessageCarriesCode(op: Op, code: int)
    requires code != 0
    ensures var m := Message(CheckExit(op, code).value);
      var prefix := OpName(op) + " operation returned code=";
      |prefix| <= |m| && m[..|prefix|] == prefix && ParseDecimal(m[|prefix|..]) == Some(code)
  {
    var prefix := OpName(op) + " operation returned code=";
    var m := Message(CheckExit(op, code).value);
    assert m == prefix + Decimal(code);
    assert m[|prefix|..] == Decimal(code);
    DecimalRoundTrip(code);
  }

  // ---- "%d" formatting and its inverse ----

  function DigitChar(d: int): char
    requires 0 <= d < 10
  {
    ('0' as int + d) as char
  }

  /** Decimal digits of a natural number, most significant first, no leading zeros. */
  function Digits(n: nat): (s: string)
    ensures |s| > 0 && forall i :: 0 <= i < |s| ==> '0' <= s[i] <= '9'
  {
    if n < 10 then [DigitChar(n)] else Digits(n / 10) + [DigitChar(n % 10)]
  }

  /** What fmt's "%d" prints for an int. */
  function Decimal(n: int): string
  {
    if n < 0 then "-" + Digits(-n) else Digits(n)
  }

  function ParseDigits(s: string): Option<nat>
  {
    if |s| == 0 then None
    else if !('0' <= s[|s| - 1] <= '9') then None
    else
      var d := s[|s| - 1] as int - '0' as int;
      if |s| == 1 then Some(d)
      else match ParseDigits(s[..|s| - 1])
        case None => None
        case Some(v) => Some(v * 10 + d)
  }

  function ParseDecimal(s: string): Option<int>
  {
    if |s| > 0 && s[0] == '-' then
      match ParseDigits(s[1..])
      case None => None
      case Some(v) => Some(0 - v as int)
    else
      match ParseDigits(s)
      case None => None
      case Some(v) => Some(v)
  }

  lemma {:induction false} DigitsRoundTrip(n: nat)
    ensures ParseDigits(Digits(n)) == Some(n)
  {
    if n >= 10 {
      DigitsRoundTrip(n / 10);
      var s := Digits(n);
      assert s[..|s| - 1] == Digits(n / 10);
    }
  }

  lemma DecimalRoundTrip(n: int)
    ensures ParseDecimal(Decimal(n)) == Some(n)
  {
    if n < 0 {
      DigitsRoundTrip(-n);
      ParseSigned(Digits(-n), -n);
    } else {
      DigitsRoundTrip(n);
      ParseUnsigned(Digits(n), n);
    }
  }

  lemma ParseSigned(digits: string, m: nat)
    requires ParseDigits(digits) == Some(m)
    ensures ParseDecimal("-" + digits) == Some(-(m as int))
  {
    assert ("-" + digits)[1..] == digits;
  }

  lemma ParseUnsigned(digits: string, m: nat)
    requires ParseDigits(digits) == Some(m) && |digits| > 0 && digits[0] != '-'
    ensures ParseDecimal(digits) == Some(m)
  {
  }


}
