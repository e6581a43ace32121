/** Shared vocabulary: bytes, optional values, results, and the errors the
    image builders and the network code can report. */
module Base {

  /** One octet, as in Go's `byte`. */
  type byte = b: int | 0 <= b < 256

  /** Go's `[]byte(s)` for a string of one-byte characters. */
  function Ascii(s: string): (b: seq<byte>)
    requires forall i :: 0 <= i < |s| ==> s[i] as int < 256
    ensures |b| == |s|
    ensures forall i :: 0 <= i < |s| ==> b[i] == s[i] as int
  {
    if |s| == 0 then [] else [s[0] as int as byte] + Ascii(s[1..])
  }

  /** Go's `string(b)`: one character per byte, no decoding. */
  function Chars(b: seq<byte>): (s: string)
    ensures |s| == |b|
    ensures forall i :: 0 <= i < |b| ==> s[i] as int == b[i]
  {
    seq(|b|, i requires 0 <= i < |b| => b[i] as char)
  }

  /** Converting the characters back gives the bytes. */
  lemma AsciiChars(b: seq<byte>)
    ensures Ascii(Chars(b)) == b
  {
  }

  datatype Option<+T> = None | Some(value: T)

  datatype Result<+T> = Ok(value: T) | Err(error: Error)

  /** The outcome of an operation that returns only an `error` in Go. */
  datatype Outcome = Pass | Fail(error: Error)

  /** The operating-system error numbers the filesystem model can produce. */
  datatype Cause =
    | NotExist   // ENOENT: `errors.Is(err, fs.ErrNotExist)` holds
    | NotDir     // ENOTDIR: a component on the path is a regular file
    | IsDir      // EISDIR: a directory was opened as a file
    | Exist      // EEXIST: exclusive creation of an existing name
    | Io         // EIO / ENOSPC: a data write failed

  /** Errors, one constructor per way the source builds or wraps them.
      Wrapping constructors keep the wrapped error, as `%w` does. */
  datatype Error =
    | Os(cause: Cause)
    | ToolFailed(tool: string)               // a subprocess or library call failed
    | StatFailed(path: string, inner: Error) // "unable to stat %s: %w"
    | TempDirFailed(inner: Error)            // "unable to create random folder: %w"
    | PullFailed(image: string, inner: Error)    // "unable to pull image %s: %w"
    | ExtractFailed(image: string, inner: Error) // "unable to extract image %s: %w"
    | AddFilesFailed(inner: Error)           // "unable to add required files: %w"
    | SquashFailed(inner: Error)             // "unable to run mksquashfs: %w"
    | CreateInitFailed(inner: Error)         // "unable to create overlay-init: %w"
    | ReadInitFailed(inner: Error)           // "unable to read overlay-init: %w"
    | WriteInitFailed(inner: Error)          // "unable to write overlay-init: %w"
    | WriteResolvFailed(inner: Error)        // "unable to write /etc/resolv.conf: %w"
    | NoInterface(name: string)              // "unable to get interface %s"
    | NoAddresses(name: string)              // "unable to get addresses of interface %s"
    | NoIpv4(name: string)                   // "interface %s don't have an ipv4 address"
    | Fatal(inner: Error)                    // log.Fatal: the process exits
    | NilFile                                // a method called on a nil *os.File panics

  /** Go's `errors.Is(err, fs.ErrNotExist)`: looks through every wrapper. */
  predicate IsNotExist(e: Error)
  {
    match e
    case Os(c) => c == NotExist
    case StatFailed(_, inner) => IsNotExist(inner)
    case TempDirFailed(inner) => IsNotExist(inner)
    case PullFailed(_, inner) => IsNotExist(inner)
    case ExtractFailed(_, inner) => IsNotExist(inner)
    case AddFilesFailed(inner) => IsNotExist(inner)
    case SquashFailed(inner) => IsNotExist(inner)
    case CreateInitFailed(inner) => IsNotExist(inner)
    case ReadInitFailed(inner) => IsNotExist(inner)
    case WriteInitFailed(inner) => IsNotExist(inner)
    case WriteResolvFailed(inner) => IsNotExist(inner)
    case Fatal(inner) => IsNotExist(inner)
    case _ => false
  }
}
