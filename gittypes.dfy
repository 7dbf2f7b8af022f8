/** The values that flow between the readers, the caches and their callers. */
module GitTypes {
  import opened Wrappers
  import Tools

  /** The error classes of the system; the source attaches an `errno` only to
      not-found errors and otherwise tells errors apart by their message. */
  datatype ErrorKind =
    | BadRepository   // the repository path does not exist
    | InvalidVersion  // a version that is neither 40 characters long nor "fs"
    | NotFound        // git or the file system reported a missing path or revision
    | ProcessFailure  // git exited with a non-zero code for another reason
    | IoFailure       // a file-system read failed for another reason
    | ParseFailure    // text that does not have the expected shape
    | NoGitDir        // the head sha was asked for before the repository was opened

  datatype GitError = GitError(kind: ErrorKind, message: string)

  /** The error of a failed `fs` call: its message and whether its errno is ENOENT. */
  datatype IoError = IoError(enoent: bool, message: string)

  function FromIo(e: IoError): (g: GitError)
    ensures g.message == e.message
    ensures g.kind == NotFound <==> e.enoent
  {
    GitError(if e.enoent then NotFound else IoFailure, e.message)
  }

  /** `{ files: [...], dirs: [...] }`. */
  datatype DirListing = DirListing(files: seq<string>, dirs: seq<string>)

  /** One property of the object `logFile` builds: a commit id and its fields. */
  datatype LogEntry = LogEntry(commit: string, fields: map<string, string>)

  /** A value handed to a callback: a Buffer, a string, a listing, the history
      object, or the empty array given for an empty history. */
  datatype Value =
    | Buffer(bytes: seq<Tools.byte>)
    | Str(text: string)
    | Listing(listing: DirListing)
    | History(entries: seq<LogEntry>)
    | EmptyHistory

  /** JavaScript truthiness of a value: only the empty string is falsy. */
  predicate Truthy(v: Value) {
    !(v.Str? && v.text == "")
  }

  function FromPayload(p: Tools.Payload): (v: Value)
    ensures p.Raw? ==> v == Buffer(p.bytes)
    ensures p.Decoded? ==> v == Str(p.text)
  {
    match p
    case Raw(b) => Buffer(b)
    case Decoded(t) => Str(t)
  }

  /** The `(err, value)` pair a producer calls back with; `None` is `undefined`. */
  datatype Outcome = Outcome(err: Option<GitError>, value: Option<Value>)

  function Failure(e: GitError): Outcome { Outcome(Some(e), None) }

  function Success(v: Value): Outcome { Outcome(None, Some(v)) }

  /** A waiting caller, identified by its callback. */
  type Waiter = nat

  /** One call of a waiting caller's callback. */
  datatype Delivery = Delivery(waiter: Waiter, outcome: Outcome)

  /** Every waiter of `ws`, in order, called with the one outcome `o`. */
  function Broadcast(ws: seq<Waiter>, o: Outcome): (ds: seq<Delivery>)
    ensures |ds| == |ws|
    ensures forall i :: 0 <= i < |ws| ==> ds[i] == Delivery(ws[i], o)
  {
    seq(|ws|, i requires 0 <= i < |ws| => Delivery(ws[i], o))
  }
}
