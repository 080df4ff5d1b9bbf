/** Shared vocabulary of the three file-result executors: what each hands to the
    header/range step of their common base class, what that step hands back,
    and the single transfer an execution ends in.

    The header/range step itself (conditional requests, range evaluation,
    header writing) belongs to the base class and is not modelled: it appears
    only as an arbitrary function `HeaderStep`.  This module also holds the
    reference definition of the serving pipeline, `Serve`, that every executor
    is proved to follow. */
module FileResults {

  datatype Option<+T> = None | Some(value: T) {
    /** `x ?? default` */
    function GetOr(default: T): T {
      match this
      case Some(v) => v
      case None => default
    }
  }

  datatype Result<+T, +E> = Success(value: T) | Failure(error: E)

  /** An instant (DateTimeOffset), as a tick count; it is only passed along. */
  type Timestamp = int

  datatype EntityTag = EntityTag(tag: string, isWeak: bool)

  /** One byte-range-spec of a Range header (RangeItemHeaderValue): either
      bound may be absent. */
  datatype RangeItem = RangeItem(from: Option<int>, to: Option<int>)

  /** The arguments an executor gives the header/range step: the length of
      the resource when it is known, its last-modified instant and its tag. */
  datatype HeaderArgs = HeaderArgs(
    fileLength: Option<int>,
    lastModified: Option<Timestamp>,
    entityTag: Option<EntityTag>)

  /** What the header/range step returns: the selected range (None for the
      whole representation), the number of bytes in it, and whether a body is
      to be sent at all. */
  datatype HeaderOutcome = HeaderOutcome(
    range: Option<RangeItem>,
    rangeLength: int,
    serveBody: bool)

  /** The header/range step of the base class: any function of its arguments. */
  type HeaderStep = HeaderArgs -> HeaderOutcome

  /** A stream supplied by the caller of a FileStreamResult; only whether it
      can seek and its length are read. */
  datatype CallerStream = CallerStream(id: nat, canSeek: bool, length: int)

  /** A file as a file provider describes it (IFileInfo). The physical path
      is None where the provider has none (a null string). */
  datatype ProviderFileInfo = ProviderFileInfo(
    name: string,
    present: bool,
    length: int,
    lastModified: Timestamp,
    physicalPath: Option<string>)

  /** Where the bytes of a buffered copy are read from. */
  datatype StreamSource =
    | ReadStreamOf(file: ProviderFileInfo)  // IFileInfo.CreateReadStream()
    | FileStreamAt(path: string)            // a read-only FileStream opened on a path
    | Supplied(stream: CallerStream)        // the caller's own stream

  /** The one thing an execution ends in. */
  datatype Transfer =
    | NotFound(fileName: string)       // FileNotFoundException
    | NotSupported(fileName: string)   // NotSupportedException: the path is not rooted
    | NoOp                             // completes without sending a body
    | SendFile(path: string, offset: int, count: Option<int>)  // zero-copy send-file
    | CopyStream(source: StreamSource, range: Option<RangeItem>, rangeLength: int)  // buffered copy in the base class

  /** An execution: the arguments of the header/range step when it was
      invoked (None when it never was), and the transfer. */
  datatype Execution = Execution(headerCall: Option<HeaderArgs>, transfer: Transfer)

  /** A present range of length zero: nothing is to be transmitted. */
  predicate IsEmptyRange(range: Option<RangeItem>, rangeLength: int) {
    range.Some? && rangeLength == 0
  }

  /** The send-file call for a path: the start of the range and its length,
      or the whole file from offset 0 with no count. */
  function SendFileCall(path: string, range: Option<RangeItem>, rangeLength: int): Transfer {
    if range.Some? then
      SendFile(path, range.value.from.GetOr(0), Some(rangeLength))
    else
      SendFile(path, 0, None)
  }

  /** The ways an origin gives access to its bytes: a path the send-file
      feature can transmit directly (None when there is none), and the stream
      a buffered copy reads. */
  datatype ByteAccess = ByteAccess(zeroCopyPath: Option<string>, stream: StreamSource)

  /** Reference definition of body transmission, shared by every origin:
      nothing for an empty range, send-file when the feature and a path are
      both there, a buffered copy otherwise. */
  function Dispatch(access: ByteAccess, hasSendFile: bool, range: Option<RangeItem>, rangeLength: int): (t: Transfer)
    ensures !t.NotFound? && !t.NotSupported?
    ensures t.NoOp? <==> IsEmptyRange(range, rangeLength)
    ensures t.SendFile? <==> !IsEmptyRange(range, rangeLength) && hasSendFile && access.zeroCopyPath.Some?
    ensures t.CopyStream? <==> !IsEmptyRange(range, rangeLength) && !(hasSendFile && access.zeroCopyPath.Some?)
    ensures t.SendFile? ==> t.path == access.zeroCopyPath.value
    ensures t.SendFile? ==> t.count.Some? == range.Some?
    ensures t.SendFile? && t.count.Some? ==> t.count.value == rangeLength != 0
    ensures t.SendFile? ==> t.offset == if range.Some? then range.value.from.GetOr(0) else 0
    ensures t.CopyStream? ==> t.source == access.stream && t.range == range && t.rangeLength == rangeLength
  {
    if IsEmptyRange(range, rangeLength) then NoOp
    else if hasSendFile && access.zeroCopyPath.Some? then SendFileCall(access.zeroCopyPath.value, range, rangeLength)
    else CopyStream(access.stream, range, rangeLength)
  }

  /** What an origin-specific adapter contributes to serving a file: the
      name reported in failures, whether the resource resolved, the
      arguments for the header/range step, whether it agrees to serve a body
      at all, and how its bytes are reached. */
  datatype Origin = Origin(
    fileName: string,
    found: bool,
    headerArgs: HeaderArgs,
    servable: bool,
    access: ByteAccess)

  /** Reference definition of serving one file: resolve, run the header/range
      step, then transmit the body it asks for. */
  function Serve(origin: Origin, hasSendFile: bool, step: HeaderStep): (e: Execution)
    ensures e.headerCall.Some? <==> origin.found
    ensures e.headerCall.Some? ==> e.headerCall.value == origin.headerArgs
    ensures e.transfer.NotFound? <==> !origin.found
    ensures e.transfer.NotFound? ==> e.transfer.fileName == origin.fileName
    ensures e.transfer.NotSupported? <==> origin.found && step(origin.headerArgs).serveBody && !origin.servable
    ensures e.transfer.NoOp? <==>
      origin.found &&
      (!step(origin.headerArgs).serveBody ||
       (origin.servable && IsEmptyRange(step(origin.headerArgs).range, step(origin.headerArgs).rangeLength)))
    ensures origin.found && step(origin.headerArgs).serveBody && origin.servable ==>
      e.transfer == Dispatch(origin.access, hasSendFile, step(origin.headerArgs).range, step(origin.headerArgs).rangeLength)
  {
    if !origin.found then
      Execution(None, NotFound(origin.fileName))
    else
      var decision := step(origin.headerArgs);
      var transfer :=
        if !decision.serveBody then NoOp
        else if !origin.servable then NotSupported(origin.fileName)
        else Dispatch(origin.access, hasSendFile, decision.range, decision.rangeLength);
      Execution(Some(origin.headerArgs), transfer)
  }
}
