/** The executor for a stream the caller supplies (FileStreamResultExecutor):
    the length is known only for a seekable stream, the result's
    last-modified instant is passed on as it is, and a body is always copied
    from the caller's stream, never sent by send-file. */
module FileStream {
  import opened FileResults

  /** The parts of a FileStreamResult the executor reads. */
  datatype FileStreamResult = FileStreamResult(
    fileStream: CallerStream,
    lastModified: Option<Timestamp>,
    entityTag: Option<EntityTag>)

  /** The length handed to the header/range step: the stream's length when it
      can seek, otherwise unknown. */
  function KnownLength(stream: CallerStream): (n: Option<int>)
    ensures n.Some? <==> stream.canSeek
    ensures n.Some? ==> n.value == stream.length
  {
    if stream.canSeek then Some(stream.length) else None
  }

  /** The private WriteFileAsync: nothing for an empty range, otherwise a
      copy from the caller's stream with the range passed through. */
  function WriteFile(result: FileStreamResult, range: Option<RangeItem>, rangeLength: int): (t: Transfer)
    ensures t.NoOp? || t.CopyStream?
    ensures t.NoOp? <==> IsEmptyRange(range, rangeLength)
    ensures t.CopyStream? ==> t.source == Supplied(result.fileStream) && t.range == range && t.rangeLength == rangeLength
  {
    if range.Some? && rangeLength == 0 then
      NoOp
    else
      CopyStream(Supplied(result.fileStream), range, rangeLength)
  }

  /** The arguments ExecuteAsync gives the header/range step. */
  function HeaderArgsFor(result: FileStreamResult): HeaderArgs {
    HeaderArgs(KnownLength(result.fileStream), result.lastModified, result.entityTag)
  }

  /** This executor as an origin of the shared serving pipeline: always
      found, always servable, no path for send-file. */
  function StreamOrigin(result: FileStreamResult): Origin {
    Origin("", true, HeaderArgsFor(result), true, ByteAccess(None, Supplied(result.fileStream)))
  }

  /** ExecuteAsync. The send-file feature is never consulted. */
  function Execute(result: FileStreamResult, step: HeaderStep): (e: Execution)
    ensures forall hasSendFile: bool :: e == Serve(StreamOrigin(result), hasSendFile, step)
    // the header/range step always runs, with the result's own last-modified instant and no fallback
    ensures e.headerCall.Some?
    ensures e.headerCall.value.fileLength == (if result.fileStream.canSeek then Some(result.fileStream.length) else None)
    ensures e.headerCall.value.lastModified == result.lastModified
    ensures e.headerCall.value.entityTag == result.entityTag
    // never a failure and never send-file; a body is copied exactly when one is asked for and the range is not empty
    ensures e.transfer.NoOp? || e.transfer.CopyStream?
    ensures e.transfer.CopyStream? <==>
      step(e.headerCall.value).serveBody &&
      !IsEmptyRange(step(e.headerCall.value).range, step(e.headerCall.value).rangeLength)
    ensures e.transfer.CopyStream? ==>
      e.transfer == CopyStream(Supplied(result.fileStream), step(e.headerCall.value).range, step(e.headerCall.value).rangeLength)
  {
    var args := HeaderArgsFor(result);
    var decision := step(args);
    if !decision.serveBody then
      Execution(Some(args), NoOp)
    else
      Execution(Some(args), WriteFile(result, decision.range, decision.rangeLength))
  }
}
