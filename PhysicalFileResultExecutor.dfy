/** The executor for a file named by an absolute path on the local file
    system (PhysicalFileResultExecutor): look the file up, run the
    header/range step, then refuse a relative path, skip an empty range, and
    transmit by send-file or by a buffered copy from a FileStream. */
module PhysicalFile {
  import opened FileResults

  /** The parts of a PhysicalFileResult the executor reads. */
  datatype PhysicalFileResult = PhysicalFileResult(
    fileName: string,
    lastModified: Option<Timestamp>,
    entityTag: Option<EntityTag>)

  /** What GetFileInfo reports of a path (FileMetadata): whether it exists,
      its length and its last write time in UTC. */
  datatype FileMetadata = FileMetadata(present: bool, length: int, lastModified: Timestamp)

  /** The file system as the executor sees it. Both members are foreign: the
      metadata of a path (GetFileInfo over FileInfo) and Path.IsPathRooted,
      whose platform rules are not part of this model. */
  datatype FileSystem = FileSystem(
    getFileInfo: string -> FileMetadata,
    isPathRooted: string -> bool)

  datatype ArgumentError = ArgumentNull(paramName: string)

  /** GetFileStream: a read-only stream on a path; a null path (None) is an
      argument-null error naming the parameter. */
  function GetFileStream(path: Option<string>): (r: Result<StreamSource, ArgumentError>)
    ensures r.Failure? <==> path.None?
    ensures r.Failure? ==> r.error == ArgumentNull("path")
    ensures r.Success? ==> r.value.FileStreamAt? && r.value.path == path.value
  {
    if path.None? then Failure(ArgumentNull("path"))
    else Success(FileStreamAt(path.value))
  }

  /** The private WriteFileAsync: what is transmitted once the header/range
      step has asked for a body. */
  function WriteFile(result: PhysicalFileResult, fs: FileSystem, hasSendFile: bool,
                     range: Option<RangeItem>, rangeLength: int): (t: Transfer)
    // a relative path is refused first, before the empty-range skip and the send-file choice
    ensures t.NotSupported? <==> !fs.isPathRooted(result.fileName)
    ensures t.NotSupported? ==> t.fileName == result.fileName
    ensures !t.NotFound?
    ensures t.NoOp? <==> fs.isPathRooted(result.fileName) && IsEmptyRange(range, rangeLength)
    ensures t.SendFile? <==> fs.isPathRooted(result.fileName) && !IsEmptyRange(range, rangeLength) && hasSendFile
    ensures t.SendFile? ==> t.path == result.fileName
    ensures t.SendFile? && range.Some? ==> t.offset == range.value.from.GetOr(0) && t.count == Some(rangeLength)
    ensures t.SendFile? && range.None? ==> t.offset == 0 && t.count.None?
    ensures t.CopyStream? <==> fs.isPathRooted(result.fileName) && !IsEmptyRange(range, rangeLength) && !hasSendFile
    ensures t.CopyStream? ==> t == CopyStream(FileStreamAt(result.fileName), range, rangeLength)
  {
    if !fs.isPathRooted(result.fileName) then
      NotSupported(result.fileName)
    else if range.Some? && rangeLength == 0 then
      NoOp
    else if hasSendFile then
      SendFileCall(result.fileName, range, rangeLength)
    else
      var stream := GetFileStream(Some(result.fileName));
      CopyStream(stream.value, range, rangeLength)
  }

  /** The arguments ExecuteAsync gives the header/range step for a present
      file: its length, the result's own last-modified instant or else the
      file's, and the result's tag. */
  function HeaderArgsFor(result: PhysicalFileResult, file: FileMetadata): HeaderArgs {
    HeaderArgs(Some(file.length), Some(result.lastModified.GetOr(file.lastModified)), result.entityTag)
  }

  /** This executor as an origin of the shared serving pipeline. */
  function PhysicalOrigin(result: PhysicalFileResult, fs: FileSystem): Origin {
    var file := fs.getFileInfo(result.fileName);
    Origin(result.fileName, file.present, HeaderArgsFor(result, file),
           fs.isPathRooted(result.fileName), ByteAccess(Some(result.fileName), FileStreamAt(result.fileName)))
  }

  /** ExecuteAsync. */
  function Execute(result: PhysicalFileResult, fs: FileSystem, hasSendFile: bool, step: HeaderStep): (e: Execution)
    ensures e == Serve(PhysicalOrigin(result, fs), hasSendFile, step)
    // a missing file fails before the header/range step runs
    ensures e.transfer.NotFound? <==> !fs.getFileInfo(result.fileName).present
    ensures e.headerCall.Some? <==> fs.getFileInfo(result.fileName).present
    ensures e.transfer.NotFound? ==> e.transfer.fileName == result.fileName
    // the step sees the file's length and, failing the result's own, the file's last write time
    ensures e.headerCall.Some? ==>
      e.headerCall.value.fileLength == Some(fs.getFileInfo(result.fileName).length) &&
      e.headerCall.value.entityTag == result.entityTag &&
      e.headerCall.value.lastModified ==
        Some(if result.lastModified.Some? then result.lastModified.value else fs.getFileInfo(result.fileName).lastModified)
    // without a body nothing is sent and the path is not checked
    ensures e.headerCall.Some? && !step(e.headerCall.value).serveBody ==> e.transfer.NoOp?
    ensures e.headerCall.Some? && step(e.headerCall.value).serveBody ==>
      e.transfer == WriteFile(result, fs, hasSendFile, step(e.headerCall.value).range, step(e.headerCall.value).rangeLength)
  {
    var fileInfo := fs.getFileInfo(result.fileName);
    if fileInfo.present then
      var args := HeaderArgsFor(result, fileInfo);
      var decision := step(args);
      if decision.serveBody then
        Execution(Some(args), WriteFile(result, fs, hasSendFile, decision.range, decision.rangeLength))
      else
        Execution(Some(args), NoOp)
    else
      Execution(None, NotFound(result.fileName))
  }

  /** Every non-empty slice of a rooted file can reach send-file: the
      offset and count it is called with are exactly those of some range the
      header/range step may select. A range without a start is sent from
      offset 0, whatever its end. */
  lemma {:induction false} SendFileReachesEverySlice(result: PhysicalFileResult, fs: FileSystem, offset: int, count: int,
                                                     to: Option<int>)
    requires fs.isPathRooted(result.fileName) && count != 0
    ensures exists r: RangeItem :: WriteFile(result, fs, true, Some(r), count) == SendFile(result.fileName, offset, Some(count))
    ensures WriteFile(result, fs, true, Some(RangeItem(None, to)), count) == SendFile(result.fileName, 0, Some(count))
  {
    var r := RangeItem(Some(offset), None);
    assert WriteFile(result, fs, true, Some(r), count) == SendFile(result.fileName, offset, Some(count));
  }
}
