/** The executor for a file named by a virtual path inside a file provider
    (VirtualFileResultExecutor): fill in the result's provider once, strip a
    leading `~`, look the file up, run the header/range step, then skip an
    empty range and transmit by send-file when the file has a physical path,
    or by a buffered copy from the provider's read stream. */
module VirtualFile {
  import opened FileResults

  /** A file provider (IFileProvider), by identity; what it holds is foreign. */
  datatype FileProvider = FileProvider(id: nat)

  /** IFileProvider.GetFileInfo: the file a provider reports for a sub-path. */
  type FileLookup = (FileProvider, string) -> ProviderFileInfo

  /** The parts of the hosting environment the executor reads. */
  datatype HostingEnvironment = HostingEnvironment(webRootFileProvider: FileProvider)

  /** The path handed to the provider: the result's file name with one
      leading `~` removed; any other name is used as it is. */
  function NormalizePath(fileName: string): (path: string)
    ensures |fileName| > 0 && fileName[0] == '~' ==> fileName == "~" + path
    ensures !(|fileName| > 0 && fileName[0] == '~') ==> path == fileName
  {
    if |fileName| > 0 && fileName[0] == '~' then fileName[1..] else fileName
  }

  /** Only one `~` goes: a doubled one leaves a name that still starts with
      `~`, and a name without one is untouched. */
  lemma NormalizePathExamples()
    ensures NormalizePath("~~/a") == "~/a"
    ensures NormalizePath("~/a") == "/a"
    ensures NormalizePath("/a/~") == "/a/~"
    ensures NormalizePath("") == ""
  {
  }

  /** string.IsNullOrEmpty(fileInfo.PhysicalPath) is false. */
  predicate HasPhysicalPath(file: ProviderFileInfo) {
    file.physicalPath.Some? && file.physicalPath.value != ""
  }

  /** The private WriteFileAsync: what is transmitted once the header/range
      step has asked for a body. */
  function WriteFile(fileName: string, file: ProviderFileInfo, hasSendFile: bool,
                     range: Option<RangeItem>, rangeLength: int): (t: Transfer)
    ensures t.NotFound? <==> !file.present
    ensures t.NotFound? ==> t.fileName == fileName
    ensures !t.NotSupported?
    // an empty range sends nothing, whether or not send-file is available
    ensures t.NoOp? <==> file.present && IsEmptyRange(range, rangeLength)
    ensures t.SendFile? <==> file.present && !IsEmptyRange(range, rangeLength) && hasSendFile && HasPhysicalPath(file)
    ensures t.SendFile? ==> t.path == file.physicalPath.value
    ensures t.SendFile? && range.Some? ==> t.offset == range.value.from.GetOr(0) && t.count == Some(rangeLength)
    ensures t.SendFile? && range.None? ==> t.offset == 0 && t.count.None?
    ensures t.CopyStream? <==> file.present && !IsEmptyRange(range, rangeLength) && !(hasSendFile && HasPhysicalPath(file))
    ensures t.CopyStream? ==> t == CopyStream(ReadStreamOf(file), range, rangeLength)
  {
    if !file.present then
      NotFound(fileName)
    else if range.Some? && rangeLength == 0 then
      NoOp
    else if hasSendFile && HasPhysicalPath(file) then
      SendFileCall(file.physicalPath.value, range, rangeLength)
    else
      // the protected GetFileStream: the provider's read stream of the file
      CopyStream(ReadStreamOf(file), range, rangeLength)
  }

  /** The arguments ExecuteAsync gives the header/range step for a present
      file: its length, the result's own last-modified instant or else the
      file's, and the result's tag. */
  function HeaderArgsFor(lastModified: Option<Timestamp>, entityTag: Option<EntityTag>, file: ProviderFileInfo): HeaderArgs {
    HeaderArgs(Some(file.length), Some(lastModified.GetOr(file.lastModified)), entityTag)
  }

  /** This executor as an origin of the shared serving pipeline: it never
      refuses a body, and send-file gets the file's physical path if it has one. */
  function VirtualOrigin(fileName: string, lastModified: Option<Timestamp>, entityTag: Option<EntityTag>,
                         file: ProviderFileInfo): Origin {
    Origin(fileName, file.present, HeaderArgsFor(lastModified, entityTag, file), true,
           ByteAccess(if HasPhysicalPath(file) then Some(file.physicalPath.value) else None, ReadStreamOf(file)))
  }

  /** ExecuteAsync once the file has been looked up: `fileName`,
      `lastModified` and `entityTag` are the result's own. */
  function Execute(fileName: string, lastModified: Option<Timestamp>, entityTag: Option<EntityTag>,
                   file: ProviderFileInfo, hasSendFile: bool, step: HeaderStep): (e: Execution)
    ensures e == Serve(VirtualOrigin(fileName, lastModified, entityTag, file), hasSendFile, step)
    // a missing file fails before the header/range step runs
    ensures e.transfer.NotFound? <==> !file.present
    ensures e.headerCall.Some? <==> file.present
    ensures e.transfer.NotFound? ==> e.transfer.fileName == fileName
    ensures !e.transfer.NotSupported?
    // the step sees the file's length and, failing the result's own, the file's last-modified instant
    ensures e.headerCall.Some? ==>
      e.headerCall.value.fileLength == Some(file.length) &&
      e.headerCall.value.entityTag == entityTag &&
      e.headerCall.value.lastModified == Some(if lastModified.Some? then lastModified.value else file.lastModified)
    // without a body nothing is sent
    ensures e.headerCall.Some? && !step(e.headerCall.value).serveBody ==> e.transfer.NoOp?
    ensures e.headerCall.Some? && step(e.headerCall.value).serveBody ==>
      e.transfer == WriteFile(fileName, file, hasSendFile, step(e.headerCall.value).range, step(e.headerCall.value).rangeLength)
  {
    if file.present then
      var args := HeaderArgsFor(lastModified, entityTag, file);
      var decision := step(args);
      if decision.serveBody then
        Execution(Some(args), WriteFile(fileName, file, hasSendFile, decision.range, decision.rangeLength))
      else
        Execution(Some(args), NoOp)
    else
      Execution(None, NotFound(fileName))
  }

  /** Every non-empty slice of a present file with a physical path can reach
      send-file: the offset and count it is called with are exactly those of
      some range the header/range step may select. A range without a start
      is sent from offset 0, whatever its end. */
  lemma {:induction false} SendFileReachesEverySlice(fileName: string, file: ProviderFileInfo, offset: int, count: int,
                                                     to: Option<int>)
    requires file.present && HasPhysicalPath(file) && count != 0
    ensures exists r: RangeItem ::
      WriteFile(fileName, file, true, Some(r), count) == SendFile(file.physicalPath.value, offset, Some(count))
    ensures WriteFile(fileName, file, true, Some(RangeItem(None, to)), count) == SendFile(file.physicalPath.value, 0, Some(count))
  {
    var r := RangeItem(Some(offset), None);
    assert WriteFile(fileName, file, true, Some(r), count) == SendFile(file.physicalPath.value, offset, Some(count));
  }

  /** VirtualFileResult: the executor reads its file name, last-modified
      instant and tag, and fills in its provider when none is set. */
  class VirtualFileResult {
    var fileName: string
    var fileProvider: Option<FileProvider>
    var lastModified: Option<Timestamp>
    var entityTag: Option<EntityTag>

    constructor (fileName: string, fileProvider: Option<FileProvider>,
                 lastModified: Option<Timestamp>, entityTag: Option<EntityTag>)
      ensures this.fileName == fileName && this.fileProvider == fileProvider
      ensures this.lastModified == lastModified && this.entityTag == entityTag
    {
      this.fileName := fileName;
      this.fileProvider := fileProvider;
      this.lastModified := lastModified;
      this.entityTag := entityTag;
    }
  }

  class VirtualFileResultExecutor {
    const hostingEnvironment: HostingEnvironment

    constructor (hostingEnvironment: HostingEnvironment)
      ensures this.hostingEnvironment == hostingEnvironment
    {
      this.hostingEnvironment := hostingEnvironment;
    }

    /** The provider the result names, or else the web root's, which is
        then stored in the result: afterwards the result always names the
        returned provider, so a second call returns it again and changes
        nothing. */
    method GetFileProvider(result: VirtualFileResult) returns (provider: FileProvider)
      modifies result`fileProvider
      ensures old(result.fileProvider).Some? ==> provider == old(result.fileProvider).value
      ensures old(result.fileProvider).None? ==> provider == hostingEnvironment.webRootFileProvider
      ensures result.fileProvider == Some(provider)
    {
      if result.fileProvider.Some? {
        return result.fileProvider.value;
      }
      result.fileProvider := Some(hostingEnvironment.webRootFileProvider);
      provider := result.fileProvider.value;
    }

    /** GetFileInformation: the file the result's provider reports for the
        normalised file name. */
    method GetFileInformation(result: VirtualFileResult, lookup: FileLookup) returns (file: ProviderFileInfo)
      modifies result`fileProvider
      ensures result.fileProvider ==
        if old(result.fileProvider).Some? then old(result.fileProvider) else Some(hostingEnvironment.webRootFileProvider)
      ensures result.fileProvider.Some? && file == lookup(result.fileProvider.value, NormalizePath(result.fileName))
    {
      var fileProvider := GetFileProvider(result);
      var normalizedPath := NormalizePath(result.fileName);
      file := lookup(fileProvider, normalizedPath);
    }

    /** ExecuteAsync: the provider is filled in, the file looked up, and the
        rest is decided by `Execute` on what was found. */
    method ExecuteAsync(result: VirtualFileResult, lookup: FileLookup, hasSendFile: bool, step: HeaderStep)
      returns (e: Execution)
      modifies result`fileProvider
      ensures result.fileProvider ==
        if old(result.fileProvider).Some? then old(result.fileProvider) else Some(hostingEnvironment.webRootFileProvider)
      ensures result.fileProvider.Some?
      ensures e == Execute(result.fileName, result.lastModified, result.entityTag,
                           lookup(result.fileProvider.value, NormalizePath(result.fileName)), hasSendFile, step)
    {
      var file := GetFileInformation(result, lookup);
      e := Execute(result.fileName, result.lastModified, result.entityTag, file, hasSendFile, step);
    }
  }
}
