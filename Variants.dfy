/** How the three executors relate: they share the serving pipeline and
    differ only in how a file is found and how its bytes are reached. */
module Variants {
  import opened FileResults
  import PhysicalFile
  import VirtualFile
  import FileStream

  /** Two transfers that are the same except, possibly, for the stream a
      buffered copy reads. */
  predicate SameExceptStream(a: Transfer, b: Transfer) {
    if a.CopyStream? then b.CopyStream? && a.range == b.range && a.rangeLength == b.rangeLength
    else a == b
  }

  /** Each executor hands the header/range step its own result object and
      request, so each lemma below takes one step per executor: any two
      functions, related only by what the lemma requires of their answers.

      A provider file that is the physical file itself (same name as its
      physical path, same metadata) is served exactly as the physical
      executor serves that path when the path is rooted, provided the two
      steps answer alike for the common length, last-modified instant and
      tag: same header/range arguments, same failure, same send-file call;
      only the stream of a buffered copy differs. */
  lemma PhysicalAgreesWithVirtual(result: PhysicalFile.PhysicalFileResult, fs: PhysicalFile.FileSystem,
                                  file: ProviderFileInfo, hasSendFile: bool,
                                  physicalStep: HeaderStep, virtualStep: HeaderStep)
    requires fs.isPathRooted(result.fileName) && result.fileName != ""
    requires file.physicalPath == Some(result.fileName)
    requires file.present == fs.getFileInfo(result.fileName).present
    requires file.length == fs.getFileInfo(result.fileName).length
    requires file.lastModified == fs.getFileInfo(result.fileName).lastModified
    requires physicalStep(PhysicalFile.HeaderArgsFor(result, fs.getFileInfo(result.fileName))) ==
             virtualStep(VirtualFile.HeaderArgsFor(result.lastModified, result.entityTag, file))
    ensures PhysicalFile.Execute(result, fs, hasSendFile, physicalStep).headerCall ==
            VirtualFile.Execute(result.fileName, result.lastModified, result.entityTag, file, hasSendFile, virtualStep).headerCall
    ensures SameExceptStream(
              PhysicalFile.Execute(result, fs, hasSendFile, physicalStep).transfer,
              VirtualFile.Execute(result.fileName, result.lastModified, result.entityTag, file, hasSendFile, virtualStep).transfer)
  {
  }

  /** Only the physical executor rejects a path: for a relative path it
      fails whenever its step asks for a body, while a present provider file
      is served, whatever its own step answers. */
  lemma OnlyPhysicalRejectsRelativePaths(result: PhysicalFile.PhysicalFileResult, fs: PhysicalFile.FileSystem,
                                         file: ProviderFileInfo, hasSendFile: bool,
                                         physicalStep: HeaderStep, virtualStep: HeaderStep)
    requires !fs.isPathRooted(result.fileName)
    requires fs.getFileInfo(result.fileName).present && file.present
    requires physicalStep(PhysicalFile.HeaderArgsFor(result, fs.getFileInfo(result.fileName))).serveBody
    ensures PhysicalFile.Execute(result, fs, hasSendFile, physicalStep).transfer == NotSupported(result.fileName)
    ensures !VirtualFile.Execute(result.fileName, result.lastModified, result.entityTag, file, hasSendFile, virtualStep).transfer.NotSupported?
    ensures !VirtualFile.Execute(result.fileName, result.lastModified, result.entityTag, file, hasSendFile, virtualStep).transfer.NotFound?
  {
  }

  /** A caller's stream is served as a provider file without a physical
      path would be, with the same header/range arguments, provided the two
      steps answer alike for them: the send-file feature makes no
      difference to either. */
  lemma StreamAgreesWithPathlessProviderFile(result: FileStream.FileStreamResult, file: ProviderFileInfo,
                                             hasSendFile: bool, streamStep: HeaderStep, virtualStep: HeaderStep)
    requires file.present && !VirtualFile.HasPhysicalPath(file)
    requires result.fileStream.canSeek && result.fileStream.length == file.length
    requires result.lastModified == Some(file.lastModified)
    requires streamStep(FileStream.HeaderArgsFor(result)) ==
             virtualStep(VirtualFile.HeaderArgsFor(result.lastModified, result.entityTag, file))
    ensures FileStream.Execute(result, streamStep).headerCall ==
            VirtualFile.Execute("", result.lastModified, result.entityTag, file, hasSendFile, virtualStep).headerCall
    ensures SameExceptStream(
              FileStream.Execute(result, streamStep).transfer,
              VirtualFile.Execute("", result.lastModified, result.entityTag, file, hasSendFile, virtualStep).transfer)
  {
  }
}
