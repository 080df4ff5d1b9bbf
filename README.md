# File-result executors: body dispatch

This project models the three MVC executors that write a file to an HTTP
response: `VirtualFileResultExecutor` (a virtual path resolved through a file
provider), `PhysicalFileResultExecutor` (an absolute path on the local file
system) and `FileStreamResultExecutor` (a stream the caller supplies).

Each executor does the same things:

1. It finds the file and the last-modified instant to use.
2. It calls the header/range step of its base class, `SetHeadersAndLog`.
3. From that step's answer `(range, rangeLength, serveBody)` it picks exactly
   one outcome: a not-found failure, a not-supported failure (a relative
   physical path), nothing, a zero-copy send-file of `(path, offset, count)`,
   or a buffered copy from a stream.

The header/range step is part of the base class and is not modelled. For
one execution it is an arbitrary function `HeaderStep` of the length,
last-modified instant and tag it is given. The request (`context`) and the
result object it also receives are folded into that function: a different
request or result is a different function.
Every execution records the arguments the step was called with, or `None`
when it was never called, together with its `Transfer`.

Modules:

- `FileResults` (FileResults.dfy): the shared types, and the reference
  definition of serving one file. `Serve` resolves the file, runs the
  header/range step, and hands the body to `Dispatch`. `Dispatch` sends
  nothing for an empty range, uses send-file when the feature and a path are
  both there, and makes a buffered copy otherwise.
- `PhysicalFile`, `VirtualFile`, `FileStream`: each executor written in the
  shape of its source, one file per source file. Each `Execute` is proved
  equal to `Serve` on that executor's adapter (`PhysicalOrigin`,
  `VirtualOrigin`, `StreamOrigin`). The contracts also state the choice
  condition of every outcome.
- `VirtualFile.VirtualFileResultExecutor`: a class. `GetFileProvider` fills in
  the result's provider in place the first time it is needed.
- `Variants`: lemmas that compare the three executors.

## Model

| member | source | states |
|---|---|---|
| FileResults.Dispatch | src/Microsoft.AspNetCore.Mvc.Core/Internal/VirtualFileResultExecutor.cs:68-96 | The shared tail of every WriteFileAsync. An empty range (present, length 0) sends nothing. Send-file is used exactly when the feature is there and there is a path for it; its offset is the range's start (or 0) and its count is the range length (or none without a range), and that count is never 0. Otherwise there is a buffered copy from the origin's stream, with the range and its length passed on unchanged. It never fails. |
| FileResults.Serve | src/Microsoft.AspNetCore.Mvc.Core/Internal/VirtualFileResultExecutor.cs:32-56 | The uniform pipeline. The header/range step is called if and only if the file was found, and with the origin's arguments. Not-found happens exactly when the file is missing. Not-supported happens exactly when a body is wanted and the origin refuses to serve one. Nothing is sent exactly when no body is wanted or the range is empty. Otherwise the body goes through `Dispatch`. |
| PhysicalFile.GetFileStream | src/Microsoft.AspNetCore.Mvc.Core/Internal/PhysicalFileResultExecutor.cs:85-99 | A null path fails with an argument-null error naming `path`, and only a null path fails. Any other path gives a file stream on that same path. |
| PhysicalFile.WriteFile | src/Microsoft.AspNetCore.Mvc.Core/Internal/PhysicalFileResultExecutor.cs:48-83 | A non-rooted path gives NotSupported no matter what the range is or whether send-file is available, because that check comes first. For a rooted path: an empty range sends nothing. Otherwise send-file is used exactly when the feature is present, with the result's file name, offset `From ?? 0` and count `rangeLength` for a range, or offset 0 and no count without one. Otherwise the file stream on that name is copied, with the range passed through. It never gives not-found. |
| PhysicalFile.Execute | src/Microsoft.AspNetCore.Mvc.Core/Internal/PhysicalFileResultExecutor.cs:22-46 | Equal to `Serve` on the physical adapter. A missing file fails with not-found, and then the header/range step is never called. The step gets the file's length, the result's tag, and the result's last-modified instant, or the file's last write time when the result has none. When no body is wanted nothing is sent and the path is not checked. |
| PhysicalFile.SendFileReachesEverySlice | src/Microsoft.AspNetCore.Mvc.Core/Internal/PhysicalFileResultExecutor.cs:59-77 | For a rooted path, every offset and non-zero count is the send-file call that some range produces. A range without a start is sent from offset 0 with count `rangeLength`, whatever its end, as the code's `From ?? 0` does. |
| FileStream.KnownLength | src/Microsoft.AspNetCore.Mvc.Core/Internal/FileStreamResultExecutor.cs:19-23 | The length is known exactly when the stream can seek, and then it is the stream's length. |
| FileStream.WriteFile | src/Microsoft.AspNetCore.Mvc.Core/Internal/FileStreamResultExecutor.cs:40-50 | The outcome is either nothing or a copy. It is nothing exactly for an empty range. A copy reads the caller's stream, with the range and its length unchanged. |
| FileStream.Execute | src/Microsoft.AspNetCore.Mvc.Core/Internal/FileStreamResultExecutor.cs:17-38 | Equal to `Serve` on the stream adapter, whatever the send-file feature. The header/range step always runs. It gets the known length and the result's own last-modified instant, with no fallback. There is never a failure and never a send-file. A copy of the caller's stream happens exactly when a body is wanted and the range is not empty. |
| VirtualFile.NormalizePath | src/Microsoft.AspNetCore.Mvc.Core/Internal/VirtualFileResultExecutor.cs:104-108 | A name that starts with `~` loses exactly that one character. Any other name is unchanged. |
| VirtualFile.NormalizePathExamples | src/Microsoft.AspNetCore.Mvc.Core/Internal/VirtualFileResultExecutor.cs:104-108 | Examples: `~~/a` becomes `~/a`, `~/a` becomes `/a`, and `/a/~` and the empty name are unchanged. |
| VirtualFile.WriteFile | src/Microsoft.AspNetCore.Mvc.Core/Internal/VirtualFileResultExecutor.cs:58-98 | A missing file is not-found. For a present file: an empty range sends nothing, whether or not send-file is available. Otherwise send-file is used exactly when the feature is present and the physical path is neither null nor empty; it gets that path, offset `From ?? 0` and count `rangeLength` for a range, or offset 0 and no count without one. Otherwise the provider's read stream is copied, with the range passed through. It never gives not-supported. |
| VirtualFile.Execute | src/Microsoft.AspNetCore.Mvc.Core/Internal/VirtualFileResultExecutor.cs:32-56 | Equal to `Serve` on the provider adapter. A missing file fails with not-found naming the result's file name, and the header/range step is never called. The step gets the file's length, the result's tag, and the result's last-modified instant, or the file's when the result has none. Without a body nothing is sent. It never gives not-supported. |
| VirtualFile.SendFileReachesEverySlice | src/Microsoft.AspNetCore.Mvc.Core/Internal/VirtualFileResultExecutor.cs:72-91 | For a present file with a physical path, every offset and non-zero count is the send-file call that some range produces. A range without a start is sent from offset 0, whatever its end. |
| VirtualFile.VirtualFileResultExecutor.constructor | src/Microsoft.AspNetCore.Mvc.Core/Internal/VirtualFileResultExecutor.cs:21-30 | The executor keeps the hosting environment it is given; its web-root provider is the one `GetFileProvider` falls back to. |
| VirtualFile.VirtualFileResultExecutor.GetFileProvider | src/Microsoft.AspNetCore.Mvc.Core/Internal/VirtualFileResultExecutor.cs:114-124 | A provider already set on the result is returned. Otherwise the web-root provider is stored on the result and returned. Either way, afterwards the result names the returned provider, so a second call returns the same provider and changes nothing. |
| VirtualFile.VirtualFileResultExecutor.GetFileInformation | src/Microsoft.AspNetCore.Mvc.Core/Internal/VirtualFileResultExecutor.cs:100-112 | The file is what the result's provider (filled in as above) reports for the normalised file name. |
| VirtualFile.VirtualFileResultExecutor.ExecuteAsync | src/Microsoft.AspNetCore.Mvc.Core/Internal/VirtualFileResultExecutor.cs:32-47 | The provider is filled in. The outcome is `Execute` applied to the result's fields and the file found under the normalised name. |
| Variants.PhysicalAgreesWithVirtual | src/Microsoft.AspNetCore.Mvc.Core/Internal/PhysicalFileResultExecutor.cs:22-83 | Take a rooted physical path and a provider file with that path as its physical path and the same metadata. Each executor has its own header/range step, and the two steps give the same answer for the common length, last-modified instant and tag. Then the two executors call their steps with the same length, last-modified instant and tag, and produce the same outcome. Only the stream of a buffered copy may differ. |
| Variants.OnlyPhysicalRejectsRelativePaths | src/Microsoft.AspNetCore.Mvc.Core/Internal/PhysicalFileResultExecutor.cs:51-54 | For a relative path whose file exists and whose step asks for a body, the physical executor fails with not-supported. A present provider file fails neither way, whatever its own step answers. |
| Variants.StreamAgreesWithPathlessProviderFile | src/Microsoft.AspNetCore.Mvc.Core/Internal/FileStreamResultExecutor.cs:17-50 | Take a seekable caller stream and a present provider file with no physical path, both with the same length and last-modified instant, and one header/range step for each that give the same answer for the same length, last-modified instant and tag. They are served alike, with the same length, last-modified instant and tag passed to the steps, whether or not send-file is available. Only the stream copied differs. |

Two behaviours of the executors worth noting:

- The physical executor rejects a relative path only after the header/range
  step has run, and only when a body is wanted. It does not reject it before
  any header is written. The path is not rejected whenever the header/range
  step answers that no body is to be sent.
- Without a range, send-file is called with offset 0 and no count. It is not
  called with the whole length.

## Left out

- `FileResultExecutorBase` is not part of this model. That covers `SetHeadersAndLog` (conditional requests, range parsing, header writing, logging) and the chunked stream-copy loop. The header/range step is an arbitrary function, and a buffered copy is the `CopyStream` outcome with its arguments.
- Real I/O is left out because it is foreign and not visible. The virtual executor's protected `GetFileStream` is the value `ReadStreamOf(file)`, standing for `CreateReadStream()`. Real I/O covers `IHttpSendFileFeature.SendFileAsync`, opening a `FileStream`, reading `FileInfo` or `IFileInfo` metadata, `IFileProvider.GetFileInfo` and `CreateReadStream`. These appear as parameters (`FileSystem`, `FileLookup`) or as `Transfer` and `StreamSource` values.
- `Path.IsPathRooted` is an uninterpreted parameter because its platform rules are not visible.
- Tasks, `async`, the cancellation token (always the default) and logging are left out, including which logger category each executor uses.
- PhysicalFile.SendFileReachesEverySlice: does not model whether the header/range step always fills in the range's start; a range without one is sent from offset 0, as the code's `From ?? 0` does, because that step is not part of this model.
- VirtualFile.VirtualFileResultExecutor.GetFileProvider: does not model a null web-root provider, because the model's hosting environment always holds a provider. In the code a null one would be stored and returned, and the lookup of the file would then fail with a null-reference error.
- VirtualFile.VirtualFileResultExecutor.constructor: does not model the argument-null check on the hosting environment, because the model's hosting environment is a value that cannot be null.
- Variants.PhysicalAgreesWithVirtual: the comparison requires that the two header/range steps answer alike for the common length, last-modified instant and tag. Whether the base class's answer depends on anything else in the result object it receives (its content type or download name, say) is not modelled, because that class is not part of this model.
- Variants.StreamAgreesWithPathlessProviderFile: the comparison requires that the two header/range steps answer alike for the common length, last-modified instant and tag. Whether the base class's answer depends on anything else in the result object it receives is not modelled, for the same reason.
- A null file name or a null stream on a result is not modelled, because strings and values here cannot be null. The null guard is modelled only in `PhysicalFile.GetFileStream`.
- File existence is one snapshot per execution. So the second existence check in the virtual executor's WriteFileAsync cannot fail after ExecuteAsync's check passed. A file vanishing between the two reads is not modelled.
- Lengths, offsets and `rangeLength` are unbounded integers, not 64-bit values. The executors only compare and pass them, so no overflow arises.
- The result classes (`VirtualFileResult`, `PhysicalFileResult`, `FileStreamResult`) are modelled only by the fields the executors read. `VirtualFileResult` is a class because its provider is filled in place; the other two are values.
- The controller factory, activator and property-binding files are not part of this model. They are dependency-injection and reflection wiring over services that are not visible, or interfaces and a data holder with no logic.
