# Directory upload to Azure Data Lake: enumeration and validation core

This project models, in Dafny, the core of a tool that uploads a local
directory tree to an Azure Data Lake Store. It covers three parts:

- the partition of one file into upload chunks, and the closed-form chunk
  count (`EnumerateFile.generateUploadJob`, `EnumerateFile.getNumberOfFileChunks`);
- the directory walk that turns the source tree into upload jobs
  (`EnumerateFile.run`, `generateMkDirJob`, the `bytesToUpload` total);
- the argument and destination checks made before any thread starts
  (`FileUploader.uploadInternal`, `FileUploader.verifyDestination`).

Modules:

- `Options` holds `Option` (Java's `null`) and `Result` (a value, or the
  message of the exception thrown instead).
- `Chunking` holds the chunk size and threshold as a `ChunkConfig` value (in
  the source they are two mutable static fields), the constructor's
  override, the chunks the `do ... while` loop emits, and the count formula.
  The proofs here cover the partition and the agreement of the count formula
  with the loop.
- `Walk` holds the local filesystem as a tree of `Entry` values (file,
  readable directory, unreadable directory, other). It also holds the work
  items (`MetaData`), the jobs (`UploadJob`), one step of the walk (`Step`)
  and the whole walk over a worklist (`Drain`). Reference definitions by
  recursion over the tree (`TreeSum`, `ItemsSum`) state what the walk must
  add up to.
- `Enumeration` is the imperative part. `ProcessingQueue` and
  `ConsumerQueue` are classes whose sequence-valued fields the methods
  update in place. `EnumerateFile` has `GenerateUploadJob` (the
  `do ... while` loop), `ProcessItem` (the `try` block), `VisitNext` (one
  round with its `finally`) and `Run` (the draining loop). Each method is
  proved against the functions of `Chunking` and `Walk`.
- `Uploader` holds `String.trim`, `verifyDestination` and `uploadInternal`,
  as functions of the two argument strings, a local path resolver and the
  remote store's entry lookup.
- `Scenarios` holds worked examples under the default settings.

Notes on the code's own behaviour that the model keeps:

- A single-file upload onto an existing remote file throws
  `IllegalArgumentException` from `verifyDestination`
  (FileUploader.java:122-134). The `return new UploadResult()` branch of
  `uploadInternal` (FileUploader.java:66-67) cannot be reached, because
  `verifyDestination` never returns false.
- An unreadable directory (`listFiles()` returns null) produces nothing in
  `run` (EnumerateFile.java:35-48): no child item and no MKDIR job.
- `uploadInternal` checks the destination whenever the source cannot be
  listed as a directory (FileUploader.java:65). That includes a regular
  file, an unreadable directory and an entry that is neither a file nor a
  directory.

The walk's directory test (`File.isDirectory`, `Walk.IsDirectory`) differs
from `FileUploader.isDirectory` (`listFiles() != null`,
`Uploader.IsListable`). Both are modelled as written.

## Model

| member | source | states |
|---|---|---|
| `Chunking.Adjust` | src/main/java/com/microsoft/azure/datalake/store/EnumerateFile.java:23-27 | the configured chunk size always becomes the chunk size; the setting is left unchanged exactly when the configured size equals the current chunk size, and otherwise the threshold also becomes that size; a valid setting (0 < C <= T < 2C) stays valid for a positive configured size |
| `Chunking.DefaultIsValid` | src/main/java/com/microsoft/azure/datalake/store/EnumerateFile.java:16-17 | the initial 256 MiB / 356 MiB setting is valid |
| `Chunking.EmitFrom` | src/main/java/com/microsoft/azure/datalake/store/EnumerateFile.java:63-72 | the `do ... while` loop from a given offset and chunk number; at least one chunk, the first at that offset with that number (the body of a do-while always runs once) |
| `Chunking.EmitFromUnfold` | src/main/java/com/microsoft/azure/datalake/store/EnumerateFile.java:64-72 | proof step (unfolds the definition of one loop iteration): the chunk is the rest of the file when that is at most the threshold and one chunk otherwise; the loop continues exactly while the new offset is below the file size |
| `Chunking.Chunks` | src/main/java/com/microsoft/azure/datalake/store/EnumerateFile.java:62-72 | every file, the empty one included, yields at least one chunk, the first at offset 0 with number 0 |
| `Chunking.SmallFileIsOneChunk` | src/main/java/com/microsoft/azure/datalake/store/EnumerateFile.java:63-72 | a file no larger than the threshold, size 0 included, yields exactly one chunk (offset 0, size S, number 0) |
| `Chunking.EmitFromPartition` | src/main/java/com/microsoft/azure/datalake/store/EnumerateFile.java:64-72 | from any offset, chunk numbers are consecutive, each chunk starts where the previous one ends, all but the last have the chunk size, and the last ends at the file size |
| `Chunking.SmallRestIsOneChunk` | src/main/java/com/microsoft/azure/datalake/store/EnumerateFile.java:63-72 | when at most the threshold is left, the loop runs once more and emits the whole rest as one chunk |
| `Chunking.EmitFromLastStep` | src/main/java/com/microsoft/azure/datalake/store/EnumerateFile.java:64-72 | while more than the threshold is left, the iteration takes one full chunk and the last chunk is the one the remaining iterations end with |
| `Chunking.LastSize` | src/main/java/com/microsoft/azure/datalake/store/EnumerateFile.java:64-68 | the size left for the last chunk once full chunks have come off is at most the threshold, positive for a positive rest, and above threshold minus chunk size when the rest exceeded the threshold |
| `Chunking.EmitFromLastIsLastSize` | src/main/java/com/microsoft/azure/datalake/store/EnumerateFile.java:63-72 | the last chunk the loop emits has exactly that size |
| `Chunking.EmitFromLastChunk` | src/main/java/com/microsoft/azure/datalake/store/EnumerateFile.java:64-72 | the last chunk is at most the threshold; when the rest exceeded the threshold, it is larger than threshold minus chunk size; it is empty only when nothing was left to emit |
| `Chunking.EmitFromCoversRest` | src/main/java/com/microsoft/azure/datalake/store/EnumerateFile.java:62-72 | the chunk sizes add up to the bytes from the offset to the end of the file |
| `Chunking.EmitFromWithin` | src/main/java/com/microsoft/azure/datalake/store/EnumerateFile.java:64-71 | every chunk is a non-negative range inside [offset, file size] |
| `Chunking.ChunksPartition` | src/main/java/com/microsoft/azure/datalake/store/EnumerateFile.java:62-72 | the chunks form a contiguous partition of [0, S): numbered 0, 1, 2, ..., all but the last of size C, each starting where the previous one ends, the last ending at S |
| `Chunking.ChunksLastAndTotal` | src/main/java/com/microsoft/azure/datalake/store/EnumerateFile.java:62-72 | the last chunk is at most T, above T − C when S > T, and positive when S > 0; the chunk sizes sum to S |
| `Chunking.CeilDiv` | src/main/java/com/microsoft/azure/datalake/store/EnumerateFile.java:90 | the result r is the least integer with r · b >= a, as `Math.ceil(1.0*size/chunkSize)` computes it for exact arithmetic |
| `Chunking.NumberOfFileChunks` | src/main/java/com/microsoft/azure/datalake/store/EnumerateFile.java:82-93 | the count formula gives at least one chunk whenever C <= T |
| `Chunking.DivModUnique` | src/main/java/com/microsoft/azure/datalake/store/EnumerateFile.java:87-88 | a quotient and remainder in range are the ones `/` and `%` compute (non-negative operands, where Java's and Dafny's operators agree) |
| `Chunking.CountStep` | src/main/java/com/microsoft/azure/datalake/store/EnumerateFile.java:82-93 | above the threshold, the formula's count grows by exactly one when one chunk is added to the size, under a valid setting |
| `Chunking.EmitFromCount` | src/main/java/com/microsoft/azure/datalake/store/EnumerateFile.java:63-72 | from any offset, the loop emits as many chunks as the formula gives for the rest of the file |
| `Chunking.NumberOfFileChunksAgrees` | src/main/java/com/microsoft/azure/datalake/store/EnumerateFile.java:82-93 | under 0 < C <= T < 2C, getNumberOfFileChunks(S) equals the number of jobs generateUploadJob emits for S, for every S |
| `Chunking.CountDisagreesAtTwoChunks` | src/main/java/com/microsoft/azure/datalake/store/EnumerateFile.java:87-90 | the bound T < 2C is needed: with C = 1, T = 2 a 3-byte file is emitted as 2 chunks while the formula gives 3 |
| `Walk.ListFiles` | src/main/java/com/microsoft/azure/datalake/store/EnumerateFile.java:36-37 | `listFiles()` gives a listing exactly for a readable directory, and that listing is its entries; it is null for files, unreadable directories and other entries |
| `Walk.MkdirJob` | src/main/java/com/microsoft/azure/datalake/store/EnumerateFile.java:57-59 | definition: the MKDIR job of an item, with offset 0, size 0 and chunk 0; pinned down by StepDirectory and StepJobsWellFormed |
| `Walk.UploadJobs` | src/main/java/com/microsoft/azure/datalake/store/EnumerateFile.java:69 | one FILEUPLOAD job per chunk, as many jobs as chunks; each job's fields are pinned down by UploadJobsAt |
| `Walk.FileJobs` | src/main/java/com/microsoft/azure/datalake/store/EnumerateFile.java:61-72 | definition: the jobs generateUploadJob emits for a file, the upload jobs of its chunks; pinned down by StepFile, StepJobsWellFormed and the partition lemmas of Chunking |
| `Walk.UploadJobsAt` | src/main/java/com/microsoft/azure/datalake/store/EnumerateFile.java:69 | the i-th FILEUPLOAD job carries the i-th chunk's offset, size and number |
| `Walk.JobsFromUnfold` | src/main/java/com/microsoft/azure/datalake/store/EnumerateFile.java:63-72 | proof step (unfolds the definition of one loop iteration): the job of the current chunk (offset, size, number), followed by the jobs of the remaining iterations if the loop goes on |
| `Walk.JobsFromStep` | src/main/java/com/microsoft/azure/datalake/store/EnumerateFile.java:63-72 | the loop invariant of generateUploadJob: the jobs emitted so far followed by the jobs still to come are all of the file's jobs, before and after each iteration, and all of them once the loop stops |
| `Walk.Children` | src/main/java/com/microsoft/azure/datalake/store/EnumerateFile.java:39-41 | one child item per listed entry, as many children as entries; each child is pinned down by ChildrenAt and ChildrenSnoc |
| `Walk.ChildrenAt` | src/main/java/com/microsoft/azure/datalake/store/EnumerateFile.java:39-41 | the i-th child item carries the i-th listed entry and the parent's final destination path |
| `Walk.ChildrenSnoc` | src/main/java/com/microsoft/azure/datalake/store/EnumerateFile.java:39-41 | adding one listed entry at the end adds one child item at the end of the queue |
| `Walk.Step` | src/main/java/com/microsoft/azure/datalake/store/EnumerateFile.java:34-48 | definition: the try block of `run` for one polled item, as children, jobs and bytes; pinned down by StepFile, StepDirectory, StepNothing, StepJobsWellFormed and StepJobCount |
| `Walk.StepFile` | src/main/java/com/microsoft/azure/datalake/store/EnumerateFile.java:46-47 | a file item yields no child, as many FILEUPLOAD jobs as the count formula gives (at least one), and its size in bytes to upload |
| `Walk.StepDirectory` | src/main/java/com/microsoft/azure/datalake/store/EnumerateFile.java:35-45 | a readable directory enqueues exactly one child per entry, in order, with prefix getDestinationFinalPath(); it emits one MKDIR job (0, 0, 0) when empty and no job otherwise, and adds no bytes |
| `Walk.StepNothing` | src/main/java/com/microsoft/azure/datalake/store/EnumerateFile.java:35-48 | an unreadable directory (`listFiles()` null), or an entry that is neither directory nor file, yields nothing |
| `Walk.StepJobsWellFormed` | src/main/java/com/microsoft/azure/datalake/store/EnumerateFile.java:57-72 | every job of a step belongs to the stepped item: a MKDIR job is (0, 0, 0) for an empty directory, and a FILEUPLOAD job is a range inside its file |
| `Walk.StepJobCount` | src/main/java/com/microsoft/azure/datalake/store/EnumerateFile.java:35-48 | a file yields at least one job, an empty readable directory exactly one, any other item none |
| `Walk.ItemsSumConcat` | src/main/java/com/microsoft/azure/datalake/store/EnumerateFile.java:40 | a tree weight summed over a worklist is additive over appending items |
| `Walk.ChildrenSum` | src/main/java/com/microsoft/azure/datalake/store/EnumerateFile.java:39-41 | the child items of a listing carry exactly the listing's trees |
| `Walk.StepSum` | src/main/java/com/microsoft/azure/datalake/store/EnumerateFile.java:34-48 | a step splits an item's tree into the item itself and the child items it enqueues |
| `Walk.StepShrinksWorklist` | src/main/java/com/microsoft/azure/datalake/store/EnumerateFile.java:32-41 | replacing the polled item by its children leaves exactly one entry fewer to walk, so the walk ends |
| `Walk.Drain` | src/main/java/com/microsoft/azure/datalake/store/EnumerateFile.java:30-55 | definition: the whole walk of `run` over a FIFO worklist, as the jobs and bytes it adds; pinned down by DrainUnfold, DrainBytes, DrainJobCount and DrainJobsWellFormed, and implemented by EnumerateFile.Run |
| `Walk.DrainUnfold` | src/main/java/com/microsoft/azure/datalake/store/EnumerateFile.java:32-54 | proof step (unfolds the definition of one round of the walk): the head's jobs and bytes, then the walk of the rest of the queue followed by the head's children |
| `Walk.DrainRound` | src/main/java/com/microsoft/azure/datalake/store/EnumerateFile.java:32-54 | moving one round's output from "still to walk" to "emitted" keeps the job sequence and the byte total, and drops the entries left by one |
| `Walk.DrainBytes` | src/main/java/com/microsoft/azure/datalake/store/EnumerateFile.java:75 | the bytes to upload after the walk are the sum of the sizes of all files in the trees; directories add nothing |
| `Walk.DrainJobCount` | src/main/java/com/microsoft/azure/datalake/store/EnumerateFile.java:30-72 | the walk emits, over all trees, the formula's chunk count per file plus one job per empty readable directory |
| `Walk.DrainJobsWellFormed` | src/main/java/com/microsoft/azure/datalake/store/EnumerateFile.java:30-72 | every job the walk emits is well formed |
| `Enumeration.ProcessingQueue.constructor` | src/main/java/com/microsoft/azure/datalake/store/FileUploader.java:27 | a new queue is empty, with nothing pending |
| `Enumeration.ProcessingQueue.Add` | src/main/java/com/microsoft/azure/datalake/store/EnumerateFile.java:40 | appends the item and increments the pending count |
| `Enumeration.ProcessingQueue.Poll` | src/main/java/com/microsoft/azure/datalake/store/EnumerateFile.java:32 | returns null exactly when the buffer is empty and nothing is pending; otherwise removes and returns the head; the pending count is unchanged |
| `Enumeration.ProcessingQueue.Unregister` | src/main/java/com/microsoft/azure/datalake/store/EnumerateFile.java:52 | decrements the pending count by one and leaves the buffer alone |
| `Enumeration.ConsumerQueue.constructor` | src/main/java/com/microsoft/azure/datalake/store/FileUploader.java:28 | a new job queue is empty |
| `Enumeration.ConsumerQueue.Add` | src/main/java/com/microsoft/azure/datalake/store/EnumerateFile.java:58 | appends the job |
| `Enumeration.EnumerateFile.constructor` | src/main/java/com/microsoft/azure/datalake/store/EnumerateFile.java:20-29 | keeps both queues, applies the chunk-size override (the setting stays valid), and enqueues the root item with the destination as prefix |
| `Enumeration.EnumerateFile.GenerateMkDirJob` | src/main/java/com/microsoft/azure/datalake/store/EnumerateFile.java:57-59 | appends exactly one MKDIR job (0, 0, 0) for the item |
| `Enumeration.EnumerateFile.GenerateUploadJob` | src/main/java/com/microsoft/azure/datalake/store/EnumerateFile.java:61-76 | the loop appends exactly the file's chunk jobs, in order, and bytesToUpload grows by the file size |
| `Enumeration.EnumerateFile.ProcessItem` | src/main/java/com/microsoft/azure/datalake/store/EnumerateFile.java:34-48 | the try block enqueues the step's children, appends the step's jobs and adds the step's bytes, and does nothing else |
| `Enumeration.EnumerateFile.VisitNext` | src/main/java/com/microsoft/azure/datalake/store/EnumerateFile.java:32-53 | one round polls an item when there is one, processes it and unregisters it exactly once, so the pending count matches the buffer again |
| `Enumeration.EnumerateFile.Run` | src/main/java/com/microsoft/azure/datalake/store/EnumerateFile.java:30-55 | the walk empties the queue with nothing pending, unregisters every entry of the trees exactly once, appends Drain's jobs and adds Drain's bytes |
| `Enumeration.Enumerate` | src/main/java/com/microsoft/azure/datalake/store/FileUploader.java:88-93 | fresh queues, the walker over the source root, then `run` to the end (sequentially): the jobs and bytes are exactly Drain over the root alone, under the setting the override leaves |
| `Uploader.TrimStart` | src/main/java/com/microsoft/azure/datalake/store/FileUploader.java:52-53 | removes exactly the leading characters up to U+0020: the result is a suffix that starts with another character |
| `Uploader.TrimEnd` | src/main/java/com/microsoft/azure/datalake/store/FileUploader.java:52-53 | removes exactly the trailing characters up to U+0020: the result is a prefix that ends with another character |
| `Uploader.Trim` | src/main/java/com/microsoft/azure/datalake/store/FileUploader.java:52-53 | definition: `String.trim` as TrimEnd after TrimStart; pinned down by TrimStart, TrimEnd, TrimEmptyIffBlank and TrimIdempotent |
| `Uploader.TrimEmptyIffBlank` | src/main/java/com/microsoft/azure/datalake/store/FileUploader.java:52-57 | a string is empty after `trim()` exactly when every character is at most U+0020 |
| `Uploader.TrimIdempotent` | src/main/java/com/microsoft/azure/datalake/store/FileUploader.java:52-53 | trimming twice is trimming once |
| `Uploader.IsListable` | src/main/java/com/microsoft/azure/datalake/store/FileUploader.java:74-76 | definition: FileUploader.isDirectory, true exactly when `listFiles()` is not null, that is for a readable directory (ListFiles) |
| `Uploader.VerifyDestination` | src/main/java/com/microsoft/azure/datalake/store/FileUploader.java:122-134 | throws exactly when the remote entry exists and is not a directory; otherwise (a directory, or a failed lookup) returns true and never false |
| `Uploader.UploadInternal` | src/main/java/com/microsoft/azure/datalake/store/FileUploader.java:45-72 | each error message occurs exactly under its condition, in the code's order (null source, null destination, blank source, blank destination, missing source, destination is a file for a non-listable source); the upload proceeds exactly when all checks pass, with the trimmed paths and the resolved source; the empty-result branch is unreachable |
| `Scenarios.FourHundredMiBFile` | src/main/java/com/microsoft/azure/datalake/store/EnumerateFile.java:63-72 | a 400 MiB file under the defaults is a 256 MiB chunk at 0 and a 144 MiB chunk at 256 MiB; the formula also gives 2 |
| `Scenarios.TwoSmallFiles` | src/main/java/com/microsoft/azure/datalake/store/EnumerateFile.java:30-75 | a directory with a 100 MiB and a 300 MiB file yields exactly 2 jobs, in listing order: the first covers the 100 MiB file from offset 0 as chunk 0 and the second covers the 300 MiB file from offset 0 as chunk 0, both with the directory's final path as prefix; 400 MiB to upload |
| `Scenarios.EmptyDirectoryOnly` | src/main/java/com/microsoft/azure/datalake/store/EnumerateFile.java:42-44 | an empty directory as the only input yields exactly one MKDIR job and no bytes |

## Left out

- Threads: starting and joining the walker, the workers and the status bar
  (`startUploaderThreads`, `startEnumeration`, `upload(File, String)`,
  `waitForCompletion`, `joinUploaderThreads`, FileUploader.java:78-120). That
  code exists for concurrency. The model runs the walk sequentially.
- `StatusBar.run` (FileUploader.java:144-159, in the class at 136-161): a floating-point percentage
  with sleep and interrupt timing. It does not guard a zero
  `totalBytesToUpload`: with nothing to upload the percentage is `(int) NaN`,
  which is 0, so the bar only stops when it is interrupted.
- `ConsumerQueue`: its priority order, blocking `take`, and `markComplete`
  are not modelled. Its code is not part of this model. Jobs are kept in
  insertion order.
- `ProcessingQueue`: its code is not part of this model. It is assumed
  first-in first-out. A poll that blocks while other producers are pending
  cannot happen with one thread.
- Enumeration.ProcessingQueue.Poll: requires that it is not called in the
  blocking state (empty buffer, positive count). `Run` proves that its calls
  meet this, because at each poll the pending count equals the buffer
  length.
- `JobExecutor`, the `ADLStoreClient` operations, `UploadResult` and its
  `update`, and `AdlsTool.threadSetup`: their code is not part of this model.
  `AdlsTool.getChunkSize` is replaced by the configured chunk size, passed
  as a parameter.
- `MetaData` is not part of this model. `getDestinationFinalPath` is the
  `finalPath` function parameter; `size()` is the file entry's size. The
  `splits` field only appears in a log message.
- Logging (slf4j) and the log messages.
- Exceptions inside the walk's `try` block (for example a `SecurityException`
  from `listFiles`) are not modelled. Such an exception could leave some of a
  file's jobs emitted without its bytes counted. In the model every step
  completes, and `Unregister` follows every poll.
- Enumeration.EnumerateFile.constructor: requires a positive configured chunk
  size. With a size of 0 or less the upload loop would never end for a file
  above the threshold.
- Chunking.NumberOfFileChunks: requires a positive chunk size, where the
  source throws `ArithmeticException` for a zero chunk size above the
  threshold.
- Chunking.CeilDiv: models `Math.ceil(1.0*size/chunkSize)` as exact integer
  ceiling division. For sizes above 2^53 bytes, rounding to double can make
  the source's value differ.
- The 64-bit range of `offset`, `size` and `bytesToUpload` is not modelled
  (integers are unbounded). Files are taken to be smaller than 2^63 bytes.
- `FileUploader`'s constructor and the static `upload(String, String, ...)`
  only wire the queues and call `uploadInternal`. What happens after the
  checks pass is the walk above together with the concurrent part left out.
