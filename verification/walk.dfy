/**
 * The directory walk of EnumerateFile.run as functions: the filesystem tree,
 * the work items, the jobs, one step of the walk and the whole walk over a
 * worklist, with reference definitions by recursion over the tree.
 */
module Walk {
  import opened Options
  import opened Chunking

  /**
   * A local filesystem entry as java.io.File sees it: a regular file with its
   * length, a readable directory with its listing, a directory whose listing
   * cannot be read, or an entry that is neither a directory nor a file.
   */
  datatype Entry =
    | File(name: string, size: nat)
    | Dir(name: string, entries: seq<Entry>)
    | UnreadableDir(name: string)
    | Other(name: string)

  /** File.isDirectory(): true for readable and unreadable directories alike. */
  predicate IsDirectory(e: Entry)
  {
    e.Dir? || e.UnreadableDir?
  }

  /** File.listFiles(): the listing of a readable directory, null (`None`) otherwise. */
  function ListFiles(e: Entry): (r: Option<seq<Entry>>)
    ensures r.Some? <==> e.Dir?
    // a consequence of the line above: only directories are ever listed
    ensures r.Some? ==> IsDirectory(e)
    ensures e.Dir? ==> r == Some(e.entries)
  {
    if e.Dir? then Some(e.entries) else None
  }

  /** A work item of the walk: the source entry and the destination prefix. */
  datatype MetaData = MetaData(source: Entry, prefix: string)

  datatype JobType = Mkdir | FileUpload

  /** UploadJob(front, offset, size, chunk, type). */
  datatype UploadJob = UploadJob(meta: MetaData, offset: int, size: int, chunk: int, kind: JobType)

  predicate IsEmptyDir(e: Entry)
  {
    e.Dir? && e.entries == []
  }

  /** The job of generateMkDirJob: offset 0, size 0, chunk 0. */
  function MkdirJob(m: MetaData): UploadJob
  {
    UploadJob(m, 0, 0, 0, Mkdir)
  }

  /** The FILEUPLOAD jobs for the chunks `cs` of the item `m`, in order. */
  function UploadJobs(m: MetaData, cs: seq<Chunk>): (r: seq<UploadJob>)
    ensures |r| == |cs|
  {
    if cs == [] then []
    else [UploadJob(m, cs[0].offset, cs[0].size, cs[0].index, FileUpload)] + UploadJobs(m, cs[1..])
  }

  /** The i-th job carries the i-th chunk. */
  lemma {:induction false} UploadJobsAt(m: MetaData, cs: seq<Chunk>, i: int)
    requires 0 <= i < |cs|
    ensures UploadJobs(m, cs)[i] == UploadJob(m, cs[i].offset, cs[i].size, cs[i].index, FileUpload)
  {
    if i > 0 {
      UploadJobsAt(m, cs[1..], i - 1);
    }
  }

  /** The jobs generateUploadJob emits for a file item. */
  function FileJobs(m: MetaData, cfg: ChunkConfig): seq<UploadJob>
    requires m.source.File? && cfg.chunkSize > 0
  {
    UploadJobs(m, Chunks(m.source.size, cfg))
  }

  /** The jobs of the loop iterations from `offset` on, the chunk numbered `index` first. */
  function JobsFrom(m: MetaData, cfg: ChunkConfig, offset: int, index: int): seq<UploadJob>
    requires m.source.File? && cfg.chunkSize > 0
  {
    UploadJobs(m, EmitFrom(m.source.size, cfg, offset, index))
  }

  /** One loop iteration's job, then the jobs of the iterations after it. */
  lemma JobsFromUnfold(m: MetaData, cfg: ChunkConfig, offset: int, index: int)
    requires m.source.File? && cfg.chunkSize > 0
    ensures var fileSize := m.source.size;
      var size := if fileSize - offset <= cfg.threshold then fileSize - offset else cfg.chunkSize;
      JobsFrom(m, cfg, offset, index) ==
        [UploadJob(m, offset, size, index, FileUpload)]
        + (if offset + size < fileSize then JobsFrom(m, cfg, offset + size, index + 1) else [])
  {
    EmitFromUnfold(m.source.size, cfg, offset, index);
  }

  /**
   * After one more loop iteration, the jobs emitted so far followed by the
   * jobs still to come are still all of the file's jobs.
   */
  lemma JobsFromStep(m: MetaData, cfg: ChunkConfig, emitted: seq<UploadJob>, offset: int, index: int, size: int)
    requires m.source.File? && cfg.chunkSize > 0
    requires size == if m.source.size - offset <= cfg.threshold then m.source.size - offset else cfg.chunkSize
    requires emitted + JobsFrom(m, cfg, offset, index) == FileJobs(m, cfg)
    ensures offset + size < m.source.size ==>
      (emitted + [UploadJob(m, offset, size, index, FileUpload)]) + JobsFrom(m, cfg, offset + size, index + 1) == FileJobs(m, cfg)
    ensures offset + size >= m.source.size ==>
      emitted + [UploadJob(m, offset, size, index, FileUpload)] == FileJobs(m, cfg)
  {
    JobsFromUnfold(m, cfg, offset, index);
    var rest := if offset + size < m.source.size then JobsFrom(m, cfg, offset + size, index + 1) else [];
    AppendShift(emitted, UploadJob(m, offset, size, index, FileUpload), rest, FileJobs(m, cfg));
  }

  /** Moving the head of the remainder to the end of the prefix keeps the whole. */
  lemma AppendShift<T>(e: seq<T>, x: T, r: seq<T>, f: seq<T>)
    requires e + ([x] + r) == f
    ensures (e + [x]) + r == f
    ensures r == [] ==> e + [x] == f
  {
    assert (e + [x]) + r == e + ([x] + r);
  }

  /** One child item per listed entry, all with the same destination prefix, in listing order. */
  function Children(cs: seq<Entry>, prefix: string): (r: seq<MetaData>)
    ensures |r| == |cs|
  {
    if cs == [] then [] else [MetaData(cs[0], prefix)] + Children(cs[1..], prefix)
  }

  /** The i-th child item carries the i-th listed entry. */
  lemma {:induction false} ChildrenAt(cs: seq<Entry>, prefix: string, i: int)
    requires 0 <= i < |cs|
    ensures Children(cs, prefix)[i] == MetaData(cs[i], prefix)
  {
    if i > 0 {
      ChildrenAt(cs[1..], prefix, i - 1);
    }
  }

  /** Adding one entry at the end of a listing adds one child at the end. */
  lemma {:induction false} ChildrenSnoc(cs: seq<Entry>, e: Entry, prefix: string)
    ensures Children(cs + [e], prefix) == Children(cs, prefix) + [MetaData(e, prefix)]
  {
    if cs == [] {
      assert cs + [e] == [e];
    } else {
      assert (cs + [e])[1..] == cs[1..] + [e];
      ChildrenSnoc(cs[1..], e, prefix);
    }
  }

  /**
   * A well-formed job: a MKDIR job is (0, 0, 0) for an empty readable
   * directory; a FILEUPLOAD job is a byte range inside its file.
   */
  predicate WellFormed(j: UploadJob)
  {
    match j.kind
    case Mkdir => IsEmptyDir(j.meta.source) && j.offset == 0 && j.size == 0 && j.chunk == 0
    case FileUpload =>
      j.meta.source.File? && 0 <= j.offset && 0 <= j.size && j.offset + j.size <= j.meta.source.size
      && 0 <= j.chunk
  }

  /** What one iteration of the walk adds: child items, jobs and bytes to upload. */
  datatype Emission = Emission(children: seq<MetaData>, jobs: seq<UploadJob>, bytes: nat)

  /**
   * The body of the walk's try block for the item `m`: a readable directory
   * yields its children, and a MKDIR job when it has none; a file yields its
   * chunk jobs and its size; anything else yields nothing. `finalPath` stands
   * for MetaData.getDestinationFinalPath, whose code is not part of this model.
   */
  function Step(m: MetaData, cfg: ChunkConfig, finalPath: MetaData -> string): Emission
    requires Valid(cfg)
  {
    match m.source
    case File(_, size) => Emission([], FileJobs(m, cfg), size)
    case Dir(_, cs) => Emission(Children(cs, finalPath(m)), if |cs| == 0 then [MkdirJob(m)] else [], 0)
    case UnreadableDir(_) => Emission([], [], 0)
    case Other(_) => Emission([], [], 0)
  }

  /**
   * A file item yields no child, at least one FILEUPLOAD job (as many as the
   * count formula gives) and adds its size to the bytes to upload.
   */
  lemma StepFile(m: MetaData, cfg: ChunkConfig, finalPath: MetaData -> string)
    requires Valid(cfg) && m.source.File?
    ensures var r := Step(m, cfg, finalPath);
      r.children == [] && r.bytes == m.source.size &&
      |r.jobs| == NumberOfFileChunks(m.source.size, cfg) >= 1 &&
      forall j :: j in r.jobs ==> j.kind == FileUpload
  {
    NumberOfFileChunksAgrees(m.source.size, cfg);
    var jobs := FileJobs(m, cfg);
    forall j | j in jobs ensures j.kind == FileUpload {
      var i :| 0 <= i < |jobs| && jobs[i] == j;
      UploadJobsAt(m, Chunks(m.source.size, cfg), i);
    }
  }

  /**
   * A readable directory yields one child item per listed entry, in listing
   * order, with the item's final destination path as prefix; it yields a
   * single MKDIR job when the listing is empty and no job otherwise, and no
   * bytes.
   */
  lemma StepDirectory(m: MetaData, cfg: ChunkConfig, finalPath: MetaData -> string)
    requires Valid(cfg) && m.source.Dir?
    ensures var r := Step(m, cfg, finalPath);
      |r.children| == |m.source.entries| && r.bytes == 0 &&
      (forall i :: 0 <= i < |r.children| ==> r.children[i] == MetaData(m.source.entries[i], finalPath(m))) &&
      (m.source.entries == [] ==> r.jobs == [MkdirJob(m)]) &&
      (m.source.entries != [] ==> r.jobs == [])
  {
    var cs := m.source.entries;
    var children := Children(cs, finalPath(m));
    forall i | 0 <= i < |children| ensures children[i] == MetaData(cs[i], finalPath(m)) {
      ChildrenAt(cs, finalPath(m), i);
    }
  }

  /** An unreadable directory, or an entry that is neither directory nor file, yields nothing. */
  lemma StepNothing(m: MetaData, cfg: ChunkConfig, finalPath: MetaData -> string)
    requires Valid(cfg) && (m.source.UnreadableDir? || m.source.Other?)
    ensures Step(m, cfg, finalPath) == Emission([], [], 0)
  {
  }

  /** Every job of a step belongs to the stepped item and is well formed. */
  lemma StepJobsWellFormed(m: MetaData, cfg: ChunkConfig, finalPath: MetaData -> string)
    requires Valid(cfg)
    ensures forall j :: j in Step(m, cfg, finalPath).jobs ==> j.meta == m && WellFormed(j)
  {
    if m.source.File? {
      var size := m.source.size;
      var jobs := FileJobs(m, cfg);
      forall j | j in jobs ensures j.meta == m && WellFormed(j) {
        var i :| 0 <= i < |jobs| && jobs[i] == j;
        UploadJobsAt(m, Chunks(size, cfg), i);
        EmitFromWithin(size, cfg, 0, 0);
        ChunksPartition(size, cfg);
        assert Chunks(size, cfg)[i].index == i;
      }
    }
  }

  /**
   * Classification of one item (the walk invariant on work items): a file
   * yields at least one job, an empty readable directory exactly one MKDIR
   * job, and any other item no job.
   */
  lemma StepJobCount(m: MetaData, cfg: ChunkConfig, finalPath: MetaData -> string)
    requires Valid(cfg)
    ensures var n := |Step(m, cfg, finalPath).jobs|;
      (m.source.File? ==> n >= 1) &&
      (IsEmptyDir(m.source) ==> n == 1) &&
      (!m.source.File? && !IsEmptyDir(m.source) ==> n == 0)
  {
    if m.source.File? {
      StepFile(m, cfg, finalPath);
    }
  }

  /** Sum of a weight `w` over every entry of the tree rooted at `e`. */
  function TreeSum(e: Entry, w: Entry -> nat): nat
    decreases e
  {
    w(e) + match e
      case Dir(_, cs) => ListSum(cs, w)
      case _ => 0
  }

  /** Sum of a weight `w` over the trees of a listing. */
  function ListSum(cs: seq<Entry>, w: Entry -> nat): nat
    decreases cs
  {
    if cs == [] then 0 else TreeSum(cs[0], w) + ListSum(cs[1..], w)
  }

  /** Sum of a weight `w` over the trees of the items of a worklist. */
  function ItemsSum(ms: seq<MetaData>, w: Entry -> nat): nat
  {
    if ms == [] then 0 else TreeSum(ms[0].source, w) + ItemsSum(ms[1..], w)
  }

  /** Weight 1 per entry: ItemsSum with it counts the entries of the trees. */
  function Unit(e: Entry): nat
  {
    1
  }

  /** Weight of the bytes a file contributes. */
  function FileBytes(e: Entry): nat
  {
    if e.File? then e.size else 0
  }

  /** Weight of the jobs an entry contributes for itself, by the count formula. */
  function JobWeight(cfg: ChunkConfig): Entry -> nat
    requires Valid(cfg)
  {
    (e: Entry) => if e.File? then NumberOfFileChunks(e.size, cfg) else if IsEmptyDir(e) then 1 else 0
  }

  lemma {:induction false} ItemsSumConcat(a: seq<MetaData>, b: seq<MetaData>, w: Entry -> nat)
    ensures ItemsSum(a + b, w) == ItemsSum(a, w) + ItemsSum(b, w)
  {
    if a != [] {
      assert (a + b)[1..] == a[1..] + b;
      ItemsSumConcat(a[1..], b, w);
    } else {
      assert a + b == b;
    }
  }

  lemma {:induction false} ChildrenSum(cs: seq<Entry>, prefix: string, w: Entry -> nat)
    ensures ItemsSum(Children(cs, prefix), w) == ListSum(cs, w)
  {
    if cs != [] {
      ChildrenSum(cs[1..], prefix, w);
    }
  }

  /** A step splits the weight of the item's tree into the item's own weight and its children's. */
  lemma StepSum(m: MetaData, cfg: ChunkConfig, finalPath: MetaData -> string, w: Entry -> nat)
    requires Valid(cfg)
    ensures TreeSum(m.source, w) == w(m.source) + ItemsSum(Step(m, cfg, finalPath).children, w)
  {
    if m.source.Dir? {
      ChildrenSum(m.source.entries, finalPath(m), w);
    }
  }

  /**
   * Replacing the head of the worklist by its children removes exactly one
   * entry from the trees still to walk.
   */
  lemma StepShrinksWorklist(items: seq<MetaData>, cfg: ChunkConfig, finalPath: MetaData -> string)
    requires Valid(cfg) && items != []
    ensures ItemsSum(items[1..] + Step(items[0], cfg, finalPath).children, Unit) == ItemsSum(items, Unit) - 1
  {
    var e := Step(items[0], cfg, finalPath);
    ItemsSumConcat(items[1..], e.children, Unit);
    StepSum(items[0], cfg, finalPath, Unit);
  }

  /** What the whole walk emits: the jobs in order and the bytes to upload. */
  datatype Walked = Walked(jobs: seq<UploadJob>, bytes: nat)

  /**
   * The walk of EnumerateFile.run from a worklist: take the head, step it,
   * append its children, until the worklist is empty.
   */
  function Drain(items: seq<MetaData>, cfg: ChunkConfig, finalPath: MetaData -> string): (r: Walked)
    requires Valid(cfg)
    decreases ItemsSum(items, Unit)
  {
    if items == [] then Walked([], 0)
    else
      var e := Step(items[0], cfg, finalPath);
      StepShrinksWorklist(items, cfg, finalPath);
      var rest := Drain(items[1..] + e.children, cfg, finalPath);
      Walked(e.jobs + rest.jobs, e.bytes + rest.bytes)
  }

  /** One round of the walk: the head's emission, then the walk of the rest and the head's children. */
  lemma DrainUnfold(items: seq<MetaData>, cfg: ChunkConfig, finalPath: MetaData -> string)
    requires Valid(cfg) && items != []
    ensures var e := Step(items[0], cfg, finalPath);
      var rest := Drain(items[1..] + e.children, cfg, finalPath);
      Drain(items, cfg, finalPath) == Walked(e.jobs + rest.jobs, e.bytes + rest.bytes)
  {
  }

  /**
   * Accounting of one round of the walk: moving the head's emission from the
   * walk still to do to what has been emitted keeps the totals, and the
   * entries still to walk drop by one.
   */
  lemma DrainRound(items: seq<MetaData>, cfg: ChunkConfig, finalPath: MetaData -> string,
                   jobs: seq<UploadJob>, bytes: int)
    requires Valid(cfg) && items != []
    ensures var e := Step(items[0], cfg, finalPath);
      var rest := items[1..] + e.children;
      (jobs + e.jobs) + Drain(rest, cfg, finalPath).jobs == jobs + Drain(items, cfg, finalPath).jobs &&
      (bytes + e.bytes) + Drain(rest, cfg, finalPath).bytes == bytes + Drain(items, cfg, finalPath).bytes &&
      ItemsSum(rest, Unit) + 1 == ItemsSum(items, Unit)
  {
    StepShrinksWorklist(items, cfg, finalPath);
    DrainUnfold(items, cfg, finalPath);
  }

  /** bytesToUpload after the walk is the sum of the sizes of all files in the trees. */
  lemma {:induction false} DrainBytes(items: seq<MetaData>, cfg: ChunkConfig, finalPath: MetaData -> string)
    requires Valid(cfg)
    ensures Drain(items, cfg, finalPath).bytes == ItemsSum(items, FileBytes)
    decreases ItemsSum(items, Unit)
  {
    if items != [] {
      var e := Step(items[0], cfg, finalPath);
      StepShrinksWorklist(items, cfg, finalPath);
      DrainBytes(items[1..] + e.children, cfg, finalPath);
      ItemsSumConcat(items[1..], e.children, FileBytes);
      StepSum(items[0], cfg, finalPath, FileBytes);
    }
  }

  /**
   * The walk emits, over all trees, the formula's number of chunks per file
   * plus one job per empty readable directory.
   */
  lemma {:induction false} DrainJobCount(items: seq<MetaData>, cfg: ChunkConfig, finalPath: MetaData -> string)
    requires Valid(cfg)
    ensures |Drain(items, cfg, finalPath).jobs| == ItemsSum(items, JobWeight(cfg))
    decreases ItemsSum(items, Unit)
  {
    if items != [] {
      var e := Step(items[0], cfg, finalPath);
      StepShrinksWorklist(items, cfg, finalPath);
      DrainJobCount(items[1..] + e.children, cfg, finalPath);
      ItemsSumConcat(items[1..], e.children, JobWeight(cfg));
      if items[0].source.File? {
        StepFile(items[0], cfg, finalPath);
      }
      StepSum(items[0], cfg, finalPath, JobWeight(cfg));
    }
  }

  /** Every job the walk emits is well formed. */
  lemma {:induction false} DrainJobsWellFormed(items: seq<MetaData>, cfg: ChunkConfig, finalPath: MetaData -> string)
    requires Valid(cfg)
    ensures forall j :: j in Drain(items, cfg, finalPath).jobs ==> WellFormed(j)
    decreases ItemsSum(items, Unit)
  {
    if items != [] {
      var e := Step(items[0], cfg, finalPath);
      StepShrinksWorklist(items, cfg, finalPath);
      DrainJobsWellFormed(items[1..] + e.children, cfg, finalPath);
      StepJobsWellFormed(items[0], cfg, finalPath);
    }
  }
}
