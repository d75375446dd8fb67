/**
 * The queues and the walker of EnumerateFile as objects whose fields the
 * methods update in place, each method proved against the functions of
 * Chunking and Walk.
 */
module Enumeration {
  import opened Options
  import opened Chunking
  import opened Walk

  /**
   * ProcessingQueue<MetaData>, in its sequential use: a FIFO buffer and a
   * pending counter that `Add` increments and `Unregister` decrements.
   * `completed` counts the calls of `Unregister`.
   */
  class ProcessingQueue {
    var items: seq<MetaData>
    var pending: nat
    ghost var completed: nat

    constructor ()
      ensures items == [] && pending == 0 && completed == 0
    {
      items, pending, completed := [], 0, 0;
    }

    method Add(m: MetaData)
      modifies this
      ensures items == old(items) + [m]
      ensures pending == old(pending) + 1 && completed == old(completed)
    {
      items := items + [m];
      pending := pending + 1;
    }

    /**
     * The head of the buffer, or `None` (null) once nothing is pending. The
     * blocking wait for other producers (buffer empty, count positive) is
     * excluded: a single thread never reaches it.
     */
    method Poll() returns (r: Option<MetaData>)
      requires items != [] || pending == 0
      modifies this
      ensures r.None? <==> old(items) == [] && old(pending) == 0
      ensures r.Some? ==> r.value == old(items)[0] && items == old(items)[1..]
      ensures r.None? ==> items == old(items)
      ensures pending == old(pending) && completed == old(completed)
    {
      if items == [] {
        r := None;
      } else {
        r := Some(items[0]);
        items := items[1..];
      }
    }

    /** Marks one polled item as processed. */
    method Unregister()
      requires pending > 0
      modifies this
      ensures items == old(items)
      ensures pending == old(pending) - 1 && completed == old(completed) + 1
    {
      pending := pending - 1;
      completed := completed + 1;
    }
  }

  /** ConsumerQueue<UploadJob>, as the sequence of jobs added to it. */
  class ConsumerQueue {
    var jobs: seq<UploadJob>

    constructor ()
      ensures jobs == []
    {
      jobs := [];
    }

    method Add(j: UploadJob)
      modifies this
      ensures jobs == old(jobs) + [j]
    {
      jobs := jobs + [j];
    }
  }

  /** The walker: drains `metaDataQ`, classifies each item and fills `jobQ`. */
  class EnumerateFile {
    const metaDataQ: ProcessingQueue
    const jobQ: ConsumerQueue
    /** The static chunk size and threshold after this constructor's override. */
    const config: ChunkConfig
    /** MetaData.getDestinationFinalPath. */
    const finalPath: MetaData -> string
    var bytesToUpload: int

    /**
     * Takes the current static settings and the configured chunk size,
     * applies the override and enqueues the root item.
     */
    constructor (srcDir: Entry, destination: string, q: ProcessingQueue, jq: ConsumerQueue,
                 current: ChunkConfig, configuredChunkSize: int, finalPath: MetaData -> string)
      requires Valid(current) && configuredChunkSize > 0
      modifies q
      ensures metaDataQ == q && jobQ == jq && this.finalPath == finalPath
      ensures config == Adjust(current, configuredChunkSize) && Valid(config)
      ensures bytesToUpload == 0
      ensures q.items == old(q.items) + [MetaData(srcDir, destination)]
      ensures q.pending == old(q.pending) + 1 && q.completed == old(q.completed)
    {
      metaDataQ := q;
      jobQ := jq;
      config := Adjust(current, configuredChunkSize);
      this.finalPath := finalPath;
      bytesToUpload := 0;
      new;
      q.Add(MetaData(srcDir, destination));
    }

    /** generateMkDirJob. */
    method GenerateMkDirJob(front: MetaData)
      modifies jobQ
      ensures jobQ.jobs == old(jobQ.jobs) + [MkdirJob(front)]
    {
      jobQ.Add(UploadJob(front, 0, 0, 0, Mkdir));
    }

    /**
     * generateUploadJob: the `do ... while` loop adds the file's chunk jobs
     * in order, then the file's size is added to `bytesToUpload`.
     */
    method GenerateUploadJob(front: MetaData)
      requires Valid(config) && front.source.File?
      modifies jobQ, this`bytesToUpload
      ensures jobQ.jobs == old(jobQ.jobs) + FileJobs(front, config)
      ensures bytesToUpload == old(bytesToUpload) + front.source.size
    {
      var fileSize := front.source.size;
      var size, chunks, offset := 0, 0, 0;
      var done := false;
      ghost var emitted: seq<UploadJob> := [];
      while !done
        invariant 0 <= offset <= fileSize
        invariant jobQ.jobs == old(jobQ.jobs) + emitted
        invariant !done ==> emitted + JobsFrom(front, config, offset, chunks) == FileJobs(front, config)
        invariant done ==> emitted == FileJobs(front, config)
        invariant bytesToUpload == old(bytesToUpload)
        decreases if done then 0 else fileSize - offset + 1
      {
        if fileSize - offset <= config.threshold {
          size := fileSize - offset;
        } else {
          size := config.chunkSize;
        }
        JobsFromStep(front, config, emitted, offset, chunks, size);
        var job := UploadJob(front, offset, size, chunks, FileUpload);
        jobQ.Add(job);
        emitted := emitted + [job];
        chunks := chunks + 1;
        offset := offset + size;
        done := !(offset < fileSize);
      }
      bytesToUpload := bytesToUpload + fileSize;
    }

    /** The try block of `run` for one polled item. */
    method ProcessItem(front: MetaData)
      requires Valid(config)
      modifies metaDataQ, jobQ, this`bytesToUpload
      ensures var e := Step(front, config, finalPath);
        metaDataQ.items == old(metaDataQ.items) + e.children &&
        metaDataQ.pending == old(metaDataQ.pending) + |e.children| &&
        metaDataQ.completed == old(metaDataQ.completed) &&
        jobQ.jobs == old(jobQ.jobs) + e.jobs &&
        bytesToUpload == old(bytesToUpload) + e.bytes
    {
      match front.source {
        case Dir(_, subDir) =>
          var dstPrefix := finalPath(front);
          for i := 0 to |subDir|
            modifies metaDataQ
            invariant metaDataQ.items == old(metaDataQ.items) + Children(subDir[..i], dstPrefix)
            invariant metaDataQ.pending == old(metaDataQ.pending) + i
            invariant metaDataQ.completed == old(metaDataQ.completed)
          {
            ChildrenSnoc(subDir[..i], subDir[i], dstPrefix);
            assert subDir[..i + 1] == subDir[..i] + [subDir[i]];
            metaDataQ.Add(MetaData(subDir[i], dstPrefix));
          }
          assert subDir[..|subDir|] == subDir;
          if |subDir| == 0 {
            GenerateMkDirJob(front);
          }
        case File(_, _) =>
          GenerateUploadJob(front);
        case UnreadableDir(_) =>
        case Other(_) =>
      }
    }

    /**
     * One round of `run`'s loop: poll an item and, if there was one, process
     * it and unregister it (the `finally` block).
     */
    method VisitNext() returns (polled: bool)
      requires Valid(config)
      requires metaDataQ.pending == |metaDataQ.items|
      modifies metaDataQ, jobQ, this`bytesToUpload
      ensures metaDataQ.pending == |metaDataQ.items|
      ensures polled <==> old(metaDataQ.items) != []
      ensures !polled ==>
        metaDataQ.items == [] && metaDataQ.completed == old(metaDataQ.completed) &&
        jobQ.jobs == old(jobQ.jobs) && bytesToUpload == old(bytesToUpload)
      ensures polled ==>
        var e := Step(old(metaDataQ.items)[0], config, finalPath);
        metaDataQ.items == old(metaDataQ.items)[1..] + e.children &&
        metaDataQ.completed == old(metaDataQ.completed) + 1 &&
        jobQ.jobs == old(jobQ.jobs) + e.jobs &&
        bytesToUpload == old(bytesToUpload) + e.bytes
    {
      var front := metaDataQ.Poll();
      polled := front.Some?;
      if polled {
        ProcessItem(front.value);
        metaDataQ.Unregister();
      }
    }

    /**
     * run: poll items until the queue reports that nothing is pending,
     * processing each one and unregistering it afterwards. Starting from a
     * consistent queue, the walk adds the jobs and bytes of Drain over the
     * initial worklist, and unregisters every entry of the trees exactly once.
     */
    method Run()
      requires Valid(config)
      requires metaDataQ.pending == |metaDataQ.items|
      modifies metaDataQ, jobQ, this`bytesToUpload
      ensures metaDataQ.items == [] && metaDataQ.pending == 0
      ensures metaDataQ.completed == old(metaDataQ.completed) + ItemsSum(old(metaDataQ.items), Unit)
      ensures jobQ.jobs == old(jobQ.jobs) + Drain(old(metaDataQ.items), config, finalPath).jobs
      ensures bytesToUpload == old(bytesToUpload) + Drain(old(metaDataQ.items), config, finalPath).bytes
    {
      ghost var walk := Drain(metaDataQ.items, config, finalPath);
      ghost var entries := ItemsSum(metaDataQ.items, Unit);
      ghost var jobs0, bytes0, completed0 := jobQ.jobs, bytesToUpload, metaDataQ.completed;
      var polled := true;
      while polled
        invariant metaDataQ.pending == |metaDataQ.items|
        invariant !polled ==> metaDataQ.items == []
        invariant metaDataQ.completed + ItemsSum(metaDataQ.items, Unit) == completed0 + entries
        invariant jobQ.jobs + Drain(metaDataQ.items, config, finalPath).jobs == jobs0 + walk.jobs
        invariant bytesToUpload + Drain(metaDataQ.items, config, finalPath).bytes == bytes0 + walk.bytes
        decreases ItemsSum(metaDataQ.items, Unit) + (if polled then 1 else 0)
      {
        ghost var before := metaDataQ.items;
        ghost var jobsBefore, bytesBefore := jobQ.jobs, bytesToUpload;
        if before != [] {
          DrainRound(before, config, finalPath, jobsBefore, bytesBefore);
        }
        polled := VisitNext();
      }
    }
  }

  /**
   * FileUploader's set-up of the walk, run sequentially: fresh queues, the
   * walker over the source root, then `run` to the end. The jobs and the
   * byte total are those of Drain over the root alone, under the setting the
   * override leaves.
   */
  method Enumerate(srcDir: Entry, destination: string, current: ChunkConfig,
                   configuredChunkSize: int, finalPath: MetaData -> string)
    returns (jobs: seq<UploadJob>, bytes: int)
    requires Valid(current) && configuredChunkSize > 0
    ensures var w := Drain([MetaData(srcDir, destination)], Adjust(current, configuredChunkSize), finalPath);
      jobs == w.jobs && bytes == w.bytes
  {
    var q := new ProcessingQueue();
    var jq := new ConsumerQueue();
    var walker := new EnumerateFile(srcDir, destination, q, jq, current, configuredChunkSize, finalPath);
    walker.Run();
    jobs, bytes := jq.jobs, walker.bytesToUpload;
  }
}
