/** Worked examples of the walk and the chunking under the default settings. */
module Scenarios {
  import opened Chunking
  import opened Walk

  /** A 400 MiB file: a 256 MiB chunk at offset 0, then the remaining 144 MiB. */
  lemma FourHundredMiBFile()
    ensures Chunks(400 * MiB, Default) == [Chunk(0, 256 * MiB, 0), Chunk(256 * MiB, 144 * MiB, 1)]
    ensures NumberOfFileChunks(400 * MiB, Default) == 2
  {
    EmitFromUnfold(400 * MiB, Default, 0, 0);
    EmitFromUnfold(400 * MiB, Default, 256 * MiB, 1);
  }

  /**
   * A directory holding a 100 MiB and a 300 MiB file: one job per file (both
   * are within the threshold), each covering its whole file from offset 0 as
   * chunk 0, in listing order, and 400 MiB to upload.
   */
  lemma TwoSmallFiles(finalPath: MetaData -> string)
    ensures var root := MetaData(Dir("root", [File("A", 100 * MiB), File("B", 300 * MiB)]), "dst");
      var w := Drain([root], Default, finalPath);
      |w.jobs| == 2 && w.bytes == 400 * MiB &&
      w.jobs[0] == UploadJob(MetaData(File("A", 100 * MiB), finalPath(root)), 0, 100 * MiB, 0, FileUpload) &&
      w.jobs[1] == UploadJob(MetaData(File("B", 300 * MiB), finalPath(root)), 0, 300 * MiB, 0, FileUpload)
  {
    var a, b := File("A", 100 * MiB), File("B", 300 * MiB);
    var root := MetaData(Dir("root", [a, b]), "dst");
    var ma, mb := MetaData(a, finalPath(root)), MetaData(b, finalPath(root));
    StepDirectory(root, Default, finalPath);
    var kids := Step(root, Default, finalPath).children;
    assert kids == [ma, mb];
    DrainUnfold([root], Default, finalPath);
    assert [root][1..] + kids == [ma, mb];
    DrainUnfold([ma, mb], Default, finalPath);
    SmallFileIsOneChunk(100 * MiB, Default);
    assert Step(ma, Default, finalPath) == Emission([], [UploadJob(ma, 0, 100 * MiB, 0, FileUpload)], 100 * MiB);
    assert [ma, mb][1..] + [] == [mb];
    DrainUnfold([mb], Default, finalPath);
    SmallFileIsOneChunk(300 * MiB, Default);
    assert Step(mb, Default, finalPath) == Emission([], [UploadJob(mb, 0, 300 * MiB, 0, FileUpload)], 300 * MiB);
    assert [mb][1..] + [] == [];
  }

  /** An empty directory as the only input: exactly one MKDIR job and nothing to upload. */
  lemma EmptyDirectoryOnly(finalPath: MetaData -> string)
    ensures var m := MetaData(Dir("logs", []), "dst");
      Drain([m], Default, finalPath) == Walked([MkdirJob(m)], 0)
  {
    var m := MetaData(Dir("logs", []), "dst");
    DrainUnfold([m], Default, finalPath);
    assert [m][1..] + Step(m, Default, finalPath).children == [];
  }
}
