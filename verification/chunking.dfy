/**
 * Partitioning of one file into upload chunks (EnumerateFile.generateUploadJob)
 * and the closed-form chunk count (EnumerateFile.getNumberOfFileChunks).
 *
 * The source keeps the chunk size and the threshold in two mutable static
 * fields; here they are an explicit configuration value.
 */
module Chunking {

  const MiB: int := 1024 * 1024

  /** The two static settings of EnumerateFile: `chunkSize` and `threshhold`. */
  datatype ChunkConfig = ChunkConfig(chunkSize: int, threshold: int)

  /** The initial values of the static fields: 256 MiB chunks, 356 MiB threshold. */
  const Default: ChunkConfig := ChunkConfig(256 * MiB, 356 * MiB)

  /**
   * The configurations the program can reach: a positive chunk size, and a
   * threshold that is at least one and less than two chunks.
   */
  predicate Valid(cfg: ChunkConfig)
  {
    0 < cfg.chunkSize <= cfg.threshold < 2 * cfg.chunkSize
  }

  /**
   * The constructor's override: when the configured chunk size differs from
   * the current one, both the chunk size and the threshold become that size.
   */
  function Adjust(cfg: ChunkConfig, size: int): (r: ChunkConfig)
    ensures r.chunkSize == size
    ensures r == cfg <==> size == cfg.chunkSize
    ensures r != cfg ==> r.threshold == size
    ensures Valid(cfg) && size > 0 ==> Valid(r)
  {
    if size != cfg.chunkSize then ChunkConfig(size, size) else cfg
  }

  lemma DefaultIsValid()
    ensures Valid(Default)
  {
  }

  /** One emitted upload unit: byte offset, byte length and 0-based chunk number. */
  datatype Chunk = Chunk(offset: int, size: int, index: int)

  /**
   * The chunks the `do ... while` loop emits for a file of `fileSize` bytes,
   * from the iteration that starts at `offset` with chunk number `index` on.
   * Each iteration takes the rest of the file when it is at most the
   * threshold and one chunk otherwise, and the loop goes on while the
   * offset is below the file size.
   */
  function EmitFrom(fileSize: nat, cfg: ChunkConfig, offset: int, index: int): (r: seq<Chunk>)
    requires cfg.chunkSize > 0
    ensures |r| >= 1 && r[0].offset == offset && r[0].index == index
    decreases fileSize - offset
  {
    var size := if fileSize - offset <= cfg.threshold then fileSize - offset else cfg.chunkSize;
    [Chunk(offset, size, index)]
      + (if offset + size < fileSize then EmitFrom(fileSize, cfg, offset + size, index + 1) else [])
  }

  /** One iteration of the loop: the chunk it emits, then the iterations after it. */
  lemma EmitFromUnfold(fileSize: nat, cfg: ChunkConfig, offset: int, index: int)
    requires cfg.chunkSize > 0
    ensures var size := if fileSize - offset <= cfg.threshold then fileSize - offset else cfg.chunkSize;
      var r := EmitFrom(fileSize, cfg, offset, index);
      r[0] == Chunk(offset, size, index) &&
      r[1..] == if offset + size < fileSize then EmitFrom(fileSize, cfg, offset + size, index + 1) else []
  {
  }

  /** All chunks emitted for a file of `fileSize` bytes. */
  function Chunks(fileSize: nat, cfg: ChunkConfig): (r: seq<Chunk>)
    requires cfg.chunkSize > 0
    ensures |r| >= 1 && r[0].offset == 0 && r[0].index == 0
  {
    EmitFrom(fileSize, cfg, 0, 0)
  }

  /** Sum of the chunk sizes. */
  function TotalSize(cs: seq<Chunk>): int
  {
    if cs == [] then 0 else cs[0].size + TotalSize(cs[1..])
  }

  /** Integer ceiling of `a / b`, standing for `Math.ceil(1.0 * a / b)`. */
  function CeilDiv(a: nat, b: int): (r: int)
    requires b > 0
    ensures (r - 1) * b < a <= r * b
  {
    if a % b == 0 then a / b else a / b + 1
  }

  /** getNumberOfFileChunks: the closed-form number of chunks for a file of `size` bytes. */
  function NumberOfFileChunks(size: nat, cfg: ChunkConfig): (n: int)
    requires cfg.chunkSize > 0
    ensures cfg.chunkSize <= cfg.threshold ==> n >= 1
  {
    if size <= cfg.threshold then 1
    else if size % cfg.chunkSize <= cfg.threshold - cfg.chunkSize then size / cfg.chunkSize
    else CeilDiv(size, cfg.chunkSize)
  }

  /**
   * A file no larger than the threshold, the empty file included, is one
   * chunk covering the whole file.
   */
  lemma SmallFileIsOneChunk(fileSize: nat, cfg: ChunkConfig)
    requires cfg.chunkSize > 0 && fileSize <= cfg.threshold
    ensures Chunks(fileSize, cfg) == [Chunk(0, fileSize, 0)]
  {
  }

  /**
   * From any offset within the file, the emitted chunks are numbered
   * consecutively, each starts where the previous one ends, every chunk but
   * the last has the chunk size, and the last one ends at the end of the file.
   */
  lemma {:induction false} EmitFromPartition(fileSize: nat, cfg: ChunkConfig, offset: int, index: int)
    requires 0 < cfg.chunkSize <= cfg.threshold
    requires 0 <= offset <= fileSize
    ensures var r := EmitFrom(fileSize, cfg, offset, index);
      (forall i :: 0 <= i < |r| ==> r[i].index == index + i) &&
      (forall i :: 0 <= i < |r| - 1 ==> r[i].size == cfg.chunkSize) &&
      (forall i :: 0 < i < |r| ==> r[i].offset == r[i - 1].offset + r[i - 1].size) &&
      r[|r| - 1].offset + r[|r| - 1].size == fileSize
    decreases fileSize - offset
  {
    var r := EmitFrom(fileSize, cfg, offset, index);
    if fileSize - offset > cfg.threshold {
      var rest := EmitFrom(fileSize, cfg, offset + cfg.chunkSize, index + 1);
      EmitFromPartition(fileSize, cfg, offset + cfg.chunkSize, index + 1);
      assert r == [Chunk(offset, cfg.chunkSize, index)] + rest;
      forall i | 0 < i < |r| ensures r[i] == rest[i - 1] { }
    }
  }

  /**
   * While more than the threshold is left, the last chunk is the last chunk
   * from one chunk further on, so its size is the one LastSize gives there.
   */
  lemma EmitFromLastStep(fileSize: nat, cfg: ChunkConfig, offset: int, index: int)
    requires 0 < cfg.chunkSize <= cfg.threshold
    requires 0 <= offset && fileSize - offset > cfg.threshold
    requires var next := EmitFrom(fileSize, cfg, offset + cfg.chunkSize, index + 1);
      next[|next| - 1].size == LastSize(fileSize - (offset + cfg.chunkSize), cfg)
    ensures var r := EmitFrom(fileSize, cfg, offset, index);
      r[|r| - 1].size == LastSize(fileSize - offset, cfg)
  {
    var r := EmitFrom(fileSize, cfg, offset, index);
    var next := EmitFrom(fileSize, cfg, offset + cfg.chunkSize, index + 1);
    assert r == [Chunk(offset, cfg.chunkSize, index)] + next;
    assert r[|r| - 1] == next[|next| - 1];
  }

  /** When at most the threshold is left, the loop emits one last chunk with all of it. */
  lemma SmallRestIsOneChunk(fileSize: nat, cfg: ChunkConfig, offset: int, index: int)
    requires cfg.chunkSize > 0 && 0 <= offset <= fileSize && fileSize - offset <= cfg.threshold
    ensures EmitFrom(fileSize, cfg, offset, index) == [Chunk(offset, fileSize - offset, index)]
  {
  }

  /** The size of the last chunk when `rest` bytes are left: whole chunks come off until at most the threshold remains. */
  function LastSize(rest: nat, cfg: ChunkConfig): (r: nat)
    requires 0 < cfg.chunkSize <= cfg.threshold
    ensures r <= cfg.threshold && (rest > 0 ==> r > 0)
    ensures rest > cfg.threshold ==> r > cfg.threshold - cfg.chunkSize
    decreases rest
  {
    if rest <= cfg.threshold then rest else LastSize(rest - cfg.chunkSize, cfg)
  }

  /** The last emitted chunk has the size LastSize gives for the rest of the file. */
  lemma {:induction false} EmitFromLastIsLastSize(fileSize: nat, cfg: ChunkConfig, offset: int, index: int)
    requires 0 < cfg.chunkSize <= cfg.threshold
    requires 0 <= offset <= fileSize
    ensures var r := EmitFrom(fileSize, cfg, offset, index);
      r[|r| - 1].size == LastSize(fileSize - offset, cfg)
    decreases fileSize - offset
  {
    if fileSize - offset > cfg.threshold {
      var next := EmitFrom(fileSize, cfg, offset + cfg.chunkSize, index + 1);
      assert next[|next| - 1].size == LastSize(fileSize - (offset + cfg.chunkSize), cfg) by {
        EmitFromLastIsLastSize(fileSize, cfg, offset + cfg.chunkSize, index + 1);
      }
      EmitFromLastStep(fileSize, cfg, offset, index);
    } else {
      SmallRestIsOneChunk(fileSize, cfg, offset, index);
    }
  }

  /**
   * Bounds on the last chunk: it is at most the threshold, and when the rest
   * of the file exceeded the threshold it is more than threshold minus chunk
   * size; it is empty only when nothing was left to emit.
   */
  lemma EmitFromLastChunk(fileSize: nat, cfg: ChunkConfig, offset: int, index: int)
    requires 0 < cfg.chunkSize <= cfg.threshold
    requires 0 <= offset <= fileSize
    ensures var r := EmitFrom(fileSize, cfg, offset, index);
      0 <= r[|r| - 1].size <= cfg.threshold &&
      (fileSize - offset > cfg.threshold ==> r[|r| - 1].size > cfg.threshold - cfg.chunkSize) &&
      (offset < fileSize ==> r[|r| - 1].size > 0)
  {
    EmitFromLastIsLastSize(fileSize, cfg, offset, index);
  }

  /** The chunk sizes add up to the bytes from `offset` to the end of the file. */
  lemma {:induction false} EmitFromCoversRest(fileSize: nat, cfg: ChunkConfig, offset: int, index: int)
    requires 0 < cfg.chunkSize <= cfg.threshold
    requires 0 <= offset <= fileSize
    ensures TotalSize(EmitFrom(fileSize, cfg, offset, index)) == fileSize - offset
    decreases fileSize - offset
  {
    var r := EmitFrom(fileSize, cfg, offset, index);
    if fileSize - offset > cfg.threshold {
      var rest := EmitFrom(fileSize, cfg, offset + cfg.chunkSize, index + 1);
      EmitFromCoversRest(fileSize, cfg, offset + cfg.chunkSize, index + 1);
      assert r == [Chunk(offset, cfg.chunkSize, index)] + rest;
      assert r[1..] == rest;
    } else {
      assert r[1..] == [];
    }
  }

  /**
   * The chunks of a whole file form a contiguous partition of [0, fileSize):
   * chunk numbers 0, 1, 2, ..., every chunk but the last of the chunk size,
   * and the last one ending at the end of the file.
   */
  lemma ChunksPartition(fileSize: nat, cfg: ChunkConfig)
    requires 0 < cfg.chunkSize <= cfg.threshold
    ensures var r := Chunks(fileSize, cfg);
      r[0].offset == 0 &&
      (forall i :: 0 <= i < |r| ==> r[i].index == i) &&
      (forall i :: 0 <= i < |r| - 1 ==> r[i].size == cfg.chunkSize) &&
      (forall i :: 0 < i < |r| ==> r[i].offset == r[i - 1].offset + r[i - 1].size) &&
      r[|r| - 1].offset + r[|r| - 1].size == fileSize
  {
    assert Chunks(fileSize, cfg) == EmitFrom(fileSize, cfg, 0, 0);
    EmitFromPartition(fileSize, cfg, 0, 0);
  }

  /**
   * The last chunk of a whole file is at most the threshold, more than
   * threshold minus chunk size when the file exceeds the threshold, and
   * empty only for the empty file; the chunk sizes add up to the file size.
   */
  lemma ChunksLastAndTotal(fileSize: nat, cfg: ChunkConfig)
    requires 0 < cfg.chunkSize <= cfg.threshold
    ensures var r := Chunks(fileSize, cfg);
      0 <= r[|r| - 1].size <= cfg.threshold &&
      (fileSize > cfg.threshold ==> r[|r| - 1].size > cfg.threshold - cfg.chunkSize) &&
      (fileSize > 0 ==> r[|r| - 1].size > 0) &&
      TotalSize(r) == fileSize
  {
    assert Chunks(fileSize, cfg) == EmitFrom(fileSize, cfg, 0, 0);
    EmitFromLastChunk(fileSize, cfg, 0, 0);
    EmitFromCoversRest(fileSize, cfg, 0, 0);
  }

  /** Every chunk lies within the byte range [lo, hi). */
  predicate WithinRange(cs: seq<Chunk>, lo: int, hi: int)
  {
    forall i :: 0 <= i < |cs| ==> lo <= cs[i].offset && 0 <= cs[i].size && cs[i].offset + cs[i].size <= hi
  }

  /** Every chunk emitted from `offset` on lies between `offset` and the end of the file. */
  lemma {:induction false} EmitFromWithin(fileSize: nat, cfg: ChunkConfig, offset: int, index: int)
    requires 0 < cfg.chunkSize <= cfg.threshold
    requires 0 <= offset <= fileSize
    ensures WithinRange(EmitFrom(fileSize, cfg, offset, index), offset, fileSize)
    decreases fileSize - offset
  {
    var r := EmitFrom(fileSize, cfg, offset, index);
    if fileSize - offset > cfg.threshold {
      var rest := EmitFrom(fileSize, cfg, offset + cfg.chunkSize, index + 1);
      EmitFromWithin(fileSize, cfg, offset + cfg.chunkSize, index + 1);
      assert r == [Chunk(offset, cfg.chunkSize, index)] + rest;
      forall i | 0 < i < |r| ensures r[i] == rest[i - 1] { }
    }
  }

  /** A positive multiple of `b` is at least `b`. */
  lemma MulAtLeast(k: int, b: int)
    requires k >= 1 && b > 0
    ensures k * b >= b
  {
    assert k * b == (k - 1) * b + b;
  }

  /** Division is determined by a quotient and a remainder in range. */
  lemma DivModUnique(x: int, b: int, q: int, m: int)
    requires b > 0 && 0 <= m < b && x == q * b + m
    ensures x / b == q && x % b == m
  {
    var q', m' := x / b, x % b;
    assert (q - q') * b == m' - m;
    if q' < q {
      MulAtLeast(q - q', b);
      assert false;
    } else if q' > q {
      MulAtLeast(q' - q, b);
      assert false;
    }
  }

  /**
   * Above the threshold, the count formula grows by one when one chunk is
   * added to the size (under a valid configuration).
   */
  lemma CountStep(n: nat, cfg: ChunkConfig)
    requires Valid(cfg) && n > cfg.threshold
    ensures NumberOfFileChunks(n, cfg) == 1 + NumberOfFileChunks(n - cfg.chunkSize, cfg)
  {
    var c, t := cfg.chunkSize, cfg.threshold;
    var q, m := n / c, n % c;
    assert n == q * c + m;
    assert n - c == (q - 1) * c + m;
    DivModUnique(n - c, c, q - 1, m);
    if n - c <= t {
      if n < 2 * c {
        DivModUnique(n, c, 1, n - c);
      } else {
        DivModUnique(n, c, 2, n - 2 * c);
      }
    }
  }

  /** From any offset, the loop emits as many chunks as the formula gives for the rest. */
  lemma {:induction false} EmitFromCount(fileSize: nat, cfg: ChunkConfig, offset: int, index: int)
    requires Valid(cfg)
    requires 0 <= offset <= fileSize
    ensures |EmitFrom(fileSize, cfg, offset, index)| == NumberOfFileChunks(fileSize - offset, cfg)
    decreases fileSize - offset
  {
    if fileSize - offset > cfg.threshold {
      EmitFromCount(fileSize, cfg, offset + cfg.chunkSize, index + 1);
      CountStep(fileSize - offset, cfg);
    }
  }

  /**
   * getNumberOfFileChunks agrees with the number of jobs generateUploadJob
   * emits, for every file size, under a valid configuration.
   */
  lemma NumberOfFileChunksAgrees(fileSize: nat, cfg: ChunkConfig)
    requires Valid(cfg)
    ensures |Chunks(fileSize, cfg)| == NumberOfFileChunks(fileSize, cfg)
  {
    EmitFromCount(fileSize, cfg, 0, 0);
  }

  /**
   * The agreement needs the threshold to stay below two chunks: with chunk
   * size 1 and threshold 2, a 3-byte file is emitted as two chunks while the
   * formula gives three.
   */
  lemma CountDisagreesAtTwoChunks()
    ensures |Chunks(3, ChunkConfig(1, 2))| == 2
    ensures NumberOfFileChunks(3, ChunkConfig(1, 2)) == 3
  {
  }
}
