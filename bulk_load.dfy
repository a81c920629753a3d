/** Chunked, fail-fast bulk insert of extracted records into a table
    (`uploadJsonToTable`). The table-insert client is replaced by an oracle
    `accepts`: whether the insert of the chunk with a given 1-based number
    succeeds. */
module BulkLoad {
  import opened Records

  const CHUNK_SIZE: nat := 500

  /** The smaller of two integers. */
  function Min(a: int, b: int): (m: int)
  {
    if a < b then a else b
  }

  /** `Math.ceil(n / CHUNK_SIZE)`: the number of chunks of `n` records. */
  function ChunkCount(n: nat): (c: nat)
    ensures c * CHUNK_SIZE >= n
    ensures c > 0 ==> (c - 1) * CHUNK_SIZE < n
  {
    (n + CHUNK_SIZE - 1) / CHUNK_SIZE
  }

  /** `data.slice(k * CHUNK_SIZE, (k + 1) * CHUNK_SIZE)`: the slice ends at
      the end of the input when that comes first. */
  function Chunk(data: seq<Record>, k: nat): (chunk: seq<Record>)
    requires k < ChunkCount(|data|)
  {
    data[k * CHUNK_SIZE .. Min((k + 1) * CHUNK_SIZE, |data|)]
  }

  /** The first `m` chunks, in order. */
  function Chunks(data: seq<Record>, m: nat): (chunks: seq<seq<Record>>)
    requires m <= ChunkCount(|data|)
  {
    seq(m, k requires 0 <= k < m => Chunk(data, k))
  }

  /** The concatenation of a list of chunks. */
  function Flatten(chunks: seq<seq<Record>>): (rows: seq<Record>)
  {
    if chunks == [] then [] else Flatten(chunks[..|chunks| - 1]) + chunks[|chunks| - 1]
  }

  /** The outcome of a load: every chunk inserted, or the error thrown for
      the first failing chunk, naming its number and the table. */
  datatype LoadResult = Loaded | ChunkFailed(chunkNumber: nat, tableName: string)

  /** The first chunk number in `from..count` whose insert fails, if any. */
  function FirstRejected(accepts: nat -> bool, from: nat, count: nat): (r: Option<nat>)
    ensures r.None? ==> forall k :: from <= k <= count ==> accepts(k)
    ensures r.Some? ==> from <= r.value <= count && !accepts(r.value)
    ensures r.Some? ==> forall k :: from <= k < r.value ==> accepts(k)
    decreases count + 1 - from
  {
    if from > count then None
    else if !accepts(from) then Some(from)
    else FirstRejected(accepts, from + 1, count)
  }

  /** What a load of `n` records into `tableName` reports. */
  function LoadOutcome(tableName: string, n: nat, accepts: nat -> bool): (result: LoadResult)
  {
    match FirstRejected(accepts, 1, ChunkCount(n))
    case None => Loaded
    case Some(k) => ChunkFailed(k, tableName)
  }

  /** How many inserts a load of `n` records issues: all chunks, or the
      chunks up to and including the first failing one. */
  function Attempts(n: nat, accepts: nat -> bool): (m: nat)
    ensures m <= ChunkCount(n)
  {
    match FirstRejected(accepts, 1, ChunkCount(n))
    case None => ChunkCount(n)
    case Some(k) => k
  }

  /** The loader's loop. `attempted` is the list of chunks handed to the
      insert client, in order; the last of them is the failing one when the
      result is `ChunkFailed`. */
  method UploadJsonToTable(tableName: string, data: seq<Record>, accepts: nat -> bool)
    returns (result: LoadResult, attempted: seq<seq<Record>>)
    ensures result == LoadOutcome(tableName, |data|, accepts)
    ensures |attempted| == Attempts(|data|, accepts)
    ensures attempted == Chunks(data, |attempted|)
    ensures result.ChunkFailed? ==> result.tableName == tableName && result.chunkNumber == |attempted|
    ensures data == [] ==> attempted == [] && result == Loaded
  {
    attempted := [];
    var i := 0;
    while i < |data|
      invariant i == |attempted| * CHUNK_SIZE
      invariant |attempted| <= ChunkCount(|data|)
      invariant forall k :: 0 <= k < |attempted| ==> attempted[k] == Chunk(data, k)
      invariant forall c :: 1 <= c <= |attempted| ==> accepts(c)
      decreases |data| - i
    {
      var chunk := data[i .. if i + CHUNK_SIZE < |data| then i + CHUNK_SIZE else |data|];
      var chunkNumber := i / CHUNK_SIZE + 1;
      assert chunkNumber == |attempted| + 1;
      assert chunk == Chunk(data, |attempted|);
      attempted := attempted + [chunk];
      if !accepts(chunkNumber) {
        result := ChunkFailed(chunkNumber, tableName);
        assert FirstRejected(accepts, 1, ChunkCount(|data|)) == Some(chunkNumber);
        return;
      }
      i := i + CHUNK_SIZE;
    }
    assert |attempted| == ChunkCount(|data|);
    assert FirstRejected(accepts, 1, ChunkCount(|data|)) == None;
    result := Loaded;
  }

  /** The first `m` chunks, put back together, are the first
      `m * CHUNK_SIZE` records (or all of them). */
  lemma {:induction false} FlattenChunks(data: seq<Record>, m: nat)
    requires m <= ChunkCount(|data|)
    ensures Flatten(Chunks(data, m)) == data[..Min(m * CHUNK_SIZE, |data|)]
  {
    if m > 0 {
      var cs := Chunks(data, m);
      assert cs[..m - 1] == Chunks(data, m - 1);
      FlattenChunks(data, m - 1);
      assert (m - 1) * CHUNK_SIZE < |data|;
      assert Min((m - 1) * CHUNK_SIZE, |data|) == (m - 1) * CHUNK_SIZE;
      assert data[..(m - 1) * CHUNK_SIZE] + data[(m - 1) * CHUNK_SIZE .. Min(m * CHUNK_SIZE, |data|)]
          == data[..Min(m * CHUNK_SIZE, |data|)];
    }
  }

  /** When every insert succeeds, the inserted chunks put back together are
      exactly the input. */
  lemma AllChunksRebuildInput(data: seq<Record>)
    ensures Flatten(Chunks(data, ChunkCount(|data|))) == data
  {
    FlattenChunks(data, ChunkCount(|data|));
    assert data[..|data|] == data;
  }

  /** Every chunk but the last holds exactly `CHUNK_SIZE` records; the last
      holds between 1 and `CHUNK_SIZE`. */
  lemma ChunkSizes(data: seq<Record>, k: nat)
    requires k < ChunkCount(|data|)
    ensures k < ChunkCount(|data|) - 1 ==> |Chunk(data, k)| == CHUNK_SIZE
    ensures 1 <= |Chunk(data, k)| <= CHUNK_SIZE
    ensures k == ChunkCount(|data|) - 1 ==> |Chunk(data, k)| == |data| - k * CHUNK_SIZE
  {
  }

  /** Fail-fast: when chunk `k` is the first whose insert fails, the load
      reports chunk `k` and the table, chunks after `k` are never attempted,
      and the rows that remain inserted — chunks 1 to k - 1, with no
      rollback — are the first `(k - 1) * CHUNK_SIZE` records. */
  lemma FailFast(tableName: string, data: seq<Record>, accepts: nat -> bool, k: nat)
    requires 1 <= k <= ChunkCount(|data|)
    requires forall c :: 1 <= c < k ==> accepts(c)
    requires !accepts(k)
    ensures LoadOutcome(tableName, |data|, accepts) == ChunkFailed(k, tableName)
    ensures Attempts(|data|, accepts) == k
    ensures Flatten(Chunks(data, k - 1)) == data[..(k - 1) * CHUNK_SIZE]
  {
    assert FirstRejected(accepts, 1, ChunkCount(|data|)) == Some(k);
    FlattenChunks(data, k - 1);
  }

  /** With every insert succeeding the load reports success after one
      insert per chunk. */
  lemma AllAccepted(tableName: string, data: seq<Record>, accepts: nat -> bool)
    requires forall c :: 1 <= c <= ChunkCount(|data|) ==> accepts(c)
    ensures LoadOutcome(tableName, |data|, accepts) == Loaded
    ensures Attempts(|data|, accepts) == ChunkCount(|data|)
  {
  }

  /** 1200 records make three inserts of 500, 500 and 200 records. */
  lemma TwelveHundredRecords(data: seq<Record>)
    requires |data| == 1200
    ensures ChunkCount(|data|) == 3
    ensures |Chunk(data, 0)| == 500 && |Chunk(data, 1)| == 500 && |Chunk(data, 2)| == 200
  {
  }

  /** If the second of three inserts fails, the third is never attempted and
      the first 500 records stay inserted. */
  lemma SecondOfThreeFails(tableName: string, data: seq<Record>, accepts: nat -> bool)
    requires |data| == 1200
    requires accepts(1) && !accepts(2)
    ensures LoadOutcome(tableName, |data|, accepts) == ChunkFailed(2, tableName)
    ensures Attempts(|data|, accepts) == 2
    ensures Flatten(Chunks(data, 1)) == data[..500]
  {
  }
}
