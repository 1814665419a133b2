/** The chunk loop of `process_netcdf_file`: a series of `total_steps` time
    steps is read in consecutive windows of at most `TIME_CHUNK_SIZE` steps;
    each window's DataFrame is counted and turned into upsert operations. */
module TimeChunks {
  import opened BulkOperations

  /** One week of hourly steps. */
  const TimeChunkSize: nat := 24 * 7

  /** `(total_steps + TIME_CHUNK_SIZE - 1) // TIME_CHUNK_SIZE`: the ceiling of
      `totalSteps / TimeChunkSize`. */
  function ChunkCount(totalSteps: nat): (c: nat)
    ensures totalSteps <= c * TimeChunkSize
    ensures c > 0 ==> (c - 1) * TimeChunkSize < totalSteps
    ensures c == 0 <==> totalSteps == 0
  {
    (totalSteps + TimeChunkSize - 1) / TimeChunkSize
  }

  function Min(a: nat, b: nat): nat {
    if a <= b then a else b
  }

  /** One pass of the loop: `chunk_num`, `start_step`, `end_step`. */
  datatype Window = Window(chunkNum: nat, start: nat, end: nat)

  /** The windows of `for i in range(from, total_steps, TIME_CHUNK_SIZE)`. */
  function WindowsFrom(from: nat, totalSteps: nat): seq<Window>
    decreases totalSteps - from
  {
    if from >= totalSteps then []
    else [Window(from / TimeChunkSize + 1, from, Min(from + TimeChunkSize, totalSteps))]
         + WindowsFrom(from + TimeChunkSize, totalSteps)
  }

  /** The windows the loop visits, in order. */
  function Windows(totalSteps: nat): seq<Window> {
    WindowsFrom(0, totalSteps)
  }

  /** The k-th window from a multiple of the chunk size, in closed form. */
  lemma {:induction false} WindowsFromShape(from: nat, totalSteps: nat)
    requires from % TimeChunkSize == 0
    ensures from < totalSteps ==> |WindowsFrom(from, totalSteps)| == (totalSteps - from + TimeChunkSize - 1) / TimeChunkSize
    ensures from >= totalSteps ==> WindowsFrom(from, totalSteps) == []
    ensures forall k :: 0 <= k < |WindowsFrom(from, totalSteps)| ==>
              WindowsFrom(from, totalSteps)[k]
              == Window(from / TimeChunkSize + k + 1, from + k * TimeChunkSize,
                        Min(from + k * TimeChunkSize + TimeChunkSize, totalSteps))
    decreases totalSteps - from
  {
    if from < totalSteps {
      var next := from + TimeChunkSize;
      WindowsFromShape(next, totalSteps);
      var ws := WindowsFrom(from, totalSteps);
      assert ws == [ws[0]] + WindowsFrom(next, totalSteps);
      assert next / TimeChunkSize == from / TimeChunkSize + 1;
      forall k | 1 <= k < |ws|
        ensures ws[k] == Window(from / TimeChunkSize + k + 1, from + k * TimeChunkSize,
                                Min(from + k * TimeChunkSize + TimeChunkSize, totalSteps))
      {
        assert ws[k] == WindowsFrom(next, totalSteps)[k - 1];
        assert next + (k - 1) * TimeChunkSize == from + k * TimeChunkSize;
      }
    }
  }

  /** The loop visits exactly `total_chunks` windows; the k-th has
      `chunk_num == k + 1` and covers `[k * 168, min(k * 168 + 168, total_steps))`. */
  lemma WindowsShape(totalSteps: nat)
    ensures |Windows(totalSteps)| == ChunkCount(totalSteps)
    ensures forall k :: 0 <= k < |Windows(totalSteps)| ==>
              Windows(totalSteps)[k] == Window(k + 1, k * TimeChunkSize, Min(k * TimeChunkSize + TimeChunkSize, totalSteps))
  {
    WindowsFromShape(0, totalSteps);
  }

  /** Step `t` lies in window `w`. */
  predicate InWindow(w: Window, t: nat) {
    w.start <= t < w.end
  }

  /** Some window of `ws` holds step `t`. */
  predicate Covered(ws: seq<Window>, t: nat) {
    exists k :: 0 <= k < |ws| && InWindow(ws[k], t)
  }

  /** Each window is non-empty, at most a week long, inside the series, and
      numbered one more than its position; the first starts at 0 and the last
      ends at `total_steps` with number `total_chunks`. */
  lemma WindowsBounded(totalSteps: nat)
    ensures var ws := Windows(totalSteps);
            && (forall k :: 0 <= k < |ws| ==>
                  ws[k].start < ws[k].end <= totalSteps && ws[k].end - ws[k].start <= TimeChunkSize
                  && ws[k].chunkNum == k + 1)
            && (|ws| > 0 ==> ws[0].start == 0 && ws[|ws| - 1].end == totalSteps
                              && ws[|ws| - 1].chunkNum == ChunkCount(totalSteps))
  {
    var ws := Windows(totalSteps);
    WindowsShape(totalSteps);
    var c := ChunkCount(totalSteps);
    forall k | 0 <= k < |ws|
      ensures ws[k].start < ws[k].end <= totalSteps
    {
      assert k * TimeChunkSize <= (c - 1) * TimeChunkSize;
    }
  }

  /** Each window ends where the next one starts. */
  lemma WindowsContiguous(totalSteps: nat)
    ensures var ws := Windows(totalSteps);
            forall k :: 0 <= k < |ws| - 1 ==> ws[k].end == ws[k + 1].start
  {
    var ws := Windows(totalSteps);
    WindowsShape(totalSteps);
    var c := ChunkCount(totalSteps);
    forall k | 0 <= k < |ws| - 1
      ensures ws[k].end == ws[k + 1].start
    {
      assert (k + 1) * TimeChunkSize <= (c - 1) * TimeChunkSize;
    }
  }

  /** The windows cover exactly the steps `0 .. total_steps - 1`. */
  lemma WindowsCover(totalSteps: nat)
    ensures forall t: nat :: t < totalSteps <==> Covered(Windows(totalSteps), t)
  {
    var ws := Windows(totalSteps);
    WindowsBounded(totalSteps);
    WindowsShape(totalSteps);
    var c := ChunkCount(totalSteps);
    forall t: nat | t < totalSteps
      ensures Covered(ws, t)
    {
      var k := t / TimeChunkSize;
      assert k * TimeChunkSize <= t < k * TimeChunkSize + TimeChunkSize;
      assert k < c;
      assert InWindow(ws[k], t);
    }
  }

  /** No step lies in two windows. */
  lemma WindowsDisjoint(totalSteps: nat)
    ensures var ws := Windows(totalSteps);
            forall t: nat, j, k :: 0 <= j < |ws| && 0 <= k < |ws| && InWindow(ws[j], t) && InWindow(ws[k], t)
                                   ==> j == k
  {
    var ws := Windows(totalSteps);
    WindowsShape(totalSteps);
    forall t: nat, j, k | 0 <= j < |ws| && 0 <= k < |ws| && InWindow(ws[j], t) && InWindow(ws[k], t)
      ensures j == k
    {
    }
  }

  /** What reading and transforming one window gave: an exception inside the
      chunk's `try` before it was counted (a missing variable, a failed load),
      or the DataFrame left after dropping the rows whose readings are all NaN. */
  datatype ChunkLoad = Failed | Loaded(frame: Frame)

  /** `num_records_in_chunk`, or nothing for a failed or empty chunk. */
  function RecordsIn(load: ChunkLoad): nat {
    if load.Loaded? then |load.frame.rows| else 0
  }

  /** `processed_records_in_file` after the given windows. */
  function RecordsProcessed(ws: seq<Window>, load: Window -> ChunkLoad): nat {
    if ws == [] then 0 else RecordsProcessed(ws[..|ws| - 1], load) + RecordsIn(load(ws[|ws| - 1]))
  }

  /** The batches handed to `load_data_to_mongo`: one per non-empty chunk that
      produced operations. */
  function BatchesWritten(ws: seq<Window>, load: Window -> ChunkLoad): seq<seq<UpsertOp>> {
    if ws == [] then [] else BatchesWritten(ws[..|ws| - 1], load) + BatchOf(load(ws[|ws| - 1]))
  }

  /** The batch one chunk contributes: none when it failed to load, was
      empty, or produced no operations. */
  function BatchOf(l: ChunkLoad): seq<seq<UpsertOp>> {
    if l.Loaded? && |l.frame.rows| > 0 && PreparedOperations(l.frame) != [] then [PreparedOperations(l.frame)] else []
  }

  function TotalOps(batches: seq<seq<UpsertOp>>): nat {
    if batches == [] then 0 else TotalOps(batches[..|batches| - 1]) + |batches[|batches| - 1]|
  }

  lemma TotalOpsAppend(a: seq<seq<UpsertOp>>, b: seq<seq<UpsertOp>>)
    ensures TotalOps(a + b) == TotalOps(a) + TotalOps(b)
    decreases |b|
  {
    if b == [] {
      assert a + b == a;
    } else {
      assert (a + b)[..|a + b| - 1] == a + b[..|b| - 1];
      TotalOpsAppend(a, b[..|b| - 1]);
    }
  }

  /** No more operations are written than records are counted: every batch
      comes from a counted chunk and has at most one operation per record. */
  lemma {:induction false} OpsBoundedByRecords(ws: seq<Window>, load: Window -> ChunkLoad)
    ensures TotalOps(BatchesWritten(ws, load)) <= RecordsProcessed(ws, load)
    decreases |ws|
  {
    if ws != [] {
      var init := ws[..|ws| - 1];
      OpsBoundedByRecords(init, load);
      var l := load(ws[|ws| - 1]);
      var tail := BatchOf(l);
      TotalOpsAppend(BatchesWritten(init, load), tail);
      if tail != [] {
        assert TotalOps(tail) == |PreparedOperations(l.frame)| by {
          assert tail[..0] == [];
        }
      }
    }
  }

  /** The loop's window bookkeeping: visiting the window that starts at `i`
      leaves the windows from `i + TimeChunkSize` on still to visit. */
  lemma NextWindow(visited: seq<Window>, i: nat, totalSteps: nat)
    requires i < totalSteps
    requires visited + WindowsFrom(i, totalSteps) == Windows(totalSteps)
    ensures visited + [Window(i / TimeChunkSize + 1, i, Min(i + TimeChunkSize, totalSteps))]
              + WindowsFrom(i + TimeChunkSize, totalSteps)
            == Windows(totalSteps)
  {
    var w := Window(i / TimeChunkSize + 1, i, Min(i + TimeChunkSize, totalSteps));
    assert WindowsFrom(i, totalSteps) == [w] + WindowsFrom(i + TimeChunkSize, totalSteps);
    assert visited + [w] + WindowsFrom(i + TimeChunkSize, totalSteps)
           == visited + ([w] + WindowsFrom(i + TimeChunkSize, totalSteps));
  }

  /** Visiting one more window adds its records and, if it yields
      operations, one batch. */
  lemma VisitOneMore(ws: seq<Window>, w: Window, load: Window -> ChunkLoad)
    ensures RecordsProcessed(ws + [w], load) == RecordsProcessed(ws, load) + RecordsIn(load(w))
    ensures BatchesWritten(ws + [w], load) == BatchesWritten(ws, load) + BatchOf(load(w))
  {
    assert (ws + [w])[..|ws|] == ws;
  }

  /** Failed and empty chunks add nothing: the count is the sum over the
      chunks that loaded a non-empty frame. */
  lemma {:induction false} OnlyLoadedChunksCount(ws: seq<Window>, load: Window -> ChunkLoad)
    requires forall k :: 0 <= k < |ws| ==> !load(ws[k]).Loaded? || load(ws[k]).frame.rows == []
    ensures RecordsProcessed(ws, load) == 0 && BatchesWritten(ws, load) == []
    decreases |ws|
  {
    if ws != [] {
      OnlyLoadedChunksCount(ws[..|ws| - 1], load);
    }
  }

  /** The body of the chunk loop once the window is loaded: a failed or
      empty chunk is skipped; otherwise its rows are counted and its
      operations, if any, are written as one batch. */
  method ProcessChunk(chunk: ChunkLoad) returns (records: nat, batch: seq<seq<UpsertOp>>)
    ensures records == RecordsIn(chunk)
    ensures batch == BatchOf(chunk)
    ensures |batch| <= 1 && (batch != [] ==> 0 < |batch[0]| <= records)
  {
    if chunk.Failed? || |chunk.frame.rows| == 0 {
      return 0, [];
    }
    records := |chunk.frame.rows|;
    var operations := PrepareBulkOperations(chunk.frame);
    batch := if operations != [] then [operations] else [];
  }

  /** The chunk loop of `process_netcdf_file` for a series of `totalSteps`
      steps; `load` stands for selecting, loading, transforming and pivoting a
      window. Returns the windows visited, `processed_records_in_file`, and the
      batches passed to `load_data_to_mongo`. */
  method ProcessChunks(totalSteps: nat, load: Window -> ChunkLoad)
    returns (visited: seq<Window>, processed: nat, batches: seq<seq<UpsertOp>>)
    ensures visited == Windows(totalSteps)
    ensures processed == RecordsProcessed(visited, load)
    ensures batches == BatchesWritten(visited, load)
  {
    visited, processed, batches := [], 0, [];
    var i := 0;
    while i < totalSteps
      invariant visited + WindowsFrom(i, totalSteps) == Windows(totalSteps)
      invariant processed == RecordsProcessed(visited, load)
      invariant batches == BatchesWritten(visited, load)
      decreases totalSteps - i
    {
      var w := Window(i / TimeChunkSize + 1, i, Min(i + TimeChunkSize, totalSteps));
      var next := i + TimeChunkSize;
      NextWindow(visited, i, totalSteps);
      assert visited + [w] + WindowsFrom(next, totalSteps) == Windows(totalSteps);
      VisitOneMore(visited, w, load);
      var records, batch := ProcessChunk(load(w));
      visited, processed, batches := visited + [w], processed + records, batches + batch;
      i := next;
    }
    assert WindowsFrom(i, totalSteps) == [];
    assert visited + [] == visited;
  }
}
