/** How an AWS Batch job is sized (aws_batch.py, invoke) and how each array index finds
    its own calls (aws_batch/entry_point.py). */
module AwsBatch {
  import opened Chunks
  import CallIds
  import opened Payload

  datatype Submission = ArrayJob(size: nat) | SingleJob

  /** The environment variable AWS_BATCH_JOB_ARRAY_INDEX takes these values; it is absent,
      and read as 0, for a job that is not an array. */
  function Indices(job: Submission): nat {
    match job
    case ArrayJob(size) => size
    case SingleJob => 1
  }

  class JobPayload {
    const totalCalls: nat
    const maxWorkers: nat
    var chunksize: nat
    var callIds: seq<string>
    var dataByteRanges: seq<ByteRange>

    constructor (totalCalls: nat, maxWorkers: nat, chunksize: nat, callIds: seq<string>, ranges: seq<ByteRange>)
      ensures this.totalCalls == totalCalls && this.maxWorkers == maxWorkers && this.chunksize == chunksize
      ensures this.callIds == callIds && this.dataByteRanges == ranges
    {
      this.totalCalls, this.maxWorkers, this.chunksize := totalCalls, maxWorkers, chunksize;
      this.callIds, this.dataByteRanges := callIds, ranges;
    }

    method Invoke() returns (job: Submission)
      requires totalCalls > 0 && maxWorkers > 0 && chunksize > 0
      modifies this`chunksize
      ensures 0 < chunksize
      ensures CeilDiv(totalCalls, chunksize) <= maxWorkers
      ensures CeilDiv(totalCalls, old(chunksize)) <= maxWorkers ==> chunksize == old(chunksize)
      ensures CeilDiv(totalCalls, old(chunksize)) > maxWorkers ==>
                forall c: nat :: 0 < c && CeilDiv(totalCalls, c) <= maxWorkers ==> chunksize <= c
      ensures Indices(job) == CeilDiv(totalCalls, chunksize)
      // AWS Batch does not take an array of one.
      ensures job.ArrayJob? <==> CeilDiv(totalCalls, chunksize) > 1
    {
      var size := chunksize;
      var totalWorkers := totalCalls / size + if totalCalls % size > 0 then 1 else 0;
      NeedsOne(totalCalls, size);
      if maxWorkers < totalWorkers {
        size := totalCalls / maxWorkers + if totalCalls % maxWorkers > 0 then 1 else 0;
        FewestCalls(totalCalls, maxWorkers);
        totalWorkers := totalCalls / size + if totalCalls % size > 0 then 1 else 0;
        NeedsOne(totalCalls, size);
        chunksize := size;
      }
      job := if totalWorkers > 1 then ArrayJob(totalWorkers) else SingleJob;
    }

    /** What the container at one array index does with its copy of the payload. */
    method SelectChunk(jobIndex: nat)
      requires chunksize > 0 && jobIndex < CeilDiv(|callIds|, chunksize)
      requires forall c :: c in callIds ==> CallIds.AllDigits(c) && CallIds.ParseInt(c) < |dataByteRanges|
      modifies this`callIds, this`dataByteRanges
      ensures jobIndex < |IterChunks(old(callIds), chunksize)|
      ensures callIds == IterChunks(old(callIds), chunksize)[jobIndex]
      ensures |dataByteRanges| == |callIds|
      ensures forall k :: 0 <= k < |callIds| ==>
                && callIds[k] in old(callIds)
                && dataByteRanges[k] == old(dataByteRanges)[CallIds.ParseInt(callIds[k])]
    {
      ChunkCount(callIds, chunksize);
      SelectedInside(callIds, chunksize, jobIndex);
      var callIdsRanges := IterChunks(callIds, chunksize);
      var selected := callIdsRanges[jobIndex];
      dataByteRanges := SelectRanges(dataByteRanges, selected);
      callIds := selected;
    }
  }

  lemma NeedsOne(total: nat, size: nat)
    requires total > 0 && size > 0
    ensures CeilDiv(total, size) > 0
  {
    CeilDivIsLeast(total, size, 0);
  }

  /** ceil(total/max) is positive, needs at most max workers, and no smaller chunk would do. */
  lemma FewestCalls(total: nat, max: nat)
    requires total > 0 && max > 0
    ensures CeilDiv(total, max) > 0
    ensures CeilDiv(total, CeilDiv(total, max)) <= max
    ensures forall c: nat :: 0 < c && CeilDiv(total, c) <= max ==> CeilDiv(total, max) <= c
  {
    var size := CeilDiv(total, max);
    CeilDivIsLeast(total, max, 0);
    CeilDivIsLeast(total, max, size);
    assert size * max == max * size;
    CeilDivIsLeast(total, size, max);
    forall c: nat | 0 < c && CeilDiv(total, c) <= max
      ensures size <= c
    {
      CeilDivIsLeast(total, c, max);
      assert c * max == max * c;
      CeilDivIsLeast(total, max, c);
    }
  }

  lemma SelectedInside(ids: seq<string>, n: nat, w: nat)
    requires n > 0 && w < |IterChunks(ids, n)|
    ensures forall c :: c in IterChunks(ids, n)[w] ==> c in ids
  {
    MulMonotone(0, w, n);
    ChunkAt(ids, n, w, w * n);
  }

  /** Call i is run by array index i / chunksize, at place i % chunksize of its chunk; with
      w * chunksize + k == i standing for that division, no other place holds its id. */
  lemma EveryCallOnce(total: nat, chunksize: nat, w: nat, k: nat, i: nat)
    requires k < chunksize && i == w * chunksize + k < total
    ensures |IterChunks(ChunkIds(0, total), chunksize)| == CeilDiv(total, chunksize)
    ensures var chunks := IterChunks(ChunkIds(0, total), chunksize);
            && w < |chunks| && k < |chunks[w]| && chunks[w][k] == CallIds.Format(i)
            && forall w', k' :: 0 <= w' < |chunks| && 0 <= k' < |chunks[w']| && chunks[w'][k'] == CallIds.Format(i) ==>
                 w' == w && k' == k
    ensures CallIds.AllDigits(CallIds.Format(i)) && CallIds.ParseInt(CallIds.Format(i)) == i
  {
    var ids := ChunkIds(0, total);
    var chunks := IterChunks(ids, chunksize);
    CallIds.ParseFormat(i);
    ChunkCount(ids, chunksize);
    ChunkElement(ids, chunksize, w, k, w * chunksize);
    assert ids[i] == CallIds.Format(i);
    forall w', k' | 0 <= w' < |chunks| && 0 <= k' < |chunks[w']| && chunks[w'][k'] == CallIds.Format(i)
      ensures w' == w && k' == k
    {
      SamePlace(total, chunksize, w, k, i, w', k');
    }
  }

  lemma SamePlace(total: nat, chunksize: nat, w: nat, k: nat, i: nat, w': nat, k': nat)
    requires k < chunksize && i == w * chunksize + k < total
    requires w' < |IterChunks(ChunkIds(0, total), chunksize)|
    requires k' < |IterChunks(ChunkIds(0, total), chunksize)[w']|
    requires IterChunks(ChunkIds(0, total), chunksize)[w'][k'] == CallIds.Format(i)
    ensures w' == w && k' == k
  {
    var start := w' * chunksize;
    MulMonotone(0, w', chunksize);
    ChunkElement(ChunkIds(0, total), chunksize, w', 0, start);
    ChunkElement(ChunkIds(0, total), chunksize, w', k', start);
    assert ChunkIds(0, total)[start + k'] == CallIds.Format(start + k');
    CallIds.ParseFormat(i);
    CallIds.ParseFormat(start + k');
    QuotientUnique(chunksize, w, k, w', k');
  }
}
