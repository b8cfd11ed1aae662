/** Packing the serialized arguments of a job into one object (lithops/utils.py, agg_data),
    selecting the byte ranges of one chunk of calls (lithops/invokers.py, _invoke_task) and
    cutting the ranged download back into arguments (lithops/worker/utils.py,
    get_function_data). Serialized values are opaque bytes. */
module Payload {
  import opened Chunks
  import CallIds

  type Bytes = seq<bv8>

  /** Inclusive on both sides, as in the Range header; an empty item ends before it starts. */
  datatype Range = Range(first: int, last: int)

  type ByteRange = r: Range | r.first <= r.last + 1 witness Range(0, -1)

  function Length(r: ByteRange): nat {
    r.last - r.first + 1
  }

  datatype Response = Partial(body: Bytes) | RangeNotUsable

  /** Where item i starts in the joined object. */
  function Offset(items: seq<Bytes>, i: nat): nat
    requires i <= |items|
  {
    |Flatten(items[..i])|
  }

  lemma OffsetStep(items: seq<Bytes>, i: nat)
    requires i < |items|
    ensures Flatten(items[..i + 1]) == Flatten(items[..i]) + items[i]
    ensures Offset(items, i + 1) == Offset(items, i) + |items[i]|
  {
    assert items[..i + 1] == items[..i] + [items[i]];
    FlattenConcat(items[..i], [items[i]]);
    assert Flatten([items[i]]) == items[i] + Flatten([]);
  }

  lemma {:induction false} OffsetMonotone(items: seq<Bytes>, i: nat, j: nat)
    requires i <= j <= |items|
    ensures Flatten(items[..j]) == Flatten(items[..i]) + Flatten(items[i..j])
    ensures Offset(items, j) == Offset(items, i) + |Flatten(items[i..j])|
  {
    assert items[..j] == items[..i] + items[i..j];
    FlattenConcat(items[..i], items[i..j]);
  }

  ghost predicate RangesOf(items: seq<Bytes>, ranges: seq<ByteRange>) {
    && |ranges| == |items|
    && forall i :: 0 <= i < |items| ==>
         ranges[i] == Range(Offset(items, i), Offset(items, i + 1) - 1)
  }

  method AggData(items: seq<Bytes>) returns (joined: Bytes, ranges: seq<ByteRange>)
    ensures joined == Flatten(items)
    ensures RangesOf(items, ranges)
  {
    ranges := [];
    var pos := 0;
    joined := [];
    assert items[..0] == [];
    for i := 0 to |items|
      invariant pos == Offset(items, i)
      invariant joined == Flatten(items[..i])
      invariant |ranges| == i
      invariant forall k :: 0 <= k < i ==> ranges[k] == Range(Offset(items, k), Offset(items, k + 1) - 1)
    {
      OffsetStep(items, i);
      ranges := ranges + [Range(pos, pos + |items[i]| - 1)];
      joined := joined + items[i];
      pos := pos + |items[i]|;
    }
    assert items[..|items|] == items;
  }

  /** The ranges of the calls in one chunk, found by their formatted ids. */
  function SelectRanges(ranges: seq<ByteRange>, callIds: seq<string>): seq<ByteRange>
    requires forall c :: c in callIds ==> CallIds.AllDigits(c) && CallIds.ParseInt(c) < |ranges|
  {
    seq(|callIds|, i requires 0 <= i < |callIds| => ranges[CallIds.ParseInt(callIds[i])])
  }

  /** A `bytes=first-last` request (section 14.1.2 of RFC 9110): invalid when last < first,
      not satisfiable when it starts past the end, cut at the end of the object otherwise. */
  function RangedGet(stored: Bytes, first: int, last: int): Response {
    if 0 <= first <= last && first < |stored| then Partial(stored[first..Min(last + 1, |stored|)])
    else RangeNotUsable
  }

  /** Byte k of the object is asked for, and there. */
  predicate Requested(stored: Bytes, first: int, last: int, k: int) {
    0 <= first <= k <= last && k < |stored|
  }

  /** A request is served exactly if it asks for some byte that is there, and then with all of
      those bytes, in order. */
  lemma RangedGetIs(stored: Bytes, first: int, last: int)
    ensures RangedGet(stored, first, last).Partial? <==> exists k :: Requested(stored, first, last, k)
    ensures RangedGet(stored, first, last).Partial? ==>
              var body := RangedGet(stored, first, last).body;
              && (forall k :: Requested(stored, first, last, k) <==> 0 <= k - first < |body|)
              && forall j :: 0 <= j < |body| ==> body[j] == stored[first + j]
  {
    if 0 <= first <= last && first < |stored| {
      assert Requested(stored, first, last, first);
    }
  }

  /** Summed length of the first k ranges. */
  function Lengths(ranges: seq<ByteRange>, k: nat): nat
    requires k <= |ranges|
  {
    if k == 0 then 0 else Lengths(ranges, k - 1) + Length(ranges[k - 1])
  }

  /** What the worker cuts out: item k is as long as range k and starts where the
      items before it end. */
  ghost predicate CutBy(data: Bytes, ranges: seq<ByteRange>, loaded: seq<Bytes>) {
    && |loaded| == |ranges|
    && forall k {:trigger loaded[k]} :: 0 <= k < |ranges| ==>
         loaded[k] == PySlice(data, Lengths(ranges, k), Lengths(ranges, k + 1))
  }

  method GetFunctionData(data: Bytes, ranges: seq<ByteRange>) returns (loaded: seq<Bytes>)
    ensures CutBy(data, ranges, loaded)
  {
    loaded := [];
    var offset := 0;
    for i := 0 to |ranges|
      invariant offset == Lengths(ranges, i)
      invariant |loaded| == i
      invariant forall k {:trigger loaded[k]} :: 0 <= k < i ==>
                loaded[k] == PySlice(data, Lengths(ranges, k), Lengths(ranges, k + 1))
    {
      var length := Length(ranges[i]);
      loaded := loaded + [PySlice(data, offset, offset + length)];
      offset := offset + length;
    }
  }

  /** The ids that _invoke_task formats for calls lo up to hi. */
  function ChunkIds(lo: nat, hi: nat): seq<string>
    requires lo <= hi
  {
    seq(hi - lo, i requires 0 <= i => CallIds.Format(lo + i))
  }

  /** Looking up the formatted ids of a run of calls gives that run of ranges. */
  lemma SelectedRanges(ranges: seq<ByteRange>, lo: nat, hi: nat)
    requires lo <= hi <= |ranges|
    ensures forall c :: c in ChunkIds(lo, hi) ==> CallIds.AllDigits(c) && CallIds.ParseInt(c) < |ranges|
    ensures SelectRanges(ranges, ChunkIds(lo, hi)) == ranges[lo..hi]
  {
    forall i | 0 <= i < hi - lo
      ensures CallIds.AllDigits(ChunkIds(lo, hi)[i]) && CallIds.ParseInt(ChunkIds(lo, hi)[i]) == lo + i
    {
      CallIds.ParseFormat(lo + i);
    }
  }

  lemma {:induction false} LengthsOfRun(items: seq<Bytes>, ranges: seq<ByteRange>, lo: nat, hi: nat, k: nat)
    requires RangesOf(items, ranges) && lo + k <= hi <= |items|
    ensures Lengths(ranges[lo..hi], k) == Offset(items, lo + k) - Offset(items, lo)
  {
    if k > 0 {
      LengthsOfRun(items, ranges, lo, hi, k - 1);
      var j := lo + k - 1;
      assert ranges[j] == Range(Offset(items, j), Offset(items, j + 1) - 1);
    }
  }

  /** The download of calls lo..hi, when it is served. */
  function Download(items: seq<Bytes>, ranges: seq<ByteRange>, lo: nat, hi: nat): Response
    requires lo < hi <= |ranges|
    requires forall c :: c in ChunkIds(lo, hi) ==> CallIds.AllDigits(c) && CallIds.ParseInt(c) < |ranges|
  {
    var selected := SelectRanges(ranges, ChunkIds(lo, hi));
    RangedGet(Flatten(items), selected[0].first, selected[|selected| - 1].last)
  }

  lemma DownloadIs(items: seq<Bytes>, ranges: seq<ByteRange>, lo: nat, hi: nat)
    requires RangesOf(items, ranges) && lo < hi <= |items|
    ensures forall c :: c in ChunkIds(lo, hi) ==> CallIds.AllDigits(c) && CallIds.ParseInt(c) < |ranges|
    ensures Download(items, ranges, lo, hi) ==
            if Flatten(items[lo..hi]) == [] then RangeNotUsable else Partial(Flatten(items[lo..hi]))
  {
    SelectedRanges(ranges, lo, hi);
    OffsetMonotone(items, lo, hi);
    OffsetMonotone(items, hi, |items|);
    assert items[..|items|] == items;
    assert ranges[lo..hi][0] == ranges[lo] && ranges[lo..hi][hi - lo - 1] == ranges[hi - 1];
    assert ranges[lo] == Range(Offset(items, lo), Offset(items, lo + 1) - 1);
    assert ranges[hi - 1] == Range(Offset(items, hi - 1), Offset(items, hi - 1 + 1) - 1);
    var before, body, after := Flatten(items[..lo]), Flatten(items[lo..hi]), Flatten(items[hi..]);
    assert Flatten(items) == before + body + after;
    SliceMiddle(before, body, after);
  }

  /** Round trip. For any arguments and any run of consecutive calls lo..hi, the request can
      be served exactly when the arguments asked for are not all empty, and then the worker
      gets back exactly those calls' arguments, in order. */
  lemma RoundTrip(items: seq<Bytes>, ranges: seq<ByteRange>, lo: nat, hi: nat, loaded: seq<Bytes>)
    requires RangesOf(items, ranges) && lo < hi <= |items|
    ensures forall c :: c in ChunkIds(lo, hi) ==> CallIds.AllDigits(c) && CallIds.ParseInt(c) < |ranges|
    ensures var response := Download(items, ranges, lo, hi);
            && (response.Partial? <==> exists k :: lo <= k < hi && items[k] != [])
            && (response.Partial? && CutBy(response.body, SelectRanges(ranges, ChunkIds(lo, hi)), loaded) ==>
                  loaded == items[lo..hi])
  {
    SelectedRanges(ranges, lo, hi);
    DownloadIs(items, ranges, lo, hi);
    FlattenEmpty(items[lo..hi]);
    var response := Download(items, ranges, lo, hi);
    if response.Partial? {
      assert exists k :: 0 <= k < hi - lo && items[lo..hi][k] != [];
      var k :| 0 <= k < hi - lo && items[lo..hi][k] != [];
      assert items[lo + k] != [];
      if CutBy(response.body, ranges[lo..hi], loaded) {
        forall k | 0 <= k < hi - lo
          ensures loaded[k] == items[lo..hi][k]
        {
          ItemWithin(items, ranges, lo, hi, k);
        }
      }
    } else {
      forall k | lo <= k < hi
        ensures items[k] == []
      {
        assert items[lo..hi][k - lo] == items[k];
      }
    }
  }

  lemma {:induction false} FlattenEmpty(items: seq<Bytes>)
    ensures Flatten(items) == [] <==> forall k :: 0 <= k < |items| ==> items[k] == []
  {
    if items != [] {
      FlattenEmpty(items[1..]);
      assert items == [items[0]] + items[1..];
    }
  }

  /** Item lo+k sits in the download of lo..hi at the summed length of the items before it. */
  lemma ItemWithin(items: seq<Bytes>, ranges: seq<ByteRange>, lo: nat, hi: nat, k: nat)
    requires RangesOf(items, ranges) && lo + k < hi <= |items|
    ensures PySlice(Flatten(items[lo..hi]), Lengths(ranges[lo..hi], k), Lengths(ranges[lo..hi], k + 1)) == items[lo + k]
  {
    LengthsOfRun(items, ranges, lo, hi, k);
    LengthsOfRun(items, ranges, lo, hi, k + 1);
    OffsetInRun(items, lo, hi, k);
    OffsetInRun(items, lo, hi, k + 1);
    ItemOf(items[lo..hi], k);
  }

  lemma OffsetInRun(items: seq<Bytes>, lo: nat, hi: nat, k: nat)
    requires lo + k <= hi <= |items|
    ensures Offset(items[lo..hi], k) == Offset(items, lo + k) - Offset(items, lo)
  {
    OffsetMonotone(items, lo, lo + k);
    assert items[lo..lo + k] == items[lo..hi][..k];
  }

  /** Item k of a joined object begins where the items before it end. */
  lemma ItemOf(items: seq<Bytes>, k: nat)
    requires k < |items|
    ensures PySlice(Flatten(items), Offset(items, k), Offset(items, k + 1)) == items[k]
  {
    OffsetStep(items, k);
    OffsetMonotone(items, k + 1, |items|);
    assert items[..|items|] == items;
    SliceMiddle(Flatten(items[..k]), items[k], Flatten(items[k + 1..]));
  }

  lemma SliceMiddle(before: Bytes, item: Bytes, after: Bytes)
    ensures PySlice(before + item + after, |before|, |before| + |item|) == item
  {
  }
}
