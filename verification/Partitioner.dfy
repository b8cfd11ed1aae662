/** How one object is cut into partitions (lithops/job/partitioner.py, _split in
    _split_objects_from_object_storage). */
module Partitioner {
  import opened Chunks

  const CHUNK_THRESHOLD: nat := 128 * 1024

  /** `data_byte_range`, inclusive on both sides; None reads the whole object. */
  datatype Range = None | Bytes(first: int, last: int)

  datatype Piece = Piece(range: Range, chunkSize: nat, part: nat, totalParts: nat)

  /** A partition is not empty, and its range is in order. */
  type Partition = p: Piece |
      p.chunkSize > 0 && (p.range.Bytes? ==> 0 <= p.range.first <= p.range.last)
    witness Piece(None, 1, 1, 1)

  datatype Result<T> = Success(value: T) | ZeroDivision

  /** Python's `round` on exact reals. */
  function RoundHalfEven(x: real): int {
    var below := x.Floor;
    var rest := x - below as real;
    if rest < 0.5 || (rest == 0.5 && below % 2 == 0) then below else below + 1
  }

  /** 0 stands for an option that is not set. */
  function ObjChunkSize(objSize: nat, chunkSize: nat, chunkNumber: nat): int {
    if chunkNumber != 0 then
      objSize / chunkNumber + RoundHalfEven((objSize % chunkNumber) as real / chunkNumber as real + 0.5)
    else if chunkSize != 0 then chunkSize
    else objSize
  }

  /** A chunk number n asks for chunks of ceil(size / n) bytes. */
  lemma ChunkSizeIsCeil(objSize: nat, chunkSize: nat, chunkNumber: nat)
    requires chunkNumber != 0
    ensures ObjChunkSize(objSize, chunkSize, chunkNumber) == CeilDiv(objSize, chunkNumber)
  {
    var rest := objSize % chunkNumber;
    var fraction := rest as real / chunkNumber as real;
    assert 0.0 <= fraction < 1.0;
    if rest == 0 {
      assert (0.0 + 0.5).Floor == 0;
    } else {
      assert fraction > 0.0;
      if fraction < 0.5 {
        assert (fraction + 0.5).Floor == 0;
      } else {
        assert (fraction + 0.5).Floor == 1;
      }
    }
  }

  /** The partition that starts at `size`. */
  function Cut(objSize: nat, objChunkSize: nat, newline: bool, size: nat, part: nat): Partition
    requires size < objSize && objChunkSize > 0
  {
    if objSize <= objChunkSize then Piece(None, objSize, part, 0)
    else if !newline then Piece(Bytes(size, size + objChunkSize - 1), objChunkSize, part, 0)
    else if size + objChunkSize < objSize then
      Piece(Bytes(if size > 0 then size - 1 else 0, size + objChunkSize + CHUNK_THRESHOLD), objChunkSize, part, 0)
    else Piece(Bytes(size - 1, objSize - 1), objSize - size, part, 0)
  }

  /** The partitions from `size` on, before total_parts is filled in. */
  function Cuts(objSize: nat, objChunkSize: nat, newline: bool, size: nat, part: nat): seq<Partition>
    requires objChunkSize > 0
    decreases objSize - size
  {
    if size >= objSize - 1 then []
    else
      var p := Cut(objSize, objChunkSize, newline, size, part + 1);
      [p] + Cuts(objSize, p.chunkSize, newline, size + p.chunkSize, part + 1)
  }

  /** Every partition learns how many there are. */
  ghost predicate Totalled(cuts: seq<Partition>, partitions: seq<Partition>) {
    && |partitions| == |cuts|
    && forall k :: 0 <= k < |cuts| ==> partitions[k] == cuts[k].(totalParts := |cuts|)
  }

  /** Cut into chunks of c bytes: as many as it takes up to the last byte, all of that size but
      the last. */
  predicate CutInto(partitions: seq<Partition>, objSize: nat, c: nat) {
    0 < c && 0 < objSize && |partitions| == CeilDiv(objSize - 1, c) && AllFull(partitions, c)
  }

  predicate AllFull(partitions: seq<Partition>, c: nat) {
    forall k :: 0 <= k < |partitions| - 1 ==> partitions[k].chunkSize == c
  }

  /** The options mean what they say, and a chunk number comes first. */
  method Split(objSize: nat, chunkSize: nat, chunkNumber: nat, newline: bool)
    returns (r: Result<seq<Partition>>)
    ensures ObjChunkSize(objSize, chunkSize, chunkNumber) >= 0
    ensures r.Success? ==>
              && ObjChunkSize(objSize, chunkSize, chunkNumber) > 0
              && Totalled(Cuts(objSize, ObjChunkSize(objSize, chunkSize, chunkNumber), newline, 0, 0), r.value)
    ensures r.ZeroDivision? <==> objSize == 0 && (chunkNumber != 0 || chunkSize == 0)
    ensures objSize > 0 && chunkNumber != 0 ==> CutInto(r.value, objSize, CeilDiv(objSize, chunkNumber))
    ensures objSize > 0 && chunkNumber == 0 && chunkSize != 0 ==> CutInto(r.value, objSize, chunkSize)
    ensures objSize > 1 && chunkNumber == 0 && (chunkSize == 0 || objSize <= chunkSize) ==>
              r.value == [Piece(None, objSize, 1, 1)]
  {
    if chunkNumber != 0 {
      ChunkSizeIsCeil(objSize, chunkSize, chunkNumber);
      CeilDivIsLeast(objSize, chunkNumber, 0);
    }
    var objChunkSize := ObjChunkSize(objSize, chunkSize, chunkNumber);
    if objChunkSize == 0 {
      // The size of the log message divides by the chunk size.
      return ZeroDivision;
    }
    var cuts := SplitLoop(objSize, objChunkSize, newline);
    var partitions := FillTotals(cuts);
    if objSize > 0 {
      LoopCount(objSize, objChunkSize, newline, 0, 0);
      CutSizes(objSize, objChunkSize, newline, 0, 0);
      if 1 < objSize <= objChunkSize {
        OneChunk(objSize, objChunkSize, newline);
      }
    }
    return Success(partitions);
  }

  method SplitLoop(objSize: nat, initialChunkSize: nat, newline: bool) returns (partitions: seq<Partition>)
    requires initialChunkSize > 0
    ensures partitions == Cuts(objSize, initialChunkSize, newline, 0, 0)
  {
    var objChunkSize := initialChunkSize;
    partitions := [];
    var size, total := 0, 0;
    while size < objSize - 1
      invariant objChunkSize > 0
      invariant partitions + Cuts(objSize, objChunkSize, newline, size, total) ==
                Cuts(objSize, initialChunkSize, newline, 0, 0)
      decreases objSize - size
    {
      ghost var rest := Cuts(objSize, objChunkSize, newline, size, total);
      var range;
      if objSize <= objChunkSize {
        range, objChunkSize := None, objSize;
      } else if !newline {
        range := Bytes(size, size + objChunkSize - 1);
      } else if size + objChunkSize < objSize {
        range := Bytes(if size > 0 then size - 1 else 0, size + objChunkSize + CHUNK_THRESHOLD);
      } else {
        range, objChunkSize := Bytes(size - 1, objSize - 1), objSize - size;
      }
      total := total + 1;
      var partition := Piece(range, objChunkSize, total, 0);
      size := size + objChunkSize;
      ghost var later := Cuts(objSize, objChunkSize, newline, size, total);
      assert rest == [partition] + later;
      assert partitions + ([partition] + later) == (partitions + [partition]) + later;
      partitions := partitions + [partition];
    }
    assert Cuts(objSize, objChunkSize, newline, size, total) == [];
  }

  method FillTotals(cuts: seq<Partition>) returns (partitions: seq<Partition>)
    ensures Totalled(cuts, partitions)
  {
    partitions := cuts;
    for i := 0 to |cuts|
      invariant |partitions| == |cuts|
      invariant forall k :: 0 <= k < i ==> partitions[k] == cuts[k].(totalParts := |cuts|)
      invariant forall k :: i <= k < |cuts| ==> partitions[k] == cuts[k]
    {
      partitions := partitions[i := partitions[i].(totalParts := |cuts|)];
    }
  }

  // ----- Geometry

  /** Where the loop stops: the summed chunk sizes from `size` on, plus `size`. */
  ghost function End(cuts: seq<Partition>, size: nat): nat {
    if cuts == [] then size else End(cuts[1..], size + cuts[0].chunkSize)
  }

  lemma ModStep(x: nat, n: nat)
    requires 0 < n <= x
    ensures (x - n) % n == x % n
  {
    var q := x / n;
    assert x - n == (q - 1) * n + x % n;
    ModUnique(x - n, n, q - 1, x % n);
  }

  lemma ModUnique(x: nat, n: nat, q: int, r: nat)
    requires r < n && x == q * n + r
    ensures x % n == r
  {
    var q' := x / n;
    assert x == q' * n + x % n;
    assert (q - q') * n == x % n - r;
    if q - q' >= 1 {
      MulMonotone(1, q - q', n);
    } else if q - q' <= -1 {
      MulMonotone(q - q', -1, n);
    }
  }

  /** The loop stops one byte short exactly when the chunk size divides what is left before
      the last byte; otherwise the partitions reach the end of the object. */
  lemma {:induction false} LoopEnd(objSize: nat, c: nat, newline: bool, size: nat, part: nat)
    requires 0 < c && size < objSize - 1
    ensures var end := End(Cuts(objSize, c, newline, size, part), size);
            if objSize <= c then end == size + objSize
            else if (objSize - 1 - size) % c == 0 then end == objSize - 1
            else if newline then end == objSize else objSize <= end < objSize + c
    decreases objSize - size
  {
    var left := objSize - 1 - size;
    var chunk := Cut(objSize, c, newline, size, part + 1).chunkSize;
    var rest := Cuts(objSize, chunk, newline, size + chunk, part + 1);
    assert Cuts(objSize, c, newline, size, part)[1..] == rest;
    if left > c {
      assert chunk == c;
      ModStep(left, c);
      LoopEnd(objSize, c, newline, size + c, part + 1);
    } else if left == c {
      ModUnique(left, c, 1, 0);
      assert rest == [];
    } else {
      ModUnique(left, c, 0, left);
      assert rest == [];
    }
  }

  lemma {:induction false} LoopCount(objSize: nat, c: nat, newline: bool, size: nat, part: nat)
    requires 0 < c && size <= objSize - 1
    ensures |Cuts(objSize, c, newline, size, part)| == CeilDiv(objSize - 1 - size, c)
    decreases objSize - size
  {
    var left := objSize - 1 - size;
    if left > c {
      CeilDivStep(left, c);
      LoopCount(objSize, c, newline, size + c, part + 1);
    } else if left > 0 {
      CeilDivIsLeast(left, c, 1);
      CeilDivIsLeast(left, c, 0);
    } else {
      CeilDivIsLeast(0, c, 0);
    }
  }

  lemma {:induction false} CutSizes(objSize: nat, c: nat, newline: bool, size: nat, part: nat)
    requires 0 < c
    ensures AllFull(Cuts(objSize, c, newline, size, part), c)
    decreases objSize - size
  {
    if size < objSize - 1 {
      var p := Cut(objSize, c, newline, size, part + 1);
      var rest := Cuts(objSize, p.chunkSize, newline, size + p.chunkSize, part + 1);
      if p.chunkSize == c {
        CutSizes(objSize, c, newline, size + c, part + 1);
      } else {
        assert rest == [];
      }
      FullThenRest(p, rest, c);
      assert Cuts(objSize, c, newline, size, part) == [p] + rest;
    }
  }

  lemma FullThenRest(p: Partition, rest: seq<Partition>, c: nat)
    requires AllFull(rest, c) && (rest != [] ==> p.chunkSize == c)
    ensures AllFull([p] + rest, c)
  {
  }

  /** One unit more needs one more chunk exactly when the chunks before it are full. */
  lemma CeilDivNext(a: nat, c: nat)
    requires c > 0
    ensures CeilDiv(a + 1, c) == CeilDiv(a, c) + if a % c == 0 then 1 else 0
  {
    var q, r := a / c, a % c;
    assert a == q * c + r;
    if r + 1 < c {
      ModUnique(a + 1, c, q, r + 1);
      DivUnique(a + 1, c, q, r + 1);
    } else {
      assert a + 1 == (q + 1) * c;
      ModUnique(a + 1, c, q + 1, 0);
      DivUnique(a + 1, c, q + 1, 0);
    }
  }

  lemma DivUnique(x: nat, n: nat, q: nat, r: nat)
    requires r < n && x == q * n + r
    ensures x / n == q
  {
    assert x == x / n * n + x % n;
    QuotientUnique(n, q, r, x / n, x % n);
  }

  /** Chunk geometry, for every object and every way to set the chunk size: how many
      partitions there are, how far they reach, and, for a chunk number n, that there are at
      most n. For an object of at least two bytes the count is ceil(size / chunk), and the
      whole object is covered, exactly when the chunk size does not divide size - 1; a single
      byte is in no partition. */
  lemma Geometry(objSize: nat, chunkSize: nat, chunkNumber: nat, newline: bool)
    requires 0 < ObjChunkSize(objSize, chunkSize, chunkNumber)
    ensures var c := ObjChunkSize(objSize, chunkSize, chunkNumber);
            var cuts := Cuts(objSize, c, newline, 0, 0);
            && (objSize <= 1 ==> cuts == [])
            && (objSize >= 2 ==> |cuts| == CeilDiv(objSize, c) - (if (objSize - 1) % c == 0 then 1 else 0))
            && (objSize >= 2 ==> (End(cuts, 0) >= objSize <==> (objSize - 1) % c != 0))
            && (chunkNumber != 0 ==> |cuts| <= chunkNumber)
  {
    var c := ObjChunkSize(objSize, chunkSize, chunkNumber);
    if objSize >= 2 {
      LoopCount(objSize, c, newline, 0, 0);
      LoopEnd(objSize, c, newline, 0, 0);
      CeilDivNext(objSize - 1, c);
      if objSize <= c {
        ModUnique(objSize - 1, c, 0, objSize - 1);
      }
      if chunkNumber != 0 {
        AtMostChunkNumber(objSize, chunkNumber);
      }
    }
  }

  lemma AtMostChunkNumber(objSize: nat, n: nat)
    requires objSize > 0 && n > 0
    ensures ObjChunkSize(objSize, 0, n) > 0 && CeilDiv(objSize, ObjChunkSize(objSize, 0, n)) <= n
  {
    var c := ObjChunkSize(objSize, 0, n);
    ChunkSizeIsCeil(objSize, 0, n);
    CeilDivIsLeast(objSize, n, 0);
    CeilDivIsLeast(objSize, n, c);
    assert c * n == n * c;
    CeilDivIsLeast(objSize, c, n);
  }

  /** An object no larger than one chunk is one partition without a range. */
  lemma OneChunk(objSize: nat, c: nat, newline: bool)
    requires 2 <= objSize <= c
    ensures Cuts(objSize, c, newline, 0, 0) == [Piece(None, objSize, 1, 0)]
  {
    assert Cuts(objSize, objSize, newline, objSize, 1) == [];
  }
}
