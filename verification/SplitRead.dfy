/** Splitting an object and reading every partition gives the object back: exactly when.
    Combines lithops/job/partitioner.py with lithops/utils.py, WrappedStreamingBodyPartition. */
module SplitRead {
  import opened Chunks
  import opened Partitioner
  import opened StreamReader

  function Concat(partitions: seq<Partition>, read: Partition -> seq<Byte>): seq<Byte> {
    if partitions == [] then [] else read(partitions[0]) + Concat(partitions[1..], read)
  }

  function Reader(obj: seq<Byte>, newline: Newline): Partition -> seq<Byte> {
    (p: Partition) => ReadPartition(obj, p, newline)
  }

  /** What all the functions of a job see together, in partition order. */
  function ReadAll(obj: seq<Byte>, partitions: seq<Partition>, newline: Newline): seq<Byte> {
    Concat(partitions, Reader(obj, newline))
  }

  /** `piece` at every position where a partition of a cut object starts. */
  function Pieces(objSize: nat, c: nat, piece: nat -> seq<Byte>, size: nat): seq<Byte>
    requires c > 0
    decreases objSize - size
  {
    if size >= objSize - 1 then [] else piece(size) + Pieces(objSize, c, piece, size + c)
  }

  /** The partitions that start at `first` and later read their pieces. */
  ghost predicate ReadsPieces(objSize: nat, c: nat, newline: bool, read: Partition -> seq<Byte>,
                              piece: nat -> seq<Byte>, first: nat)
    requires c > 0
  {
    forall size: nat, part: nat, total: nat ::
      size < objSize - 1 && (size == first || first + c <= size) ==>
        read(Cut(objSize, c, newline, size, part).(totalParts := total)) == piece(size)
  }

  /** Reading the partitions gives the pieces; the total that each learns does not matter. */
  lemma {:induction false} ConcatIsPieces(
    objSize: nat, c: nat, newline: bool, read: Partition -> seq<Byte>, piece: nat -> seq<Byte>,
    first: nat, size: nat, part: nat, partitions: seq<Partition>, total: nat)
    requires 0 < c < objSize && (size == first || first + c <= size)
    requires ReadsPieces(objSize, c, newline, read, piece, first)
    requires var cuts := Cuts(objSize, c, newline, size, part);
             |partitions| == |cuts| && forall k :: 0 <= k < |cuts| ==> partitions[k] == cuts[k].(totalParts := total)
    ensures Concat(partitions, read) == Pieces(objSize, c, piece, size)
    decreases objSize - size
  {
    if size < objSize - 1 {
      var p := Cut(objSize, c, newline, size, part + 1);
      var rest := Cuts(objSize, p.chunkSize, newline, size + p.chunkSize, part + 1);
      assert Cuts(objSize, c, newline, size, part) == [p] + rest;
      assert partitions[0] == p.(totalParts := total);
      assert Concat(partitions, read) == piece(size) + Concat(partitions[1..], read);
      if p.chunkSize == c {
        forall k | 0 <= k < |rest|
          ensures partitions[1..][k] == rest[k].(totalParts := total)
        {
          assert ([p] + rest)[k + 1] == rest[k];
        }
        ConcatIsPieces(objSize, c, newline, read, piece, first, size + c, part + 1, partitions[1..], total);
      } else {
        assert rest == [] && partitions[1..] == [];
      }
    }
  }

  lemma Adjacent(obj: seq<Byte>, from: nat, mid: nat, to: nat)
    requires from <= mid <= to <= |obj|
    ensures obj[from..mid] + obj[mid..to] == obj[from..to]
  {
  }

  // ----- One partition of a cut object, in positions of the object

  /** Where the partition that starts at `size` ends. */
  function Boundary(objSize: nat, c: nat, size: nat): nat
    requires 0 < c < objSize && size < objSize
  {
    Min(size + c, objSize)
  }

  /** How far into the object its stream reaches. */
  function WindowEnd(objSize: nat, c: nat, size: nat): nat
    requires 0 < c < objSize && size < objSize
  {
    if size + c < objSize then Min(size + c + CHUNK_THRESHOLD + 1, objSize) else objSize
  }

  /** The first newline between two positions, or -1. */
  function FirstNewline(obj: seq<Byte>, nl: Byte, from: nat, to: nat): (r: int)
    requires from <= to <= |obj|
    ensures r == -1 || from <= r < to
  {
    var r := Find(obj[from..to], nl);
    if r == -1 then -1 else from + r
  }

  lemma FirstNewlineIsFirst(obj: seq<Byte>, nl: Byte, from: nat, to: nat)
    requires from <= to <= |obj|
    ensures IsFirst(obj, nl, from, to, FirstNewline(obj, nl, from, to))
  {
    var part := obj[from..to];
    FindFromIsFirst(part, nl, 0);
    assert forall k :: from <= k < to ==> obj[k] == part[k - from];
  }

  function Start(obj: seq<Byte>, c: nat, nl: Byte, size: nat): nat
    requires 0 < c < |obj| && size < |obj|
  {
    if size == 0 || obj[size - 1] == nl then size
    else
      var m := FirstNewline(obj, nl, size, WindowEnd(|obj|, c, size));
      if m == -1 then size else m + 1
  }

  function Stop(obj: seq<Byte>, c: nat, nl: Byte, size: nat): nat
    requires 0 < c < |obj| && size < |obj|
  {
    var b := Boundary(|obj|, c, size);
    var m := FirstNewline(obj, nl, b - 1, WindowEnd(|obj|, c, size));
    if m == -1 then b - 1 else m + 1
  }

  lemma StartBeforeStop(obj: seq<Byte>, c: nat, nl: Byte, size: nat)
    requires 0 < c < |obj| && size < |obj|
    ensures Start(obj, c, nl, size) <= Stop(obj, c, nl, size) <= WindowEnd(|obj|, c, size) <= |obj|
  {
    var w := WindowEnd(|obj|, c, size);
    FirstNewlineIsFirst(obj, nl, size, w);
    FirstNewlineIsFirst(obj, nl, Boundary(|obj|, c, size) - 1, w);
  }

  /** The stream of a partition that has a byte before it: that byte, then its rows. */
  lemma Content(obj: seq<Byte>, c: nat, size: nat, part: nat)
    requires 0 < c < |obj| && size < |obj| && size != 1 && (size == 0 || c <= size)
    ensures var p := Cut(|obj|, c, true, size, part);
            && p.chunkSize == Boundary(|obj|, c, size) - size > 0
            && p.range.Bytes?
            && p.range.first == (if size > 0 then size - 1 else 0)
            && RangeContent(obj, p.range.first, p.range.last) == obj[p.range.first..WindowEnd(|obj|, c, size)]
  {
  }

  lemma RowsFound(obj: seq<Byte>, nl: Byte, size: nat, from: nat, w: nat)
    requires size <= from <= w <= |obj|
    ensures obj[size..w][from - size..] == obj[from..w]
    ensures var m := FirstNewline(obj, nl, from, w);
            Find(obj[size..w][from - size..], nl) == if m == -1 then -1 else m - from
  {
    assert obj[size..w][from - size..] == obj[from..w];
  }

  lemma StartFound(obj: seq<Byte>, c: nat, nl: Byte, size: nat)
    requires 0 < c < |obj| && size < |obj|
    ensures var firstByte := if size > 0 then [obj[size - 1]] else [];
            size + FirstRowStart(firstByte, obj[size..WindowEnd(|obj|, c, size)], nl) == Start(obj, c, nl, size)
  {
    var w := WindowEnd(|obj|, c, size);
    RowsFound(obj, nl, size, size, w);
    assert obj[size..w][0..] == obj[size..w];
  }

  lemma StopFound(obj: seq<Byte>, c: nat, nl: Byte, size: nat)
    requires 0 < c < |obj| && size < |obj|
    ensures var b := Boundary(|obj|, c, size);
            size + LastRowEnd(obj[size..WindowEnd(|obj|, c, size)], b - size, nl) == Stop(obj, c, nl, size)
  {
    RowsFound(obj, nl, size, Boundary(|obj|, c, size) - 1, WindowEnd(|obj|, c, size));
  }

  lemma SliceOfSlice(obj: seq<Byte>, size: nat, w: nat, from: nat, to: nat)
    requires size <= from <= to <= w <= |obj|
    ensures PySlice(obj[size..w], from - size, to - size) == obj[from..to]
  {
    var rows := obj[size..w];
    assert |rows| == w - size && PySlice(rows, from - size, to - size) == rows[from - size..to - size];
    forall k | 0 <= k < to - from
      ensures rows[from - size..to - size][k] == obj[from..to][k]
    {
    }
  }

  lemma TrimIsSlice(obj: seq<Byte>, c: nat, nl: Byte, size: nat)
    requires 0 < c < |obj| && size < |obj|
    ensures Start(obj, c, nl, size) <= Stop(obj, c, nl, size) <= |obj|
    ensures var b, w := Boundary(|obj|, c, size), WindowEnd(|obj|, c, size);
            var firstByte := if size > 0 then [obj[size - 1]] else [];
            Trim(firstByte, obj[size..w], b - size, nl) == obj[Start(obj, c, nl, size)..Stop(obj, c, nl, size)]
  {
    StartBeforeStop(obj, c, nl, size);
    StartFound(obj, c, nl, size);
    StopFound(obj, c, nl, size);
    var from, to, w := Start(obj, c, nl, size), Stop(obj, c, nl, size), WindowEnd(|obj|, c, size);
    var firstByte, rows := if size > 0 then [obj[size - 1]] else [], obj[size..w];
    assert FirstRowStart(firstByte, rows, nl) == from - size;
    assert LastRowEnd(rows, Boundary(|obj|, c, size) - size, nl) == to - size;
    assert Trim(firstByte, rows, Boundary(|obj|, c, size) - size, nl) == PySlice(rows, from - size, to - size);
    SliceOfSlice(obj, size, w, from, to);
  }

  /** The reader returns the bytes from Start to Stop. A partition must not begin at byte 1:
      its range would begin at 0, and the reader would take it for the first one. */
  lemma ReadIsSlice(obj: seq<Byte>, c: nat, nl: Byte, size: nat, part: nat, total: nat)
    requires 0 < c < |obj| && size < |obj| && size != 1 && (size == 0 || c <= size)
    ensures Start(obj, c, nl, size) <= Stop(obj, c, nl, size) <= |obj|
    ensures ReadPartition(obj, Cut(|obj|, c, true, size, part).(totalParts := total), Newline(nl)) ==
              obj[Start(obj, c, nl, size)..Stop(obj, c, nl, size)]
  {
    var p := Cut(|obj|, c, true, size, part).(totalParts := total);
    Content(obj, c, size, part);
    ReadRange(obj, p, nl, size, WindowEnd(|obj|, c, size));
    TrimIsSlice(obj, c, nl, size);
    assert p.chunkSize == Boundary(|obj|, c, size) - size;
  }

  lemma ReadRange(obj: seq<Byte>, p: Partition, nl: Byte, size: nat, w: nat)
    requires size < w <= |obj| && size != 1
    requires p.range.Bytes? && p.range.first == if size > 0 then size - 1 else 0
    requires RangeContent(obj, p.range.first, p.range.last) == obj[p.range.first..w]
    ensures var firstByte := if size > 0 then [obj[size - 1]] else [];
            ReadPartition(obj, p, Newline(nl)) == Trim(firstByte, obj[size..w], p.chunkSize, nl)
  {
    ReadOnceTrims(obj, size, w, p.chunkSize, nl);
  }

  lemma ReadOnceTrims(obj: seq<Byte>, size: nat, w: nat, chunk: nat, nl: Byte)
    requires size < w <= |obj| && size != 1 && chunk > 0
    ensures var first := if size > 0 then size - 1 else 0;
            var firstByte := if size > 0 then [obj[size - 1]] else [];
            ReadOnce(obj[first..w], first != 0, chunk, nl) == Trim(firstByte, obj[size..w], chunk, nl)
  {
    if size > 0 {
      var content := obj[size - 1..w];
      assert content[..1] == [obj[size - 1]];
      assert content[1..] == obj[size..w];
    } else {
      var content := obj[0..w];
      assert content[..0] == [];
      assert content[0..] == content;
    }
  }

  /** A newline between the last byte before the boundary and the threshold after it. */
  ghost predicate GoodBoundary(obj: seq<Byte>, nl: Byte, b: nat) {
    exists k :: 0 <= b - 1 <= k < Min(b + CHUNK_THRESHOLD + 1, |obj|) && obj[k] == nl
  }

  /** Between two partitions nothing is read twice; nothing is lost exactly when the
      boundary is good. */
  lemma Seam(obj: seq<Byte>, c: nat, nl: Byte, size: nat)
    requires 0 < c < |obj| && size + c < |obj|
    ensures Stop(obj, c, nl, size) <= Start(obj, c, nl, size + c) <= |obj|
    ensures Stop(obj, c, nl, size) == Start(obj, c, nl, size + c) <==> GoodBoundary(obj, nl, size + c)
  {
    var b, w := size + c, WindowEnd(|obj|, c, size);
    var m := FirstNewline(obj, nl, b - 1, w);
    FirstNewlineIsFirst(obj, nl, b - 1, w);
    FirstNewlineIsFirst(obj, nl, b, WindowEnd(|obj|, c, b));
    if m >= 0 {
      assert GoodBoundary(obj, nl, b);
      assert m >= b ==> FirstNewline(obj, nl, b, WindowEnd(|obj|, c, b)) == m;
    } else {
      assert !GoodBoundary(obj, nl, b);
    }
  }

  // ----- All partitions from `size` on

  /** Nothing is lost from `size` on: every later seam is good and the last read reaches
      the end of the object. */
  ghost predicate Lossless(obj: seq<Byte>, c: nat, nl: Byte, size: nat)
    requires 0 < c < |obj| && size < |obj| - 1
    decreases |obj| - size
  {
    if size + c < |obj| - 1 then GoodBoundary(obj, nl, size + c) && Lossless(obj, c, nl, size + c)
    else Stop(obj, c, nl, size) == |obj|
  }

  /** What ReadFrom says of the reads from `size` on. */
  ghost predicate Reads(obj: seq<Byte>, c: nat, nl: Byte, size: nat, all: seq<Byte>)
    requires 0 < c < |obj| && size < |obj| - 1
  {
    var from := Start(obj, c, nl, size);
    && from <= |obj|
    && if Lossless(obj, c, nl, size) then all == obj[from..] else |all| < |obj| - from
  }

  lemma ReadsOne(obj: seq<Byte>, c: nat, nl: Byte, size: nat, rest: seq<Byte>)
    requires 0 < c < |obj| && size < |obj| - 1
    requires if size + c < |obj| - 1 then Reads(obj, c, nl, size + c, rest) else rest == []
    ensures Start(obj, c, nl, size) <= Stop(obj, c, nl, size) <= |obj|
    ensures Reads(obj, c, nl, size, obj[Start(obj, c, nl, size)..Stop(obj, c, nl, size)] + rest)
  {
    StartBeforeStop(obj, c, nl, size);
    var from, to := Start(obj, c, nl, size), Stop(obj, c, nl, size);
    if size + c < |obj| - 1 {
      Seam(obj, c, nl, size);
      if Lossless(obj, c, nl, size) {
        assert obj[from..to] + obj[to..] == obj[from..];
      }
    } else if to == |obj| {
      assert obj[from..to] + [] == obj[from..];
    }
  }

  /** What the partition that starts at `size` reads. */
  function LinePiece(obj: seq<Byte>, c: nat, nl: Byte): nat -> seq<Byte>
    requires 0 < c < |obj|
  {
    (size: nat) =>
      if size < |obj| then
        StartBeforeStop(obj, c, nl, size);
        obj[Start(obj, c, nl, size)..Stop(obj, c, nl, size)]
      else []
  }

  predicate PieceAt(obj: seq<Byte>, c: nat, nl: Byte, piece: nat -> seq<Byte>, size: nat)
    requires 0 < c < |obj|
  {
    size < |obj| ==>
      && Start(obj, c, nl, size) <= Stop(obj, c, nl, size) <= |obj|
      && piece(size) == obj[Start(obj, c, nl, size)..Stop(obj, c, nl, size)]
  }

  ghost predicate IsLinePiece(obj: seq<Byte>, c: nat, nl: Byte, piece: nat -> seq<Byte>)
    requires 0 < c < |obj|
  {
    forall size: nat :: PieceAt(obj, c, nl, piece, size)
  }

  lemma LinePieceIs(obj: seq<Byte>, c: nat, nl: Byte)
    requires 0 < c < |obj|
    ensures IsLinePiece(obj, c, nl, LinePiece(obj, c, nl))
  {
    forall size: nat
      ensures PieceAt(obj, c, nl, LinePiece(obj, c, nl), size)
    {
      if size < |obj| {
        StartBeforeStop(obj, c, nl, size);
      }
    }
  }

  lemma PiecesStep(obj: seq<Byte>, c: nat, nl: Byte, piece: nat -> seq<Byte>, size: nat)
    requires 0 < c < |obj| && size < |obj| - 1 && IsLinePiece(obj, c, nl, piece)
    ensures Start(obj, c, nl, size) <= Stop(obj, c, nl, size) <= |obj|
    ensures Pieces(|obj|, c, piece, size) ==
              obj[Start(obj, c, nl, size)..Stop(obj, c, nl, size)] + Pieces(|obj|, c, piece, size + c)
    ensures size + c >= |obj| - 1 ==> Pieces(|obj|, c, piece, size + c) == []
  {
    assert PieceAt(obj, c, nl, piece, size);
  }

  lemma {:induction false} PiecesRead(obj: seq<Byte>, c: nat, nl: Byte, piece: nat -> seq<Byte>, size: nat)
    requires 0 < c < |obj| && size < |obj| - 1 && IsLinePiece(obj, c, nl, piece)
    ensures Reads(obj, c, nl, size, Pieces(|obj|, c, piece, size))
    decreases |obj| - size
  {
    if size + c < |obj| - 1 {
      PiecesRead(obj, c, nl, piece, size + c);
    }
    ReadsThen(obj, c, nl, piece, size);
  }

  lemma ReadsThen(obj: seq<Byte>, c: nat, nl: Byte, piece: nat -> seq<Byte>, size: nat)
    requires 0 < c < |obj| && size < |obj| - 1 && IsLinePiece(obj, c, nl, piece)
    requires size + c < |obj| - 1 ==> Reads(obj, c, nl, size + c, Pieces(|obj|, c, piece, size + c))
    ensures Reads(obj, c, nl, size, Pieces(|obj|, c, piece, size))
  {
    PiecesStep(obj, c, nl, piece, size);
    ReadsOne(obj, c, nl, size, Pieces(|obj|, c, piece, size + c));
  }

  lemma ReaderReadsPieces(obj: seq<Byte>, c: nat, nl: Byte, first: nat)
    requires 0 < c < |obj| && ((first == 0 && c >= 2) || (first == 2 && c == 1))
    ensures ReadsPieces(|obj|, c, true, Reader(obj, Newline(nl)), LinePiece(obj, c, nl), first)
  {
    var read, piece := Reader(obj, Newline(nl)), LinePiece(obj, c, nl);
    forall size: nat, part: nat, total: nat | size < |obj| - 1 && (size == first || first + c <= size)
      ensures read(Cut(|obj|, c, true, size, part).(totalParts := total)) == piece(size)
    {
      ReadIsSlice(obj, c, nl, size, part, total);
    }
  }

  /** b is `size` plus a multiple of c. */
  predicate OnGrid(c: nat, size: nat, b: nat)
    requires c > 0
  {
    size <= b && (b - size) % c == 0
  }

  lemma OnGridStep(c: nat, size: nat, b: nat)
    requires c > 0 && size < b
    ensures OnGrid(c, size, b) <==> b == size + c || OnGrid(c, size + c, b)
  {
    if b - size < c {
      ModUnique(b - size, c, 0, b - size);
    } else {
      ModStep(b - size, c);
    }
  }

  ghost predicate GoodBoundaries(obj: seq<Byte>, c: nat, nl: Byte, size: nat)
    requires c > 0
  {
    forall b :: size < b < |obj| - 1 && OnGrid(c, size, b) ==> GoodBoundary(obj, nl, b)
  }

  lemma GoodBoundariesStep(obj: seq<Byte>, c: nat, nl: Byte, size: nat)
    requires c > 0
    ensures GoodBoundaries(obj, c, nl, size) <==>
              (size + c < |obj| - 1 ==> GoodBoundary(obj, nl, size + c) && GoodBoundaries(obj, c, nl, size + c))
  {
    ModUnique(c, c, 1, 0);
    assert OnGrid(c, size, size + c);
    forall b | size < b && OnGrid(c, size, b)
      ensures b == size + c || OnGrid(c, size + c, b)
    {
      OnGridStep(c, size, b);
    }
    forall b | size + c < b && OnGrid(c, size + c, b)
      ensures OnGrid(c, size, b)
    {
      OnGridStep(c, size, b);
    }
  }

  /** The last read reaches the end exactly when the object ends with a newline and, should
      the loop have stopped one byte short, the byte before it is not one as well. */
  ghost predicate GoodEnd(obj: seq<Byte>, c: nat, nl: Byte, size: nat)
    requires c > 0 && |obj| >= 2
  {
    && obj[|obj| - 1] == nl
    && (OnGrid(c, size, |obj| - 1) ==> obj[|obj| - 2] != nl)
  }

  /** Either the first two lines are empty, or the first newline is one byte beyond what the
      first of the one-byte partitions is given. */
  predicate GoodFirstLine(obj: seq<Byte>, nl: Byte) {
    || (|obj| >= 2 && obj[0] == nl && obj[1] == nl)
    || FirstNewline(obj, nl, 0, |obj|) == CHUNK_THRESHOLD + 2
  }

  lemma {:induction false} LosslessMeans(obj: seq<Byte>, c: nat, nl: Byte, size: nat)
    requires 0 < c < |obj| && size < |obj| - 1
    ensures Lossless(obj, c, nl, size) <==> GoodEnd(obj, c, nl, size) && GoodBoundaries(obj, c, nl, size)
    decreases |obj| - size
  {
    GoodBoundariesStep(obj, c, nl, size);
    OnGridStep(c, size, |obj| - 1);
    FirstNewlineIsFirst(obj, nl, Boundary(|obj|, c, size) - 1, WindowEnd(|obj|, c, size));
    if size + c < |obj| - 1 {
      LosslessMeans(obj, c, nl, size + c);
    }
  }

  /** Split then read, for every object and every chunk size; the partitions are what Split
      returns. An object that is not cut comes back unless it is a single byte. A cut object
      comes back exactly when it ends with a newline, every boundary has one within the
      threshold, and, if the chunk size divides size - 1, the object does not end with an
      empty line. Chunks of one byte, which read the first line twice, need a first line of
      their own: two empty ones, or one that only the second reader sees the end of. */
  lemma SplitReadIdentity(obj: seq<Byte>, c: nat, nl: Byte, partitions: seq<Partition>)
    requires c >= 1 && Totalled(Cuts(|obj|, c, true, 0, 0), partitions)
    ensures ReadAll(obj, partitions, Newline(nl)) == obj <==>
              if |obj| <= c then |obj| != 1
              else
                && obj[|obj| - 1] == nl
                && ((|obj| - 1) % c == 0 ==> obj[|obj| - 2] != nl)
                && if c == 1 && |obj| > 2 then GoodFirstLine(obj, nl) && GoodBoundaries(obj, 1, nl, 1)
                   else GoodBoundaries(obj, c, nl, 0)
  {
    if |obj| <= c {
      UncutIdentity(obj, c, Newline(nl), partitions);
    } else if c >= 2 {
      CutIdentity(obj, c, nl, partitions);
    } else if |obj| == 2 {
      TwoByteIdentity(obj, nl, partitions);
    } else {
      OneByteIdentity(obj, nl, partitions);
    }
  }

  lemma UncutIdentity(obj: seq<Byte>, c: nat, newline: Newline, partitions: seq<Partition>)
    requires |obj| <= c && c > 0 && Totalled(Cuts(|obj|, c, newline.Newline?, 0, 0), partitions)
    ensures ReadAll(obj, partitions, newline) == obj <==> |obj| != 1
  {
    if |obj| >= 2 {
      OneChunk(|obj|, c, newline.Newline?);
      var read := Reader(obj, newline);
      assert partitions == [partitions[0]] && partitions[1..] == [];
      assert read(partitions[0]) == ReadPartition(obj, partitions[0], newline) == obj;
      assert Concat(partitions, read) == read(partitions[0]) + Concat(partitions[1..], read);
    } else {
      assert partitions == [];
    }
  }

  lemma CutIdentity(obj: seq<Byte>, c: nat, nl: Byte, partitions: seq<Partition>)
    requires 2 <= c < |obj| && Totalled(Cuts(|obj|, c, true, 0, 0), partitions)
    ensures ReadAll(obj, partitions, Newline(nl)) == obj <==> GoodEnd(obj, c, nl, 0) && GoodBoundaries(obj, c, nl, 0)
  {
    var read, piece := Reader(obj, Newline(nl)), LinePiece(obj, c, nl);
    ReaderReadsPieces(obj, c, nl, 0);
    ConcatIsPieces(|obj|, c, true, read, piece, 0, 0, 0, partitions, |partitions|);
    LinePieceIs(obj, c, nl);
    PiecesRead(obj, c, nl, piece, 0);
    LosslessMeans(obj, c, nl, 0);
    assert obj[0..] == obj;
  }

  /** The documented case: an object of whole lines, no line reaching further than the
      threshold past a boundary, and a chunk size that does not divide size - 1. */
  lemma WholeLinesComeBack(obj: seq<Byte>, c: nat, nl: Byte, partitions: seq<Partition>)
    requires 2 <= c && Totalled(Cuts(|obj|, c, true, 0, 0), partitions)
    requires 2 <= |obj| && obj[|obj| - 1] == nl && (|obj| - 1) % c != 0
    requires GoodBoundaries(obj, c, nl, 0)
    ensures ReadAll(obj, partitions, Newline(nl)) == obj
  {
    SplitReadIdentity(obj, c, nl, partitions);
  }

  predicate LineStart(obj: seq<Byte>, nl: Byte, i: nat)
    requires i <= |obj|
  {
    i == 0 || obj[i - 1] == nl
  }

  /** With good boundaries each read begins and ends where a line does. */
  lemma ReadsWholeLines(obj: seq<Byte>, c: nat, nl: Byte, size: nat)
    requires 2 <= c < |obj| && size < |obj| && obj[|obj| - 1] == nl
    requires size > 0 ==> GoodBoundary(obj, nl, size)
    requires size + c < |obj| ==> GoodBoundary(obj, nl, size + c)
    ensures Start(obj, c, nl, size) <= Stop(obj, c, nl, size) <= |obj|
    ensures LineStart(obj, nl, Start(obj, c, nl, size)) && LineStart(obj, nl, Stop(obj, c, nl, size))
  {
    StartBeforeStop(obj, c, nl, size);
    var b, w := Boundary(|obj|, c, size), WindowEnd(|obj|, c, size);
    FirstNewlineIsFirst(obj, nl, size, w);
    FirstNewlineIsFirst(obj, nl, b - 1, w);
    if size > 0 && obj[size - 1] != nl {
      var k :| 0 <= size - 1 <= k < Min(size + CHUNK_THRESHOLD + 1, |obj|) && obj[k] == nl;
    }
    if size + c < |obj| {
      var k :| 0 <= b - 1 <= k < Min(b + CHUNK_THRESHOLD + 1, |obj|) && obj[k] == nl;
    }
  }

  /** A line with its newline: bytes i up to j. */
  predicate Line(obj: seq<Byte>, nl: Byte, i: nat, j: nat) {
    && i < j <= |obj| && LineStart(obj, nl, i) && obj[j - 1] == nl
    && forall k :: i <= k < j - 1 ==> obj[k] != nl
  }

  /** Partition k is the one that starts at `start`, if an object is still cut there. */
  predicate CutIs(objSize: nat, c: nat, size: nat, part: nat, k: nat, start: nat)
    requires 0 < c
  {
    var cuts := Cuts(objSize, c, true, size, part);
    && (k < |cuts| <==> start < objSize - 1)
    && (k < |cuts| ==> cuts[k] == Cut(objSize, c, true, start, part + k + 1))
  }

  /** Partition k of a cut object is the one that starts at k * c. */
  lemma {:induction false} CutAt(objSize: nat, c: nat, size: nat, part: nat, k: nat, start: nat)
    requires 0 < c < objSize && size < objSize - 1 && start == size + k * c
    ensures CutIs(objSize, c, size, part, k, start)
    decreases k
  {
    if k > 0 {
      Distribute(k, -1, c);
      MulMonotone(0, k - 1, c);
      if size + c < objSize - 1 {
        CutAt(objSize, c, size + c, part + 1, k - 1, start);
      }
      NextCutIs(objSize, c, size, part, k, start);
    } else {
      CutsStep(objSize, c, size, part);
    }
  }

  lemma NextCutIs(objSize: nat, c: nat, size: nat, part: nat, k: nat, start: nat)
    requires 0 < c < objSize && size < objSize - 1 && k > 0 && start >= size + c
    requires size + c < objSize - 1 ==> CutIs(objSize, c, size + c, part + 1, k - 1, start)
    ensures CutIs(objSize, c, size, part, k, start)
  {
    CutsStep(objSize, c, size, part);
  }

  lemma CutsStep(objSize: nat, c: nat, size: nat, part: nat)
    requires 0 < c < objSize && size < objSize - 1
    ensures Cuts(objSize, c, true, size, part) == [Cut(objSize, c, true, size, part + 1)] +
              (if size + c < objSize - 1 then Cuts(objSize, c, true, size + c, part + 1) else [])
  {
  }

  /** What partition k reads, in positions of the object. */
  predicate ReadsSpan(obj: seq<Byte>, p: Partition, nl: Byte, from: nat, to: nat) {
    from <= to <= |obj| && ReadPartition(obj, p, Newline(nl)) == obj[from..to]
  }

  /** Where the read of partition k begins and ends. */
  function From(obj: seq<Byte>, c: nat, nl: Byte, k: nat): nat
    requires 0 < c
  {
    if |obj| <= c then 0 else if k * c < |obj| then Start(obj, c, nl, k * c) else |obj|
  }

  function To(obj: seq<Byte>, c: nat, nl: Byte, k: nat): nat
    requires 0 < c
  {
    if c < |obj| && k * c < |obj| then Stop(obj, c, nl, k * c) else |obj|
  }

  lemma SpanOf(obj: seq<Byte>, c: nat, nl: Byte, partitions: seq<Partition>, k: nat)
    requires 2 <= c < |obj| && Totalled(Cuts(|obj|, c, true, 0, 0), partitions) && k < |partitions|
    ensures k * c < |obj| - 1
    ensures ReadsSpan(obj, partitions[k], nl, From(obj, c, nl, k), To(obj, c, nl, k))
  {
    CutAt(|obj|, c, 0, 0, k, k * c);
    if k > 0 {
      MulMonotone(1, k, c);
    }
    ReadIsSlice(obj, c, nl, k * c, k + 1, |partitions|);
  }

  /** Each read starts where the one before ends, the first at 0 and the last at the end. */
  lemma SpansTile(obj: seq<Byte>, c: nat, nl: Byte, partitions: seq<Partition>, k: nat)
    requires 2 <= c < |obj| && Totalled(Cuts(|obj|, c, true, 0, 0), partitions) && k < |partitions|
    requires GoodEnd(obj, c, nl, 0) && GoodBoundaries(obj, c, nl, 0)
    ensures k == 0 ==> From(obj, c, nl, k) == 0
    ensures To(obj, c, nl, k) == if k + 1 < |partitions| then From(obj, c, nl, k + 1) else |obj|
    ensures LineStart(obj, nl, From(obj, c, nl, k)) && LineStart(obj, nl, To(obj, c, nl, k))
  {
    var size, next := k * c, (k + 1) * c;
    Distribute(k, 1, c);
    CutAt(|obj|, c, 0, 0, k, size);
    CutAt(|obj|, c, 0, 0, k + 1, next);
    MulMonotone(0, k, c);
    ModUnique(size, c, k, 0);
    ModUnique(next, c, k + 1, 0);
    assert OnGrid(c, 0, size) && OnGrid(c, 0, next);
    if next < |obj| - 1 {
      Seam(obj, c, nl, size);
    } else {
      LastReadsToEnd(obj, c, nl, size);
    }
    WholeLinesAt(obj, c, nl, size);
  }

  lemma LastReadsToEnd(obj: seq<Byte>, c: nat, nl: Byte, size: nat)
    requires 2 <= c < |obj| && size < |obj| - 1 <= size + c && OnGrid(c, 0, size)
    requires GoodEnd(obj, c, nl, 0) && OnGrid(c, 0, size + c)
    ensures Stop(obj, c, nl, size) == |obj|
  {
    FirstNewlineIsFirst(obj, nl, Boundary(|obj|, c, size) - 1, WindowEnd(|obj|, c, size));
  }

  lemma WholeLinesAt(obj: seq<Byte>, c: nat, nl: Byte, size: nat)
    requires 2 <= c < |obj| && size < |obj| - 1 && OnGrid(c, 0, size) && OnGrid(c, 0, size + c)
    requires GoodEnd(obj, c, nl, 0) && GoodBoundaries(obj, c, nl, 0)
    ensures LineStart(obj, nl, Start(obj, c, nl, size))
    ensures Stop(obj, c, nl, size) <= |obj| && LineStart(obj, nl, Stop(obj, c, nl, size))
  {
    if size + c == |obj| - 1 {
      assert GoodBoundary(obj, nl, size + c) by {
        assert obj[|obj| - 1] == nl;
      }
    }
    ReadsWholeLines(obj, c, nl, size);
  }

  /** The partition whose read contains position i. */
  lemma {:induction false} Holder(obj: seq<Byte>, c: nat, nl: Byte, partitions: seq<Partition>, i: nat, k: nat)
    returns (h: nat)
    requires 2 <= c < |obj| && Totalled(Cuts(|obj|, c, true, 0, 0), partitions) && k < |partitions|
    requires GoodEnd(obj, c, nl, 0) && GoodBoundaries(obj, c, nl, 0) && From(obj, c, nl, k) <= i < |obj|
    ensures h < |partitions| && From(obj, c, nl, h) <= i < To(obj, c, nl, h)
    decreases |partitions| - k
  {
    SpansTile(obj, c, nl, partitions, k);
    if i < To(obj, c, nl, k) {
      h := k;
    } else {
      h := Holder(obj, c, nl, partitions, i, k + 1);
    }
  }

  /** Reads come one after the other. */
  lemma {:induction false} SpansInOrder(obj: seq<Byte>, c: nat, nl: Byte, partitions: seq<Partition>, k: nat, k': nat)
    requires 2 <= c < |obj| && Totalled(Cuts(|obj|, c, true, 0, 0), partitions) && k < k' < |partitions|
    requires GoodEnd(obj, c, nl, 0) && GoodBoundaries(obj, c, nl, 0)
    ensures To(obj, c, nl, k) <= From(obj, c, nl, k')
    decreases k'
  {
    SpanMeets(obj, c, nl, partitions, k' - 1);
    if k < k' - 1 {
      SpansInOrder(obj, c, nl, partitions, k, k' - 1);
    }
  }

  lemma SpanMeets(obj: seq<Byte>, c: nat, nl: Byte, partitions: seq<Partition>, k: nat)
    requires 2 <= c < |obj| && Totalled(Cuts(|obj|, c, true, 0, 0), partitions) && k + 1 < |partitions|
    requires GoodEnd(obj, c, nl, 0) && GoodBoundaries(obj, c, nl, 0)
    ensures From(obj, c, nl, k) <= To(obj, c, nl, k) == From(obj, c, nl, k + 1)
  {
    SpansTile(obj, c, nl, partitions, k);
    SpanOf(obj, c, nl, partitions, k);
  }

  predicate Holds(obj: seq<Byte>, c: nat, nl: Byte, k: nat, i: nat, j: nat)
    requires 0 < c
  {
    From(obj, c, nl, k) <= i && j <= To(obj, c, nl, k)
  }

  /** The read of partition k has no byte from i to j. */
  predicate Avoids(obj: seq<Byte>, c: nat, nl: Byte, k: nat, i: nat, j: nat)
    requires 0 < c
  {
    To(obj, c, nl, k) <= i || j <= From(obj, c, nl, k)
  }

  ghost predicate OnlyHolder(obj: seq<Byte>, c: nat, nl: Byte, partitions: seq<Partition>, i: nat, j: nat, h: nat)
    requires 0 < c
  {
    && h < |partitions| && Holds(obj, c, nl, h, i, j)
    && forall k :: 0 <= k < |partitions| && k != h ==> Avoids(obj, c, nl, k, i, j)
  }

  lemma NoStartInside(obj: seq<Byte>, nl: Byte, i: nat, j: nat, b: nat)
    requires Line(obj, nl, i, j) && i < b <= |obj| && LineStart(obj, nl, b)
    ensures j <= b
  {
  }

  lemma LineHolder(obj: seq<Byte>, c: nat, nl: Byte, partitions: seq<Partition>, i: nat, j: nat) returns (h: nat)
    requires 2 <= c < |obj| && Totalled(Cuts(|obj|, c, true, 0, 0), partitions) && Line(obj, nl, i, j)
    requires GoodEnd(obj, c, nl, 0) && GoodBoundaries(obj, c, nl, 0)
    ensures OnlyHolder(obj, c, nl, partitions, i, j, h)
  {
    CutAt(|obj|, c, 0, 0, 0, 0);
    SpansTile(obj, c, nl, partitions, 0);
    h := Holder(obj, c, nl, partitions, i, 0);
    SpansTile(obj, c, nl, partitions, h);
    NoStartInside(obj, nl, i, j, To(obj, c, nl, h));
    forall k | 0 <= k < |partitions| && k != h
      ensures Avoids(obj, c, nl, k, i, j)
    {
      if k < h {
        SpansInOrder(obj, c, nl, partitions, k, h);
      } else {
        SpansInOrder(obj, c, nl, partitions, h, k);
      }
    }
  }

  lemma UncutHolder(obj: seq<Byte>, c: nat, nl: Byte, partitions: seq<Partition>, i: nat, j: nat)
    requires 2 <= |obj| <= c && Totalled(Cuts(|obj|, c, true, 0, 0), partitions) && i < j <= |obj|
    ensures OnlyHolder(obj, c, nl, partitions, i, j, 0)
    ensures ReadsSpan(obj, partitions[0], nl, From(obj, c, nl, 0), To(obj, c, nl, 0))
  {
    OneChunk(|obj|, c, true);
    assert obj[0..|obj|] == obj;
  }

  /** Every line is in exactly one partition: where an object comes back at all, each partition
      reads the bytes from From to To, and of each line all bytes are read by one partition,
      and none by any other. */
  lemma LineInOnePartition(obj: seq<Byte>, c: nat, nl: Byte, partitions: seq<Partition>, i: nat, j: nat)
    requires 2 <= c && Totalled(Cuts(|obj|, c, true, 0, 0), partitions)
    requires ReadAll(obj, partitions, Newline(nl)) == obj && Line(obj, nl, i, j)
    ensures forall k :: 0 <= k < |partitions| ==>
              ReadsSpan(obj, partitions[k], nl, From(obj, c, nl, k), To(obj, c, nl, k))
    ensures exists h :: OnlyHolder(obj, c, nl, partitions, i, j, h)
  {
    SplitReadIdentity(obj, c, nl, partitions);
    if |obj| <= c {
      UncutHolder(obj, c, nl, partitions, i, j);
      OneChunk(|obj|, c, true);
    } else {
      assert OnGrid(c, 0, |obj| - 1) <==> (|obj| - 1) % c == 0;
      forall k | 0 <= k < |partitions|
        ensures ReadsSpan(obj, partitions[k], nl, From(obj, c, nl, k), To(obj, c, nl, k))
      {
        SpanOf(obj, c, nl, partitions, k);
      }
      var h := LineHolder(obj, c, nl, partitions, i, j);
    }
  }

  // ----- Without a newline character

  function PlainPiece(obj: seq<Byte>, c: nat): nat -> seq<Byte>
    requires c > 0
  {
    (size: nat) => RangeContent(obj, size, size + c - 1)
  }

  lemma {:induction false} PlainPieces(obj: seq<Byte>, c: nat, piece: nat -> seq<Byte>, size: nat)
    requires 0 < c < |obj| && size < |obj| - 1 && piece == PlainPiece(obj, c)
    ensures Pieces(|obj|, c, piece, size) == obj[size..if OnGrid(c, size, |obj| - 1) then |obj| - 1 else |obj|]
    decreases |obj| - size
  {
    OnGridStep(c, size, |obj| - 1);
    assert piece(size) == RangeContent(obj, size, size + c - 1);
    var end := if OnGrid(c, size, |obj| - 1) then |obj| - 1 else |obj|;
    if size + c < |obj| - 1 {
      PlainPieces(obj, c, piece, size + c);
      Adjacent(obj, size, size + c, end);
    } else {
      assert Pieces(|obj|, c, piece, size + c) == [];
    }
  }

  lemma PlainReads(obj: seq<Byte>, c: nat)
    requires 0 < c < |obj|
    ensures ReadsPieces(|obj|, c, false, Reader(obj, NoNewline), PlainPiece(obj, c), 0)
  {
  }

  /** Without a newline character the parts of a cut object are the object exactly when the
      chunk size does not divide size - 1; otherwise its last byte is in no part. */
  lemma PlainSplitReadIdentity(obj: seq<Byte>, c: nat, partitions: seq<Partition>)
    requires 0 < c < |obj| && |obj| >= 2 && Totalled(Cuts(|obj|, c, false, 0, 0), partitions)
    ensures ReadAll(obj, partitions, NoNewline) == if (|obj| - 1) % c == 0 then obj[..|obj| - 1] else obj
  {
    PlainReads(obj, c);
    ConcatIsPieces(|obj|, c, false, Reader(obj, NoNewline), PlainPiece(obj, c), 0, 0, 0, partitions, |partitions|);
    PlainPieces(obj, c, PlainPiece(obj, c), 0);
    assert obj[0..|obj|] == obj && obj[0..|obj| - 1] == obj[..|obj| - 1];
  }

  // ----- Chunks of one byte

  /** What the first two partitions of an object cut into bytes read: their ranges both begin
      at 0, so both are taken for the first one. */
  function FirstRead(obj: seq<Byte>, nl: Byte, size: nat): seq<Byte>
    requires |obj| >= 2 && size < |obj|
  {
    obj[..FirstNewline(obj, nl, 0, WindowEnd(|obj|, 1, size)) + 1]
  }

  lemma ReadsFirst(obj: seq<Byte>, nl: Byte, size: nat, part: nat, total: nat)
    requires |obj| >= 2 && size <= 1 && size + 1 < |obj|
    ensures ReadPartition(obj, Cut(|obj|, 1, true, size, part).(totalParts := total), Newline(nl))
            == FirstRead(obj, nl, size)
  {
    var w := WindowEnd(|obj|, 1, size);
    var rows := obj[0..w];
    var p := Cut(|obj|, 1, true, size, part);
    assert p.chunkSize == 1 && p.range == Bytes(0, size + 1 + CHUNK_THRESHOLD);
    assert RangeContent(obj, 0, size + 1 + CHUNK_THRESHOLD) == rows;
    assert rows[..0] == [] && rows[0..] == rows;
    RowsFound(obj, nl, 0, 0, w);
    SliceOfSlice(obj, 0, w, 0, FirstNewline(obj, nl, 0, w) + 1);
    assert obj[0..FirstNewline(obj, nl, 0, w) + 1] == FirstRead(obj, nl, size);
  }

  lemma FirstTwoRead(obj: seq<Byte>, nl: Byte, partitions: seq<Partition>)
    requires |obj| >= 3 && Totalled(Cuts(|obj|, 1, true, 0, 0), partitions)
    ensures |partitions| >= 2
    ensures ReadPartition(obj, partitions[0], Newline(nl)) == FirstRead(obj, nl, 0)
    ensures ReadPartition(obj, partitions[1], Newline(nl)) == FirstRead(obj, nl, 1)
  {
    OneByteCuts(|obj|);
    OneByteParts(|obj|, partitions, partitions[1..][1..]);
    ReadsFirst(obj, nl, 0, 1, |partitions|);
    ReadsFirst(obj, nl, 1, 2, |partitions|);
  }

  /** Chunks of one byte, for every object of at least three bytes with a newline in the first
      window: the second partition reads the first line again. */
  lemma OneByteChunksRepeat(obj: seq<Byte>, nl: Byte, partitions: seq<Partition>)
    requires |obj| >= 3 && Totalled(Cuts(|obj|, 1, true, 0, 0), partitions)
    requires FirstNewline(obj, nl, 0, WindowEnd(|obj|, 1, 0)) != -1
    ensures |partitions| >= 2
    ensures ReadPartition(obj, partitions[0], Newline(nl)) == ReadPartition(obj, partitions[1], Newline(nl))
              == obj[..FirstNewline(obj, nl, 0, |obj|) + 1] != []
  {
    FirstTwoRead(obj, nl, partitions);
    SameFirst(obj, nl, 0, WindowEnd(|obj|, 1, 0), WindowEnd(|obj|, 1, 1));
    SameFirst(obj, nl, 0, WindowEnd(|obj|, 1, 0), |obj|);
  }

  lemma OneByteCuts(n: nat)
    requires n >= 3
    ensures Cuts(n, 1, true, 0, 0) == [Cut(n, 1, true, 0, 1), Cut(n, 1, true, 1, 2)] + Cuts(n, 1, true, 2, 2)
  {
    assert Cuts(n, 1, true, 0, 0) == [Cut(n, 1, true, 0, 1)] + Cuts(n, 1, true, 1, 1);
    assert Cuts(n, 1, true, 1, 1) == [Cut(n, 1, true, 1, 2)] + Cuts(n, 1, true, 2, 2);
  }

  /** A newline found is also the first one of a longer part. */
  lemma SameFirst(obj: seq<Byte>, nl: Byte, from: nat, to: nat, to': nat)
    requires from <= to <= to' <= |obj| && FirstNewline(obj, nl, from, to) != -1
    ensures FirstNewline(obj, nl, from, to') == FirstNewline(obj, nl, from, to)
  {
    FirstNewlineIsFirst(obj, nl, from, to);
    FirstNewlineIsFirst(obj, nl, from, to');
  }

  lemma TwoByteIdentity(obj: seq<Byte>, nl: Byte, partitions: seq<Partition>)
    requires |obj| == 2 && Totalled(Cuts(2, 1, true, 0, 0), partitions)
    ensures ReadAll(obj, partitions, Newline(nl)) == obj <==> obj[1] == nl && obj[0] != nl
  {
    assert Cuts(2, 1, true, 0, 0) == [Cut(2, 1, true, 0, 1)] + Cuts(2, 1, true, 1, 1);
    var read := Reader(obj, Newline(nl));
    ReadsFirst(obj, nl, 0, 1, 1);
    assert partitions == [Cut(2, 1, true, 0, 1).(totalParts := 1)] && partitions[1..] == [];
    assert Concat(partitions, read) == read(partitions[0]) + Concat(partitions[1..], read);
    assert Concat(partitions[1..], read) == [];
    FirstNewlineIsFirst(obj, nl, 0, 2);
    assert obj[..2] == obj;
  }

  lemma TwoThenRest(partitions: seq<Partition>, read: Partition -> seq<Byte>, rest: seq<Partition>)
    requires |partitions| >= 2 && rest == partitions[1..][1..]
    ensures Concat(partitions, read) == read(partitions[0]) + (read(partitions[1]) + Concat(rest, read))
  {
    assert partitions[1..][0] == partitions[1];
  }

  /** The first line twice, then what the later partitions read. */
  lemma OneByteReadAll(obj: seq<Byte>, nl: Byte, partitions: seq<Partition>)
    requires |obj| >= 3 && Totalled(Cuts(|obj|, 1, true, 0, 0), partitions)
    ensures ReadAll(obj, partitions, Newline(nl)) ==
              FirstRead(obj, nl, 0) + (FirstRead(obj, nl, 1) + Pieces(|obj|, 1, LinePiece(obj, 1, nl), 2))
  {
    OneByteCuts(|obj|);
    var n, read, piece := |obj|, Reader(obj, Newline(nl)), LinePiece(obj, 1, nl);
    var rest := partitions[1..][1..];
    OneByteParts(n, partitions, rest);
    ReaderReadsPieces(obj, 1, nl, 2);
    ConcatIsPieces(n, 1, true, read, piece, 2, 2, 2, rest, |partitions|);
    ReadsFirst(obj, nl, 0, 1, |partitions|);
    ReadsFirst(obj, nl, 1, 2, |partitions|);
    TwoThenRest(partitions, read, rest);
  }

  lemma OneByteParts(n: nat, partitions: seq<Partition>, rest: seq<Partition>)
    requires n >= 3 && Totalled(Cuts(n, 1, true, 0, 0), partitions)
    requires |partitions| >= 2 ==> rest == partitions[1..][1..]
    ensures |partitions| >= 2
    ensures partitions[0] == Cut(n, 1, true, 0, 1).(totalParts := |partitions|)
    ensures partitions[1] == Cut(n, 1, true, 1, 2).(totalParts := |partitions|)
    ensures var cuts := Cuts(n, 1, true, 2, 2);
            |rest| == |cuts| && forall k :: 0 <= k < |cuts| ==> rest[k] == cuts[k].(totalParts := |partitions|)
  {
    OneByteCuts(n);
    var cuts, all := Cuts(n, 1, true, 2, 2), Cuts(n, 1, true, 0, 0);
    forall k | 0 <= k < |cuts|
      ensures rest[k] == cuts[k].(totalParts := |partitions|)
    {
      assert cuts[k] == all[k + 2] && rest[k] == partitions[k + 2];
    }
  }

  /** The partitions from `size` on read on without a gap up to where the last one stops. */
  predicate RunsOn(obj: seq<Byte>, nl: Byte, piece: nat -> seq<Byte>, size: nat)
    requires |obj| >= 2 && size < |obj| - 1
  {
    && Start(obj, 1, nl, size) <= Stop(obj, 1, nl, |obj| - 2) <= |obj|
    && Pieces(|obj|, 1, piece, size) == obj[Start(obj, 1, nl, size)..Stop(obj, 1, nl, |obj| - 2)]
  }

  lemma RunsOnStep(obj: seq<Byte>, nl: Byte, piece: nat -> seq<Byte>, size: nat)
    requires |obj| >= 2 && size + 1 < |obj| - 1 && IsLinePiece(obj, 1, nl, piece)
    requires GoodBoundary(obj, nl, size + 1) && RunsOn(obj, nl, piece, size + 1)
    ensures RunsOn(obj, nl, piece, size)
  {
    PiecesStep(obj, 1, nl, piece, size);
    Seam(obj, 1, nl, size);
    Adjacent(obj, Start(obj, 1, nl, size), Stop(obj, 1, nl, size), Stop(obj, 1, nl, |obj| - 2));
  }

  /** With good boundaries all of them do. */
  lemma {:induction false} OneBytePieces(obj: seq<Byte>, nl: Byte, piece: nat -> seq<Byte>, size: nat)
    requires |obj| >= 2 && size < |obj| - 1 && IsLinePiece(obj, 1, nl, piece) && GoodBoundaries(obj, 1, nl, size)
    ensures RunsOn(obj, nl, piece, size)
    decreases |obj| - size
  {
    if size + 1 < |obj| - 1 {
      GoodBoundariesStep(obj, 1, nl, size);
      OneBytePieces(obj, nl, piece, size + 1);
      RunsOnStep(obj, nl, piece, size);
    } else {
      PiecesStep(obj, 1, nl, piece, size);
    }
  }

  /** Where the last one stops: at most two bytes before the end. */
  lemma LastStop(obj: seq<Byte>, nl: Byte)
    requires |obj| >= 2
    ensures var z, n := Stop(obj, 1, nl, |obj| - 2), |obj|;
            && (z == n <==> obj[n - 1] == nl && obj[n - 2] != nl)
            && (z == n - 1 <==> obj[n - 2] == nl)
            && (z == n - 2 <==> obj[n - 1] != nl && obj[n - 2] != nl)
  {
    FirstNewlineIsFirst(obj, nl, |obj| - 2, |obj|);
  }

  /** Up to the first bad boundary b the partitions read on without a gap. */
  lemma {:induction false} RunsToBad(obj: seq<Byte>, nl: Byte, piece: nat -> seq<Byte>, size: nat, b: nat)
    requires size < b < |obj| - 1 && IsLinePiece(obj, 1, nl, piece) && !GoodBoundary(obj, nl, b)
    requires forall k :: size < k < b ==> GoodBoundary(obj, nl, k)
    ensures RunsTo(obj, nl, piece, size, b - 1)
    decreases b - size
  {
    if size + 1 == b {
      PiecesStep(obj, 1, nl, piece, size);
      BadStop(obj, nl, size);
    } else {
      RunsToBad(obj, nl, piece, size + 1, b);
      RunsToStep(obj, nl, piece, size, b - 1);
    }
  }

  predicate RunsTo(obj: seq<Byte>, nl: Byte, piece: nat -> seq<Byte>, size: nat, x: nat)
    requires |obj| >= 2 && size < |obj| - 1
  {
    && Start(obj, 1, nl, size) <= x <= |obj|
    && obj[Start(obj, 1, nl, size)..x] <= Pieces(|obj|, 1, piece, size)
  }

  lemma RunsToStep(obj: seq<Byte>, nl: Byte, piece: nat -> seq<Byte>, size: nat, x: nat)
    requires |obj| >= 2 && size + 1 < |obj| - 1 && IsLinePiece(obj, 1, nl, piece)
    requires GoodBoundary(obj, nl, size + 1) && RunsTo(obj, nl, piece, size + 1, x)
    ensures RunsTo(obj, nl, piece, size, x)
  {
    PiecesStep(obj, 1, nl, piece, size);
    Seam(obj, 1, nl, size);
    Adjacent(obj, Start(obj, 1, nl, size), Stop(obj, 1, nl, size), x);
  }

  lemma BadStop(obj: seq<Byte>, nl: Byte, size: nat)
    requires size + 1 < |obj| - 1 && !GoodBoundary(obj, nl, size + 1)
    ensures Stop(obj, 1, nl, size) == size
  {
    FirstNewlineIsFirst(obj, nl, size, WindowEnd(|obj|, 1, size));
  }

  /** If an object consists of its first line twice and then of what follows that line up to x,
      and more, it repeats the line up to there: a newline is in every stretch that long. */
  lemma Repeats(obj: seq<Byte>, nl: Byte, e: nat, x: nat, more: seq<Byte>) returns (q: nat)
    requires 1 <= e <= x <= |obj| && obj[e - 1] == nl
    requires obj[..e] + (obj[..e] + (obj[e..x] + more)) == obj
    ensures x <= q < x + e <= |obj| && obj[q] == nl
  {
    var all := obj[..e] + (obj[..e] + (obj[e..x] + more));
    assert |all| == x + e + |more|;
    forall i | 0 <= i < x
      ensures obj[i + e] == obj[i]
    {
      assert all[i + e] == obj[i + e];
    }
    q := e - 1;
    while q < x
      invariant q < x + e && q < |obj| && obj[q] == nl
      decreases x - q
    {
      q := q + e;
    }
  }

  /** Where the third partition starts, if the first line ends at e. */
  lemma ThirdStart(obj: seq<Byte>, nl: Byte, e: nat)
    requires |obj| >= 4 && 2 <= e <= WindowEnd(|obj|, 1, 2) && IsFirst(obj, nl, 0, e, e - 1)
    ensures Start(obj, 1, nl, 2) == e
  {
    FirstNewlineIsFirst(obj, nl, 2, WindowEnd(|obj|, 1, 2));
  }

  /** With a good first line only what comes from the third partition on is left to be read. */
  lemma FromThird(obj: seq<Byte>, nl: Byte)
    requires |obj| >= 4 && GoodFirstLine(obj, nl)
    ensures Lossless(obj, 1, nl, 2) <==> GoodEnd(obj, 1, nl, 2) && GoodBoundaries(obj, 1, nl, 1)
  {
    GoodBoundariesStep(obj, 1, nl, 1);
    LosslessMeans(obj, 1, nl, 2);
    FirstNewlineIsFirst(obj, nl, 0, |obj|);
    if obj[0] == nl && obj[1] == nl {
      assert GoodBoundary(obj, nl, 2);
    } else {
      assert obj[CHUNK_THRESHOLD + 2] == nl;
      assert GoodBoundary(obj, nl, 2);
    }
  }

  /** A first line that both of the first two partitions read, and that is not empty, makes the
      whole differ from the object. */
  lemma LongFirstLine(obj: seq<Byte>, nl: Byte, piece: nat -> seq<Byte>, e: nat, rest: seq<Byte>)
    requires |obj| >= 4 && 2 <= e <= WindowEnd(|obj|, 1, 0) && IsFirst(obj, nl, 0, e, e - 1)
    requires IsLinePiece(obj, 1, nl, piece) && rest == Pieces(|obj|, 1, piece, 2)
    ensures obj[..e] + (obj[..e] + rest) != obj
  {
    var n := |obj|;
    ThirdStart(obj, nl, e);
    if obj[..e] + (obj[..e] + rest) == obj {
      if GoodBoundaries(obj, 1, nl, 2) {
        OneBytePieces(obj, nl, piece, 2);
        LastStop(obj, nl);
        AllGoodDiffers(obj, nl, e, Stop(obj, 1, nl, n - 2));
      } else {
        var b := FirstBad(obj, nl);
        RunsToBad(obj, nl, piece, 2, b);
        BadDiffers(obj, nl, e, b, rest);
      }
    }
  }

  lemma AllGoodDiffers(obj: seq<Byte>, nl: Byte, e: nat, to: nat)
    requires 2 <= e <= to <= |obj| && obj[e - 1] == nl && |obj| >= 4
    requires to >= |obj| - 2 && (to == |obj| - 2 ==> obj[|obj| - 1] != nl && obj[|obj| - 2] != nl)
    ensures obj[..e] + (obj[..e] + obj[e..to]) != obj
  {
    if obj[..e] + (obj[..e] + obj[e..to]) == obj {
      assert obj[e..to] + [] == obj[e..to];
      var q := Repeats(obj, nl, e, to, []);
    }
  }

  lemma BadDiffers(obj: seq<Byte>, nl: Byte, e: nat, b: nat, rest: seq<Byte>)
    requires 1 <= e <= CHUNK_THRESHOLD + 2 && e <= b - 1 && b < |obj| && obj[e - 1] == nl
    requires !GoodBoundary(obj, nl, b) && obj[e..b - 1] <= rest
    ensures obj[..e] + (obj[..e] + rest) != obj
  {
    if obj[..e] + (obj[..e] + rest) == obj {
      var more := rest[b - 1 - e..];
      assert rest == obj[e..b - 1] + more;
      var q := Repeats(obj, nl, e, b - 1, more);
    }
  }

  lemma FirstBad(obj: seq<Byte>, nl: Byte) returns (b: nat)
    requires !GoodBoundaries(obj, 1, nl, 2)
    ensures 2 < b < |obj| - 1 && !GoodBoundary(obj, nl, b)
    ensures forall k :: 2 < k < b ==> GoodBoundary(obj, nl, k)
  {
    var bad: nat :| 2 < bad < |obj| - 1 && OnGrid(1, 2, bad) && !GoodBoundary(obj, nl, bad);
    b := 3;
    while GoodBoundary(obj, nl, b)
      invariant 3 <= b <= bad && forall k :: 2 < k < b ==> GoodBoundary(obj, nl, k)
      decreases bad - b
    {
      b := b + 1;
    }
  }

  /** An empty first line, which the first two partitions read both. */
  lemma EmptyFirstLine(obj: seq<Byte>, nl: Byte, rest: seq<Byte>)
    requires |obj| >= 4 && obj[0] == nl && Reads(obj, 1, nl, 2, rest)
    ensures obj[..1] + (obj[..1] + rest) == obj <==> obj[1] == nl && Lossless(obj, 1, nl, 2)
  {
    var all := obj[..1] + (obj[..1] + rest);
    assert all[1] == nl && |all| == 2 + |rest|;
    assert obj[1] == nl && Lossless(obj, 1, nl, 2) ==> all == obj;
  }

  /** A first line that only the second partition reads. */
  lemma LateFirstLine(obj: seq<Byte>, nl: Byte, e: nat, rest: seq<Byte>)
    requires |obj| >= 4 && 2 <= e <= WindowEnd(|obj|, 1, 2) && IsFirst(obj, nl, 0, e, e - 1)
    requires Reads(obj, 1, nl, 2, rest)
    ensures [] + (obj[..e] + rest) == obj <==> Lossless(obj, 1, nl, 2)
  {
    ThirdStart(obj, nl, e);
    assert Lossless(obj, 1, nl, 2) ==> obj[..e] + rest == obj;
  }

  lemma NoFirstLine(obj: seq<Byte>, nl: Byte, rest: seq<Byte>)
    requires |obj| >= 4 && Reads(obj, 1, nl, 2, rest)
    ensures [] + ([] + rest) != obj
  {
    FirstNewlineIsFirst(obj, nl, 2, WindowEnd(|obj|, 1, 2));
    assert |rest| <= |obj| - 2;
  }

  lemma ThreeByteIdentity(obj: seq<Byte>, nl: Byte, partitions: seq<Partition>)
    requires |obj| == 3 && Totalled(Cuts(|obj|, 1, true, 0, 0), partitions)
    ensures ReadAll(obj, partitions, Newline(nl)) != obj
  {
    OneByteReadAll(obj, nl, partitions);
  }

  /** The first newline of the object, as the first two partitions see it. */
  lemma FirstLines(obj: seq<Byte>, nl: Byte)
    requires |obj| >= 3
    ensures var m, m0, m1 := FirstNewline(obj, nl, 0, |obj|), FirstNewline(obj, nl, 0, WindowEnd(|obj|, 1, 0)),
                             FirstNewline(obj, nl, 0, WindowEnd(|obj|, 1, 1));
            && (m == 0 <==> obj[0] == nl)
            && (m0 != -1 ==> m1 == m0 == m != CHUNK_THRESHOLD + 2 && IsFirst(obj, nl, 0, m0 + 1, m0))
            && (m0 == -1 && m1 != -1 ==>
                  m1 == m == CHUNK_THRESHOLD + 2 < |obj| && IsFirst(obj, nl, 0, m1 + 1, m1))
            && (m1 == -1 ==> m0 == -1 && m != CHUNK_THRESHOLD + 2 && obj[0] != nl)
  {
    FirstNewlineIsFirst(obj, nl, 0, |obj|);
    FirstNewlineIsFirst(obj, nl, 0, WindowEnd(|obj|, 1, 0));
    FirstNewlineIsFirst(obj, nl, 0, WindowEnd(|obj|, 1, 1));
  }

  lemma OneByteMeans(obj: seq<Byte>, nl: Byte, piece: nat -> seq<Byte>)
    requires |obj| >= 4 && IsLinePiece(obj, 1, nl, piece)
    ensures FirstRead(obj, nl, 0) + (FirstRead(obj, nl, 1) + Pieces(|obj|, 1, piece, 2)) == obj <==>
              GoodFirstLine(obj, nl) && Lossless(obj, 1, nl, 2)
  {
    FirstLines(obj, nl);
    PiecesRead(obj, 1, nl, piece, 2);
    var m0, m1 := FirstNewline(obj, nl, 0, WindowEnd(|obj|, 1, 0)), FirstNewline(obj, nl, 0, WindowEnd(|obj|, 1, 1));
    var rest := Pieces(|obj|, 1, piece, 2);
    if m0 == 0 {
      EmptyFirstLine(obj, nl, rest);
    } else if m0 != -1 {
      LongFirstLine(obj, nl, piece, m0 + 1, rest);
    } else if m1 != -1 {
      LateFirstLine(obj, nl, m1 + 1, rest);
    } else {
      NoFirstLine(obj, nl, rest);
    }
  }

  lemma OneByteIdentity(obj: seq<Byte>, nl: Byte, partitions: seq<Partition>)
    requires |obj| >= 3 && Totalled(Cuts(|obj|, 1, true, 0, 0), partitions)
    ensures ReadAll(obj, partitions, Newline(nl)) == obj <==>
              GoodFirstLine(obj, nl) && GoodEnd(obj, 1, nl, 2) && GoodBoundaries(obj, 1, nl, 1)
  {
    if |obj| == 3 {
      FirstLines(obj, nl);
      ThreeByteIdentity(obj, nl, partitions);
      assert OnGrid(1, 2, 2);
    } else {
      OneByteReadAll(obj, nl, partitions);
      LinePieceIs(obj, 1, nl);
      OneByteMeans(obj, nl, LinePiece(obj, 1, nl));
      if GoodFirstLine(obj, nl) {
        FromThird(obj, nl);
      }
    }
  }
}
