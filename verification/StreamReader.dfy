/** Reading one partition: the line-aligned stream wrapper (lithops/utils.py,
    WrappedStreamingBodyPartition) with a one-byte newline, read as a whole, and how a
    partition's byte range becomes its stream (lithops/worker/jobrunner.py, _load_object). */
module StreamReader {
  import opened Chunks
  import opened Partitioner

  type Byte = b: int | 0 <= b < 256

  datatype Newline = NoNewline | Newline(byte: Byte)

  function FindFrom(data: seq<Byte>, byte: Byte, i: nat): (r: int)
    requires i <= |data|
    ensures r == -1 || i <= r < |data|
    decreases |data| - i
  {
    if i == |data| then -1 else if data[i] == byte then i else FindFrom(data, byte, i + 1)
  }

  /** `data.find(byte)`. */
  function Find(data: seq<Byte>, byte: Byte): (r: int)
    ensures -1 <= r < |data|
  {
    FindFrom(data, byte, 0)
  }

  ghost predicate IsFirst(data: seq<Byte>, byte: Byte, from: nat, to: nat, r: int)
    requires from <= to <= |data|
  {
    if r == -1 then forall k :: from <= k < to ==> data[k] != byte
    else from <= r < to && data[r] == byte && forall k :: from <= k < r ==> data[k] != byte
  }

  /** The first position that holds the byte, or -1. */
  lemma {:induction false} FindFromIsFirst(data: seq<Byte>, byte: Byte, i: nat)
    requires i <= |data|
    ensures IsFirst(data, byte, i, |data|, FindFrom(data, byte, i))
    decreases |data| - i
  {
    if i < |data| && data[i] != byte {
      FindFromIsFirst(data, byte, i + 1);
    }
  }

  class Stream {
    const data: seq<Byte>
    var offset: nat

    ghost predicate Valid()
      reads this
    {
      offset <= |data|
    }

    constructor (data: seq<Byte>)
      ensures Valid() && this.data == data && offset == 0
    {
      this.data := data;
      offset := 0;
    }

    /** Reads up to n bytes. */
    method Read(n: nat) returns (r: seq<Byte>)
      requires Valid()
      modifies this`offset
      ensures Valid() && offset == Min(old(offset) + n, |data|)
      ensures r == data[old(offset)..offset]
    {
      var end := Min(offset + n, |data|);
      r := data[offset..end];
      offset := end;
    }

    /** Reads what is left. */
    method ReadRest() returns (r: seq<Byte>)
      requires Valid()
      modifies this`offset
      ensures Valid() && offset == |data|
      ensures r == data[old(offset)..]
    {
      r := data[offset..];
      offset := |data|;
    }
  }

  /** Where the first whole row starts; `firstByte` is the byte before the rows, if any. */
  function FirstRowStart(firstByte: seq<Byte>, rows: seq<Byte>, newline: Byte): nat {
    if firstByte != [] && firstByte != [newline] then Find(rows, newline) + 1 else 0
  }

  /** Where the row ends that holds the last byte of the chunk. */
  function LastRowEnd(rows: seq<Byte>, chunk: nat, newline: Byte): nat
    requires chunk > 0
  {
    if |rows| >= chunk then chunk + Find(rows[chunk - 1..], newline) else |rows|
  }

  function Trim(firstByte: seq<Byte>, rows: seq<Byte>, chunk: nat, newline: Byte): seq<Byte>
    requires chunk > 0
  {
    PySlice(rows, FirstRowStart(firstByte, rows, newline), LastRowEnd(rows, chunk, newline))
  }

  /** The one whole read of a partition: `plus` says that the first byte of the content
      belongs to the partition before. */
  function ReadOnce(content: seq<Byte>, plus: bool, chunk: nat, newline: Byte): seq<Byte>
    requires chunk > 0
  {
    var cut := if plus then Min(1, |content|) else 0;
    Trim(content[..cut], content[cut..], chunk, newline)
  }

  class PartitionReader {
    const sb: Stream
    const size: nat
    const newlineChar: Byte
    const plusBytes: nat
    var pos: nat
    var firstByte: seq<Byte>
    var eof: bool
    var firstRead: bool

    /** Nothing has been read. */
    ghost predicate Fresh()
      reads this, sb
    {
      pos == 0 && firstByte == [] && !eof && firstRead && sb.offset == 0
    }

    ghost predicate Valid()
      reads this, sb
    {
      && sb.Valid() && size > 0 && plusBytes <= 1 && |firstByte| <= 1
      && (Fresh() || (sb.offset == |sb.data| && (eof || pos < size)))
    }

    constructor (sb: Stream, size: nat, first: int, newlineChar: Byte)
      requires sb.Valid() && sb.offset == 0 && size > 0
      ensures Valid() && Fresh()
      ensures this.sb == sb && this.size == size && this.newlineChar == newlineChar
      ensures plusBytes == if first == 0 then 0 else 1
    {
      this.sb, this.size, this.newlineChar := sb, size, newlineChar;
      pos := 0;
      plusBytes := if first == 0 then 0 else 1;
      firstByte := [];
      eof := false;
      firstRead := true;
    }

    /** The first half of `read`: fetch the byte of the partition before, then the rows. */
    method FetchRows() returns (rows: seq<Byte>)
      requires Valid() && !eof
      modifies this`firstByte, this`pos, sb
      ensures sb.Valid() && sb.offset == |sb.data|
      ensures |firstByte| <= 1 && pos == old(pos) + |rows|
      ensures old(Fresh()) ==>
                var cut := if plusBytes == 1 then Min(1, |sb.data|) else 0;
                firstByte == sb.data[..cut] && rows == sb.data[cut..]
      ensures !old(Fresh()) ==> rows == []
    {
      if firstByte == [] && plusBytes == 1 {
        firstByte := sb.Read(plusBytes);
      }
      rows := sb.ReadRest();
      pos := pos + |rows|;
    }

    method Read() returns (r: seq<Byte>)
      requires Valid()
      modifies this, sb
      ensures Valid() && sb.offset == |sb.data|
      ensures old(Fresh()) ==> r == ReadOnce(sb.data, plusBytes == 1, size, newlineChar)
      ensures !old(Fresh()) ==> r == []
    {
      if eof {
        return [];
      }
      var retval := FetchRows();
      var firstRowStartPos, lastRowEndPos := 0, |retval|;
      if firstRead && firstByte != [] && firstByte != [newlineChar] {
        firstRowStartPos := Find(retval, newlineChar) + 1;
        firstRead := false;
      }
      if pos >= size {
        var currentEndPos := lastRowEndPos - (pos - size);
        var lastBytePos := Find(retval[currentEndPos - 1..], newlineChar);
        lastRowEndPos := currentEndPos + lastBytePos;
        eof := true;
      }
      assert old(Fresh()) ==> firstRowStartPos == FirstRowStart(firstByte, retval, newlineChar);
      assert old(Fresh()) ==> lastRowEndPos == LastRowEnd(retval, size, newlineChar);
      r := PySlice(retval, firstRowStartPos, lastRowEndPos);
    }
  }

  /** What a range request on the object returns. */
  function RangeContent(obj: seq<Byte>, first: nat, last: nat): seq<Byte> {
    PySlice(obj, first, last + 1)
  }

  /** The bytes a function sees that reads its whole partition. */
  function ReadPartition(obj: seq<Byte>, p: Partition, newline: Newline): seq<Byte>
  {
    match p.range
    case None => obj
    case Bytes(first, last) =>
      var content := RangeContent(obj, first, last);
      if newline.NoNewline? then content else ReadOnce(content, first != 0, p.chunkSize, newline.byte)
  }

  method LoadAndRead(obj: seq<Byte>, p: Partition, newline: Newline) returns (data: seq<Byte>)
    ensures data == ReadPartition(obj, p, newline)
  {
    if p.range.None? {
      var stream := new Stream(obj);
      data := stream.ReadRest();
    } else {
      var stream := new Stream(RangeContent(obj, p.range.first, p.range.last));
      if newline.NoNewline? {
        data := stream.ReadRest();
      } else {
        var body := new PartitionReader(stream, p.chunkSize, p.range.first, newline.byte);
        data := body.Read();
      }
    }
  }
}
