/** gputils/gp/utils/OutputStream.cpp: an append-only buffer that grows by whole chunks of 16 bytes. */
module OutputStreams {
  import opened Bytes
  import opened Sequences
  import opened Tl

  const CHUNK_SIZE := 16

  class OutputStream {
    var bytes: array<byte>
    var currentSize: nat
    var numberOfChunks: nat

    ghost predicate Valid()
      reads this
    {
      bytes.Length == CHUNK_SIZE * numberOfChunks && currentSize <= bytes.Length
    }

    /** Everything written so far. */
    function Contents(): seq<byte>
      reads this, bytes
      requires Valid()
    {
      bytes[..currentSize]
    }

    constructor ()
      ensures Valid() && fresh(bytes) && Contents() == []
    {
      bytes := new byte[CHUNK_SIZE](_ => 0);
      currentSize := 0;
      numberOfChunks := 1;
    }

    function RemainingSize(): nat
      reads this
      requires Valid()
    {
      CHUNK_SIZE * numberOfChunks - currentSize
    }

    /** Refines sequence append; the growth loop runs at most once. */
    method AddSlice(slice: seq<byte>) returns (ghost growths: nat)
      requires Valid()
      modifies this, bytes
      ensures Valid() && (bytes == old(bytes) || fresh(bytes))
      ensures Contents() == old(Contents()) + slice
      ensures growths <= 1 && (growths == 0 <==> old(RemainingSize()) >= |slice|)
    {
      growths := 0;
      while RemainingSize() < |slice|
        invariant Valid() && (bytes == old(bytes) || fresh(bytes))
        invariant currentSize == old(currentSize) && Contents() == old(Contents())
        invariant growths == 0 ==> bytes == old(bytes) && numberOfChunks == old(numberOfChunks)
        invariant growths > 0 ==> growths == 1 && RemainingSize() >= |slice| > old(RemainingSize())
        decreases |slice| - RemainingSize()
      {
        var targetChunks := 1 + (|slice| - RemainingSize() + CHUNK_SIZE - 1) / CHUNK_SIZE + numberOfChunks;
        var larger := new byte[CHUNK_SIZE * targetChunks](_ => 0);
        forall i | 0 <= i < currentSize {
          larger[i] := bytes[i];
        }
        bytes := larger;
        numberOfChunks := targetChunks;
        growths := growths + 1;
      }
      forall i | 0 <= i < |slice| {
        bytes[currentSize + i] := slice[i];
      }
      currentSize := currentSize + |slice|;
    }

    method WriteUInt8(x: byte)
      requires Valid()
      modifies this, bytes
      ensures Valid() && (bytes == old(bytes) || fresh(bytes))
      ensures Contents() == old(Contents()) + [x]
    {
      ghost var _ := AddSlice([x]);
    }

    method WriteUInt32(x: u32)
      requires Valid()
      modifies this, bytes
      ensures Valid() && (bytes == old(bytes) || fresh(bytes))
      ensures Contents() == old(Contents()) + U32Bytes(x)
    {
      ghost var _ := AddSlice(U32Bytes(x));
    }

    method WriteInt32(x: i32)
      requires Valid()
      modifies this, bytes
      ensures Valid() && (bytes == old(bytes) || fresh(bytes))
      ensures Contents() == old(Contents()) + I32Bytes(x)
    {
      ghost var _ := AddSlice(I32Bytes(x));
    }

    method WriteInt64(x: i64)
      requires Valid()
      modifies this, bytes
      ensures Valid() && (bytes == old(bytes) || fresh(bytes))
      ensures Contents() == old(Contents()) + I64Bytes(x)
    {
      ghost var _ := AddSlice(I64Bytes(x));
    }

    method WriteData(data: seq<byte>)
      requires Valid()
      modifies this, bytes
      ensures Valid() && (bytes == old(bytes) || fresh(bytes))
      ensures Contents() == old(Contents()) + data
    {
      ghost var _ := AddSlice(data);
    }

    method WriteBytes(data: seq<byte>)
      requires Valid()
      modifies this, bytes
      ensures Valid() && (bytes == old(bytes) || fresh(bytes))
      ensures Contents() == old(Contents()) + TlBytes(data)
    {
      hide PadLength, Zeros, LittleEndian;
      ghost var before := Contents();
      var extraBytes := 0;
      if |data| <= 253 {
        WriteUInt8(|data|);
        extraBytes := 1;
      } else {
        WriteUInt8(254);
        WriteData(LittleEndian(|data| % LENGTH_LIMIT, 3));
        Associative(before, [254], LittleEndian(|data| % LENGTH_LIMIT, 3));
        extraBytes := 4;
      }
      ghost var prefix := LengthPrefix(|data|);
      assert Contents() == before + prefix;
      WriteData(data);
      WritePadding(extraBytes, |data|);
      Associative(before, prefix, data);
      Associative(before, prefix + data, Zeros(PadLength(extraBytes + |data|)));
    }

    /** The closing loop of writeBytes. */
    method WritePadding(headerSize: nat, size: nat)
      requires Valid()
      modifies this, bytes
      ensures Valid() && (bytes == old(bytes) || fresh(bytes))
      ensures Contents() == old(Contents()) + Zeros(PadLength(headerSize + size))
    {
      hide PadLength, Zeros;
      ghost var pad := PadLength(headerSize + size);
      var extraBytes := headerSize;
      ZerosSnoc(0);
      while (extraBytes + size) % 4 != 0
        invariant headerSize <= extraBytes <= headerSize + pad
        invariant Valid() && (bytes == old(bytes) || fresh(bytes))
        invariant Contents() == old(Contents()) + Zeros(extraBytes - headerSize)
        decreases headerSize + pad - extraBytes
      {
        WriteUInt8(0);
        ZerosSnoc(extraBytes - headerSize);
        PadPending(headerSize + size, extraBytes - headerSize);
        extraBytes := extraBytes + 1;
      }
      PadPending(headerSize + size, extraBytes - headerSize);
    }

    method WriteString(s: seq<byte>)
      requires Valid()
      modifies this, bytes
      ensures Valid() && (bytes == old(bytes) || fresh(bytes))
      ensures Contents() == old(Contents()) + TlString(s)
    {
      if |s| == 0 {
        WriteUInt8(0);
      } else {
        WriteBytes(CString(s));
      }
    }
  }
}
