/**
 * The serial reader's decoding state (SerialPortReader): a byte buffer that
 * received chunks are appended to, a frame counter used as the records' time
 * index, and the queue the decoded records are handed to (the process-wide
 * diagram queue). The ghost fields record the bytes received since the last
 * reset and the queue as it was then; Valid() ties the state to them, so the
 * records handed over depend only on the byte stream, not on how it was
 * split into chunks.
 */
module SerialReader {
  import opened SerialFrames
  import opened Stats

  class SerialPortReader {
    var buffer: seq<Byte>
    var timeIndex: nat
    var queue: seq<DeviceRecord>
    ghost var stream: seq<Byte>
    ghost var base: seq<DeviceRecord>

    ghost predicate Valid()
      reads this
    {
      && buffer == Leftover(stream)
      && timeIndex == |stream| / 32
      && queue == base + Decode(stream, 0)
    }

    constructor ()
      ensures Valid()
      ensures buffer == [] && timeIndex == 0 && queue == []
      ensures stream == [] && base == []
    {
      buffer, timeIndex, queue := [], 0, [];
      stream, base := [], [];
    }

    /** A received chunk is appended to the buffer and every complete frame is decoded. */
    method DataReceived(chunk: seq<Byte>)
      requires Valid()
      modifies this
      ensures Valid()
      ensures stream == old(stream) + chunk && base == old(base)
      ensures queue == old(queue) + Decode(old(buffer) + chunk, old(timeIndex))
      ensures buffer == Leftover(old(buffer) + chunk)
      ensures timeIndex == old(timeIndex) + |old(buffer) + chunk| / 32
    {
      ghost var s0 := stream;
      ghost var pending := Decode(Leftover(s0) + chunk, |s0| / 32);
      DecodeAppend(s0, chunk, 0);
      FrameCountAppend(s0, chunk);
      ConcatAssoc(base, Decode(s0, 0), pending);
      stream := stream + chunk;
      buffer := buffer + chunk;
      ExtractData();
      assert queue == base + Decode(s0, 0) + pending;
    }

    /**
     * Decodes and removes every complete frame at the front of the buffer:
     * four records per frame, all stamped with the current time index, which
     * then advances by one.
     */
    method ExtractData()
      modifies this
      ensures queue == old(queue) + Decode(old(buffer), old(timeIndex))
      ensures buffer == Leftover(old(buffer)) && |buffer| < 32
      ensures timeIndex == old(timeIndex) + |old(buffer)| / 32
      ensures stream == old(stream) && base == old(base)
    {
      ghost var pending := Decode(old(buffer), old(timeIndex));
      while |buffer| >= 32
        invariant queue + Decode(buffer, timeIndex) == old(queue) + pending
        invariant Leftover(buffer) == Leftover(old(buffer))
        invariant timeIndex + |buffer| / 32 == old(timeIndex) + |old(buffer)| / 32
        invariant stream == old(stream) && base == old(base)
        decreases |buffer|
      {
        ghost var q0, b0, t0 := queue, buffer, timeIndex;
        ghost var records := FrameRecords(buffer[..32], timeIndex);
        for i := 0 to 4
          invariant buffer == b0 && timeIndex == t0 && stream == old(stream) && base == old(base)
          invariant queue == q0 + records[..i]
        {
          var offset := i * 8;
          var rec := RecordAt(buffer, offset, i + 1, timeIndex);
          RecordAtPrefix(buffer, 32, offset, i + 1, timeIndex);
          assert rec == records[i];
          assert records[..i + 1] == records[..i] + [rec];
          queue := queue + [rec];
        }
        ghost var rest := Decode(buffer[32..], timeIndex + 1);
        DecodeStep(buffer, timeIndex);
        assert records[..4] == records;
        ConcatAssoc(q0, records, rest);
        timeIndex := timeIndex + 1;
        buffer := buffer[32..];
      }
      DecodeShort(buffer, timeIndex);
    }

    /** Closing the port: the buffer is emptied and the time index restarts at 0; records already handed over stay. */
    method Stop()
      modifies this
      ensures Valid()
      ensures buffer == [] && timeIndex == 0 && queue == old(queue)
      ensures stream == [] && base == old(queue)
    {
      buffer := [];
      timeIndex := 0;
      stream, base := [], queue;
      DecodeShort([], 0);
    }
  }
}
