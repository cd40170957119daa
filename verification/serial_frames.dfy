/**
 * The device's serial frame format, as SerialPortReader decodes it: a frame is
 * 32 bytes holding 4 device records of 8 bytes; a record is four little-endian
 * 16-bit fields (set point, actual, pitch, roll), each folded to a signed
 * value by NormalizeValue and scaled by 1/1000. All records of one frame share
 * one time index, which grows by one per frame.
 */
module SerialFrames {
  import opened Stats

  type Byte = x: int | 0 <= x < 0x100
  type U16 = x: int | 0 <= x < 0x1_0000

  /** b[lo] | b[hi] << 8: the two bytes occupy disjoint bits, so the OR is a sum. */
  function ReadU16(lo: Byte, hi: Byte): U16
  {
    lo + 0x100 * hi
  }

  /** The low byte and the high byte are recovered from the value: the read loses nothing. */
  lemma ReadU16Bytes(lo: Byte, hi: Byte)
    ensures ReadU16(lo, hi) % 0x100 == lo && ReadU16(lo, hi) / 0x100 == hi
  {
  }

  /**
   * Values above 32767 become 32768 - v, so the top bit is a sign and the low
   * 15 bits a magnitude (sign-magnitude, not two's complement); then / 1000.
   */
  function NormalizeValue(v: U16): real
  {
    (if v > 32767 then 32768 - v else v) as real / 1000.0
  }

  /** The decoded value's range, sign and magnitude. */
  lemma NormalizeValueMeaning(v: U16)
    ensures -32.767 <= NormalizeValue(v) <= 32.767
    ensures NormalizeValue(v) < 0.0 <==> v > 0x8000
    ensures NormalizeValue(v) == 0.0 <==> v == 0 || v == 0x8000
    ensures Abs(NormalizeValue(v)) == (v % 0x8000) as real / 1000.0
  {
  }

  /** Only 0x0000 and 0x8000 collide: every other value decodes to a value of its own. */
  lemma NormalizeValueInjective(a: U16, b: U16)
    requires NormalizeValue(a) == NormalizeValue(b)
    ensures a == b || (a % 0x8000 == 0 && b % 0x8000 == 0)
  {
    NormalizeValueMeaning(a);
    NormalizeValueMeaning(b);
    if NormalizeValue(a) < 0.0 {
      assert (a - 32768) as real / 1000.0 == (b - 32768) as real / 1000.0;
    } else {
      assert NormalizeValue(b) >= 0.0;
    }
  }

  /** The folding is not two's complement: 0x8000 reads as zero and 0xFFFF as -32.767. */
  lemma NotTwosComplement()
    ensures NormalizeValue(0x8000) == NormalizeValue(0) == 0.0
    ensures NormalizeValue(0xFFFF) == -32.767
  {
  }

  datatype DeviceRecord = DeviceRecord(testId: int, time: int, setPoint: real, actual: real, pitch: real, roll: real)

  /** The 8-byte record at offset o of buf: four 16-bit fields, each normalized. */
  function RecordAt(buf: seq<Byte>, o: nat, id: int, t: int): DeviceRecord
    requires o + 8 <= |buf|
  {
    DeviceRecord(id, t,
      NormalizeValue(ReadU16(buf[o], buf[o + 1])),
      NormalizeValue(ReadU16(buf[o + 2], buf[o + 3])),
      NormalizeValue(ReadU16(buf[o + 4], buf[o + 5])),
      NormalizeValue(ReadU16(buf[o + 6], buf[o + 7])))
  }

  /** Cutting buf after the record does not change the record. */
  lemma RecordAtPrefix(buf: seq<Byte>, n: nat, o: nat, id: int, t: int)
    requires o + 8 <= n <= |buf|
    ensures RecordAt(buf[..n], o, id, t) == RecordAt(buf, o, id, t)
  {
  }

  /** The i-th 8-byte record of a frame, stamped with time t and device number i + 1. */
  function RecordOf(frame: seq<Byte>, i: nat, t: int): DeviceRecord
    requires |frame| >= 32 && i < 4
  {
    RecordAt(frame, i * 8, i + 1, t)
  }

  function FrameRecords(frame: seq<Byte>, t: int): (rs: seq<DeviceRecord>)
    requires |frame| >= 32
    ensures |rs| == 4
  {
    [RecordOf(frame, 0, t), RecordOf(frame, 1, t), RecordOf(frame, 2, t), RecordOf(frame, 3, t)]
  }

  /** A frame's records are its four 8-byte records, in order. */
  lemma FrameRecordsAt(frame: seq<Byte>, t: int, i: nat)
    requires |frame| >= 32 && i < 4
    ensures FrameRecords(frame, t)[i] == RecordOf(frame, i, t)
  {
  }

  /** The complete 32-byte frames at the front of buf, in order. */
  function Frames(buf: seq<Byte>): (fs: seq<seq<Byte>>)
    ensures forall k :: 0 <= k < |fs| ==> |fs[k]| == 32
    decreases |buf|
  {
    if |buf| < 32 then [] else [buf[..32]] + Frames(buf[32..])
  }

  /** The bytes of an incomplete trailing frame. */
  function Leftover(buf: seq<Byte>): (rest: seq<Byte>)
    ensures |rest| < 32
    decreases |buf|
  {
    if |buf| < 32 then buf else Leftover(buf[32..])
  }

  /** Frame f is bytes 32f .. 32f + 31; there are |buf| div 32 frames, and the leftover is the rest. */
  lemma {:induction false} FramesSplit(buf: seq<Byte>)
    ensures |Frames(buf)| == |buf| / 32
    ensures forall f :: 0 <= f < |Frames(buf)| ==> Frames(buf)[f] == buf[32 * f .. 32 * f + 32]
    ensures Leftover(buf) == buf[32 * |Frames(buf)| ..]
    ensures |Leftover(buf)| == |buf| % 32
    decreases |buf|
  {
    if |buf| >= 32 {
      var rest := buf[32..];
      FramesSplit(rest);
      forall f | 0 <= f < |Frames(buf)|
        ensures Frames(buf)[f] == buf[32 * f .. 32 * f + 32]
      {
        if f > 0 {
          assert Frames(buf)[f] == Frames(rest)[f - 1];
        }
      }
    }
  }

  /** The frames of a + b are the frames of a, then those of a's leftover followed by b. */
  lemma {:induction false} FramesAppend(a: seq<Byte>, b: seq<Byte>)
    ensures Frames(a + b) == Frames(a) + Frames(Leftover(a) + b)
    ensures Leftover(a + b) == Leftover(Leftover(a) + b)
    decreases |a|
  {
    if |a| >= 32 {
      assert (a + b)[..32] == a[..32];
      assert (a + b)[32..] == a[32..] + b;
      FramesAppend(a[32..], b);
      ConcatAssoc([a[..32]], Frames(a[32..]), Frames(Leftover(a[32..]) + b));
    } else {
      assert a + b == Leftover(a) + b;
    }
  }

  predicate AllFrames(frames: seq<seq<Byte>>)
  {
    forall k :: 0 <= k < |frames| ==> |frames[k]| == 32
  }

  /** The records of a sequence of frames, the first frame stamped t and each next one a tick later. */
  function Records(frames: seq<seq<Byte>>, t: int): seq<DeviceRecord>
    requires AllFrames(frames)
    decreases |frames|
  {
    if frames == [] then [] else FrameRecords(frames[0], t) + Records(frames[1..], t + 1)
  }

  lemma {:induction false} RecordsAppend(fs: seq<seq<Byte>>, gs: seq<seq<Byte>>, t: int)
    requires AllFrames(fs) && AllFrames(gs)
    ensures AllFrames(fs + gs)
    ensures Records(fs + gs, t) == Records(fs, t) + Records(gs, t + |fs|)
    decreases |fs|
  {
    if fs != [] {
      assert (fs + gs)[0] == fs[0] && (fs + gs)[1..] == fs[1..] + gs;
      RecordsAppend(fs[1..], gs, t + 1);
      assert t + 1 + |fs[1..]| == t + |fs|;
      calc {
        Records(fs + gs, t);
        FrameRecords(fs[0], t) + Records(fs[1..] + gs, t + 1);
        FrameRecords(fs[0], t) + (Records(fs[1..], t + 1) + Records(gs, t + |fs|));
        { ConcatAssoc(FrameRecords(fs[0], t), Records(fs[1..], t + 1), Records(gs, t + |fs|)); }
        Records(fs, t) + Records(gs, t + |fs|);
      }
    } else {
      assert fs + gs == gs;
    }
  }

  /** Record i of frame f is at position 4f + i and carries time t + f. */
  lemma {:induction false} RecordsLayout(fs: seq<seq<Byte>>, t: int, f: nat, i: nat)
    requires AllFrames(fs) && f < |fs| && i < 4
    ensures |Records(fs, t)| == 4 * |fs|
    ensures Records(fs, t)[4 * f + i] == RecordOf(fs[f], i, t + f)
    decreases |fs|
  {
    if f == 0 {
      FrameRecordsAt(fs[0], t, i);
      if |fs| > 1 {
        RecordsLayout(fs[1..], t + 1, 0, i);
      }
    } else {
      RecordsLayout(fs[1..], t + 1, f - 1, i);
    }
  }

  /** The records of every complete frame of buf, the first frame stamped t. */
  function Decode(buf: seq<Byte>, t: int): seq<DeviceRecord>
  {
    Records(Frames(buf), t)
  }

  /** Four records per complete frame. */
  lemma DecodeLength(buf: seq<Byte>, t: int)
    ensures |Decode(buf, t)| == 4 * (|buf| / 32)
  {
    FramesSplit(buf);
    if |buf| >= 32 {
      RecordsLayout(Frames(buf), t, 0, 0);
    }
  }

  /**
   * Record i of a complete frame f sits at position 4f + i and is the record
   * read at byte 32f + 8i of buf, with device number i + 1 and time t + f.
   */
  lemma DecodeLayout(buf: seq<Byte>, t: int, f: nat, i: nat)
    requires 32 * f + 32 <= |buf| && i < 4
    ensures 4 * f + i < |Decode(buf, t)|
    ensures Decode(buf, t)[4 * f + i] == RecordAt(buf, 32 * f + 8 * i, i + 1, t + f)
  {
    RecordOfSlice(buf, 32 * f, i, t + f);
    DecodeFrame(buf, t, f, i);
  }

  /** Record i of a complete frame f is record i of the frame's 32 bytes, stamped t + f. */
  lemma DecodeFrame(buf: seq<Byte>, t: int, f: nat, i: nat)
    requires 32 * f + 32 <= |buf| && i < 4
    ensures 4 * f + i < |Decode(buf, t)|
    ensures Decode(buf, t)[4 * f + i] == RecordOf(buf[32 * f .. 32 * f + 32], i, t + f)
  {
    FrameAt(buf, f);
    RecordsLayout(Frames(buf), t, f, i);
  }

  /** Frame f of buf, when complete, is its bytes 32f .. 32f + 31. */
  lemma FrameAt(buf: seq<Byte>, f: nat)
    requires 32 * f + 32 <= |buf|
    ensures f < |Frames(buf)| && Frames(buf)[f] == buf[32 * f .. 32 * f + 32]
  {
    FramesSplit(buf);
  }

  /** A record read from a frame cut out of buf at s is the record read at byte s + 8i of buf. */
  lemma RecordOfSlice(buf: seq<Byte>, s: nat, i: nat, t: int)
    requires s + 32 <= |buf| && i < 4
    ensures RecordOf(buf[s .. s + 32], i, t) == RecordAt(buf, s + 8 * i, i + 1, t)
  {
    var frame := buf[s .. s + 32];
    var o := 8 * i;
    assert forall j :: o <= j < o + 8 ==> frame[j] == buf[s + j];
  }

  /**
   * Decoding a + b is decoding a, then decoding what a left over followed by
   * b, with the time index carried on.
   */
  lemma DecodeAppend(a: seq<Byte>, b: seq<Byte>, t: int)
    ensures Decode(a + b, t) == Decode(a, t) + Decode(Leftover(a) + b, t + |a| / 32)
    ensures Leftover(a + b) == Leftover(Leftover(a) + b)
  {
    FramesAppend(a, b);
    FramesSplit(a);
    RecordsAppend(Frames(a), Frames(Leftover(a) + b), t);
  }

  /** The frame count of a + b is that of a plus that of a's leftover followed by b. */
  lemma FrameCountAppend(a: seq<Byte>, b: seq<Byte>)
    ensures |a + b| / 32 == |a| / 32 + |Leftover(a) + b| / 32
  {
    FramesAppend(a, b);
    FramesSplit(a);
    FramesSplit(a + b);
    FramesSplit(Leftover(a) + b);
  }

  /** Decoding takes the first frame's four records, then decodes the rest a tick later. */
  lemma DecodeStep(buf: seq<Byte>, t: int)
    requires |buf| >= 32
    ensures Decode(buf, t) == FrameRecords(buf[..32], t) + Decode(buf[32..], t + 1)
    ensures Leftover(buf) == Leftover(buf[32..])
    ensures |buf| / 32 == 1 + |buf[32..]| / 32
  {
    var fs := Frames(buf);
    assert fs == [buf[..32]] + Frames(buf[32..]);
    assert fs[1..] == Frames(buf[32..]);
  }

  /** An incomplete frame decodes to nothing and is left over whole. */
  lemma DecodeShort(buf: seq<Byte>, t: int)
    requires |buf| < 32
    ensures Decode(buf, t) == [] && Leftover(buf) == buf && |buf| / 32 == 0
  {
  }
}
