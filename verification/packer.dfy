/**
 * The MyFX M1 file layout written by `saveBars`: per bar, `pack('VVVVVV', time,
 * open, high, low, close, ticks)`, i.e. six unsigned 32-bit little-endian
 * fields, 24 bytes per bar, no header and no padding. `V` keeps the low 32 bits
 * of a wider integer, so out-of-range fields wrap modulo 2^32.
 */
module Packer {
  import opened Wrappers
  import opened Bars

  newtype byte = b: int | 0 <= b < 256

  const U32 := 0x1_0000_0000

  /** Bytes per bar record: six 4-byte fields. */
  const RecordSize := 24

  /** `pack('V', x)`. */
  function U32LE(x: int): (bs: seq<byte>)
    ensures |bs| == 4
  {
    var v := x % U32;
    [(v % 256) as byte, (v / 256 % 256) as byte, (v / 65536 % 256) as byte, (v / 16777216) as byte]
  }

  /** `unpack('V', bs)`. */
  function ReadU32LE(bs: seq<byte>): (x: int)
    requires |bs| == 4
    ensures 0 <= x < U32
  {
    bs[0] as int + 256 * bs[1] as int + 65536 * bs[2] as int + 16777216 * bs[3] as int
  }

  lemma ReadU32LEOfU32LE(x: int)
    ensures ReadU32LE(U32LE(x)) == x % U32
  {
    var v := x % U32;
    var q1 := v / 256;
    var q2 := q1 / 256;
    var q3 := q2 / 256;
    assert v == v % 256 + 256 * q1;
    assert q1 == q1 % 256 + 256 * q2;
    assert q2 == q2 % 256 + 256 * q3;
    assert v / 65536 == q2;
    assert v / 16777216 == q3;
  }

  lemma U32LEOfReadU32LE(bs: seq<byte>)
    requires |bs| == 4
    ensures U32LE(ReadU32LE(bs)) == bs
  {
    var b0, b1, b2, b3 := bs[0] as int, bs[1] as int, bs[2] as int, bs[3] as int;
    var x := ReadU32LE(bs);
    assert x % U32 == x;
    assert x % 256 == b0 && x / 256 == b1 + 256 * b2 + 65536 * b3;
    assert x / 256 % 256 == b1 && x / 65536 == b2 + 256 * b3;
    assert x / 65536 % 256 == b2 && x / 16777216 == b3;
  }

  /** Every field of the bar fits an unsigned 32-bit integer. */
  predicate FitsU32(b: Bar)
  {
    && 0 <= b.time < U32 && 0 <= b.open < U32 && 0 <= b.high < U32
    && 0 <= b.low < U32 && 0 <= b.close < U32 && 0 <= b.ticks < U32
  }

  /** The bar as it reads back from a packed record: every field modulo 2^32. */
  function Wrap(b: Bar): (w: Bar)
    ensures FitsU32(w)
    ensures FitsU32(b) ==> w == b
  {
    Bar(b.time % U32, b.open % U32, b.high % U32, b.low % U32, b.close % U32, b.ticks % U32)
  }

  function PackBar(b: Bar): (bs: seq<byte>)
    ensures |bs| == RecordSize
  {
    U32LE(b.time) + U32LE(b.open) + U32LE(b.high) + U32LE(b.low) + U32LE(b.close) + U32LE(b.ticks)
  }

  function UnpackBar(bs: seq<byte>): (b: Bar)
    requires |bs| == RecordSize
    ensures FitsU32(b)
  {
    Bar(ReadU32LE(bs[0..4]), ReadU32LE(bs[4..8]), ReadU32LE(bs[8..12]),
        ReadU32LE(bs[12..16]), ReadU32LE(bs[16..20]), ReadU32LE(bs[20..24]))
  }

  lemma UnpackPackBar(b: Bar)
    ensures UnpackBar(PackBar(b)) == Wrap(b)
  {
    var bs := PackBar(b);
    assert bs[0..4] == U32LE(b.time);
    assert bs[4..8] == U32LE(b.open);
    assert bs[8..12] == U32LE(b.high);
    assert bs[12..16] == U32LE(b.low);
    assert bs[16..20] == U32LE(b.close);
    assert bs[20..24] == U32LE(b.ticks);
    ReadU32LEOfU32LE(b.time);
    ReadU32LEOfU32LE(b.open);
    ReadU32LEOfU32LE(b.high);
    ReadU32LEOfU32LE(b.low);
    ReadU32LEOfU32LE(b.close);
    ReadU32LEOfU32LE(b.ticks);
  }

  lemma PackUnpackBar(bs: seq<byte>)
    requires |bs| == RecordSize
    ensures PackBar(UnpackBar(bs)) == bs
  {
    U32LEOfReadU32LE(bs[0..4]);
    U32LEOfReadU32LE(bs[4..8]);
    U32LEOfReadU32LE(bs[8..12]);
    U32LEOfReadU32LE(bs[12..16]);
    U32LEOfReadU32LE(bs[16..20]);
    U32LEOfReadU32LE(bs[20..24]);
    assert bs == bs[0..4] + bs[4..8] + bs[8..12] + bs[12..16] + bs[16..20] + bs[20..24];
  }

  /** The file contents `saveBars` builds: the bars' records concatenated in order. */
  function Pack(bars: seq<Bar>): (bs: seq<byte>)
    ensures |bs| == 24 * |bars|
    ensures forall i :: 0 <= i < |bars| ==> bs[24 * i..24 * i + 24] == PackBar(bars[i])
  {
    if bars == [] then []
    else
      var rest := Pack(bars[1..]);
      var bs := PackBar(bars[0]) + rest;
      assert forall i :: 1 <= i < |bars| ==> bs[24 * i..24 * i + 24] == rest[24 * (i - 1)..24 * (i - 1) + 24];
      bs
  }

  /** Reads a MyFX M1 byte stream back; a length that is not a whole number of records is rejected. */
  function Unpack(bs: seq<byte>): (r: Option<seq<Bar>>)
    ensures r.Some? <==> |bs| % RecordSize == 0
    ensures r.Some? ==> |r.value| == |bs| / RecordSize
    decreases |bs|
  {
    if |bs| % RecordSize != 0 then None
    else if bs == [] then Some([])
    else
      var rest := Unpack(bs[RecordSize..]);
      Some([UnpackBar(bs[..RecordSize])] + rest.value)
  }

  function WrapAll(bars: seq<Bar>): (ws: seq<Bar>)
    ensures |ws| == |bars|
    ensures forall i :: 0 <= i < |bars| ==> ws[i] == Wrap(bars[i])
  {
    if bars == [] then [] else [Wrap(bars[0])] + WrapAll(bars[1..])
  }

  lemma WholeRecords(n: nat)
    ensures (RecordSize * n) % RecordSize == 0
  {
  }

  /** Packing then reading returns every field modulo 2^32 ... */
  lemma {:induction false} UnpackPack(bars: seq<Bar>)
    ensures Unpack(Pack(bars)) == Some(WrapAll(bars))
  {
    if bars != [] {
      var bs := Pack(bars);
      var rest := Pack(bars[1..]);
      assert bs == PackBar(bars[0]) + rest;
      assert bs[..RecordSize] == PackBar(bars[0]);
      assert bs[RecordSize..] == rest;
      WholeRecords(|bars|);
      WholeRecords(|bars| - 1);
      assert Unpack(bs) == Some([UnpackBar(bs[..RecordSize])] + Unpack(rest).value);
      UnpackPackBar(bars[0]);
      UnpackPack(bars[1..]);
      assert WrapAll(bars) == [Wrap(bars[0])] + WrapAll(bars[1..]);
    }
  }

  /** ... so bars whose fields fit 32 bits survive the round trip unchanged. */
  lemma RoundTrip(bars: seq<Bar>)
    requires forall i :: 0 <= i < |bars| ==> FitsU32(bars[i])
    ensures Unpack(Pack(bars)) == Some(bars)
  {
    UnpackPack(bars);
    assert WrapAll(bars) == bars;
  }

  /** Every well-sized byte stream is the packing of the bars read from it. */
  lemma {:induction false} PackUnpack(bs: seq<byte>)
    requires |bs| % RecordSize == 0
    ensures Pack(Unpack(bs).value) == bs
    decreases |bs|
  {
    if bs != [] {
      PackUnpackBar(bs[..RecordSize]);
      PackUnpack(bs[RecordSize..]);
      assert bs == bs[..RecordSize] + bs[RecordSize..];
    }
  }
}
