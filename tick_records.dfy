/** Dukascopy `.bi5` tick records, once decompressed: a run of 20-byte
    records, each five big-endian 32-bit fields (`struct` format `!3I2f`)
    in the order millisecond offset, ask, bid, ask volume, bid volume. The
    two volume fields are IEEE floats in the feed and are kept here as
    their raw 32-bit words. */
module TickRecords {

  type Byte = b: int | 0 <= b < 256

  /** An unsigned 32-bit word (`I`), or the raw bits of an `f` field. */
  type Word = w: int | 0 <= w < 0x1_0000_0000

  /** `struct.calcsize('!3I2f')`: five 4-byte fields, no padding. */
  const RecordSize := 20

  /** `struct.unpack('!I', b)`: most significant byte first. */
  function BigEndian32(b: seq<Byte>): (w: Word)
    requires |b| == 4
  {
    var hi: int := b[0] as int * 256 + b[1] as int;
    var lo: int := b[2] as int * 256 + b[3] as int;
    assert hi < 0x1_0000 && lo < 0x1_0000;
    hi * 0x1_0000 + lo
  }

  /** `struct.pack('!I', w)`. */
  function WordBytes(w: Word): (b: seq<Byte>)
    ensures |b| == 4
  {
    [w / 0x100_0000, w / 0x1_0000 % 256, w / 256 % 256, w % 256]
  }

  lemma WordBytesRoundTrip(w: Word)
    ensures BigEndian32(WordBytes(w)) == w
  {
    var b := WordBytes(w);
    assert b[0] as int * 256 + b[1] as int == w / 0x1_0000;
    assert b[2] as int * 256 + b[3] as int == w % 0x1_0000;
  }

  lemma BigEndian32RoundTrip(b: seq<Byte>)
    requires |b| == 4
    ensures WordBytes(BigEndian32(b)) == b
  {
    var hi: int, lo: int := b[0] as int * 256 + b[1] as int, b[2] as int * 256 + b[3] as int;
    var w := BigEndian32(b);
    assert w / 0x1_0000 == hi && w % 0x1_0000 == lo;
    assert w / 0x100_0000 == hi / 256 == b[0];
    assert w / 0x1_0000 % 256 == hi % 256 == b[1];
    assert w / 256 == hi * 256 + lo / 256;
    assert w / 256 % 256 == lo / 256 == b[2];
    assert w % 256 == lo % 256 == b[3];
  }

  /** One unpacked record, fields in the order of the format string. */
  datatype RawRecord = RawRecord(timestampMs: Word, ask: Word, bid: Word, askVolume: Word, bidVolume: Word)

  /** `struct.unpack('!3I2f', chunk)`. */
  function DecodeRecord(chunk: seq<Byte>): RawRecord
    requires |chunk| == RecordSize
  {
    RawRecord(BigEndian32(chunk[0..4]), BigEndian32(chunk[4..8]), BigEndian32(chunk[8..12]),
              BigEndian32(chunk[12..16]), BigEndian32(chunk[16..20]))
  }

  /** `struct.pack('!3I2f', …)`, the writer's side of the format. */
  function EncodeRecord(r: RawRecord): (chunk: seq<Byte>)
    ensures |chunk| == RecordSize
  {
    WordBytes(r.timestampMs) + WordBytes(r.ask) + WordBytes(r.bid) + WordBytes(r.askVolume) + WordBytes(r.bidVolume)
  }

  /** Unpacking reads back every field that was packed, in place. */
  lemma RecordRoundTrip(r: RawRecord)
    ensures DecodeRecord(EncodeRecord(r)) == r
  {
    var c := EncodeRecord(r);
    assert c[0..4] == WordBytes(r.timestampMs);
    assert c[4..8] == WordBytes(r.ask);
    assert c[8..12] == WordBytes(r.bid);
    assert c[12..16] == WordBytes(r.askVolume);
    assert c[16..20] == WordBytes(r.bidVolume);
    WordBytesRoundTrip(r.timestampMs);
    WordBytesRoundTrip(r.ask);
    WordBytesRoundTrip(r.bid);
    WordBytesRoundTrip(r.askVolume);
    WordBytesRoundTrip(r.bidVolume);
  }

  /** Every 20-byte chunk is some record: decoding loses nothing. */
  lemma ChunkRoundTrip(chunk: seq<Byte>)
    requires |chunk| == RecordSize
    ensures EncodeRecord(DecodeRecord(chunk)) == chunk
  {
    BigEndian32RoundTrip(chunk[0..4]);
    BigEndian32RoundTrip(chunk[4..8]);
    BigEndian32RoundTrip(chunk[8..12]);
    BigEndian32RoundTrip(chunk[12..16]);
    BigEndian32RoundTrip(chunk[16..20]);
    assert chunk == chunk[0..4] + chunk[4..8] + chunk[8..12] + chunk[12..16] + chunk[16..20];
  }

  /** The records of a decompressed hour: one per full 20-byte chunk, in
      order; a trailing partial chunk yields nothing. */
  function Records(data: seq<Byte>): (rs: seq<RawRecord>)
    decreases |data|
  {
    if |data| < RecordSize then [] else [DecodeRecord(data[..RecordSize])] + Records(data[RecordSize..])
  }

  /** Record i comes from bytes [20i, 20i + 20), and there are
      ⌊|data| / 20⌋ of them. */
  lemma {:induction false} RecordsAt(data: seq<Byte>)
    ensures |Records(data)| == |data| / RecordSize
    ensures forall i :: 0 <= i < |data| / RecordSize ==>
              RecordSize * i + RecordSize <= |data| &&
              Records(data)[i] == DecodeRecord(data[RecordSize * i..RecordSize * i + RecordSize])
    decreases |data|
  {
    if |data| >= RecordSize {
      var rest := data[RecordSize..];
      RecordsAt(rest);
      forall i | 1 <= i < |data| / RecordSize
        ensures Records(data)[i] == DecodeRecord(data[RecordSize * i..RecordSize * i + RecordSize])
      {
        assert rest[RecordSize * (i - 1)..RecordSize * (i - 1) + RecordSize]
            == data[RecordSize * i..RecordSize * i + RecordSize];
      }
    }
  }

  function EncodeRecords(rs: seq<RawRecord>): (data: seq<Byte>)
    ensures |data| == RecordSize * |rs|
  {
    if rs == [] then [] else EncodeRecord(rs[0]) + EncodeRecords(rs[1..])
  }

  /** What was packed record by record is read back record by record,
      whatever partial record trails it. */
  lemma {:induction false} RecordsRoundTrip(rs: seq<RawRecord>, tail: seq<Byte>)
    requires |tail| < RecordSize
    ensures Records(EncodeRecords(rs) + tail) == rs
  {
    if rs != [] {
      var data := EncodeRecords(rs) + tail;
      assert data[..RecordSize] == EncodeRecord(rs[0]);
      assert data[RecordSize..] == EncodeRecords(rs[1..]) + tail;
      RecordRoundTrip(rs[0]);
      RecordsRoundTrip(rs[1..], tail);
    }
  }

  /** Splitting at a record boundary splits the records. */
  lemma {:induction false} RecordsAppend(a: seq<Byte>, b: seq<Byte>)
    requires |a| % RecordSize == 0
    ensures Records(a + b) == Records(a) + Records(b)
    decreases |a|
  {
    if |a| > 0 {
      assert (a + b)[..RecordSize] == a[..RecordSize];
      assert (a + b)[RecordSize..] == a[RecordSize..] + b;
      RecordsAppend(a[RecordSize..], b);
    } else {
      assert a + b == b;
    }
  }
}
