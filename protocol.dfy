/** The file framing of the protocol (Protocol.h): a file is an 8-byte
    little-endian magic tag naming its kind, then records, each an 8-byte
    little-endian length followed by that many payload bytes. Payloads are
    the serialized messages, kept here as opaque bytes. */
module Framing {
  import opened Outcomes

  /** One byte of a file. */
  newtype Byte = x: int | 0 <= x < 256

  const MAGIC_COMMITMENT: nat := 0x5a4b50434f4d4954
  const MAGIC_SECRET: nat := 0x5a4b505345435245
  const MAGIC_PROVEE: nat := 0x5a4b505052564545
  const MAGIC_REQUEST: nat := 0x5a4b505245515354
  const MAGIC_REVEAL: nat := 0x5a4b50525645414c

  function Pow256(n: nat): (r: nat)
    ensures r >= 1
  {
    if n == 0 then 1 else 256 * Pow256(n - 1)
  }

  const LIMIT64: nat := Pow256(8)

  /** x written as n little-endian bytes, low byte first. */
  function LittleEndian(x: nat, n: nat): (r: seq<Byte>)
    ensures |r| == n
  {
    if n == 0 then [] else [(x % 256) as Byte] + LittleEndian(x / 256, n - 1)
  }

  /** The number little-endian bytes b stand for. */
  function FromLittleEndian(b: seq<Byte>): nat
  {
    if b == [] then 0 else b[0] as nat + 256 * FromLittleEndian(b[1..])
  }

  function LE64(x: nat): (r: seq<Byte>)
    ensures |r| == 8
  {
    LittleEndian(x, 8)
  }

  /** Decoding n little-endian bytes of x gives back x, when x fits in n bytes. */
  lemma {:induction false} LittleEndianRoundTrip(x: nat, n: nat)
    requires x < Pow256(n)
    ensures FromLittleEndian(LittleEndian(x, n)) == x
  {
    if n > 0 {
      var q, d := x / 256, x % 256;
      assert x == 256 * q + d && 0 <= d < 256;
      assert q < Pow256(n - 1);
      LittleEndianRoundTrip(q, n - 1);
      var b := LittleEndian(x, n);
      assert b == [d as Byte] + LittleEndian(q, n - 1);
      assert b[1..] == LittleEndian(q, n - 1);
      assert FromLittleEndian(b) == b[0] as nat + 256 * FromLittleEndian(b[1..]);
    }
  }

  /** Every byte string decodes to a number below 256^length. */
  lemma {:induction false} FromLittleEndianBound(b: seq<Byte>)
    ensures FromLittleEndian(b) < Pow256(|b|)
  {
    if b != [] {
      FromLittleEndianBound(b[1..]);
    }
  }

  /** Each of the five kinds of file has its own magic, and each fits in 64 bits. */
  lemma MagicsDistinct()
    ensures MAGIC_COMMITMENT < LIMIT64 && MAGIC_SECRET < LIMIT64 && MAGIC_PROVEE < LIMIT64
    ensures MAGIC_REQUEST < LIMIT64 && MAGIC_REVEAL < LIMIT64
    ensures |{MAGIC_COMMITMENT, MAGIC_SECRET, MAGIC_PROVEE, MAGIC_REQUEST, MAGIC_REVEAL}| == 5
  {
    assert LIMIT64 == 0x1_0000_0000_0000_0000;
  }

  /** The records, each framed by its LE64 length. */
  function Frames(records: seq<seq<Byte>>): seq<Byte>
  {
    if records == [] then [] else LE64(|records[0]|) + records[0] + Frames(records[1..])
  }

  /** A file of the given kind holding the given records. */
  function FileBytes(magic: nat, records: seq<seq<Byte>>): seq<Byte>
  {
    LE64(magic) + Frames(records)
  }

  /** The writer: the bytes written so far. */
  class CodedFileWriter {
    var bytes: seq<Byte>

    /** Opening a file writes its magic first. */
    constructor (magic: nat)
      ensures bytes == LE64(magic)
    {
      bytes := LE64(magic);
    }

    /** WriteToStream: the payload's length as LE64, then the payload. */
    method WriteToStream(payload: seq<Byte>)
      modifies this
      ensures bytes == old(bytes) + LE64(|payload|) + payload
    {
      bytes := bytes + LE64(|payload|);
      bytes := bytes + payload;
    }
  }

  /** Writing record k moves its frame from the frames still to write to
      the bytes written. */
  lemma WriteStep(written: seq<Byte>, magic: nat, records: seq<seq<Byte>>, k: nat)
    requires k < |records| && written + Frames(records[k..]) == FileBytes(magic, records)
    ensures written + LE64(|records[k]|) + records[k] + Frames(records[k + 1..]) == FileBytes(magic, records)
  {
    assert records[k..][1..] == records[k + 1..];
    var header := LE64(|records[k]|);
    var rest := Frames(records[k + 1..]);
    assert Frames(records[k..]) == header + records[k] + rest;
    assert written + header + records[k] + rest == written + (header + records[k] + rest);
  }

  /** Writing the records one after another gives the file of those records. */
  method WriteAll(magic: nat, records: seq<seq<Byte>>) returns (w: CodedFileWriter)
    ensures fresh(w) && w.bytes == FileBytes(magic, records)
  {
    w := new CodedFileWriter(magic);
    var k := 0;
    while k < |records|
      invariant 0 <= k <= |records|
      invariant w.bytes + Frames(records[k..]) == FileBytes(magic, records)
    {
      WriteStep(w.bytes, magic, records, k);
      w.WriteToStream(records[k]);
      k := k + 1;
    }
    assert records[k..] == [];
  }

  /** The reader: the file's bytes and a cursor. */
  class CodedFileReader {
    const data: seq<Byte>
    var pos: nat

    ghost predicate Valid()
      reads this
    {
      pos <= |data|
    }

    constructor (data: seq<Byte>, pos: nat)
      requires pos <= |data|
      ensures Valid() && this.data == data && this.pos == pos
    {
      this.data := data;
      this.pos := pos;
    }

    /** ReadFromStream: read an LE64 length, then exactly that many payload
        bytes. None when the stream ends before a full record, with the cursor
        left where it was. */
    method ReadFromStream() returns (r: Option<seq<Byte>>)
      requires Valid()
      modifies this
      ensures Valid()
      ensures r.Some? <==> old(pos) + 8 <= |data| && old(pos) + 8 + FromLittleEndian(data[old(pos)..old(pos) + 8]) <= |data|
      ensures r.Some? ==> var len := FromLittleEndian(data[old(pos)..old(pos) + 8]);
                          && r.value == data[old(pos) + 8..old(pos) + 8 + len]
                          && pos == old(pos) + 8 + len
      ensures r.None? ==> pos == old(pos)
    {
      if |data| - pos < 8 {
        return None;
      }
      var len := FromLittleEndian(data[pos..pos + 8]);
      if |data| - pos - 8 < len {
        return None;
      }
      r := Some(data[pos + 8..pos + 8 + len]);
      pos := pos + 8 + len;
    }
  }

  /** The CodedFileReader constructor: the file is opened only if its first 8
      bytes are the expected magic; otherwise it aborts. */
  method OpenReader(data: seq<Byte>, magic: nat) returns (r: Result<CodedFileReader>)
    ensures r.Ok? <==> |data| >= 8 && FromLittleEndian(data[..8]) == magic
    ensures r.Ok? ==> fresh(r.value) && r.value.Valid() && r.value.data == data && r.value.pos == 8
  {
    if |data| < 8 || FromLittleEndian(data[..8]) != magic {
      return Fatal("Bad magic number reading file");
    }
    var reader := new CodedFileReader(data, 8);
    return Ok(reader);
  }

  /** A file opened with another kind's magic is refused. */
  lemma WrongMagicRefused(written: nat, expected: nat, records: seq<seq<Byte>>)
    requires written < LIMIT64 && written != expected
    ensures FromLittleEndian(FileBytes(written, records)[..8]) != expected
  {
    assert FileBytes(written, records)[..8] == LE64(written);
    LittleEndianRoundTrip(written, 8);
  }

  /** The records a stream of frames holds: frames are read while a whole
      one remains; a short tail ends the stream. */
  function ParseFrames(b: seq<Byte>): seq<seq<Byte>>
    decreases |b|
  {
    if |b| < 8 then []
    else
      var len := FromLittleEndian(b[..8]);
      if |b| - 8 < len then [] else [b[8..8 + len]] + ParseFrames(b[8 + len..])
  }

  /** Parsing the frames of records gives back the records, when each is
      shorter than 2^64 bytes. */
  lemma {:induction false} FramesRoundTrip(records: seq<seq<Byte>>)
    requires forall k :: 0 <= k < |records| ==> |records[k]| < LIMIT64
    ensures ParseFrames(Frames(records)) == records
  {
    if records != [] {
      var r := records[0];
      var f := Frames(records);
      assert f == LE64(|r|) + r + Frames(records[1..]);
      assert f[..8] == LE64(|r|);
      LittleEndianRoundTrip(|r|, 8);
      assert f[8..8 + |r|] == r;
      assert f[8 + |r|..] == Frames(records[1..]);
      FramesRoundTrip(records[1..]);
    }
  }

  /** A whole record at position p is the first record parsed from p, and
      parsing goes on right after it. */
  lemma ParseFramesNext(data: seq<Byte>, p: nat)
    requires p + 8 <= |data| && p + 8 + FromLittleEndian(data[p..p + 8]) <= |data|
    ensures var len := FromLittleEndian(data[p..p + 8]);
            ParseFrames(data[p..]) == [data[p + 8..p + 8 + len]] + ParseFrames(data[p + 8 + len..])
  {
    var b := data[p..];
    var len := FromLittleEndian(data[p..p + 8]);
    assert b[..8] == data[p..p + 8];
    assert b[8..8 + len] == data[p + 8..p + 8 + len];
    assert b[8 + len..] == data[p + 8 + len..];
  }

  /** Without a whole record at position p, nothing more is parsed. */
  lemma ParseFramesShort(data: seq<Byte>, p: nat)
    requires p <= |data|
    requires !(p + 8 <= |data| && p + 8 + FromLittleEndian(data[p..p + 8]) <= |data|)
    ensures ParseFrames(data[p..]) == []
  {
    if p + 8 <= |data| {
      assert data[p..][..8] == data[p..p + 8];
    }
  }

  /** Reading records until the stream ends: every record the rest of the file
      holds, in order. */
  method ReadAll(reader: CodedFileReader) returns (records: seq<seq<Byte>>)
    requires reader.Valid()
    modifies reader
    ensures reader.Valid()
    ensures records == ParseFrames(reader.data[old(reader.pos)..])
  {
    ghost var start := reader.pos;
    records := [];
    var done := false;
    while !done
      invariant reader.Valid() && start <= reader.pos
      invariant records + ParseFrames(reader.data[reader.pos..]) == ParseFrames(reader.data[start..])
      invariant done ==> ParseFrames(reader.data[reader.pos..]) == []
      decreases |reader.data| - reader.pos, if done then 0 else 1
    {
      ghost var before := reader.pos;
      var r := reader.ReadFromStream();
      if r.None? {
        ParseFramesShort(reader.data, before);
        done := true;
      } else {
        ParseFramesNext(reader.data, before);
        ghost var tail := ParseFrames(reader.data[reader.pos..]);
        assert ParseFrames(reader.data[before..]) == [r.value] + tail;
        assert (records + [r.value]) + tail == records + ([r.value] + tail);
        records := records + [r.value];
      }
    }
    assert records == records + [];
  }

  /** Reading a file written with the same magic gives back the written
      records, in order. */
  method ReadFile(data: seq<Byte>, magic: nat) returns (r: Result<seq<seq<Byte>>>)
    ensures r.Ok? <==> |data| >= 8 && FromLittleEndian(data[..8]) == magic
    ensures r.Ok? ==> r.value == ParseFrames(data[8..])
  {
    var reader := OpenReader(data, magic);
    if reader.Fatal? {
      return Fatal(reader.reason);
    }
    var records := ReadAll(reader.value);
    return Ok(records);
  }

  /** The writer's file, read with the magic it was written with, gives back
      every record in order. */
  lemma FileRoundTrip(magic: nat, records: seq<seq<Byte>>)
    requires magic < LIMIT64 && forall k :: 0 <= k < |records| ==> |records[k]| < LIMIT64
    ensures |FileBytes(magic, records)| >= 8
    ensures FromLittleEndian(FileBytes(magic, records)[..8]) == magic
    ensures ParseFrames(FileBytes(magic, records)[8..]) == records
  {
    var b := FileBytes(magic, records);
    assert b[..8] == LE64(magic) && b[8..] == Frames(records);
    LittleEndianRoundTrip(magic, 8);
    FramesRoundTrip(records);
  }
}
