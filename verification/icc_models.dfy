/** The decoded forms of an ICC profile: header, tag directory entries and the
    one payload type the decoder understands, the private video card gamma
    table ('vcgt'). */
module IccModels {
  import opened Results
  import opened BigEndian

  /** An s15Fixed16Number kept as its raw halves: the signed whole part and the
      unsigned fraction, in the order they are read. */
  datatype Fixed16Raw = Fixed16Raw(whole: int16, fraction: uint16)

  /** The 128-byte profile header, field for field (clause 7.2 of ICC.1:2010). */
  datatype IccHeader = IccHeader(
    size: uint32,
    cmmType: uint32,
    version: uint32,
    profileClass: uint32,
    deviceColorSpace: uint32,
    profileConnectionColorSpace: uint32,
    createdDate: DateTimeFields,
    signature: uint32,
    platform: uint32,
    profileFlags: uint32,
    manufacturer: uint32,
    device: uint32,
    deviceAttributes: uint64,
    renderIntent: uint32,
    illuminantX: Fixed16Raw,
    illuminantY: Fixed16Raw,
    illuminantZ: Fixed16Raw,
    creator: uint32,
    profileIdHigh: uint64,
    profileIdLow: uint64)

  /** Decoded 'vcgt' payload: one 16-bit table per channel. */
  datatype VideoCardGammaTable = VideoCardGammaTable(red: seq<uint16>, green: seq<uint16>, blue: seq<uint16>)

  /** A tag directory entry; `data` is only ever set to a decoded gamma table. */
  datatype IccProfileTag = IccProfileTag(tag: uint32, offset: uint32, size: uint32, data: Option<VideoCardGammaTable>)

  datatype IccProfile = IccProfile(header: IccHeader, tags: seq<IccProfileTag>)

  /** Type signature of the video card gamma table, "vcgt". */
  const VcgtSignature: uint32 := 0x76636774

  /** Bytes skipped between the type signature and the red table. */
  const VcgtSubHeaderSize: nat := 14

  /** Entries per channel table. */
  const GammaTableLength: nat := 256

  /** The `count` big-endian UInt16 values stored back to back from `start`, by position. */
  function UInt16sAt(data: Bytes, start: nat, count: nat): (values: seq<uint16>)
    requires start + 2 * count <= |data|
    ensures |values| == count
    ensures forall k :: 0 <= k < count ==> values[k] == BeAt(data, start + 2 * k, 2)
  {
    seq(count, k requires 0 <= k < count => U16At(data, start + 2 * k))
  }

  /** The gamma table stored from `start` on, by position: entry k of red, green and blue
      sits at start + 2k, start + 512 + 2k and start + 1024 + 2k. */
  function GammaTableAt(data: Bytes, start: nat): VideoCardGammaTable
    requires start + 1536 <= |data|
  {
    VideoCardGammaTable(
      UInt16sAt(data, start, 256), UInt16sAt(data, start + 512, 256), UInt16sAt(data, start + 1024, 256))
  }

  /** One of the constructor's per-channel loops as written: `count` times
      ReadBigEndianUInt16, each throwing when fewer than two bytes remain. */
  function ReadUInt16Loop(data: Bytes, pos: nat, count: nat): (res: Result<Read<seq<uint16>>, DecodeError>)
    requires pos <= |data|
    decreases count
  {
    if count == 0 then Ok(Read([], pos))
    else
      var first :- ReadBigEndianUInt16(data, pos);
      var others :- ReadUInt16Loop(data, first.next, count - 1);
      Ok(Read([first.value] + others.value, others.next))
  }

  /** What a per-channel loop amounts to, in closed form: all `count` values when the
      window holds 2 * count bytes, and otherwise the "not enough input" of the first read
      that runs out. The table decoder is stated with this form. */
  function ReadUInt16Table(data: Bytes, pos: nat, count: nat): Result<Read<seq<uint16>>, DecodeError>
    requires pos <= |data|
  {
    if |data| - pos < 2 * count then Err(NotEnoughInput)
    else Ok(Read(UInt16sAt(data, pos, count), pos + 2 * count))
  }

  /** The loop and the closed form agree on every input, error or not. */
  lemma {:induction false} UInt16LoopIsTable(data: Bytes, pos: nat, count: nat)
    requires pos <= |data|
    ensures ReadUInt16Loop(data, pos, count) == ReadUInt16Table(data, pos, count)
    decreases count
  {
    if count > 0 && pos + 2 <= |data| {
      UInt16LoopIsTable(data, pos + 2, count - 1);
      if pos + 2 * count <= |data| {
        assert [BeAt(data, pos, 2) as uint16] + UInt16sAt(data, pos + 2, count - 1) == UInt16sAt(data, pos, count);
      }
    }
  }

  /** The VideoCardGammaTableTag constructor, reading from just after the type signature:
      Advance(14), then 256 red, 256 green and 256 blue big-endian UInt16 values. */
  function ReadVideoCardGammaTable(data: Bytes, pos: nat): (res: Result<Read<VideoCardGammaTable>, DecodeError>)
    requires pos <= |data|
    ensures res.Ok? <==> pos + 1550 <= |data|
    ensures |data| < pos + 14 ==> res == Err(AdvanceOutOfRange)
    ensures pos + 14 <= |data| < pos + 1550 ==> res == Err(NotEnoughInput)
    ensures res.Ok? ==> res.value == Read(GammaTableAt(data, pos + 14), pos + 1550)
  {
    if |data| - pos < VcgtSubHeaderSize then Err(AdvanceOutOfRange)
    else
      var red :- ReadUInt16Table(data, pos + VcgtSubHeaderSize, GammaTableLength);
      var green :- ReadUInt16Table(data, red.next, GammaTableLength);
      var blue :- ReadUInt16Table(data, green.next, GammaTableLength);
      Ok(Read(VideoCardGammaTable(red.value, green.value, blue.value), blue.next))
  }

  /** Big-endian encoding of a table of 16-bit values. */
  function EncodeUInt16Table(values: seq<uint16>): (s: Bytes)
    ensures |s| == 2 * |values|
  {
    if |values| == 0 then [] else EncodeBigEndian(values[0], 2) + EncodeUInt16Table(values[1..])
  }

  /** Reading a table back from its encoding returns exactly the values encoded. */
  lemma UInt16TableRoundTrip(values: seq<uint16>, data: Bytes, pos: nat)
    requires pos + 2 * |values| <= |data|
    requires data[pos..pos + 2 * |values|] == EncodeUInt16Table(values)
    ensures ReadUInt16Loop(data, pos, |values|) == Ok(Read(values, pos + 2 * |values|))
  {
    UInt16LoopIsTable(data, pos, |values|);
    forall k | 0 <= k < |values|
      ensures UInt16sAt(data, pos, |values|)[k] == values[k]
    {
      EntryRoundTrip(values, data, pos, k);
    }
    assert UInt16sAt(data, pos, |values|) == values;
  }

  /** Entry k of an encoded table reads back as the value encoded. */
  lemma EntryRoundTrip(values: seq<uint16>, data: Bytes, pos: nat, k: nat)
    requires k < |values| && pos + 2 * |values| <= |data|
    requires data[pos..pos + 2 * |values|] == EncodeUInt16Table(values)
    ensures BeAt(data, pos + 2 * k, 2) == values[k]
  {
    var entry := EncodeBigEndian(values[k], 2);
    EncodedEntry(values, k);
    var w := data[pos..pos + 2 * |values|];
    assert w[2 * k] == data[pos + 2 * k] && w[2 * k + 1] == data[pos + 2 * k + 1];
    assert data[pos + 2 * k..pos + 2 * k + 2] == w[2 * k..2 * k + 2];
    assert entry[0..2] == entry;
    BeAtSame(data, pos + 2 * k, entry, 0, 2);
  }

  /** Entry k of a table is encoded at bytes 2k and 2k + 1 of the encoding. */
  lemma {:induction false} EncodedEntry(values: seq<uint16>, k: nat)
    requires k < |values|
    ensures EncodeUInt16Table(values)[2 * k..2 * k + 2] == EncodeBigEndian(values[k], 2)
    decreases k
  {
    var e := EncodeUInt16Table(values);
    var head, tail := EncodeBigEndian(values[0], 2), EncodeUInt16Table(values[1..]);
    assert e == head + tail;
    if k == 0 {
      assert e[0..2] == head;
    } else {
      EncodedEntry(values[1..], k - 1);
      assert e[2 * k..2 * k + 2] == tail[2 * (k - 1)..2 * (k - 1) + 2];
    }
  }


  /** A 'vcgt' body as the constructor expects it: 14 bytes of sub-header, then the three channels. */
  function EncodeVideoCardGammaTable(subHeader: Bytes, t: VideoCardGammaTable): (s: Bytes)
    requires |subHeader| == 14
  {
    subHeader + EncodeUInt16Table(t.red) + EncodeUInt16Table(t.green) + EncodeUInt16Table(t.blue)
  }

  /** Any three 256-entry channels behind any 14-byte sub-header decode back unchanged,
      whatever follows them. */
  lemma VideoCardGammaTableRoundTrip(subHeader: Bytes, t: VideoCardGammaTable, rest: Bytes)
    requires |subHeader| == 14 && |t.red| == 256 && |t.green| == 256 && |t.blue| == 256
    ensures var data := EncodeVideoCardGammaTable(subHeader, t) + rest;
            ReadVideoCardGammaTable(data, 0) == Ok(Read(t, 1550))
  {
    var data := EncodeVideoCardGammaTable(subHeader, t) + rest;
    var er, eg, eb := EncodeUInt16Table(t.red), EncodeUInt16Table(t.green), EncodeUInt16Table(t.blue);
    assert data == subHeader + er + eg + eb + rest;
    assert data[14..526] == er;
    assert data[526..1038] == eg;
    assert data[1038..1550] == eb;
    UInt16TableRoundTrip(t.red, data, 14);
    UInt16LoopIsTable(data, 14, 256);
    UInt16TableRoundTrip(t.green, data, 526);
    UInt16LoopIsTable(data, 526, 256);
    UInt16TableRoundTrip(t.blue, data, 1038);
    UInt16LoopIsTable(data, 1038, 256);
  }

  /** The tag's name: its four signature bytes, most significant first (As4CC). */
  function As4CC(source: uint32): (name: Bytes)
    ensures |name| == 4
  {
    [(source / 0x100_0000) % 0x100, (source / 0x1_0000) % 0x100, (source / 0x100) % 0x100, source % 0x100]
  }

  /** Reading the four name bytes back as a big-endian UInt32 gives the signature again,
      so two tags share a name exactly when they share a signature. */
  lemma As4CCRoundTrip(source: uint32)
    ensures BeValue(As4CC(source)) == source
  {
    var n := As4CC(source);
    BeValue4(n);
    ByteDigits(source);
  }

  lemma BeValue4(s: Bytes)
    requires |s| == 4
    ensures BeValue(s) == ((s[0] as int * 0x100 + s[1]) * 0x100 + s[2]) * 0x100 + s[3]
  {
    assert BeAt(s, 0, 2) == s[0] as int * 0x100 + s[1];
    assert BeAt(s, 0, 3) == BeAt(s, 0, 2) * 0x100 + s[2];
  }

  /** A 32-bit value is made of its four bytes, each taken by shift and truncation. */
  lemma ByteDigits(v: uint32)
    ensures v == (((v / 0x100_0000) % 0x100 * 0x100 + (v / 0x1_0000) % 0x100) * 0x100
                  + (v / 0x100) % 0x100) * 0x100 + v % 0x100
  {
    var q1 := v / 0x100;
    var q2 := q1 / 0x100;
    var q3 := q2 / 0x100;
    assert q2 == v / 0x1_0000;
    assert q3 == v / 0x100_0000;
    assert q3 < 0x100;
  }

  /** A string of ASCII characters as the bytes UTF-8 uses for it. */
  function AsciiBytes(s: string): (b: Bytes)
    requires forall i :: 0 <= i < |s| ==> s[i] as int < 0x80
    ensures |b| == |s|
    ensures forall i :: 0 <= i < |s| ==> b[i] == s[i] as int
  {
    if |s| == 0 then [] else [s[0] as int] + AsciiBytes(s[1..])
  }

  /** Tag name comparison against a string. UTF-8 decoding of the four bytes produces an
      ASCII string exactly when the bytes are its ASCII codes, so for an ASCII `name`
      this is TagName == name. */
  predicate TagNameIs(t: IccProfileTag, name: string)
    requires forall i :: 0 <= i < |name| ==> name[i] as int < 0x80
  {
    As4CC(t.tag) == AsciiBytes(name)
  }

  /** The 'vcgt' signature is the tag named "vcgt", and it is the only one. */
  lemma VcgtName(t: IccProfileTag)
    ensures TagNameIs(t, "vcgt") <==> t.tag == VcgtSignature
  {
    var name: Bytes := [0x76, 0x63, 0x67, 0x74];
    assert AsciiBytes("vcgt") == name;
    if As4CC(t.tag) == name {
      As4CCRoundTrip(t.tag);
      BeValue4(name);
    }
  }
}
