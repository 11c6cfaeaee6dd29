/** The profile decoder of IccProfileParser, with the PipeReader streaming flattened:
    the whole profile is one byte sequence `stream`, the header and the tag directory
    are read from fixed positions in it, and every tag's payload is the window
    stream[offset .. offset + size]. */
module IccParser {
  import opened Results
  import opened BigEndian
  import opened IccModels

  /** The header, tag count and tag directory start here. */
  const TagCountOffset: nat := 128
  const TagTableStart: nat := 132
  const TagEntrySize: nat := 12

  /** Largest size that survives the (int) cast in ParseAsync as a non-negative value. */
  const MaxIntSize: nat := 0x7FFF_FFFF

  // ---------------------------------------------------------------- header

  /** (short) of the big-endian UInt16 at `pos`. */
  function Int16At(data: Bytes, pos: nat): int16
    requires pos + 2 <= |data|
  {
    var raw := U16At(data, pos);
    if raw >= 0x8000 then raw - 0x1_0000 else raw
  }

  /** Reads15Fixed16 without its floating-point division: the signed whole part, then
      the fraction. */
  function ReadFixed16Raw(data: Bytes, pos: nat): (res: Result<Read<Fixed16Raw>, DecodeError>)
    requires pos <= |data|
    ensures res.Ok? <==> pos + 4 <= |data|
    ensures res.Ok? ==> res.value == Read(Fixed16Raw(Int16At(data, pos), BeAt(data, pos + 2, 2)), pos + 4)
  {
    var whole :- ReadBigEndianInt16(data, pos);
    var fraction :- ReadBigEndianUInt16(data, whole.next);
    Ok(Read(Fixed16Raw(whole.value, fraction.value), fraction.next))
  }

  /** Reference layout of the header, field by field from byte 0 (clause 7.2 of
      ICC.1:2010); bytes 100 to 127 belong to no field. */
  function HeaderAt(s: Bytes): IccHeader
    requires 100 <= |s|
  {
    IccHeader(
      size := U32At(s, 0),
      cmmType := U32At(s, 4),
      version := U32At(s, 8),
      profileClass := U32At(s, 12),
      deviceColorSpace := U32At(s, 16),
      profileConnectionColorSpace := U32At(s, 20),
      createdDate := DateTimeFields(
        U16At(s, 24), U16At(s, 26), U16At(s, 28), U16At(s, 30), U16At(s, 32), U16At(s, 34)),
      signature := U32At(s, 36),
      platform := U32At(s, 40),
      profileFlags := U32At(s, 44),
      manufacturer := U32At(s, 48),
      device := U32At(s, 52),
      deviceAttributes := U64At(s, 56),
      renderIntent := U32At(s, 64),
      illuminantX := Fixed16Raw(Int16At(s, 68), U16At(s, 70)),
      illuminantY := Fixed16Raw(Int16At(s, 72), U16At(s, 74)),
      illuminantZ := Fixed16Raw(Int16At(s, 76), U16At(s, 78)),
      creator := U32At(s, 80),
      profileIdHigh := U64At(s, 84),
      profileIdLow := U64At(s, 92))
  }

  /** ReadHeader: the twenty fields in order through one reader starting at byte 0. The
      model reads them in three runs, each continuing where the previous one stopped. */
  function ReadHeader(s: Bytes): (res: Result<Read<IccHeader>, DecodeError>)
    ensures res.Ok? <==> 100 <= |s|
    ensures res.Err? ==> res.error == NotEnoughInput
    ensures res.Ok? ==> res.value == Read(HeaderAt(s), 100)
  {
    var ids :- ReadHeaderIds(s);
    var (size, cmmType, version, profileClass, colorSpace, connectionSpace, created) := ids.value;
    var device :- ReadHeaderDevice(s, ids.next);
    var (signature, platform, flags, manufacturer, model, attributes, intent) := device.value;
    var tail :- ReadHeaderTail(s, device.next);
    var (x, y, z, creator, idHigh, idLow) := tail.value;
    Ok(Read(IccHeader(
      size, cmmType, version, profileClass, colorSpace, connectionSpace, created, signature,
      platform, flags, manufacturer, model, attributes, intent, x, y, z, creator, idHigh,
      idLow), tail.next))
  }

  /** Size, CMM, version, class, both colour spaces and the creation date: bytes 0 to 35. */
  function ReadHeaderIds(s: Bytes): (res: Result<Read<(uint32, uint32, uint32, uint32, uint32, uint32, DateTimeFields)>, DecodeError>)
    ensures res.Ok? <==> 36 <= |s|
    ensures res.Err? ==> res.error == NotEnoughInput
    ensures res.Ok? ==> res.value == Read((U32At(s, 0), U32At(s, 4), U32At(s, 8), U32At(s, 12), U32At(s, 16), U32At(s, 20),
      DateTimeFields(U16At(s, 24), U16At(s, 26), U16At(s, 28), U16At(s, 30), U16At(s, 32), U16At(s, 34))), 36)
  {
    var size :- ReadBigEndianUInt32(s, 0);
    var cmmType :- ReadBigEndianUInt32(s, size.next);
    var version :- ReadBigEndianUInt32(s, cmmType.next);
    var profileClass :- ReadBigEndianUInt32(s, version.next);
    var colorSpace :- ReadBigEndianUInt32(s, profileClass.next);
    var connectionSpace :- ReadBigEndianUInt32(s, colorSpace.next);
    var created :- ReadDateTimeNumber(s, connectionSpace.next);
    Ok(Read((size.value, cmmType.value, version.value, profileClass.value, colorSpace.value,
      connectionSpace.value, created.value), created.next))
  }

  /** Signature, platform, flags, manufacturer, device, attributes and intent: bytes 36 to 67. */
  function ReadHeaderDevice(s: Bytes, pos: nat): (res: Result<Read<(uint32, uint32, uint32, uint32, uint32, uint64, uint32)>, DecodeError>)
    requires pos == 36 && pos <= |s|
    ensures res.Ok? <==> 68 <= |s|
    ensures res.Err? ==> res.error == NotEnoughInput
    ensures res.Ok? ==> res.value == Read((U32At(s, 36), U32At(s, 40), U32At(s, 44), U32At(s, 48), U32At(s, 52),
      U64At(s, 56), U32At(s, 64)), 68)
  {
    var signature :- ReadBigEndianUInt32(s, pos);
    var platform :- ReadBigEndianUInt32(s, signature.next);
    var flags :- ReadBigEndianUInt32(s, platform.next);
    var manufacturer :- ReadBigEndianUInt32(s, flags.next);
    var device :- ReadBigEndianUInt32(s, manufacturer.next);
    var attributes :- ReadBigEndianUInt64(s, device.next);
    var intent :- ReadBigEndianUInt32(s, attributes.next);
    Ok(Read((signature.value, platform.value, flags.value, manufacturer.value, device.value,
      attributes.value, intent.value), intent.next))
  }

  /** The illuminant, the creator and the profile ID: bytes 68 to 99. */
  function ReadHeaderTail(s: Bytes, pos: nat): (res: Result<Read<(Fixed16Raw, Fixed16Raw, Fixed16Raw, uint32, uint64, uint64)>, DecodeError>)
    requires pos == 68 && pos <= |s|
    ensures res.Ok? <==> 100 <= |s|
    ensures res.Err? ==> res.error == NotEnoughInput
    ensures res.Ok? ==> res.value == Read((Fixed16Raw(Int16At(s, 68), U16At(s, 70)), Fixed16Raw(Int16At(s, 72), U16At(s, 74)),
      Fixed16Raw(Int16At(s, 76), U16At(s, 78)), U32At(s, 80), U64At(s, 84), U64At(s, 92)), 100)
  {
    var x :- ReadFixed16Raw(s, pos);
    var y :- ReadFixed16Raw(s, x.next);
    var z :- ReadFixed16Raw(s, y.next);
    var creator :- ReadBigEndianUInt32(s, z.next);
    var idHigh :- ReadBigEndianUInt64(s, creator.next);
    var idLow :- ReadBigEndianUInt64(s, idHigh.next);
    Ok(Read((x.value, y.value, z.value, creator.value, idHigh.value, idLow.value), idLow.next))
  }

  /** ReadTagCount: the UInt32 right after the header. */
  function ReadTagCount(s: Bytes): (res: Result<uint32, DecodeError>)
    ensures res.Ok? <==> TagTableStart <= |s|
    ensures res.Ok? ==> res.value == BeAt(s, TagCountOffset, 4)
  {
    if |s| < TagCountOffset then Err(SliceOutOfRange)
    else
      var count :- ReadBigEndianUInt32(s, TagCountOffset);
      Ok(count.value)
  }

  // ---------------------------------------------------------------- directory

  /** Reference layout of the directory entry at byte `at`: signature, offset and size
      (clause 7.3 of ICC.1:2010), no data yet. */
  function EntryAt(s: Bytes, at: nat): IccProfileTag
    requires at + 12 <= |s|
  {
    IccProfileTag(U32At(s, at), U32At(s, at + 4), U32At(s, at + 8), None)
  }

  /** `n` directory entries back to back from `pos`; from the table start with the tag
      count, entry i is the one at bytes 132 + 12i .. 143 + 12i. */
  function EntriesFrom(s: Bytes, pos: nat, n: nat): (entries: seq<IccProfileTag>)
    requires pos + 12 * n <= |s|
    ensures |entries| == n
  {
    seq(n, i requires 0 <= i < n => EntryAt(s, pos + 12 * i))
  }

  /** ParseSingleOffset: three UInt32 reads, stored as given, without data. */
  function ParseSingleOffset(s: Bytes, pos: nat): (res: Result<Read<IccProfileTag>, DecodeError>)
    requires pos <= |s|
    ensures res.Ok? <==> pos + 12 <= |s|
    ensures res.Err? ==> res.error == NotEnoughInput
    ensures res.Ok? ==> res.value == Read(EntryAt(s, pos), pos + 12)
  {
    var tag :- ReadBigEndianUInt32(s, pos);
    var offset :- ReadBigEndianUInt32(s, tag.next);
    var size :- ReadBigEndianUInt32(s, offset.next);
    Ok(Read(IccProfileTag(tag.value, offset.value, size.value, None), size.next))
  }

  /** ReadOffsets: the loop over the directory, `remaining` entries still to read from `pos`. */
  function ReadOffsets(s: Bytes, pos: nat, remaining: nat): (res: Result<Read<seq<IccProfileTag>>, DecodeError>)
    requires pos <= |s|
    ensures res.Ok? <==> pos + 12 * remaining <= |s|
    ensures res.Err? ==> res.error == NotEnoughInput
    ensures res.Ok? ==> res.value == Read(EntriesFrom(s, pos, remaining), pos + 12 * remaining)
    decreases remaining
  {
    if remaining == 0 then Ok(Read([], pos))
    else
      var first :- ParseSingleOffset(s, pos);
      var others :- ReadOffsets(s, first.next, remaining - 1);
      EntriesFromCons(s, pos, remaining);
      Ok(Read([first.value] + others.value, others.next))
  }

  /** A run of entries is its first entry followed by the run after it. */
  lemma EntriesFromCons(s: Bytes, pos: nat, n: nat)
    requires n > 0 && pos + 12 * n <= |s|
    ensures EntriesFrom(s, pos, n) == [EntryAt(s, pos)] + EntriesFrom(s, pos + 12, n - 1)
  {
    var later := EntriesFrom(s, pos + 12, n - 1);
    forall i | 0 < i < n
      ensures EntriesFrom(s, pos, n)[i] == later[i - 1]
    {
      assert pos + 12 * i == pos + 12 + 12 * (i - 1);
    }
  }

  // ---------------------------------------------------------------- ordering

  /** Non-decreasing by offset, the order Array.Sort leaves the directory in. */
  predicate SortedByOffset(ts: seq<IccProfileTag>) {
    forall i, j :: 0 <= i < j < |ts| ==> ts[i].offset <= ts[j].offset
  }

  /** One insertion step: `t` goes before the first entry whose offset is not below its own. */
  function InsertByOffset(t: IccProfileTag, sorted: seq<IccProfileTag>): (r: seq<IccProfileTag>)
    requires SortedByOffset(sorted)
    ensures SortedByOffset(r)
    ensures multiset(r) == multiset(sorted) + multiset{t}
    ensures forall x :: x in r ==> x == t || x in sorted
    decreases |sorted|
  {
    if |sorted| == 0 then [t]
    else if t.offset <= sorted[0].offset then [t] + sorted
    else
      var rest := InsertByOffset(t, sorted[1..]);
      assert sorted == [sorted[0]] + sorted[1..];
      LowestFirst(sorted, t, rest);
      [sorted[0]] + rest
  }

  /** The head of a sorted sequence may stay in front of anything built from its tail
      and an entry with a larger offset. */
  lemma LowestFirst(sorted: seq<IccProfileTag>, t: IccProfileTag, rest: seq<IccProfileTag>)
    requires |sorted| > 0 && SortedByOffset(sorted) && sorted[0].offset < t.offset
    requires SortedByOffset(rest) && forall x :: x in rest ==> x == t || x in sorted[1..]
    ensures SortedByOffset([sorted[0]] + rest)
  {
    var r := [sorted[0]] + rest;
    forall i, j | 0 <= i < j < |r|
      ensures r[i].offset <= r[j].offset
    {
      if i == 0 {
        assert r[j] in rest;
        if r[j] != t {
          var m :| 0 <= m < |sorted[1..]| && sorted[1..][m] == r[j];
          assert sorted[m + 1] == r[j];
        }
      } else {
        assert r[i] == rest[i - 1] && r[j] == rest[j - 1];
      }
    }
  }

  /** The sort of ReadIccProfileDataAsync, by offset only. Array.Sort is not stable and
      leaves the order among equal offsets unspecified; this sort fixes one such order. */
  function SortByOffset(ts: seq<IccProfileTag>): (sorted: seq<IccProfileTag>)
    ensures SortedByOffset(sorted)
    ensures multiset(sorted) == multiset(ts)
    decreases |ts|
  {
    if |ts| == 0 then []
    else
      assert ts == [ts[0]] + ts[1..];
      InsertByOffset(ts[0], SortByOffset(ts[1..]))
  }

  // ---------------------------------------------------------------- payloads

  /** ReadTagData: the payload's type signature, then the gamma table for 'vcgt' and
      nothing for every other type. The table starts 4 + 14 = 18 bytes into the payload. */
  function ReadTagData(payload: Bytes): (res: Result<Option<VideoCardGammaTable>, DecodeError>)
    ensures |payload| < 4 ==> res == Err(NotEnoughInput)
    ensures 4 <= |payload| && BeAt(payload, 0, 4) != VcgtSignature ==> res == Ok(None)
    ensures 4 <= |payload| && BeAt(payload, 0, 4) == VcgtSignature ==>
      if |payload| < 18 then res == Err(AdvanceOutOfRange)
      else if |payload| < 1554 then res == Err(NotEnoughInput)
      else res == Ok(Some(GammaTableAt(payload, 18)))
  {
    var tagType :- ReadBigEndianUInt32(payload, 0);
    if tagType.value == VcgtSignature then
      var table :- ReadVideoCardGammaTable(payload, tagType.next);
      Ok(Some(table.value))
    else
      Ok(None)
  }

  /** One iteration of ParseAsync's payload loop for a tag at `offset` of `size` bytes.
      ReadAtLeastAsync((int)size) finds the stream too short when fewer than `size` bytes
      follow the offset; a size above int.MaxValue turns negative in the cast, so that
      wait is skipped and the Slice that follows throws instead. */
  function PayloadData(stream: Bytes, offset: nat, size: nat): (res: Result<Option<VideoCardGammaTable>, DecodeError>)
    ensures |stream| < offset + size && size <= MaxIntSize ==> res == Err(TooShortForProfile)
    ensures |stream| < offset + size && MaxIntSize < size ==> res == Err(SliceOutOfRange)
  {
    if |stream| < offset + size then
      if size <= MaxIntSize then Err(TooShortForProfile) else Err(SliceOutOfRange)
    else
      ReadTagData(stream[offset .. offset + size])
  }

  /** The data ParseAsync stores in tag `t`; it depends on the tag's offset and size only. */
  function TagPayloadData(stream: Bytes, t: IccProfileTag): Result<Option<VideoCardGammaTable>, DecodeError> {
    PayloadData(stream, t.offset, t.size)
  }

  /** A window of a window is a window of the whole. */
  lemma BeAtInWindow(s: Bytes, lo: nat, hi: nat, at: nat, pos: nat, n: nat)
    requires lo <= hi <= |s| && at + n <= hi - lo && pos == lo + at
    ensures BeAt(s[lo..hi], at, n) == BeAt(s, pos, n)
  {
    assert s[lo..hi][at..at + n] == s[pos..pos + n];
    BeAtSame(s[lo..hi], at, s, pos, n);
  }

  /** A payload decodes to a table only when it is a complete 'vcgt' body inside the stream. */
  lemma VcgtPayloadWindow(stream: Bytes, t: IccProfileTag)
    requires TagPayloadData(stream, t).Ok? && TagPayloadData(stream, t).value.Some?
    ensures t.offset + 1554 <= t.offset + t.size <= |stream|
    ensures TagPayloadData(stream, t).value.value == GammaTableAt(stream[t.offset..t.offset + t.size], 18)
  {
    var payload := stream[t.offset..t.offset + t.size];
    assert TagPayloadData(stream, t) == ReadTagData(payload);
  }

  /** A 'vcgt' body in the window lo..hi holds the gamma table stored 18 bytes after `lo` in
      the stream: red entry k at lo + 18 + 2k, green at lo + 530 + 2k, blue at lo + 1042 + 2k. */
  lemma GammaTableInWindow(stream: Bytes, lo: nat, hi: nat)
    requires lo + 1554 <= hi <= |stream|
    ensures GammaTableAt(stream[lo..hi], 18) == GammaTableAt(stream, lo + 18)
  {
    UInt16sInWindow(stream, lo, hi, 18, 256);
    UInt16sInWindow(stream, lo, hi, 530, 256);
    UInt16sInWindow(stream, lo, hi, 1042, 256);
  }

  lemma UInt16sInWindow(stream: Bytes, lo: nat, hi: nat, at: nat, count: nat)
    requires lo <= hi <= |stream| && at + 2 * count <= hi - lo
    ensures UInt16sAt(stream[lo..hi], at, count) == UInt16sAt(stream, lo + at, count)
  {
    forall k | 0 <= k < count
      ensures UInt16sAt(stream[lo..hi], at, count)[k] == UInt16sAt(stream, lo + at, count)[k]
    {
      BeAtInWindow(stream, lo, hi, at + 2 * k, lo + at + 2 * k, 2);
    }
  }

  /** A tag's data is decided by the bytes of its own window and nothing else. */
  lemma PayloadOnlyWindow(a: Bytes, b: Bytes, t: IccProfileTag)
    requires t.offset + t.size <= |a| && t.offset + t.size <= |b|
    requires a[t.offset .. t.offset + t.size] == b[t.offset .. t.offset + t.size]
    ensures TagPayloadData(a, t) == TagPayloadData(b, t)
  {
    var window := a[t.offset .. t.offset + t.size];
    assert PayloadData(a, t.offset, t.size) == ReadTagData(window);
    assert PayloadData(b, t.offset, t.size) == ReadTagData(window);
  }

  /** Tag `i` is the first of `tags` whose data does not decode, and fails with `e`. */
  predicate FirstFailure(stream: Bytes, tags: seq<IccProfileTag>, i: nat, e: DecodeError) {
    i < |tags| && TagPayloadData(stream, tags[i]) == Err(e) &&
    forall j :: 0 <= j < i ==> TagPayloadData(stream, tags[j]).Ok?
  }

  /** ParseAsync's payload loop over the sorted tags: each tag gets the data of its own
      window, and the first failing tag aborts the whole parse with its error. */
  function ReadPayloads(stream: Bytes, tags: seq<IccProfileTag>): (res: Result<seq<IccProfileTag>, DecodeError>)
    ensures res.Ok? <==> forall i :: 0 <= i < |tags| ==> TagPayloadData(stream, tags[i]).Ok?
    ensures res.Ok? ==> |res.value| == |tags|
    ensures res.Ok? ==> forall i :: 0 <= i < |tags| ==>
      res.value[i] == tags[i].(data := TagPayloadData(stream, tags[i]).value)
    ensures res.Err? ==> exists i: nat :: FirstFailure(stream, tags, i, res.error)
    decreases |tags|
  {
    if |tags| == 0 then Ok([])
    else
      var head := TagPayloadData(stream, tags[0]);
      if head.Err? then
        assert FirstFailure(stream, tags, 0, head.error);
        Err(head.error)
      else
        var others := ReadPayloads(stream, tags[1..]);
        if others.Err? then
          FirstFailureLater(stream, tags, others.error);
          Err(others.error)
        else
          Ok([tags[0].(data := head.value)] + others.value)
  }

  /** A first failure among the later tags stays the first failure once a decodable tag
      is put in front of them. */
  lemma FirstFailureLater(stream: Bytes, tags: seq<IccProfileTag>, e: DecodeError)
    requires |tags| > 0 && TagPayloadData(stream, tags[0]).Ok?
    requires exists i: nat :: FirstFailure(stream, tags[1..], i, e)
    ensures exists i: nat :: FirstFailure(stream, tags, i, e)
  {
    var i: nat :| FirstFailure(stream, tags[1..], i, e);
    assert FirstFailure(stream, tags, i + 1, e) by {
      forall j | 0 <= j < i + 1
        ensures TagPayloadData(stream, tags[j]).Ok?
      {
        if j > 0 { assert tags[j] == tags[1..][j - 1]; }
      }
    }
  }

  // ---------------------------------------------------------------- whole profile

  /** `12 * tags.Length`, computed in a C# `int`: the product wraps modulo 2^32 into the
      signed range. Below 178956971 tags it is exact. */
  function DirectoryBytesAsInt(count: nat): (w: int)
    ensures -0x8000_0000 <= w < 0x8000_0000 && w <= 12 * count
    ensures 12 * count < 0x8000_0000 ==> w == 12 * count
  {
    var p := (12 * count) % 0x1_0000_0000;
    if p < 0x8000_0000 then p else p - 0x1_0000_0000
  }

  /** ParseAsync over the whole stream: ReadAtLeastAsync(132), header and tag count,
      ReadAtLeastAsync(12 * count) behind the first 132 bytes with the product wrapped as an
      `int`, the directory, the sort by offset, then the payload of every tag in sorted
      order. Every ReadAtLeastAsync that runs out of stream fails with the same "too short"
      error; a wrapped product that lets the wait pass leaves ReadOffsets short of input. */
  function ParseProfile(stream: Bytes): (res: Result<IccProfile, DecodeError>)
    ensures |stream| < TagTableStart ==> res == Err(TooShortForProfile)
    ensures TagTableStart <= |stream| && |stream| - TagTableStart < DirectoryBytesAsInt(DeclaredCount(stream)) ==>
      res == Err(TooShortForProfile)
    ensures (TagTableStart <= |stream| && DirectoryBytesAsInt(DeclaredCount(stream)) <= |stream| - TagTableStart &&
             !DirectoryFits(stream)) ==> res == Err(NotEnoughInput)
  {
    if |stream| < TagTableStart then Err(TooShortForProfile)
    else
      var header := HeaderAt(stream);
      var count := DeclaredCount(stream);
      if |stream| - TagTableStart < DirectoryBytesAsInt(count) then Err(TooShortForProfile)
      else
        var entries :- ReadOffsets(stream, TagTableStart, count);
        var tags :- ReadPayloads(stream, SortByOffset(entries.value));
        Ok(IccProfile(header, tags))
  }

  /** While 12 times the declared count fits an `int`, a directory that does not fit the
      stream fails "too short". */
  lemma ShortDirectoryIsTooShort(stream: Bytes)
    requires TagTableStart <= |stream| && DeclaredCount(stream) < 178956971 && !DirectoryFits(stream)
    ensures ParseProfile(stream) == Err(TooShortForProfile)
  {
  }

  /** A count of 0x10000000 tags makes the `int` product 12 * count negative, so the wait for
      the directory passes at once and ReadOffsets runs out of input instead. */
  lemma WrappedDirectoryRunsShort(stream: Bytes)
    requires TagTableStart <= |stream| < TagTableStart + 12 * 0x1000_0000
    requires DeclaredCount(stream) == 0x1000_0000
    ensures DirectoryBytesAsInt(DeclaredCount(stream)) == -0x4000_0000
    ensures ParseProfile(stream) == Err(NotEnoughInput)
  {
  }

  /** Behind the 132 bytes the first ReadAtLeastAsync waits for, ReadHeader and
      ReadTagCount cannot fail, and they yield the header and the count ParseProfile
      takes directly. */
  lemma PreambleReads(stream: Bytes)
    requires TagTableStart <= |stream|
    ensures ReadHeader(stream) == Ok(Read(HeaderAt(stream), 100))
    ensures ReadTagCount(stream) == Ok(DeclaredCount(stream) as uint32)
  {
  }

  /** The tag count a stream of at least 132 bytes declares. */
  function DeclaredCount(stream: Bytes): nat
    requires TagTableStart <= |stream|
  {
    BeAt(stream, TagCountOffset, 4)
  }

  /** The stream holds the header, the count and the whole directory it declares. */
  predicate DirectoryFits(stream: Bytes) {
    TagTableStart <= |stream| && TagTableStart + TagEntrySize * DeclaredCount(stream) <= |stream|
  }

  /** The directory a stream declares, in directory order. */
  function Directory(stream: Bytes): seq<IccProfileTag>
    requires DirectoryFits(stream)
  {
    EntriesFrom(stream, TagTableStart, DeclaredCount(stream))
  }

  /** The tags with their decoded data dropped again. */
  function WithoutData(tags: seq<IccProfileTag>): (r: seq<IccProfileTag>)
    ensures |r| == |tags|
    ensures forall i :: 0 <= i < |tags| ==> r[i] == tags[i].(data := None)
  {
    seq(|tags|, i requires 0 <= i < |tags| => tags[i].(data := None))
  }

  /** A successful parse keeps the header of bytes 0 to 99. */
  lemma ParseHeader(stream: Bytes)
    ensures ParseProfile(stream).Ok? ==> ParseProfile(stream).value.header == HeaderAt(stream)
  {
  }

  /** A successful parse has read the whole directory and decoded it in sorted order. */
  lemma ParseTags(stream: Bytes)
    ensures ParseProfile(stream).Ok? ==>
      DirectoryFits(stream) &&
      ReadPayloads(stream, SortByOffset(Directory(stream))) == Ok(ParseProfile(stream).value.tags)
  {
  }

  /** Decoded payloads keep the order, signature, offset and size of the tags they belong to. */
  lemma PayloadsKeepTags(stream: Bytes, sorted: seq<IccProfileTag>, tags: seq<IccProfileTag>)
    requires ReadPayloads(stream, sorted) == Ok(tags)
    requires SortedByOffset(sorted) && forall t :: t in sorted ==> t.data == None
    ensures WithoutData(tags) == sorted
    ensures SortedByOffset(tags)
    ensures forall t :: t in tags ==> TagPayloadData(stream, t) == Ok(t.data)
  {
    forall i, j | 0 <= i < j < |tags|
      ensures tags[i].offset <= tags[j].offset
    {
      assert tags[i].offset == sorted[i].offset && tags[j].offset == sorted[j].offset;
    }
    forall t | t in tags
      ensures TagPayloadData(stream, t) == Ok(t.data)
    {
      var i :| 0 <= i < |tags| && tags[i] == t;
      PayloadIgnoresData(stream, sorted[i], t.data);
    }
  }

  /** The payload read looks at a tag's offset and size only. */
  lemma PayloadIgnoresData(stream: Bytes, t: IccProfileTag, d: Option<VideoCardGammaTable>)
    ensures TagPayloadData(stream, t.(data := d)) == TagPayloadData(stream, t)
  {
  }

  /** Directory entries carry no data before their payloads are read. */
  lemma DirectoryHasNoData(stream: Bytes)
    requires DirectoryFits(stream)
    ensures forall t :: t in SortByOffset(Directory(stream)) ==> t.data == None
  {
    var d := Directory(stream);
    var sorted := SortByOffset(d);
    EntriesHaveNoData(stream, TagTableStart, DeclaredCount(stream));
    forall t | t in sorted
      ensures t.data == None
    {
      assert t in multiset(sorted);
      assert t in d;
    }
  }

  lemma EntriesHaveNoData(s: Bytes, pos: nat, n: nat)
    requires pos + 12 * n <= |s|
    ensures forall t :: t in EntriesFrom(s, pos, n) ==> t.data == None
  {
    var entries := EntriesFrom(s, pos, n);
    forall t | t in entries
      ensures t.data == None
    {
      var i :| 0 <= i < |entries| && entries[i] == t;
      assert entries[i] == EntryAt(s, pos + 12 * i);
    }
  }

  /** What a successful parse returns: the header of bytes 0 to 99, and the declared
      directory reordered by offset, each tag carrying the data of its own window. */
  lemma ParseProfileOk(stream: Bytes)
    ensures ParseProfile(stream).Ok? ==> DirectoryFits(stream)
    ensures ParseProfile(stream).Ok? ==> ParseProfile(stream).value.header == HeaderAt(stream)
    ensures ParseProfile(stream).Ok? ==> SortedByOffset(ParseProfile(stream).value.tags)
    ensures ParseProfile(stream).Ok? ==>
      DirectoryFits(stream) &&
      multiset(WithoutData(ParseProfile(stream).value.tags)) == multiset(Directory(stream))
    ensures ParseProfile(stream).Ok? ==>
      forall t :: t in ParseProfile(stream).value.tags ==> TagPayloadData(stream, t) == Ok(t.data)
  {
    if ParseProfile(stream).Ok? {
      ParseHeader(stream);
      ParseTags(stream);
      DirectoryHasNoData(stream);
      PayloadsKeepTags(stream, SortByOffset(Directory(stream)), ParseProfile(stream).value.tags);
    }
  }

  /** Once the directory fits, the parse stands or falls with the payloads in sorted order. */
  lemma ParseIsPayloads(stream: Bytes)
    requires DirectoryFits(stream)
    ensures ParseProfile(stream).Ok? <==> ReadPayloads(stream, SortByOffset(Directory(stream))).Ok?
    ensures ParseProfile(stream).Err? ==>
      ReadPayloads(stream, SortByOffset(Directory(stream))) == Err(ParseProfile(stream).error)
  {
  }

  /** The parse succeeds exactly when the directory fits and every declared tag's payload
      decodes; the order the tags are visited in does not matter for that. */
  lemma ParseProfileSucceeds(stream: Bytes)
    ensures ParseProfile(stream).Ok? <==>
      DirectoryFits(stream) && forall t :: t in Directory(stream) ==> TagPayloadData(stream, t).Ok?
  {
    if DirectoryFits(stream) {
      ParseIsPayloads(stream);
      AllDecodeReordered(stream, Directory(stream), SortByOffset(Directory(stream)));
    }
  }

  /** Whether every tag decodes does not depend on the order of the tags. */
  lemma AllDecodeReordered(stream: Bytes, d: seq<IccProfileTag>, sorted: seq<IccProfileTag>)
    requires multiset(sorted) == multiset(d)
    ensures (forall i :: 0 <= i < |sorted| ==> TagPayloadData(stream, sorted[i]).Ok?) <==>
      (forall t :: t in d ==> TagPayloadData(stream, t).Ok?)
  {
    forall t
      ensures t in sorted <==> t in d
    {
      assert t in sorted <==> t in multiset(sorted);
      assert t in d <==> t in multiset(d);
    }
  }

  /** When the payload phase fails, the error is that of the first tag in offset order
      whose payload does not decode. */
  lemma ParsePayloadError(stream: Bytes)
    requires DirectoryFits(stream)
    ensures ParseProfile(stream).Err? ==>
      exists i: nat :: FirstFailure(stream, SortByOffset(Directory(stream)), i, ParseProfile(stream).error)
  {
    ParseIsPayloads(stream);
  }

  /** A profile that declares no tags parses to its header and an empty tag list. */
  lemma ParseNoTags(stream: Bytes)
    requires TagTableStart <= |stream| && DeclaredCount(stream) == 0
    ensures ParseProfile(stream) == Ok(IccProfile(HeaderAt(stream), []))
  {
  }

  /** The header is read from bytes 0 to 99 alone; bytes 100 to 127 are skipped. */
  lemma HeaderOnlyPrefix(a: Bytes, b: Bytes)
    requires 100 <= |a| && 100 <= |b| && a[..100] == b[..100]
    ensures HeaderAt(a) == HeaderAt(b)
  {
    forall pos: nat | pos + 2 <= 100
      ensures U16At(a, pos) == U16At(b, pos)
    {
      PrefixBytesAgree(a, b, 100, pos, 2);
    }
    forall pos: nat | pos + 4 <= 100
      ensures U32At(a, pos) == U32At(b, pos)
    {
      PrefixBytesAgree(a, b, 100, pos, 4);
    }
    forall pos: nat | pos + 8 <= 100
      ensures U64At(a, pos) == U64At(b, pos)
    {
      PrefixBytesAgree(a, b, 100, pos, 8);
    }
  }

  /** Two streams with the same first `len` bytes read the same value inside them. */
  lemma PrefixBytesAgree(a: Bytes, b: Bytes, len: nat, pos: nat, n: nat)
    requires len <= |a| && len <= |b| && a[..len] == b[..len] && pos + n <= len
    ensures BeAt(a, pos, n) == BeAt(b, pos, n)
  {
    assert a[pos..pos + n] == a[..len][pos..pos + n];
    assert b[pos..pos + n] == b[..len][pos..pos + n];
    BeAtSame(a, pos, b, pos, n);
  }
}
