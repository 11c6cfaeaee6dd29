/** The big-endian primitive readers of the profile decoder: the extension
    methods on a SequenceReader<byte> that read unsigned and signed integers
    and the six-field ICC date. A reader is a byte window plus the index of the
    next unread byte; every read either advances it by exactly the bytes it
    consumed or fails. */
module BigEndian {
  import opened Results

  type uint8 = x: int | 0 <= x < 0x100
  type uint16 = x: int | 0 <= x < 0x1_0000
  type int16 = x: int | -0x8000 <= x < 0x8000
  type uint32 = x: int | 0 <= x < 0x1_0000_0000
  type uint64 = x: int | 0 <= x < 0x1_0000_0000_0000_0000

  type Bytes = seq<uint8>

  /** The ways a decode ends early; each stands for the exception the source throws. */
  datatype DecodeError =
    | NotEnoughInput      // InvalidDataException("Not enough input") from ReadBigEndianUint
    | AdvanceOutOfRange   // ArgumentOutOfRangeException from SequenceReader.Advance
    | SliceOutOfRange     // ArgumentOutOfRangeException from ReadOnlySequence.Slice
    | TooShortForProfile  // InvalidDataException("Too short for an ICC profile.")

  /** A SequenceReader<byte> is modelled by the window `data` it reads, which never changes,
      and the index `pos` of the next unread byte, which every read moves forward. */

  /** A successful read: the value and the index of the first byte after it. */
  datatype Read<+T> = Read(value: T, next: nat)

  function Pow256(n: nat): (p: nat)
    ensures p > 0
  {
    if n == 0 then 1 else 256 * Pow256(n - 1)
  }

  /** Reference meaning of the `n` bytes at `start` read big-endian, by position rather than
      by reading: the sum of data[start + i] * 256^(n-1-i) for i below n, in Horner form. */
  function BeAt(data: Bytes, start: nat, n: nat): (v: nat)
    requires start + n <= |data|
    ensures v < Pow256(n)
    decreases n
  {
    if n == 0 then 0 else BeAt(data, start, n - 1) * 256 + data[start + n - 1]
  }

  lemma Pow256Widths()
    ensures Pow256(1) == 0x100 && Pow256(2) == 0x1_0000 && Pow256(4) == 0x1_0000_0000
    ensures Pow256(8) == 0x1_0000_0000_0000_0000
  {
  }

  /** BeAt at the widths of the unsigned types it fills. */
  function U16At(data: Bytes, pos: nat): uint16
    requires pos + 2 <= |data|
  {
    Pow256Widths();
    BeAt(data, pos, 2)
  }

  function U32At(data: Bytes, pos: nat): uint32
    requires pos + 4 <= |data|
  {
    Pow256Widths();
    BeAt(data, pos, 4)
  }

  function U64At(data: Bytes, pos: nat): uint64
    requires pos + 8 <= |data|
  {
    Pow256Widths();
    BeAt(data, pos, 8)
  }

  /** The value of a whole byte string. */
  function BeValue(s: Bytes): nat {
    BeAt(s, 0, |s|)
  }

  /** The value depends only on the bytes of the window, not on where the window sits. */
  lemma {:induction false} BeAtSame(a: Bytes, i: nat, b: Bytes, j: nat, n: nat)
    requires i + n <= |a| && j + n <= |b| && a[i..i + n] == b[j..j + n]
    ensures BeAt(a, i, n) == BeAt(b, j, n)
    decreases n
  {
    if n > 0 {
      var window := a[i..i + n];
      assert a[i + n - 1] == window[n - 1];
      assert b[j + n - 1] == b[j..j + n][n - 1];
      assert a[i..i + n - 1] == window[..n - 1];
      assert b[j..j + n - 1] == b[j..j + n][..n - 1];
      BeAtSame(a, i, b, j, n - 1);
    }
  }

  lemma {:induction false} Pow256Monotone(a: nat, b: nat)
    requires a <= b
    ensures Pow256(a) <= Pow256(b)
    decreases b
  {
    if a < b {
      Pow256Monotone(a, b - 1);
    }
  }

  /** Seven bytes or fewer leave the top byte of a ulong clear. */
  lemma BeAtBelowSevenBytes(data: Bytes, start: nat, m: nat)
    requires start + m <= |data| && m <= 7
    ensures BeAt(data, start, m) < 0x100_0000_0000_0000
  {
    Pow256Monotone(m, 7);
    assert Pow256(7) == 0x100_0000_0000_0000;
  }

  /** `value <<= 8` on a ulong: the top byte falls off and the low byte is zero. */
  function ShiftLeftByte(value: uint64): (r: uint64)
    ensures r <= 0x1_0000_0000_0000_0000 - 0x100
    ensures value < 0x100_0000_0000_0000 ==> r == value * 256
  {
    (value % 0x100_0000_0000_0000) * 256
  }

  /** Outcome of TryReadBigEndian: the bool it returns, its out value and the reader's position afterwards. */
  datatype TryRead = TryRead(ok: bool, value: uint64, next: nat)

  /** The loop of TryReadBigEndian with `remaining` iterations left: shift, then OR in
      the next byte (an addition, since the shift leaves the low byte zero). */
  function ReadLoop(value: uint64, data: Bytes, pos: nat, remaining: nat): (t: TryRead)
    requires pos <= |data|
    decreases remaining
  {
    if remaining == 0 then TryRead(true, value, pos)
    else
      var shifted := ShiftLeftByte(value);
      if pos == |data| then TryRead(false, shifted, pos)
      else ReadLoop(shifted + data[pos], data, pos + 1, remaining - 1)
  }

  /** The loop succeeds exactly when enough bytes remain; it then consumes exactly
      `remaining` bytes, and otherwise it has consumed everything. */
  lemma {:induction false} ReadLoopShape(value: uint64, data: Bytes, pos: nat, remaining: nat)
    requires pos <= |data|
    ensures ReadLoop(value, data, pos, remaining).ok <==> pos + remaining <= |data|
    ensures ReadLoop(value, data, pos, remaining).ok ==> ReadLoop(value, data, pos, remaining).next == pos + remaining
    ensures !ReadLoop(value, data, pos, remaining).ok ==> ReadLoop(value, data, pos, remaining).next == |data|
    decreases remaining
  {
    if remaining > 0 && pos < |data| {
      ReadLoopShape(ShiftLeftByte(value) + data[pos], data, pos + 1, remaining - 1);
    }
  }

  /** With at most eight bytes nothing is shifted out: a loop that has accumulated the
      first `m` bytes from `start` goes on to the reference value of all `m + k` of them. */
  lemma {:induction false} ReadLoopExact(value: uint64, data: Bytes, start: nat, m: nat, k: nat)
    requires start + m + k <= |data| && m + k <= 8
    requires value == BeAt(data, start, m)
    ensures ReadLoop(value, data, start + m, k).value == BeAt(data, start, m + k)
    decreases k
  {
    if k > 0 {
      BeAtBelowSevenBytes(data, start, m);
      ReadLoopStep(value, data, start + m, k);
      ReadLoopExact(value * 256 + data[start + m], data, start, m + 1, k - 1);
    }
  }

  /** One iteration on a value whose top byte is clear shifts nothing out. */
  lemma ReadLoopStep(value: uint64, data: Bytes, pos: nat, k: nat)
    requires pos < |data| && k > 0 && value < 0x100_0000_0000_0000
    ensures value * 256 + data[pos] < 0x1_0000_0000_0000_0000
    ensures ReadLoop(value, data, pos, k) == ReadLoop(value * 256 + data[pos], data, pos + 1, k - 1)
  {
  }

  /** Reads `byteCount` bytes big-endian into a ulong; false when the window runs out first. */
  function TryReadBigEndian(data: Bytes, pos: nat, byteCount: int): (t: TryRead)
    requires pos <= |data|
    ensures t.next <= |data|
    ensures t.ok <==> pos + byteCount <= |data|
    ensures t.ok ==> t.next == pos + (if byteCount < 0 then 0 else byteCount)
    ensures !t.ok ==> t.next == |data|
    ensures t.ok && 0 <= byteCount <= 8 ==> t.value == BeAt(data, pos, byteCount)
  {
    var n := if byteCount < 0 then 0 else byteCount;
    ReadLoopShape(0, data, pos, n);
    ReadLoopFromZero(data, pos, n);
    ReadLoop(0, data, pos, n)
  }

  lemma ReadLoopFromZero(data: Bytes, pos: nat, n: nat)
    requires pos <= |data|
    ensures pos + n <= |data| && n <= 8 ==> ReadLoop(0, data, pos, n).value == BeAt(data, pos, n)
  {
    if pos + n <= |data| && n <= 8 {
      ReadLoopExact(0, data, pos, 0, n);
    }
  }

  /** TryReadBigEndian that throws instead of returning false. */
  function ReadBigEndianUint(data: Bytes, pos: nat, bytes: int): (res: Result<Read<uint64>, DecodeError>)
    requires pos <= |data|
    ensures res.Err? <==> !TryReadBigEndian(data, pos, bytes).ok
    ensures res.Err? ==> res.error == NotEnoughInput
    ensures res.Ok? ==> res.value.value == TryReadBigEndian(data, pos, bytes).value
    ensures res.Ok? ==> res.value.next == TryReadBigEndian(data, pos, bytes).next
  {
    var t := TryReadBigEndian(data, pos, bytes);
    if !t.ok then Err(NotEnoughInput) else Ok(Read(t.value, t.next))
  }

  function ReadBigEndianUInt8(data: Bytes, pos: nat): (res: Result<Read<uint8>, DecodeError>)
    requires pos <= |data|
    ensures res.Ok? <==> pos + 1 <= |data|
    ensures res.Err? ==> res.error == NotEnoughInput
    ensures res.Ok? ==> res.value == Read(data[pos], pos + 1)
  {
    var u :- ReadBigEndianUint(data, pos, 1);
    assert data[pos..pos + 1] == [data[pos]];
    Ok(Read(u.value % 0x100, u.next))
  }

  function ReadBigEndianUInt16(data: Bytes, pos: nat): (res: Result<Read<uint16>, DecodeError>)
    requires pos <= |data|
    ensures res.Ok? <==> pos + 2 <= |data|
    ensures res.Err? ==> res.error == NotEnoughInput
    ensures res.Ok? ==> res.value == Read(BeAt(data, pos, 2), pos + 2)
  {
    var u :- ReadBigEndianUint(data, pos, 2);
    Ok(Read(u.value % 0x1_0000, u.next))
  }

  /** (short) of the two-byte value: raw values from 32768 up wrap to raw - 65536. */
  function ReadBigEndianInt16(data: Bytes, pos: nat): (res: Result<Read<int16>, DecodeError>)
    requires pos <= |data|
    ensures res.Ok? <==> pos + 2 <= |data|
    ensures res.Err? ==> res.error == NotEnoughInput
    ensures res.Ok? ==> res.value.next == pos + 2
    ensures res.Ok? ==> var raw := BeAt(data, pos, 2);
                        res.value.value == if raw >= 0x8000 then raw - 0x1_0000 else raw
  {
    var u :- ReadBigEndianUint(data, pos, 2);
    var low := u.value % 0x1_0000;
    Ok(Read(if low >= 0x8000 then low - 0x1_0000 else low, u.next))
  }

  function ReadBigEndianUInt32(data: Bytes, pos: nat): (res: Result<Read<uint32>, DecodeError>)
    requires pos <= |data|
    ensures res.Ok? <==> pos + 4 <= |data|
    ensures res.Err? ==> res.error == NotEnoughInput
    ensures res.Ok? ==> res.value == Read(BeAt(data, pos, 4), pos + 4)
  {
    var u :- ReadBigEndianUint(data, pos, 4);
    Ok(Read(u.value % 0x1_0000_0000, u.next))
  }

  /** The eight-byte read: the full 64 bits arrive without loss. */
  function ReadBigEndianUInt64(data: Bytes, pos: nat): (res: Result<Read<uint64>, DecodeError>)
    requires pos <= |data|
    ensures res.Ok? <==> pos + 8 <= |data|
    ensures res.Err? ==> res.error == NotEnoughInput
    ensures res.Ok? ==> res.value == Read(BeAt(data, pos, 8), pos + 8)
  {
    ReadBigEndianUint(data, pos, 8)
  }

  /** The ICC dateTimeNumber: six UInt16 fields, most significant unit first. The
      DateTime built from them in the source is kept as the raw fields. */
  datatype DateTimeFields = DateTimeFields(
    year: uint16, month: uint16, day: uint16, hour: uint16, minute: uint16, second: uint16)

  function ReadDateTimeNumber(data: Bytes, pos: nat): (res: Result<Read<DateTimeFields>, DecodeError>)
    requires pos <= |data|
    ensures res.Ok? <==> pos + 12 <= |data|
    ensures res.Err? ==> res.error == NotEnoughInput
    ensures res.Ok? ==> res.value.next == pos + 12
    ensures res.Ok? ==> res.value.value == DateTimeFields(
      BeAt(data, pos, 2), BeAt(data, pos + 2, 2), BeAt(data, pos + 4, 2),
      BeAt(data, pos + 6, 2), BeAt(data, pos + 8, 2), BeAt(data, pos + 10, 2))
  {
    var year :- ReadBigEndianUInt16(data, pos);
    var month :- ReadBigEndianUInt16(data, year.next);
    var day :- ReadBigEndianUInt16(data, month.next);
    var hour :- ReadBigEndianUInt16(data, day.next);
    var minute :- ReadBigEndianUInt16(data, hour.next);
    var second :- ReadBigEndianUInt16(data, minute.next);
    Ok(Read(DateTimeFields(year.value, month.value, day.value, hour.value, minute.value, second.value),
            second.next))
  }

  /** The `n`-byte big-endian encoding of `v`, most significant byte first. */
  function EncodeBigEndian(v: nat, n: nat): (s: Bytes)
    requires v < Pow256(n)
    ensures |s| == n
    ensures BeValue(s) == v
  {
    if n == 0 then []
    else
      var prefix := EncodeBigEndian(v / 256, n - 1);
      var s := prefix + [v % 256];
      assert s[0..n - 1] == prefix[0..n - 1];
      BeAtSame(s, 0, prefix, 0, n - 1);
      s
  }

  /** Reading back the encoding of any value that fits returns it and consumes exactly its bytes. */
  lemma EncodeRoundTrip(v: nat, n: nat, rest: Bytes)
    requires n <= 8 && v < Pow256(n)
    ensures ReadBigEndianUint(EncodeBigEndian(v, n) + rest, 0, n) == Ok(Read(v, n))
  {
    var e := EncodeBigEndian(v, n);
    var data := e + rest;
    assert data[0..n] == e[0..n];
    BeAtSame(data, 0, e, 0, n);
  }
}
