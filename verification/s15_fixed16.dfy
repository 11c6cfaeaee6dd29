/** The value of an s15Fixed16Number (clause 4.6 of ICC.1:2010): a signed 32-bit quantity
    counted in units of 1/65536, stored as a signed whole part followed by an unsigned
    fraction. The header keeps each illuminant component as these raw halves; this module
    gives them their value, in exact real arithmetic rather than single precision. */
module S15Fixed16 {
  import opened BigEndian
  import opened IccModels

  /** Reads15Fixed16 as written: the fraction is divided by (1 << 16) - 1 = 65535. */
  function Fixed16AsWritten(raw: Fixed16Raw): (r: real)
    ensures raw.whole as real <= r <= raw.whole as real + 1.0
  {
    raw.whole as real + raw.fraction as real / 65535.0
  }

  /** Dividing by 65535 misreads one half as slightly more than a half, and reads the
      largest fraction under one whole as the next whole: two encodings, one value. */
  lemma Fixed16AsWrittenMisreads()
    ensures Fixed16AsWritten(Fixed16Raw(0, 0x8000)) != 0.5
    ensures Fixed16AsWritten(Fixed16Raw(0, 0xFFFF)) == Fixed16AsWritten(Fixed16Raw(1, 0)) == 1.0
  {
  }

  /** The value the number stands for: the fraction in units of 1/65536. */
  function Fixed16Value(raw: Fixed16Raw): (r: real)
    ensures raw.whole as real <= r < raw.whole as real + 1.0
  {
    raw.whole as real + raw.fraction as real / 65536.0
  }

  /** Every 32-bit count of 1/65536 units, split into its halves. */
  function Fixed16Of(units: int): (raw: Fixed16Raw)
    requires -0x8000_0000 <= units < 0x8000_0000
  {
    Fixed16Raw(units / 0x1_0000, units % 0x1_0000)
  }

  /** Splitting any representable value into halves and reading it back gives it again. */
  lemma Fixed16RoundTrip(units: int)
    requires -0x8000_0000 <= units < 0x8000_0000
    ensures Fixed16Value(Fixed16Of(units)) == units as real / 65536.0
  {
    var whole := units / 0x1_0000;
    var fraction := units % 0x1_0000;
    assert units == whole * 0x1_0000 + fraction;
    assert units as real == whole as real * 65536.0 + fraction as real;
  }

  /** Different halves never read as the same value. */
  lemma Fixed16Injective(a: Fixed16Raw, b: Fixed16Raw)
    requires Fixed16Value(a) == Fixed16Value(b)
    ensures a == b
  {
    if a.whole == b.whole {
      assert a.fraction as real / 65536.0 == b.fraction as real / 65536.0;
    }
  }

  /** The CIE illuminant of the header, X, Y and Z. */
  function Illuminant(h: IccHeader): (xyz: (real, real, real))
    ensures h.illuminantX.whole as real <= xyz.0 < h.illuminantX.whole as real + 1.0
    ensures h.illuminantY.whole as real <= xyz.1 < h.illuminantY.whole as real + 1.0
    ensures h.illuminantZ.whole as real <= xyz.2 < h.illuminantZ.whole as real + 1.0
  {
    (Fixed16Value(h.illuminantX), Fixed16Value(h.illuminantY), Fixed16Value(h.illuminantZ))
  }

  /** The D50 illuminant every profile carries by clause 7.2.16 of ICC.1:2010, stored as
      0x0000F6D6, 0x00010000, 0x0000D32D, reads as its exact unit counts. */
  lemma D50Illuminant(h: IccHeader)
    requires h.illuminantX == Fixed16Raw(0, 0xF6D6) && h.illuminantY == Fixed16Raw(1, 0)
    requires h.illuminantZ == Fixed16Raw(0, 0xD32D)
    ensures Illuminant(h) == (63190.0 / 65536.0, 1.0, 54061.0 / 65536.0)
  {
  }
}
