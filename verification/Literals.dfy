/** The codec's laws in the format's own numbers: header bytes, digits, limits. */
module Literals {
  import opened Bytes
  import opened Values
  import opened Format
  import opened Encoding
  import opened Machine
  import opened RoundTrip

  /** `n` arrays of one item around a nil. */
  function Nest(n: nat): Value
  {
    if n == 0 then Nil else Array([Nest(n - 1)])
  }

  lemma {:induction false} NestEncoded(n: nat)
    ensures Typed(Nest(n)) && SizesFit(Nest(n)) && Depth(Nest(n)) == n
    ensures Encode(Nest(n)) == seq(n, _ => 0x91) + [0xc0]
  {
    if n > 0 {
      var inner := Nest(n - 1);
      NestStep(n);
      hide Depth, Encode, Typed, SizesFit, Nest;
      NestEncoded(n - 1);
      OneItem(inner);
      assert [0x91] + (seq(n - 1, _ => 0x91) + [0xc0]) == seq(n, _ => 0x91) + [0xc0];
    }
  }

  lemma NestStep(n: nat)
    requires n > 0
    ensures Nest(n) == Array([Nest(n - 1)])
  {
  }

  lemma OneItem(v: Value)
    requires Typed(v) && SizesFit(v)
    ensures Typed(Array([v])) && SizesFit(Array([v])) && Depth(Array([v])) == Depth(v) + 1
    ensures Encode(Array([v])) == [0x91] + Encode(v)
    ensures forall room: nat :: room < Depth(v) ==> DeepAt(Array([v]), room + 1) == 1 + DeepAt(v, room)
  {
    assert [v][1..] == [];
    assert ItemsDepth([v]) == Max(Depth(v), ItemsDepth([]));
    assert EncodeItems([v]) == Encode(v) + EncodeItems([]);
  }

  lemma {:induction false} NestDeepAt(n: nat, room: nat)
    requires n > room
    ensures Typed(Nest(n)) && Depth(Nest(n)) == n && DeepAt(Nest(n), room) == room
  {
    NestEncoded(n);
    NestEncoded(n - 1);
    NestStep(n);
    if room > 0 {
      NestDeepAt(n - 1, room - 1);
      OneItem(Nest(n - 1));
    }
  }

  /** The depth limit in bytes: 0x91 up to 32 times and then nil is a value, the 33rd 0x91 is refused. */
  lemma NestedArrays(n: nat, suffix: seq<byte>)
    ensures var r := Run(seq(n, _ => 0x91) + [0xc0] + suffix, FRESH, 0);
            if n <= 32 then r.Finished? && Code(r) == 1 && r.v == Nest(n) && r.off == n + 1
            else Code(r) == -2 && r.off == 32
  {
    hide Run, Encode, Typed, SizesFit, Depth, DeepAt, Nest;
    NestEncoded(n);
    if n <= 32 {
      RoundTripExactly(Nest(n), suffix);
    } else {
      TooDeepExactly(Nest(n), suffix);
      NestDeepAt(n, 32);
    }
  }

  /** An integer of zero or more never takes a signed form, nor a negative one an unsigned form. */
  lemma IntSign(i: int)
    requires -TWO_63 <= i < TWO_64
    ensures var head := HeadOf(IntBytes(i)[0]);
            if -0x20 <= i < 0x80 then head == Scalar(Int(i)) && |IntBytes(i)| == 1
            else head == Number(if i < 0 then Signed else Unsigned, |IntBytes(i)| - 1)
  {
    hide HeadOf, IntBytes, FixedBytes, BigEndian, Pow256;
    var w := IntForm(i);
    if w == 0 {
      OneByteInt(i);
    } else {
      FixedLength(i < 0, w, i);
      FixedHead(i < 0, w, i);
    }
  }

  lemma Digits2(n: nat)
    requires n < TWO_16
    ensures BigEndian(n, 2) == [n / 0x100, n % 0x100]
  {
    OneDigit(n / 0x100);
  }

  lemma Digits4(n: nat)
    requires n < TWO_32
    ensures BigEndian(n, 4) == [n / 0x100_0000, n / 0x1_0000 % 0x100, n / 0x100 % 0x100, n % 0x100]
  {
    Digits2(n / 0x1_0000);
    assert BigEndian(n / 0x100, 3) == BigEndian(n / 0x1_0000, 2) + [n / 0x100 % 0x100];
    assert BigEndian(n, 4) == BigEndian(n / 0x100, 3) + [n % 0x100];
  }

  lemma Digits8(n: nat)
    requires n < TWO_64
    ensures BigEndian(n, 8) == BigEndian(n / TWO_32, 4) + BigEndian(n % TWO_32, 4)
  {
    hide BigEndian;
    Pow256Values();
    DigitsSplit(n, n / TWO_32, n % TWO_32, 4, 4);
  }

  /** The digits of a number in two parts. */
  lemma {:induction false} DigitsSplit(n: nat, q: nat, r: nat, w: nat, k: nat)
    requires r < Pow256(k) && n == q * Pow256(k) + r
    ensures BigEndian(n, w + k) == BigEndian(q, w) + BigEndian(r, k)
    decreases k
  {
    if k > 0 {
      Scaled(n, q, r, Pow256(k - 1));
      DigitsSplit(n / 0x100, q, r / 0x100, w, k - 1);
      hide Pow256;
      assert BigEndian(n, w + k) == BigEndian(n / 0x100, w + (k - 1)) + [n % 0x100];
    }
  }

  lemma Scaled(n: nat, q: nat, r: nat, m: int)
    requires m >= 1 && r < 0x100 * m && n == q * (0x100 * m) + r
    ensures n / 0x100 == q * m + r / 0x100 && n % 0x100 == r % 0x100 && r / 0x100 < m
  {
    assert q * (0x100 * m) == 0x100 * (q * m);
  }

  lemma Digits4Wrap(l: nat)
    ensures BigEndian(l, 4) == BigEndian(l % TWO_32, 4)
  {
    hide BigEndian;
    Pow256Values();
    DigitsTruncate(l, 4);
  }

  /** One integer on the far side of each limit, byte by byte. */
  lemma PositiveBytes()
    ensures IntBytes(0) == [0x00] && IntBytes(0x7f) == [0x7f] && IntBytes(0x80) == [0xcc, 0x80]
    ensures IntBytes(0x102) == [0xcd, 0x01, 0x02] && IntBytes(0x1_0203) == [0xce, 0x00, 0x01, 0x02, 0x03]
    ensures IntBytes(0x1_0203_0405) == [0xcf, 0x00, 0x00, 0x00, 0x01, 0x02, 0x03, 0x04, 0x05]
  {
    hide BigEndian, ToUnsigned;
    OneDigit(0x80);
    TwoDigits();
    FourDigits();
    EightDigits();
  }

  lemma TwoDigits()
    ensures BigEndian(0x102, 2) == [0x01, 0x02]
  {
    hide BigEndian;
    Digits2(0x102);
  }

  lemma FourDigits()
    ensures BigEndian(0x1_0203, 4) == [0x00, 0x01, 0x02, 0x03]
  {
    hide BigEndian;
    Digits4(0x1_0203);
  }

  lemma EightDigits()
    ensures BigEndian(0x1_0203_0405, 8) == [0x00, 0x00, 0x00, 0x01, 0x02, 0x03, 0x04, 0x05]
  {
    hide BigEndian;
    Digits8(0x1_0203_0405);
    Digits4(1);
    Digits4(0x0203_0405);
  }

  lemma NegativeBytes()
    ensures IntBytes(-1) == [0xff] && IntBytes(-0x20) == [0xe0] && IntBytes(-0x21) == [0xd0, 0xdf]
    ensures IntBytes(-0x81) == [0xd1, 0xff, 0x7f] && IntBytes(-0x8001) == [0xd2, 0xff, 0xff, 0x7f, 0xff]
    ensures IntBytes(-0x8000_0001) == [0xd3, 0xff, 0xff, 0xff, 0xff, 0x7f, 0xff, 0xff, 0xff]
  {
    Words();
    hide BigEndian, ToUnsigned;
    OneDigit(0xdf);
    Digits2(0xff7f);
    Digits4(0xffff_7fff);
    Digits8(0xffff_ffff_7fff_ffff);
    Digits4(0xffff_ffff);
    Digits4(0x7fff_ffff);
  }

  lemma Words()
    ensures ToUnsigned(-0x21, 1) == 0xdf && ToUnsigned(-0x81, 2) == 0xff7f && ToUnsigned(-0x8001, 4) == 0xffff_7fff
    ensures ToUnsigned(-0x8000_0001, 8) == 0xffff_ffff_7fff_ffff
  {
    Pow256Values();
    hide Pow256;
    SignedRoundTrip(-0x21, 1);
    SignedRoundTrip(-0x81, 2);
    SignedRoundTrip(-0x8001, 4);
    SignedRoundTrip(-0x8000_0001, 8);
  }

  /** One header of each kind and width. */
  lemma StrBytes()
    ensures StrHeader(3) == [0xa3] && StrHeader(0x20) == [0xd9, 0x20]
    ensures StrHeader(0x102) == [0xda, 0x01, 0x02] && StrHeader(0x1_0203) == [0xdb, 0x00, 0x01, 0x02, 0x03]
  {
    hide BigEndian;
    OneDigit(0x20);
    TwoDigits();
    FourDigits();
  }

  lemma BinBytes()
    ensures BinHeader(3) == [0xc4, 0x03]
    ensures BinHeader(0x102) == [0xc5, 0x01, 0x02] && BinHeader(0x1_0203) == [0xc6, 0x00, 0x01, 0x02, 0x03]
  {
    hide BigEndian;
    OneDigit(3);
    TwoDigits();
    FourDigits();
  }

  lemma BoxBytes()
    ensures ArrayHeader(3) == [0x93] && ArrayHeader(0x102) == [0xdc, 0x01, 0x02]
    ensures ArrayHeader(0x1_0203) == [0xdd, 0x00, 0x01, 0x02, 0x03]
    ensures MapHeader(3) == [0x83] && MapHeader(0x102) == [0xde, 0x01, 0x02]
    ensures MapHeader(0x1_0203) == [0xdf, 0x00, 0x01, 0x02, 0x03]
  {
    hide BigEndian;
    TwoDigits();
    FourDigits();
  }

  lemma ExtBytes(type_: byte)
    ensures ExtHeader(1, type_) == [0xd4, type_] && ExtHeader(2, type_) == [0xd5, type_]
    ensures ExtHeader(4, type_) == [0xd6, type_] && ExtHeader(8, type_) == [0xd7, type_]
    ensures ExtHeader(16, type_) == [0xd8, type_] && ExtHeader(3, type_) == [0xc7, 0x03, type_]
    ensures ExtHeader(0x102, type_) == [0xc8, 0x01, 0x02, type_]
    ensures ExtHeader(0x1_0203, type_) == [0xc9, 0x00, 0x01, 0x02, 0x03, type_]
  {
    hide BigEndian;
    OneDigit(3);
    TwoDigits();
    FourDigits();
  }

  lemma ScalarBytes()
    ensures Encode(Nil) == [0xc0] && Encode(Bool(false)) == [0xc2] && Encode(Bool(true)) == [0xc3]
    ensures Encode(Float32(0x0102_0304)) == [0xca, 1, 2, 3, 4]
    ensures Encode(Float64(0x0102_0304_0506_0708)) == [0xcb, 1, 2, 3, 4, 5, 6, 7, 8]
  {
    hide BigEndian;
    Digits4(0x0102_0304);
    Digits8(0x0102_0304_0506_0708);
    Digits4(0x0506_0708);
  }

  // The older raw header

  /**
   * The older raw header is one of the three older str headers: it agrees with the current one but
   * for the lengths from 32 to 255, and its first byte is never 0xd9.
   */
  lemma RawHeaderBytes(l: nat)
    ensures RawHeader(l)[0] == if l < 32 then 0xa0 + l else if l < 0x1_0000 then 0xda else 0xdb
    ensures RawHeader(l) == StrHeader(l) <==> l < 32 || l >= 0x100
    ensures |RawHeader(l)| == if l < 32 then 1 else if l < 0x1_0000 then 3 else 5
  {
    hide BigEndian;
  }

  // Lengths beyond 32 bits

  /** A header announces its count or length modulo 2^32, whatever the size. */
  lemma HeadersWrap(l: nat, type_: byte)
    ensures BlobForm(StrHeader(l), StrBlob, l % TWO_32) && BlobForm(RawHeader(l), StrBlob, l % TWO_32)
    ensures BlobForm(BinHeader(l), BinBlob, l % TWO_32)
    ensures BoxForm(ArrayHeader(l), false, l % TWO_32) && BoxForm(MapHeader(l), true, l % TWO_32)
    ensures BlobForm(ExtHeader(l, type_)[..|ExtHeader(l, type_)| - 1], ExtBlob, l % TWO_32)
  {
    hide BlobForm, BoxForm, StrHeader, RawHeader, BinHeader, ArrayHeader, MapHeader, ExtHeader;
    if l < TWO_32 {
      StrForm(l);
      RawForm(l);
      BinForm(l);
      ArrayForm(l);
      MapForm(l);
      ExtWraps(l, type_);
    } else {
      StrWraps(l);
      BinWraps(l);
      BoxWraps(l);
      ExtWraps(l, type_);
    }
  }

  lemma StrWraps(l: nat)
    requires l >= TWO_32
    ensures BlobForm(StrHeader(l), StrBlob, l % TWO_32) && BlobForm(RawHeader(l), StrBlob, l % TWO_32)
  {
    hide BigEndian, Pow256;
    Pow256Values();
    Digits4Wrap(l);
  }

  lemma BinWraps(l: nat)
    requires l >= TWO_32
    ensures BlobForm(BinHeader(l), BinBlob, l % TWO_32)
  {
    hide BigEndian, Pow256;
    Pow256Values();
    Digits4Wrap(l);
  }

  lemma BoxWraps(n: nat)
    requires n >= TWO_32
    ensures BoxForm(ArrayHeader(n), false, n % TWO_32) && BoxForm(MapHeader(n), true, n % TWO_32)
  {
    hide BigEndian, Pow256;
    Pow256Values();
    Digits4Wrap(n);
  }

  lemma ExtWraps(l: nat, type_: byte)
    ensures var header := ExtHeader(l, type_); BlobForm(header[..|header| - 1], ExtBlob, l % TWO_32)
  {
    if l + 1 < TWO_32 {
      hide ExtHeader, BlobForm;
      var bare := ExtForm(l, type_);
      assert (bare + [type_])[..|bare|] == bare;
    } else {
      hide BigEndian, Pow256;
      Pow256Values();
      Digits4Wrap(l);
      assert ExtHeader(l, type_)[..5] == [0xc9] + BigEndian(l, 4);
    }
  }

  /**
   * So a str of any size, packed, decodes as its first `|s| % 2^32` bytes: as itself exactly when
   * its length is below 2^32.
   */
  lemma AnyStrDecodes(s: seq<byte>, suffix: seq<byte>)
    ensures var r := Run(StrHeader(|s|) + s + suffix, FRESH, 0);
            && r.Finished? && r.v == Str(s[..|s| % TWO_32]) && r.off == |StrHeader(|s|)| + |s| % TWO_32
            && (r.v == Str(s) <==> |s| < TWO_32)
  {
    hide Run, LeafAt, StrHeader, BlobForm, At;
    var (header, l) := (StrHeader(|s|), |s| % TWO_32);
    HeadersWrap(|s|, 0);
    AtStart(header, s, l, suffix);
    BlobLeaf(header + s + suffix, 0, header, StrBlob, l, s[..l]);
    LeafDecodes(header + s + suffix, Str(s[..l]), |header| + l);
    assert s[..l] == s <==> l == |s|;
  }

  lemma AtStart(header: seq<byte>, s: seq<byte>, l: nat, suffix: seq<byte>)
    requires l <= |s|
    ensures At(header + s + suffix, 0, header + s[..l])
  {
  }
}
