/**
 * The packer: each encoder fills a local buffer by stores and appends it to the sink through the
 * write callback. `out` is everything the callback has been given.
 */
module Packer {
  import opened Bytes
  import opened Values
  import opened Encoding
  import opened Sysdep

  class Packer {
    var out: seq<byte>

    constructor ()
      ensures out == []
    {
      out := [];
    }

    /** The write callback, taken to succeed. */
    method Append(buf: array<byte>, len: nat)
      requires len <= buf.Length
      modifies this
      ensures out == old(out) + buf[..len]
    {
      out := out + buf[..len];
    }

    /** A header byte followed by a big-endian word, built in a local buffer. */
    method AppendWord(header: byte, num: int, w: nat)
      requires w in {2, 4, 8}
      modifies this
      ensures out == old(out) + ([header] + BigEndian(ToUnsigned(num, w), w))
    {
      var buf := new byte[w + 1];
      buf[0] := header;
      Store(buf, 1, num, w);
      assert buf[..] == [header] + BigEndian(ToUnsigned(num, w), w);
      Append(buf, w + 1);
    }

    /** A header byte followed by TAKE8, the low-order byte of `num`. */
    method AppendByte(header: byte, num: int)
      modifies this
      ensures out == old(out) + ([header] + BigEndian(ToUnsigned(num, 1), 1))
    {
      var buf := new byte[2];
      buf[0] := header;
      buf[1] := num % 256;
      assert Pow256(1) == 256;
      assert BigEndian(ToUnsigned(num, 1), 1) == BigEndian(0, 0) + [num % 256];
      assert buf[..] == [header] + BigEndian(ToUnsigned(num, 1), 1);
      Append(buf, 2);
    }

    /** TAKE8 alone: a fixnum. */
    method AppendFix(num: int)
      modifies this
      ensures out == old(out) + [num % 256]
    {
      var buf := new byte[1];
      buf[0] := num % 256;
      Append(buf, 1);
    }

    // Integers in the shortest form (pack_template.h:53-277)

    method PackUint8(d: int)
      requires 0 <= d < 0x100
      modifies this
      ensures out == old(out) + IntBytes(d)
    {
      Pow256Values();
      if d < 0x80 {
        AppendFix(d);
      } else {
        UnsignedIsItself(d, 1);
        AppendByte(0xcc, d);
      }
    }

    method PackUint16(d: int)
      requires 0 <= d < TWO_16
      modifies this
      ensures out == old(out) + IntBytes(d)
    {
      Pow256Values();
      if d < 0x80 {
        AppendFix(d);
      } else if d < 0x100 {
        UnsignedIsItself(d, 1);
        AppendByte(0xcc, d);
      } else {
        UnsignedIsItself(d, 2);
        AppendWord(0xcd, d, 2);
      }
    }

    method PackUint32(d: int)
      requires 0 <= d < TWO_32
      modifies this
      ensures out == old(out) + IntBytes(d)
    {
      Pow256Values();
      if d < 0x100 {
        if d < 0x80 {
          AppendFix(d);
        } else {
          UnsignedIsItself(d, 1);
          AppendByte(0xcc, d);
        }
      } else if d < TWO_16 {
        UnsignedIsItself(d, 2);
        AppendWord(0xcd, d, 2);
      } else {
        UnsignedIsItself(d, 4);
        AppendWord(0xce, d, 4);
      }
    }

    method PackUint64(d: int)
      requires 0 <= d < TWO_64
      modifies this
      ensures out == old(out) + IntBytes(d)
    {
      Pow256Values();
      if d < 0x100 {
        if d < 0x80 {
          AppendFix(d);
        } else {
          UnsignedIsItself(d, 1);
          AppendByte(0xcc, d);
        }
      } else if d < TWO_16 {
        UnsignedIsItself(d, 2);
        AppendWord(0xcd, d, 2);
      } else if d < TWO_32 {
        UnsignedIsItself(d, 4);
        AppendWord(0xce, d, 4);
      } else {
        UnsignedIsItself(d, 8);
        AppendWord(0xcf, d, 8);
      }
    }

    method PackInt8(d: int)
      requires -0x80 <= d < 0x80
      modifies this
      ensures out == old(out) + IntBytes(d)
    {
      Pow256Values();
      if d < -0x20 {
        AppendByte(0xd0, d);
      } else {
        AppendFix(d);
      }
    }

    method PackInt16(d: int)
      requires -0x8000 <= d < 0x8000
      modifies this
      ensures out == old(out) + IntBytes(d)
    {
      Pow256Values();
      if d < -0x20 {
        if d < -0x80 {
          AppendWord(0xd1, d, 2);
        } else {
          AppendByte(0xd0, d);
        }
      } else if d < 0x80 {
        AppendFix(d);
      } else if d < 0x100 {
        UnsignedIsItself(d, 1);
        AppendByte(0xcc, d);
      } else {
        UnsignedIsItself(d, 2);
        AppendWord(0xcd, d, 2);
      }
    }

    method PackInt32(d: int)
      requires -0x8000_0000 <= d < 0x8000_0000
      modifies this
      ensures out == old(out) + IntBytes(d)
    {
      Pow256Values();
      if d < -0x20 {
        if d < -0x8000 {
          AppendWord(0xd2, d, 4);
        } else if d < -0x80 {
          AppendWord(0xd1, d, 2);
        } else {
          AppendByte(0xd0, d);
        }
      } else if d < 0x80 {
        AppendFix(d);
      } else if d < 0x100 {
        UnsignedIsItself(d, 1);
        AppendByte(0xcc, d);
      } else if d < TWO_16 {
        UnsignedIsItself(d, 2);
        AppendWord(0xcd, d, 2);
      } else {
        UnsignedIsItself(d, 4);
        AppendWord(0xce, d, 4);
      }
    }

    method PackInt64(d: int)
      requires -TWO_63 <= d < TWO_63
      modifies this
      ensures out == old(out) + IntBytes(d)
    {
      Pow256Values();
      if d < -0x20 {
        if d < -0x8000 {
          if d < -0x8000_0000 {
            AppendWord(0xd3, d, 8);
          } else {
            AppendWord(0xd2, d, 4);
          }
        } else if d < -0x80 {
          AppendWord(0xd1, d, 2);
        } else {
          AppendByte(0xd0, d);
        }
      } else if d < 0x80 {
        AppendFix(d);
      } else if d < TWO_16 {
        if d < 0x100 {
          UnsignedIsItself(d, 1);
          AppendByte(0xcc, d);
        } else {
          UnsignedIsItself(d, 2);
          AppendWord(0xcd, d, 2);
        }
      } else if d < TWO_32 {
        UnsignedIsItself(d, 4);
        AppendWord(0xce, d, 4);
      } else {
        UnsignedIsItself(d, 8);
        AppendWord(0xcf, d, 8);
      }
    }

    // Integers at a fixed width (pack_template.h:282-334)

    method PackFixUint8(d: int)
      requires 0 <= d < 0x100
      modifies this
      ensures out == old(out) + FixedBytes(false, 1, d)
    {
      AppendByte(0xcc, d);
    }

    method PackFixUint16(d: int)
      requires 0 <= d < TWO_16
      modifies this
      ensures out == old(out) + FixedBytes(false, 2, d)
    {
      AppendWord(0xcd, d, 2);
    }

    method PackFixUint32(d: int)
      requires 0 <= d < TWO_32
      modifies this
      ensures out == old(out) + FixedBytes(false, 4, d)
    {
      AppendWord(0xce, d, 4);
    }

    method PackFixUint64(d: int)
      requires 0 <= d < TWO_64
      modifies this
      ensures out == old(out) + FixedBytes(false, 8, d)
    {
      AppendWord(0xcf, d, 8);
    }

    method PackFixInt8(d: int)
      requires -0x80 <= d < 0x80
      modifies this
      ensures out == old(out) + FixedBytes(true, 1, d)
    {
      AppendByte(0xd0, d);
    }

    method PackFixInt16(d: int)
      requires -0x8000 <= d < 0x8000
      modifies this
      ensures out == old(out) + FixedBytes(true, 2, d)
    {
      AppendWord(0xd1, d, 2);
    }

    method PackFixInt32(d: int)
      requires -0x8000_0000 <= d < 0x8000_0000
      modifies this
      ensures out == old(out) + FixedBytes(true, 4, d)
    {
      AppendWord(0xd2, d, 4);
    }

    method PackFixInt64(d: int)
      requires -TWO_63 <= d < TWO_63
      modifies this
      ensures out == old(out) + FixedBytes(true, 8, d)
    {
      AppendWord(0xd3, d, 8);
    }

    // Floats by their bits, nil and booleans (pack_template.h:662-713)

    method PackFloat(bits: nat)
      requires bits < TWO_32
      modifies this
      ensures out == old(out) + Encode(Float32(bits))
    {
      Pow256Values();
      UnsignedIsItself(bits, 4);
      AppendWord(0xca, bits, 4);
    }

    method PackDouble(bits: nat)
      requires bits < TWO_64
      modifies this
      ensures out == old(out) + Encode(Float64(bits))
    {
      Pow256Values();
      UnsignedIsItself(bits, 8);
      AppendWord(0xcb, bits, 8);
    }

    method PackNil()
      modifies this
      ensures out == old(out) + Encode(Nil)
    {
      AppendFix(0xc0);
    }

    method PackTrue()
      modifies this
      ensures out == old(out) + Encode(Bool(true))
    {
      AppendFix(0xc3);
    }

    method PackFalse()
      modifies this
      ensures out == old(out) + Encode(Bool(false))
    {
      AppendFix(0xc2);
    }

    // Headers of containers, strings and binaries (pack_template.h:720-831)

    method PackArray(n: nat)
      requires n < TWO_64
      modifies this
      ensures out == old(out) + ArrayHeader(n)
    {
      Pow256Values();
      if n < 16 {
        AppendFix(0x90 + n);
      } else if n < TWO_16 {
        DigitsTruncate(n, 2);
        AppendWord(0xdc, n, 2);
      } else {
        DigitsTruncate(n, 4);
        AppendWord(0xdd, n, 4);
      }
    }

    method PackMap(n: nat)
      requires n < TWO_64
      modifies this
      ensures out == old(out) + MapHeader(n)
    {
      Pow256Values();
      if n < 16 {
        AppendFix(0x80 + n);
      } else if n < TWO_16 {
        DigitsTruncate(n, 2);
        AppendWord(0xde, n, 2);
      } else {
        DigitsTruncate(n, 4);
        AppendWord(0xdf, n, 4);
      }
    }

    method PackStr(l: nat)
      requires l < TWO_64
      modifies this
      ensures out == old(out) + StrHeader(l)
    {
      Pow256Values();
      if l < 32 {
        AppendFix(0xa0 + l);
      } else if l < 0x100 {
        DigitsTruncate(l, 1);
        AppendByte(0xd9, l);
      } else if l < TWO_16 {
        DigitsTruncate(l, 2);
        AppendWord(0xda, l, 2);
      } else {
        DigitsTruncate(l, 4);
        AppendWord(0xdb, l, 4);
      }
    }

    method PackV4Raw(l: nat)
      requires l < TWO_64
      modifies this
      ensures out == old(out) + RawHeader(l)
    {
      Pow256Values();
      if l < 32 {
        AppendFix(0xa0 + l);
      } else if l < TWO_16 {
        DigitsTruncate(l, 2);
        AppendWord(0xda, l, 2);
      } else {
        DigitsTruncate(l, 4);
        AppendWord(0xdb, l, 4);
      }
    }

    method PackBin(l: nat)
      requires l < TWO_64
      modifies this
      ensures out == old(out) + BinHeader(l)
    {
      Pow256Values();
      if l < 0x100 {
        DigitsTruncate(l, 1);
        AppendByte(0xc4, l);
      } else if l < TWO_16 {
        DigitsTruncate(l, 2);
        AppendWord(0xc5, l, 2);
      } else {
        DigitsTruncate(l, 4);
        AppendWord(0xc6, l, 4);
      }
    }

    /** The five fixed sizes have their own header; the type byte ends every header. */
    method PackExt(l: nat, type_: int)
      requires l < TWO_64 && -0x80 <= type_ < 0x80
      modifies this
      ensures out == old(out) + ExtHeader(l, type_ % 256)
    {
      hide BigEndian, ToUnsigned;
      var t := type_ % 256;
      var buf := new byte[6];
      var used := 2;
      buf[1] := t;
      if l == 1 {
        buf[0] := 0xd4;
      } else if l == 2 {
        buf[0] := 0xd5;
      } else if l == 4 {
        buf[0] := 0xd6;
      } else if l == 8 {
        buf[0] := 0xd7;
      } else if l == 16 {
        buf[0] := 0xd8;
      } else if l < 0x100 {
        buf[0], buf[1], buf[2] := 0xc7, l, t;
        used := 3;
        OneDigit(l);
      } else if l < TWO_16 {
        buf[0] := 0xc8;
        Store(buf, 1, l, 2);
        DigitsTruncate(l, 2);
        buf[3] := t;
        used := 4;
      } else {
        buf[0] := 0xc9;
        Store(buf, 1, l, 4);
        DigitsTruncate(l, 4);
        buf[5] := t;
        used := 6;
      }
      assert buf[..used] == ExtHeader(l, t);
      Append(buf, used);
    }

    /** The body callbacks: the bytes as they are. */
    method PackBody(body: array<byte>, l: nat)
      requires l <= body.Length
      modifies this
      ensures out == old(out) + body[..l]
    {
      Append(body, l);
    }
  }
}
