/** The bytes of each MessagePack element, and of whole trees: what the packer is proved to emit. */
module Encoding {
  import opened Bytes
  import opened Values

  /** The one encoding of an integer, whatever the C type it came from. */
  function IntBytes(i: int): seq<byte>
    requires -TWO_63 <= i < TWO_64
  {
    if i < -0x8000_0000 then [0xd3] + BigEndian(ToUnsigned(i, 8), 8)
    else if i < -0x8000 then [0xd2] + BigEndian(ToUnsigned(i, 4), 4)
    else if i < -0x80 then [0xd1] + BigEndian(ToUnsigned(i, 2), 2)
    else if i < -0x20 then [0xd0] + BigEndian(ToUnsigned(i, 1), 1)
    else if i < 0 then [i + 0x100]
    else if i < 0x80 then [i]
    else if i < 0x100 then [0xcc] + BigEndian(i, 1)
    else if i < TWO_16 then [0xcd] + BigEndian(i, 2)
    else if i < TWO_32 then [0xce] + BigEndian(i, 4)
    else [0xcf] + BigEndian(i, 8)
  }

  /** The encodings that always use the full width of the C type. */
  function FixedBytes(signed: bool, w: nat, i: int): seq<byte>
    requires w in {1, 2, 4, 8}
  {
    var size := if w == 1 then 0 else if w == 2 then 1 else if w == 4 then 2 else 3;
    [(if signed then 0xd0 else 0xcc) + size] + BigEndian(ToUnsigned(i, w), w)
  }

  // Headers. A count or length beyond 32 bits is cut to its low-order four bytes, as the casts do.

  function ArrayHeader(n: nat): seq<byte>
  {
    if n < 16 then [0x90 + n] else if n < TWO_16 then [0xdc] + BigEndian(n, 2) else [0xdd] + BigEndian(n, 4)
  }

  function MapHeader(n: nat): seq<byte>
  {
    if n < 16 then [0x80 + n] else if n < TWO_16 then [0xde] + BigEndian(n, 2) else [0xdf] + BigEndian(n, 4)
  }

  function StrHeader(l: nat): seq<byte>
  {
    if l < 32 then [0xa0 + l]
    else if l < 0x100 then [0xd9] + BigEndian(l, 1)
    else if l < TWO_16 then [0xda] + BigEndian(l, 2)
    else [0xdb] + BigEndian(l, 4)
  }

  /** The older raw header, which has no one-byte length form. */
  function RawHeader(l: nat): seq<byte>
  {
    if l < 32 then [0xa0 + l]
    else if l < TWO_16 then [0xda] + BigEndian(l, 2)
    else [0xdb] + BigEndian(l, 4)
  }

  function BinHeader(l: nat): seq<byte>
  {
    if l < 0x100 then [0xc4] + BigEndian(l, 1)
    else if l < TWO_16 then [0xc5] + BigEndian(l, 2)
    else [0xc6] + BigEndian(l, 4)
  }

  /** The type byte comes last: it is the first byte of the slice the decoder hands out. */
  function ExtHeader(l: nat, type_: byte): (s: seq<byte>)
    ensures |s| >= 2
  {
    (if l == 1 then [0xd4]
     else if l == 2 then [0xd5]
     else if l == 4 then [0xd6]
     else if l == 8 then [0xd7]
     else if l == 16 then [0xd8]
     else if l < 0x100 then [0xc7] + BigEndian(l, 1)
     else if l < TWO_16 then [0xc8] + BigEndian(l, 2)
     else [0xc9] + BigEndian(l, 4)) + [type_]
  }

  /** A whole tree: each container is its header and then its elements in order. */
  function Encode(v: Value): (s: seq<byte>)
    requires Typed(v)
    ensures |s| >= 1
    decreases v, 1
  {
    match v
    case Nil => [0xc0]
    case Bool(b) => if b then [0xc3] else [0xc2]
    case Int(i) => IntBytes(i)
    case Float32(bits) => [0xca] + BigEndian(bits, 4)
    case Float64(bits) => [0xcb] + BigEndian(bits, 8)
    case Str(s) => StrHeader(|s|) + s
    case Bin(s) => BinHeader(|s|) + s
    case Ext(body) => ExtHeader(|body| - 1, body[0]) + body[1..]
    case Array(items) => ArrayHeader(|items|) + EncodeItems(items)
    case Map(pairs) => MapHeader(|pairs|) + EncodePairs(pairs)
  }

  function EncodeItems(items: seq<Value>): seq<byte>
    requires forall k :: 0 <= k < |items| ==> Typed(items[k])
    decreases items, 0
  {
    if items == [] then [] else Encode(items[0]) + EncodeItems(items[1..])
  }

  function EncodePairs(pairs: seq<Pair>): seq<byte>
    requires forall k :: 0 <= k < |pairs| ==> Typed(pairs[k].key) && Typed(pairs[k].val)
    decreases pairs, 0
  {
    if pairs == [] then []
    else
      var pair := pairs[0];
      assert pair.key < pair && pair.val < pair;
      Encode(pair.key) + Encode(pair.val) + EncodePairs(pairs[1..])
  }
}
