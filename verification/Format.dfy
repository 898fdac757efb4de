/**
 * The MessagePack format as a plain recursive reader. It follows the first-byte table of the
 * MessagePack specification ("int format family" to "ext format family") and keeps no state of
 * its own: this is the reference the streaming decoder is proved against.
 */
module Format {
  import opened Bytes
  import opened Values

  datatype NumberKind = Unsigned | Signed | Float
  datatype BlobKind = StrBlob | BinBlob | ExtBlob

  /** What the first byte of a value says about the bytes that follow it. */
  datatype Head =
    | Scalar(v: Value)                          // the value is in the byte itself
    | Number(kind: NumberKind, width: nat)      // a big-endian word follows
    | FixedBlob(blob: BlobKind, size: nat)      // `size` bytes follow
    | SizedBlob(blob: BlobKind, width: nat)     // a length word, then the bytes
    | FixedBox(isMap: bool, count: nat)           // `count` items or pairs follow
    | SizedBox(isMap: bool, width: nat)           // a count word, then the items or pairs
    | Reserved                                  // 0xc1

  function HeadOf(b: byte): Head
  {
    if b < 0x80 then Scalar(Int(b))
    else if b < 0x90 then FixedBox(true, b - 0x80)
    else if b < 0xa0 then FixedBox(false, b - 0x90)
    else if b < 0xc0 then FixedBlob(StrBlob, b - 0xa0)
    else if b == 0xc0 then Scalar(Nil)
    else if b == 0xc1 then Reserved
    else if b == 0xc2 then Scalar(Bool(false))
    else if b == 0xc3 then Scalar(Bool(true))
    else if b == 0xc4 then SizedBlob(BinBlob, 1)
    else if b == 0xc5 then SizedBlob(BinBlob, 2)
    else if b == 0xc6 then SizedBlob(BinBlob, 4)
    else if b == 0xc7 then SizedBlob(ExtBlob, 1)
    else if b == 0xc8 then SizedBlob(ExtBlob, 2)
    else if b == 0xc9 then SizedBlob(ExtBlob, 4)
    else if b == 0xca then Number(Float, 4)
    else if b == 0xcb then Number(Float, 8)
    else if b == 0xcc then Number(Unsigned, 1)
    else if b == 0xcd then Number(Unsigned, 2)
    else if b == 0xce then Number(Unsigned, 4)
    else if b == 0xcf then Number(Unsigned, 8)
    else if b == 0xd0 then Number(Signed, 1)
    else if b == 0xd1 then Number(Signed, 2)
    else if b == 0xd2 then Number(Signed, 4)
    else if b == 0xd3 then Number(Signed, 8)
    else if b == 0xd4 then FixedBlob(ExtBlob, 2)
    else if b == 0xd5 then FixedBlob(ExtBlob, 3)
    else if b == 0xd6 then FixedBlob(ExtBlob, 5)
    else if b == 0xd7 then FixedBlob(ExtBlob, 9)
    else if b == 0xd8 then FixedBlob(ExtBlob, 17)
    else if b == 0xd9 then SizedBlob(StrBlob, 1)
    else if b == 0xda then SizedBlob(StrBlob, 2)
    else if b == 0xdb then SizedBlob(StrBlob, 4)
    else if b == 0xdc then SizedBox(false, 2)
    else if b == 0xdd then SizedBox(false, 4)
    else if b == 0xde then SizedBox(true, 2)
    else if b == 0xdf then SizedBox(true, 4)
    else Scalar(Int(b - 0x100))
  }

  function NumberValue(kind: NumberKind, word: seq<byte>): Value
  {
    match kind
    case Unsigned => Int(FromBigEndian(word))
    case Signed => Int(ToSigned(FromBigEndian(word), |word|))
    case Float => if |word| == 4 then Float32(FromBigEndian(word)) else Float64(FromBigEndian(word))
  }

  function BlobValue(kind: BlobKind, body: seq<byte>): Value
  {
    match kind
    case StrBlob => Str(body)
    case BinBlob => Bin(body)
    case ExtBlob => Ext(body)
  }

  /**
   * The bytes that follow a length word. An ext counts its type byte too, and the decoder adds it
   * in 32 bits (unpack_template.h:341-345), so the length 2^32 - 1 wraps to an empty slice.
   */
  function BlobSize(kind: BlobKind, len: nat): nat
  {
    if kind == ExtBlob then (len + 1) % TWO_32 else len
  }

  /** What stands at an offset, up to the contents of a container. */
  datatype Leaf =
    | Whole(v: Value, next: nat)
    | Header(isMap: bool, n: nat, next: nat)
    | Short
    | Forbidden

  function LeafBlob(data: seq<byte>, p: nat, kind: BlobKind, size: nat): Leaf
  {
    if p + size > |data| then Short else Whole(BlobValue(kind, data[p..p + size]), p + size)
  }

  function LeafAt(data: seq<byte>, p: nat): (l: Leaf)
    requires p < |data|
    ensures l.Whole? || l.Header? ==> p < l.next <= |data|
  {
    match HeadOf(data[p])
    case Scalar(v) => Whole(v, p + 1)
    case Number(kind, w) =>
      if p + 1 + w > |data| then Short
      else Whole(NumberValue(kind, data[p + 1..p + 1 + w]), p + 1 + w)
    case FixedBlob(kind, size) => LeafBlob(data, p + 1, kind, size)
    case SizedBlob(kind, w) =>
      if p + 1 + w > |data| then Short
      else LeafBlob(data, p + 1 + w, kind, BlobSize(kind, FromBigEndian(data[p + 1..p + 1 + w])))
    case FixedBox(isMap, n) => Header(isMap, n, p + 1)
    case SizedBox(isMap, w) =>
      if p + 1 + w > |data| then Short
      else Header(isMap, FromBigEndian(data[p + 1..p + 1 + w]), p + 1 + w)
    case Reserved => Forbidden
  }

  datatype Parse<+T> =
    | Ok(value: T, next: nat)   // a value, and the offset just behind it
    | More                      // the bytes end inside the value
    | Bad(at: nat)              // 0xc1 where a value should start
    | Deep(at: nat)             // a container whose header ends at `at` is nested too deep
  {
    predicate IsFailure() { !Ok? }

    function PropagateFailure<U>(): Parse<U>
      requires !Ok?
    {
      match this
      case More => More
      case Bad(at) => Bad(at)
      case Deep(at) => Deep(at)
    }

    function Extract(): (T, nat)
      requires Ok?
    {
      (value, next)
    }
  }

  /** Reads the value that starts at `p`, with at most `room` containers on any path of it. */
  function ReadValue(data: seq<byte>, p: nat, room: nat): (r: Parse<Value>)
    ensures r.Ok? ==> p < r.next <= |data|
    decreases |data| - p, 0
  {
    if p >= |data| then More
    else
      match LeafAt(data, p)
      case Whole(v, q) => Ok(v, q)
      case Header(isMap, n, q) => ReadBox(data, q, isMap, n, room)
      case Short => More
      case Forbidden => Bad(p)
  }

  /** Reads the contents of a container whose header ends just before `p`. */
  function ReadBox(data: seq<byte>, p: nat, isMap: bool, n: nat, room: nat): (r: Parse<Value>)
    requires 1 <= p <= |data|
    ensures r.Ok? ==> p <= r.next <= |data|
    decreases |data| - p, 2
  {
    if room == 0 then Deep(p - 1)
    else if isMap then
      var (pairs, q) :- ReadPairs(data, p, n, room - 1);
      Ok(Map(pairs), q)
    else
      var (items, q) :- ReadItems(data, p, n, room - 1);
      Ok(Array(items), q)
  }

  function ReadItems(data: seq<byte>, p: nat, n: nat, room: nat): (r: Parse<seq<Value>>)
    requires p <= |data|
    ensures r.Ok? ==> p <= r.next <= |data| && |r.value| == n
    decreases |data| - p, 1
  {
    if n == 0 then Ok([], p)
    else
      var (v, q) :- ReadValue(data, p, room);
      var (rest, q') :- ReadItems(data, q, n - 1, room);
      Ok([v] + rest, q')
  }

  function ReadPairs(data: seq<byte>, p: nat, n: nat, room: nat): (r: Parse<seq<Pair>>)
    requires p <= |data|
    ensures r.Ok? ==> p <= r.next <= |data| && |r.value| == n
    decreases |data| - p, 1
  {
    if n == 0 then Ok([], p)
    else
      var (k, q) :- ReadValue(data, p, room);
      var (v, q') :- ReadValue(data, q, room);
      var (rest, q'') :- ReadPairs(data, q', n - 1, room);
      Ok([Pair(k, v)] + rest, q'')
  }
}
