/** The objects the decoder builds and the encoder walks. */
module Values {
  import opened Bytes

  datatype Pair = Pair(key: Value, val: Value)

  /**
   * A decoded object. Integers of every width are one integer value, floats are kept as their bit
   * patterns, and an extension is the slice handed to the decoder's callback: the type byte
   * followed by the payload.
   */
  datatype Value =
    | Nil
    | Bool(b: bool)
    | Int(i: int)
    | Float32(bits: nat)
    | Float64(bits: nat)
    | Str(s: seq<byte>)
    | Bin(s: seq<byte>)
    | Ext(body: seq<byte>)
    | Array(items: seq<Value>)
    | Map(pairs: seq<Pair>)

  function Max(a: nat, b: nat): nat { if a < b then b else a }

  /** The number of containers on the deepest path, counting empty ones. */
  function Depth(v: Value): nat
    decreases v, 1
  {
    match v
    case Array(items) => 1 + ItemsDepth(items)
    case Map(pairs) => 1 + PairsDepth(pairs)
    case _ => 0
  }

  function ItemsDepth(items: seq<Value>): nat
    decreases items, 0
  {
    if items == [] then 0 else Max(Depth(items[0]), ItemsDepth(items[1..]))
  }

  function PairsDepth(pairs: seq<Pair>): nat
    decreases pairs, 0
  {
    if pairs == [] then 0
    else
      var pair := pairs[0];
      assert pair.key < pair && pair.val < pair;
      Max(Max(Depth(pair.key), Depth(pair.val)), PairsDepth(pairs[1..]))
  }

  /** What the C object type can hold: 64-bit integers, float bit patterns, a type byte per ext. */
  predicate Typed(v: Value)
  {
    match v
    case Int(i) => -TWO_63 <= i < TWO_64
    case Float32(bits) => bits < TWO_32
    case Float64(bits) => bits < TWO_64
    case Ext(body) => |body| >= 1
    case Array(items) => forall k :: 0 <= k < |items| ==> Typed(items[k])
    case Map(pairs) => forall k :: 0 <= k < |pairs| ==> Typed(pairs[k].key) && Typed(pairs[k].val)
    case _ => true
  }

  /**
   * Every length and count fits the 32-bit fields of the format, and an ext payload leaves room
   * for its type byte: the whole slice stays below 2^32.
   */
  predicate SizesFit(v: Value)
  {
    match v
    case Str(s) => |s| < TWO_32
    case Bin(s) => |s| < TWO_32
    case Ext(body) => |body| < TWO_32
    case Array(items) => |items| < TWO_32 && forall k :: 0 <= k < |items| ==> SizesFit(items[k])
    case Map(pairs) =>
      && |pairs| < TWO_32
      && forall k :: 0 <= k < |pairs| ==> SizesFit(pairs[k].key) && SizesFit(pairs[k].val)
    case _ => true
  }
}
