/** Decoding undoes encoding, for every tree, up to the exact limits of the format and the stack. */
module RoundTrip {
  import opened Bytes
  import opened Values
  import opened Format
  import opened Encoding
  import opened Machine
  import opened Refinement

  /** A header byte and a word of `w` bytes, as they stand in the data. */
  lemma WordAt(data: seq<byte>, p: nat, h: byte, n: nat, w: nat)
    requires At(data, p, [h] + BigEndian(n, w)) && n < Pow256(w)
    ensures p + 1 + w <= |data| && data[p] == h && FromBigEndian(data[p + 1..p + 1 + w]) == n
  {
    hide BigEndian, FromBigEndian, Pow256;
    AtSplit(data, p, [h], BigEndian(n, w));
    ReadBack(n, w);
    Remainder(n, Pow256(w), 0, n);
    FirstByte(data, p, [h]);
  }

  lemma FirstByte(data: seq<byte>, p: nat, s: seq<byte>)
    requires At(data, p, s) && s != []
    ensures p < |data| && data[p] == s[0]
  {
    assert data[p..p + |s|][0] == data[p];
  }

  /** A header is one byte that says it all, or a byte and the length word that it announces. */
  ghost predicate BlobForm(header: seq<byte>, kind: BlobKind, len: nat)
  {
    && |header| >= 1
    && if |header| == 1 then HeadOf(header[0]) == FixedBlob(kind, BlobSize(kind, len))
       else
         && HeadOf(header[0]) == SizedBlob(kind, |header| - 1)
         && header == [header[0]] + BigEndian(len, |header| - 1) && len < Pow256(|header| - 1)
  }

  lemma BlobLeaf(data: seq<byte>, p: nat, header: seq<byte>, kind: BlobKind, len: nat, body: seq<byte>)
    requires BlobForm(header, kind, len) && BlobSize(kind, len) == |body| && At(data, p, header + body)
    ensures p < |data| && LeafAt(data, p) == Whole(BlobValue(kind, body), p + |header| + |body|)
  {
    hide HeadOf, BigEndian, FromBigEndian, Pow256, BlobSize, BlobValue;
    AtSplit(data, p, header, body);
    FirstByte(data, p, header);
    if |header| > 1 {
      WordAt(data, p, header[0], len, |header| - 1);
    }
  }

  ghost predicate BoxForm(header: seq<byte>, isMap: bool, n: nat)
  {
    && |header| >= 1
    && if |header| == 1 then HeadOf(header[0]) == FixedBox(isMap, n)
       else
         && HeadOf(header[0]) == SizedBox(isMap, |header| - 1)
         && header == [header[0]] + BigEndian(n, |header| - 1) && n < Pow256(|header| - 1)
  }

  lemma BoxLeaf(data: seq<byte>, p: nat, header: seq<byte>, isMap: bool, n: nat)
    requires BoxForm(header, isMap, n) && At(data, p, header)
    ensures p < |data| && LeafAt(data, p) == Header(isMap, n, p + |header|)
  {
    hide HeadOf, BigEndian, FromBigEndian, Pow256;
    FirstByte(data, p, header);
    if |header| > 1 {
      WordAt(data, p, header[0], n, |header| - 1);
    }
  }

  lemma StrForm(l: nat)
    requires l < TWO_32
    ensures BlobForm(StrHeader(l), StrBlob, l)
  {
    hide BigEndian, Pow256;
    Pow256Values();
  }

  lemma RawForm(l: nat)
    requires l < TWO_32
    ensures BlobForm(RawHeader(l), StrBlob, l)
  {
    hide BigEndian, Pow256;
    Pow256Values();
  }

  lemma BinForm(l: nat)
    requires l < TWO_32
    ensures BlobForm(BinHeader(l), BinBlob, l)
  {
    hide BigEndian, Pow256;
    Pow256Values();
  }

  /** The ext header but for its type byte, which is the first byte of the slice. */
  lemma ExtForm(l: nat, type_: byte) returns (bare: seq<byte>)
    requires l + 1 < TWO_32
    ensures ExtHeader(l, type_) == bare + [type_] && BlobForm(bare, ExtBlob, l)
  {
    hide BigEndian, Pow256;
    Pow256Values();
    var header := ExtHeader(l, type_);
    bare := header[..|header| - 1];
  }

  lemma ArrayForm(n: nat)
    requires n < TWO_32
    ensures BoxForm(ArrayHeader(n), false, n)
  {
    hide BigEndian, Pow256;
    Pow256Values();
  }

  lemma MapForm(n: nat)
    requires n < TWO_32
    ensures BoxForm(MapHeader(n), true, n)
  {
    hide BigEndian, Pow256;
    Pow256Values();
  }

  lemma ExtLeaf(data: seq<byte>, p: nat, body: seq<byte>)
    requires 1 <= |body| < TWO_32 && At(data, p, ExtHeader(|body| - 1, body[0]) + body[1..])
    ensures p < |data| && LeafAt(data, p) == Whole(Ext(body), p + |ExtHeader(|body| - 1, body[0])| + |body| - 1)
  {
    hide ExtHeader, LeafAt, BlobForm;
    var bare := ExtForm(|body| - 1, body[0]);
    assert bare + [body[0]] + body[1..] == bare + body;
    BlobLeaf(data, p, bare, ExtBlob, |body| - 1, body);
  }

  /** A header byte and a number of its width. */
  lemma NumberLeaf(data: seq<byte>, p: nat, h: byte, kind: NumberKind, w: nat, word: nat)
    requires HeadOf(h) == Number(kind, w) && word < Pow256(w) && At(data, p, [h] + BigEndian(word, w))
    ensures p + 1 + w <= |data| && FromBigEndian(data[p + 1..p + 1 + w]) == word
    ensures LeafAt(data, p) == Whole(NumberValue(kind, data[p + 1..p + 1 + w]), p + 1 + w)
  {
    hide HeadOf, NumberValue, BigEndian, FromBigEndian, Pow256;
    WordAt(data, p, h, word, w);
  }

  lemma FixedHead(signed: bool, w: nat, i: int)
    requires w in {1, 2, 4, 8}
    ensures HeadOf(FixedBytes(signed, w, i)[0]) == Number(if signed then Signed else Unsigned, w)
  {
    hide BigEndian, Pow256;
  }

  lemma FixedLeaf(data: seq<byte>, p: nat, signed: bool, w: nat, i: int)
    requires w in {1, 2, 4, 8} && At(data, p, FixedBytes(signed, w, i))
    requires if signed then FitsSigned(i, w) else 0 <= i < Pow256(w)
    ensures p < |data| && LeafAt(data, p) == Whole(Int(i), p + 1 + w)
  {
    hide LeafAt, HeadOf, BigEndian, FromBigEndian, Pow256;
    if signed {
      SignedRoundTrip(i, w);
    } else {
      UnsignedIsItself(i, w);
    }
    FixedHead(signed, w, i);
    FirstByte(data, p, FixedBytes(signed, w, i));
    NumberLeaf(data, p, FixedBytes(signed, w, i)[0], if signed then Signed else Unsigned, w, ToUnsigned(i, w));
  }

  /** The packer's integer is its one-byte form, or the narrowest full-width form that holds it. */
  lemma IntForm(i: int) returns (w: nat)
    requires -TWO_63 <= i < TWO_64
    ensures w == 0 <==> -0x20 <= i < 0x80
    ensures w == 0 ==> IntBytes(i) == [if i < 0 then i + 0x100 else i]
    ensures w != 0 ==> w in {1, 2, 4, 8} && IntBytes(i) == FixedBytes(i < 0, w, i)
    ensures w != 0 ==> if i < 0 then FitsSigned(i, w) else i < Pow256(w)
  {
    hide BigEndian, Pow256, ToUnsigned;
    Pow256Values();
    w := |IntBytes(i)| - 1;
    if w > 0 && i > 0 {
      UnsignedIsItself(i, w);
    }
  }

  lemma IntLeaf(data: seq<byte>, p: nat, i: int)
    requires -TWO_63 <= i < TWO_64 && At(data, p, IntBytes(i))
    ensures p < |data| && LeafAt(data, p) == Whole(Int(i), p + |IntBytes(i)|)
  {
    hide LeafAt, IntBytes, FixedBytes, FitsSigned, Pow256, At;
    var w := IntForm(i);
    if w == 0 {
      OneByteInt(i);
      OneByteLeaf(data, p, if i < 0 then i + 0x100 else i);
    } else {
      FixedLength(i < 0, w, i);
      FixedLeaf(data, p, i < 0, w, i);
    }
  }

  lemma OneByteInt(i: int)
    requires -0x20 <= i < 0x80
    ensures HeadOf(if i < 0 then i + 0x100 else i) == Scalar(Int(i))
  {
  }

  lemma FixedLength(signed: bool, w: nat, i: int)
    requires w in {1, 2, 4, 8}
    ensures |FixedBytes(signed, w, i)| == w + 1
  {
    hide BigEndian, Pow256;
  }

  /** The last header byte of the first container, in byte order, with `room` containers around it. */
  function DeepAt(v: Value, room: nat): nat
    requires Typed(v) && Depth(v) > room
    decreases v, 1
  {
    match v
    case Array(items) =>
      if room == 0 then |ArrayHeader(|items|)| - 1 else |ArrayHeader(|items|)| + ItemsDeepAt(items, room - 1)
    case Map(pairs) =>
      if room == 0 then |MapHeader(|pairs|)| - 1 else |MapHeader(|pairs|)| + PairsDeepAt(pairs, room - 1)
  }

  function ItemsDeepAt(items: seq<Value>, room: nat): nat
    requires (forall k :: 0 <= k < |items| ==> Typed(items[k])) && ItemsDepth(items) > room
    decreases items, 0
  {
    if Depth(items[0]) > room then DeepAt(items[0], room)
    else |Encode(items[0])| + ItemsDeepAt(items[1..], room)
  }

  function PairsDeepAt(pairs: seq<Pair>, room: nat): nat
    requires forall k :: 0 <= k < |pairs| ==> Typed(pairs[k].key) && Typed(pairs[k].val)
    requires PairsDepth(pairs) > room
    decreases pairs, 0
  {
    var pair := pairs[0];
    assert pair.key < pair && pair.val < pair;
    if Depth(pair.key) > room then DeepAt(pair.key, room)
    else if Depth(pair.val) > room then |Encode(pair.key)| + DeepAt(pair.val, room)
    else |Encode(pair.key)| + |Encode(pair.val)| + PairsDeepAt(pairs[1..], room)
  }

  /** Reading an encoded tree anywhere in the data, whatever follows it. */
  lemma {:induction false} ReadEncoded(data: seq<byte>, p: nat, v: Value, room: nat)
    requires Typed(v) && SizesFit(v) && At(data, p, Encode(v))
    ensures ReadValue(data, p, room) ==
            if Depth(v) <= room then Ok(v, p + |Encode(v)|) else Deep(p + DeepAt(v, room))
    decreases v, 1
  {
    hide LeafAt, ReadValue, EncodeItems, EncodePairs, ItemsDepth, PairsDepth, ItemsDeepAt, PairsDeepAt;
    if v.Array? {
      ReadEncodedArray(data, p, v.items, room);
    } else if v.Map? {
      ReadEncodedMap(data, p, v.pairs, room);
    } else {
      ReadEncodedLeaf(data, p, v, room);
    }
  }

  lemma ReadEncodedLeaf(data: seq<byte>, p: nat, v: Value, room: nat)
    requires Typed(v) && SizesFit(v) && At(data, p, Encode(v)) && !v.Array? && !v.Map?
    ensures Depth(v) == 0 && ReadValue(data, p, room) == Ok(v, p + |Encode(v)|)
  {
    hide LeafAt, Typed, SizesFit, Encode;
    LeafEncoded(data, p, v);
  }

  lemma {:induction false} ReadEncodedArray(data: seq<byte>, p: nat, items: seq<Value>, room: nat)
    requires |items| < TWO_32 && forall k :: 0 <= k < |items| ==> Typed(items[k]) && SizesFit(items[k])
    requires At(data, p, ArrayHeader(|items|) + EncodeItems(items))
    ensures var q := p + |ArrayHeader(|items|)|;
            ReadValue(data, p, room) ==
            if room == 0 then Deep(q - 1)
            else if ItemsDepth(items) < room then Ok(Array(items), q + |EncodeItems(items)|)
            else Deep(q + ItemsDeepAt(items, room - 1))
    decreases items, 1
  {
    hide LeafAt, ArrayHeader, BoxForm, ReadItems, EncodeItems, ItemsDepth, ItemsDeepAt, Typed, SizesFit;
    var header := ArrayHeader(|items|);
    AtSplit(data, p, header, EncodeItems(items));
    ArrayForm(|items|);
    BoxLeaf(data, p, header, false, |items|);
    if room > 0 {
      ReadEncodedItems(data, p + |header|, items, room - 1);
    }
  }

  lemma {:induction false} ReadEncodedMap(data: seq<byte>, p: nat, pairs: seq<Pair>, room: nat)
    requires |pairs| < TWO_32
    requires forall k :: 0 <= k < |pairs| ==> Typed(pairs[k].key) && Typed(pairs[k].val)
    requires forall k :: 0 <= k < |pairs| ==> SizesFit(pairs[k].key) && SizesFit(pairs[k].val)
    requires At(data, p, MapHeader(|pairs|) + EncodePairs(pairs))
    ensures var q := p + |MapHeader(|pairs|)|;
            ReadValue(data, p, room) ==
            if room == 0 then Deep(q - 1)
            else if PairsDepth(pairs) < room then Ok(Map(pairs), q + |EncodePairs(pairs)|)
            else Deep(q + PairsDeepAt(pairs, room - 1))
    decreases pairs, 1
  {
    hide LeafAt, MapHeader, BoxForm, ReadPairs, EncodePairs, PairsDepth, PairsDeepAt, Typed, SizesFit;
    var header := MapHeader(|pairs|);
    AtSplit(data, p, header, EncodePairs(pairs));
    MapForm(|pairs|);
    BoxLeaf(data, p, header, true, |pairs|);
    if room > 0 {
      ReadEncodedPairs(data, p + |header|, pairs, room - 1);
    }
  }

  lemma LeafEncoded(data: seq<byte>, p: nat, v: Value)
    requires Typed(v) && SizesFit(v) && At(data, p, Encode(v)) && !v.Array? && !v.Map?
    ensures Depth(v) == 0 && p < |data| && LeafAt(data, p) == Whole(v, p + |Encode(v)|)
  {
    hide LeafAt, IntBytes, StrHeader, BinHeader, ExtHeader, BlobForm, BigEndian, At;
    match v {
      case Nil => OneByteLeaf(data, p, 0xc0);
      case Bool(b) => OneByteLeaf(data, p, if b then 0xc3 else 0xc2);
      case Int(i) => IntLeaf(data, p, i);
      case Float32(bits) => FloatLeaf(data, p, bits, 4);
      case Float64(bits) => FloatLeaf(data, p, bits, 8);
      case Str(s) =>
        StrForm(|s|);
        BlobLeaf(data, p, StrHeader(|s|), StrBlob, |s|, s);
      case Bin(s) =>
        BinForm(|s|);
        BlobLeaf(data, p, BinHeader(|s|), BinBlob, |s|, s);
      case Ext(body) => ExtLeaf(data, p, body);
    }
  }

  lemma OneByteLeaf(data: seq<byte>, p: nat, b: byte)
    requires At(data, p, [b]) && HeadOf(b).Scalar?
    ensures p < |data| && LeafAt(data, p) == Whole(HeadOf(b).v, p + 1)
  {
    hide HeadOf;
    FirstByte(data, p, [b]);
  }

  lemma FloatLeaf(data: seq<byte>, p: nat, bits: nat, w: nat)
    requires (w == 4 && bits < TWO_32) || (w == 8 && bits < TWO_64)
    requires At(data, p, [if w == 4 then 0xca else 0xcb] + BigEndian(bits, w))
    ensures p < |data|
    ensures LeafAt(data, p) == Whole(if w == 4 then Float32(bits) else Float64(bits), p + 1 + w)
  {
    hide LeafAt, BigEndian, FromBigEndian, Pow256, At;
    Pow256Values();
    NumberLeaf(data, p, if w == 4 then 0xca else 0xcb, Float, w, bits);
  }

  lemma {:induction false} ReadEncodedItems(data: seq<byte>, p: nat, items: seq<Value>, room: nat)
    requires forall k :: 0 <= k < |items| ==> Typed(items[k]) && SizesFit(items[k])
    requires At(data, p, EncodeItems(items))
    ensures ReadItems(data, p, |items|, room) ==
            if ItemsDepth(items) <= room then Ok(items, p + |EncodeItems(items)|)
            else Deep(p + ItemsDeepAt(items, room))
    decreases items, 0
  {
    hide LeafAt, ReadValue, Encode, DeepAt, Depth, Typed, SizesFit;
    if items != [] {
      var first, rest := items[0], items[1..];
      AtSplit(data, p, Encode(first), EncodeItems(rest));
      ReadEncoded(data, p, first, room);
      if Depth(first) <= room {
        ReadEncodedItems(data, p + |Encode(first)|, rest, room);
        assert [first] + rest == items;
      }
    }
  }

  lemma FirstPair(pairs: seq<Pair>)
    requires forall k :: 0 <= k < |pairs| ==> Typed(pairs[k].key) && Typed(pairs[k].val)
    ensures EncodePairs(pairs) ==
            if pairs == [] then [] else Encode(pairs[0].key) + Encode(pairs[0].val) + EncodePairs(pairs[1..])
  {
    hide Encode, Typed;
  }

  lemma FirstPairDepth(pairs: seq<Pair>, room: nat)
    requires forall k :: 0 <= k < |pairs| ==> Typed(pairs[k].key) && Typed(pairs[k].val)
    requires pairs != []
    ensures var (key, val, rest) := (pairs[0].key, pairs[0].val, pairs[1..]);
            && PairsDepth(pairs) == Max(Max(Depth(key), Depth(val)), PairsDepth(rest))
            && (PairsDepth(pairs) > room ==>
                  PairsDeepAt(pairs, room) ==
                  if Depth(key) > room then DeepAt(key, room)
                  else if Depth(val) > room then |Encode(key)| + DeepAt(val, room)
                  else |Encode(key)| + |Encode(val)| + PairsDeepAt(rest, room))
  {
    hide Encode, Typed, Depth, DeepAt;
  }

  lemma {:induction false} ReadEncodedPairs(data: seq<byte>, p: nat, pairs: seq<Pair>, room: nat)
    requires forall k :: 0 <= k < |pairs| ==> Typed(pairs[k].key) && Typed(pairs[k].val)
    requires forall k :: 0 <= k < |pairs| ==> SizesFit(pairs[k].key) && SizesFit(pairs[k].val)
    requires At(data, p, EncodePairs(pairs))
    ensures ReadPairs(data, p, |pairs|, room) ==
            if PairsDepth(pairs) <= room then Ok(pairs, p + |EncodePairs(pairs)|)
            else Deep(p + PairsDeepAt(pairs, room))
    decreases pairs, 0
  {
    hide LeafAt, ReadValue, ReadPairs, Encode, EncodePairs, DeepAt, Depth, Typed, SizesFit, PairsDeepAt;
    FirstPair(pairs);
    if pairs == [] {
      NothingToRead(data, p, room);
    } else {
      KeyFirst(data, p, |pairs|, room);
      FirstPairDepth(pairs, room);
      var pair, rest := pairs[0], pairs[1..];
      assert pair.key < pair && pair.val < pair;
      var k, v := Encode(pair.key), Encode(pair.val);
      AtSplit(data, p, k + v, EncodePairs(rest));
      AtSplit(data, p, k, v);
      ReadEncoded(data, p, pair.key, room);
      if Depth(pair.key) <= room {
        ReadEncoded(data, p + |k|, pair.val, room);
        if Depth(pair.val) <= room {
          ReadEncodedPairs(data, p + |k + v|, rest, room);
          assert [pair] + rest == pairs;
        }
      }
    }
  }

  /** The reader never produces a length or count that the format's fields could not announce. */
  lemma {:induction false} ReadFits(data: seq<byte>, p: nat, room: nat)
    ensures var r := ReadValue(data, p, room); r.Ok? ==> SizesFit(r.value)
    decreases |data| - p, 0
  {
    hide LeafAt;
    if p < |data| {
      LeafFits(data, p);
      var leaf := LeafAt(data, p);
      if leaf.Header? && room > 0 {
        if leaf.isMap {
          ReadPairsFit(data, leaf.next, leaf.n, room - 1);
        } else {
          ReadItemsFit(data, leaf.next, leaf.n, room - 1);
        }
      }
    }
  }

  lemma LeafFits(data: seq<byte>, p: nat)
    requires p < |data|
    ensures var leaf := LeafAt(data, p);
            && (leaf.Header? ==> leaf.n < TWO_32)
            && (leaf.Whole? ==> SizesFit(leaf.v))
  {
    hide FromBigEndian, Pow256;
    Pow256Values();
    var head := HeadOf(data[p]);
    if (head.SizedBlob? || head.SizedBox?) && p + 1 + head.width <= |data| {
      assert head.width in {1, 2, 4};
      FromBigEndianBound(data[p + 1..p + 1 + head.width]);
    }
  }

  lemma {:induction false} ReadItemsFit(data: seq<byte>, p: nat, n: nat, room: nat)
    requires p <= |data|
    ensures var r := ReadItems(data, p, n, room); r.Ok? ==> ItemsFit(r.value)
    decreases |data| - p, 1
  {
    hide ReadValue, ItemsFit;
    if n == 0 {
      NoItemsFit();
    } else {
      ReadFits(data, p, room);
      var first := ReadValue(data, p, room);
      if first.Ok? {
        ReadItemsFit(data, first.next, n - 1, room);
        var rest := ReadItems(data, first.next, n - 1, room);
        if rest.Ok? {
          MoreItemsFit(first.value, rest.value);
        }
      }
    }
  }

  lemma {:induction false} ReadPairsFit(data: seq<byte>, p: nat, n: nat, room: nat)
    requires p <= |data|
    ensures var r := ReadPairs(data, p, n, room); r.Ok? ==> PairsFit(r.value)
    decreases |data| - p, 1
  {
    hide ReadValue, PairsFit;
    if n == 0 {
      NoItemsFit();
    } else {
      ReadFits(data, p, room);
      var key := ReadValue(data, p, room);
      if key.Ok? {
        ReadFits(data, key.next, room);
        var val := ReadValue(data, key.next, room);
        if val.Ok? {
          ReadPairsFit(data, val.next, n - 1, room);
          var rest := ReadPairs(data, val.next, n - 1, room);
          if rest.Ok? {
            MorePairsFit(Pair(key.value, val.value), rest.value);
          }
        }
      }
    }
  }

  ghost predicate ItemsFit(items: seq<Value>)
  {
    forall k :: 0 <= k < |items| ==> SizesFit(items[k])
  }

  ghost predicate PairsFit(pairs: seq<Pair>)
  {
    forall k :: 0 <= k < |pairs| ==> SizesFit(pairs[k].key) && SizesFit(pairs[k].val)
  }

  lemma NoItemsFit()
    ensures ItemsFit([]) && PairsFit([])
  {
  }

  lemma MoreItemsFit(first: Value, rest: seq<Value>)
    requires SizesFit(first) && ItemsFit(rest)
    ensures ItemsFit([first] + rest)
  {
    hide SizesFit;
    var all := [first] + rest;
    forall k | 0 <= k < |all| ensures SizesFit(all[k]) {
      if k > 0 { assert all[k] == rest[k - 1]; }
    }
  }

  lemma MorePairsFit(first: Pair, rest: seq<Pair>)
    requires SizesFit(first.key) && SizesFit(first.val) && PairsFit(rest)
    ensures PairsFit([first] + rest)
  {
    hide SizesFit;
    var all := [first] + rest;
    forall k | 0 <= k < |all| ensures SizesFit(all[k].key) && SizesFit(all[k].val) {
      if k > 0 { assert all[k] == rest[k - 1]; }
    }
  }

  /** What a value needs to pass through the codec: 32-bit sizes and at most 32 nested containers. */
  predicate Decodable(v: Value)
  {
    SizesFit(v) && Depth(v) <= 32
  }

  /**
   * Round trip, exactly. Encoding a tree and decoding it, with any bytes behind it, gives the tree
   * back at the end of its encoding if and only if all its sizes fit the format (an ext payload
   * stays below 2^32 - 1) and no path holds more than 32 containers.
   */
  lemma RoundTripExactly(v: Value, suffix: seq<byte>)
    requires Typed(v)
    ensures (Run(Encode(v) + suffix, FRESH, 0).Finished?
             && Run(Encode(v) + suffix, FRESH, 0).v == v
             && Run(Encode(v) + suffix, FRESH, 0).off == |Encode(v)|)
            <==> SizesFit(v) && Depth(v) <= 32
  {
    hide Run, ReadValue, Typed, SizesFit, Encode;
    var data := Encode(v) + suffix;
    RunIsRead(data, 0);
    if SizesFit(v) {
      ReadEncoded(data, 0, v, STACK_SIZE);
    }
    ReadFits(data, 0, STACK_SIZE);
  }

  /** Past the depth limit the decoder fails, at the header of the first container that is too deep. */
  lemma TooDeepExactly(v: Value, suffix: seq<byte>)
    requires Typed(v) && SizesFit(v) && Depth(v) > 32
    ensures Run(Encode(v) + suffix, FRESH, 0).Failed?
    ensures Run(Encode(v) + suffix, FRESH, 0).code == -2
    ensures Run(Encode(v) + suffix, FRESH, 0).off == DeepAt(v, 32)
  {
    hide Run, ReadValue, Typed, SizesFit, Encode;
    var data := Encode(v) + suffix;
    RunIsRead(data, 0);
    ReadEncoded(data, 0, v, STACK_SIZE);
  }

  /**
   * No encoding is a proper prefix of another, and equal encodings come from equal values. This is
   * a fact about the format, for trees of any depth.
   */
  lemma PrefixFree(v: Value, w: Value, suffix: seq<byte>)
    requires Typed(v) && Typed(w) && SizesFit(v) && SizesFit(w)
    requires Encode(w) == Encode(v) + suffix
    ensures suffix == [] && v == w
  {
    hide ReadValue, Typed, SizesFit, Encode, Depth, DeepAt;
    var room := Max(Depth(v), Depth(w));
    assert At(Encode(w), 0, Encode(v)) && At(Encode(w), 0, Encode(w));
    ReadEncoded(Encode(w), 0, v, room);
    ReadEncoded(Encode(w), 0, w, room);
  }

  lemma ShorterIsPrefix(a: seq<byte>, x: seq<byte>, b: seq<byte>, y: seq<byte>)
    requires a + x == b + y && |a| <= |b|
    ensures b == a + b[|a|..]
  {
    assert a == (a + x)[..|a|] == (b + y)[..|a|] == b[..|a|];
  }

  /** So lists of values, written one behind the other, come apart in one way only. */
  lemma {:induction false} ListEncodingInjective(vs: seq<Value>, ws: seq<Value>)
    requires forall k :: 0 <= k < |vs| ==> Typed(vs[k]) && SizesFit(vs[k])
    requires forall k :: 0 <= k < |ws| ==> Typed(ws[k]) && SizesFit(ws[k])
    requires EncodeItems(vs) == EncodeItems(ws)
    ensures vs == ws
    decreases |vs|
  {
    hide Typed, SizesFit, Encode;
    if vs != [] && ws != [] {
      var first, first' := Encode(vs[0]), Encode(ws[0]);
      assert first + EncodeItems(vs[1..]) == first' + EncodeItems(ws[1..]);
      if |first| <= |first'| {
        ShorterIsPrefix(first, EncodeItems(vs[1..]), first', EncodeItems(ws[1..]));
        PrefixFree(vs[0], ws[0], first'[|first|..]);
      } else {
        ShorterIsPrefix(first', EncodeItems(ws[1..]), first, EncodeItems(vs[1..]));
        PrefixFree(ws[0], vs[0], first[|first'|..]);
      }
      assert EncodeItems(vs[1..]) == EncodeItems(vs)[|first|..];
      assert EncodeItems(ws[1..]) == EncodeItems(ws)[|first|..];
      ListEncodingInjective(vs[1..], ws[1..]);
      assert vs == [vs[0]] + vs[1..] && ws == [ws[0]] + ws[1..];
    }
  }

  /** Re-initialising after each finished value, up to the end of the data. */
  function DecodeStream(data: seq<byte>, p: nat): Parse<seq<Value>>
    requires p <= |data|
    decreases |data| - p
  {
    if p == |data| then Ok([], p)
    else
      match Run(data, FRESH, p)
      case Finished(v, _, q) =>
        var (rest, end) :- DecodeStream(data, q);
        Ok([v] + rest, end)
      case Paused(_, _) => More
      case Failed(code, _, q) => if code == PARSE_ERROR then Bad(q) else Deep(q)
  }

  lemma {:induction false} StreamSuffix(data: seq<byte>, p: nat, vs: seq<Value>)
    requires forall k :: 0 <= k < |vs| ==> Typed(vs[k]) && Decodable(vs[k])
    requires p <= |data| && data[p..] == EncodeItems(vs)
    ensures DecodeStream(data, p) == Ok(vs, |data|)
    decreases |vs|
  {
    hide Run, ReadValue, Typed, SizesFit, Encode;
    if vs == [] {
      assert |data[p..]| == 0;
    } else {
      var first, rest := vs[0], vs[1..];
      var bytes := Encode(first);
      assert data[p..] == bytes + EncodeItems(rest);
      assert At(data, p, bytes) by { assert data[p..p + |bytes|] == data[p..][..|bytes|]; }
      ReadEncoded(data, p, first, STACK_SIZE);
      RunIsRead(data, p);
      assert data[p + |bytes|..] == data[p..][|bytes|..] == EncodeItems(rest);
      StreamSuffix(data, p + |bytes|, rest);
      assert [first] + rest == vs;
    }
  }

  /** A stream of encodings decodes to exactly the values that were written, and to no other list. */
  lemma StreamsParseUniquely(vs: seq<Value>)
    requires forall k :: 0 <= k < |vs| ==> Typed(vs[k]) && Decodable(vs[k])
    ensures DecodeStream(EncodeItems(vs), 0) == Ok(vs, |EncodeItems(vs)|)
  {
    hide DecodeStream;
    StreamSuffix(EncodeItems(vs), 0, vs);
  }

  /** A leaf at the start is the whole result. */
  lemma LeafDecodes(data: seq<byte>, v: Value, q: nat)
    requires 0 < |data| && LeafAt(data, 0) == Whole(v, q)
    ensures Run(data, FRESH, 0).Finished? && Run(data, FRESH, 0).v == v && Run(data, FRESH, 0).off == q
  {
    hide Run, LeafAt;
    RunIsRead(data, 0);
  }

  /** The fixed-width integer encodings decode to their integer too. */
  lemma FixedWidthDecodes(signed: bool, w: nat, i: int, suffix: seq<byte>)
    requires w in {1, 2, 4, 8}
    requires if signed then FitsSigned(i, w) else 0 <= i < Pow256(w)
    ensures var r := Run(FixedBytes(signed, w, i) + suffix, FRESH, 0);
            r.Finished? && r.v == Int(i) && r.off == w + 1
  {
    hide Run, LeafAt, FixedBytes, FitsSigned, Pow256;
    var bytes := FixedBytes(signed, w, i);
    var data := bytes + suffix;
    FixedLength(signed, w, i);
    assert At(data, 0, bytes);
    FixedLeaf(data, 0, signed, w, i);
    LeafDecodes(data, Int(i), w + 1);
  }

  /** The older raw header decodes to the same string as the current one. */
  lemma RawDecodes(s: seq<byte>, suffix: seq<byte>)
    requires |s| < TWO_32
    ensures var r := Run(RawHeader(|s|) + s + suffix, FRESH, 0);
            r.Finished? && r.v == Str(s) && r.off == |RawHeader(|s|)| + |s|
  {
    hide Run, LeafAt, RawHeader, BlobForm;
    var header := RawHeader(|s|);
    var data := header + s + suffix;
    assert At(data, 0, header + s);
    RawForm(|s|);
    BlobLeaf(data, 0, header, StrBlob, |s|, s);
    LeafDecodes(data, Str(s), |header| + |s|);
  }

  /**
   * The one length the format allows and the decoder cannot take: an ext of 2^32 - 1 bytes. With
   * its type byte the count wraps to zero, and the header alone finishes as an empty slice.
   */
  lemma ExtLengthWraps(suffix: seq<byte>)
    ensures var r := Run([0xc9, 0xff, 0xff, 0xff, 0xff] + suffix, FRESH, 0);
            r.Finished? && r.v == Ext([]) && r.off == 5
  {
    hide Run, LeafAt;
    var header: seq<byte> := [0xc9, 0xff, 0xff, 0xff, 0xff];
    var data := header + suffix;
    AllOnes();
    assert data == header + suffix && At(data, 0, header + []);
    BlobLeaf(data, 0, header, ExtBlob, TWO_32 - 1, []);
    LeafDecodes(data, Ext([]), 5);
  }

  lemma AllOnes()
    ensures BlobForm([0xc9, 0xff, 0xff, 0xff, 0xff], ExtBlob, TWO_32 - 1)
  {
    Pow256Values();
    OneDigit(0xff);
    assert BigEndian(0xffff, 2) == BigEndian(0xff, 1) + [0xff];
    assert BigEndian(0xff_ffff, 3) == BigEndian(0xffff, 2) + [0xff];
    assert BigEndian(TWO_32 - 1, 4) == BigEndian(0xff_ffff, 3) + [0xff];
  }
}
