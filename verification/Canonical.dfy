/** Facts about every byte string that decodes, not only about the packer's own output. */
module Canonical {
  import opened Bytes
  import opened Values
  import opened Format
  import opened Encoding
  import opened Machine
  import opened Refinement

  /**
   * The depth limit decides by the value alone: bytes that read as `v` with some limit read as
   * `v` with exactly the limits that are at least the depth of `v`.
   */
  lemma {:induction false} ReadByDepth(data: seq<byte>, p: nat, room: nat, room': nat)
    requires ReadValue(data, p, room).Ok?
    ensures var r, r' := ReadValue(data, p, room), ReadValue(data, p, room');
            && Depth(r.value) <= room
            && (if Depth(r.value) <= room' then r' == r else r'.Deep?)
    decreases |data| - p, 0
  {
    hide LeafAt;
    var leaf := LeafAt(data, p);
    if leaf.Whole? {
      LeafDepth(data, p);
    } else {
      ReadBoxByDepth(data, leaf.next, leaf.isMap, leaf.n, room, room');
    }
  }

  lemma {:induction false} ReadBoxByDepth(data: seq<byte>, q: nat, isMap: bool, n: nat, room: nat, room': nat)
    requires 1 <= q <= |data| && ReadBox(data, q, isMap, n, room).Ok?
    ensures var r, r' := ReadBox(data, q, isMap, n, room), ReadBox(data, q, isMap, n, room');
            && Depth(r.value) <= room
            && (if Depth(r.value) <= room' then r' == r else r'.Deep?)
    decreases |data| - q, 2
  {
    hide ReadItems, ReadPairs, ItemsDepth, PairsDepth;
    var inner := if room' > 0 then room' - 1 else room - 1;
    if isMap {
      ReadPairsByDepth(data, q, n, room - 1, inner);
    } else {
      ReadItemsByDepth(data, q, n, room - 1, inner);
    }
  }

  lemma LeafDepth(data: seq<byte>, p: nat)
    requires p < |data| && LeafAt(data, p).Whole?
    ensures var v := LeafAt(data, p).v; !v.Array? && !v.Map? && Depth(v) == 0
  {
  }

  lemma {:induction false} ReadItemsByDepth(data: seq<byte>, p: nat, n: nat, room: nat, room': nat)
    requires p <= |data| && ReadItems(data, p, n, room).Ok?
    ensures var r, r' := ReadItems(data, p, n, room), ReadItems(data, p, n, room');
            && ItemsDepth(r.value) <= room
            && (if ItemsDepth(r.value) <= room' then r' == r else r'.Deep?)
    decreases |data| - p, 1
  {
    hide ReadValue, Depth;
    if n > 0 {
      var first := ReadValue(data, p, room);
      ReadByDepth(data, p, room, room');
      ReadItemsByDepth(data, first.next, n - 1, room, room');
      var rest := ReadItems(data, first.next, n - 1, room).value;
      assert ([first.value] + rest)[1..] == rest;
    }
  }

  lemma {:induction false} ReadPairsByDepth(data: seq<byte>, p: nat, n: nat, room: nat, room': nat)
    requires p <= |data| && ReadPairs(data, p, n, room).Ok?
    ensures var r, r' := ReadPairs(data, p, n, room), ReadPairs(data, p, n, room');
            && PairsDepth(r.value) <= room
            && (if PairsDepth(r.value) <= room' then r' == r else r'.Deep?)
    decreases |data| - p, 1
  {
    hide ReadValue, Depth;
    if n > 0 {
      var key := ReadValue(data, p, room);
      ReadByDepth(data, p, room, room');
      var val := ReadValue(data, key.next, room);
      ReadByDepth(data, key.next, room, room');
      ReadPairsByDepth(data, val.next, n - 1, room, room');
      var rest := ReadPairs(data, val.next, n - 1, room).value;
      assert ([Pair(key.value, val.value)] + rest)[1..] == rest;
    }
  }

  /**
   * Bytes that are well formed when nesting is unlimited decode if and only if their value holds
   * at most 32 containers on any path; otherwise the decoder reports NOMEM_ERROR.
   */
  lemma DepthLimitExactly(data: seq<byte>, room: nat)
    requires ReadValue(data, 0, room).Ok?
    ensures var v, q := ReadValue(data, 0, room).value, ReadValue(data, 0, room).next;
            var run := Run(data, FRESH, 0);
            if Depth(v) <= 32 then run.Finished? && run.v == v && run.off == q
            else run.Failed? && run.code == -2
  {
    hide Run, ReadValue, Depth;
    ReadByDepth(data, 0, room, STACK_SIZE);
    RunIsRead(data, 0);
  }

  lemma NumberLength(kind: NumberKind, word: seq<byte>)
    requires |word| in {1, 2, 4, 8} && (kind == Float ==> |word| >= 4)
    ensures var v := NumberValue(kind, word); Typed(v) && |Encode(v)| <= 1 + |word|
  {
    Pow256Values();
    FromBigEndianBound(word);
  }

  lemma BlobLength(kind: BlobKind, w: nat, len: nat, body: seq<byte>)
    requires w in {1, 2, 4} && len < Pow256(w) && |body| == BlobSize(kind, len)
    ensures var v := BlobValue(kind, body); Typed(v) ==> |Encode(v)| <= 1 + w + |body|
  {
    hide BigEndian, Pow256;
    Pow256Values();
  }

  /** No leaf is shorter than the packer's form of it. */
  lemma LeafShortest(data: seq<byte>, p: nat)
    requires p < |data| && LeafAt(data, p).Whole?
    ensures var leaf := LeafAt(data, p); Typed(leaf.v) ==> |Encode(leaf.v)| <= leaf.next - p
  {
    hide BigEndian, FromBigEndian, NumberValue;
    var head := HeadOf(data[p]);
    match head {
      case Scalar(_) =>
      case Number(kind, w) => hide HeadOf; NumberWidth(data[p]); NumberLength(kind, data[p + 1..p + 1 + w]);
      case FixedBlob(_, _) => hide HeadOf; FixedBlobSizes(data[p]);
      case SizedBlob(_, _) => SizedBlobShortest(data, p);
    }
  }

  lemma NumberWidth(b: byte)
    requires HeadOf(b).Number?
    ensures HeadOf(b).width in {1, 2, 4, 8} && (HeadOf(b).kind == Float ==> HeadOf(b).width >= 4)
  {
  }

  lemma SizedBlobWidth(b: byte)
    requires HeadOf(b).SizedBlob?
    ensures HeadOf(b).width in {1, 2, 4}
  {
  }

  lemma SizedBlobShortest(data: seq<byte>, p: nat)
    requires p < |data| && HeadOf(data[p]).SizedBlob? && LeafAt(data, p).Whole?
    ensures var leaf := LeafAt(data, p); Typed(leaf.v) ==> |Encode(leaf.v)| <= leaf.next - p
  {
    hide BigEndian, FromBigEndian, HeadOf, Encode, BlobValue;
    SizedBlobWidth(data[p]);
    var head := HeadOf(data[p]);
    var w := head.width;
    var word := data[p + 1..p + 1 + w];
    FromBigEndianBound(word);
    var len := FromBigEndian(word);
    BlobLength(head.blob, w, len, data[p + 1 + w..p + 1 + w + BlobSize(head.blob, len)]);
  }

  lemma FixedBlobSizes(b: byte)
    requires HeadOf(b).FixedBlob?
    ensures var head := HeadOf(b);
            if head.blob == ExtBlob then head.size in {2, 3, 5, 9, 17} else head.blob == StrBlob && head.size < 32
  {
  }

  lemma HeaderShortest(data: seq<byte>, p: nat)
    requires p < |data| && LeafAt(data, p).Header?
    ensures var leaf := LeafAt(data, p);
            |ArrayHeader(leaf.n)| <= leaf.next - p && |MapHeader(leaf.n)| <= leaf.next - p
  {
    hide BigEndian;
    Pow256Values();
    var head := HeadOf(data[p]);
    if head.FixedBox? {
      assert 0x80 <= data[p] < 0xa0;
    } else {
      FromBigEndianBound(data[p + 1..p + 1 + head.width]);
    }
  }

  /**
   * The packer's encoding is the shortest: whatever bytes read as a value, of any kind and with
   * any nesting, are at least as long as what the packer emits for that value.
   */
  lemma {:induction false} EncodingShortest(data: seq<byte>, p: nat, room: nat)
    requires ReadValue(data, p, room).Ok?
    ensures var r := ReadValue(data, p, room); Typed(r.value) ==> |Encode(r.value)| <= r.next - p
    decreases |data| - p, 0
  {
    hide LeafAt, ArrayHeader, MapHeader, IntBytes, StrHeader, BinHeader, ExtHeader;
    var leaf := LeafAt(data, p);
    if leaf.Whole? {
      LeafShortest(data, p);
    } else {
      HeaderShortest(data, p);
      if leaf.isMap {
        PairsShortest(data, leaf.next, leaf.n, room - 1);
      } else {
        ItemsShortest(data, leaf.next, leaf.n, room - 1);
      }
    }
  }

  lemma {:induction false} ItemsShortest(data: seq<byte>, p: nat, n: nat, room: nat)
    requires p <= |data| && ReadItems(data, p, n, room).Ok?
    ensures var r := ReadItems(data, p, n, room);
            (forall k :: 0 <= k < n ==> Typed(r.value[k])) ==> |EncodeItems(r.value)| <= r.next - p
    decreases |data| - p, 1
  {
    hide ReadValue, Typed, Encode;
    if n > 0 {
      var first := ReadValue(data, p, room);
      EncodingShortest(data, p, room);
      ItemsShortest(data, first.next, n - 1, room);
      var rest := ReadItems(data, first.next, n - 1, room).value;
      var all := [first.value] + rest;
      assert all[1..] == rest && all[0] == first.value;
      assert forall k :: 0 <= k < n - 1 ==> rest[k] == all[k + 1];
    }
  }

  lemma {:induction false} PairsShortest(data: seq<byte>, p: nat, n: nat, room: nat)
    requires p <= |data| && ReadPairs(data, p, n, room).Ok?
    ensures var r := ReadPairs(data, p, n, room);
            (forall k :: 0 <= k < n ==> Typed(r.value[k].key) && Typed(r.value[k].val))
            ==> |EncodePairs(r.value)| <= r.next - p
    decreases |data| - p, 1
  {
    hide ReadValue, Typed, Encode;
    if n > 0 {
      var key := ReadValue(data, p, room);
      EncodingShortest(data, p, room);
      var val := ReadValue(data, key.next, room);
      EncodingShortest(data, key.next, room);
      PairsShortest(data, val.next, n - 1, room);
      var rest := ReadPairs(data, val.next, n - 1, room).value;
      var all := [Pair(key.value, val.value)] + rest;
      assert all[1..] == rest && all[0] == Pair(key.value, val.value);
      assert forall k :: 0 <= k < n - 1 ==> rest[k] == all[k + 1];
    }
  }
}
