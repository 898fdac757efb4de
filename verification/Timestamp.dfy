/** The timestamp extension: `_timestamp` writes it, `msgpack_object_to_timestamp` reads it. */
module Timestamp {
  import opened Bytes
  import opened Options
  import opened Values
  import opened Sysdep
  import opened Encoding
  import opened Packer
  import opened Machine
  import opened RoundTrip

  datatype Time = Time(sec: int, nsec: nat)

  /** What the C struct can hold: an int64 and a uint32. */
  predicate ValidTime(t: Time)
  {
    -TWO_63 <= t.sec < TWO_63 && t.nsec < TWO_32
  }

  const NSEC_LIMIT: int := 0x4000_0000    // 2^30
  const SEC_LIMIT: int := 0x4_0000_0000   // 2^34

  /** Nanoseconds above the seconds in one 64-bit word, as the code shifts and ors them. */
  function Data64(t: Time): nat
    requires 0 <= t.sec
  {
    Or(Shl(t.nsec, 34, 64), t.sec)
  }

  /** The payload of the form the code chooses. */
  function Payload(t: Time): (s: seq<byte>)
    requires ValidTime(t)
    ensures |s| in {4, 8, 12}
  {
    if t.sec / SEC_LIMIT == 0 then
      if And(Data64(t), 0xffff_ffff_0000_0000) == 0 then BigEndian(Data64(t), 4)
      else BigEndian(Data64(t), 8)
    else BigEndian(t.nsec, 4) + BigEndian(ToUnsigned(t.sec, 8), 8)
  }

  /** The ext object a timestamp becomes: type -1, then the payload. */
  function ToExt(t: Time): (v: Value)
    requires ValidTime(t)
    ensures Typed(v) && SizesFit(v) && Depth(v) == 0
  {
    Ext([0xff] + Payload(t))
  }

  /** The reader, by case on the payload's size. */
  function FromExt(v: Value): Option<Time>
    requires Typed(v)
  {
    if !v.Ext? || ToSigned(v.body[0], 1) != -1 then None
    else
      var payload := v.body[1..];
      if |payload| == 4 then Some(Time(Loaded(payload), 0))
      else if |payload| == 8 then
        var value := Loaded(payload);
        Some(Time(And(value, 0x3_ffff_ffff), Shr(value, 34) % TWO_32))
      else if |payload| == 12 then
        Some(Time(ToSigned(Loaded(payload[4..]), 8), Loaded(payload[..4])))
      else None
  }

  lemma Pow34()
    ensures Pow2(34) == SEC_LIMIT && Pow2(30) == NSEC_LIMIT && Pow2(32) == TWO_32 && Pow2(64) == TWO_64
  {
    Pow2Values();
    Pow2Sum(24, 6);
    Pow2Sum(32, 2);
  }

  /** The word the code builds: nanoseconds beyond 30 bits are shifted out. */
  lemma Data64Value(t: Time)
    requires ValidTime(t) && 0 <= t.sec < SEC_LIMIT
    ensures Data64(t) == t.nsec % NSEC_LIMIT * SEC_LIMIT + t.sec < TWO_64
  {
    hide Or, Pow2;
    Pow34();
    var low := t.nsec % NSEC_LIMIT;
    Remainder(t.nsec * SEC_LIMIT, TWO_64, t.nsec / NSEC_LIMIT, low * SEC_LIMIT);
    OrDisjoint(low, t.sec, 34);
  }

  /** The test for the 4-byte form. */
  lemma HighWordZero(x: nat)
    requires x < TWO_64
    ensures And(x, 0xffff_ffff_0000_0000) == 0 <==> x < TWO_32
  {
    hide And, Pow2;
    Pow34();
    MaskBits(x, 32, 32);
    Remainder(x / TWO_32, TWO_32, 0, x / TWO_32);
  }

  /** Masking the seconds out and shifting the nanoseconds down. */
  lemma SplitData64(x: nat)
    ensures And(x, 0x3_ffff_ffff) == x % SEC_LIMIT && Shr(x, 34) == x / SEC_LIMIT
  {
    hide And, Pow2, Shr;
    Pow34();
    AndOnes(x, 34);
    ShrIsDivision(x, 34);
  }

  /** In range of the 8-byte form, or left to the 12-byte form. */
  predicate Exact(t: Time)
  {
    t.nsec < NSEC_LIMIT || t.sec < 0 || t.sec >= SEC_LIMIT
  }

  /** What reading back gives, for every int64 and every uint32. */
  lemma ReadsBack(t: Time)
    requires ValidTime(t)
    ensures FromExt(ToExt(t)) == Some(if Exact(t) then t else t.(nsec := t.nsec % NSEC_LIMIT))
  {
    hide Or, And, Pow2, Loaded, Data64, Shl, Shr, BigEndian, FromBigEndian;
    Pow256Values();
    var payload := Payload(t);
    assert ([0xff] + payload)[1..] == payload;
    assert ToSigned(0xff, 1) == -1;
    if 0 <= t.sec < SEC_LIMIT {
      Data64Value(t);
      var x := Data64(t);
      HighWordZero(x);
      LoadIsBigEndian(payload);
      ReadBack(x, |payload|);
      Remainder(x, Pow256(|payload|), 0, x);
      SplitData64(x);
      Remainder(x, SEC_LIMIT, t.nsec % NSEC_LIMIT, t.sec);
    } else {
      var sec := ToUnsigned(t.sec, 8);
      assert payload[..4] == BigEndian(t.nsec, 4) && payload[4..] == BigEndian(sec, 8);
      LoadIsBigEndian(payload[..4]);
      LoadIsBigEndian(payload[4..]);
      ReadBack(t.nsec, 4);
      ReadBack(sec, 8);
      Remainder(t.nsec, TWO_32, 0, t.nsec);
      SignedRoundTrip(t.sec, 8);
      Remainder(sec, TWO_64, 0, sec);
    }
  }

  /**
   * The round trip is exact if and only if the nanoseconds fit 30 bits or the seconds do not fit
   * 34: with seconds in [0, 2^34) and 2^30 or more nanoseconds the high bits are lost.
   */
  lemma TimestampRoundTripExactly(t: Time)
    requires ValidTime(t)
    ensures FromExt(ToExt(t)) == Some(t) <==> Exact(t)
  {
    ReadsBack(t);
  }

  /** Two billion nanoseconds past the epoch: written in the 8-byte form, read back as less. */
  lemma TimestampLosesBits()
    ensures ValidTime(Time(1, 2_000_000_000))
    ensures FromExt(ToExt(Time(1, 2_000_000_000))) == Some(Time(1, 926_258_176))
  {
    ReadsBack(Time(1, 2_000_000_000));
  }

  /** No payload that reads as the same time is shorter than the one written. */
  lemma TimestampShortest(t: Time, body: seq<byte>)
    requires ValidTime(t) && |body| >= 1
    ensures FromExt(Ext(body)) == Some(t) ==> |body| - 1 >= |Payload(t)|
  {
    hide Or, And, Pow2, Loaded, Data64, Shl, Shr, BigEndian, FromBigEndian;
    Pow256Values();
    var payload := body[1..];
    if FromExt(Ext(body)) == Some(t) {
      if |payload| == 4 {
        LoadIsBigEndian(payload);
        FromBigEndianBound(payload);
        Data64Value(t);
        HighWordZero(Data64(t));
      } else if |payload| == 8 {
        var value := Loaded(payload);
        SplitData64(value);
      }
    }
  }

  /** Which of the three payloads is written. */
  lemma PayloadSize(t: Time)
    requires ValidTime(t)
    ensures |Payload(t)| ==
            if t.sec < 0 || t.sec >= 0x4_0000_0000 then 12
            else if t.sec < 0x1_0000_0000 && t.nsec % 0x4000_0000 == 0 then 4
            else 8
  {
    hide And, Or, Pow2, BigEndian, Data64;
    if 0 <= t.sec < SEC_LIMIT {
      Data64Value(t);
      HighWordZero(Data64(t));
    }
  }

  /**
   * The reader on every object: exactly the exts of type -1 with a payload of 4, 8 or 12 bytes are
   * timestamps, and these are the times they stand for, whoever wrote them.
   */
  lemma ReaderExactly(v: Value)
    requires Typed(v)
    ensures FromExt(v).Some? <==> v.Ext? && v.body[0] == 0xff && |v.body| in {5, 9, 13}
    ensures FromExt(v).Some? ==>
              FromExt(v).value ==
              if |v.body| == 5 then Time(FromBigEndian(v.body[1..]), 0)
              else if |v.body| == 9 then
                var word := FromBigEndian(v.body[1..]); Time(word % 0x4_0000_0000, word / 0x4_0000_0000)
              else Time(ToSigned(FromBigEndian(v.body[5..]), 8), FromBigEndian(v.body[1..5]))
  {
    hide And, Or, Pow2, Shr, Loaded, FromBigEndian;
    Pow256Values();
    if FromExt(v).Some? {
      var payload := v.body[1..];
      if |payload| == 12 {
        LoadIsBigEndian(payload[..4]);
        LoadIsBigEndian(payload[4..]);
        assert payload[..4] == v.body[1..5] && payload[4..] == v.body[5..];
      } else {
        LoadIsBigEndian(payload);
        FromBigEndianBound(payload);
        SplitData64(FromBigEndian(payload));
      }
    }
  }

  /** The whole path: packed bytes, decoded as an object, read as a timestamp. */
  lemma TimestampThroughCodec(t: Time, suffix: seq<byte>)
    requires ValidTime(t)
    ensures var r := Run(Encode(ToExt(t)) + suffix, FRESH, 0);
            && r.Finished? && r.v == ToExt(t) && r.off == |Encode(ToExt(t))|
            && (FromExt(r.v) == Some(t) <==> Exact(t))
  {
    hide Run, Encode, ToExt, FromExt;
    RoundTripExactly(ToExt(t), suffix);
    TimestampRoundTripExactly(t);
  }

  lemma EncodedTime(t: Time)
    requires ValidTime(t)
    ensures Encode(ToExt(t)) == ExtHeader(|Payload(t)|, 0xff) + Payload(t)
  {
    hide Payload, ExtHeader;
    assert ([0xff] + Payload(t))[1..] == Payload(t);
  }

  /** `_timestamp`: the ext header, then a payload built by stores into a local buffer. */
  method PackTimestamp(x: Packer, t: Time)
    requires ValidTime(t)
    modifies x
    ensures x.out == old(x.out) + Encode(ToExt(t))
  {
    hide Or, And, Pow2, Data64, BigEndian, ToUnsigned, Encode, ExtHeader;
    EncodedTime(t);
    var buf;
    if t.sec / SEC_LIMIT == 0 {
      var data64 := Data64(t);
      if And(data64, 0xffff_ffff_0000_0000) == 0 {
        x.PackExt(4, -1);
        buf := WordBuffer(data64, 4);
        DigitsTruncate(data64, 4);
      } else {
        x.PackExt(8, -1);
        buf := WordBuffer(data64, 8);
        DigitsTruncate(data64, 8);
      }
    } else {
      buf := Buffer96(t);
      x.PackExt(12, -1);
    }
    x.Append(buf, buf.Length);
  }

  /** A local buffer filled by one store. */
  method WordBuffer(num: int, w: nat) returns (buf: array<byte>)
    requires w in {4, 8}
    ensures fresh(buf) && buf[..buf.Length] == BigEndian(ToUnsigned(num, w), w)
  {
    hide BigEndian, ToUnsigned;
    buf := new byte[w];
    Store(buf, 0, num, w);
  }

  /** Nanoseconds in four bytes, then seconds in eight. */
  method Buffer96(t: Time) returns (buf: array<byte>)
    requires ValidTime(t)
    ensures fresh(buf) && buf[..buf.Length] == BigEndian(t.nsec, 4) + BigEndian(ToUnsigned(t.sec, 8), 8)
  {
    hide BigEndian, ToUnsigned;
    buf := new byte[12];
    Store(buf, 0, t.nsec, 4);
    DigitsTruncate(t.nsec, 4);
    assert buf[..4] == BigEndian(t.nsec, 4);
    Store(buf, 4, t.sec, 8);
    assert buf[..4] == BigEndian(t.nsec, 4);
  }

  class Timestamp {
    var sec: int
    var nsec: nat

    constructor () { sec, nsec := 0, 0; }

    /** `msgpack_object_to_timestamp`: false leaves the target as it was. */
    method FromObject(obj: Value) returns (ok: bool)
      requires Typed(obj)
      modifies this
      ensures ok == FromExt(obj).Some?
      ensures Time(sec, nsec) == if ok then FromExt(obj).value else old(Time(sec, nsec))
    {
      hide Or, And, Pow2, Loaded, Shr;
      if !obj.Ext? { return false; }
      if ToSigned(obj.body[0], 1) != -1 { return false; }
      var ptr := obj.body[1..];
      match |ptr|
      case 4 =>
        nsec := 0;
        sec := Loaded(ptr);
        return true;
      case 8 =>
        var value := Loaded(ptr);
        nsec := Shr(value, 34) % TWO_32;
        sec := And(value, 0x3_ffff_ffff);
        return true;
      case 12 =>
        nsec := Loaded(ptr[..4]);
        sec := ToSigned(Loaded(ptr[4..]), 8);
        return true;
      case _ =>
        return false;
    }
  }
}
