/** Bytes and the big-endian, base-256 reading of byte strings. */
module Bytes {

  type byte = x: int | 0 <= x < 256

  const TWO_16: int := 0x1_0000
  const TWO_32: int := 0x1_0000_0000
  const TWO_63: int := 0x8000_0000_0000_0000
  const TWO_64: int := 0x1_0000_0000_0000_0000

  function Pow256(w: nat): (r: int)
    ensures r >= 1
  {
    if w == 0 then 1 else 256 * Pow256(w - 1)
  }

  lemma Pow256Values()
    ensures Pow256(1) == 256 && Pow256(2) == TWO_16 && Pow256(4) == TWO_32 && Pow256(8) == TWO_64
    ensures 2 * TWO_63 == TWO_64
  {
    assert Pow256(3) == 256 * Pow256(2);
    assert Pow256(5) == 256 * Pow256(4);
    assert Pow256(6) == 256 * Pow256(5);
    assert Pow256(7) == 256 * Pow256(6);
  }

  /** The `w` low-order base-256 digits of `n`, most significant first. */
  function BigEndian(n: nat, w: nat): (s: seq<byte>)
    ensures |s| == w
  {
    if w == 0 then [] else BigEndian(n / 256, w - 1) + [n % 256]
  }

  /** The number whose base-256 digits are `s`, most significant first. */
  function FromBigEndian(s: seq<byte>): nat
  {
    if s == [] then 0 else FromBigEndian(s[..|s| - 1]) * 256 + s[|s| - 1]
  }

  lemma {:induction false} FromBigEndianBound(s: seq<byte>)
    ensures FromBigEndian(s) < Pow256(|s|)
  {
    if s == [] {
    } else {
      FromBigEndianBound(s[..|s| - 1]);
    }
  }

  /** Writing the digits and reading them back keeps the number modulo the width. */
  lemma {:induction false} ReadBack(n: nat, w: nat)
    ensures FromBigEndian(BigEndian(n, w)) == n % Pow256(w)
  {
    if w == 0 {
    } else {
      var s := BigEndian(n, w);
      assert s[..|s| - 1] == BigEndian(n / 256, w - 1);
      ReadBack(n / 256, w - 1);
      DivMod(n, Pow256(w - 1));
    }
  }

  lemma DivMod(n: nat, m: int)
    requires m >= 1
    ensures n % (256 * m) == (n / 256) % m * 256 + n % 256
  {
    var h := n / 256;
    var q, r := h / m, h % m;
    assert h == q * m + r;
    assert q * (256 * m) == (q * m) * 256;
    Remainder(n, 256 * m, q, r * 256 + n % 256);
  }

  lemma Remainder(n: int, m: int, q: int, r: int)
    requires 0 <= r < m && n == q * m + r
    ensures n % m == r && n / m == q
  {
    var q', r' := n / m, n % m;
    assert n == q' * m + r';
    assert (q - q') * m == q * m - q' * m == -((q' - q) * m);
    if q > q' {
      AtLeastOnce(q - q', m);
    } else if q < q' {
      AtLeastOnce(q' - q, m);
    }
  }

  lemma AtLeastOnce(a: int, m: int)
    requires a >= 1 && m >= 0
    ensures a * m >= m
  {
    assert (a - 1) * m >= 0;
    assert a * m == (a - 1) * m + m;
  }

  /** Reading the digits and writing them back gives the same string. */
  lemma {:induction false} WriteBack(s: seq<byte>)
    ensures BigEndian(FromBigEndian(s), |s|) == s
  {
    if s == [] {
    } else {
      WriteBack(s[..|s| - 1]);
      assert s == s[..|s| - 1] + [s[|s| - 1]];
    }
  }

  /** Two's complement: the signed value of a `w`-byte word, and the word of a signed value. */
  function ToSigned(n: nat, w: nat): int
  {
    if 2 * n < Pow256(w) then n else n - Pow256(w)
  }

  function ToUnsigned(i: int, w: nat): nat
  {
    i % Pow256(w)
  }

  predicate FitsSigned(i: int, w: nat)
  {
    -Pow256(w) <= 2 * i < Pow256(w)
  }

  lemma SignedRoundTrip(i: int, w: nat)
    requires FitsSigned(i, w)
    ensures ToSigned(ToUnsigned(i, w), w) == i
    ensures ToUnsigned(i, w) == if i >= 0 then i else i + Pow256(w)
  {
    var m := Pow256(w);
    Remainder(i, m, if i >= 0 then 0 else -1, if i >= 0 then i else i + m);
  }

  lemma UnsignedIsItself(i: int, w: nat)
    requires 0 <= i < Pow256(w)
    ensures ToUnsigned(i, w) == i
  {
    Remainder(i, Pow256(w), 0, i);
  }

  lemma OneDigit(n: byte)
    ensures BigEndian(n, 1) == [n]
  {
    assert BigEndian(n, 1) == BigEndian(0, 0) + [n];
  }

  /** Digits beyond the width do not show. */
  lemma DigitsTruncate(n: nat, w: nat)
    ensures BigEndian(ToUnsigned(n, w), w) == BigEndian(n, w)
  {
    ReadBack(n, w);
    WriteBack(BigEndian(n, w));
  }

  /** `s` stands in `data` at position `p`. */
  predicate At(data: seq<byte>, p: nat, s: seq<byte>)
  {
    p + |s| <= |data| && data[p..p + |s|] == s
  }

  lemma AtSplit(data: seq<byte>, p: nat, a: seq<byte>, b: seq<byte>)
    ensures At(data, p, a + b) <==> At(data, p, a) && At(data, p + |a|, b)
  {
    if At(data, p, a + b) {
      assert data[p..p + |a|] == (a + b)[..|a|] == a;
      assert data[p + |a|..p + |a| + |b|] == (a + b)[|a|..] == b;
    }
  }
}
