/**
 * Byte order on a little-endian host: the mask-and-shift swaps of sysdep.h, and the loads and
 * stores built from them. Words are numbers; `&`, `|` and the shifts are defined on their bits.
 */
module Sysdep {
  import opened Bytes

  function Pow2(k: nat): (r: nat)
    ensures r >= 1
  {
    if k == 0 then 1 else 2 * Pow2(k - 1)
  }

  function And(x: nat, y: nat): nat
  {
    if x == 0 then 0 else 2 * And(x / 2, y / 2) + (x % 2) * (y % 2)
  }

  function Or(x: nat, y: nat): nat
    decreases x + y
  {
    if x == 0 then y
    else if y == 0 then x
    else 2 * Or(x / 2, y / 2) + (if x % 2 == 1 || y % 2 == 1 then 1 else 0)
  }

  /** `x << k` in a word of `width` bits, and `x >> k`. */
  function Shl(x: nat, k: nat, width: nat): nat
  {
    x * Pow2(k) % Pow2(width)
  }

  function Shr(x: nat, k: nat): nat
  {
    if k == 0 then x else Shr(x / 2, k - 1)
  }

  // _msgpack_be16, _msgpack_be32 and _msgpack_be64 (sysdep.h:117-119, 131-135, 146-154)

  function Be16(x: nat): nat
  {
    Or(Shl(x, 8, 16), Shr(x, 8))
  }

  function Be32(x: nat): nat
  {
    Or(Or(Or(Shl(x, 24, 32),
             And(Shl(x, 8, 32), 0x00ff_0000)),
          And(Shr(x, 8), 0x0000_ff00)),
       Shr(x, 24))
  }

  function Be64(x: nat): nat
  {
    Or(Or(Or(Or(Or(Or(Or(Shl(x, 56, 64),
                         And(Shl(x, 40, 64), 0x00ff_0000_0000_0000)),
                      And(Shl(x, 24, 64), 0x0000_ff00_0000_0000)),
                   And(Shl(x, 8, 64), 0x0000_00ff_0000_0000)),
                And(Shr(x, 8), 0x0000_0000_ff00_0000)),
             And(Shr(x, 24), 0x0000_0000_00ff_0000)),
          And(Shr(x, 40), 0x0000_0000_0000_ff00)),
       Shr(x, 56))
  }

  lemma {:induction false} AndOnes(x: nat, j: nat)
    ensures And(x, Pow2(j) - 1) == x % Pow2(j)
    decreases j
  {
    hide And, Pow2;
    if j == 0 {
      Pow2Zero();
      AndZero(x);
    } else {
      Pow2Step(j);
      AndOnes(x / 2, j - 1);
      AndHalves(x, Pow2(j - 1));
      ModHalves(x, Pow2(j - 1));
    }
  }

  lemma Pow2Zero()
    ensures Pow2(0) == 1
  {
  }

  lemma AndHalves(x: nat, m: nat)
    requires m >= 1
    ensures And(x, 2 * m - 1) == 2 * And(x / 2, m - 1) + x % 2
  {
    assert (2 * m - 1) / 2 == m - 1 && (2 * m - 1) % 2 == 1;
  }

  lemma ModHalves(x: nat, m: nat)
    requires m >= 1
    ensures x % (2 * m) == 2 * (x / 2 % m) + x % 2
  {
    var h := x / 2;
    assert h == (h / m) * m + h % m;
    assert (h / m) * (2 * m) == 2 * ((h / m) * m);
    Remainder(x, 2 * m, h / m, 2 * (h % m) + x % 2);
  }

  lemma {:induction false} AndZero(x: nat)
    ensures And(x, 0) == 0
  {
    if x > 0 {
      AndZero(x / 2);
    }
  }

  /** Masking out the `j` bits from bit `k` on. */
  lemma {:induction false} MaskBits(x: nat, j: nat, k: nat)
    ensures And(x, (Pow2(j) - 1) * Pow2(k)) == x / Pow2(k) % Pow2(j) * Pow2(k)
  {
    if k == 0 {
      AndOnes(x, j);
    } else if x > 0 {
      MaskBits(x / 2, j, k - 1);
      MaskHalves(x, Pow2(j) - 1, Pow2(k - 1));
      HalfThenShift(x, Pow2(k - 1));
      hide And, Pow2;
      assert Pow2(k) == 2 * Pow2(k - 1) by { Pow2Step(k); }
      Twice(x / Pow2(k) % Pow2(j), Pow2(k - 1));
    } else {
      Remainder(0, Pow2(k), 0, 0);
      Remainder(0, Pow2(j), 0, 0);
    }
  }

  lemma Pow2Step(k: nat)
    requires k >= 1
    ensures Pow2(k) == 2 * Pow2(k - 1)
  {
  }

  lemma Twice(b: nat, m: nat)
    ensures 2 * (b * m) == b * (2 * m)
  {
  }

  lemma MaskHalves(x: nat, ones: nat, m: nat)
    requires x > 0
    ensures And(x, ones * (2 * m)) == 2 * And(x / 2, ones * m)
  {
    Twice(ones, m);
    assert (ones * (2 * m)) / 2 == ones * m && (ones * (2 * m)) % 2 == 0;
  }

  lemma HalfThenShift(x: nat, m: nat)
    requires m >= 1
    ensures x / 2 / m == x / (2 * m)
  {
    var h := x / 2;
    assert h == (h / m) * m + h % m;
    assert (h / m) * (2 * m) == 2 * ((h / m) * m);
    Remainder(x, 2 * m, h / m, 2 * (h % m) + x % 2);
  }

  lemma {:induction false} ShrIsDivision(x: nat, k: nat)
    ensures Shr(x, k) == x / Pow2(k)
  {
    if k > 0 {
      ShrIsDivision(x / 2, k - 1);
      HalfThenShift(x, Pow2(k - 1));
    }
  }

  /** `|` of words with no bit in common is a sum. */
  lemma {:induction false} OrDisjoint(a: nat, b: nat, k: nat)
    requires b < Pow2(k)
    ensures Or(a * Pow2(k), b) == a * Pow2(k) + b
  {
    if k == 0 {
      OrZero(a * Pow2(k));
    } else {
      var m := Pow2(k - 1);
      Pow2Step(k);
      Twice(a, m);
      hide Or, Pow2;
      OrHalves(a * m, b);
      OrDisjoint(a, b / 2, k - 1);
    }
  }

  lemma OrZero(x: nat)
    ensures Or(x, 0) == x
  {
  }

  lemma OrHalves(x: nat, b: nat)
    ensures Or(2 * x, b) == 2 * Or(x, b / 2) + b % 2
  {
    assert 2 * x / 2 == x && 2 * x % 2 == 0;
    if b < 2 { OrZero(x); }
  }

  /** The same with the power of two given by its value. */
  lemma OrSum(a: nat, b: nat, k: nat, p: nat)
    requires p == Pow2(k) && b < p
    ensures Or(a * p, b) == a * p + b
  {
    hide Or, Pow2;
    OrDisjoint(a, b, k);
  }

  lemma Pow2Values()
    ensures Pow2(8) == 0x100 && Pow2(16) == 0x1_0000 && Pow2(24) == 0x100_0000 && Pow2(32) == TWO_32
    ensures Pow2(40) == 0x100_0000_0000 && Pow2(48) == 0x1_0000_0000_0000
    ensures Pow2(56) == 0x100_0000_0000_0000 && Pow2(64) == TWO_64
  {
    assert Pow2(8) == 0x100;
    hide Pow2;
    Pow2Sum(8, 8); Pow2Sum(16, 8); Pow2Sum(16, 16); Pow2Sum(32, 8);
    Pow2Sum(32, 16); Pow2Sum(32, 24); Pow2Sum(32, 32);
  }

  lemma {:induction false} Pow2Sum(a: nat, b: nat)
    ensures Pow2(a + b) == Pow2(a) * Pow2(b)
  {
    if b > 0 {
      Pow2Sum(a, b - 1);
      Twice(Pow2(a), Pow2(b - 1));
      Pow2Step(b);
      Pow2Step(a + b);
    }
  }

  /** One masked term of a swap: the byte at bit `k` of `w`, where `w == high * 2^(k+8) + d * 2^k + low`. */
  lemma MaskedByte(w: nat, high: nat, d: nat, low: nat, k: nat, p: nat)
    requires p == Pow2(k) && d < 256 && low < p && w == high * (256 * p) + d * p + low
    ensures And(w, 255 * p) == d * p
  {
    hide And;
    assert Pow2(8) == 256;
    MaskBits(w, 8, k);
    Collect(high, d, p);
    Remainder(w, p, high * 256 + d, low);
    Remainder(high * 256 + d, 256, high, d);
  }

  lemma Collect(high: nat, d: nat, p: nat)
    ensures (high * 256 + d) * p == high * (256 * p) + d * p
  {
  }

  // Words by their bytes, most significant first

  function Join2(a: int, b: int): int { a * 0x100 + b }
  function Join4(a: int, b: int, c: int, d: int): int { Join2(a, b) * 0x1_0000 + Join2(c, d) }
  function Join8(a: int, b: int, c: int, d: int, e: int, f: int, g: int, h: int): int
  {
    Join4(a, b, c, d) * 0x1_0000_0000 + Join4(e, f, g, h)
  }

  lemma SwapDigits16(d1: byte, d0: byte)
    ensures Be16(Join2(d1, d0)) == Join2(d0, d1)
  {
    hide Or, And, Pow2, Shr;
    Pow2Values();
    var x := d1 * 0x100 + d0;
    assert x == Join2(d1, d0);
    assert Shl(x, 8, 16) == d0 * 0x100 by { Remainder(x * 0x100, 0x1_0000, d1, d0 * 0x100); }
    ShrIsDivision(x, 8);
    OrSum(d0, d1, 8, 0x100);
    assert Be16(x) == d0 * 0x100 + d1;
  }

  /** The four terms of the 32-bit swap, in the order the macro lists them. */
  lemma Terms32(d3: byte, d2: byte, d1: byte, d0: byte)
    ensures var x := d3 * 0x100_0000 + d2 * 0x1_0000 + d1 * 0x100 + d0;
            && Shl(x, 24, 32) == d0 * 0x100_0000
            && And(Shl(x, 8, 32), 0x00ff_0000) == d1 * 0x1_0000
            && And(Shr(x, 8), 0x0000_ff00) == d2 * 0x100
            && Shr(x, 24) == d3
  {
    hide Or, And, Pow2, Shr;
    Pow2Values();
    var x := d3 * 0x100_0000 + d2 * 0x1_0000 + d1 * 0x100 + d0;
    Remainder(x * 0x100_0000, TWO_32, d3 * 0x1_0000 + d2 * 0x100 + d1, d0 * 0x100_0000);
    var up := d2 * 0x100_0000 + d1 * 0x1_0000 + d0 * 0x100;
    Remainder(x * 0x100, TWO_32, d3, up);
    MaskedByte(up, d2, d1, d0 * 0x100, 16, 0x1_0000);
    ShrIsDivision(x, 8);
    ShrIsDivision(x, 24);
    Remainder(x, 0x100, d3 * 0x1_0000 + d2 * 0x100 + d1, d0);
    MaskedByte(d3 * 0x1_0000 + d2 * 0x100 + d1, d3, d2, d1, 8, 0x100);
    Remainder(x, 0x100_0000, d3, d2 * 0x1_0000 + d1 * 0x100 + d0);
  }

  lemma SwapDigits32(d3: byte, d2: byte, d1: byte, d0: byte)
    ensures Be32(Join4(d3, d2, d1, d0)) == Join4(d0, d1, d2, d3)
  {
    hide Or, And, Pow2, Shl, Shr;
    Pow2Values();
    var x := d3 * 0x100_0000 + d2 * 0x1_0000 + d1 * 0x100 + d0;
    assert x == Join4(d3, d2, d1, d0);
    Terms32(d3, d2, d1, d0);
    OrSum(d0, d1 * 0x1_0000, 24, 0x100_0000);
    OrSum(d0 * 0x100 + d1, d2 * 0x100, 16, 0x1_0000);
    OrSum(d0 * 0x1_0000 + d1 * 0x100 + d2, d3, 8, 0x100);
    assert Be32(x) == d0 * 0x100_0000 + d1 * 0x1_0000 + d2 * 0x100 + d3;
  }

  lemma TermsUp64(d7: byte, d6: byte, d5: byte, d4: byte, d3: byte, d2: byte, d1: byte, d0: byte)
    ensures var x := d7 * 0x100_0000_0000_0000 + d6 * 0x1_0000_0000_0000 + d5 * 0x100_0000_0000
        + d4 * 0x1_0000_0000 + d3 * 0x100_0000 + d2 * 0x1_0000 + d1 * 0x100 + d0;
            && Shl(x, 56, 64) == d0 * 0x100_0000_0000_0000
            && And(Shl(x, 40, 64), 0x00ff_0000_0000_0000) == d1 * 0x1_0000_0000_0000
            && And(Shl(x, 24, 64), 0x0000_ff00_0000_0000) == d2 * 0x100_0000_0000
            && And(Shl(x, 8, 64), 0x0000_00ff_0000_0000) == d3 * 0x1_0000_0000
  {
    hide Or, And, Pow2;
    Pow2Values();
    var x := d7 * 0x100_0000_0000_0000 + d6 * 0x1_0000_0000_0000 + d5 * 0x100_0000_0000 + d4 * 0x1_0000_0000
        + d3 * 0x100_0000 + d2 * 0x1_0000 + d1 * 0x100 + d0;
    Remainder(x * 0x100_0000_0000_0000, TWO_64, d7 * 0x1_0000_0000_0000 + d6 * 0x100_0000_0000
        + d5 * 0x1_0000_0000 + d4 * 0x100_0000 + d3 * 0x1_0000 + d2 * 0x100 + d1, d0 * 0x100_0000_0000_0000);
    var up40 := d2 * 0x100_0000_0000_0000 + d1 * 0x1_0000_0000_0000 + d0 * 0x100_0000_0000;
    Remainder(x * 0x100_0000_0000, TWO_64, d7 * 0x1_0000_0000 + d6 * 0x100_0000 + d5 * 0x1_0000 + d4 * 0x100
        + d3, up40);
    MaskedByte(up40, d2, d1, d0 * 0x100_0000_0000, 48, 0x1_0000_0000_0000);
    var up24 := d4 * 0x100_0000_0000_0000 + d3 * 0x1_0000_0000_0000 + d2 * 0x100_0000_0000
        + d1 * 0x1_0000_0000 + d0 * 0x100_0000;
    Remainder(x * 0x100_0000, TWO_64, d7 * 0x1_0000 + d6 * 0x100 + d5, up24);
    MaskedByte(up24, d4 * 0x100 + d3, d2, d1 * 0x1_0000_0000 + d0 * 0x100_0000, 40, 0x100_0000_0000);
    var up8 := d6 * 0x100_0000_0000_0000 + d5 * 0x1_0000_0000_0000 + d4 * 0x100_0000_0000
        + d3 * 0x1_0000_0000 + d2 * 0x100_0000 + d1 * 0x1_0000 + d0 * 0x100;
    Remainder(x * 0x100, TWO_64, d7, up8);
    MaskedByte(up8, d6 * 0x1_0000 + d5 * 0x100 + d4, d3, d2 * 0x100_0000 + d1 * 0x1_0000
        + d0 * 0x100, 32, 0x1_0000_0000);
  }

  lemma TermsDown64(d7: byte, d6: byte, d5: byte, d4: byte, d3: byte, d2: byte, d1: byte, d0: byte)
    ensures var x := d7 * 0x100_0000_0000_0000 + d6 * 0x1_0000_0000_0000 + d5 * 0x100_0000_0000
        + d4 * 0x1_0000_0000 + d3 * 0x100_0000 + d2 * 0x1_0000 + d1 * 0x100 + d0;
            && And(Shr(x, 8), 0x0000_0000_ff00_0000) == d4 * 0x100_0000
            && And(Shr(x, 24), 0x0000_0000_00ff_0000) == d5 * 0x1_0000
            && And(Shr(x, 40), 0x0000_0000_0000_ff00) == d6 * 0x100
            && Shr(x, 56) == d7
  {
    hide Or, And, Pow2, Shr;
    Pow2Values();
    var x := d7 * 0x100_0000_0000_0000 + d6 * 0x1_0000_0000_0000 + d5 * 0x100_0000_0000 + d4 * 0x1_0000_0000
        + d3 * 0x100_0000 + d2 * 0x1_0000 + d1 * 0x100 + d0;
    ShrIsDivision(x, 8);
    ShrIsDivision(x, 24);
    ShrIsDivision(x, 40);
    ShrIsDivision(x, 56);
    var down8 := d7 * 0x1_0000_0000_0000 + d6 * 0x100_0000_0000 + d5 * 0x1_0000_0000 + d4 * 0x100_0000
        + d3 * 0x1_0000 + d2 * 0x100 + d1;
    Remainder(x, 0x100, down8, d0);
    MaskedByte(down8, d7 * 0x1_0000 + d6 * 0x100 + d5, d4, d3 * 0x1_0000 + d2 * 0x100 + d1, 24, 0x100_0000);
    var down24 := d7 * 0x1_0000_0000 + d6 * 0x100_0000 + d5 * 0x1_0000 + d4 * 0x100 + d3;
    Remainder(x, 0x100_0000, down24, d2 * 0x1_0000 + d1 * 0x100 + d0);
    MaskedByte(down24, d7 * 0x100 + d6, d5, d4 * 0x100 + d3, 16, 0x1_0000);
    var down40 := d7 * 0x1_0000 + d6 * 0x100 + d5;
    Remainder(x, 0x100_0000_0000, down40, d4 * 0x1_0000_0000 + d3 * 0x100_0000 + d2 * 0x1_0000 + d1 * 0x100 + d0);
    MaskedByte(down40, d7, d6, d5, 8, 0x100);
    Remainder(x, 0x100_0000_0000_0000, d7, d6 * 0x1_0000_0000_0000 + d5 * 0x100_0000_0000
        + d4 * 0x1_0000_0000 + d3 * 0x100_0000 + d2 * 0x1_0000 + d1 * 0x100 + d0);
  }

  lemma OrHigh64(d0: byte, d1: byte, d2: byte, d3: byte)
    ensures Or(Or(Or(d0 * 0x100_0000_0000_0000, d1 * 0x1_0000_0000_0000), d2 * 0x100_0000_0000), d3 * 0x1_0000_0000)
            == Join4(d0, d1, d2, d3) * 0x1_0000_0000
  {
    hide Or, Pow2;
    Pow2Values();
    OrSum(d0, d1 * 0x1_0000_0000_0000, 56, 0x100_0000_0000_0000);
    OrSum(d0 * 0x100 + d1, d2 * 0x100_0000_0000, 48, 0x1_0000_0000_0000);
    OrSum(d0 * 0x1_0000 + d1 * 0x100 + d2, d3 * 0x1_0000_0000, 40, 0x100_0000_0000);
  }

  lemma OrLow64(h: nat, d4: byte, d5: byte, d6: byte, d7: byte)
    ensures Or(Or(Or(Or(h * 0x1_0000_0000, d4 * 0x100_0000), d5 * 0x1_0000), d6 * 0x100), d7)
            == h * 0x1_0000_0000 + Join4(d4, d5, d6, d7)
  {
    hide Or, Pow2;
    Pow2Values();
    OrSum(h, d4 * 0x100_0000, 32, 0x1_0000_0000);
    var t4 := Or(h * 0x1_0000_0000, d4 * 0x100_0000);
    var h4 := h * 0x100 + d4;
    assert t4 == h4 * 0x100_0000;
    OrSum(h4, d5 * 0x1_0000, 24, 0x100_0000);
    var t5 := Or(t4, d5 * 0x1_0000);
    var h5 := h4 * 0x100 + d5;
    assert t5 == h5 * 0x1_0000;
    OrSum(h5, d6 * 0x100, 16, 0x1_0000);
    var t6 := Or(t5, d6 * 0x100);
    var h6 := h5 * 0x100 + d6;
    assert t6 == h6 * 0x100;
    OrSum(h6, d7, 8, 0x100);
  }

  lemma SwapDigits64(d7: byte, d6: byte, d5: byte, d4: byte, d3: byte, d2: byte, d1: byte, d0: byte)
    ensures Be64(Join8(d7, d6, d5, d4, d3, d2, d1, d0)) == Join8(d0, d1, d2, d3, d4, d5, d6, d7)
  {
    hide Or, And, Pow2, Shl, Shr;
    Pow2Values();
    var x := d7 * 0x100_0000_0000_0000 + d6 * 0x1_0000_0000_0000 + d5 * 0x100_0000_0000 + d4 * 0x1_0000_0000
        + d3 * 0x100_0000 + d2 * 0x1_0000 + d1 * 0x100 + d0;
    assert x == Join8(d7, d6, d5, d4, d3, d2, d1, d0);
    TermsUp64(d7, d6, d5, d4, d3, d2, d1, d0);
    TermsDown64(d7, d6, d5, d4, d3, d2, d1, d0);
    OrHigh64(d0, d1, d2, d3);
    var h := Join4(d0, d1, d2, d3);
    OrLow64(h, d4, d5, d6, d7);
    assert Be64(x) == h * 0x1_0000_0000 + Join4(d4, d5, d6, d7);
  }

  /** A word as it lies in memory, lowest byte first, and back. */
  function Memory(word: nat, w: nat): (s: seq<byte>)
    ensures |s| == w
  {
    if w == 0 then [] else [word % 256] + Memory(word / 256, w - 1)
  }

  function FromMemory(s: seq<byte>): nat
  {
    if s == [] then 0 else s[0] + 256 * FromMemory(s[1..])
  }

  /** What a `_msgpack_store` copies out, and what a `_msgpack_load` makes of the bytes it copies in. */
  function Stored(num: int, w: nat): seq<byte>
    requires w in {2, 4, 8}
  {
    var word := ToUnsigned(num, w);
    Memory(if w == 2 then Be16(word) else if w == 4 then Be32(word) else Be64(word), w)
  }

  function Loaded(s: seq<byte>): nat
    requires |s| in {2, 4, 8}
  {
    var word := FromMemory(s);
    if |s| == 2 then Be16(word) else if |s| == 4 then Be32(word) else Be64(word)
  }

  lemma {:induction false} MemoryOf(s: seq<byte>)
    ensures Memory(FromMemory(s), |s|) == s
  {
    if s != [] {
      var rest := FromMemory(s[1..]);
      assert FromMemory(s) % 256 == s[0] && FromMemory(s) / 256 == rest;
      MemoryOf(s[1..]);
    }
  }

  /** Each swap reverses the digits of a word. */
  lemma SwapsReverse(s: seq<byte>)
    ensures |s| == 2 ==> Be16(Join2(s[0], s[1])) == Join2(s[1], s[0])
    ensures |s| == 4 ==> Be32(Join4(s[0], s[1], s[2], s[3])) == Join4(s[3], s[2], s[1], s[0])
    ensures |s| == 8 ==>
              Be64(Join8(s[0], s[1], s[2], s[3], s[4], s[5], s[6], s[7]))
              == Join8(s[7], s[6], s[5], s[4], s[3], s[2], s[1], s[0])
  {
    hide Be16, Be32, Be64, Join2, Join4, Join8;
    if |s| == 2 {
      SwapDigits16(s[0], s[1]);
    } else if |s| == 4 {
      SwapDigits32(s[0], s[1], s[2], s[3]);
    } else if |s| == 8 {
      SwapDigits64(s[0], s[1], s[2], s[3], s[4], s[5], s[6], s[7]);
    }
  }

  /** Loading reads the big-endian number: the swap undoes the little-endian layout. */
  lemma LoadIsBigEndian(s: seq<byte>)
    requires |s| in {2, 4, 8}
    ensures Loaded(s) == FromBigEndian(s)
  {
    hide Be16, Be32, Be64, FromBigEndian, FromMemory, Join2, Join4, Join8;
    Unrolled(s);
    SwapsReverse(Reversed(s));
  }

  function Reversed(s: seq<byte>): (r: seq<byte>)
    ensures |r| == |s| && forall i :: 0 <= i < |s| ==> r[i] == s[|s| - 1 - i]
  {
    if s == [] then [] else Reversed(s[1..]) + [s[0]]
  }

  lemma Carry(n: int, p: int, i: int, d: int)
    ensures (n * p + i) * 256 + d == n * (256 * p) + (i * 256 + d)
  {
  }

  /** Both readings of a string follow from the readings of its parts. */
  lemma {:induction false} BigEndianParts(a: seq<byte>, b: seq<byte>)
    ensures FromBigEndian(a + b) == FromBigEndian(a) * Pow256(|b|) + FromBigEndian(b)
  {
    if b == [] {
      assert a + b == a;
    } else {
      var init := b[..|b| - 1];
      assert (a + b)[..|a + b| - 1] == a + init;
      BigEndianParts(a, init);
      assert FromBigEndian(a + b) == FromBigEndian(a + init) * 256 + b[|b| - 1];
      Carry(FromBigEndian(a), Pow256(|init|), FromBigEndian(init), b[|b| - 1]);
    }
  }

  lemma {:induction false} MemoryParts(a: seq<byte>, b: seq<byte>)
    ensures FromMemory(a + b) == FromMemory(b) * Pow256(|a|) + FromMemory(a)
  {
    if a == [] {
      assert a + b == b;
    } else {
      assert (a + b)[1..] == a[1..] + b;
      MemoryParts(a[1..], b);
      assert FromMemory(a + b) == FromMemory(a[1..] + b) * 256 + a[0];
      Carry(FromMemory(b), Pow256(|a| - 1), FromMemory(a[1..]), a[0]);
    }
  }

  lemma Unrolled2(s: seq<byte>)
    requires |s| == 2
    ensures FromBigEndian(s) == Join2(s[0], s[1]) && FromMemory(s) == Join2(s[1], s[0])
  {
    assert s[..1] == [s[0]] && s[1..] == [s[1]];
    assert FromBigEndian([s[0]]) == s[0] && FromMemory([s[1]]) == s[1];
  }

  lemma Unrolled4(s: seq<byte>)
    requires |s| == 4
    ensures FromBigEndian(s) == Join4(s[0], s[1], s[2], s[3]) && FromMemory(s) == Join4(s[3], s[2], s[1], s[0])
  {
    hide FromBigEndian, FromMemory;
    Pow256Values();
    Unrolled2(s[..2]);
    Unrolled2(s[2..]);
    assert s == s[..2] + s[2..];
    BigEndianParts(s[..2], s[2..]);
    MemoryParts(s[..2], s[2..]);
  }

  lemma Unrolled8(s: seq<byte>)
    requires |s| == 8
    ensures FromBigEndian(s) == Join8(s[0], s[1], s[2], s[3], s[4], s[5], s[6], s[7])
    ensures FromMemory(s) == Join8(s[7], s[6], s[5], s[4], s[3], s[2], s[1], s[0])
  {
    hide FromBigEndian, FromMemory;
    Pow256Values();
    Unrolled4(s[..4]);
    Unrolled4(s[4..]);
    assert s == s[..4] + s[4..];
    BigEndianParts(s[..4], s[4..]);
    MemoryParts(s[..4], s[4..]);
  }

  lemma Unrolled(s: seq<byte>)
    ensures |s| == 2 ==> FromBigEndian(s) == Join2(s[0], s[1]) && FromMemory(s) == Join2(s[1], s[0])
    ensures |s| == 4 ==>
              && FromBigEndian(s) == Join4(s[0], s[1], s[2], s[3])
              && FromMemory(s) == Join4(s[3], s[2], s[1], s[0])
    ensures |s| == 8 ==>
              && FromBigEndian(s) == Join8(s[0], s[1], s[2], s[3], s[4], s[5], s[6], s[7])
              && FromMemory(s) == Join8(s[7], s[6], s[5], s[4], s[3], s[2], s[1], s[0])
  {
    hide FromBigEndian, FromMemory, Join2, Join4, Join8;
    if |s| == 2 {
      Unrolled2(s);
    } else if |s| == 4 {
      Unrolled4(s);
    } else if |s| == 8 {
      Unrolled8(s);
    }
  }

  /** Storing lays out the big-endian digits of the word. */
  lemma StoreIsBigEndian(num: int, w: nat)
    requires w in {2, 4, 8}
    ensures Stored(num, w) == BigEndian(ToUnsigned(num, w), w)
  {
    hide Be16, Be32, Be64;
    var word := ToUnsigned(num, w);
    var s := BigEndian(word, w);
    ReadBack(word, w);
    Remainder(word, Pow256(w), 0, word);
    SwapOfBigEndian(s);
    MemoryOf(s);
  }

  /** The swap takes the big-endian number of a string to the little-endian one. */
  lemma SwapOfBigEndian(s: seq<byte>)
    ensures |s| == 2 ==> Be16(FromBigEndian(s)) == FromMemory(s)
    ensures |s| == 4 ==> Be32(FromBigEndian(s)) == FromMemory(s)
    ensures |s| == 8 ==> Be64(FromBigEndian(s)) == FromMemory(s)
  {
    hide Be16, Be32, Be64, FromBigEndian, FromMemory, Join2, Join4, Join8;
    Unrolled(s);
    SwapsReverse(s);
  }

  /** Each swap is its own inverse on the words of its width. */
  lemma SwapTwice(x: nat, w: nat)
    requires w in {2, 4, 8} && x < Pow256(w)
    ensures w == 2 ==> Be16(Be16(x)) == x
    ensures w == 4 ==> Be32(Be32(x)) == x
    ensures w == 8 ==> Be64(Be64(x)) == x
  {
    hide Be16, Be32, Be64;
    var s := BigEndian(x, w);
    ReadBack(x, w);
    Remainder(x, Pow256(w), 0, x);
    SwapOfBigEndian(s);
    LoadIsBigEndian(s);
  }

  /** Load after store is the identity, for unsigned and for signed targets. */
  lemma LoadAfterStore(num: int, w: nat)
    requires w in {2, 4, 8}
    ensures |Stored(num, w)| == w
    ensures 0 <= num < Pow256(w) ==> Loaded(Stored(num, w)) == num
    ensures FitsSigned(num, w) ==> ToSigned(Loaded(Stored(num, w)), w) == num
  {
    hide Be16, Be32, Be64;
    StoreIsBigEndian(num, w);
    var word := ToUnsigned(num, w);
    LoadIsBigEndian(BigEndian(word, w));
    ReadBack(word, w);
    Remainder(word, Pow256(w), 0, word);
    if 0 <= num < Pow256(w) {
      Remainder(num, Pow256(w), 0, num);
    }
    if FitsSigned(num, w) {
      SignedRoundTrip(num, w);
    }
  }

  /** `_msgpack_store16/32/64`: `w` bytes of `to` from `at` on become the big-endian digits of `num`. */
  method Store(to: array<byte>, at: nat, num: int, w: nat)
    requires w in {2, 4, 8} && at + w <= to.Length
    modifies to
    ensures to[..] == old(to[..at]) + BigEndian(ToUnsigned(num, w), w) + old(to[at + w..])
  {
    hide Stored, BigEndian, ToUnsigned;
    var val := Stored(num, w);
    StoreIsBigEndian(num, w);
    ghost var was := to[..];
    var k := 0;
    while k < w
      invariant 0 <= k <= w
      invariant forall j :: 0 <= j < to.Length ==> to[j] == if at <= j < at + k then val[j - at] else was[j]
    {
      to[at + k] := val[k];
      k := k + 1;
    }
    Spliced(to[..], was, at, val);
  }

  lemma Spliced(s: seq<byte>, was: seq<byte>, at: nat, val: seq<byte>)
    requires |s| == |was| && at + |val| <= |s|
    requires forall j :: 0 <= j < |s| ==> s[j] == if at <= j < at + |val| then val[j - at] else was[j]
    ensures s == was[..at] + val + was[at + |val|..]
  {
  }
}
