/**
  * Machine words of the host: how a `size_t`, `uint64_t` or `uint32_t` lies in memory
  * and what shifting and combining words does to it.
  *
  * A word is the sequence of its base-256 digits, least significant first. Every shift in
  * the modelled code is by whole bytes, so shifts move digits; `ShiftRightValue` and
  * `ShiftLeftValue` tie them to the arithmetic meaning of `>>` and `<<`.
  */
module Words {

  type Byte = bv8

  type Word = seq<Byte>

  datatype Platform = Platform(wide: bool, little: bool) {
    /** `sizeof(size_t)` */
    function Size(): nat {
      if wide then 8 else 4
    }
  }

  function Zeros(n: nat): (z: Word)
    ensures |z| == n && forall i | 0 <= i < n :: z[i] == 0
  {
    seq(n, i => 0)
  }

  /** `w >> 8 * n`. A shift by the full width of the word gives zero. */
  function ShiftRight(w: Word, n: nat): (r: Word)
    requires n <= |w|
    ensures |r| == |w|
  {
    w[n..] + Zeros(n)
  }

  /** `w << 8 * n`, truncated to the width of the word. */
  function ShiftLeft(w: Word, n: nat): (r: Word)
    requires n <= |w|
    ensures |r| == |w|
  {
    Zeros(n) + w[..|w| - n]
  }

  function OrByte(a: Byte, b: Byte): Byte {
    a | b
  }

  function XorByte(a: Byte, b: Byte): Byte {
    a ^ b
  }

  function Or(v: Word, w: Word): (r: Word)
    requires |v| == |w|
    ensures |r| == |v|
  {
    seq(|v|, i requires 0 <= i < |v| => OrByte(v[i], w[i]))
  }

  function Xor(v: Word, w: Word): (r: Word)
    requires |v| == |w|
    ensures |r| == |v|
  {
    seq(|v|, i requires 0 <= i < |v| => XorByte(v[i], w[i]))
  }

  lemma OrZero(b: Byte)
    ensures OrByte(b, 0) == b && OrByte(0, b) == b
  {
  }

  /** Each bit of the result is a one exactly where one of the two has a one. */
  lemma OrBits(a: Byte, b: Byte)
    ensures var r := OrByte(a, b);
            && (r & 0x01 != 0 <==> a & 0x01 != 0 || b & 0x01 != 0) && (r & 0x02 != 0 <==> a & 0x02 != 0 || b & 0x02 != 0)
            && (r & 0x04 != 0 <==> a & 0x04 != 0 || b & 0x04 != 0) && (r & 0x08 != 0 <==> a & 0x08 != 0 || b & 0x08 != 0)
            && (r & 0x10 != 0 <==> a & 0x10 != 0 || b & 0x10 != 0) && (r & 0x20 != 0 <==> a & 0x20 != 0 || b & 0x20 != 0)
            && (r & 0x40 != 0 <==> a & 0x40 != 0 || b & 0x40 != 0) && (r & 0x80 != 0 <==> a & 0x80 != 0 || b & 0x80 != 0)
  {
  }

  lemma XorTwice(b: Byte, k: Byte)
    ensures XorByte(XorByte(b, k), k) == b
  {
  }

  function Reversed(s: seq<Byte>): (r: seq<Byte>)
    ensures |r| == |s| && forall i | 0 <= i < |s| :: r[i] == s[|s| - 1 - i]
  {
    seq(|s|, i requires 0 <= i < |s| => s[|s| - 1 - i])
  }

  /** The memory image of a word; the same function reads a word back from memory. */
  function Image(little: bool, w: Word): (s: seq<Byte>)
    ensures |s| == |w|
  {
    if little then w else Reversed(w)
  }

  lemma ImageInvolutive(little: bool, w: Word)
    ensures Image(little, Image(little, w)) == w
  {
  }

  // ----- Arithmetic meaning -----

  function Value(w: Word): nat {
    if w == [] then 0 else w[0] as nat + 256 * Value(w[1..])
  }

  function Power(n: nat): (r: nat)
    ensures r > 0
  {
    if n == 0 then 1 else 256 * Power(n - 1)
  }

  lemma NextByte(b: Byte)
    requires b < 255
    ensures (b + 1) as nat == b as nat + 1
  {
  }

  /** The byte with value `n`. */
  function ToByte(n: nat): (b: Byte)
    requires n < 256
    ensures b as nat == n
  {
    if n == 0 then 0
    else
      var c := ToByte(n - 1);
      NextByte(c);
      c + 1
  }

  lemma ByteDetermined(a: Byte, b: Byte)
    requires a as nat == b as nat
    ensures a == b
  {
  }

  /** The low `len` base-256 digits of `n`. */
  function Digits(n: nat, len: nat): (w: Word)
    ensures |w| == len
  {
    if len == 0 then [] else [ToByte(n % 256)] + Digits(n / 256, len - 1)
  }

  lemma {:induction false} ValueDigits(n: nat, len: nat)
    requires n < Power(len)
    ensures Value(Digits(n, len)) == n
  {
    if len > 0 {
      var w := Digits(n, len);
      ValueDigits(n / 256, len - 1);
      assert w[1..] == Digits(n / 256, len - 1);
    }
  }

  lemma {:induction false} DigitsValue(w: Word)
    ensures Digits(Value(w), |w|) == w
  {
    if w != [] {
      var n, v := Value(w), Value(w[1..]);
      assert n == w[0] as nat + 256 * v;
      hide Value;
      assert n / 256 == v && n % 256 == w[0] as nat;
      ByteDetermined(w[0], ToByte(n % 256));
      DigitsValue(w[1..]);
    }
  }

  /** More digits than needed are zeros. */
  lemma {:induction false} DigitsPadded(n: nat, len: nat, more: nat)
    requires n < Power(len)
    ensures Digits(n, len + more) == Digits(n, len) + Zeros(more)
  {
    if len == 0 {
      ZeroDigits(more);
    } else {
      DigitsPadded(n / 256, len - 1, more);
    }
  }

  lemma {:induction false} ZeroDigits(len: nat)
    ensures Digits(0, len) == Zeros(len)
  {
    if len > 0 {
      ZeroDigits(len - 1);
      assert Zeros(len) == [0] + Zeros(len - 1);
    }
  }

  lemma {:induction false} ValueConcat(v: Word, w: Word)
    ensures Value(v + w) == Value(v) + Power(|v|) * Value(w)
  {
    if v == [] {
      assert v + w == w;
    } else {
      assert (v + w)[1..] == v[1..] + w;
      ValueConcat(v[1..], w);
      Associate(256, Power(|v| - 1), Value(w));
    }
  }

  lemma Associate(a: int, b: int, c: int)
    ensures a * (b * c) == (a * b) * c
  {
  }

  lemma {:induction false} ValueBound(w: Word)
    ensures Value(w) < Power(|w|)
  {
    if w != [] { ValueBound(w[1..]); }
  }

  lemma {:induction false} ValueZeros(w: Word)
    requires forall i | 0 <= i < |w| :: w[i] == 0
    ensures Value(w) == 0
  {
    if w != [] { ValueZeros(w[1..]); }
  }

  /**
    * The byte at address `k` of the memory image is the digit of weight 256^k on a little-endian host,
    * and counted from the other end on a big-endian one.
    */
  lemma ImageDigit(little: bool, w: Word, k: nat)
    requires k < |w|
    ensures Image(little, w)[k] as nat == Value(w) / Power(if little then k else |w| - 1 - k) % 256
  {
    var n := if little then k else |w| - 1 - k;
    ShiftRightValue(w, n);
    LowDigit(ShiftRight(w, n));
    hide Value, Power;
  }

  lemma LowDigit(w: Word)
    requires w != []
    ensures Value(w) % 256 == w[0] as nat
  {
    var b: nat, v := w[0] as nat, Value(w[1..]);
    assert Value(w) == b + 256 * v && b < 256;
    hide Value;
    DivideUnique(b + 256 * v, 256, v, b);
  }

  lemma {:induction false} PowerAdd(m: nat, n: nat)
    ensures Power(m + n) == Power(m) * Power(n)
  {
    if m > 0 { PowerAdd(m - 1, n); }
  }

  /** Dropping the low digits is division by a power of 256. */
  lemma ShiftRightValue(w: Word, n: nat)
    requires n <= |w|
    ensures Value(ShiftRight(w, n)) == Value(w) / Power(n)
  {
    hide Value, Power;
    ValueConcat(w[n..], Zeros(n));
    ValueZeros(Zeros(n));
    assert w == w[..n] + w[n..];
    ValueConcat(w[..n], w[n..]);
    ValueBound(w[..n]);
    DivideUnique(Value(w), Power(n), Value(w[n..]), Value(w[..n]));
  }

  /** Moving the digits up is multiplication by a power of 256, truncated to the width. */
  lemma ShiftLeftValue(w: Word, n: nat)
    requires n <= |w|
    ensures Value(ShiftLeft(w, n)) == (Power(n) * Value(w)) % Power(|w|)
  {
    hide Value, Power;
    var m := |w| - n;
    var low, high := Value(w[..m]), Value(w[m..]);
    ValueConcat(Zeros(n), w[..m]);
    ValueZeros(Zeros(n));
    assert w == w[..m] + w[m..];
    ValueConcat(w[..m], w[m..]);
    ValueBound(ShiftLeft(w, n));
    PowerAdd(n, m);
    Distribute(Power(n), low, Power(m), high);
    DivideUnique(Power(n) * Value(w), Power(|w|), high, Value(ShiftLeft(w, n)));
  }

  lemma Distribute(a: int, b: int, c: int, d: int)
    ensures a * (b + c * d) == a * b + (a * c) * d
  {
    Associate(a, c, d);
  }

  lemma DivideUnique(x: nat, d: nat, q: nat, r: nat)
    requires d > 0 && x == r + d * q && r < d
    ensures x / d == q && x % d == r
  {
    var q', r' := x / d, x % d;
    Euclid(d, q, r, q', r');
  }

  lemma Euclid(d: nat, q: int, r: nat, q': int, r': nat)
    requires r < d && r' < d && d * q + r == d * q' + r'
    ensures q == q' && r == r'
  {
    if q < q' {
      Gap(d, q, q');
    } else if q' < q {
      Gap(d, q', q);
    }
  }

  lemma Gap(d: nat, q: int, q': int)
    requires q < q'
    ensures d * q + d <= d * q'
  {
    var k := q' - q - 1;
    assert 0 <= d * k;
    assert d * q' == d * q + d + d * k;
  }
}
