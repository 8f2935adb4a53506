/** Small shared datatypes: optional values, results and the byte type. */
module Wrappers {

  /** A value that may be absent (JavaScript's `undefined` or `NaN` where the
      source produces one). */
  datatype Option<+T> = None | Some(value: T)

  /** The outcome of an operation that can fail. */
  datatype Result<+T, +E> = Success(value: T) | Failure(error: E)
}

module Bytes {

  /** One octet, as held in a Node.js Buffer. */
  newtype byte = x: int | 0 <= x < 256

  /** `x & 0xFF` for a JavaScript number that is an integer: bitwise operators
      convert to a 32-bit two's-complement integer first, and keeping the low
      eight bits of that is the Euclidean remainder modulo 256, as
      `Low8IsJsMask` shows against a bit-by-bit definition of the mask. */
  function Low8(x: int): (b: byte)
    ensures b as int == x % 256
    ensures 0 <= x < 256 ==> b as int == x
  {
    (x % 256) as byte
  }

  // ---------------------------------------------------------------------------
  // JavaScript's `&`, bit by bit

  /** `ToInt32`: the integer modulo 2^32, read as a signed 32-bit value. */
  function ToInt32(x: int): (r: int)
    ensures -0x8000_0000 <= r < 0x8000_0000
    ensures (r - x) % 0x1_0000_0000 == 0
  {
    var m := x % 0x1_0000_0000;
    if m >= 0x8000_0000 then m - 0x1_0000_0000 else m
  }

  /** The low n binary digits of x's two's-complement form: digit 0 of an
      integer is its remainder modulo 2, and the others are the digits of
      its floored half. */
  function LowBits(x: int, n: nat): (r: nat)
    decreases n
  {
    if n == 0 then 0 else x % 2 + 2 * LowBits(x / 2, n - 1)
  }

  /** The low n bits of the bitwise AND of x and y, one digit pair at a time. */
  function AndBits(x: int, y: int, n: nat): (r: nat)
    decreases n
  {
    if n == 0 then 0
    else (if x % 2 == 1 && y % 2 == 1 then 1 else 0) + 2 * AndBits(x / 2, y / 2, n - 1)
  }

  /** A mask of k one bits. */
  function Ones(k: nat): (m: nat)
    ensures m % 2 == (if k == 0 then 0 else 1)
  {
    if k == 0 then 0 else 1 + 2 * Ones(k - 1)
  }

  /** `x & y` on JavaScript numbers that are integers: both operands go
      through `ToInt32`, the 32 bit pairs are ANDed, and the pattern is read
      back as a signed 32-bit value. */
  function JsBitAnd(x: int, y: int): int
  {
    var u := AndBits(ToInt32(x), ToInt32(y), 32);
    if u >= 0x8000_0000 then u - 0x1_0000_0000 else u
  }

  /** Masking with `0xFF`, as every byte the command layer computes is
      masked, is `Low8` for every integer, negative or beyond 32 bits. */
  lemma Low8IsJsMask(x: int)
    ensures JsBitAnd(x, 0xFF) == Low8(x) as int
  {
    var t := ToInt32(x);
    MaskOfEightOnes();
    AndOnes(t, 8, 32);
    LowBitsOf8(t);
    Int32KeepsLowByte(x);
  }

  lemma MaskOfEightOnes()
    ensures ToInt32(0xFF) == 0xFF == Ones(8)
  {
  }

  /** `ToInt32` changes a number by a multiple of 2^32, which keeps its
      remainder modulo 256. */
  lemma Int32KeepsLowByte(x: int)
    ensures ToInt32(x) % 256 == x % 256
  {
    var t := ToInt32(x);
    var q := (t - x) / 0x1_0000_0000;
    assert t == x + 256 * (0x100_0000 * q);
    DivModUnique(t, 256, x / 256 + 0x100_0000 * q, x % 256);
  }

  /** ANDing with k one bits keeps the low k digits and clears the rest. */
  lemma {:induction false} AndOnes(x: int, k: nat, n: nat)
    requires k <= n
    ensures AndBits(x, Ones(k), n) == LowBits(x, k)
    decreases n
  {
    if k == 0 {
      AndZero(x, n);
    } else {
      assert Ones(k) / 2 == Ones(k - 1);
      AndOnes(x / 2, k - 1, n - 1);
    }
  }

  lemma {:induction false} AndZero(x: int, n: nat)
    ensures AndBits(x, 0, n) == 0
    decreases n
  {
    if n > 0 {
      AndZero(x / 2, n - 1);
    }
  }

  /** The low k digits of x are its Euclidean remainder modulo 2^k, shown
      for k = 8. */
  lemma LowBitsOf8(x: int)
    ensures LowBits(x, 8) == x % 256
  {
    LowBitsMod(x, 8, 256);
  }

  lemma {:induction false} LowBitsMod(x: int, k: nat, p: nat)
    requires p == PowerOfTwo(k)
    ensures LowBits(x, k) == x % p
    decreases k
  {
    if k > 0 {
      LowBitsMod(x / 2, k - 1, PowerOfTwo(k - 1));
      ModDouble(x, PowerOfTwo(k - 1));
    }
  }

  function PowerOfTwo(k: nat): (p: nat)
    ensures p >= 1
  {
    if k == 0 then 1 else 2 * PowerOfTwo(k - 1)
  }

  /** The remainder modulo 2p is the last binary digit plus twice the
      remainder of the floored half modulo p. */
  lemma ModDouble(x: int, p: nat)
    requires p >= 1
    ensures x % (2 * p) == x % 2 + 2 * ((x / 2) % p)
  {
    var h, b := x / 2, x % 2;
    var a, c := h / p, h % p;
    assert h == p * a + c;
    assert x == (2 * p) * a + (2 * c + b);
    DivModUnique(x, 2 * p, a, 2 * c + b);
  }

  /** Euclidean division leaves one quotient and one remainder. */
  lemma DivModUnique(x: int, d: nat, q: int, r: int)
    requires d >= 1 && x == d * q + r && 0 <= r < d
    ensures x % d == r
  {
    var q', r' := x / d, x % d;
    assert x == d * q' + r';
    if q' < q {
      assert d * (q - q') == d * q - d * q';
      MulGrows(d, q - q');
      assert false;
    } else if q < q' {
      assert d * (q' - q) == d * q' - d * q;
      MulGrows(d, q' - q);
      assert false;
    }
  }

  lemma {:induction false} MulGrows(d: nat, m: nat)
    requires m >= 1
    ensures d * m >= d
  {
    if m > 1 {
      MulGrows(d, m - 1);
      assert d * m == d * (m - 1) + d;
    }
  }
}
