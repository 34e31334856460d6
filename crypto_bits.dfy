/**
 * The 32-bit word helpers of the MD5 and SHA-256 code in js/crypto.js.
 *
 * A JavaScript number that goes through a bitwise operator is first made a
 * signed 32-bit integer; it is modelled here as the `bv32` with the same
 * bits, so `&`, `|`, `^`, `~`, `<<` and `>>>` are the `bv32` operators, and
 * the sign-copying shift `>>` is written out where its result matters.
 */
module CryptoBits {

  type Word = bv32

  /** `x >> 16` on a signed 32-bit value: the top half moves down and the sign bit fills the top. */
  function Sar16(x: Word): (r: Word)
    ensures r & 0xFFFF == x >> 16
    ensures r & 0xFFFF_0000 == if x & 0x8000_0000 == 0 then 0 else 0xFFFF_0000
  {
    if x & 0x8000_0000 == 0 then x >> 16 else (x >> 16) | 0xFFFF_0000
  }

  /**
   * `addUnsigned` (MD5) and `safe_add` (SHA-256), which have the same body:
   * the two 16-bit halves are added separately and the carry of the low half
   * goes into the high half.
   */
  function AddUnsigned(x: Word, y: Word): Word {
    var lsw := (x & 0xFFFF) + (y & 0xFFFF);
    var msw := Sar16(x) + Sar16(y) + (lsw >> 16);
    (msw << 16) | (lsw & 0xFFFF)
  }

  lemma ShiftBack(x: Word)
    ensures Sar16(x) << 16 == x & 0xFFFF_0000
  {
    if x & 0x8000_0000 == 0 {
      assert Sar16(x) == x >> 16;
    } else {
      assert Sar16(x) == (x >> 16) | 0xFFFF_0000;
    }
  }

  lemma ShiftAdd(a: Word, b: Word)
    ensures (a + b) << 16 == (a << 16) + (b << 16)
  {
  }

  lemma OrIsAdd(a: Word, b: Word)
    requires a & 0xFFFF == 0 && b <= 0xFFFF
    ensures a | b == a + b
  {
  }

  lemma Halves(x: Word)
    ensures x == (x & 0xFFFF_0000) + (x & 0xFFFF)
  {
  }

  lemma LowCarry(l: Word)
    requires l <= 0x1FFFE
    ensures l == ((l >> 16) << 16) + (l & 0xFFFF)
  {
  }

  /**
   * 32-bit wrap-around addition. Facts about sums are stated with `Plus`
   * rather than `+`: the solver matches equal calls of a named function at
   * once, while equal built-in sums cost it a search over the bits.
   */
  function Plus(x: Word, y: Word): Word { x + y }

  /** Adding in halves is 32-bit wrap-around addition. */
  lemma AddUnsignedWraps(x: Word, y: Word)
    ensures AddUnsigned(x, y) == Plus(x, y)
  {
    var lsw := (x & 0xFFFF) + (y & 0xFFFF);
    var carry := lsw >> 16;
    ShiftAdd(Sar16(x) + Sar16(y), carry);
    ShiftAdd(Sar16(x), Sar16(y));
    ShiftBack(x);
    ShiftBack(y);
    var high := (x & 0xFFFF_0000) + (y & 0xFFFF_0000) + (carry << 16);
    assert high & 0xFFFF == 0;
    OrIsAdd(high, lsw & 0xFFFF);
    LowCarry(lsw);
    Halves(x);
    Halves(y);
  }

  // ---------------------------------------------------------------- shifts and rotations

  /** `rotateLeft(value, shift)`: `(value << shift) | (value >>> (32 - shift))`. */
  function RotateLeft(v: Word, s: Word): Word
    requires 0 < s < 32
  {
    (v << s) | (v >> (32 - s))
  }

  /** `S(X, n)`: `(X >>> n) | (X << (32 - n))`. */
  function RotateRight(v: Word, n: Word): Word
    requires 0 < n < 32
  {
    (v >> n) | (v << (32 - n))
  }

  /** `R(X, n)`: the zero-filling shift `X >>> n`; its top `n` bits are clear. */
  function ShiftRight(v: Word, n: Word): (r: Word)
    requires 0 < n < 32
    ensures r >> (32 - n) == 0
    ensures r << n == v & (0xFFFF_FFFF << n)
  {
    v >> n
  }

  lemma RotateLeftCasesOne(v: Word, s: Word)
    requires 1 <= s <= 4
    ensures RotateLeft(v, s) == v.RotateLeft(s as nat)
  {
    if s == 1 {} else if s == 2 {} else if s == 3 {} else {}
  }

  lemma RotateLeftCasesTwo(v: Word, s: Word)
    requires 5 <= s <= 8
    ensures RotateLeft(v, s) == v.RotateLeft(s as nat)
  {
    if s == 5 {} else if s == 6 {} else if s == 7 {} else {}
  }

  lemma RotateLeftCasesThree(v: Word, s: Word)
    requires 9 <= s <= 12
    ensures RotateLeft(v, s) == v.RotateLeft(s as nat)
  {
    if s == 9 {} else if s == 10 {} else if s == 11 {} else {}
  }

  lemma RotateLeftCasesFour(v: Word, s: Word)
    requires 13 <= s <= 16
    ensures RotateLeft(v, s) == v.RotateLeft(s as nat)
  {
    if s == 13 {} else if s == 14 {} else if s == 15 {} else {}
  }

  lemma RotateLeftCasesFive(v: Word, s: Word)
    requires 17 <= s <= 20
    ensures RotateLeft(v, s) == v.RotateLeft(s as nat)
  {
    if s == 17 {} else if s == 18 {} else if s == 19 {} else {}
  }

  lemma RotateLeftCasesSix(v: Word, s: Word)
    requires 21 <= s <= 24
    ensures RotateLeft(v, s) == v.RotateLeft(s as nat)
  {
    if s == 21 {} else if s == 22 {} else if s == 23 {} else {}
  }

  lemma RotateLeftCasesSeven(v: Word, s: Word)
    requires 25 <= s <= 28
    ensures RotateLeft(v, s) == v.RotateLeft(s as nat)
  {
    if s == 25 {} else if s == 26 {} else if s == 27 {} else {}
  }

  lemma RotateLeftCasesEight(v: Word, s: Word)
    requires 29 <= s <= 31
    ensures RotateLeft(v, s) == v.RotateLeft(s as nat)
  {
    if s == 29 {} else if s == 30 {} else {}
  }

  /** The rotation of `v` by `s` bits towards the top, bits leaving at the top coming back at the bottom. */
  function Rotl(v: Word, s: Word): Word
    requires s < 32
  {
    v.RotateLeft(s as nat)
  }

  /** The rotation of `v` by `n` bits towards the bottom. */
  function Rotr(v: Word, n: Word): Word
    requires n < 32
  {
    v.RotateRight(n as nat)
  }

  /** `rotateLeft` is the 32-bit left rotation for every shift it can be given. */
  lemma RotateLeftIsRotation(v: Word, s: Word)
    requires 0 < s < 32
    ensures RotateLeft(v, s) == Rotl(v, s)
  {
    if s <= 4 {
      RotateLeftCasesOne(v, s);
    } else if s <= 8 {
      RotateLeftCasesTwo(v, s);
    } else if s <= 12 {
      RotateLeftCasesThree(v, s);
    } else if s <= 16 {
      RotateLeftCasesFour(v, s);
    } else if s <= 20 {
      RotateLeftCasesFive(v, s);
    } else if s <= 24 {
      RotateLeftCasesSix(v, s);
    } else if s <= 28 {
      RotateLeftCasesSeven(v, s);
    } else {
      RotateLeftCasesEight(v, s);
    }
  }

  lemma RotateRightCasesOne(v: Word, n: Word)
    requires 1 <= n <= 4
    ensures RotateRight(v, n) == v.RotateRight(n as nat)
  {
    if n == 1 {} else if n == 2 {} else if n == 3 {} else {}
  }

  lemma RotateRightCasesTwo(v: Word, n: Word)
    requires 5 <= n <= 8
    ensures RotateRight(v, n) == v.RotateRight(n as nat)
  {
    if n == 5 {} else if n == 6 {} else if n == 7 {} else {}
  }

  lemma RotateRightCasesThree(v: Word, n: Word)
    requires 9 <= n <= 12
    ensures RotateRight(v, n) == v.RotateRight(n as nat)
  {
    if n == 9 {} else if n == 10 {} else if n == 11 {} else {}
  }

  lemma RotateRightCasesFour(v: Word, n: Word)
    requires 13 <= n <= 16
    ensures RotateRight(v, n) == v.RotateRight(n as nat)
  {
    if n == 13 {} else if n == 14 {} else if n == 15 {} else {}
  }

  lemma RotateRightCasesFive(v: Word, n: Word)
    requires 17 <= n <= 20
    ensures RotateRight(v, n) == v.RotateRight(n as nat)
  {
    if n == 17 {} else if n == 18 {} else if n == 19 {} else {}
  }

  lemma RotateRightCasesSix(v: Word, n: Word)
    requires 21 <= n <= 24
    ensures RotateRight(v, n) == v.RotateRight(n as nat)
  {
    if n == 21 {} else if n == 22 {} else if n == 23 {} else {}
  }

  lemma RotateRightCasesSeven(v: Word, n: Word)
    requires 25 <= n <= 28
    ensures RotateRight(v, n) == v.RotateRight(n as nat)
  {
    if n == 25 {} else if n == 26 {} else if n == 27 {} else {}
  }

  lemma RotateRightCasesEight(v: Word, n: Word)
    requires 29 <= n <= 31
    ensures RotateRight(v, n) == v.RotateRight(n as nat)
  {
    if n == 29 {} else if n == 30 {} else {}
  }

  /** `S` is the 32-bit right rotation for every amount it can be given. */
  lemma RotateRightIsRotation(v: Word, n: Word)
    requires 0 < n < 32
    ensures RotateRight(v, n) == Rotr(v, n)
  {
    if n <= 4 {
      RotateRightCasesOne(v, n);
    } else if n <= 8 {
      RotateRightCasesTwo(v, n);
    } else if n <= 12 {
      RotateRightCasesThree(v, n);
    } else if n <= 16 {
      RotateRightCasesFour(v, n);
    } else if n <= 20 {
      RotateRightCasesFive(v, n);
    } else if n <= 24 {
      RotateRightCasesSix(v, n);
    } else if n <= 28 {
      RotateRightCasesSeven(v, n);
    } else {
      RotateRightCasesEight(v, n);
    }
  }

  // ---------------------------------------------------------------- bitwise selectors

  /** MD5's `F`. */
  function F(x: Word, y: Word, z: Word): Word { (x & y) | (!x & z) }
  /** MD5's `G`. */
  function G(x: Word, y: Word, z: Word): Word { (x & z) | (y & !z) }
  /** MD5's `H`. */
  function H(x: Word, y: Word, z: Word): Word { x ^ y ^ z }
  /** MD5's `I`. */
  function I(x: Word, y: Word, z: Word): Word { y ^ (x | !z) }

  /** SHA-256's `Ch`. */
  function Ch(x: Word, y: Word, z: Word): Word { (x & y) ^ (!x & z) }
  /** SHA-256's `Maj`. */
  function Maj(x: Word, y: Word, z: Word): Word { (x & y) ^ (x & z) ^ (y & z) }

  /** `Sigma0256`. */
  function Sigma0(x: Word): Word { RotateRight(x, 2) ^ RotateRight(x, 13) ^ RotateRight(x, 22) }
  /** `Sigma1256`. */
  function Sigma1(x: Word): Word { RotateRight(x, 6) ^ RotateRight(x, 11) ^ RotateRight(x, 25) }
  /** `Gamma0256`. */
  function Gamma0(x: Word): Word { RotateRight(x, 7) ^ RotateRight(x, 18) ^ ShiftRight(x, 3) }
  /** `Gamma1256`. */
  function Gamma1(x: Word): Word { RotateRight(x, 17) ^ RotateRight(x, 19) ^ ShiftRight(x, 10) }

  /**
   * MD5's `F` written with `|` and SHA-256's `Ch` written with `^` are the same
   * function: where a bit of `x` is set it picks `y`, elsewhere `z`.
   */
  lemma ChooseAgrees(x: Word, y: Word, z: Word)
    ensures F(x, y, z) == Ch(x, y, z)
  {
    Disjoint(x, y, z);
    OrIsXor(x & y, !x & z);
  }

  lemma Disjoint(x: Word, y: Word, z: Word)
    ensures (x & y) & (!x & z) == 0
  {
  }

  lemma OrIsXor(a: Word, b: Word)
    requires a & b == 0
    ensures a | b == a ^ b
  {
  }

  lemma ChooseSelects(x: Word, y: Word, z: Word)
    ensures F(0xFFFF_FFFF, y, z) == y && F(0, y, z) == z
    ensures F(x, y, y) == y
  {
  }

  /** `G` is `F` with `z` as the selector. */
  lemma GSelectsByZ(x: Word, y: Word, z: Word)
    ensures G(x, y, z) == F(z, x, y)
  {
  }

  /** `Maj` takes the majority of the three bits, so it is symmetric and agrees with any two equal arguments. */
  lemma MajorityVote(x: Word, y: Word, z: Word)
    ensures Maj(x, y, z) == Maj(y, x, z) == Maj(x, z, y)
    ensures Maj(x, x, z) == x && Maj(x, y, y) == y
    ensures Maj(x, y, z) == (x & y) | (x & z) | (y & z)
  {
  }
}
