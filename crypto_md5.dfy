/**
 * The `MD5` function of js/crypto.js: `utf8Encode`, `convertToWordArray`,
 * the padding, the block loop with its 64 steps and `wordToHex`.
 *
 * The steps are modelled as the source writes them; the model proves what
 * each step operation computes (a wrapping sum, rotated) and what the whole
 * function returns in terms of the padded message, but it makes no claim
 * that the 64 constants or message indexes match the published algorithm.
 */
module Md5 {
  import opened CryptoBits
  import opened Packing
  import opened Padding
  import opened Sequences
  import Utf8
  import Text

  /** The four chaining variables `a`, `b`, `c`, `d`. */
  datatype State = State(a: Word, b: Word, c: Word, d: Word)

  const Init := State(0x67452301, 0xEFCDAB89, 0x98BADCFE, 0x10325476)

  function FF(a: Word, b: Word, c: Word, d: Word, x: Word, s: Word, ac: Word): Word
    requires 0 < s < 32
  {
    var a := AddUnsigned(a, AddUnsigned(AddUnsigned(F(b, c, d), x), ac));
    AddUnsigned(RotateLeft(a, s), b)
  }

  function GG(a: Word, b: Word, c: Word, d: Word, x: Word, s: Word, ac: Word): Word
    requires 0 < s < 32
  {
    var a := AddUnsigned(a, AddUnsigned(AddUnsigned(G(b, c, d), x), ac));
    AddUnsigned(RotateLeft(a, s), b)
  }

  function HH(a: Word, b: Word, c: Word, d: Word, x: Word, s: Word, ac: Word): Word
    requires 0 < s < 32
  {
    var a := AddUnsigned(a, AddUnsigned(AddUnsigned(H(b, c, d), x), ac));
    AddUnsigned(RotateLeft(a, s), b)
  }

  function II(a: Word, b: Word, c: Word, d: Word, x: Word, s: Word, ac: Word): Word
    requires 0 < s < 32
  {
    var a := AddUnsigned(a, AddUnsigned(AddUnsigned(I(b, c, d), x), ac));
    AddUnsigned(RotateLeft(a, s), b)
  }

  /** `a + ((f + x) + ac)`, the sum each step rotates, in 32-bit arithmetic. */
  lemma StepSum(a: Word, f: Word, x: Word, ac: Word)
    ensures AddUnsigned(a, AddUnsigned(AddUnsigned(f, x), ac)) == Plus(a, Plus(Plus(f, x), ac))
  {
    AddUnsignedWraps(f, x);
    AddUnsignedWraps(Plus(f, x), ac);
    AddUnsignedWraps(a, Plus(Plus(f, x), ac));
  }

  /** `(v <<< s) + b`, the step's result, with a true rotation and a wrapping sum. */
  lemma StepRotate(v: Word, b: Word, s: Word)
    requires 0 < s < 32
    ensures AddUnsigned(RotateLeft(v, s), b) == Plus(Rotl(v, s), b)
  {
    RotateLeftIsRotation(v, s);
    AddUnsignedWraps(Rotl(v, s), b);
  }

  /** `FF` is `((a + ((F(b, c, d) + x) + ac)) <<< s) + b` in 32-bit arithmetic. */
  lemma FFIsRotatedSum(a: Word, b: Word, c: Word, d: Word, x: Word, s: Word, ac: Word)
    requires 0 < s < 32
    ensures FF(a, b, c, d, x, s, ac) == Plus(Rotl(Plus(a, Plus(Plus(F(b, c, d), x), ac)), s), b)
  {
    StepSum(a, F(b, c, d), x, ac);
    StepRotate(Plus(a, Plus(Plus(F(b, c, d), x), ac)), b, s);
  }

  /** `GG` is `((a + ((G(b, c, d) + x) + ac)) <<< s) + b` in 32-bit arithmetic. */
  lemma GGIsRotatedSum(a: Word, b: Word, c: Word, d: Word, x: Word, s: Word, ac: Word)
    requires 0 < s < 32
    ensures GG(a, b, c, d, x, s, ac) == Plus(Rotl(Plus(a, Plus(Plus(G(b, c, d), x), ac)), s), b)
  {
    StepSum(a, G(b, c, d), x, ac);
    StepRotate(Plus(a, Plus(Plus(G(b, c, d), x), ac)), b, s);
  }

  /** `HH` is `((a + ((H(b, c, d) + x) + ac)) <<< s) + b` in 32-bit arithmetic. */
  lemma HHIsRotatedSum(a: Word, b: Word, c: Word, d: Word, x: Word, s: Word, ac: Word)
    requires 0 < s < 32
    ensures HH(a, b, c, d, x, s, ac) == Plus(Rotl(Plus(a, Plus(Plus(H(b, c, d), x), ac)), s), b)
  {
    StepSum(a, H(b, c, d), x, ac);
    StepRotate(Plus(a, Plus(Plus(H(b, c, d), x), ac)), b, s);
  }

  /** `II` is `((a + ((I(b, c, d) + x) + ac)) <<< s) + b` in 32-bit arithmetic. */
  lemma IIIsRotatedSum(a: Word, b: Word, c: Word, d: Word, x: Word, s: Word, ac: Word)
    requires 0 < s < 32
    ensures II(a, b, c, d, x, s, ac) == Plus(Rotl(Plus(a, Plus(Plus(I(b, c, d), x), ac)), s), b)
  {
    StepSum(a, I(b, c, d), x, ac);
    StepRotate(Plus(a, Plus(Plus(I(b, c, d), x), ac)), b, s);
  }

  const S11: Word := 7
  const S12: Word := 12
  const S13: Word := 17
  const S14: Word := 22
  const S21: Word := 5
  const S22: Word := 9
  const S23: Word := 14
  const S24: Word := 20
  const S31: Word := 4
  const S32: Word := 11
  const S33: Word := 16
  const S34: Word := 23
  const S41: Word := 6
  const S42: Word := 10
  const S43: Word := 15
  const S44: Word := 21

  /** Four steps of round one, updating `a`, `d`, `c` and `b` in turn with shifts S11, S12, S13, S14. */
  function QuarterOne(st: State, x0: Word, x1: Word, x2: Word, x3: Word, t0: Word, t1: Word, t2: Word, t3: Word): State {
    var a := FF(st.a, st.b, st.c, st.d, x0, S11, t0);
    var d := FF(st.d, a, st.b, st.c, x1, S12, t1);
    var c := FF(st.c, d, a, st.b, x2, S13, t2);
    var b := FF(st.b, c, d, a, x3, S14, t3);
    State(a, b, c, d)
  }

  /** Four steps of round two, updating `a`, `d`, `c` and `b` in turn with shifts S21, S22, S23, S24. */
  function QuarterTwo(st: State, x0: Word, x1: Word, x2: Word, x3: Word, t0: Word, t1: Word, t2: Word, t3: Word): State {
    var a := GG(st.a, st.b, st.c, st.d, x0, S21, t0);
    var d := GG(st.d, a, st.b, st.c, x1, S22, t1);
    var c := GG(st.c, d, a, st.b, x2, S23, t2);
    var b := GG(st.b, c, d, a, x3, S24, t3);
    State(a, b, c, d)
  }

  /** Four steps of round three, updating `a`, `d`, `c` and `b` in turn with shifts S31, S32, S33, S34. */
  function QuarterThree(st: State, x0: Word, x1: Word, x2: Word, x3: Word, t0: Word, t1: Word, t2: Word, t3: Word): State {
    var a := HH(st.a, st.b, st.c, st.d, x0, S31, t0);
    var d := HH(st.d, a, st.b, st.c, x1, S32, t1);
    var c := HH(st.c, d, a, st.b, x2, S33, t2);
    var b := HH(st.b, c, d, a, x3, S34, t3);
    State(a, b, c, d)
  }

  /** Four steps of round four, updating `a`, `d`, `c` and `b` in turn with shifts S41, S42, S43, S44. */
  function QuarterFour(st: State, x0: Word, x1: Word, x2: Word, x3: Word, t0: Word, t1: Word, t2: Word, t3: Word): State {
    var a := II(st.a, st.b, st.c, st.d, x0, S41, t0);
    var d := II(st.d, a, st.b, st.c, x1, S42, t1);
    var c := II(st.c, d, a, st.b, x2, S43, t2);
    var b := II(st.b, c, d, a, x3, S44, t3);
    State(a, b, c, d)
  }

  /** The sixteen `FF` steps of the block loop, in the source's order of message words and constants. */
  function RoundOne(st: State, x: seq<Word>): State
  {
    var s1 := QuarterOne(st, At(x, 0), At(x, 1), At(x, 2), At(x, 3), 0xD76AA478, 0xE8C7B756, 0x242070DB, 0xC1BDCEEE);
    var s2 := QuarterOne(s1, At(x, 4), At(x, 5), At(x, 6), At(x, 7), 0xF57C0FAF, 0x4787C62A, 0xA8304613, 0xFD469501);
    var s3 := QuarterOne(s2, At(x, 8), At(x, 9), At(x, 10), At(x, 11), 0x698098D8, 0x8B44F7AF, 0xFFFF5BB1, 0x895CD7BE);
    QuarterOne(s3, At(x, 12), At(x, 13), At(x, 14), At(x, 15), 0x6B901122, 0xFD987193, 0xA679438E, 0x49B40821)
  }

  /** The sixteen `GG` steps of the block loop, in the source's order of message words and constants. */
  function RoundTwo(st: State, x: seq<Word>): State
  {
    var s1 := QuarterTwo(st, At(x, 1), At(x, 6), At(x, 11), At(x, 0), 0xF61E2562, 0xC040B340, 0x265E5A51, 0xE9B6C7AA);
    var s2 := QuarterTwo(s1, At(x, 5), At(x, 10), At(x, 15), At(x, 4), 0xD62F105D, 0x2441453, 0xD8A1E681, 0xE7D3FBC8);
    var s3 := QuarterTwo(s2, At(x, 9), At(x, 14), At(x, 3), At(x, 8), 0x21E1CDE6, 0xC33707D6, 0xF4D50D87, 0x455A14ED);
    QuarterTwo(s3, At(x, 13), At(x, 2), At(x, 7), At(x, 12), 0xA9E3E905, 0xFCEFA3F8, 0x676F02D9, 0x8D2A4C8A)
  }

  /** The sixteen `HH` steps of the block loop, in the source's order of message words and constants. */
  function RoundThree(st: State, x: seq<Word>): State
  {
    var s1 := QuarterThree(st, At(x, 5), At(x, 8), At(x, 11), At(x, 14), 0xFFFA3942, 0x8771F681, 0x6D9D6122, 0xFDE5380C);
    var s2 := QuarterThree(s1, At(x, 1), At(x, 4), At(x, 7), At(x, 10), 0xA4BEEA44, 0x4BDECFA9, 0xF6BB4B60, 0xBEBFBC70);
    var s3 := QuarterThree(s2, At(x, 13), At(x, 0), At(x, 3), At(x, 6), 0x289B7EC6, 0xEAA127FA, 0xD4EF3085, 0x4881D05);
    QuarterThree(s3, At(x, 9), At(x, 12), At(x, 15), At(x, 2), 0xD9D4D039, 0xE6DB99E5, 0x1FA27CF8, 0xC4AC5665)
  }

  /** The sixteen `II` steps of the block loop, in the source's order of message words and constants. */
  function RoundFour(st: State, x: seq<Word>): State
  {
    var s1 := QuarterFour(st, At(x, 0), At(x, 7), At(x, 14), At(x, 5), 0xF4292244, 0x432AFF97, 0xAB9423A7, 0xFC93A039);
    var s2 := QuarterFour(s1, At(x, 12), At(x, 3), At(x, 10), At(x, 1), 0x655B59C3, 0x8F0CCC92, 0xFFEFF47D, 0x85845DD1);
    var s3 := QuarterFour(s2, At(x, 8), At(x, 15), At(x, 6), At(x, 13), 0x6FA87E4F, 0xFE2CE6E0, 0xA3014314, 0x4E0811A1);
    QuarterFour(s3, At(x, 4), At(x, 11), At(x, 2), At(x, 9), 0xF7537E82, 0xBD3AF235, 0x2AD7D2BB, 0xEB86D391)
  }

  /** One pass of the block loop on the sixteen words `x`: the 64 steps, then the chaining sums. */
  function Compress(st: State, x: seq<Word>): State
  {
    var r := RoundFour(RoundThree(RoundTwo(RoundOne(st, x), x), x), x);
    State(AddUnsigned(r.a, st.a), AddUnsigned(r.b, st.b), AddUnsigned(r.c, st.c), AddUnsigned(r.d, st.d))
  }

  /** The chaining variables after the first `n` blocks of `x`. */
  function Digest(x: seq<Word>, n: nat): State {
    Chain(x, n, Init, Compress)
  }

  /** The digest of the padded message of the bytes `b`. */
  function Md5OfBytes(b: seq<Word>): State
    requires 8 * |b| < 0x1_0000_0000
  {
    Digest(Md5Message(b), LastBlock(|b|) + 1)
  }

  /** The block loop on any array that reads as the padded message computes its digest. */
  lemma PaddedDigest(x: seq<Word>, b: seq<Word>)
    requires 8 * |b| < 0x1_0000_0000
    requires SameWords(x, Md5Message(b)) && BlockCount(x) == LastBlock(|b|) + 1
    ensures Chain(x, BlockCount(x), Init, Compress) == Md5OfBytes(b)
  {
    ChainSameWords(x, Md5Message(b), BlockCount(x), Init, Compress);
  }

  /** The digest of the padded message of the UTF-8 bytes of `s`. */
  function Md5State(s: seq<Utf8.Unit>): State
    requires |Utf8.Utf8Of(s)| < 0x1000_0000
  {
    Md5OfBytes(Bytes(Utf8.Utf8Of(s)))
  }

  /** What `MD5` returns: the four chaining variables, each lowest byte first, in hex. */
  function Md5Hex(s: seq<Utf8.Unit>): string
    requires |Utf8.Utf8Of(s)| < 0x1000_0000
  {
    var st := Md5State(s);
    HexOfBytes(LeBytes([st.a, st.b, st.c, st.d]))
  }

  /** `toLowerCase` leaves lower-case hex alone. */
  lemma LowerHexUnchanged(h: string)
    requires IsLowerHex(h)
    ensures Text.ToLower(h) == h
  {
  }

  /** `wordToHex` four times in a row is the hex of the four words' bytes. */
  lemma {:induction false} FourWordsHex(a: Word, b: Word, c: Word, d: Word)
    ensures HexOfBytes(LeBytes([a, b, c, d]))
      == HexOfBytes(LeBytes([a])) + HexOfBytes(LeBytes([b])) + HexOfBytes(LeBytes([c])) + HexOfBytes(LeBytes([d]))
  {
    BytesOfAppend([a], [b], Lane8);
    BytesOfAppend([a, b], [c], Lane8);
    BytesOfAppend([a, b, c], [d], Lane8);
    assert [a] + [b] == [a, b] && [a, b] + [c] == [a, b, c] && [a, b, c] + [d] == [a, b, c, d];
    FlattenAppend(LeBytes([a]), LeBytes([b]), HexByte);
    FlattenAppend(LeBytes([a, b]), LeBytes([c]), HexByte);
    FlattenAppend(LeBytes([a, b, c]), LeBytes([d]), HexByte);
  }

  /**
   * `MD5(string)`: 32 lower-case hex digits, the digest of the padded UTF-8
   * text. The text must stay below 2^28 bytes, where `len >> 5` would turn
   * negative.
   */
  method MD5(s: seq<Utf8.Unit>) returns (hash: string)
    requires |Utf8.Utf8Of(s)| < 0x1000_0000
    ensures hash == Md5Hex(s)
    ensures |hash| == 32 && IsLowerHex(hash)
  {
    var str := Utf8.Utf8Encode(s);
    var x := ConvertToWordArray(str);
    var len := |str| * 8;
    x := Md5Pad(x, len, Bytes(str));
    var st := ChainLoop(x, Init, Compress);
    PaddedDigest(x, Bytes(str));
    hash := StateHex(st);
  }

  /** `wordToHex(a) + wordToHex(b) + wordToHex(c) + wordToHex(d)`, then `toLowerCase`. */
  method StateHex(st: State) returns (hash: string)
    ensures hash == HexOfBytes(LeBytes([st.a, st.b, st.c, st.d]))
    ensures |hash| == 32 && IsLowerHex(hash)
  {
    var ha := WordToHex(st.a);
    var hb := WordToHex(st.b);
    var hc := WordToHex(st.c);
    var hd := WordToHex(st.d);
    FourWordsHex(st.a, st.b, st.c, st.d);
    hash := ha + hb + hc + hd;
    HexOfBytesShape(LeBytes([st.a, st.b, st.c, st.d]));
    LowerHexUnchanged(hash);
    hash := Text.ToLower(hash);
  }
}
