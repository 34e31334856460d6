/**
 * The `SHA256` function of js/crypto.js: `utf8Encode`, `str2binb`, then
 * `core_sha256` (the padding, and the block loop with its 64-word message
 * schedule `W` and the eight working variables), and `binb2hex`.
 *
 * `core_sha256` keeps the schedule and the chaining value in arrays that it
 * updates in place; the model does the same, and proves the arrays equal to
 * a functional description of the schedule, the rounds and the chaining.
 * It makes no claim that the constants match the published algorithm.
 */
module Sha256 {
  import opened CryptoBits
  import opened Packing
  import opened Padding
  import Utf8

  /** The eight working variables `a` .. `h`; also the eight words of `HASH`. */
  datatype Regs = Regs(a: Word, b: Word, c: Word, d: Word, e: Word, f: Word, g: Word, h: Word) {
    /** The same words as the array `HASH` holds them. */
    function AsSeq(): (r: seq<Word>)
      ensures |r| == 8
    {
      [a, b, c, d, e, f, g, h]
    }
  }

  function RegsOf(s: seq<Word>): (r: Regs)
    requires |s| == 8
    ensures r.AsSeq() == s
  {
    Regs(s[0], s[1], s[2], s[3], s[4], s[5], s[6], s[7])
  }

  /** The round constants `K`, sixteen at a time. */
  const K0: seq<Word> := [
    0x428A2F98, 0x71374491, 0xB5C0FBCF, 0xE9B5DBA5,
    0x3956C25B, 0x59F111F1, 0x923F82A4, 0xAB1C5ED5,
    0xD807AA98, 0x12835B01, 0x243185BE, 0x550C7DC3,
    0x72BE5D74, 0x80DEB1FE, 0x9BDC06A7, 0xC19BF174
  ]

  const K1: seq<Word> := [
    0xE49B69C1, 0xEFBE4786, 0x0FC19DC6, 0x240CA1CC,
    0x2DE92C6F, 0x4A7484AA, 0x5CB0A9DC, 0x76F988DA,
    0x983E5152, 0xA831C66D, 0xB00327C8, 0xBF597FC7,
    0xC6E00BF3, 0xD5A79147, 0x06CA6351, 0x14292967
  ]

  const K2: seq<Word> := [
    0x27B70A85, 0x2E1B2138, 0x4D2C6DFC, 0x53380D13,
    0x650A7354, 0x766A0ABB, 0x81C2C92E, 0x92722C85,
    0xA2BFE8A1, 0xA81A664B, 0xC24B8B70, 0xC76C51A3,
    0xD192E819, 0xD6990624, 0xF40E3585, 0x106AA070
  ]

  const K3: seq<Word> := [
    0x19A4C116, 0x1E376C08, 0x2748774C, 0x34B0BCB5,
    0x391C0CB3, 0x4ED8AA4A, 0x5B9CCA4F, 0x682E6FF3,
    0x748F82EE, 0x78A5636F, 0x84C87814, 0x8CC70208,
    0x90BEFFFA, 0xA4506CEB, 0xBEF9A3F7, 0xC67178F2
  ]

  /** `K[j]`. */
  function K(j: nat): Word
    requires j < 64
  {
    if j < 16 then K0[j] else if j < 32 then K1[j - 16] else if j < 48 then K2[j - 32] else K3[j - 48]
  }

  /** The initial contents of `HASH`. */
  const Init := Regs(0x6A09E667, 0xBB67AE85, 0x3C6EF372, 0xA54FF53A,
                    0x510E527F, 0x9B05688C, 0x1F83D9AB, 0x5BE0CD19)

  // ---------------------------------------------------------------- the functional description

  /** `W[j]` for `j >= 16`, from the words `w` already scheduled. */
  function Expand(w: seq<Word>, j: nat): Word
    requires 16 <= j <= |w|
  {
    AddUnsigned(AddUnsigned(AddUnsigned(Gamma1(w[j - 2]), w[j - 7]), Gamma0(w[j - 15])), w[j - 16])
  }

  /** `W[0 .. n - 1]` for the sixteen message words `blk`: the block itself, then expanded words. */
  function Schedule(blk: seq<Word>, n: nat): (r: seq<Word>)
    requires n <= 64
    ensures |r| == n
  {
    if n == 0 then []
    else
      var w := Schedule(blk, n - 1);
      w + [if n - 1 < 16 then At(blk, n - 1) else Expand(w, n - 1)]
  }

  /** `T1 = h + Sigma1256(e) + Ch(e, f, g) + K[j] + W[j]`, added in the source's order. */
  function T1(r: Regs, k: Word, w: Word): Word {
    AddUnsigned(AddUnsigned(AddUnsigned(AddUnsigned(r.h, Sigma1(r.e)), Ch(r.e, r.f, r.g)), k), w)
  }

  /** `T2 = Sigma0256(a) + Maj(a, b, c)`. */
  function T2(r: Regs): Word {
    AddUnsigned(Sigma0(r.a), Maj(r.a, r.b, r.c))
  }

  /** One pass of the inner loop on the working variables, with round constant `k` and schedule word `w`. */
  function Round(r: Regs, k: Word, w: Word): Regs {
    var t1, t2 := T1(r, k, w), T2(r);
    Regs(AddUnsigned(t1, t2), r.a, r.b, r.c, AddUnsigned(r.d, t1), r.e, r.f, r.g)
  }

  /** The working variables after one round per word of `w`, round `j` taking `K[j]` and `w[j]`. */
  function Rounds(r: Regs, w: seq<Word>): Regs
    requires |w| <= 64
  {
    if w == [] then r else Round(Rounds(r, w[..|w| - 1]), K(|w| - 1), w[|w| - 1])
  }

  /** One pass of the block loop: 64 rounds from the chaining value, then the sums into `HASH`. */
  function Compress(hash: Regs, blk: seq<Word>): Regs
  {
    RegsOf(SumWords(Rounds(hash, Schedule(blk, 64)).AsSeq(), hash.AsSeq()))
  }

  /** The words of `x` added to those of `y`, slot by slot, each wrapping around. */
  function SumWords(x: seq<Word>, y: seq<Word>): (r: seq<Word>)
    requires |x| == |y|
    ensures |r| == |x|
  {
    seq(|x|, i requires 0 <= i < |x| => AddUnsigned(x[i], y[i]))
  }

  /** The chaining value after the padded message of the bytes `b`. */
  function Sha256OfBytes(b: seq<Word>): Regs
    requires 8 * |b| < 0x1_0000_0000
  {
    Chain(Sha256Message(b), LastBlock(|b|) + 1, Init, Compress)
  }

  /** What `SHA256` returns: the eight words of `HASH`, each highest byte first, in hex. */
  function Sha256Hex(s: seq<Utf8.Unit>): string
    requires |Utf8.Utf8Of(s)| < 0x1000_0000
  {
    HexOfBytes(BeBytes(Sha256OfBytes(Bytes(Utf8.Utf8Of(s))).AsSeq()))
  }

  // ---------------------------------------------------------------- properties of the description

  /**
   * `T1` and `T2` are wrapping sums of their five and two terms, and a round
   * is a shift register: `a` and `e` take new values, `b`, `c`, `d` take the
   * old `a`, `b`, `c`, and `f`, `g`, `h` the old `e`, `f`, `g`.
   */
  lemma RoundIsShift(r: Regs, k: Word, w: Word)
    ensures T1(r, k, w) == Plus(Plus(Plus(Plus(r.h, Sigma1(r.e)), Ch(r.e, r.f, r.g)), k), w)
    ensures T2(r) == Plus(Sigma0(r.a), Maj(r.a, r.b, r.c))
    ensures Round(r, k, w) == Regs(Plus(T1(r, k, w), T2(r)), r.a, r.b, r.c, Plus(r.d, T1(r, k, w)), r.e, r.f, r.g)
  {
    AddUnsignedWraps(r.h, Sigma1(r.e));
    AddUnsignedWraps(Plus(r.h, Sigma1(r.e)), Ch(r.e, r.f, r.g));
    AddUnsignedWraps(Plus(Plus(r.h, Sigma1(r.e)), Ch(r.e, r.f, r.g)), k);
    AddUnsignedWraps(Plus(Plus(Plus(r.h, Sigma1(r.e)), Ch(r.e, r.f, r.g)), k), w);
    AddUnsignedWraps(Sigma0(r.a), Maj(r.a, r.b, r.c));
    AddUnsignedWraps(T1(r, k, w), T2(r));
    AddUnsignedWraps(r.d, T1(r, k, w));
  }

  /** A shorter schedule is a prefix of a longer one. */
  lemma {:induction false} SchedulePrefix(blk: seq<Word>, k: nat, n: nat)
    requires k <= n <= 64
    ensures Schedule(blk, n)[..k] == Schedule(blk, k)
    decreases n
  {
    if k < n {
      SchedulePrefix(blk, k, n - 1);
      assert Schedule(blk, n)[..n - 1] == Schedule(blk, n - 1);
      assert Schedule(blk, n)[..k] == Schedule(blk, n)[..n - 1][..k];
    }
  }

  /**
   * The schedule starts with the sixteen words of the block and continues
   * with `W[j] = Gamma1(W[j - 2]) + W[j - 7] + Gamma0(W[j - 15]) + W[j - 16]`
   * wrapping around, the recurrence of section 6.2.2 of FIPS 180-4.
   */
  lemma ScheduleWords(blk: seq<Word>, j: nat)
    requires j < 64
    ensures var w := Schedule(blk, 64);
      w[j] == if j < 16 then At(blk, j) else Plus(Plus(Plus(Gamma1(w[j - 2]), w[j - 7]), Gamma0(w[j - 15])), w[j - 16])
  {
    var w := Schedule(blk, 64);
    SchedulePrefix(blk, j + 1, 64);
    SchedulePrefix(blk, j, 64);
    var p := Schedule(blk, j);
    assert w[j] == Schedule(blk, j + 1)[j];
    if j >= 16 {
      assert p[j - 2] == w[j - 2] && p[j - 7] == w[j - 7] && p[j - 15] == w[j - 15] && p[j - 16] == w[j - 16];
      AddUnsignedWraps(Gamma1(p[j - 2]), p[j - 7]);
      AddUnsignedWraps(Plus(Gamma1(p[j - 2]), p[j - 7]), Gamma0(p[j - 15]));
      AddUnsignedWraps(Plus(Plus(Gamma1(p[j - 2]), p[j - 7]), Gamma0(p[j - 15])), p[j - 16]);
    }
  }

  // ---------------------------------------------------------------- the arrays

  /**
   * `core_sha256(m, l)`: the padding, then the block loop, which rewrites
   * the 64-word schedule `W` for every block and adds each block's rounds
   * into `HASH`, both in place.
   */
  method CoreSha256(m: seq<Word>, l: nat, ghost b: seq<Word>) returns (hash: array<Word>)
    requires m == BigEndian(b) && l == 8 * |b| && l < 0x8000_0000
    ensures fresh(hash) && hash[..] == Sha256OfBytes(b).AsSeq()
  {
    var w := new Word[64];
    hash := new Word[8] [0x6A09E667, 0xBB67AE85, 0x3C6EF372, 0xA54FF53A, 0x510E527F, 0x9B05688C, 0x1F83D9AB, 0x5BE0CD19];
    var padded := Sha256Pad(m, l, b);
    BlockLoop(hash, w, padded);
    PaddedDigest(padded, b);
  }

  /** `for (let i = 0; i < m.length; i += 16)`: every started block of `m` is added into `HASH` in turn. */
  method BlockLoop(hash: array<Word>, w: array<Word>, m: seq<Word>)
    requires hash.Length == 8 && w.Length == 64 && hash != w
    requires hash[..] == Init.AsSeq()
    modifies hash, w
    ensures hash[..] == Chain(m, BlockCount(m), Init, Compress).AsSeq()
  {
    var i := 0;
    ghost var blocks := 0;
    ghost var st := Init;
    while i < |m|
      invariant i == 16 * blocks && i <= |m| + 15
      invariant hash[..] == st.AsSeq()
      invariant st == Chain(m, blocks, Init, Compress)
      decreases |m| - i
    {
      CompressBlock(hash, w, m, i, blocks, st);
      ChainStep(m, blocks, Init, Compress);
      st := Compress(st, Block(m, blocks));
      i := i + 16;
      blocks := blocks + 1;
    }
    LoopEnd(|m|, i, blocks);
  }

  /** The loop stops at the first multiple of 16 not below `n`, after one pass per started block. */
  lemma LoopEnd(n: nat, i: nat, blocks: nat)
    requires i == 16 * blocks && n <= i <= n + 15
    ensures blocks == (n + 15) / 16
  {
  }

  /** The block loop on any array that reads as the padded message computes its chaining value. */
  lemma PaddedDigest(x: seq<Word>, b: seq<Word>)
    requires 8 * |b| < 0x1_0000_0000
    requires SameWords(x, Sha256Message(b)) && BlockCount(x) == LastBlock(|b|) + 1
    ensures Chain(x, BlockCount(x), Init, Compress) == Sha256OfBytes(b)
  {
    ChainSameWords(x, Sha256Message(b), BlockCount(x), Init, Compress);
  }

  /** The body of the block loop for the block at `m[i]`, the `t`-th. */
  method CompressBlock(hash: array<Word>, w: array<Word>, m: seq<Word>, i: nat, ghost t: nat, ghost start: Regs)
    requires hash.Length == 8 && w.Length == 64 && hash != w && i == 16 * t
    requires hash[..] == start.AsSeq()
    modifies hash, w
    ensures hash[..] == Compress(start, Block(m, t)).AsSeq()
  {
    var r := RoundLoop(w, m, i, t, Regs(hash[0], hash[1], hash[2], hash[3], hash[4], hash[5], hash[6], hash[7]));
    AddInto(hash, r.AsSeq());
  }

  /** `for (let j = 0; j < 64; j++)`: the schedule word `W[j]`, then one round on the working variables. */
  method RoundLoop(w: array<Word>, m: seq<Word>, i: nat, ghost t: nat, start: Regs) returns (r: Regs)
    requires w.Length == 64 && i == 16 * t
    modifies w
    ensures w[..] == Schedule(Block(m, t), 64)
    ensures r == Rounds(start, Schedule(Block(m, t), 64))
  {
    ghost var blk := Block(m, t);
    r := start;
    var j := 0;
    while j < 64
      invariant 0 <= j <= 64
      invariant w[..j] == Schedule(blk, j)
      invariant r == Rounds(start, w[..j])
    {
      ScheduleWord(w, m, i, j, t);
      r := RoundStep(r, K(j), w[j]);
      assert w[..j + 1][..j] == w[..j];
      j := j + 1;
    }
    assert w[..] == w[..64];
  }

  /** One pass of the inner loop's body after `W[j]`: `T1`, `T2`, then the eight assignments. */
  method RoundStep(regs: Regs, k: Word, wj: Word) returns (next: Regs)
    ensures next == Round(regs, k, wj)
  {
    var a, b, c, d, e, f, g, h := regs.a, regs.b, regs.c, regs.d, regs.e, regs.f, regs.g, regs.h;
    var t1 := AddUnsigned(AddUnsigned(AddUnsigned(AddUnsigned(h, Sigma1(e)), Ch(e, f, g)), k), wj);
    var t2 := AddUnsigned(Sigma0(a), Maj(a, b, c));
    h := g;
    g := f;
    f := e;
    e := AddUnsigned(d, t1);
    d := c;
    c := b;
    b := a;
    a := AddUnsigned(t1, t2);
    next := Regs(a, b, c, d, e, f, g, h);
  }

  /**
   * `HASH[0] = safe_add(a, HASH[0])` .. `HASH[7] = safe_add(h, HASH[7])`,
   * the eight statements written as one loop over the slots.
   */
  method AddInto(hash: array<Word>, r: seq<Word>)
    requires hash.Length == |r|
    modifies hash
    ensures hash[..] == SumWords(r, old(hash[..]))
  {
    for k := 0 to hash.Length
      invariant forall i :: 0 <= i < k ==> hash[i] == AddUnsigned(r[i], old(hash[i]))
      invariant forall i :: k <= i < hash.Length ==> hash[i] == old(hash[i])
    {
      hash[k] := AddUnsigned(r[k], hash[k]);
    }
    assert forall i :: 0 <= i < hash.Length ==> hash[..][i] == SumWords(r, old(hash[..]))[i];
  }

  /** `if (j < 16) W[j] = m[j + i]; else W[j] = ...`: the next word of the schedule. */
  method ScheduleWord(w: array<Word>, m: seq<Word>, i: nat, j: nat, ghost t: nat)
    requires w.Length == 64 && j < 64 && i == 16 * t
    requires w[..j] == Schedule(Block(m, t), j)
    modifies w
    ensures w[..j + 1] == Schedule(Block(m, t), j + 1)
  {
    if j < 16 {
      w[j] := At(m, j + i);
    } else {
      w[j] := AddUnsigned(AddUnsigned(AddUnsigned(Gamma1(w[j - 2]), w[j - 7]), Gamma0(w[j - 15])), w[j - 16]);
    }
    assert w[..j + 1] == w[..j] + [w[j]];
  }

  /**
   * `SHA256(s)`: 64 lower-case hex digits, the chaining value after the
   * padded UTF-8 text. The text must stay below 2^28 bytes, where `l >> 5`
   * would turn negative.
   */
  method SHA256(s: seq<Utf8.Unit>) returns (hash: string)
    requires |Utf8.Utf8Of(s)| < 0x1000_0000
    ensures hash == Sha256Hex(s)
    ensures |hash| == 64 && IsLowerHex(hash)
  {
    var str := Utf8.Utf8Encode(s);
    var bin := Str2Binb(str);
    var words := CoreSha256(bin, |str| * 8, Bytes(str));
    hash := Binb2Hex(words[..]);
  }
}
