/**
 * The two padding statements of js/crypto.js and the blocks the compression
 * loops then read. MD5 (lines 151-152) and `core_sha256` (lines 312-313) both
 * or a 0x80 byte in after the text and store the bit length in the last word
 * but one (MD5, little-endian) or the last word (SHA-256, big-endian) of the
 * final sixteen-word block, as section 3 of RFC 1321 and section 5.1.1 of
 * FIPS 180-4 describe.
 *
 * Storing past the end of a JavaScript array leaves `undefined` slots in
 * between, and the loops read slots past the end as well; every use of those
 * values goes through a bitwise operator, which turns `undefined` into 0.
 * `At` reads both kinds of missing slot as 0.
 */
module Padding {
  import opened CryptoBits
  import opened Packing

  /** `ws[i] = v`: past the end, the slots in between stay empty. */
  function Store(ws: seq<Word>, i: nat, v: Word): (r: seq<Word>)
    ensures |r| == if i < |ws| then |ws| else i + 1
  {
    if i < |ws| then ws[i := v] else ws + Zeros(i - |ws|) + [v]
  }

  /** A store changes the slot it writes and only that slot. */
  lemma StoreAt(ws: seq<Word>, i: nat, v: Word, j: int)
    ensures At(Store(ws, i, v), j) == if j == i then v else At(ws, j)
  {
    if i >= |ws| && j != i {
      AtZeros(ws, i - |ws|, j);
      if 0 <= j < |ws| + (i - |ws|) {
        assert Store(ws, i, v)[j] == (ws + Zeros(i - |ws|))[j];
      }
    }
  }

  /** `(len + 64) >>> 9` for `len = 8n`: the index of the last 512-bit block. */
  function LastBlock(n: nat): nat { (8 * n + 64) / 512 }

  lemma LastBlockBounds(n: nat)
    ensures n + 1 <= 64 * LastBlock(n) + 56 <= n + 64
  {
  }

  /**
   * The bytes of the padded message up to its length field: the text, one
   * 0x80 byte, then zeros until the length is 56 modulo 64.
   */
  function PadBytes(b: seq<Word>): (r: seq<Word>)
    ensures |r| == 64 * LastBlock(|b|) + 56
  {
    LastBlockBounds(|b|);
    b + [0x80] + Zeros(64 * LastBlock(|b|) + 55 - |b|)
  }

  /** The bit length as the word the last block holds. */
  function LengthWord(len: nat): Word
    requires len < 0x1_0000_0000
  {
    len as Word
  }

  /** The padded MD5 message: its bytes little-endian, then the bit length as a little-endian 64-bit count. */
  function Md5Message(b: seq<Word>): (r: seq<Word>)
    requires 8 * |b| < 0x1_0000_0000
    ensures |r| == 16 * (LastBlock(|b|) + 1)
  {
    LittleEndian(PadBytes(b)) + [LengthWord(8 * |b|), 0]
  }

  /** The padded SHA-256 message: its bytes big-endian, then the bit length as a big-endian 64-bit count. */
  function Sha256Message(b: seq<Word>): (r: seq<Word>)
    requires 8 * |b| < 0x1_0000_0000
    ensures |r| == 16 * (LastBlock(|b|) + 1)
  {
    BigEndian(PadBytes(b)) + [0, LengthWord(8 * |b|)]
  }

  /** Two arrays a bitwise reader cannot tell apart. */
  ghost predicate SameWords(x: seq<Word>, y: seq<Word>) {
    forall i :: At(x, i) == At(y, i)
  }

  /** Words `16t` to `16t + 15`, as the loops read them. */
  function Block(x: seq<Word>, t: nat): (r: seq<Word>)
    ensures |r| == 16
  {
    seq(16, j requires 0 <= j < 16 => At(x, 16 * t + j))
  }

  /** `for (k = 0; k < x.length; k += 16)` runs once per started block. */
  function BlockCount(x: seq<Word>): nat { (|x| + 15) / 16 }

  lemma SameBlock(x: seq<Word>, y: seq<Word>, t: nat)
    requires SameWords(x, y)
    ensures Block(x, t) == Block(y, t)
  {
  }

  /** The state after the first `n` blocks of `x`, each folded in by `compress` in order. */
  function Chain<S>(x: seq<Word>, n: nat, init: S, compress: (S, seq<Word>) -> S): S
  {
    if n == 0 then init else compress(Chain(x, n - 1, init, compress), Block(x, n - 1))
  }

  /** One more block is one more compression. */
  lemma ChainStep<S>(x: seq<Word>, n: nat, init: S, compress: (S, seq<Word>) -> S)
    ensures Chain(x, n + 1, init, compress) == compress(Chain(x, n, init, compress), Block(x, n))
  {
  }

  /** Arrays that read alike are compressed alike. */
  lemma {:induction false} ChainSameWords<S>(x: seq<Word>, y: seq<Word>, n: nat, init: S, compress: (S, seq<Word>) -> S)
    requires SameWords(x, y)
    ensures Chain(x, n, init, compress) == Chain(y, n, init, compress)
  {
    if n > 0 {
      ChainSameWords(x, y, n - 1, init, compress);
      SameBlock(x, y, n - 1);
    }
  }

  /**
   * `for (k = 0; k < x.length; k += 16)`: the block loop of both digests,
   * compressing every started block of `x` into the state in turn.
   */
  method ChainLoop<S>(x: seq<Word>, init: S, compress: (S, seq<Word>) -> S) returns (st: S)
    ensures st == Chain(x, BlockCount(x), init, compress)
  {
    st := init;
    var k := 0;
    ghost var blocks := 0;
    while k < |x|
      invariant k == 16 * blocks && k <= |x| + 15
      invariant st == Chain(x, blocks, init, compress)
      decreases |x| - k
    {
      assert k / 16 == blocks;
      var block := Block(x, k / 16);  // x[k + 0] .. x[k + 15]
      st := compress(st, block);
      ChainStep(x, blocks, init, compress);
      k := k + 16;
      blocks := blocks + 1;
    }
    assert blocks == BlockCount(x);
  }

  /** `len / 32`, `len % 32` and `(len + 64) >>> 9` for the bit length `len = 8n`. */
  lemma LengthShifts(len: nat, n: nat)
    requires len == 8 * n
    ensures len / 32 == n / 4 && (len % 32) / 8 == n % 4 && (24 - len % 32) / 8 == 3 - n % 4
    ensures (len + 64) / 512 == LastBlock(n)
  {
  }

  /** Or-ing in the 0x80 byte is packing the text with that byte appended (little-endian). */
  lemma MarkerLittle(b: seq<Word>)
    ensures LittleEndian(b + [0x80]) == OrInto(LittleEndian(b), |b| / 4, Lane(0x80, |b| % 4))
  {
    var b1 := b + [0x80];
    assert b1[..|b|] == b && b1[..|b| + 1] == b1;
    LittleEndianStep(b1, |b|);
  }

  /** Or-ing in the 0x80 byte is packing the text with that byte appended (big-endian). */
  lemma MarkerBig(b: seq<Word>)
    ensures BigEndian(b + [0x80]) == OrInto(BigEndian(b), |b| / 4, Lane(0x80, 3 - |b| % 4))
  {
    var b1 := b + [0x80];
    assert b1[..|b|] == b && b1[..|b| + 1] == b1;
    BigEndianStep(b1, |b|);
  }

  /**
   * Storing `len` one or two slots past the packed words reads as those
   * words followed by a two-word trailer holding `len` in that slot.
   */
  lemma TrailerReads(words: seq<Word>, marked: seq<Word>, slot: nat, len: Word, trailer: seq<Word>)
    requires SameWords(marked, words) && |marked| <= |words|
    requires |trailer| == 2 && |words| <= slot < |words| + 2
    requires trailer[slot - |words|] == len && trailer[1 - (slot - |words|)] == 0
    ensures SameWords(Store(marked, slot, len), words + trailer)
    ensures |Store(marked, slot, len)| == slot + 1
  {
    var padded, message := Store(marked, slot, len), words + trailer;
    forall j
      ensures At(padded, j) == At(message, j)
    {
      StoreAt(marked, slot, len, j);
      if 0 <= j < |words| {
        assert message[j] == words[j];
      } else if |words| <= j < |words| + 2 {
        assert message[j] == trailer[j - |words|];
      }
    }
  }

  /** The packed text with the marker, then zeros to the length field, reads as the marked words. */
  lemma PaddedWords(b: seq<Word>, pack: Quad -> Word)
    requires pack(Quad(0, 0, 0, 0)) == 0
    ensures SameWords(Words(b + [0x80], pack), Words(PadBytes(b), pack))
    ensures |Words(b + [0x80], pack)| <= |Words(PadBytes(b), pack)| == 16 * LastBlock(|b|) + 14
  {
    var z := 64 * LastBlock(|b|) + 55 - |b|;
    LastBlockBounds(|b|);
    assert PadBytes(b) == b + [0x80] + Zeros(z);
    WordsZeros(b + [0x80], z, pack);
  }

  /**
   * MD5's `x[len >> 5] |= 0x80 << (len % 32)` and
   * `x[(((len + 64) >>> 9) << 4) + 14] = len` on the packed text: what the
   * block loop then reads is the padded message of RFC 1321, one block per
   * sixteen words. The shifts are those of a length below 2^31, where `>>`
   * and `>>>` agree with division.
   */
  method Md5Pad(x: seq<Word>, len: nat, ghost b: seq<Word>) returns (padded: seq<Word>)
    requires x == LittleEndian(b) && len == 8 * |b| && len < 0x8000_0000
    ensures SameWords(padded, Md5Message(b))
    ensures BlockCount(padded) == LastBlock(|b|) + 1
  {
    LengthShifts(len, |b|);
    MarkerLittle(b);
    padded := OrInto(x, len / 32, Lane(0x80, (len % 32) / 8));
    PaddedWords(b, Pack);
    TrailerReads(LittleEndian(PadBytes(b)), padded, (len + 64) / 512 * 16 + 14, LengthWord(len), [LengthWord(len), 0]);
    padded := Store(padded, (len + 64) / 512 * 16 + 14, LengthWord(len));
  }

  /**
   * `core_sha256`'s `m[l >> 5] |= 0x80 << (24 - l % 32)` and
   * `m[((l + 64 >> 9) << 4) + 15] = l`: the padded message of FIPS 180-4.
   */
  method Sha256Pad(m: seq<Word>, l: nat, ghost b: seq<Word>) returns (padded: seq<Word>)
    requires m == BigEndian(b) && l == 8 * |b| && l < 0x8000_0000
    ensures SameWords(padded, Sha256Message(b))
    ensures BlockCount(padded) == LastBlock(|b|) + 1
  {
    LengthShifts(l, |b|);
    MarkerBig(b);
    padded := OrInto(m, l / 32, Lane(0x80, (24 - l % 32) / 8));
    PaddedWords(b, PackReversed);
    TrailerReads(BigEndian(PadBytes(b)), padded, (l + 64) / 512 * 16 + 15, LengthWord(l), [0, LengthWord(l)]);
    padded := Store(padded, (l + 64) / 512 * 16 + 15, LengthWord(l));
  }

  /** The padding writes whole blocks, so the block count is the last block plus one. */
  lemma MessageBlocks(b: seq<Word>)
    requires 8 * |b| < 0x1_0000_0000
    ensures BlockCount(Md5Message(b)) == LastBlock(|b|) + 1
    ensures BlockCount(Sha256Message(b)) == LastBlock(|b|) + 1
  {
  }
}
