/**
 * Packing of byte strings into 32-bit words and back into hex, as js/crypto.js
 * does it: `convertToWordArray` and `wordToHex` (little-endian, for MD5),
 * `str2binb` and `binb2hex` (big-endian, for SHA-256).
 *
 * A JavaScript array slot that was never written holds `undefined`, which a
 * bitwise operator turns into 0; `At` reads such slots as 0.
 */
module Packing {
  import opened CryptoBits
  import opened Sequences
  import Utf8

  /** `charCodeAt(n) & 0xFF`, the byte a code unit contributes. */
  function ByteOf(u: Utf8.Unit): (r: Word)
    ensures r < 256
  {
    (u as Word) & 0xFF
  }

  predicate AreBytes(b: seq<Word>) { forall i :: 0 <= i < |b| ==> b[i] < 256 }

  function Bytes(s: seq<Utf8.Unit>): (r: seq<Word>)
    ensures |r| == |s| && AreBytes(r)
  {
    seq(|s|, i requires 0 <= i < |s| => ByteOf(s[i]))
  }

  /** The byte at position `i`, 0 past the end. */
  function At(b: seq<Word>, i: int): Word {
    if 0 <= i < |b| then b[i] else 0
  }

  /** The four bytes of one word, lane 0 being the lowest. */
  datatype Quad = Quad(l0: Word, l1: Word, l2: Word, l3: Word)
  {
    function Get(j: nat): Word
      requires j < 4
    {
      if j == 0 then l0 else if j == 1 then l1 else if j == 2 then l2 else l3
    }

    function With(j: nat, x: Word): Quad
      requires j < 4
    {
      if j == 0 then this.(l0 := x) else if j == 1 then this.(l1 := x) else if j == 2 then this.(l2 := x) else this.(l3 := x)
    }

    function Reversed(): Quad { Quad(l3, l2, l1, l0) }
  }

  /** `x << (8 * j)`: a byte moved into lane `j`. */
  function Lane(x: Word, j: nat): Word
    requires j < 4
  {
    if j == 0 then x else if j == 1 then x << 8 else if j == 2 then x << 16 else x << 24
  }

  /** The word whose lanes hold `q`. */
  function Pack(q: Quad): Word {
    q.l0 | (q.l1 << 8) | (q.l2 << 16) | (q.l3 << 24)
  }

  /** `(w >>> (8 * j)) & 255`: the byte in lane `j`. */
  function Lane8(w: Word, j: nat): (r: Word)
    ensures r < 256
  {
    if j == 0 then w & 0xFF else if j == 1 then (w >> 8) & 0xFF else if j == 2 then (w >> 16) & 0xFF else (w >> 24) & 0xFF
  }

  predicate QuadOfBytes(q: Quad) { q.l0 < 256 && q.l1 < 256 && q.l2 < 256 && q.l3 < 256 }

  /** The byte in lane `j` counted from the top, for `str2binb`'s order. */
  function TopLane8(w: Word, j: nat): (r: Word)
    ensures r < 256
  {
    if j < 4 then Lane8(w, 3 - j) else 0
  }

  /** The word whose lanes hold `q` from the top down. */
  function PackReversed(q: Quad): Word {
    Pack(q.Reversed())
  }

  lemma PackLow(q: Quad, j: nat)
    requires QuadOfBytes(q) && j < 2
    ensures Lane8(Pack(q), j) == q.Get(j)
  {
    if j == 0 {
    } else {
    }
  }

  lemma PackHigh(q: Quad, j: nat)
    requires QuadOfBytes(q) && 2 <= j < 4
    ensures Lane8(Pack(q), j) == q.Get(j)
  {
    if j == 2 {
    } else {
    }
  }

  /** Packing bytes and reading a lane back gives that lane's byte. */
  lemma PackLane(q: Quad, j: nat)
    requires QuadOfBytes(q) && j < 4
    ensures Lane8(Pack(q), j) == q.Get(j)
  {
    if j < 2 {
      PackLow(q, j);
    } else {
      PackHigh(q, j);
    }
  }

  lemma InsertLane0(q: Quad, x: Word)
    requires q.l0 == 0
    ensures Pack(q.With(0, x)) == Pack(q) | Lane(x, 0)
  {
  }

  lemma InsertLane1(q: Quad, x: Word)
    requires q.l1 == 0
    ensures Pack(q.With(1, x)) == Pack(q) | Lane(x, 1)
  {
  }

  lemma InsertLane2(q: Quad, x: Word)
    requires q.l2 == 0
    ensures Pack(q.With(2, x)) == Pack(q) | Lane(x, 2)
  {
  }

  lemma InsertLane3(q: Quad, x: Word)
    requires q.l3 == 0
    ensures Pack(q.With(3, x)) == Pack(q) | Lane(x, 3)
  {
  }

  /** Or-ing a byte into an empty lane writes that lane. */
  lemma InsertLow(q: Quad, j: nat, x: Word)
    requires j < 2 && q.Get(j) == 0
    ensures Pack(q.With(j, x)) == Pack(q) | Lane(x, j)
  {
    if j == 0 {
      InsertLane0(q, x);
    } else {
      InsertLane1(q, x);
    }
  }

  lemma InsertHigh(q: Quad, j: nat, x: Word)
    requires 2 <= j < 4 && q.Get(j) == 0
    ensures Pack(q.With(j, x)) == Pack(q) | Lane(x, j)
  {
    if j == 2 {
      InsertLane2(q, x);
    } else {
      InsertLane3(q, x);
    }
  }

  /** Or-ing a byte into an empty lane writes that lane. */
  lemma InsertLane(q: Quad, j: nat, x: Word)
    requires j < 4 && q.Get(j) == 0
    ensures Pack(q.With(j, x)) == Pack(q) | Lane(x, j)
  {
    if j < 2 {
      InsertLow(q, j, x);
    } else {
      InsertHigh(q, j, x);
    }
  }

  // ---------------------------------------------------------------- word arrays

  /** Bytes `4k` to `4k + 3`. */
  function Group(b: seq<Word>, k: int): Quad {
    Quad(At(b, 4 * k), At(b, 4 * k + 1), At(b, 4 * k + 2), At(b, 4 * k + 3))
  }

  /** The words the byte loop writes: one per started group of four bytes. */
  function WordCount(n: nat): nat { (n + 3) / 4 }

  /** Word `k` is group `k` packed by `pack`. */
  function Words(b: seq<Word>, pack: Quad -> Word): (r: seq<Word>)
    ensures |r| == WordCount(|b|)
  {
    seq(WordCount(|b|), k requires 0 <= k < WordCount(|b|) => pack(Group(b, k)))
  }

  /** Byte `4k` in the lowest lane of word `k` (`convertToWordArray`). */
  function LittleEndian(b: seq<Word>): (r: seq<Word>)
    ensures |r| == WordCount(|b|)
  {
    Words(b, Pack)
  }

  /** Byte `4k` in the highest lane of word `k` (`str2binb`). */
  function BigEndian(b: seq<Word>): (r: seq<Word>)
    ensures |r| == WordCount(|b|)
  {
    Words(b, PackReversed)
  }

  /** `words[k] |= v`, where a slot one past the end is still `undefined`, which reads as 0. */
  function OrInto(words: seq<Word>, k: nat, v: Word): (r: seq<Word>)
    requires k <= |words|
    ensures |r| == if k == |words| then |words| + 1 else |words|
  {
    if k == |words| then words + [0 | v] else words[k := words[k] | v]
  }

  /** Reading a prefix: the byte at `n` is already 0 before it is written. */
  lemma AtPrefix(b: seq<Word>, n: nat, i: int)
    requires n <= |b|
    ensures At(b[..n], i) == if i < n then At(b, i) else 0
  {
  }

  lemma AtStep(b: seq<Word>, n: nat, i: int)
    requires n < |b|
    ensures At(b[..n + 1], i) == if i == n then b[n] else At(b[..n], i)
  {
    AtPrefix(b, n, i);
    AtPrefix(b, n + 1, i);
  }

  /** A group the step does not touch keeps its bytes. */
  lemma GroupKept(b: seq<Word>, n: nat, q: int)
    requires n < |b| && n / 4 != q
    ensures Group(b[..n + 1], q) == Group(b[..n], q)
  {
    AtStep(b, n, 4 * q);
    AtStep(b, n, 4 * q + 1);
    AtStep(b, n, 4 * q + 2);
    AtStep(b, n, 4 * q + 3);
  }

  /** The group the step touches gains byte `n` in position `n % 4`, which was empty. */
  lemma GroupGains(b: seq<Word>, n: nat)
    requires n < |b|
    ensures Group(b[..n], n / 4).Get(n % 4) == 0
    ensures Group(b[..n + 1], n / 4) == Group(b[..n], n / 4).With(n % 4, b[n])
  {
    var k := n / 4;
    AtStep(b, n, 4 * k);
    AtStep(b, n, 4 * k + 1);
    AtStep(b, n, 4 * k + 2);
    AtStep(b, n, 4 * k + 3);
    AtPrefix(b, n, n);
  }

  /** The group just past the written bytes is empty. */
  lemma GroupFresh(b: seq<Word>, n: nat)
    requires n < |b| && n % 4 == 0
    ensures Group(b[..n], n / 4) == Quad(0, 0, 0, 0)
  {
    var k := n / 4;
    AtPrefix(b, n, 4 * k);
    AtPrefix(b, n, 4 * k + 1);
    AtPrefix(b, n, 4 * k + 2);
    AtPrefix(b, n, 4 * k + 3);
  }

  lemma ReversedWith(g: Quad, j: nat, x: Word)
    requires j < 4
    ensures g.With(j, x).Reversed() == g.Reversed().With(3 - j, x)
    ensures g.Reversed().Get(3 - j) == g.Get(j)
  {
    if j == 0 {
    } else if j == 1 {
    } else if j == 2 {
    } else {
    }
  }

  /**
   * One step of either byte loop: when or-ing `v` into the packed group is
   * what putting byte `n` into the group does, the loop's or-into is the
   * packing of one byte more.
   */
  lemma WordsStep(b: seq<Word>, n: nat, pack: Quad -> Word, v: Word)
    requires n < |b|
    requires pack(Group(b[..n], n / 4).With(n % 4, b[n])) == pack(Group(b[..n], n / 4)) | v
    requires n % 4 == 0 ==> pack(Quad(0, 0, 0, 0)) == 0
    ensures n / 4 <= |Words(b[..n], pack)|
    ensures Words(b[..n + 1], pack) == OrInto(Words(b[..n], pack), n / 4, v)
  {
    var before, after := Words(b[..n], pack), Words(b[..n + 1], pack);
    var want := OrInto(before, n / 4, v);
    GroupGains(b, n);
    if n % 4 == 0 {
      GroupFresh(b, n);
    }
    forall q | 0 <= q < |after|
      ensures after[q] == want[q]
    {
      if q != n / 4 {
        GroupKept(b, n, q);
      }
    }
  }

  /** One step of the little-endian loop: byte `n` is or-ed into lane `n % 4` of word `n / 4`. */
  lemma LittleEndianStep(b: seq<Word>, n: nat)
    requires n < |b|
    ensures n / 4 <= |LittleEndian(b[..n])|
    ensures LittleEndian(b[..n + 1]) == OrInto(LittleEndian(b[..n]), n / 4, Lane(b[n], n % 4))
  {
    GroupGains(b, n);
    InsertLane(Group(b[..n], n / 4), n % 4, b[n]);
    assert Pack(Quad(0, 0, 0, 0)) == 0;
    WordsStep(b, n, Pack, Lane(b[n], n % 4));
  }

  /** One step of the big-endian loop: byte `n` goes into lane `3 - n % 4` of word `n / 4`. */
  lemma BigEndianStep(b: seq<Word>, n: nat)
    requires n < |b|
    ensures n / 4 <= |BigEndian(b[..n])|
    ensures BigEndian(b[..n + 1]) == OrInto(BigEndian(b[..n]), n / 4, Lane(b[n], 3 - n % 4))
  {
    var g := Group(b[..n], n / 4);
    GroupGains(b, n);
    ReversedWith(g, n % 4, b[n]);
    InsertLane(g.Reversed(), 3 - n % 4, b[n]);
    assert PackReversed(Quad(0, 0, 0, 0)) == 0;
    WordsStep(b, n, PackReversed, Lane(b[n], 3 - n % 4));
  }

  /** `convertToWordArray`: `wordArray[i >> 5] |= (charCodeAt(i / 8) & 0xFF) << (i % 32)` for `i = 8n`. */
  method ConvertToWordArray(s: seq<Utf8.Unit>) returns (wordArray: seq<Word>)
    ensures wordArray == LittleEndian(Bytes(s))
  {
    ghost var b := Bytes(s);
    wordArray := [];
    var n := 0;
    while n < |s|
      invariant 0 <= n <= |s|
      invariant wordArray == LittleEndian(b[..n])
    {
      LittleEndianStep(b, n);
      wordArray := OrInto(wordArray, n / 4, Lane(ByteOf(s[n]), n % 4));
      n := n + 1;
    }
    assert b[..n] == b;
  }

  /** `str2binb`: `bin[i >> 5] |= (charCodeAt(i / 8) & 255) << (24 - i % 32)` for `i = 8n`. */
  method Str2Binb(s: seq<Utf8.Unit>) returns (bin: seq<Word>)
    ensures bin == BigEndian(Bytes(s))
  {
    ghost var b := Bytes(s);
    bin := [];
    var n := 0;
    while n < |s|
      invariant 0 <= n <= |s|
      invariant bin == BigEndian(b[..n])
    {
      BigEndianStep(b, n);
      bin := OrInto(bin, n / 4, Lane(ByteOf(s[n]), 3 - n % 4));
      n := n + 1;
    }
    assert b[..n] == b;
  }

  // ---------------------------------------------------------------- hex

  const HexTab: string := "0123456789abcdef"

  predicate IsLowerHex(s: string) { forall i :: 0 <= i < |s| ==> s[i] in HexTab }

  function HexDigit(d: Word): (c: char)
    requires d < 16
    ensures c in HexTab
  {
    HexTab[d as int]
  }

  /** `('0' + byte.toString(16)).slice(-2)`: two lower-case digits, high nibble first. */
  function HexByte(b: Word): (r: string)
    ensures |r| == 2
  {
    [HexDigit((b >> 4) & 0xF), HexDigit(b & 0xF)]
  }

  /** The hex digits of bytes, two per byte in order. */
  function HexOfBytes(b: seq<Word>): string {
    Flatten(b, HexByte)
  }

  lemma HexOfBytesShape(b: seq<Word>)
    ensures |HexOfBytes(b)| == 2 * |b| && IsLowerHex(HexOfBytes(b))
  {
    FlattenLength(b, HexByte, 2);
    FlattenAll(b, HexByte, c => c in HexTab);
  }

  /** Byte `i` is lane `i % 4` of word `i / 4`, lanes counted by `byteAt`. */
  function BytesOf(ws: seq<Word>, byteAt: (Word, nat) -> Word): (r: seq<Word>)
    ensures |r| == 4 * |ws|
  {
    seq(4 * |ws|, i requires 0 <= i < 4 * |ws| => byteAt(ws[i / 4], i % 4))
  }

  /** The bytes of words, lowest lane first (`wordToHex`'s order). */
  function LeBytes(ws: seq<Word>): (r: seq<Word>)
    ensures |r| == 4 * |ws|
  {
    BytesOf(ws, Lane8)
  }

  /** The bytes of words, highest lane first (`binb2hex`'s order). */
  function BeBytes(ws: seq<Word>): (r: seq<Word>)
    ensures |r| == 4 * |ws|
  {
    BytesOf(ws, TopLane8)
  }

  /** `wordToHex`: the four bytes of `value`, lowest first, as eight hex digits. */
  method WordToHex(value: Word) returns (hex: string)
    ensures hex == HexOfBytes(LeBytes([value]))
    ensures |hex| == 8 && IsLowerHex(hex)
  {
    ghost var bytes := LeBytes([value]);
    hex := "";
    var i := 0;
    while i <= 3
      invariant 0 <= i <= 4
      invariant hex == HexOfBytes(bytes[..i])
    {
      var byte := Lane8(value, i);
      LeByte(value, i);
      FlattenPrefix(bytes, i, HexByte);
      hex := hex + HexByte(byte);
      i := i + 1;
    }
    assert bytes[..4] == bytes;
    HexOfBytesShape(bytes);
  }

  /** Byte `i` of one word is its lane `i`. */
  lemma LeByte(value: Word, i: nat)
    requires i < 4
    ensures LeBytes([value])[i] == Lane8(value, i)
  {
    assert i / 4 == 0 && i % 4 == i;
  }

  /** `x >> k` on a signed 32-bit value: the bits shifted in copy the sign. */
  function SignedShift(x: Word, k: Word): Word
    requires k < 32
  {
    if x & 0x8000_0000 == 0 then x >> k else !(!x >> k)
  }

  /**
   * `(binarray[i >> 2] >> sh) & 0xF` for the shifts `8 * lane` and `8 * lane + 4`
   * that `binb2hex` uses: the high or low nibble of the byte in `lane`.
   */
  function Nibble(w: Word, lane: nat, high: bool): Word
    requires lane < 4
  {
    var sh: Word := if lane == 0 then 0 else if lane == 1 then 8 else if lane == 2 then 16 else 24;
    SignedShift(w, if high then sh + 4 else sh) & 0xF
  }

  /** The mask drops every bit the sign fills in, so each nibble is a nibble of the lane's byte. */
  lemma NibblesOfLane(w: Word, lane: nat)
    requires lane < 4
    ensures Nibble(w, lane, true) == Lane8(w, lane) >> 4
    ensures Nibble(w, lane, false) == Lane8(w, lane) & 0xF
  {
    if w & 0x8000_0000 == 0 {
    } else if lane == 0 {
    } else if lane == 1 {
    } else if lane == 2 {
    } else {
    }
  }

  /** The two digits `binb2hex` writes for a lane are the hex of the lane's byte. */
  lemma ByteDigits(w: Word, lane: nat)
    requires lane < 4
    ensures [HexDigit(Nibble(w, lane, true)), HexDigit(Nibble(w, lane, false))] == HexByte(Lane8(w, lane))
  {
    NibblesOfLane(w, lane);
    var b := Lane8(w, lane);
    assert (b >> 4) & 0xF == b >> 4;
  }

  /** The body of `binb2hex`'s loop for byte `k` of word `w`, counted from the top. */
  method TopByteHex(w: Word, k: nat) returns (digits: string)
    requires k < 4
    ensures digits == HexByte(TopLane8(w, k))
  {
    var lane := 3 - k;
    ByteDigits(w, lane);
    digits := [HexDigit(Nibble(w, lane, true)), HexDigit(Nibble(w, lane, false))];
  }

  /** `binb2hex`: two hex digits per byte, each word's bytes highest lane first. */
  method Binb2Hex(binarray: seq<Word>) returns (str: string)
    ensures str == HexOfBytes(BeBytes(binarray))
    ensures |str| == 8 * |binarray| && IsLowerHex(str)
  {
    ghost var bytes := BeBytes(binarray);
    str := "";
    var i := 0;
    while i < |binarray| * 4
      invariant 0 <= i <= 4 * |binarray|
      invariant str == HexOfBytes(bytes[..i])
    {
      var digits := TopByteHex(binarray[i / 4], i % 4);
      FlattenPrefix(bytes, i, HexByte);
      str := str + digits;
      i := i + 1;
    }
    assert bytes[..i] == bytes;
    HexOfBytesShape(bytes);
  }

  // ---------------------------------------------------------------- round trips

  /** The bytes followed by zeros up to a whole number of words: what the words hold. */
  function PadToWords(b: seq<Word>): (r: seq<Word>)
    ensures |r| == 4 * WordCount(|b|)
  {
    seq(4 * WordCount(|b|), i requires 0 <= i < 4 * WordCount(|b|) => At(b, i))
  }

  /**
   * Unpacking the packed words gives back the bytes, zero-padded, whenever
   * `byteAt` reads back each lane `pack` writes.
   */
  lemma WordsBytes(b: seq<Word>, pack: Quad -> Word, byteAt: (Word, nat) -> Word)
    requires AreBytes(b)
    requires forall q: Quad, j: nat :: QuadOfBytes(q) && j < 4 ==> byteAt(pack(q), j) == q.Get(j)
    ensures BytesOf(Words(b, pack), byteAt) == PadToWords(b)
  {
    var ws := Words(b, pack);
    forall i | 0 <= i < 4 * |ws|
      ensures BytesOf(ws, byteAt)[i] == PadToWords(b)[i]
    {
      var k := i / 4;
      assert QuadOfBytes(Group(b, k));
      assert i == 4 * k + i % 4;
    }
  }

  /** Reading the words lowest lane first gives back the bytes they were packed from. */
  lemma LittleEndianBytes(b: seq<Word>)
    requires AreBytes(b)
    ensures LeBytes(LittleEndian(b)) == PadToWords(b)
  {
    forall q: Quad, j: nat | QuadOfBytes(q) && j < 4
      ensures Lane8(Pack(q), j) == q.Get(j)
    {
      PackLane(q, j);
    }
    WordsBytes(b, Pack, Lane8);
  }

  /** Reading the words highest lane first gives back the bytes they were packed from. */
  lemma BigEndianBytes(b: seq<Word>)
    requires AreBytes(b)
    ensures BeBytes(BigEndian(b)) == PadToWords(b)
  {
    forall q: Quad, j: nat | QuadOfBytes(q) && j < 4
      ensures TopLane8(PackReversed(q), j) == q.Get(j)
    {
      PackLane(q.Reversed(), 3 - j);
      ReversedWith(q, j, 0);
    }
    WordsBytes(b, PackReversed, TopLane8);
  }

  /** Zero bytes, what the padding appends after the 0x80 byte. */
  function Zeros(k: nat): (r: seq<Word>)
    ensures |r| == k
  {
    seq(k, _ => 0)
  }

  lemma AtZeros(c: seq<Word>, k: nat, i: int)
    ensures At(c + Zeros(k), i) == At(c, i)
  {
    if 0 <= i < |c| {
      assert (c + Zeros(k))[i] == c[i];
    } else if |c| <= i < |c| + k {
      assert (c + Zeros(k))[i] == Zeros(k)[i - |c|];
    }
  }

  lemma GroupZeros(c: seq<Word>, k: nat, q: int)
    ensures Group(c + Zeros(k), q) == Group(c, q)
  {
    AtZeros(c, k, 4 * q);
    AtZeros(c, k, 4 * q + 1);
    AtZeros(c, k, 4 * q + 2);
    AtZeros(c, k, 4 * q + 3);
  }

  /**
   * Zero bytes after the text change no word: the longer array only has more
   * words that read as 0, as the slots past the end of the shorter one do.
   */
  lemma WordsZeros(c: seq<Word>, k: nat, pack: Quad -> Word)
    requires pack(Quad(0, 0, 0, 0)) == 0
    ensures forall i :: At(Words(c + Zeros(k), pack), i) == At(Words(c, pack), i)
  {
    forall i
      ensures At(Words(c + Zeros(k), pack), i) == At(Words(c, pack), i)
    {
      GroupZeros(c, k, i);
      if 0 <= i && 4 * i >= |c| {
        AtPrefix(c, |c|, 4 * i);
        AtPrefix(c, |c|, 4 * i + 1);
        AtPrefix(c, |c|, 4 * i + 2);
        AtPrefix(c, |c|, 4 * i + 3);
        assert Group(c, i) == Quad(0, 0, 0, 0);
      }
    }
  }

  lemma {:induction false} BytesOfAppend(xs: seq<Word>, ys: seq<Word>, byteAt: (Word, nat) -> Word)
    ensures BytesOf(xs + ys, byteAt) == BytesOf(xs, byteAt) + BytesOf(ys, byteAt)
  {
    var l, r := BytesOf(xs + ys, byteAt), BytesOf(xs, byteAt) + BytesOf(ys, byteAt);
    forall i | 0 <= i < |l|
      ensures l[i] == r[i]
    {
      if i < 4 * |xs| {
        assert (xs + ys)[i / 4] == xs[i / 4];
      } else {
        assert (xs + ys)[i / 4] == ys[(i - 4 * |xs|) / 4];
        assert (i - 4 * |xs|) % 4 == i % 4;
      }
    }
  }

  /** `binb2hex` after `str2binb` writes the hex of the bytes, zero-padded to whole words. */
  lemma BigEndianHex(s: seq<Utf8.Unit>)
    ensures HexOfBytes(BeBytes(BigEndian(Bytes(s)))) == HexOfBytes(PadToWords(Bytes(s)))
  {
    BigEndianBytes(Bytes(s));
  }
}
