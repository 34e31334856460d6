/**
 * `utf8Encode` of js/crypto.js (it appears twice, once inside `MD5` and once
 * inside `SHA256`, with the same body). A JavaScript string is a sequence of
 * UTF-16 code units, what `charCodeAt` returns; the result is again a string
 * whose units are all bytes.
 */
module Utf8 {
  import opened Wrappers
  import opened Sequences

  /** One UTF-16 code unit. */
  type Unit = bv16

  const CR: Unit := 0x0D
  const LF: Unit := 0x0A

  predicate IsByte(u: Unit) { u < 256 }
  predicate AllBytes(s: seq<Unit>) { forall i :: 0 <= i < |s| ==> IsByte(s[i]) }

  /** `string.replace(/\r\n/g, '\n')`: every carriage return directly before a line feed is dropped, scanning from the left. */
  function ReplaceCrlf(s: seq<Unit>): (r: seq<Unit>)
    ensures |r| <= |s|
    decreases |s|
  {
    if s == [] then []
    else if |s| >= 2 && s[0] == CR && s[1] == LF then [LF] + ReplaceCrlf(s[2..])
    else [s[0]] + ReplaceCrlf(s[1..])
  }

  /** The units one code unit becomes: below 128 one, below 2048 two, otherwise three. */
  function EncodeUnit(c: Unit): (r: seq<Unit>)
    ensures |r| == Width(c)
  {
    if c < 128 then [c]
    else if c < 2048 then [(c >> 6) | 192, (c & 63) | 128]
    else [(c >> 12) | 224, ((c >> 6) & 63) | 128, (c & 63) | 128]
  }

  /** The encoding of each unit of `s`, in order. */
  function Encoded(s: seq<Unit>): seq<Unit> {
    Flatten(s, EncodeUnit)
  }

  /** The UTF-8-style text `utf8Encode` returns for `s`. */
  function Utf8Of(s: seq<Unit>): seq<Unit> {
    Encoded(ReplaceCrlf(s))
  }

  /** `utf8Encode`: the carriage-return rewrite, then the unit-by-unit loop building `utftext`. */
  method Utf8Encode(s: seq<Unit>) returns (utftext: seq<Unit>)
    ensures utftext == Utf8Of(s)
  {
    var str := ReplaceCrlf(s);
    utftext := [];
    var n := 0;
    while n < |str|
      invariant 0 <= n <= |str|
      invariant utftext == Encoded(str[..n])
    {
      utftext := AppendEncoding(utftext, str[n]);
      FlattenPrefix(str, n, EncodeUnit);
      n := n + 1;
    }
    assert str[..n] == str;
  }

  /** One pass of the loop body: the branches on the range of `c`, each appending its units. */
  method AppendEncoding(text: seq<Unit>, c: Unit) returns (utftext: seq<Unit>)
    ensures utftext == text + EncodeUnit(c)
  {
    utftext := text;
    if c < 128 {
      utftext := utftext + [c];
    } else if c > 127 && c < 2048 {
      utftext := utftext + [(c >> 6) | 192];
      utftext := utftext + [(c & 63) | 128];
    } else {
      utftext := utftext + [(c >> 12) | 224];
      utftext := utftext + [((c >> 6) & 63) | 128];
      utftext := utftext + [(c & 63) | 128];
    }
  }

  // ---------------------------------------------------------------- properties

  function Width(c: Unit): nat { if c < 128 then 1 else if c < 2048 then 2 else 3 }

  function Widths(s: seq<Unit>): nat
    decreases |s|
  {
    if s == [] then 0 else Widths(s[..|s| - 1]) + Width(s[|s| - 1])
  }

  lemma EncodeUnitBytes(c: Unit)
    ensures AllBytes(EncodeUnit(c))
  {
  }

  /** Every unit of the output is a byte, and each input unit contributes its width. */
  lemma {:induction false} EncodedShape(s: seq<Unit>)
    ensures AllBytes(Encoded(s))
    ensures |Encoded(s)| == Widths(s)
    decreases |s|
  {
    forall c: Unit, i | 0 <= i < |EncodeUnit(c)|
      ensures IsByte(EncodeUnit(c)[i])
    {
      EncodeUnitBytes(c);
    }
    FlattenAll(s, EncodeUnit, IsByte);
    EncodedLength(s);
  }

  lemma {:induction false} EncodedLength(s: seq<Unit>)
    ensures |Encoded(s)| == Widths(s)
    decreases |s|
  {
    if s != [] {
      EncodedLength(s[..|s| - 1]);
    }
  }

  /** How many units the sequence led by `b0` takes: 0xxxxxxx, 110xxxxx 10xxxxxx or 1110xxxx 10xxxxxx 10xxxxxx; 0 for a malformed lead. */
  function Lead(b0: Unit): nat {
    if b0 < 0x80 then 1 else if 0xC0 <= b0 < 0xE0 then 2 else if 0xE0 <= b0 < 0xF0 then 3 else 0
  }

  function JoinTwo(b0: Unit, b1: Unit): Unit { ((b0 & 0x1F) << 6) | (b1 & 0x3F) }
  function JoinThree(b0: Unit, b1: Unit, b2: Unit): Unit { ((b0 & 0x0F) << 12) | ((b1 & 0x3F) << 6) | (b2 & 0x3F) }

  /** Reads back one unit and the number of units it took. */
  function DecodeOne(b: seq<Unit>): Option<(Unit, nat)> {
    if b == [] then None
    else if Lead(b[0]) == 1 then Some((b[0], 1))
    else if Lead(b[0]) == 2 && |b| >= 2 then Some((JoinTwo(b[0], b[1]), 2))
    else if Lead(b[0]) == 3 && |b| >= 3 then Some((JoinThree(b[0], b[1], b[2]), 3))
    else None
  }

  /** Inverse of `Encoded`: `None` where a lead byte is malformed or the text is cut short. */
  function Decode(b: seq<Unit>): Option<seq<Unit>>
    decreases |b|
  {
    if b == [] then Some([])
    else match DecodeOne(b)
      case None => None
      case Some((c, k)) =>
        if k <= |b| then
          match Decode(b[k..])
          case None => None
          case Some(rest) => Some([c] + rest)
        else None
  }

  lemma OneUnit(c: Unit)
    requires c < 128
    ensures Lead(c) == 1
  {
  }

  lemma TwoUnits(c: Unit)
    requires 128 <= c < 2048
    ensures Lead((c >> 6) | 192) == 2
    ensures JoinTwo((c >> 6) | 192, (c & 63) | 128) == c
  {
  }

  lemma ThreeUnits(c: Unit)
    requires 2048 <= c
    ensures Lead((c >> 12) | 224) == 3
    ensures JoinThree((c >> 12) | 224, ((c >> 6) & 63) | 128, (c & 63) | 128) == c
  {
  }

  lemma DecodeEncodeUnit(c: Unit, rest: seq<Unit>)
    ensures DecodeOne(EncodeUnit(c) + rest) == Some((c, Width(c)))
  {
    var b := EncodeUnit(c) + rest;
    if c < 128 {
      OneUnit(c);
      assert b[0] == c;
    } else if c < 2048 {
      TwoUnits(c);
      assert b[0] == (c >> 6) | 192 && b[1] == (c & 63) | 128;
    } else {
      ThreeUnits(c);
      assert b[0] == (c >> 12) | 224 && b[1] == ((c >> 6) & 63) | 128 && b[2] == (c & 63) | 128;
    }
  }

  /** Every code unit, surrogates included, is read back: the encoding loses nothing. */
  lemma {:induction false} DecodeEncoded(s: seq<Unit>)
    ensures Decode(Encoded(s)) == Some(s)
    decreases |s|
  {
    if s != [] {
      DecodeEncoded(s[1..]);
      FlattenCons(s[0], s[1..], EncodeUnit);
      assert s == [s[0]] + s[1..];
      var e := EncodeUnit(s[0]);
      var b := e + Encoded(s[1..]);
      DecodeEncodeUnit(s[0], Encoded(s[1..]));
      assert b[|e|..] == Encoded(s[1..]);
    }
  }

  // ---------------------------------------------------------------- the carriage-return rewrite

  function CountUnit(s: seq<Unit>, u: Unit): nat
    decreases |s|
  {
    if s == [] then 0 else (if s[0] == u then 1 else 0) + CountUnit(s[1..], u)
  }

  /** The number of `\r\n` pairs the rewrite replaces. */
  function Pairs(s: seq<Unit>): nat
    decreases |s|
  {
    if s == [] then 0
    else if |s| >= 2 && s[0] == CR && s[1] == LF then 1 + Pairs(s[2..])
    else Pairs(s[1..])
  }

  /**
   * The rewrite drops one carriage return per pair and nothing else: line feeds
   * are all kept, and the output is shorter by the number of pairs.
   */
  lemma {:induction false} ReplaceCrlfCounts(s: seq<Unit>)
    ensures |ReplaceCrlf(s)| == |s| - Pairs(s)
    ensures CountUnit(ReplaceCrlf(s), LF) == CountUnit(s, LF)
    ensures CountUnit(ReplaceCrlf(s), CR) == CountUnit(s, CR) - Pairs(s)
    decreases |s|
  {
    if s != [] {
      if |s| >= 2 && s[0] == CR && s[1] == LF {
        ReplaceCrlfCounts(s[2..]);
        assert s[1..][1..] == s[2..];
      } else {
        ReplaceCrlfCounts(s[1..]);
      }
    }
  }

  /** Text without a carriage return is left alone. */
  lemma {:induction false} ReplaceCrlfIdle(s: seq<Unit>)
    requires CR !in s
    ensures ReplaceCrlf(s) == s
    decreases |s|
  {
    if s != [] {
      assert s[0] in s;
      assert forall x :: x in s[1..] ==> x in s;
      ReplaceCrlfIdle(s[1..]);
      assert s == [s[0]] + s[1..];
    }
  }

  /** One pass only: `\r\r\n` becomes `\r\n`, which still holds a pair. */
  lemma OnePass()
    ensures ReplaceCrlf([CR, CR, LF]) == [CR, LF]
  {
    var s: seq<Unit> := [CR, CR, LF];
    assert s[1..] == [CR, LF];
    assert s[1..][2..] == [];
  }
}
