/**
 * The "AES" tool of js/crypto.js, which is a repeating-key exclusive-or:
 * the input and key checks of `aesEncrypt`/`aesDecrypt` and the XOR loop
 * shared by `simpleEncrypt` and `simpleDecrypt`. The Base64 and URI
 * wrapping around that loop is not part of this model (see the README).
 */
module Cipher {
  import opened Wrappers
  import Utf8

  type Unit = Utf8.Unit

  /** The two messages the tool shows instead of a result. */
  datatype Refusal = EmptyInput | ShortKey

  /**
   * `key.charCodeAt(i % key.length)`. With an empty key the index is `NaN`,
   * `charCodeAt` gives `NaN`, and `^` reads that as 0.
   */
  function KeyUnit(key: seq<Unit>, i: nat): Unit {
    if key == [] then 0 else key[i % |key|]
  }

  /** Each unit of `text` exclusive-ored with the key unit at its position, the key repeating. */
  function Xored(text: seq<Unit>, key: seq<Unit>): (r: seq<Unit>)
    ensures |r| == |text|
  {
    seq(|text|, i requires 0 <= i < |text| => text[i] ^ KeyUnit(key, i))
  }

  /** The loop of `simpleEncrypt` and `simpleDecrypt`, building `result` one unit at a time. */
  method XorLoop(text: seq<Unit>, key: seq<Unit>) returns (result: seq<Unit>)
    ensures result == Xored(text, key)
  {
    result := [];
    var i := 0;
    while i < |text|
      invariant 0 <= i <= |text|
      invariant result == Xored(text[..i], key)
    {
      var charCode := text[i] ^ KeyUnit(key, i);
      result := result + [charCode];
      XoredPrefix(text, key, i);
      i := i + 1;
    }
    assert text[..i] == text;
  }

  /** One more unit of text appends its exclusive-or with the key. */
  lemma XoredPrefix(text: seq<Unit>, key: seq<Unit>, i: nat)
    requires i < |text|
    ensures Xored(text[..i + 1], key) == Xored(text[..i], key) + [text[i] ^ KeyUnit(key, i)]
  {
    var a, b := Xored(text[..i + 1], key), Xored(text[..i], key) + [text[i] ^ KeyUnit(key, i)];
    forall j | 0 <= j < |a|
      ensures a[j] == b[j]
    {
      assert text[..i + 1][j] == text[j];
      if j < i {
        assert text[..i][j] == text[j];
      }
    }
  }

  /**
   * The checks of `aesEncrypt` and `aesDecrypt`: an empty input, then a key
   * that is missing or shorter than eight units.
   */
  function Check(input: seq<Unit>, key: seq<Unit>): Option<Refusal> {
    if input == [] then Some(EmptyInput)
    else if |key| < 8 then Some(ShortKey)
    else None
  }

  /**
   * The XOR step shared by `aesEncrypt` and `aesDecrypt`: the refusal, or the
   * XOR text. The refusal is tested on the text the loop sees; the Base64 step
   * around it is not modelled, and `aesDecrypt` tests emptiness on the Base64
   * text before decoding it.
   */
  function Transform(input: seq<Unit>, key: seq<Unit>): Result<seq<Unit>, Refusal> {
    match Check(input, key)
    case Some(refusal) => Failure(refusal)
    case None => Success(Xored(input, key))
  }

  // ---------------------------------------------------------------- properties

  /** The loop keeps the length, and running it twice with the same key gives the text back. */
  lemma XoredTwice(text: seq<Unit>, key: seq<Unit>)
    ensures |Xored(text, key)| == |text|
    ensures Xored(Xored(text, key), key) == text
  {
    var once := Xored(text, key);
    forall i | 0 <= i < |text|
      ensures Xored(once, key)[i] == text[i]
    {
      XorCancels(text[i], KeyUnit(key, i));
    }
  }

  lemma XorCancels(x: Unit, k: Unit)
    ensures (x ^ k) ^ k == x
  {
  }

  /** The key only matters modulo its length: what the loop mixes into unit `i` is the key unit `i % |key|`. */
  lemma XoredKeyStream(text: seq<Unit>, key: seq<Unit>, i: nat)
    requires i < |text| && key != []
    ensures Xored(text, key)[i] ^ text[i] == key[i % |key|]
  {
    XorCancels(key[i % |key|], text[i]);
    assert text[i] ^ key[i % |key|] == key[i % |key|] ^ text[i];
  }

  /** An input is refused exactly when it is empty or the key is shorter than eight units, in that order. */
  lemma TransformRefuses(input: seq<Unit>, key: seq<Unit>)
    ensures Transform(input, key).Failure? <==> input == [] || |key| < 8
    ensures input == [] ==> Transform(input, key) == Failure(EmptyInput)
    ensures input != [] && |key| < 8 ==> Transform(input, key) == Failure(ShortKey)
  {
  }

  /** What the tool encrypts, it decrypts with the same key: the text comes back unchanged. */
  lemma DecryptEncrypt(input: seq<Unit>, key: seq<Unit>)
    requires Transform(input, key).Success?
    ensures Transform(Transform(input, key).value, key) == Success(input)
  {
    XoredTwice(input, key);
  }
}
