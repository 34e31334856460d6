/**
 * The one sequence shape the encoders share: a loop that appends, for each
 * element of its input in order, a short piece computed from that element
 * (`utftext += ...` in `utf8Encode`, `hex += ...` in `wordToHex` and
 * `binb2hex`). Facts about it are stated once here, for any piece function.
 */
module Sequences {

  /** The pieces for the elements of `s`, in order. */
  function Flatten<T, U>(s: seq<T>, piece: T -> seq<U>): seq<U>
    decreases |s|
  {
    if s == [] then [] else Flatten(s[..|s| - 1], piece) + piece(s[|s| - 1])
  }

  /** One more element appends its piece. */
  lemma FlattenSnoc<T, U>(s: seq<T>, x: T, piece: T -> seq<U>)
    ensures Flatten(s + [x], piece) == Flatten(s, piece) + piece(x)
  {
    assert (s + [x])[..|s + [x]| - 1] == s;
  }

  /** Flattening a prefix one element longer appends that element's piece. */
  lemma FlattenPrefix<T, U>(s: seq<T>, n: nat, piece: T -> seq<U>)
    requires n < |s|
    ensures Flatten(s[..n + 1], piece) == Flatten(s[..n], piece) + piece(s[n])
  {
    assert s[..n + 1][..n] == s[..n];
  }

  lemma {:induction false} FlattenAppend<T, U>(a: seq<T>, b: seq<T>, piece: T -> seq<U>)
    ensures Flatten(a + b, piece) == Flatten(a, piece) + Flatten(b, piece)
    decreases |b|
  {
    if b == [] {
      assert a + b == a;
    } else {
      var ab, front, x := a + b, b[..|b| - 1], b[|b| - 1];
      FlattenAppend(a, front, piece);
      assert ab[..|ab| - 1] == a + front && ab[|ab| - 1] == x;
      calc {
        Flatten(ab, piece);
        Flatten(a + front, piece) + piece(x);
        Flatten(a, piece) + Flatten(front, piece) + piece(x);
        Flatten(a, piece) + (Flatten(front, piece) + piece(x));
        Flatten(a, piece) + Flatten(b, piece);
      }
    }
  }

  lemma FlattenCons<T, U>(x: T, s: seq<T>, piece: T -> seq<U>)
    ensures Flatten([x] + s, piece) == piece(x) + Flatten(s, piece)
  {
    FlattenAppend([x], s, piece);
    assert [x][..0] == [];
  }

  /** When every piece has `w` elements, the result has `w` per input element. */
  lemma {:induction false} FlattenLength<T, U>(s: seq<T>, piece: T -> seq<U>, w: nat)
    requires forall x :: |piece(x)| == w
    ensures |Flatten(s, piece)| == w * |s|
    decreases |s|
  {
    if s != [] {
      FlattenLength(s[..|s| - 1], piece, w);
      assert w * |s| == w * (|s| - 1) + w;
    }
  }

  /** When every element of every piece satisfies `p`, so does every element of the result. */
  lemma {:induction false} FlattenAll<T, U>(s: seq<T>, piece: T -> seq<U>, p: U -> bool)
    requires forall x, i :: 0 <= i < |piece(x)| ==> p(piece(x)[i])
    ensures forall i :: 0 <= i < |Flatten(s, piece)| ==> p(Flatten(s, piece)[i])
    decreases |s|
  {
    if s != [] {
      FlattenAll(s[..|s| - 1], piece, p);
      var a, b := Flatten(s[..|s| - 1], piece), piece(s[|s| - 1]);
      forall i | 0 <= i < |a + b|
        ensures p((a + b)[i])
      {
        if i >= |a| {
          assert (a + b)[i] == b[i - |a|];
        } else {
          assert (a + b)[i] == a[i];
        }
      }
    }
  }
}
