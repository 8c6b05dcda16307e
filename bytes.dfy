/** Bytes as unsigned values 0..255 (Java's `b & 0xFF`) and byte-string concatenation. */
module Bytes {

  newtype byte = b: int | 0 <= b < 256

  /** Concatenation of byte strings in order (a ByteArrayOutputStream's contents). */
  function Flatten(pieces: seq<seq<byte>>): (r: seq<byte>)
  {
    if pieces == [] then [] else Flatten(pieces[..|pieces| - 1]) + pieces[|pieces| - 1]
  }

  /** Flatten distributes over concatenation of piece lists. */
  lemma {:induction false} FlattenAppend(a: seq<seq<byte>>, b: seq<seq<byte>>)
    ensures Flatten(a + b) == Flatten(a) + Flatten(b)
  {
    if b == [] {
      assert a + b == a;
    } else {
      var n := |b| - 1;
      var init := b[..n];
      calc {
        Flatten(a + b);
        { assert a + b == (a + init) + [b[n]]; FlattenSnoc(a + init, b[n]); }
        Flatten(a + init) + b[n];
        { FlattenAppend(a, init); }
        Flatten(a) + Flatten(init) + b[n];
        { assert b == init + [b[n]]; FlattenSnoc(init, b[n]); }
        Flatten(a) + Flatten(b);
      }
    }
  }

  /** Appending one piece appends its bytes. */
  lemma FlattenSnoc(a: seq<seq<byte>>, x: seq<byte>)
    ensures Flatten(a + [x]) == Flatten(a) + x
  {
    assert (a + [x])[..|a|] == a;
  }

  /** The first k + 1 pieces are the first k and piece k. */
  lemma FlattenPrefixStep(ps: seq<seq<byte>>, k: int)
    requires 0 <= k < |ps|
    ensures Flatten(ps[..k + 1]) == Flatten(ps[..k]) + ps[k]
  {
    assert ps[..k + 1] == ps[..k] + [ps[k]];
    FlattenSnoc(ps[..k], ps[k]);
  }

  lemma FlattenCut(ps: seq<seq<byte>>, k: int)
    requires 0 <= k <= |ps|
    ensures Flatten(ps) == Flatten(ps[..k]) + Flatten(ps[k..])
  {
    assert ps == ps[..k] + ps[k..];
    FlattenAppend(ps[..k], ps[k..]);
  }

  /** The pieces before, at and after index k. */
  lemma FlattenSplit(ps: seq<seq<byte>>, k: int)
    requires 0 <= k < |ps|
    ensures Flatten(ps) == Flatten(ps[..k]) + ps[k] + Flatten(ps[k + 1..])
  {
    FlattenPrefixStep(ps, k);
    FlattenCut(ps, k + 1);
  }

  /** The sum of the pieces' lengths, from the first piece on. */
  function TotalLength(pieces: seq<seq<byte>>): nat
  {
    if pieces == [] then 0 else |pieces[0]| + TotalLength(pieces[1..])
  }

  /** The concatenation is as long as the pieces together. */
  lemma {:induction false} FlattenLength(pieces: seq<seq<byte>>)
    ensures |Flatten(pieces)| == TotalLength(pieces)
  {
    if pieces != [] {
      FlattenLength(pieces[1..]);
      FlattenCut(pieces, 1);
      assert pieces[..1] == [pieces[0]];
      FlattenSnoc([], pieces[0]);
      assert [] + [pieces[0]] == [pieces[0]];
    }
  }
}
