/**
 * The rolling-hash boundary detector (RabinKarp.java). The fingerprint itself is
 * computed by an external library object built from a fixed irreducible
 * polynomial; it is modelled by its initial value and its per-byte update
 * function, so the fingerprint is a function of every byte pushed since the
 * last reset (the library object is not windowed).
 */
module RabinKarpSplitter {
  import opened Bytes

  /** Cut points need at least this many bytes pushed since the last reset. */
  const WindowSize: int := 48
  /** The 13 low bits of the fingerprint must be zero for a cut (about 8 KiB on average). */
  const Mask: bv64 := 0x1FFF

  /** The fingerprint library: value after construction or reset, and the update for one byte. */
  datatype RabinPoly = RabinPoly(initial: bv64, push: (bv64, byte) -> bv64)

  /** Fingerprint value after pushing `bytes` onto a freshly reset fingerprint. */
  function Fingerprint(poly: RabinPoly, bytes: seq<byte>): bv64
  {
    if bytes == [] then poly.initial
    else poly.push(Fingerprint(poly, bytes[..|bytes| - 1]), bytes[|bytes| - 1])
  }

  /** The decision `pushByte` returns once `pushed` are the bytes pushed since the last reset. */
  predicate IsCut(poly: RabinPoly, pushed: seq<byte>)
  {
    |pushed| >= WindowSize && Fingerprint(poly, pushed) & Mask == 0
  }

  /** The first 47 pushes after a reset never signal a cut, whatever the fingerprint. */
  lemma NoCutWhileWindowFills(poly: RabinPoly, pushed: seq<byte>)
    requires |pushed| < WindowSize
    ensures !IsCut(poly, pushed)
  {
  }

  /** The decision reads off the low bits of a fingerprint known to be the bytes' fingerprint. */
  lemma CutOfFingerprint(poly: RabinPoly, bytes: seq<byte>, f: bv64)
    requires f == Fingerprint(poly, bytes)
    ensures IsCut(poly, bytes) <==> |bytes| >= WindowSize && f & Mask == 0
  {
  }

  class RabinKarp {
    const poly: RabinPoly
    var windowPos: int
    var fingerprint: bv64
    /** The bytes pushed since construction or the last reset. */
    ghost var pushed: seq<byte>

    ghost predicate Valid()
      reads this
    {
      windowPos == |pushed| && fingerprint == Fingerprint(poly, pushed)
    }

    constructor (poly: RabinPoly)
      ensures Valid() && this.poly == poly
      ensures pushed == [] && windowPos == 0 && fingerprint == poly.initial
    {
      this.poly := poly;
      windowPos := 0;
      fingerprint := poly.initial;
      pushed := [];
    }

    /** Back to the state right after construction. */
    method Reset()
      modifies this
      ensures Valid()
      ensures pushed == [] && windowPos == 0 && fingerprint == poly.initial
    {
      windowPos := 0;
      fingerprint := poly.initial;
      pushed := [];
    }

    /** Pushes one byte and reports whether the position after it is a cut point. */
    method PushByte(b: byte) returns (cut: bool)
      requires Valid()
      modifies this
      ensures Valid()
      ensures pushed == old(pushed) + [b] && windowPos == old(windowPos) + 1
      ensures cut == IsCut(poly, pushed)
    {
      ghost var bytes := pushed + [b];
      assert bytes[..|bytes| - 1] == pushed;
      var next := poly.push(fingerprint, b);
      assert next == Fingerprint(poly, bytes);
      cut := windowPos + 1 >= WindowSize && next & Mask == 0;
      CutOfFingerprint(poly, bytes, next);
      fingerprint, pushed, windowPos := next, bytes, windowPos + 1;
    }
  }
}
