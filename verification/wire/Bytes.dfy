/** Bytes, and names as sequences of labels. */
module Bytes {
  import opened BigEndian

  /** Largest label and largest name in text (MAXLABEL, MAXDNAME). */
  const MAXLABEL: nat := 63
  const MAXDNAME: nat := 1025

  /** The bytes of a text; characters beyond a byte do not occur in the texts used here. */
  function ToBytes(s: string): (b: seq<byte>)
    ensures |b| == |s|
    ensures forall i :: 0 <= i < |s| ==> b[i] == s[i] as int % 256
  {
    if s == "" then [] else ToBytes(s[..|s| - 1]) + [s[|s| - 1] as int % 256]
  }

  /** The first byte of a pointer to offset r: the source sets the two upper bits of the low
      16 bits of r. */
  function PointerHigh(r: nat): byte {
    0xC0 + r % 0x4000 / 256
  }

  function PointerLow(r: nat): byte {
    r % 256
  }

  function Target(high: byte, low: byte): nat
    requires high >= 0xC0
  {
    (high - 0xC0) * 256 + low
  }

  lemma PointerRoundTrip(r: nat)
    requires r < 0x4000
    ensures Target(PointerHigh(r), PointerLow(r)) == r
  {
  }
}
