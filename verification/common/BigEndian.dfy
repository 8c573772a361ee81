/** Bytes, and numbers as bytes in network order. */
module BigEndian {

  type byte = b: int | 0 <= b < 256

  function Two(v: nat): (b: seq<byte>)
    ensures |b| == 2
  {
    [v / 256 % 256, v % 256]
  }

  function Four(v: nat): (b: seq<byte>)
    ensures |b| == 4
  {
    Two(v / 0x1_0000) + Two(v)
  }

  function GetTwo(b: seq<byte>, i: nat): nat
    requires i + 1 < |b|
  {
    var high: nat, low: nat := b[i], b[i + 1];
    high * 256 + low
  }

  function GetFour(b: seq<byte>, i: nat): nat
    requires i + 3 < |b|
  {
    GetTwo(b, i) * 0x1_0000 + GetTwo(b, i + 2)
  }

  /** The low 16 bits, read where they were put. */
  lemma TwoAt(b: seq<byte>, i: nat, v: nat)
    requires i + 1 < |b| && b[i] == Two(v)[0] && b[i + 1] == Two(v)[1]
    ensures GetTwo(b, i) == v % 0x1_0000
  {
    var high, low := v / 256, v % 256;
    var top, middle := high / 256, high % 256;
    assert v == top * 0x1_0000 + (middle * 256 + low);
  }

  lemma TwoRoundTrip(v: nat)
    requires v < 0x1_0000
    ensures GetTwo(Two(v), 0) == v
  {
    TwoAt(Two(v), 0, v);
  }

  /** Four bytes put at i are read there. */
  lemma FourRoundTrip(b: seq<byte>, i: nat, v: nat)
    requires v < 0x1_0000_0000 && i + 4 <= |b| && b[i..i + 4] == Four(v)
    ensures GetFour(b, i) == v
  {
    hide Two, GetTwo;
    var s := b[i..i + 4];
    assert b[i] == s[0] && b[i + 1] == s[1] && b[i + 2] == s[2] && b[i + 3] == s[3];
    TwoAt(b, i, v / 0x1_0000);
    TwoAt(b, i + 2, v);
  }
}
