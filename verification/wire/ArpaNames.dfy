/** The loops that print and read reverse names. */
module ArpaNames {
  import opened BigEndian
  import opened Decimals
  import opened HostNames
  import opened Wrappers
  import opened Bytes
  import opened Arpa

  /** Printing the first msize bits of an IPv4 address, by shifting it down. */
  method PrintPrefix4(start: nat, msize: nat) returns (s: string)
    requires start < 0x1_0000_0000 && msize in {8, 16, 24}
    ensures s == PrintV4([start / 0x100_0000, start / 0x1_0000 % 256, start / 0x100 % 256][..msize / 8])
  {
    hide Decimal, PrintV4;
    var a := start / 256;
    s := "";
    if msize == 24 {
      s := Decimal(a % 256) + ".";
    }
    ghost var third := a % 256;
    a := a / 256;
    if msize != 8 {
      s := s + Decimal(a % 256) + ".";
    }
    ghost var second := a % 256;
    a := a / 256;
    s := s + Decimal(a % 256) + ".in-addr.arpa";
    ghost var first := a % 256;
    PrintedOctets(first, second, third);
    ghost var all := [start / 0x100_0000, start / 0x1_0000 % 256, start / 0x100 % 256];
    assert all == [first, second, third];
    assert all[..1] == [first] && all[..2] == [first, second] && all[..3] == [first, second, third];
  }

  lemma PrintedOctets(a: byte, b: byte, c: byte)
    ensures PrintV4([a]) == "" + Decimal(a) + ".in-addr.arpa"
    ensures PrintV4([a, b]) == "" + Decimal(b) + "." + Decimal(a) + ".in-addr.arpa"
    ensures PrintV4([a, b, c]) == Decimal(c) + "." + Decimal(b) + "." + Decimal(a) + ".in-addr.arpa"
  {
    hide Decimal, PrintV4;
    OneOctet(a);
    MoreOctets([a], b);
    MoreOctets([a, b], c);
    assert [a] + [b] == [a, b] && [a, b] + [c] == [a, b, c];
    var x, y, z := Decimal(a), Decimal(b), Decimal(c);
    assert y + ("." + (x + ".in-addr.arpa")) == "" + y + "." + x + ".in-addr.arpa";
    assert z + ("." + (y + ("." + (x + ".in-addr.arpa")))) == z + "." + y + "." + x + ".in-addr.arpa";
  }

  lemma OneOctet(a: byte)
    ensures PrintV4([a]) == Decimal(a) + ".in-addr.arpa"
  {
    hide Decimal;
    assert [a][..0] == [];
    assert PrintOctets([a]) == Decimal(a) + ("." + PrintOctets([]));
    assert "." + "" + "in-addr.arpa" == ".in-addr.arpa";
  }

  lemma MoreOctets(front: seq<byte>, last: byte)
    ensures PrintV4(front + [last]) == Decimal(last) + ("." + PrintV4(front))
  {
    hide Decimal;
    assert (front + [last])[..|front|] == front;
  }

  /** Printing the half bytes that the first msize bits of an IPv6 address reach into, from the
      last of them on. Sizes with the bit of value 4 are refused before. */
  method PrintPrefix6(addr: seq<byte>, msize: nat) returns (s: string)
    requires |addr| == 16 && 64 <= msize <= 128 && msize % 8 < 4
    ensures s == PrintV6(addr, HalfBytes(msize))
  {
    hide HexDigit, Nibble, PrintV6;
    s := "";
    var i: int := msize - 1;
    while i >= 0
      invariant -4 <= i < msize
      invariant s + PrintV6(addr, (i + 4) / 4) == PrintV6(addr, HalfBytes(msize))
    {
      HalfByte(addr, i);
      var dig := addr[i / 8];
      var d := if i / 4 % 2 == 1 then dig % 16 else dig / 16;
      NibblePrinted(s, addr, (i + 4) / 4);
      s := s + [HexDigit(d)] + ".";
      i := i - 4;
    }
    NoNibbles(addr);
    s := s + "ip6.arpa";
  }

  lemma NoNibbles(addr: seq<byte>)
    ensures PrintV6(addr, 0) == "ip6.arpa"
  {
  }

  /** Bit i and the half byte it is in. */
  lemma HalfByte(addr: seq<byte>, i: nat)
    requires |addr| == 16 && i < 128
    ensures i / 8 < 16 && i / 4 == (i + 4) / 4 - 1
    ensures Nibble(addr, i / 4) == if i / 4 % 2 == 1 then addr[i / 8] % 16 else addr[i / 8] / 16
  {
  }

  lemma NibblePrinted(s: string, addr: seq<byte>, k: nat)
    requires 1 <= k <= 2 * |addr|
    ensures s + PrintV6(addr, k) == s + [HexDigit(Nibble(addr, k - 1))] + "." + PrintV6(addr, k - 1)
  {
    hide HexDigit, Nibble;
  }

  /** Cutting a name into its labels. */
  method SplitName(s: string) returns (labels: seq<string>)
    ensures labels == Split(s)
  {
    hide Split;
    labels := [];
    var from: nat, i: nat := 0, 0;
    assert s[0..] == s;
    while i < |s|
      invariant from <= i <= |s|
      invariant forall j :: from <= j < i ==> s[j] != '.'
      invariant Split(s) == labels + Split(s[from..])
    {
      if s[i] == '.' {
        Cut(s, from, i);
        assert labels + ([s[from..i]] + Split(s[i + 1..])) == labels + [s[from..i]] + Split(s[i + 1..]);
        labels := labels + [s[from..i]];
        from := i + 1;
      }
      i := i + 1;
    }
    LastPiece(s[from..]);
    labels := labels + [s[from..]];
  }

  lemma Cut(s: string, from: nat, i: nat)
    requires from <= i < |s| && s[i] == '.' && forall j :: from <= j < i ==> s[j] != '.'
    ensures Split(s[from..]) == [s[from..i]] + Split(s[i + 1..])
  {
    assert s[from..] == s[from..i] + ("." + s[i + 1..]);
    SplitStep(s[from..i], s[i + 1..]);
  }

  lemma LastPiece(s: string)
    requires '.' !in s
    ensures Split(s) == [s]
  {
    NoDot(s, 0);
  }

  /** Moving an address by half a byte, from its end. */
  method PushInPlace(a: array<byte>, d: nat)
    requires a.Length == 16 && d < 16
    modifies a
    ensures a[..] == PushNibble(old(a[..]), d)
  {
    hide Joined;
    var j := 15;
    while j > 0
      invariant 0 <= j <= 15
      invariant forall i :: 0 <= i <= j ==> a[i] == old(a[i])
      invariant forall i {:trigger a[i]} :: j < i < 16 ==> a[i] == Joined(old(a[i - 1]), old(a[i]))
    {
      a[j] := Joined(a[j - 1], a[j]);
      j := j - 1;
    }
    a[0] := Joined(d, a[0]);
  }

  /** in_arpa_name_2_addr on the labels before ip6. */
  method ReadV6Labels(labels: seq<string>) returns (r: Address)
    ensures r == ReadV6(labels, ZERO16)
  {
    hide PushNibble;
    var a := new byte[16](_ => 0);
    assert a[..] == ZERO16;
    assert labels[0..] == labels;
    var k := 0;
    while k < |labels|
      invariant k <= |labels| && ReadV6(labels[k..], a[..]) == ReadV6(labels, ZERO16)
    {
      var l := labels[k];
      assert labels[k..][0] == l && labels[k..][1..] == labels[k + 1..];
      if |l| != 1 || !IsHex(l[0]) {
        return NoAddress;
      }
      PushInPlace(a, HexValue(l[0]));
      k := k + 1;
    }
    r := V6(a[..]);
  }

  /** The value of an octet. */
  method ReadOctet(l: string) returns (r: Option<nat>)
    ensures r == if Arpa.AllDigits(l) then Some(Atoi(l)) else None
  {
    var v := 0;
    for i := 0 to |l|
      invariant Arpa.AllDigits(l[..i]) && v == Atoi(l[..i])
    {
      if !IsDigit(l[i]) {
        return None;
      }
      assert l[..i + 1][..i] == l[..i];
      v := v * 10 + (l[i] as int - '0' as int);
    }
    assert l[..|l|] == l;
    r := Some(v);
  }

  /** in_arpa_name_2_addr on the labels before in-addr. */
  method ReadV4Labels(labels: seq<string>) returns (r: Address)
    ensures r == ReadV4(labels, ZERO4)
  {
    hide Atoi;
    var a: array<byte> := new byte[4](_ => 0);
    assert a[..] == ZERO4;
    assert labels[0..] == labels;
    var k := 0;
    while k < |labels|
      invariant k <= |labels| && ReadV4(labels[k..], a[..]) == ReadV4(labels, ZERO4)
    {
      assert labels[k..][1..] == labels[k + 1..] && labels[k..][0] == labels[k];
      var octet := ReadOctet(labels[k]);
      if octet.None? {
        return NoAddress;
      }
      ghost var before := a[..];
      a[3] := a[2];
      a[2] := a[1];
      a[1] := a[0];
      a[0] := octet.value % 256;
      assert a[..] == [octet.value % 256] + before[..3];
      k := k + 1;
    }
    r := V4(a[..]);
  }

  /** in_arpa_name_2_addr. */
  method ArpaToAddress(name: string) returns (r: Address)
    ensures r == ReadName(name)
  {
    hide Split, SameHost, ReadV4, ReadV6;
    if |name| > MAXARPANAME {
      return NoAddress;
    }
    var labels := SplitName(name);
    var n := |labels|;
    if n < 3 {
      return NoAddress;
    }
    if SameHost(labels[n - 1], "arpa") && SameHost(labels[n - 2], "in-addr") {
      r := ReadV4Labels(labels[..n - 2]);
    } else if SameHost(labels[n - 2], "ip6") && (SameHost(labels[n - 1], "int") || SameHost(labels[n - 1], "arpa")) {
      r := ReadV6Labels(labels[..n - 2]);
    } else {
      r := NoAddress;
    }
  }
}
