/** Reverse names: printing the prefix of an address as a name under in-addr.arpa or ip6.arpa,
    and reading such a name (section 3.5 of RFC 1035, section 2.5 of RFC 3596). */
module Arpa {
  import opened BigEndian
  import opened Decimals
  import opened HostNames
  import opened Bytes

  /** Longest name that is looked at. */
  const MAXARPANAME: nat := 75

  // ----- labels -----

  /** The pieces between the dots; one, if there is no dot. */
  function Split(s: string): (r: seq<string>)
    ensures |r| > 0
    decreases |s|
  {
    var k := DotAt(s, 0);
    if k == |s| then [s] else [s[..k]] + Split(s[k + 1..])
  }

  function DotAt(s: string, i: nat): (k: nat)
    requires i <= |s|
    ensures i <= k <= |s| && (k < |s| ==> s[k] == '.') && forall j :: i <= j < k ==> s[j] != '.'
    decreases |s| - i
  {
    if i == |s| || s[i] == '.' then i else DotAt(s, i + 1)
  }

  // ----- reading -----

  datatype Address = NoAddress | V4(bytes4: seq<byte>) | V6(bytes6: seq<byte>)

  predicate AllDigits(s: string) {
    forall i :: 0 <= i < |s| ==> IsDigit(s[i])
  }

  function Atoi(s: string): nat
    requires AllDigits(s)
  {
    if s == "" then 0 else Atoi(s[..|s| - 1]) * 10 + (s[|s| - 1] as int - '0' as int)
  }

  const ZERO4: seq<byte> := [0, 0, 0, 0]
  const ZERO16: seq<byte> := [0, 0, 0, 0, 0, 0, 0, 0, 0, 0, 0, 0, 0, 0, 0, 0]

  /** Each octet pushes the earlier ones back. */
  function ReadV4(labels: seq<string>, addr: seq<byte>): (r: Address)
    requires |addr| == 4
    ensures r.NoAddress? || (r.V4? && |r.bytes4| == 4)
    decreases |labels|
  {
    if labels == [] then V4(addr)
    else if !AllDigits(labels[0]) then NoAddress
    else ReadV4(labels[1..], [Atoi(labels[0]) % 256] + addr[..3])
  }

  predicate IsHex(c: char) {
    IsDigit(c) || 'a' <= c <= 'f' || 'A' <= c <= 'F'
  }

  function HexValue(c: char): (v: nat)
    requires IsHex(c)
    ensures v < 16
  {
    if IsDigit(c) then c as int - '0' as int
    else if 'a' <= c <= 'f' then c as int - 'a' as int + 10
    else c as int - 'A' as int + 10
  }

  /** A byte moved by half a byte, behind the lower half of the byte before it. */
  function Joined(before: nat, b: byte): byte {
    b / 16 + before % 16 * 16
  }

  /** The address moved by half a byte, with a new first half byte. */
  function PushNibble(addr: seq<byte>, d: nat): (r: seq<byte>)
    requires |addr| == 16 && d < 16
    ensures |r| == 16
  {
    seq(16, i requires 0 <= i < 16 =>
      if i == 0 then Joined(d, addr[0]) else Joined(addr[i - 1], addr[i]))
  }

  function ReadV6(labels: seq<string>, addr: seq<byte>): (r: Address)
    requires |addr| == 16
    ensures r.NoAddress? || (r.V6? && |r.bytes6| == 16)
    decreases |labels|
  {
    if labels == [] then V6(addr)
    else if |labels[0]| != 1 || !IsHex(labels[0][0]) then NoAddress
    else ReadV6(labels[1..], PushNibble(addr, HexValue(labels[0][0])))
  }

  /** in_arpa_name_2_addr, without bitstring labels. */
  function ReadName(name: string): Address {
    var labels := Split(name);
    var n := |labels|;
    if |name| > MAXARPANAME || n < 3 then NoAddress
    else if SameHost(labels[n - 1], "arpa") && SameHost(labels[n - 2], "in-addr") then ReadV4(labels[..n - 2], ZERO4)
    else if SameHost(labels[n - 2], "ip6") && (SameHost(labels[n - 1], "int") || SameHost(labels[n - 1], "arpa"))
    then ReadV6(labels[..n - 2], ZERO16)
    else NoAddress
  }

  // ----- printing -----

  /** Octets, the last one first, each with a dot behind it. */
  function PrintOctets(octets: seq<byte>): string {
    if octets == [] then "" else Decimal(octets[|octets| - 1]) + ("." + PrintOctets(octets[..|octets| - 1]))
  }

  function PrintV4(octets: seq<byte>): string {
    PrintOctets(octets) + "in-addr.arpa"
  }

  function HexDigit(d: nat): (c: char)
    requires d < 16
    ensures IsHex(c) && HexValue(c) == d && c != '.'
  {
    if d < 10 then (d + '0' as int) as char else (d - 10 + 'a' as int) as char
  }

  /** Half byte i of an address. */
  function Nibble(addr: seq<byte>, i: nat): (d: nat)
    requires i < 2 * |addr|
    ensures d < 16
  {
    if i % 2 == 1 then addr[i / 2] % 16 else addr[i / 2] / 16
  }

  /** The first k half bytes, the last one first. */
  function PrintNibbles(addr: seq<byte>, k: nat): string
    requires k <= 2 * |addr|
  {
    if k == 0 then "" else [HexDigit(Nibble(addr, k - 1))] + ("." + PrintNibbles(addr, k - 1))
  }

  function PrintV6(addr: seq<byte>, k: nat): string
    requires k <= 2 * |addr|
  {
    PrintNibbles(addr, k) + "ip6.arpa"
  }

  // ----- reading what was printed -----

  lemma SplitStep(l: string, rest: string)
    requires '.' !in l
    ensures Split(l + ("." + rest)) == [l] + Split(rest)
  {
    var s := l + ("." + rest);
    DotIs(s, 0, |l|);
    assert s[..|l|] == l && s[|l| + 1..] == rest;
  }

  lemma {:induction false} DotIs(s: string, i: nat, k: nat)
    requires i <= k < |s| && s[k] == '.' && forall j :: i <= j < k ==> s[j] != '.'
    ensures DotAt(s, i) == k
    decreases k - i
  {
    if i < k {
      DotIs(s, i + 1, k);
    }
  }

  lemma {:induction false} NoDot(s: string, i: nat)
    requires i <= |s| && '.' !in s
    ensures DotAt(s, i) == |s|
    decreases |s| - i
  {
    if i < |s| {
      NoDot(s, i + 1);
    }
  }

  lemma SplitEnd(a: string, b: string)
    requires '.' !in a && '.' !in b
    ensures Split(a + ("." + b)) == [a, b]
  {
    SplitStep(a, b);
    NoDot(b, 0);
  }

  lemma {:induction false} AtoiDecimal(k: nat)
    ensures AllDigits(Decimal(k)) && Atoi(Decimal(k)) == k && '.' !in Decimal(k)
  {
    if k >= 10 {
      AtoiDecimal(k / 10);
      var d := DecimalDigit(k % 10);
      assert Decimal(k)[..|Decimal(k)| - 1] == Decimal(k / 10);
    } else {
      assert Decimal(k)[..0] == "";
    }
  }

  /** The labels of a printed IPv4 prefix. */
  function OctetLabels(octets: seq<byte>): seq<string> {
    if octets == [] then [] else [Decimal(octets[|octets| - 1])] + OctetLabels(octets[..|octets| - 1])
  }

  lemma {:induction false} SplitOctets(octets: seq<byte>)
    ensures Split(PrintV4(octets)) == OctetLabels(octets) + ["in-addr", "arpa"]
    decreases |octets|
  {
    hide Decimal, Split;
    if octets == [] {
      SplitEnd("in-addr", "arpa");
      assert PrintV4([]) == "in-addr" + ("." + "arpa");
    } else {
      var front, last := octets[..|octets| - 1], octets[|octets| - 1];
      AtoiDecimal(last);
      SplitOctets(front);
      assert PrintV4(octets) == Decimal(last) + ("." + PrintV4(front));
      SplitStep(Decimal(last), PrintV4(front));
    }
  }

  lemma {:induction false} ReadOctets(octets: seq<byte>, addr: seq<byte>)
    requires |octets| <= 4 && |addr| == 4
    ensures ReadV4(OctetLabels(octets), addr) == V4(octets + addr[..4 - |octets|])
    decreases |octets|
  {
    hide Decimal;
    if octets == [] {
      assert [] + addr[..4] == addr;
    } else {
      var front, last := octets[..|octets| - 1], octets[|octets| - 1];
      AtoiDecimal(last);
      var next: seq<byte> := [last] + addr[..3];
      ReadOctets(front, next);
      assert OctetLabels(octets)[1..] == OctetLabels(front);
      assert front + next[..4 - |front|] == octets + addr[..4 - |octets|];
    }
  }

  lemma DecimalLength(k: nat)
    requires k < 1000
    ensures |Decimal(k)| <= 3
  {
    assert |Decimal(k / 10 / 10)| == 1;
    assert |Decimal(k / 10)| <= 2;
  }

  lemma {:induction false} OctetsShort(octets: seq<byte>)
    requires |octets| <= 3
    ensures |PrintOctets(octets)| <= 4 * |octets|
    decreases |octets|
  {
    if octets != [] {
      OctetsShort(octets[..|octets| - 1]);
      var last := octets[|octets| - 1];
      DecimalLength(last);
    }
  }

  /** A printed IPv4 prefix of one to three octets is read as the prefix with zeros behind. */
  lemma V4RoundTrip(octets: seq<byte>)
    requires 1 <= |octets| <= 3
    ensures ReadName(PrintV4(octets)) == V4(octets + ZERO4[..4 - |octets|])
  {
    SplitOctets(octets);
    ReadOctets(octets, ZERO4);
    OctetsShort(octets);
    var labels := Split(PrintV4(octets));
    var n := |labels|;
    OctetCount(octets);
    assert labels[..n - 2] == OctetLabels(octets);
  }

  lemma {:induction false} OctetCount(octets: seq<byte>)
    ensures |OctetLabels(octets)| == |octets|
    decreases |octets|
  {
    if octets != [] {
      OctetCount(octets[..|octets| - 1]);
    }
  }

  function NibbleLabels(addr: seq<byte>, k: nat): (r: seq<string>)
    requires k <= 2 * |addr|
    ensures |r| == k
  {
    if k == 0 then [] else [[HexDigit(Nibble(addr, k - 1))]] + NibbleLabels(addr, k - 1)
  }

  lemma {:induction false} SplitNibbles(addr: seq<byte>, k: nat)
    requires k <= 2 * |addr|
    ensures Split(PrintV6(addr, k)) == NibbleLabels(addr, k) + ["ip6", "arpa"]
    ensures |PrintNibbles(addr, k)| == 2 * k
    decreases k
  {
    hide Nibble, HexDigit, Split;
    if k == 0 {
      SplitEnd("ip6", "arpa");
      assert PrintV6(addr, 0) == "ip6" + ("." + "arpa");
    } else {
      SplitNibbles(addr, k - 1);
      var l, rest := [HexDigit(Nibble(addr, k - 1))], PrintNibbles(addr, k - 1);
      assert PrintNibbles(addr, k) == l + ("." + rest);
      assert l + ("." + rest) + "ip6.arpa" == l + ("." + (rest + "ip6.arpa"));
      SplitStep(l, PrintV6(addr, k - 1));
      assert [l] + (NibbleLabels(addr, k - 1) + ["ip6", "arpa"]) == NibbleLabels(addr, k) + ["ip6", "arpa"];
    }
  }

  /** Pushing moves every half byte one place on. */
  lemma PushedNibble(addr: seq<byte>, d: nat, i: nat)
    requires |addr| == 16 && d < 16 && i < 32
    ensures Nibble(PushNibble(addr, d), i) == if i == 0 then d else Nibble(addr, i - 1)
  {
    var r := PushNibble(addr, d);
    var j := i / 2;
    if i % 2 == 1 {
      assert r[j] % 16 == addr[j] / 16;
      assert (i - 1) % 2 == 0 && (i - 1) / 2 == j;
    } else if i > 0 {
      assert r[j] / 16 == addr[j - 1] % 16;
      assert (i - 1) % 2 == 1 && (i - 1) / 2 == j - 1;
    }
  }

  /** The first k half bytes of addr, and behind them those of rest. */
  predicate Merged(r: seq<byte>, addr: seq<byte>, k: nat, rest: seq<byte>)
    requires |r| == |addr| == |rest| == 16 && k <= 32
  {
    forall i :: 0 <= i < 32 ==> Nibble(r, i) == if i < k then Nibble(addr, i) else Nibble(rest, i - k)
  }

  lemma {:induction false} ReadNibbles(addr: seq<byte>, k: nat, rest: seq<byte>)
    requires |addr| == |rest| == 16 && k <= 32
    ensures var r := ReadV6(NibbleLabels(addr, k), rest);
      r.V6? && Merged(r.bytes6, addr, k, rest)
    decreases k
  {
    hide Nibble, PushNibble;
    if k > 0 {
      var d := Nibble(addr, k - 1);
      var next := PushNibble(rest, d);
      assert NibbleLabels(addr, k)[1..] == NibbleLabels(addr, k - 1);
      ReadNibbles(addr, k - 1, next);
      var r := ReadV6(NibbleLabels(addr, k), rest).bytes6;
      forall i | 0 <= i < 32
        ensures Nibble(r, i) == if i < k then Nibble(addr, i) else Nibble(rest, i - k)
      {
        if i >= k - 1 {
          PushedNibble(rest, d, i - (k - 1));
        }
      }
    }
  }

  /** A printed IPv6 prefix of k half bytes is read as the prefix with zeros behind. */
  lemma V6RoundTrip(addr: seq<byte>, k: nat)
    requires |addr| == 16 && 1 <= k <= 32
    requires forall i :: k <= i < 32 ==> Nibble(addr, i) == 0
    ensures ReadName(PrintV6(addr, k)) == V6(addr)
  {
    hide Nibble;
    SplitNibbles(addr, k);
    ReadNibbles(addr, k, ZERO16);
    var labels := Split(PrintV6(addr, k));
    assert labels[..|labels| - 2] == NibbleLabels(addr, k);
    NotInAddr();
    var r := ReadV6(NibbleLabels(addr, k), ZERO16).bytes6;
    forall i | 0 <= i < 32
      ensures Nibble(r, i) == Nibble(addr, i)
    {
      if i >= k {
        ZeroNibble(i - k);
      }
    }
    SameNibbles(r, addr);
  }

  lemma NotInAddr()
    ensures !SameHost("ip6", "in-addr") && SameHost("ip6", "ip6") && SameHost("arpa", "arpa")
  {
  }

  lemma ZeroNibble(i: nat)
    requires i < 32
    ensures Nibble(ZERO16, i) == 0
  {
  }

  lemma SameNibbles(a: seq<byte>, b: seq<byte>)
    requires |a| == |b| == 16 && forall i :: 0 <= i < 32 ==> Nibble(a, i) == Nibble(b, i)
    ensures a == b
  {
    forall j | 0 <= j < 16
      ensures a[j] == b[j]
    {
      assert Nibble(a, 2 * j) == Nibble(b, 2 * j) && Nibble(a, 2 * j + 1) == Nibble(b, 2 * j + 1);
      assert 2 * j / 2 == j && (2 * j + 1) / 2 == j && 2 * j % 2 == 0 && (2 * j + 1) % 2 == 1;
      assert a[j] == a[j] / 16 * 16 + a[j] % 16 && b[j] == b[j] / 16 * 16 + b[j] % 16;
    }
  }

  // ----- prefixes of IPv6 addresses -----

  /** The half bytes that the first m bits reach into. */
  function HalfBytes(m: nat): nat {
    (m + 3) / 4
  }

  /** What the last of them holds beyond the first m bits is less than this. */
  function Beyond(m: nat): nat {
    if m % 4 == 0 then 1 else if m % 4 == 3 then 2 else if m % 4 == 2 then 4 else 8
  }

  predicate SameBits(a: seq<byte>, b: seq<byte>, m: nat)
    requires |a| == |b| == 16 && m <= 128
  {
    && (forall i :: 0 <= i < m / 4 ==> Nibble(a, i) == Nibble(b, i))
    && (m % 4 != 0 ==> Nibble(a, m / 4) / Beyond(m) == Nibble(b, m / 4) / Beyond(m))
  }

  /** An address without bits beyond the first m. */
  predicate Masked(addr: seq<byte>, m: nat)
    requires |addr| == 16 && m <= 128
  {
    && (forall i :: HalfBytes(m) <= i < 32 ==> Nibble(addr, i) == 0)
    && (m % 4 != 0 ==> Nibble(addr, m / 4) % Beyond(m) == 0)
  }

  /** The printed prefix is read as the prefix, for every size the printer is given. */
  lemma PrefixRoundTrip(addr: seq<byte>, m: nat)
    requires |addr| == 16 && 1 <= m <= 128 && Masked(addr, m)
    ensures ReadName(PrintV6(addr, HalfBytes(m))) == V6(addr)
  {
    hide Nibble, PrintV6, ReadName;
    V6RoundTrip(addr, HalfBytes(m));
  }

  /** All addresses of the prefix have names under the printed one exactly if the size is a
      multiple of 4; the printer's test lets other sizes through. */
  lemma PrefixNamesAll(addr: seq<byte>, m: nat)
    requires |addr| == 16 && 1 <= m <= 128 && m % 8 < 4 && Masked(addr, m)
    ensures m % 4 == 0 <==>
      forall b: seq<byte> {:trigger SameBits(addr, b, m)} :: |b| == 16 && SameBits(addr, b, m) ==>
        forall i :: 0 <= i < HalfBytes(m) ==> Nibble(b, i) == Nibble(addr, i)
  {
    if m % 4 != 0 {
      var b := BesideName(addr, m);
      assert Nibble(b, m / 4) != Nibble(addr, m / 4);
    }
  }

  /** An address of the prefix that is not under its name. */
  lemma BesideName(addr: seq<byte>, m: nat) returns (b: seq<byte>)
    requires |addr| == 16 && m <= 128 && m % 4 != 0 && m % 8 < 4 && Masked(addr, m)
    ensures |b| == 16 && SameBits(addr, b, m) && Nibble(b, m / 4) == Nibble(addr, m / 4) + 1
  {
    var j := m / 8;
    assert m / 4 == 2 * j && addr[j] / 16 < 15;
    b := addr[j := addr[j] + 16];
    assert (addr[j] + 16) / 16 == addr[j] / 16 + 1;
  }
}
