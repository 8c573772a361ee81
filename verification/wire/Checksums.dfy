/** What the checksum of questions tells apart: like every cyclic redundancy check it notices any
    difference within four adjacent bytes. */
module Checksums {
  import opened BigEndian
  import opened Wrappers
  import opened Bytes
  import opened Packets
  import opened QuestionCrc

  // ----- one step, on words -----

  const POLYNOMIAL: bv32 := 0x04c1_1db7

  function Xor(x: bv32, y: bv32): bv32 { x ^ y }

  function Up(x: bv32): bv32 { x << 1 }

  predicate Top(x: bv32) { x & 0x8000_0000 != 0 }

  function One(x: bv32): bv32 {
    if Top(x) then Xor(Up(x), POLYNOMIAL) else Up(x)
  }

  lemma XorSwap(x: bv32, y: bv32, z: bv32)
    ensures Xor(Xor(x, z), y) == Xor(Xor(x, y), z) && Xor(x, Xor(y, z)) == Xor(Xor(x, y), z)
  {
  }

  lemma XorBack(x: bv32, z: bv32)
    ensures Xor(Xor(x, z), z) == x
  {
  }

  lemma XorTwice(x: bv32, y: bv32, z: bv32)
    ensures Xor(Xor(x, z), Xor(y, z)) == Xor(x, y)
  {
    hide Xor;
    XorSwap(Xor(x, z), y, z);
    XorSwap(x, y, z);
    XorBack(Xor(x, y), z);
  }

  lemma XorCancel(x: bv32, y: bv32, z: bv32)
    ensures Xor(x, z) == Xor(y, z) ==> x == y
  {
  }

  lemma XorZero(x: bv32)
    ensures Xor(0, x) == x && Xor(x, 0) == x
  {
  }

  lemma UpXor(x: bv32, y: bv32)
    ensures Up(Xor(x, y)) == Xor(Up(x), Up(y))
  {
  }

  lemma TopXor(x: bv32, y: bv32)
    ensures Top(Xor(x, y)) <==> Top(x) != Top(y)
  {
  }

  /** The lowest bit tells whether the polynomial was added. */
  lemma UpInjective(x: bv32, y: bv32)
    ensures Up(x) == Up(y) && (Top(x) <==> Top(y)) ==> x == y
    ensures Xor(Up(x), POLYNOMIAL) != Up(y)
  {
  }

  lemma OneXor(x: bv32, y: bv32)
    ensures One(Xor(x, y)) == Xor(One(x), One(y))
  {
    hide Xor, Up, Top;
    UpXor(x, y);
    TopXor(x, y);
    XorSwap(Up(x), Up(y), POLYNOMIAL);
    XorTwice(Up(x), Up(y), POLYNOMIAL);
  }

  lemma OneInjective(x: bv32, y: bv32)
    requires One(x) == One(y)
    ensures x == y
  {
    hide Xor, Up, Top;
    UpInjective(x, y);
    UpInjective(y, x);
    XorCancel(Up(x), Up(y), POLYNOMIAL);
  }

  // ----- several steps -----

  lemma ShiftFirst(x: bv32, k: nat)
    ensures Shift(x, k) == if k == 0 then x else Shift(One(x), k - 1)
  {
  }

  lemma {:induction false} ShiftXor(x: bv32, y: bv32, k: nat)
    ensures Shift(Xor(x, y), k) == Xor(Shift(x, k), Shift(y, k))
    decreases k
  {
    hide One, Xor, Shift;
    ShiftFirst(x, k);
    ShiftFirst(y, k);
    ShiftFirst(Xor(x, y), k);
    if k > 0 {
      OneXor(x, y);
      ShiftXor(One(x), One(y), k - 1);
    }
  }

  lemma {:induction false} ShiftInjective(x: bv32, y: bv32, k: nat)
    requires Shift(x, k) == Shift(y, k)
    ensures x == y
    decreases k
  {
    hide One, Shift;
    ShiftFirst(x, k);
    ShiftFirst(y, k);
    if k > 0 {
      ShiftInjective(One(x), One(y), k - 1);
      OneInjective(x, y);
    }
  }

  lemma {:induction false} ShiftTwice(x: bv32, j: nat, k: nat)
    ensures Shift(Shift(x, j), k) == Shift(x, j + k)
    decreases j
  {
    hide One, Shift;
    ShiftFirst(x, j);
    ShiftFirst(x, j + k);
    if j > 0 {
      ShiftTwice(One(x), j - 1, k);
    }
  }

  // ----- bytes in a word -----

  function Bits(c: byte): bv32 { c as bv32 }

  /** The byte in one of the four places of a word, the highest first. */
  function Placed(c: byte, place: nat): bv32
    requires place < 4
  {
    var w := Bits(c);
    if place == 0 then w << 24 else if place == 1 then w << 16 else if place == 2 then w << 8 else w
  }

  function Word(s: seq<byte>): bv32
    requires |s| <= 4
  {
    if s == [] then 0 else Xor(Word(s[..|s| - 1]), Placed(s[|s| - 1], |s| - 1))
  }

  /** Eight steps move a byte one place up. */
  lemma MovesUp(c: byte, place: nat)
    requires 0 < place < 4
    ensures Shift(Placed(c, place), 8) == Placed(c, place - 1)
  {
    hide Shift;
    var w := Bits(c);
    SmallWord(c);
    if place == 1 {
      NoTrace(w << 16);
      assert (w << 16) << 8 == w << 24;
    } else if place == 2 {
      NoTrace(w << 8);
      assert (w << 8) << 8 == w << 16;
    } else {
      NoTrace(w);
    }
  }

  lemma SmallWord(c: byte)
    ensures var w := Bits(c);
      w & 0xff00_0000 == 0 && (w << 8) & 0xff00_0000 == 0 && (w << 16) & 0xff00_0000 == 0
  {
    var w := Bits(c);
    assert w & 0xffff_ff00 == 0;
  }

  lemma NoTrace(x: bv32)
    requires x & 0xff00_0000 == 0
    ensures Shift(x, 8) == x << 8
  {
    hide Shift, Up, Top;
    ClearUp(x);
    NextUp(x, 8);
    NextUp(x << 1, 7);
    NextUp(x << 2, 6);
    NextUp(x << 3, 5);
    NextUp(x << 4, 4);
    NextUp(x << 5, 3);
    NextUp(x << 6, 2);
    NextUp(x << 7, 1);
    ShiftFirst(x << 8, 0);
  }

  lemma ClearUp(x: bv32)
    requires x & 0xff00_0000 == 0
    ensures !Top(x) && Up(x) == x << 1 && !Top(x << 1) && Up(x << 1) == x << 2
    ensures !Top(x << 2) && Up(x << 2) == x << 3 && !Top(x << 3) && Up(x << 3) == x << 4
    ensures !Top(x << 4) && Up(x << 4) == x << 5 && !Top(x << 5) && Up(x << 5) == x << 6
    ensures !Top(x << 6) && Up(x << 6) == x << 7 && !Top(x << 7) && Up(x << 7) == x << 8
  {
  }

  lemma NextUp(x: bv32, k: nat)
    requires k > 0 && !Top(x)
    ensures Shift(x, k) == Shift(Up(x), k - 1)
  {
    hide Shift;
    ShiftFirst(x, k);
  }

  lemma SameByte(c: byte, d: byte)
    requires Bits(c) == Bits(d)
    ensures c == d
  {
    AsByte(c);
    AsByte(d);
    assert (c as bv8) as bv32 == (d as bv8) as bv32;
    assert c as bv8 == d as bv8;
  }

  lemma AsByte(c: byte)
    ensures (c as bv8) as int == c && (c as bv8) as bv32 == c as bv32
  {
  }

  // ----- four adjacent bytes -----

  lemma ByteStep(crc: bv32, c: byte)
    ensures CrcByte(crc, c) == Shift(Xor(crc, Placed(c, 0)), 8)
  {
    hide Shift;
  }

  /** The checksum of at most four bytes is their word, shifted. */
  lemma {:induction false} CrcOfWord(crc: bv32, s: seq<byte>)
    requires |s| <= 4
    ensures Crc(crc, s) == Xor(Shift(crc, 8 * |s|), Shift(Word(s), 8 * |s|))
    decreases |s|
  {
    hide CrcByte, Shift, Placed, Xor, Word;
    WordOf(s);
    if s == [] {
      ShiftFirst(crc, 0);
      ShiftFirst(0, 0);
      XorZero(crc);
    } else {
      var n := |s| - 1;
      var t, c := s[..n], s[n];
      var before, word := Shift(crc, 8 * n), Shift(Word(t), 8 * n);
      CrcOfWord(crc, t);
      ByteStep(Crc(crc, t), c);
      XorSwap(before, word, Placed(c, 0));
      ShiftTwice(crc, 8 * n, 8);
      ShiftXor(before, Xor(word, Placed(c, 0)), 8);
      ShiftXor(word, Placed(c, 0), 8);
      ShiftTwice(Word(t), 8 * n, 8);
      ShiftXor(Word(t), Placed(c, n), 8 * |s|);
      Arrives(c, n);
    }
  }

  lemma WordOf(s: seq<byte>)
    requires |s| <= 4
    ensures Word(s) == if s == [] then 0 else Xor(Word(s[..|s| - 1]), Placed(s[|s| - 1], |s| - 1))
  {
  }

  /** A byte is shifted from its place to the highest one first. */
  lemma {:induction false} Arrives(c: byte, place: nat)
    requires place < 4
    ensures Shift(Placed(c, place), 8 * (place + 1)) == Shift(Placed(c, 0), 8)
    decreases place
  {
    hide Shift, Placed;
    if place > 0 {
      MovesUp(c, place);
      ShiftTwice(Placed(c, place), 8, 8 * place);
      Arrives(c, place - 1);
    }
  }

  function Low(w: bv32): bv32 { w & 0xff }

  function Down(w: bv32, place: nat): bv32
    requires place < 4
  {
    if place == 0 then w >> 24 else if place == 1 then w >> 16 else if place == 2 then w >> 8 else w
  }

  /** The byte in a place of a word. */
  function At(w: bv32, place: nat): bv32
    requires place < 4
  {
    Low(Down(w, place))
  }

  lemma LowXor(x: bv32, y: bv32)
    ensures Low(Xor(x, y)) == Xor(Low(x), Low(y))
  {
  }

  lemma DownXor(x: bv32, y: bv32, i: nat)
    requires i < 4
    ensures Down(Xor(x, y), i) == Xor(Down(x, i), Down(y, i))
  {
    if i == 0 {
      assert (x ^ y) >> 24 == (x >> 24) ^ (y >> 24);
    } else if i == 1 {
      assert (x ^ y) >> 16 == (x >> 16) ^ (y >> 16);
    } else if i == 2 {
      assert (x ^ y) >> 8 == (x >> 8) ^ (y >> 8);
    }
  }

  lemma AtXor(x: bv32, y: bv32, i: nat)
    requires i < 4
    ensures At(Xor(x, y), i) == Xor(At(x, i), At(y, i))
  {
    hide Low, Down, Xor;
    DownXor(x, y, i);
    LowXor(Down(x, i), Down(y, i));
  }

  lemma AtPlaced(c: byte, place: nat, i: nat)
    requires place < 4 && i < 4
    ensures At(Placed(c, place), i) == if i == place then Bits(c) else 0
  {
    var w := Bits(c);
    assert w & 0xffff_ff00 == 0;
    assert w & 0xff == w;
  }

  lemma AtNothing(i: nat)
    requires i < 4
    ensures At(0, i) == 0
  {
  }

  lemma {:induction false} WordByte(s: seq<byte>, i: nat)
    requires |s| <= 4 && i < 4
    ensures At(Word(s), i) == if i < |s| then Bits(s[i]) else 0
    decreases |s|
  {
    hide At, Xor, Placed, Word, Bits;
    WordOf(s);
    if s == [] {
      AtNothing(i);
    } else {
      var n := |s| - 1;
      WordByte(s[..n], i);
      AtXor(Word(s[..n]), Placed(s[n], n), i);
      AtPlaced(s[n], n, i);
      XorZero(At(Word(s[..n]), i));
      XorZero(Bits(s[n]));
    }
  }

  /** Words of the same number of bytes tell all of them. */
  lemma WordTells(x: seq<byte>, y: seq<byte>)
    requires |x| == |y| <= 4 && Word(x) == Word(y)
    ensures x == y
  {
    hide At, Word, Bits;
    forall i | 0 <= i < |x| ensures x[i] == y[i] {
      WordByte(x, i);
      WordByte(y, i);
      SameByte(x[i], y[i]);
    }
  }

  lemma ByteInjective(crc: bv32, other: bv32, c: byte)
    requires CrcByte(crc, c) == CrcByte(other, c)
    ensures crc == other
  {
    hide Shift, Placed, Xor;
    ByteStep(crc, c);
    ByteStep(other, c);
    ShiftInjective(Xor(crc, Placed(c, 0)), Xor(other, Placed(c, 0)), 8);
    XorCancel(crc, other, Placed(c, 0));
  }

  lemma {:induction false} CrcInjective(crc: bv32, other: bv32, s: seq<byte>)
    requires Crc(crc, s) == Crc(other, s)
    ensures crc == other
    decreases |s|
  {
    hide CrcByte;
    if s != [] {
      ByteInjective(Crc(crc, s[..|s| - 1]), Crc(other, s[..|s| - 1]), s[|s| - 1]);
      CrcInjective(crc, other, s[..|s| - 1]);
    }
  }

  /** Bytes that differ only within four adjacent ones have different checksums. */
  lemma BurstSeen(crc: bv32, a: seq<byte>, x: seq<byte>, y: seq<byte>, b: seq<byte>)
    requires |x| == |y| <= 4 && x != y
    ensures Crc(crc, a + x + b) != Crc(crc, a + y + b)
  {
    hide CrcByte, Crc, Shift, Xor, Word;
    CrcAppend(crc, a, x);
    CrcAppend(crc, a, y);
    CrcAppend(crc, a + x, b);
    CrcAppend(crc, a + y, b);
    var start, k := Crc(crc, a), 8 * |x|;
    if Crc(crc, a + x + b) == Crc(crc, a + y + b) {
      CrcInjective(Crc(start, x), Crc(start, y), b);
      CrcOfWord(start, x);
      CrcOfWord(start, y);
      XorSwap(Shift(start, k), Shift(Word(x), k), 0);
      XorOther(Shift(start, k), Shift(Word(x), k), Shift(Word(y), k));
      ShiftInjective(Word(x), Word(y), k);
      WordTells(x, y);
    }
  }

  lemma XorOther(x: bv32, y: bv32, z: bv32)
    ensures Xor(x, y) == Xor(x, z) ==> y == z
  {
  }

  // ----- questions -----

  /** The questions before and behind the i-th in the text that is hashed. */
  lemma {:induction false} HashedAround(qs: seq<Question>, i: nat)
    requires i < |qs|
    ensures Hashed(qs) == Hashed(qs[..i]) + (LowerAll(qs[i].name) + qs[i].kind) + Hashed(qs[i + 1..])
    decreases i
  {
    hide LowerAll, Hashed;
    HashedFirst(qs);
    HashedFirst(qs[..i]);
    var q := LowerAll(qs[0].name) + qs[0].kind;
    if i == 0 {
      assert [] + q == q;
    } else {
      HashedAround(qs[1..], i - 1);
      assert qs[1..][..i - 1] == qs[..i][1..] && qs[1..][i..] == qs[i + 1..] && qs[1..][i - 1] == qs[i];
      Regroup(q, Hashed(qs[..i][1..]), LowerAll(qs[i].name) + qs[i].kind, Hashed(qs[i + 1..]));
    }
  }

  lemma HashedFirst(qs: seq<Question>)
    ensures Hashed(qs) == if qs == [] then [] else LowerAll(qs[0].name) + qs[0].kind + Hashed(qs[1..])
  {
  }

  lemma Regroup(a: seq<byte>, b: seq<byte>, c: seq<byte>, d: seq<byte>)
    ensures a + (b + c) + d == (a + b) + c + d && a + (b + c + d) == (a + b) + c + d
  {
    assert a + (b + c + d) == (a + b) + c + d;
  }

  /** Two lists of questions that are the same but for the i-th. */
  predicate OthersSame(qs: seq<Question>, rs: seq<Question>, i: nat) {
    |qs| == |rs| && forall j :: 0 <= j < |qs| && j != i ==> SameQuestion(qs[j], rs[j])
  }

  lemma OthersHashed(qs: seq<Question>, rs: seq<Question>, i: nat)
    requires i < |qs| && OthersSame(qs, rs, i)
    ensures Hashed(qs[..i]) == Hashed(rs[..i]) && Hashed(qs[i + 1..]) == Hashed(rs[i + 1..])
  {
    hide SameQuestion, Hashed;
    SameHashed(qs[..i], rs[..i]);
    var x, y := qs[i + 1..], rs[i + 1..];
    assert forall j :: 0 <= j < |x| ==> x[j] == qs[j + i + 1] && y[j] == rs[j + i + 1];
    SameHashed(x, y);
  }

  /** A question for another type or class of the same name is not taken for it. */
  lemma KindSeen(b: seq<byte>, blen: nat, bcount: nat, c: seq<byte>, clen: nat, ccount: nat, start: nat, i: nat)
    requires blen + 4 <= |b| && clen + 4 <= |c|
    requires var qs, rs := Questions(b, blen, start, bcount), Questions(c, clen, start, ccount);
      i < |qs| && OthersSame(qs, rs, i) && SameName(qs[i].name, rs[i].name) && qs[i].kind != rs[i].kind
    ensures QuestionsCrcOf(b, blen, start, bcount) != QuestionsCrcOf(c, clen, start, ccount)
  {
    hide Hashed, Questions, Crc, LowerAll;
    var qs, rs := Questions(b, blen, start, bcount), Questions(c, clen, start, ccount);
    KindSize(b, blen, start, bcount, i);
    KindSize(c, clen, start, ccount, i);
    HashedAround(qs, i);
    HashedAround(rs, i);
    OthersHashed(qs, rs, i);
    var before, name, after := Hashed(qs[..i]), LowerAll(qs[i].name), Hashed(qs[i + 1..]);
    Regroup(before, name, qs[i].kind, after);
    Regroup(before, name, rs[i].kind, after);
    BurstSeen(START, before + name, qs[i].kind, rs[i].kind, after);
  }

  /** Nor is one for a name that differs, apart from letter case, only within four adjacent
      letters x. */
  lemma NameSeen(b: seq<byte>, blen: nat, bcount: nat, c: seq<byte>, clen: nat, ccount: nat, start: nat, i: nat,
      u: seq<byte>, x: seq<byte>, y: seq<byte>, v: seq<byte>)
    requires blen + 4 <= |b| && clen + 4 <= |c| && |x| == |y| <= 4 && LowerAll(x) != LowerAll(y)
    requires var qs, rs := Questions(b, blen, start, bcount), Questions(c, clen, start, ccount);
      i < |qs| && OthersSame(qs, rs, i) && qs[i].kind == rs[i].kind
      && SameName(qs[i].name, u + x + v) && SameName(rs[i].name, u + y + v)
    ensures QuestionsCrcOf(b, blen, start, bcount) != QuestionsCrcOf(c, clen, start, ccount)
  {
    hide Hashed, Questions, Crc, LowerAll;
    var qs, rs := Questions(b, blen, start, bcount), Questions(c, clen, start, ccount);
    HashedAround(qs, i);
    HashedAround(rs, i);
    OthersHashed(qs, rs, i);
    var before, kind, after := Hashed(qs[..i]), qs[i].kind, Hashed(qs[i + 1..]);
    Inside(before, u, x, v, kind, after);
    Inside(before, u, y, v, kind, after);
    BurstSeen(START, before + LowerAll(u), LowerAll(x), LowerAll(y), LowerAll(v) + kind + after);
  }

  lemma Inside(a: seq<byte>, u: seq<byte>, x: seq<byte>, v: seq<byte>, kind: seq<byte>, b: seq<byte>)
    ensures a + (LowerAll(u + x + v) + kind) + b == (a + LowerAll(u)) + LowerAll(x) + (LowerAll(v) + kind + b)
  {
    LowerJoin(u, x);
    LowerJoin(u + x, v);
    hide LowerAll;
  }

  lemma LowerJoin(s: seq<byte>, t: seq<byte>)
    ensures LowerAll(s + t) == LowerAll(s) + LowerAll(t)
  {
  }

  lemma {:induction false} KindSize(b: seq<byte>, len: nat, p: nat, count: nat, i: nat)
    requires len + 4 <= |b| && i < |Questions(b, len, p, count)|
    ensures |Questions(b, len, p, count)[i].kind| == 4
    decreases count
  {
    hide DecodeName;
    match DecodeName(b[..len], p, 4)
    case None =>
    case Some(d) =>
      ResumeInside(b[..len], p);
      if i > 0 {
        KindSize(b, len, d.resume + 4, count - 1, i - 1);
      }
  }
}
