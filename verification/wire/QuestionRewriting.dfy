/** Two ways to write the same questions differently, and their checksum (questions_crc). */
module QuestionRewriting {
  import opened BigEndian
  import opened Wrappers
  import opened Bytes
  import opened Packets
  import opened QuestionCrc

  // ----- other letters -----

  predicate SameLabels(ls: seq<seq<byte>>, ms: seq<seq<byte>>) {
    |ls| == |ms| && forall i :: 0 <= i < |ls| ==> SameName(ls[i], ms[i])
  }

  /** The name at p has the same lengths and pointers in both packets, and the characters of its
      labels are the same up to letter case. */
  predicate Relettered(b: seq<byte>, c: seq<byte>, p: nat, hops: nat)
    requires |b| == |c| && hops <= MAXHOPS && Follow(b, p, hops).Some?
    decreases MAXHOPS - hops, |b| - p
  {
    b[p] == c[p]
    && (IsPointer(b[p]) ==> b[p + 1] == c[p + 1] && Relettered(b, c, Target(b[p], b[p + 1]), hops + 1))
    && (IsLabel(b[p]) && b[p] != 0 ==>
          SameName(b[p + 1..p + 1 + b[p]], c[p + 1..p + 1 + b[p]]) && Relettered(b, c, p + 1 + b[p], hops))
  }

  lemma {:induction false} FollowRelettered(b: seq<byte>, c: seq<byte>, p: nat, hops: nat)
    requires |b| == |c| && hops <= MAXHOPS && Follow(b, p, hops).Some? && Relettered(b, c, p, hops)
    ensures Follow(c, p, hops).Some?
    ensures var v, w := Follow(b, p, hops).value, Follow(c, p, hops).value;
      w.last == v.last && w.resume == v.resume && SameLabels(v.labels, w.labels)
    decreases MAXHOPS - hops, |b| - p
  {
    hide SameName;
    if IsPointer(b[p]) {
      FollowRelettered(b, c, Target(b[p], b[p + 1]), hops + 1);
    } else if b[p] != 0 {
      FollowRelettered(b, c, p + 1 + b[p], hops);
    }
  }

  lemma LowerAppend(a: seq<byte>, b: seq<byte>)
    ensures LowerAll(a + b) == LowerAll(a) + LowerAll(b)
  {
    assert forall i :: 0 <= i < |a + b| ==> LowerAll(a + b)[i] == (LowerAll(a) + LowerAll(b))[i];
  }

  lemma {:induction false} DottedSame(ls: seq<seq<byte>>, ms: seq<seq<byte>>)
    requires SameLabels(ls, ms)
    ensures |Dotted(ls)| == |Dotted(ms)| && SameName(Dotted(ls), Dotted(ms))
    decreases |ls|
  {
    hide LowerAll;
    if ls != [] {
      var n := |ls| - 1;
      DottedSame(ls[..n], ms[..n]);
      assert SameName(ls[n], ms[n]);
      LowerAppend(Dotted(ls[..n]), ls[n]);
      LowerAppend(Dotted(ms[..n]), ms[n]);
      LowerAppend(Dotted(ls[..n]) + ls[n], ['.' as int]);
      LowerAppend(Dotted(ms[..n]) + ms[n], ['.' as int]);
    }
  }

  lemma CleanSame(ls: seq<seq<byte>>, ms: seq<seq<byte>>)
    requires SameLabels(ls, ms) && AllClean(ls)
    ensures AllClean(ms)
  {
    forall i | 0 <= i < |ms| ensures CleanLabel(ms[i]) {
      assert SameName(ls[i], ms[i]) && CleanLabel(ls[i]);
      forall j | 0 <= j < |ms[i]| ensures Clean(ms[i][j]) {
        assert LowerAll(ms[i])[j] == LowerAll(ls[i])[j] && Clean(ls[i][j]);
      }
    }
  }

  /** Names that follow to the same labels, up to letter case, decode to the same text, or do not
      decode. */
  lemma DecodeSame(b: seq<byte>, p: nat, c: seq<byte>, q: nat, extra: nat)
    requires Follow(b, p, 0).Some? && Follow(b, p, 0).value.last + extra <= |b|
    requires Follow(c, q, 0).Some? && Follow(c, q, 0).value.last + extra <= |c|
    requires SameLabels(Follow(b, p, 0).value.labels, Follow(c, q, 0).value.labels)
    ensures DecodeName(b, p, extra).Some? <==> DecodeName(c, q, extra).Some?
    ensures DecodeName(b, p, extra).Some? ==>
      && SameName(DecodeName(b, p, extra).value.text, DecodeName(c, q, extra).value.text)
      && DecodeName(b, p, extra).value.resume == Follow(b, p, 0).value.resume
      && DecodeName(c, q, extra).value.resume == Follow(c, q, 0).value.resume
  {
    hide LowerAll, Follow, AllClean, CleanLabel;
    var ls, ms := Follow(b, p, 0).value.labels, Follow(c, q, 0).value.labels;
    DottedSame(ls, ms);
    if AllClean(ls) {
      CleanSame(ls, ms);
    }
    if AllClean(ms) {
      CleanSame(ms, ls);
    }
    if ls != [] {
      var k := |Dotted(ls)| - 1;
      LowerPrefix(Dotted(ls), k);
      LowerPrefix(Dotted(ms), k);
    }
  }

  lemma LowerPrefix(s: seq<byte>, k: nat)
    requires k <= |s|
    ensures LowerAll(s[..k]) == LowerAll(s)[..k]
  {
  }

  // ----- whole sections -----

  /** The names of both sections follow to the same labels up to letter case, wherever the labels
      stand; the types and classes are the same. */
  predicate SectionRewritten(b: seq<byte>, blen: nat, p: nat, c: seq<byte>, clen: nat, q: nat, count: nat)
    requires blen + 4 <= |b| && clen + 4 <= |c|
    decreases count
  {
    count == 0 ||
    (var v, w := Follow(b[..blen], p, 0), Follow(c[..clen], q, 0);
     && v.Some? && w.Some? && SameLabels(v.value.labels, w.value.labels)
     && v.value.last + 4 <= blen && w.value.last + 4 <= clen
     && b[v.value.resume..v.value.resume + 4] == c[w.value.resume..w.value.resume + 4]
     && (v.value.resume + 4 <= blen <==> w.value.resume + 4 <= clen)
     && (v.value.resume + 4 <= blen ==>
           SectionRewritten(b, blen, v.value.resume + 4, c, clen, w.value.resume + 4, count - 1)))
  }

  lemma {:induction false} QuestionsRewritten(b: seq<byte>, blen: nat, p: nat, c: seq<byte>, clen: nat, q: nat,
      count: nat)
    requires blen + 4 <= |b| && clen + 4 <= |c| && SectionRewritten(b, blen, p, c, clen, q, count)
    ensures SameQuestions(Questions(b, blen, p, count), Questions(c, clen, q, count))
    decreases count
  {
    hide SameLabels, SameName, Follow, DecodeName, Questions;
    NoneAsked(b, blen, p);
    NoneAsked(c, clen, q);
    if count > 0 {
      var v, w := Follow(b[..blen], p, 0).value, Follow(c[..clen], q, 0).value;
      DecodeSame(b[..blen], p, c[..clen], q, 4);
      FirstQuestion(b, blen, p, count);
      FirstQuestion(c, clen, q, count);
      if v.resume + 4 <= blen {
        QuestionsRewritten(b, blen, v.resume + 4, c, clen, w.resume + 4, count - 1);
      }
    }
  }

  lemma NoneAsked(b: seq<byte>, len: nat, p: nat)
    requires len + 4 <= |b|
    ensures Questions(b, len, p, 0) == []
  {
  }

  /** The first question of a section and those behind it. */
  lemma FirstQuestion(b: seq<byte>, len: nat, p: nat, count: nat)
    requires len + 4 <= |b| && count > 0
    ensures var d, qs := DecodeName(b[..len], p, 4), Questions(b, len, p, count);
      && (d.None? ==> qs == [])
      && (d.Some? ==>
            && d.value.resume <= len
            && qs == [Question(d.value.text, b[d.value.resume..d.value.resume + 4])]
                     + if d.value.resume + 4 > len then [] else Questions(b, len, d.value.resume + 4, count - 1))
  {
    hide DecodeName;
    ResumeInside(b[..len], p);
  }

  /** The checksum does not see how the names of a section are written: neither the case of the
      letters nor which parts are pointers. */
  lemma CrcIgnoresWriting(b: seq<byte>, blen: nat, c: seq<byte>, clen: nat, start: nat, count: nat)
    requires blen + 4 <= |b| && clen + 4 <= |c| && SectionRewritten(b, blen, start, c, clen, start, count)
    ensures QuestionsCrcOf(b, blen, start, count) == QuestionsCrcOf(c, clen, start, count)
  {
    hide Questions, QuestionsCrcOf, SectionRewritten;
    QuestionsRewritten(b, blen, start, c, clen, start, count);
    CrcSeesQuestions(b, blen, count, c, clen, count, start);
  }

  /** All names decode, and in c they are the names of b with other letters in the same places; the
      types and classes are the same. */
  predicate SectionRelettered(b: seq<byte>, c: seq<byte>, len: nat, p: nat, count: nat)
    requires |b| == |c| && len + 4 <= |b|
    decreases count
  {
    count == 0 ||
    (var d := DecodeName(b[..len], p, 4);
     && d.Some? && Relettered(b[..len], c[..len], p, 0)
     && d.value.resume <= len && b[d.value.resume..d.value.resume + 4] == c[d.value.resume..d.value.resume + 4]
     && (d.value.resume + 4 <= len ==> SectionRelettered(b, c, len, d.value.resume + 4, count - 1)))
  }

  lemma {:induction false} ReletteringRewrites(b: seq<byte>, c: seq<byte>, len: nat, p: nat, count: nat)
    requires |b| == |c| && len + 4 <= |b| && SectionRelettered(b, c, len, p, count)
    ensures SectionRewritten(b, len, p, c, len, p, count)
    decreases count
  {
    hide Relettered, SameLabels, AllClean, Dotted, Follow;
    if count > 0 {
      FollowRelettered(b[..len], c[..len], p, 0);
      var d := DecodeName(b[..len], p, 4).value;
      if d.resume + 4 <= len {
        ReletteringRewrites(b, c, len, d.resume + 4, count - 1);
      }
    }
  }

  /** In particular when letters change in place, whatever else is in the packets. */
  lemma CrcIgnoresCase(b: seq<byte>, c: seq<byte>, len: nat, start: nat, count: nat)
    requires |b| == |c| && len + 4 <= |b| && SectionRelettered(b, c, len, start, count)
    ensures QuestionsCrcOf(b, len, start, count) == QuestionsCrcOf(c, len, start, count)
  {
    hide QuestionsCrcOf, SectionRewritten, SectionRelettered;
    ReletteringRewrites(b, c, len, start, count);
    CrcIgnoresWriting(b, len, c, len, start, count);
  }

  // ----- a pointer for a tail -----

  /** The same plain labels lead from p to t in both packets. */
  predicate SameFront(b: seq<byte>, c: seq<byte>, p: nat, t: nat)
    decreases t - p
  {
    p == t ||
    (p < t && p < |b| && p < |c| && b[p] == c[p] && IsLabel(b[p]) && b[p] != 0
     && p + 1 + b[p] <= t <= |b| && t <= |c|
     && b[p + 1..p + 1 + b[p]] == c[p + 1..p + 1 + b[p]]
     && SameFront(b, c, p + 1 + b[p], t))
  }

  /** In c a pointer to u stands where in b the labels of the name from t on stand, and at u c
      has those labels: the names at p have the same labels, and in c the name ends after the
      pointer. */
  lemma {:induction false} TailByPointer(b: seq<byte>, c: seq<byte>, p: nat, t: nat, hops: nat)
    requires hops < MAXHOPS && SameFront(b, c, p, t) && p <= t && t + 1 < |c| && IsPointer(c[t])
    requires var v, w := Follow(b, t, hops), Follow(c, Target(c[t], c[t + 1]), hops + 1);
      v.Some? && w.Some? && v.value.labels == w.value.labels
    ensures var v, w := Follow(b, p, hops), Follow(c, p, hops);
      && v.Some? && w.Some? && w.value.labels == v.value.labels && w.value.resume == t + 2
      && v.value.last == Follow(b, t, hops).value.last && v.value.resume == Follow(b, t, hops).value.resume
      && w.value.last == Follow(c, Target(c[t], c[t + 1]), hops + 1).value.last
    decreases t - p
  {
    if p < t {
      TailByPointer(b, c, p + 1 + b[p], t, hops);
    }
  }

  /** In particular when the end of the first name is written as a pointer. */
  lemma CrcIgnoresCompression(b: seq<byte>, blen: nat, c: seq<byte>, clen: nat, p: nat, t: nat, count: nat)
    requires blen + 4 <= |b| && clen + 4 <= |c| && p <= t && t + 6 <= clen && IsPointer(c[t]) && count > 0
    requires SameFront(b[..blen], c[..clen], p, t)
    requires var v, w := Follow(b[..blen], t, 0), Follow(c[..clen], Target(c[t], c[t + 1]), 1);
      && v.Some? && w.Some? && v.value.labels == w.value.labels
      && v.value.resume + 4 <= blen && v.value.last + 4 <= blen && w.value.last + 4 <= clen
      && b[v.value.resume..v.value.resume + 4] == c[t + 2..t + 6]
      && SectionRewritten(b, blen, v.value.resume + 4, c, clen, t + 6, count - 1)
    ensures QuestionsCrcOf(b, blen, p, count) == QuestionsCrcOf(c, clen, p, count)
  {
    hide Follow, SameFront, AllClean, Dotted, QuestionsCrcOf, LowerAll;
    TailByPointer(b[..blen], c[..clen], p, t, 0);
    CrcIgnoresWriting(b, blen, c, clen, p, count);
  }
}
