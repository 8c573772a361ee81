/** The checksum by which a reply is matched to its query (questions_crc). */
module QuestionCrc {
  import opened BigEndian
  import opened Wrappers
  import opened Bytes
  import opened Packets
  import opened NameReader

  function Shift(crc: bv32, k: nat): bv32
    decreases k
  {
    if k == 0 then crc
    else Shift(if crc & 0x8000_0000 != 0 then (crc << 1) ^ 0x04c1_1db7 else crc << 1, k - 1)
  }

  function CrcByte(crc: bv32, c: byte): bv32 {
    Shift(crc ^ ((c as bv32) << 24), 8)
  }

  function Crc(crc: bv32, s: seq<byte>): bv32 {
    if s == [] then crc else CrcByte(Crc(crc, s[..|s| - 1]), s[|s| - 1])
  }

  lemma {:induction false} CrcAppend(crc: bv32, a: seq<byte>, b: seq<byte>)
    ensures Crc(crc, a + b) == Crc(Crc(crc, a), b)
    decreases |b|
  {
    hide CrcByte;
    if b == [] {
      assert a + b == a;
    } else {
      assert (a + b)[..|a + b| - 1] == a + b[..|b| - 1];
      CrcAppend(crc, a, b[..|b| - 1]);
    }
  }

  const START: bv32 := 0xffff_ffff

  /** A question: its name as text and its type and class. */
  datatype Question = Question(name: seq<byte>, kind: seq<byte>)

  /** The questions of a packet of len bytes in buffer b, from offset p on, up to the first
      that is malformed. The type and class are read even if they are beyond the packet. */
  function Questions(b: seq<byte>, len: nat, p: nat, count: nat): seq<Question>
    requires len + 4 <= |b|
    decreases count
  {
    if count == 0 then [] else
    match DecodeName(b[..len], p, 4)
    case None => []
    case Some(d) =>
      assert d.resume <= len by { ResumeInside(b[..len], p); }
      [Question(d.text, b[d.resume..d.resume + 4])]
      + if d.resume + 4 > len then [] else Questions(b, len, d.resume + 4, count - 1)
  }

  lemma ResumeInside(b: seq<byte>, p: nat)
    ensures DecodeName(b, p, 4).Some? ==> DecodeName(b, p, 4).value.resume <= |b|
  {
  }

  /** skip_questions. */
  function SkipQuestions(b: seq<byte>, p: nat, count: nat): Option<nat>
    decreases count
  {
    if count == 0 then Some(p) else
    match SkipName(b, p, 4)
    case None => None
    case Some(q) => SkipQuestions(b, q + 4, count - 1)
  }

  /** Where the questions of a packet end, if all of them decode. */
  function QuestionsEnd(b: seq<byte>, p: nat, count: nat): Option<nat>
    decreases count
  {
    if count == 0 then Some(p) else
    match DecodeName(b, p, 4)
    case None => None
    case Some(d) => if d.resume + 4 > |b| then None else QuestionsEnd(b, d.resume + 4, count - 1)
  }

  /** Questions that decode are skipped to their end. */
  lemma {:induction false} SkipsQuestions(b: seq<byte>, p: nat, count: nat)
    requires QuestionsEnd(b, p, count).Some?
    ensures SkipQuestions(b, p, count) == QuestionsEnd(b, p, count)
    decreases count
  {
    hide DecodeName, SkipName;
    if count > 0 {
      ReadersAgree(b, p, [], 4, 4);
      SkipsQuestions(b, DecodeName(b, p, 4).value.resume + 4, count - 1);
    }
  }

  method SkipAllQuestions(b: seq<byte>, start: nat, count: nat) returns (r: Option<nat>)
    ensures r == SkipQuestions(b, start, count)
  {
    hide SkipName;
    var p: nat, q: nat := start, count;
    while q != 0
      invariant SkipQuestions(b, p, q) == SkipQuestions(b, start, count)
    {
      var next := Skip(b, p, 4);
      if next.None? {
        return None;
      }
      p, q := next.value + 4, q - 1;
    }
    r := Some(p);
  }

  /** What the checksum sees of some questions. */
  function Hashed(qs: seq<Question>): seq<byte> {
    if qs == [] then [] else LowerAll(qs[0].name) + qs[0].kind + Hashed(qs[1..])
  }

  predicate SameQuestion(q: Question, r: Question) {
    SameName(q.name, r.name) && q.kind == r.kind
  }

  predicate SameQuestions(qs: seq<Question>, rs: seq<Question>) {
    |qs| == |rs| && forall i :: 0 <= i < |qs| ==> SameQuestion(qs[i], rs[i])
  }

  lemma {:induction false} SameHashed(qs: seq<Question>, rs: seq<Question>)
    requires SameQuestions(qs, rs)
    ensures Hashed(qs) == Hashed(rs)
    decreases |qs|
  {
    if qs != [] {
      assert SameQuestion(qs[0], rs[0]);
      SameHashed(qs[1..], rs[1..]);
    }
  }

  /** The checksum of a packet. */
  function QuestionsCrcOf(b: seq<byte>, len: nat, start: nat, count: nat): bv32
    requires len + 4 <= |b|
  {
    Crc(START, Hashed(Questions(b, len, start, count)))
  }

  /** Packets that ask the same questions have the same checksum, however their names are
      compressed and in whatever letter case they are written. */
  lemma CrcSeesQuestions(b: seq<byte>, blen: nat, bcount: nat, c: seq<byte>, clen: nat, ccount: nat, start: nat)
    requires blen + 4 <= |b| && clen + 4 <= |c|
    requires SameQuestions(Questions(b, blen, start, bcount), Questions(c, clen, start, ccount))
    ensures QuestionsCrcOf(b, blen, start, bcount) == QuestionsCrcOf(c, clen, start, ccount)
  {
    SameHashed(Questions(b, blen, start, bcount), Questions(c, clen, start, ccount));
  }

  /** Eight steps of the checksum for one byte. */
  method AddByte(crc: bv32, c: byte) returns (r: bv32)
    ensures r == CrcByte(crc, c)
  {
    r := crc ^ ((c as bv32) << 24);
    var i := 8;
    while i > 0
      invariant 0 <= i <= 8
      invariant Shift(r, i) == CrcByte(crc, c)
    {
      r := if r & 0x8000_0000 != 0 then (r << 1) ^ 0x04c1_1db7 else r << 1;
      i := i - 1;
    }
  }

  /** questions_crc; start is the end of the header. */
  method ChecksumQuestions(b: seq<byte>, len: nat, start: nat, count: nat, name: array<byte>) returns (crc: bv32)
    requires len + 4 <= |b| && name.Length >= MAXDNAME
    modifies name
    ensures crc == QuestionsCrcOf(b, len, start, count)
  {
    hide Crc, CrcByte, LowerAll, DecodeName, Questions, Hashed;
    crc := START;
    var p: nat, q: nat := start, count;
    ghost var done: seq<byte> := [];
    NothingHashed(Hashed(Questions(b, len, p, q)));
    while q != 0
      invariant crc == Crc(START, done)
      invariant Hashed(Questions(b, len, start, count)) == done + Hashed(Questions(b, len, p, q))
    {
      QuestionStep(b, len, p, q, done);
      var ok, resume := ExtractName(b[..len], p, name, 4);
      if !ok {
        return;
      }
      ResumeInside(b[..len], p);
      ghost var d := DecodeName(b[..len], p, 4).value;
      TextNoZero(b[..len], p);
      crc := AddLowered(crc, name, d.text);
      crc := AddKind(crc, b, resume);
      CrcAppend(START, done, LowerAll(d.text));
      CrcAppend(START, done + LowerAll(d.text), b[resume..resume + 4]);
      done := done + LowerAll(d.text) + b[resume..resume + 4];
      p, q := resume + 4, q - 1;
      if p > len {
        return;
      }
    }
    NoQuestions(b, len, p);
    assert done + [] == done;
  }

  lemma NoQuestions(b: seq<byte>, len: nat, p: nat)
    requires len + 4 <= |b|
    ensures Hashed(Questions(b, len, p, 0)) == []
  {
  }

  /** What one question adds to what was hashed before. */
  lemma QuestionStep(b: seq<byte>, len: nat, p: nat, count: nat, done: seq<byte>)
    requires len + 4 <= |b| && count > 0
    ensures var d := DecodeName(b[..len], p, 4);
      && (d.None? ==> done + Hashed(Questions(b, len, p, count)) == done)
      && (d.Some? ==>
            && d.value.resume <= len
            && var now := done + LowerAll(d.value.text) + b[d.value.resume..d.value.resume + 4];
               done + Hashed(Questions(b, len, p, count)) ==
                 if d.value.resume + 4 > len then now
                 else now + Hashed(Questions(b, len, d.value.resume + 4, count - 1)))
  {
    hide DecodeName, LowerAll;
    match DecodeName(b[..len], p, 4)
    case None =>
      assert Questions(b, len, p, count) == [];
      assert done + [] == done;
    case Some(d) =>
      ResumeInside(b[..len], p);
      var rest := if d.resume + 4 > len then [] else Questions(b, len, d.resume + 4, count - 1);
      HashedStep(done, Question(d.text, b[d.resume..d.resume + 4]), rest);
      assert done + LowerAll(d.text) + b[d.resume..d.resume + 4] + []
          == done + LowerAll(d.text) + b[d.resume..d.resume + 4];
  }

  lemma NothingHashed(s: seq<byte>)
    ensures [] + s == s && Crc(START, []) == START
  {
  }

  lemma HashedStep(done: seq<byte>, q: Question, rest: seq<Question>)
    ensures done + Hashed([q] + rest) == done + LowerAll(q.name) + q.kind + Hashed(rest)
  {
    hide LowerAll;
    assert ([q] + rest)[0] == q && ([q] + rest)[1..] == rest;
    assert done + (LowerAll(q.name) + q.kind + Hashed(rest)) == done + LowerAll(q.name) + q.kind + Hashed(rest);
  }

  /** A text has no zero inside. */
  lemma TextNoZero(b: seq<byte>, p: nat)
    ensures DecodeName(b, p, 4).Some? ==> 0 !in DecodeName(b, p, 4).value.text
  {
    if DecodeName(b, p, 4).Some? {
      DottedNoZero(Follow(b, p, 0).value.labels);
    }
  }

  lemma {:induction false} DottedNoZero(labels: seq<seq<byte>>)
    requires AllClean(labels)
    ensures 0 !in Dotted(labels)
    decreases |labels|
  {
    if labels != [] {
      var last := labels[|labels| - 1];
      assert CleanLabel(last);
      DottedNoZero(labels[..|labels| - 1]);
      assert 0 !in last;
    }
  }

  /** The name up to its zero, in lower case. */
  method AddLowered(crc: bv32, name: array<byte>, ghost text: seq<byte>) returns (r: bv32)
    requires |text| < name.Length && name[..|text|] == text && name[|text|] == 0 && 0 !in text
    ensures r == Crc(crc, LowerAll(text))
  {
    hide CrcByte;
    r := crc;
    assert forall j :: 0 <= j < |text| ==> name[j] == name[..|text|][j] && text[j] in text;
    var i := 0;
    while name[i] != 0
      invariant i <= |text|
      invariant r == Crc(crc, LowerAll(text[..i]))
      decreases |text| - i
    {
      var c := name[i];
      if 'A' as int <= c <= 'Z' as int {
        c := c + 32;
      }
      assert text[..i + 1][..i] == text[..i] && LowerAll(text[..i + 1]) == LowerAll(text[..i]) + [c];
      assert (LowerAll(text[..i]) + [c])[..i] == LowerAll(text[..i]);
      r := AddByte(r, c);
      i := i + 1;
    }
    assert text[..i] == text;
  }

  /** Type and class. */
  method AddKind(crc: bv32, b: seq<byte>, p: nat) returns (r: bv32)
    requires p + 4 <= |b|
    ensures r == Crc(crc, b[p..p + 4])
  {
    hide CrcByte;
    r := crc;
    for i := 0 to 4
      invariant r == Crc(crc, b[p..p + i])
    {
      assert b[p..p + i + 1][..i] == b[p..p + i];
      r := AddByte(r, b[p + i]);
    }
  }
}
