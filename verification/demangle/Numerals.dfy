/** Numerals as a compiler writes them, and what the scanner makes of them. */
module Numerals {
  import opened Decimals
  import opened Components
  import opened Scanner

  /** The text s starts at the position of st. */
  ghost predicate At(x: Input, st: State, s: string) {
    In(x, st) && st.n + |s| <= |x.text| && x.text[st.n..st.n + |s|] == s
  }

  lemma AtSplit(x: Input, st: State, a: string, b: string)
    requires At(x, st, a + b)
    ensures At(x, st, a) && At(x, Advance(st, |a|), b)
  {
    var t := x.text[st.n..st.n + |a + b|];
    assert x.text[st.n..st.n + |a|] == t[..|a|] == a;
    assert x.text[st.n + |a|..st.n + |a| + |b|] == t[|a|..] == b;
  }

  lemma AtFirst(x: Input, st: State, s: string)
    requires At(x, st, s) && |s| > 0
    ensures Peek(x, st) == s[0]
    ensures |s| > 1 ==> PeekNext(x, st) == s[1]
  {
    assert x.text[st.n] == x.text[st.n..st.n + |s|][0];
    assert |s| > 1 ==> x.text[st.n + 1] == x.text[st.n..st.n + |s|][1];
  }

  /** A digit of base 36, as substitutions are numbered. */
  function SeqDigit(d: nat): (c: char)
    requires d < 36
    ensures IsDigit(c) || IsUpper(c)
    ensures (if IsDigit(c) then c as int - '0' as int else c as int - 'A' as int + 10) == d
  {
    if d < 10 then (d + '0' as int) as char else (d - 10 + 'A' as int) as char
  }

  function Base36(k: nat): (s: string)
    ensures |s| > 0
    ensures forall i :: 0 <= i < |s| ==> IsDigit(s[i]) || IsUpper(s[i])
  {
    if k < 36 then [SeqDigit(k)] else Base36(k / 36) + [SeqDigit(k % 36)]
  }

  /** Digits from a state that already read some of a numeral. */
  lemma {:induction false} ReadsDecimal(x: Input, st: State, k: nat)
    requires At(x, st, Decimal(k))
    ensures Digits(x, st, 0) == Digits(x, Advance(st, |Decimal(k)|), k)
  {
    hide NumberAt;
    if k < 10 {
      AtFirst(x, st, Decimal(k));
    } else {
      AtSplit(x, st, Decimal(k / 10), [DecimalDigit(k % 10)]);
      ReadsDecimal(x, st, k / 10);
      AtFirst(x, Advance(st, |Decimal(k / 10)|), [DecimalDigit(k % 10)]);
    }
  }

  /** A decimal numeral that is not followed by a digit is read as its number. */
  lemma DecimalRoundTrip(x: Input, st: State, k: nat)
    requires At(x, st, Decimal(k)) && !IsDigit(Peek(x, Advance(st, |Decimal(k)|)))
    ensures ScanNumber(x, st) == Count(k, Advance(st, |Decimal(k)|))
  {
    ReadsDecimal(x, st, k);
    AtFirst(x, st, Decimal(k));
  }

  lemma {:induction false} SkipsDecimal(x: Input, st: State, s: string)
    requires At(x, st, s) && (forall i :: 0 <= i < |s| ==> IsDigit(s[i]))
    requires !IsDigit(Peek(x, Advance(st, |s|)))
    ensures DigitRun(x, st) == Advance(st, |s|)
    decreases |s|
  {
    if |s| > 0 {
      AtFirst(x, st, s);
      assert s == s[..1] + s[1..];
      AtSplit(x, st, s[..1], s[1..]);
      SkipsDecimal(x, Advance(st, 1), s[1..]);
    }
  }

  /** One digit of a number that fits an unsigned int. */
  lemma SeqIdStep(x: Input, st: State, d: nat, id: nat)
    requires In(x, st) && d < 36 && id * 36 + d < WORD
    ensures SeqId(x, st, SeqDigit(d), id) == SeqFrom(x, st, id * 36 + d)
  {
    hide SeqDigit;
  }

  /** Reading a sequence number up to its last digit. */
  lemma {:induction false} ReadsSeqId(x: Input, st: State, k: nat)
    requires At(x, st, Base36(k)) && k < WORD
    ensures SeqId(x, Advance(st, 1), Peek(x, st), 0) == SeqFrom(x, Advance(st, |Base36(k)|), k)
  {
    hide SeqId, SeqDigit, WORD;
    if k < 36 {
      AtFirst(x, st, Base36(k));
      SeqIdStep(x, Advance(st, 1), k, 0);
    } else {
      var d := Base36(k / 36);
      AtSplit(x, st, d, [SeqDigit(k % 36)]);
      ReadsSeqId(x, st, k / 36);
      var st' := Advance(st, |d|);
      AtFirst(x, st', [SeqDigit(k % 36)]);
      assert k / 36 * 36 + k % 36 == k;
      SeqIdStep(x, Advance(st', 1), k % 36, k / 36);
    }
  }

  /** The rest of SeqId once id has been read. */
  function SeqFrom(x: Input, st: State, id: nat): Count
    requires In(x, st) && id < WORD
  {
    if Peek(x, st) == '_' then Count((id + 1) % WORD, Advance(st, 1))
    else if Peek(x, st) == '\0' then Count(-1, st)
    else SeqId(x, Advance(st, 1), Peek(x, st), id)
  }

  lemma SeqIdRoundTrip(x: Input, st: State, k: nat)
    requires At(x, st, Base36(k) + "_") && k + 1 < WORD
    ensures SeqId(x, Advance(st, 1), Peek(x, st), 0) == Count(k + 1, Advance(st, |Base36(k)| + 1))
  {
    hide SeqId, Base36;
    AtSplit(x, st, Base36(k), "_");
    AtFirst(x, Advance(st, |Base36(k)|), "_");
    ReadsSeqId(x, st, k);
  }
}
