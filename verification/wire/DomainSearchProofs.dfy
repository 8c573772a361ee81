/** The names that went into the option come out of it. */
module DomainSearchProofs {
  import opened BigEndian
  import opened Wrappers
  import opened Bytes
  import opened DomainSearch

  /** Labels as they come from a name that was accepted, but none of them empty. */
  predicate Proper(labels: seq<string>) {
    forall i :: 0 <= i < |labels| ==> ProperLabel(labels[i])
  }

  predicate ProperLabel(l: string) {
    l != "" && Tame(l)
  }

  /** Short, and of characters that are bytes other than zero. */
  predicate Tame(l: string) {
    |l| <= MAXLABEL && forall i :: 0 <= i < |l| ==> Printable(l[i])
  }

  predicate AllTame(labels: seq<string>) {
    forall i :: 0 <= i < |labels| ==> Tame(labels[i])
  }

  function LabelsBytes(labels: seq<string>): seq<seq<byte>> {
    if labels == [] then [] else [ToBytes(labels[0])] + LabelsBytes(labels[1..])
  }

  // ----- the wire form of one name -----

  /** The name ends at the first zero. */
  lemma {:induction false} WireNonZero(ls: seq<string>)
    requires Short(ls) && Proper(ls)
    ensures forall i :: 0 <= i < |Wire(ls)| - 1 ==> Wire(ls)[i] != 0
  {
    if ls != [] {
      WireNonZero(ls[1..]);
      var l := Label(ls[0]);
      assert ProperLabel(ls[0]);
      assert Wire(ls) == l + Wire(ls[1..]);
      assert forall i :: 0 <= i < |l| ==> l[i] != 0;
    }
  }

  lemma WireStep(ls: seq<string>)
    requires Short(ls) && ls != []
    ensures Wire(ls) == Label(ls[0]) + Wire(ls[1..])
  {
  }

  lemma WireStart(ls: seq<string>)
    requires Short(ls) && Proper(ls)
    ensures |Wire(ls)| > 0
    ensures ls == [] ==> Wire(ls) == [0]
    ensures ls != [] ==> Wire(ls)[0] == |ls[0]| > 0
  {
    if ls != [] {
      assert ProperLabel(ls[0]);
    }
  }

  lemma ProperHead(ls: seq<string>)
    requires Proper(ls) && ls != []
    ensures ProperLabel(ls[0]) && Proper(ls[1..])
  {
  }

  lemma ZeroDecodes(c: seq<byte>, i: nat, run: nat)
    requires i < |c| && c[i] == 0
    ensures Decode(c, i, run) == Some(Read([], i + 1))
  {
  }

  /** A label in front of what decodes. */
  lemma LabelDecodes(c: seq<byte>, i: nat, run: nat, l: string)
    requires ProperLabel(l) && i + 1 + |l| <= |c| && c[i..i + 1 + |l|] == Label(l)
    ensures var rest := Decode(c, i + 1 + |l|, run);
      rest.Some? ==> Decode(c, i, run) == Some(Read([ToBytes(l)] + rest.value.labels, rest.value.next))
  {
    assert c[i] == c[i..i + 1 + |l|][0];
    assert c[i + 1..i + 1 + |l|] == c[i..i + 1 + |l|][1..] == ToBytes(l);
  }

  lemma {:induction false} WireDecodes(c: seq<byte>, i: nat, run: nat, ls: seq<string>)
    requires Short(ls) && Proper(ls)
    requires i + |Wire(ls)| <= |c| && c[i..i + |Wire(ls)|] == Wire(ls)
    ensures Decode(c, i, run) == Some(Read(LabelsBytes(ls), i + |Wire(ls)|))
    decreases |ls|
  {
    hide Wire, Decode, Proper, ProperLabel;
    WireStart(ls);
    var w := Wire(ls);
    assert c[i] == c[i..i + |w|][0];
    if ls == [] {
      ZeroDecodes(c, i, run);
    } else {
      WireStep(ls);
      ProperHead(ls);
      var l := Label(ls[0]);
      var i' := i + |l|;
      assert c[i..i'] == c[i..i + |w|][..|l|] == l;
      assert c[i'..i + |w|] == c[i..i + |w|][|l|..] == Wire(ls[1..]);
      WireDecodes(c, i', run, ls[1..]);
      LabelDecodes(c, i, run, ls[0]);
    }
  }

  // ----- a match is a whole name -----

  lemma {:induction false} SameTextSpan(b: seq<byte>, r: nat, t: nat)
    requires r < t < |b| && b[|b| - 1] == 0 && SameText(b, r, t)
    requires forall i :: t <= i < |b| - 1 ==> b[i] != 0
    ensures b[r..r + |b| - t] == b[t..]
    decreases |b| - t
  {
    if b[t] != 0 {
      SameTextSpan(b, r + 1, t + 1);
      assert b[r..r + |b| - t] == [b[r]] + b[r + 1..r + 1 + |b| - (t + 1)];
      assert b[t..] == [b[t]] + b[t + 1..];
    }
  }

  /** Text that equals a tail of the new name lies wholly within the names before it, even if
      the walk got there out of step. */
  lemma MatchIsBefore(b: seq<byte>, r: nat, t: nat, len: nat)
    requires r < len <= t < |b| && b[|b| - 1] == 0 && SameText(b, r, t)
    requires forall i :: len <= i < |b| - 1 ==> b[i] != 0
    ensures r + |b| - t <= len && b[r..r + |b| - t] == b[t..]
  {
    SameTextSpan(b, r, t);
    assert b[r..r + |b| - t][|b| - 1 - t] == b[t..][|b| - 1 - t];
    assert b[r + |b| - 1 - t] == 0;
  }

  // ----- one more name -----

  /** What the compressor leaves of the buffer. */
  function Cut(b: seq<byte>, m: Option<Match>): seq<byte>
    requires m.Some? ==> m.value.tail <= |b|
  {
    match m
    case Some(m) => b[..m.tail] + [PointerHigh(m.target), PointerLow(m.target)]
    case None => b
  }

  lemma {:induction false} TailDecodes(b: seq<byte>, t: nat, len: nat, ls: seq<string>)
    requires Short(ls) && Proper(ls) && len <= 0x4000
    requires len <= t < |b| && b[|b| - 1] == 0 && b[t..] == Wire(ls)
    requires forall i :: len <= i < |b| - 1 ==> b[i] != 0
    ensures var c := Cut(b, FirstTail(b, t, len));
      Decode(c, t, len) == Some(Read(LabelsBytes(ls), |c|))
    decreases |ls|
  {
    hide Wire, Walk, Proper, Decode, SameText, FirstTail, Cut, Label;
    var c := Cut(b, FirstTail(b, t, len));
    if ls == [] {
      EmptyTail(b, t, len);
    } else {
      ProperHead(ls);
      match Walk(b, 0, len, t)
      case Some(r) => MatchedTail(b, t, len, ls, r);
      case None =>
        KeptLabel(b, t, len, ls);
        TailDecodes(b, t + 1 + |ls[0]|, len, ls[1..]);
        LabelDecodes(c, t, len, ls[0]);
    }
  }

  lemma EmptyTail(b: seq<byte>, t: nat, len: nat)
    requires len <= t < |b| && b[|b| - 1] == 0 && b[t..] == Wire([])
    ensures FirstTail(b, t, len).None? && t + 1 == |b|
    ensures Decode(b, t, len) == Some(Read([], |b|)) && Cut(b, None) == b
  {
    assert b[t] == b[t..][0] == 0;
    assert |b[t..]| == 1;
  }

  /** A label the walk does not find, with what is behind it, stays in the buffer. */
  lemma KeptLabel(b: seq<byte>, t: nat, len: nat, ls: seq<string>)
    requires Short(ls) && Proper(ls) && ls != []
    requires len <= t < |b| && b[|b| - 1] == 0 && b[t..] == Wire(ls)
    requires Walk(b, 0, len, t).None?
    ensures var t' := t + 1 + |ls[0]|;
      && t' < |b| && b[t'..] == Wire(ls[1..])
      && FirstTail(b, t, len) == FirstTail(b, t', len)
      && var c := Cut(b, FirstTail(b, t, len));
         t' <= |c| && c[t..t'] == Label(ls[0])
  {
    hide Walk, Wire, Proper, Label, Cut, SameText, FirstTail, LabelBytes;
    TailStep(b, t, ls);
    SkipTail(b, t, len);
    var t' := t + 1 + |ls[0]|;
    CutKeeps(b, FirstTail(b, t', len), t, t');
  }

  lemma TailStep(b: seq<byte>, t: nat, ls: seq<string>)
    requires Short(ls) && Proper(ls) && ls != [] && t < |b| && b[t..] == Wire(ls)
    ensures var t' := t + 1 + |ls[0]|;
      t' < |b| && b[t] == |ls[0]| > 0 && b[t..t'] == Label(ls[0]) && b[t'..] == Wire(ls[1..])
  {
    hide Proper, ToBytes, LabelBytes;
    WireStep(ls);
    WireStart(ls);
    var l := Label(ls[0]);
    assert b[t] == b[t..][0];
    assert b[t..t + |l|] == b[t..][..|l|];
    assert b[t + |l|..] == b[t..][|l|..];
  }

  lemma SkipTail(b: seq<byte>, t: nat, len: nat)
    requires len <= t < |b| && b[|b| - 1] == 0 && b[t] != 0 && Walk(b, 0, len, t).None?
    ensures FirstTail(b, t, len) == FirstTail(b, t + b[t] + 1, len)
  {
  }

  lemma CutKeeps(b: seq<byte>, m: Option<Match>, t: nat, t': nat)
    requires t <= t' <= |b| && (m.Some? ==> t' <= m.value.tail <= |b|)
    ensures t' <= |Cut(b, m)| && Cut(b, m)[t..t'] == b[t..t']
  {
  }

  lemma MatchedTail(b: seq<byte>, t: nat, len: nat, ls: seq<string>, r: nat)
    requires Short(ls) && Proper(ls) && ls != [] && len <= 0x4000
    requires len <= t < |b| && b[|b| - 1] == 0 && b[t..] == Wire(ls) && Walk(b, 0, len, t) == Some(r)
    requires forall i :: len <= i < |b| - 1 ==> b[i] != 0
    ensures var c := Cut(b, FirstTail(b, t, len));
      Decode(c, t, len) == Some(Read(LabelsBytes(ls), |c|))
  {
    hide Walk, Wire, Proper, LabelsBytes, SameText;
    WireStart(ls);
    assert b[t] == b[t..][0];
    var c := Cut(b, Some(Match(t, r)));
    MatchIsBefore(b, r, t, len);
    assert c[r..r + |Wire(ls)|] == b[r..r + |b| - t] == Wire(ls);
    WireDecodes(c, r, r, ls);
    PointerRoundTrip(r);
    PointerDecodes(c, t, len, r);
  }

  lemma PointerDecodes(c: seq<byte>, t: nat, run: nat, r: nat)
    requires r < run && t + 2 == |c| && c[t] == PointerHigh(r) && c[t + 1] == PointerLow(r)
    requires Target(PointerHigh(r), PointerLow(r)) == r
    ensures Decode(c, r, r).Some? ==> Decode(c, t, run) == Some(Read(Decode(c, r, r).value.labels, |c|))
  {
    hide PointerLow, Target;
  }

  /** One more name decodes to its labels, and the buffer before it is not touched. */
  lemma AddNameDecodes(b: seq<byte>, ls: seq<string>)
    requires Short(ls) && Proper(ls) && |b| <= 0x4000
    ensures var c := AddName(b, ls);
      && |b| < |c| && c[..|b|] == b
      && Decode(c, |b|, |b|) == Some(Read(LabelsBytes(ls), |c|))
  {
    var full := b + Wire(ls);
    assert full[|b|..] == Wire(ls);
    assert full[|full| - 1] == 0;
    WireNonZero(ls);
    assert forall i :: |b| <= i < |full| - 1 ==> full[i] == Wire(ls)[i - |b|];
    TailDecodes(full, |b|, |b|, ls);
    assert AddName(b, ls) == Cut(full, FirstTail(full, |b|, |b|));
  }

  // ----- the whole buffer -----

  lemma {:induction false} DecodePrefix(b: seq<byte>, c: seq<byte>, i: nat, run: nat)
    requires |b| <= |c| && c[..|b|] == b && Decode(b, i, run).Some?
    ensures Decode(c, i, run) == Decode(b, i, run)
    decreases run, |b| - i
  {
    assert forall j :: 0 <= j < |b| ==> c[j] == c[..|b|][j];
    if b[i] >= 0xC0 {
      var t := Target(b[i], b[i + 1]);
      DecodePrefix(b, c, t, t);
    } else if b[i] != 0 {
      assert c[i + 1..i + 1 + b[i]] == b[i + 1..i + 1 + b[i]];
      DecodePrefix(b, c, i + 1 + b[i], run);
    }
  }

  lemma {:induction false} DecodeAppend(b: seq<byte>, c: seq<byte>, i: nat, labels: seq<seq<byte>>)
    requires i <= |b| < |c| && c[..|b|] == b && DecodeAll(b, i).Some?
    requires Decode(c, |b|, |b|) == Some(Read(labels, |c|))
    ensures DecodeAll(c, i) == Some(DecodeAll(b, i).value + [labels])
    decreases |b| - i
  {
    if i < |b| {
      DecodePrefix(b, c, i, i);
      var name := Decode(b, i, i).value;
      DecodeAppend(b, c, name.next, labels);
      var rest := DecodeAll(b, name.next).value;
      assert [name.labels] + (rest + [labels]) == [name.labels] + rest + [labels];
    } else {
      assert DecodeAll(c, |c|) == Some([]);
      assert [labels] + [] == [] + [labels];
    }
  }

  function NamesBytes(names: seq<seq<string>>): seq<seq<seq<byte>>> {
    if names == [] then [] else NamesBytes(names[..|names| - 1]) + [LabelsBytes(names[|names| - 1])]
  }

  predicate AllShort(names: seq<seq<string>>) {
    forall i :: 0 <= i < |names| ==> Short(names[i])
  }

  lemma {:induction false} AddNamesDecodes(names: seq<seq<string>>)
    requires AllShort(names) && (forall i :: 0 <= i < |names| ==> Proper(names[i]))
    requires |AddNames([], names)| <= 0x4000
    ensures DecodeAll(AddNames([], names), 0) == Some(NamesBytes(names))
    decreases |names|
  {
    if names != [] {
      var front, last := names[..|names| - 1], names[|names| - 1];
      var b := AddNames([], front);
      AddNameGrows(b, last);
      AddNamesDecodes(front);
      AddNameDecodes(b, last);
      DecodeAppend(b, AddName(b, last), 0, LabelsBytes(last));
    }
  }

  lemma AddNameGrows(b: seq<byte>, ls: seq<string>)
    requires Short(ls)
    ensures |b| < |AddName(b, ls)|
  {
  }

  // ----- exactly when -----

  lemma {:induction false} DecodedLabelsNonEmpty(b: seq<byte>, i: nat, run: nat)
    requires Decode(b, i, run).Some?
    ensures forall k :: 0 <= k < |Decode(b, i, run).value.labels| ==> Decode(b, i, run).value.labels[k] != []
    decreases run, |b| - i
  {
    if b[i] >= 0xC0 {
      var t := Target(b[i], b[i + 1]);
      DecodedLabelsNonEmpty(b, t, t);
    } else if b[i] != 0 {
      DecodedLabelsNonEmpty(b, i + 1 + b[i], run);
    }
  }

  lemma {:induction false} DecodedNamesNonEmpty(b: seq<byte>, i: nat)
    requires DecodeAll(b, i).Some?
    ensures forall n, k :: 0 <= n < |DecodeAll(b, i).value| && 0 <= k < |DecodeAll(b, i).value[n]| ==>
      DecodeAll(b, i).value[n][k] != []
    decreases |b| - i
  {
    if i < |b| {
      DecodedLabelsNonEmpty(b, i, i);
      DecodedNamesNonEmpty(b, Decode(b, i, i).value.next);
    }
  }

  lemma {:induction false} LabelsBytesAt(ls: seq<string>, k: nat)
    requires k < |ls|
    ensures |LabelsBytes(ls)| == |ls| && LabelsBytes(ls)[k] == ToBytes(ls[k])
    decreases |ls|
  {
    if |ls| > 1 {
      LabelsBytesAt(ls[1..], if k > 0 then k - 1 else 0);
    }
  }

  lemma {:induction false} NamesBytesAt(names: seq<seq<string>>, n: nat)
    requires n < |names|
    ensures |NamesBytes(names)| == |names| && NamesBytes(names)[n] == LabelsBytes(names[n])
    decreases |names|
  {
    if |names| > 1 {
      NamesBytesAt(names[..|names| - 1], if n < |names| - 1 then n else 0);
    }
  }

  predicate NoEmptyLabel(labels: seq<string>) {
    forall k :: 0 <= k < |labels| ==> labels[k] != ""
  }

  /** No label of any name is empty. */
  predicate NonEmpty(names: seq<seq<string>>) {
    forall i :: 0 <= i < |names| ==> NoEmptyLabel(names[i])
  }

  /** The names in the option decode to the names configured, in their order, exactly if none
      of them has an empty label. */
  lemma DecodesExactly(names: seq<seq<string>>)
    requires AllShort(names) && (forall i :: 0 <= i < |names| ==> AllTame(names[i]))
    requires |AddNames([], names)| <= 0x4000
    ensures DecodeAll(AddNames([], names), 0) == Some(NamesBytes(names))
       <==> NonEmpty(names)
  {
    if NonEmpty(names) {
      forall i | 0 <= i < |names| ensures Proper(names[i]) {
        assert AllTame(names[i]) && NoEmptyLabel(names[i]);
      }
      AddNamesDecodes(names);
    } else {
      var i :| 0 <= i < |names| && !NoEmptyLabel(names[i]);
      var k :| 0 <= k < |names[i]| && names[i][k] == "";
      NamesBytesAt(names, i);
      LabelsBytesAt(names[i], k);
      assert NamesBytes(names)[i][k] == [];
      if DecodeAll(AddNames([], names), 0).Some? {
        DecodedNamesNonEmpty(AddNames([], names), 0);
      }
    }
  }
}
