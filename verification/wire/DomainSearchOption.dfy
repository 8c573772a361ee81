/** Building the domain search option in its buffer. */
module DomainSearchOption {
  import opened BigEndian
  import opened Wrappers
  import opened Bytes
  import opened DomainSearch
  import opened DomainSearchProofs

  // ----- labels of accepted names -----

  lemma {:induction false} FirstLabelFits(s: string, gap: nat)
    requires LabelsFit(s, gap) && gap <= MAXLABEL
    ensures var k := LabelLength(s);
      gap + k <= MAXLABEL && (k < |s| ==> LabelsFit(s[k + 1..], 0))
    decreases |s|
  {
    if s != "" && s[0] != '.' {
      FirstLabelFits(s[1..], gap + 1);
      var k := LabelLength(s);
      assert k < |s| ==> s[k + 1..] == s[1..][k..];
    }
  }

  /** Where the name goes on after its first label. */
  function AfterLabel(s: string): (r: string) {
    var k := LabelLength(s);
    if k < |s| then s[k + 1..] else ""
  }

  lemma AcceptableStep(s: string)
    requires Acceptable(s) && s != ""
    ensures Tame(s[..LabelLength(s)]) && Acceptable(AfterLabel(s))
  {
    FirstLabelFits(s, 0);
  }

  lemma {:induction false} LabelsTame(s: string)
    requires Acceptable(s)
    ensures Short(Labels(s)) && AllTame(Labels(s))
    decreases |s|
  {
    if s != "" {
      AcceptableStep(s);
      LabelsTame(AfterLabel(s));
    }
  }

  /** A dot at the start, or two in a row. */
  predicate HasEmptyLabel(s: string) {
    (s != "" && s[0] == '.') || exists i :: 0 < i < |s| && s[i - 1] == '.' && s[i] == '.'
  }

  lemma LabelsStep(s: string)
    requires s != ""
    ensures Labels(s) == [s[..LabelLength(s)]] + Labels(AfterLabel(s))
  {
  }

  lemma NoEmptyCons(l: string, rest: seq<string>)
    ensures NoEmptyLabel([l] + rest) <==> l != "" && NoEmptyLabel(rest)
  {
    var labels := [l] + rest;
    assert labels[0] == l;
    assert forall k :: 0 <= k < |rest| ==> labels[k + 1] == rest[k];
    if NoEmptyLabel(labels) {
      forall k | 0 <= k < |rest| ensures rest[k] != "" {
        assert labels[k + 1] != "";
      }
    }
  }

  lemma {:induction false} EmptyLabels(s: string)
    ensures HasEmptyLabel(s) <==> !NoEmptyLabel(Labels(s))
    decreases |s|
  {
    if s != "" {
      hide HasEmptyLabel, NoEmptyLabel, Labels;
      EmptyLabels(AfterLabel(s));
      LabelsStep(s);
      NoEmptyCons(s[..LabelLength(s)], Labels(AfterLabel(s)));
      EmptyLabelStep(s);
    }
  }

  lemma EmptyLabelStep(s: string)
    requires s != ""
    ensures HasEmptyLabel(s) <==> LabelLength(s) == 0 || HasEmptyLabel(AfterLabel(s))
  {
    var k := LabelLength(s);
    var rest := AfterLabel(s);
    if k > 0 {
      if HasEmptyLabel(rest) {
        if rest[0] == '.' {
          assert s[k] == '.' && s[k + 1] == '.';
        } else {
          var i :| 0 < i < |rest| && rest[i - 1] == '.' && rest[i] == '.';
          assert s[k + i] == '.' && s[k + 1 + i] == '.';
        }
      }
      if HasEmptyLabel(s) {
        var i :| 0 < i < |s| && s[i - 1] == '.' && s[i] == '.';
        assert i > k;
        if i == k + 1 {
          assert rest[0] == '.';
        } else {
          assert rest[i - k - 2] == '.' && rest[i - k - 1] == '.';
        }
      }
    }
  }

  // ----- the configured names -----

  /** The labels one argument stands for; "." is the root. None if it is refused. */
  function ArgLabels(arg: string): Option<seq<string>> {
    if arg == "." then Some([])
    else match CheckName(arg)
      case Some(dom) => Some(Labels(dom))
      case None => None
  }

  /** The arguments up to the first empty or refused one. */
  function Accepted(args: seq<string>): (names: seq<seq<string>>)
    ensures AllShort(names) && forall i :: 0 <= i < |names| ==> AllTame(names[i])
  {
    if args == [] || args[0] == "" || ArgLabels(args[0]).None? then [] else
    assert args[0] != "." ==> Acceptable(CheckName(args[0]).value);
    if args[0] != "." then
      LabelsTame(CheckName(args[0]).value);
      [ArgLabels(args[0]).value] + Accepted(args[1..])
    else [[]] + Accepted(args[1..])
  }

  predicate Refused(args: seq<string>) {
    args != [] && args[0] != "" && (ArgLabels(args[0]).None? || Refused(args[1..]))
  }

  /** No accepted argument has an empty label. */
  predicate Plain(args: seq<string>) {
    args == [] || args[0] == "" || ArgLabels(args[0]).None? ||
    ((args[0] != "." ==> !HasEmptyLabel(CheckName(args[0]).value)) && Plain(args[1..]))
  }

  lemma NonEmptyCons(labels: seq<string>, rest: seq<seq<string>>)
    ensures NonEmpty([labels] + rest) <==> NoEmptyLabel(labels) && NonEmpty(rest)
  {
    var names := [labels] + rest;
    assert names[0] == labels;
    assert forall i :: 0 <= i < |rest| ==> names[i + 1] == rest[i];
    if NonEmpty(names) {
      forall i | 0 <= i < |rest| ensures NoEmptyLabel(rest[i]) {
        assert NoEmptyLabel(names[i + 1]);
      }
    }
  }

  lemma {:induction false} PlainNames(args: seq<string>)
    ensures Plain(args) <==> NonEmpty(Accepted(args))
  {
    hide CheckName, HasEmptyLabel, Labels;
    if args != [] && args[0] != "" && ArgLabels(args[0]).Some? {
      PlainNames(args[1..]);
      var labels := ArgLabels(args[0]).value;
      NonEmptyCons(labels, Accepted(args[1..]));
      assert Accepted(args) == [labels] + Accepted(args[1..]);
      if args[0] != "." {
        EmptyLabels(CheckName(args[0]).value);
      }
      hide NoEmptyLabel, NonEmpty;
    }
  }

  /** The option holds the accepted names, in their order, exactly if none of them starts with
      a dot or has two dots in a row. */
  lemma OptionDecodesExactly(args: seq<string>)
    requires |AddNames([], Accepted(args))| <= 0x4000
    ensures DecodeAll(AddNames([], Accepted(args)), 0) == Some(NamesBytes(Accepted(args))) <==> Plain(args)
  {
    DecodesExactly(Accepted(args));
    PlainNames(args);
  }

  /** A name that check_name accepts and that comes back as two: the empty label ends the first. */
  lemma EmptyLabelSplits()
    ensures CheckName("a..b") == Some("a..b") && !Plain(["a..b"])
    ensures Accepted(["a..b"]) == [["a", "", "b"]]
    ensures AddNames([], [["a", "", "b"]]) == [1, 97, 0, 1, 98, 0]
    ensures DecodeAll([1, 97, 0, 1, 98, 0], 0) == Some([[[97]], [[98]]]) != Some(NamesBytes([["a", "", "b"]]))
  {
    hide DecodeAll, AddNames, Labels, CheckName;
    SplitNameAccepted();
    SplitNameBytes();
    SplitNameDecoded();
    assert |NamesBytes([["a", "", "b"]])| == 1;
  }

  lemma SplitNameAccepted()
    ensures CheckName("a..b") == Some("a..b") && !Plain(["a..b"])
    ensures Labels("a..b") == ["a", "", "b"] && Accepted(["a..b"]) == [["a", "", "b"]]
  {
    var s := "a..b";
    assert s[1..] == "..b" && s[2..] == ".b" && s[3..] == "b" && s[4..] == "";
    assert s[0] != '.' && NotBlank(s);
    assert CheckName(s) == Some(s);
    assert LabelLength("b") == 1 && LabelLength(s) == 1;
    assert "b"[..1] == "b" && s[..1] == "a" && ".b"[..0] == "" && ".b"[1..] == "b";
    assert Labels("") == [];
    assert Labels("b") == ["b"] + Labels("");
    assert Labels(".b") == [""] + Labels("b");
    assert Labels(s) == ["a"] + Labels(".b");
  }

  lemma SplitNameBytes()
    ensures AddNames([], [["a", "", "b"]]) == [1, 97, 0, 1, 98, 0]
  {
    assert LabelBytes(["b"]) == [1, 98];
    assert LabelBytes(["", "b"]) == [0, 1, 98];
    assert Wire(["a", "", "b"]) == [1, 97, 0, 1, 98, 0];
    assert [] + Wire(["a", "", "b"]) == Wire(["a", "", "b"]);
    assert AddNames([], []) == [];
  }

  lemma SplitNameDecoded()
    ensures DecodeAll([1, 97, 0, 1, 98, 0], 0) == Some([[[97]], [[98]]])
  {
    hide AddNames, Labels, CheckName;
    var b: seq<byte> := [1, 97, 0, 1, 98, 0];
    var none: seq<seq<byte>>, no: seq<seq<seq<byte>>> := [], [];
    assert b[1..2] == [97] && [b[1..2]] + none == [b[1..2]];
    assert b[4..5] == [98] && [b[4..5]] + none == [b[4..5]];
    assert Decode(b, 2, 0) == Some(Read(none, 3));
    assert Decode(b, 0, 0) == Some(Read([b[1..2]], 3));
    assert Decode(b, 5, 3) == Some(Read(none, 6));
    assert Decode(b, 3, 3) == Some(Read([b[4..5]], 6));
    assert DecodeAll(b, 6) == Some(no);
    assert [[b[4..5]]] + no == [[b[4..5]]];
    assert DecodeAll(b, 3) == Some([[b[4..5]]]);
    assert [[b[1..2]]] + [[b[4..5]]] == [[b[1..2]], [b[4..5]]];
    assert DecodeAll(b, 0) == Some([[b[1..2]], [b[4..5]]]);
  }

  // ----- the loops -----

  /** check_name and canonicalise. */
  method Canonicalise(name: string) returns (r: Option<string>)
    ensures r == CheckName(name)
  {
    if name == "" || |name| > MAXDNAME {
      return None;
    }
    var s := name;
    if s[|s| - 1] == '.' {
      if |s| == 1 {
        assert name == ".";
        return None;
      }
      s := s[..|s| - 1];
    }
    var i, gap, nowhite := 0, 0, false;
    assert s[0..] == s;
    while i < |s|
      invariant i <= |s| && gap <= MAXLABEL
      invariant forall j :: 0 <= j < i ==> Printable(s[j])
      invariant LabelsFit(s[i..], gap) == LabelsFit(s, 0)
      invariant nowhite <==> exists j :: 0 <= j < i && s[j] != '.' && s[j] != ' '
    {
      var c := s[i];
      assert s[i..][1..] == s[i + 1..];
      if c == '.' {
        gap := 0;
      } else {
        gap := gap + 1;
        if gap > MAXLABEL {
          assert !LabelsFit(s, 0);
          assert CheckName(name).None?;
          return None;
        }
        if !Printable(c) {
          assert !Printable(s[i]);
          assert CheckName(name).None?;
          return None;
        }
        if c != ' ' {
          nowhite := true;
          assert s[i] != '.' && s[i] != ' ';
        }
      }
      i := i + 1;
    }
    assert s[i..] == "";
    assert Acceptable(s) && name != ".";
    assert s == if name[|name| - 1] == '.' then name[..|name| - 1] else name;
    assert nowhite <==> NotBlank(s);
    r := if nowhite then Some(s) else None;
  }

  lemma LabelBytesAppend(a: seq<string>, l: string)
    requires Short(a) && |l| <= MAXLABEL
    ensures LabelBytes(a + [l]) == LabelBytes(a) + Label(l)
  {
    if a == [] {
      assert a + [l] == [l];
    } else {
      LabelBytesAppend(a[1..], l);
      assert (a + [l])[1..] == a[1..] + [l];
    }
  }

  lemma ToBytesAppend(s: string, c: char)
    ensures ToBytes(s + [c]) == ToBytes(s) + [c as int % 256]
  {
    assert (s + [c])[..|s|] == s;
  }

  /** One label of dom from offset i, written behind its length byte at q. */
  method WriteLabel(m: array<byte>, dom: string, from: nat, at: nat) returns (i: nat, q: nat)
    requires from < |dom| && Acceptable(dom[from..]) && at + |dom| - from < m.Length
    modifies m
    ensures i == from + LabelLength(dom[from..]) && q == at + 1 + (i - from) <= m.Length
    ensures |dom[from..i]| <= MAXLABEL && m[at..q] == Label(dom[from..i])
    ensures m[..at] == old(m[..at])
  {
    hide LabelsFit, LabelLength, ToBytes;
    FirstLabelFits(dom[from..], 0);
    i, q := WriteChars(m, dom, from, at + 1);
    ghost var text, before := m[at + 1..q], m[..at + 1];
    m[at] := i - from;
    assert m[at + 1..q] == text;
    assert m[at..q] == [m[at]] + m[at + 1..q];
    assert m[..at] == before[..at];
  }

  /** The characters up to the next dot. */
  method WriteChars(m: array<byte>, dom: string, from: nat, at: nat) returns (i: nat, q: nat)
    requires from < |dom| && at + |dom| - from <= m.Length
    modifies m
    ensures i == from + LabelLength(dom[from..]) && q == at + (i - from) <= m.Length
    ensures m[at..q] == ToBytes(dom[from..i]) && m[..at] == old(m[..at])
  {
    hide ToBytes;
    i, q := from, at;
    NoBytes();
    while i < |dom| && dom[i] != '.'
      invariant from <= i <= |dom| && q == at + (i - from)
      invariant LabelLength(dom[from..]) == (i - from) + LabelLength(dom[i..])
      invariant m[at..q] == ToBytes(dom[from..i])
      invariant m[..at] == old(m[..at])
    {
      assert dom[from..i + 1] == dom[from..i] + [dom[i]];
      ToBytesAppend(dom[from..i], dom[i]);
      assert dom[i..][1..] == dom[i + 1..];
      Put(m, at, q, dom[i] as int % 256);
      i, q := i + 1, q + 1;
    }
  }

  lemma NoBytes()
    ensures ToBytes("") == []
  {
  }

  /** One more byte behind those from lo to q. */
  method Put(m: array<byte>, lo: nat, q: nat, c: byte)
    requires lo <= q < m.Length
    modifies m
    ensures m[lo..q + 1] == old(m[lo..q]) + [c] && m[..lo] == old(m[..lo])
  {
    ghost var kept, before := m[lo..q], m[..lo];
    m[q] := c;
    assert m[lo..q] == kept && m[..lo] == before;
  }

  /** What one turn of the loop below does to what is written and what is left. */
  lemma WriteStep(dom: string, done: seq<string>, i: nat, next: nat)
    requires i < |dom| && Acceptable(dom[i..]) && Short(done) && Labels(dom) == done + Labels(dom[i..])
    requires next == i + LabelLength(dom[i..])
    ensures Short(done + [dom[i..next]]) && |dom[i..next]| <= MAXLABEL
    ensures LabelBytes(done + [dom[i..next]]) == LabelBytes(done) + Label(dom[i..next])
    ensures var i' := if next < |dom| then next + 1 else next;
      Acceptable(dom[i'..]) && Labels(dom) == done + [dom[i..next]] + Labels(dom[i'..])
  {
    hide Acceptable, Labels, LabelLength, LabelBytes, Label;
    var rest := dom[i..];
    AcceptableStep(rest);
    LabelsStep(rest);
    assert dom[i..next] == rest[..LabelLength(rest)];
    LabelBytesAppend(done, dom[i..next]);
    assert dom[if next < |dom| then next + 1 else next..] == AfterLabel(rest);
  }

  /** The name in DNS form, behind the bytes in use. */
  method WriteName(m: array<byte>, dom: string, at: nat) returns (q: nat)
    requires Acceptable(dom) && at + |dom| + 1 < m.Length
    modifies m
    ensures Short(Labels(dom)) && at < q <= m.Length && q <= at + |dom| + 2 && m[at..q] == Wire(Labels(dom))
    ensures m[..at] == old(m[..at])
  {
    hide LabelLength, Labels, LabelBytes, Label, Acceptable;
    LabelsTame(dom);
    var i := 0;
    q := at;
    ghost var done: seq<string> := [];
    assert dom[0..] == dom;
    EmptyLabelBytes();
    while i < |dom|
      invariant i <= |dom| && at <= q && q - at <= i + (if i == |dom| then 1 else 0)
      invariant Acceptable(dom[i..])
      invariant Short(done) && Labels(dom) == done + Labels(dom[i..])
      invariant m[at..q] == LabelBytes(done)
      invariant m[..at] == old(m[..at])
    {
      ghost var before := m[..q];
      var from, start := i, q;
      i, q := WriteLabel(m, dom, i, q);
      assert m[at..start] == m[..start][at..] == before[at..];
      assert m[at..q] == m[at..start] + m[start..q];
      assert m[..at] == m[..start][..at] == before[..at];
      WriteStep(dom, done, from, i);
      done := done + [dom[from..i]];
      if i < |dom| {
        i := i + 1;
      }
    }
    assert dom[i..] == "";
    ghost var labels := m[at..q];
    m[q] := 0;
    q := q + 1;
    assert m[at..q] == labels + [0];
    NoLabels();
    assert done + [] == done;
  }

  lemma EmptyLabelBytes()
    ensures LabelBytes([]) == []
  {
  }

  lemma NoLabels()
    ensures Labels("") == []
  {
  }

  /** strcmp of the texts at r and t, for a buffer from offset base on. */
  method CompareText(m: array<byte>, base: nat, r: nat, t: nat, end: nat) returns (same: bool)
    requires r < t && base + t < end <= m.Length && m[end - 1] == 0
    ensures same == SameText(m[base..end], r, t)
  {
    var i := 0;
    ghost var b := m[base..end];
    while m[base + r + i] == m[base + t + i] && m[base + t + i] != 0
      invariant base + t + i < end
      invariant SameText(b, r, t) == SameText(b, r + i, t + i)
      decreases end - i
    {
      assert b[r + i] == m[base + r + i] && b[t + i] == m[base + t + i];
      i := i + 1;
    }
    assert b[r + i] == m[base + r + i] && b[t + i] == m[base + t + i];
    same := m[base + r + i] == m[base + t + i];
  }

  /** The walk over the names before offset len. */
  method FindText(m: array<byte>, base: nat, len: nat, t: nat, end: nat) returns (found: Option<nat>)
    requires len <= t && base + t < end <= m.Length && m[end - 1] == 0
    ensures found == Walk(m[base..end], 0, len, t)
  {
    hide SameText;
    var r: nat := 0;
    ghost var b := m[base..end];
    while r < len
      invariant Walk(b, r, len, t) == Walk(b, 0, len, t)
      decreases len - r
    {
      var same := CompareText(m, base, r, t, end);
      if same {
        return Some(r);
      }
      assert b[r] == m[base + r];
      r := r + m[base + r] + 1;
    }
    found := None;
  }

  /** The search for the first tail that the walk finds. */
  method FindTail(m: array<byte>, base: nat, len: nat, end: nat, ghost labels: seq<string>)
    returns (found: Option<Match>)
    requires Short(labels) && base + len < end <= m.Length && m[base + len..end] == Wire(labels)
    ensures found == FirstTail(m[base..end], len, len)
  {
    hide Walk, SameText, Wire;
    var t: nat := len;
    ghost var b, ls := m[base..end], labels;
    assert b[len..] == Wire(labels);
    WireEnd(b, labels);
    assert m[end - 1] == b[|b| - 1];
    while m[base + t] != 0
      invariant len <= t && base + t < end
      invariant Short(ls) && b[t..] == Wire(ls)
      invariant FirstTail(b, t, len) == FirstTail(b, len, len)
      decreases end - t
    {
      assert b[t] == m[base + t];
      var target := FindText(m, base, len, t, end);
      if target.Some? {
        return Some(Match(t, target.value));
      }
      TailBehind(b, t, ls);
      t := t + m[base + t] + 1;
      ls := ls[1..];
    }
    assert b[t] == m[base + t];
    found := None;
  }

  /** The compressor: the first tail found before is replaced by a pointer, in place. */
  method CompressTail(m: array<byte>, base: nat, len: nat, end: nat, ghost labels: seq<string>)
    returns (newEnd: nat)
    requires Short(labels) && base + len < end <= m.Length && m[base + len..end] == Wire(labels)
    modifies m
    ensures base + len < newEnd <= end
    ensures m[base..newEnd] == AddName(old(m[base..base + len]), labels)
    ensures m[..base] == old(m[..base])
  {
    hide FirstTail, Wire, AddName, SameText, Cut;
    ghost var b := m[base..end];
    assert b == m[base..base + len] + Wire(labels);
    AddNameIsCut(m[base..base + len], labels);
    var found := FindTail(m, base, len, end, labels);
    newEnd := ReplaceTail(m, base, end, found);
  }

  method ReplaceTail(m: array<byte>, base: nat, end: nat, found: Option<Match>) returns (newEnd: nat)
    requires base <= end <= m.Length && (found.Some? ==> base + found.value.tail + 2 <= end)
    modifies m
    ensures base <= newEnd <= end && m[base..newEnd] == Cut(old(m[base..end]), found)
    ensures m[..base] == old(m[..base])
  {
    newEnd := end;
    if found.Some? {
      var at := base + found.value.tail;
      newEnd := at + 2;
      assert m[base..at] == m[base..end][..found.value.tail];
      PutPointer(m, base, at, found.value.target);
    }
  }

  lemma AddNameIsCut(b: seq<byte>, labels: seq<string>)
    requires Short(labels)
    ensures var full := b + Wire(labels);
      var found := FirstTail(full, |b|, |b|);
      && |full| > 0 && full[|full| - 1] == 0 && AddName(b, labels) == Cut(full, found)
      && (found.Some? ==> found.value.tail + 2 <= |full|) && |b| < |AddName(b, labels)|
  {
  }

  /** PUTSHORT of a pointer. */
  method PutPointer(m: array<byte>, base: nat, at: nat, target: nat)
    requires base <= at && at + 2 <= m.Length
    modifies m
    ensures m[base..at + 2] == old(m[base..at]) + [PointerHigh(target), PointerLow(target)]
    ensures m[..base] == old(m[..base])
  {
    hide PointerHigh, PointerLow;
    Put(m, base, at, PointerHigh(target));
    Put(m, base, at + 1, PointerLow(target));
  }

  lemma WireEnd(b: seq<byte>, ls: seq<string>)
    requires Short(ls) && |Wire(ls)| <= |b| && b[|b| - |Wire(ls)|..] == Wire(ls)
    ensures b != [] && b[|b| - 1] == 0
  {
    assert b[|b| - 1] == b[|b| - |Wire(ls)|..][|Wire(ls)| - 1];
  }

  lemma TailBehind(b: seq<byte>, t: nat, ls: seq<string>)
    requires Short(ls) && t < |b| && b[t..] == Wire(ls) && b[t] != 0
    ensures ls != [] && t + b[t] + 1 < |b| && b[t + b[t] + 1..] == Wire(ls[1..])
  {
    assert b[t] == b[t..][0];
    if ls != [] {
      WireStep(ls);
      assert b[t + b[t] + 1..] == b[t..][|Label(ls[0])|..];
    }
  }

  /** One more name: a larger buffer with the bytes so far, the name, and the compressor. */
  method AppendName(previous: array<byte>, base: nat, len: nat, dom: string) returns (m: array<byte>, newLen: nat)
    requires base + len <= previous.Length && Acceptable(dom)
    ensures Short(Labels(dom)) && fresh(m) && base + newLen <= m.Length && len < newLen
    ensures m[base..base + newLen] == AddName(previous[base..base + len], Labels(dom))
  {
    hide AddName, Acceptable, Labels, Wire;
    m := new byte[base + len + |dom| + 2](_ => 0);
    CopyBytes(m, previous, base + len);
    assert m[base..base + len] == m[..base + len][base..] == previous[base..base + len];
    var end := WriteName(m, dom, base + len);
    assert m[base..base + len] == m[..base + len][base..] == previous[base..base + len];
    end := CompressTail(m, base, len, end, Labels(dom));
    newLen := end - base;
  }

  method CopyBytes(m: array<byte>, from: array<byte>, k: nat)
    requires k <= m.Length && k <= from.Length && m != from
    modifies m
    ensures m[..k] == from[..k]
  {
    for i := 0 to k
      invariant m[..i] == from[..i]
    {
      m[i] := from[i];
    }
  }

  /** The option for a list of arguments; base is 1 for the encoding byte of option 120, which
      is set last, and 0 otherwise. */
  method BuildOption(args: seq<string>, base: nat) returns (m: array<byte>, len: nat, problem: bool)
    requires base <= 1
    ensures base + len <= m.Length && (base == 1 ==> m[0] == 0)
    ensures m[base..base + len] == AddNames([], Accepted(args))
    ensures problem == Refused(args)
  {
    hide AddName, Labels, Acceptable, CheckName, Accepted, Refused;
    m := new byte[base](_ => 0);
    len, problem := 0, false;
    var i := 0;
    ghost var done: seq<seq<string>> := [];
    assert args[0..] == args && done + Accepted(args) == Accepted(args);
    while i < |args| && args[i] != ""
      invariant i <= |args| && base + len <= m.Length && fresh(m)
      invariant AllShort(done) && Accepted(args) == done + Accepted(args[i..])
      invariant m[base..base + len] == AddNames([], done)
      invariant !problem && Refused(args) == Refused(args[i..])
    {
      var dom := "";
      if args[i] != "." {
        var r := Canonicalise(args[i]);
        if r.None? {
          problem := true;
          break;
        }
        dom := r.value;
      }
      ghost var labels := ArgLabels(args[i]).value;
      RootLabels();
      AcceptStep(args, i, done);
      m, len := AppendName(m, base, len, dom);
      AddNamesAppend(done, labels);
      done := done + [labels];
      i := i + 1;
    }
    AcceptEnd(args, i);
    assert done + [] == done;
    if base == 1 {
      SetEncoding(m, len);
    }
  }

  /** Names follow in DNS form. */
  method SetEncoding(m: array<byte>, len: nat)
    requires 1 + len <= m.Length
    modifies m
    ensures m[0] == 0 && m[1..1 + len] == old(m[1..1 + len])
  {
    ghost var names := m[1..1 + len];
    m[0] := 0;
    assert m[1..1 + len] == names;
  }

  lemma AcceptStep(args: seq<string>, i: nat, done: seq<seq<string>>)
    requires i < |args| && args[i] != "" && ArgLabels(args[i]).Some?
    ensures done + Accepted(args[i..]) == done + [ArgLabels(args[i]).value] + Accepted(args[i + 1..])
    ensures Refused(args[i..]) == Refused(args[i + 1..])
  {
    hide CheckName, Labels;
    assert args[i..][1..] == args[i + 1..] && args[i..][0] == args[i];
    assert Accepted(args[i..]) == [ArgLabels(args[i]).value] + Accepted(args[i + 1..]);
  }

  /** Where the arguments that count end. */
  lemma AcceptEnd(args: seq<string>, i: nat)
    requires i <= |args| && (i < |args| && args[i] != "" ==> ArgLabels(args[i]).None?)
    ensures Accepted(args[i..]) == [] && (Refused(args[i..]) <==> i < |args| && args[i] != "")
  {
    hide ArgLabels;
    assert i < |args| ==> args[i..][0] == args[i];
  }

  lemma RootLabels()
    ensures Labels("") == [] && Acceptable("")
  {
  }

  lemma AddNamesAppend(names: seq<seq<string>>, labels: seq<string>)
    requires AllShort(names) && Short(labels)
    ensures AllShort(names + [labels])
    ensures AddNames([], names + [labels]) == AddName(AddNames([], names), labels)
  {
    assert (names + [labels])[..|names|] == names;
  }
}
