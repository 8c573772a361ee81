/** Names in DNS packets (RFC 1035, section 4.1.4): what a compressed name stands for, as text,
    in a comparison, and when it is skipped. */
module Packets {
  import opened BigEndian
  import opened Wrappers
  import opened Bytes

  /** Most pointers followed for one name. */
  const MAXHOPS: nat := 255

  /** Where following a name leads: its labels, the end of its last part, and where the
      reader of the packet goes on. */
  datatype Path = Path(labels: seq<seq<byte>>, last: nat, resume: nat)

  predicate IsPointer(b: byte) { b >= 0xC0 }
  predicate IsLabel(b: byte) { b < 0x40 }

  /** The name at offset p of packet b after some hops. Label types other than plain labels
      and pointers are refused. */
  function Follow(b: seq<byte>, p: nat, hops: nat): (r: Option<Path>)
    requires hops <= MAXHOPS
    ensures r.Some? ==> r.value.last <= |b| && p < r.value.resume <= |b|
    decreases MAXHOPS - hops, |b| - p
  {
    if p >= |b| then None
    else if b[p] == 0 then Some(Path([], p + 1, p + 1))
    else if IsPointer(b[p]) then
      if p + 1 >= |b| || hops == MAXHOPS then None else
      match Follow(b, Target(b[p], b[p + 1]), hops + 1)
      case Some(w) => Some(Path(w.labels, w.last, p + 2))
      case None => None
    else if !IsLabel(b[p]) || p + 1 + b[p] > |b| then None
    else
      match Follow(b, p + 1 + b[p], hops)
      case Some(w) => Some(Path([b[p + 1..p + 1 + b[p]]] + w.labels, w.last, w.resume))
      case None => None
  }

  // ----- as text -----

  /** Characters that may occur in a name given as text. */
  predicate Clean(c: byte) {
    ' ' as int <= c < 127 && c != '.' as int
  }

  predicate CleanLabel(l: seq<byte>) {
    forall i :: 0 <= i < |l| ==> Clean(l[i])
  }

  predicate AllClean(labels: seq<seq<byte>>) {
    forall i :: 0 <= i < |labels| ==> CleanLabel(labels[i])
  }

  /** The labels, each with a dot behind it. */
  function Dotted(labels: seq<seq<byte>>): seq<byte> {
    if labels == [] then [] else Dotted(labels[..|labels| - 1]) + labels[|labels| - 1] + ['.' as int]
  }

  /** The name as text: without the last dot, empty for the root. */
  function Text(labels: seq<seq<byte>>): (t: seq<byte>) {
    if labels == [] then [] else Dotted(labels)[..|Dotted(labels)| - 1]
  }

  datatype Decoded = Decoded(text: seq<byte>, resume: nat)

  /** extract_name in its decoding mode. The trailing bytes have to follow the last part of
      the name, which need not be where the reader goes on. */
  function DecodeName(b: seq<byte>, p: nat, extra: nat): Option<Decoded> {
    match Follow(b, p, 0)
    case None => None
    case Some(w) =>
      if AllClean(w.labels) && |Dotted(w.labels)| < MAXDNAME && w.last + extra <= |b|
      then Some(Decoded(Text(w.labels), w.resume)) else None
  }

  // ----- in a comparison -----

  function Lower(c: byte): byte {
    if 'A' as int <= c <= 'Z' as int then c + 32 else c
  }

  function LowerAll(s: seq<byte>): (r: seq<byte>)
    ensures |r| == |s| && forall i :: 0 <= i < |s| ==> r[i] == Lower(s[i])
  {
    if s == [] then [] else LowerAll(s[..|s| - 1]) + [Lower(s[|s| - 1])]
  }

  predicate SameName(a: seq<byte>, b: seq<byte>) {
    LowerAll(a) == LowerAll(b)
  }

  /** A comparison in progress: position in the name compared with, and whether it has been
      equal so far. None is the answer for a name that is too long. */
  datatype Progress = Progress(cp: nat, same: bool)

  /** The characters of one label against the name from cp on. */
  function CompareChars(name: seq<byte>, at: Progress, l: seq<byte>): (r: Progress)
    requires at.cp <= |name|
    ensures at.cp <= r.cp <= |name| && r.cp <= at.cp + |l|
    decreases |l|
  {
    if l == [] then at
    else if at.cp == |name| then CompareChars(name, Progress(at.cp, false), l[1..])
    else CompareChars(name, Progress(at.cp + 1, at.same && Lower(name[at.cp]) == Lower(l[0])), l[1..])
  }

  /** One label and the dot behind it, which may be missing at the end of the name. */
  function CompareLabel(name: seq<byte>, at: Progress, l: seq<byte>): (r: Progress)
    requires at.cp <= |name|
    ensures r.cp <= |name| && r.cp <= at.cp + |l| + 1
  {
    var next := CompareChars(name, at, l);
    if next.cp == |name| then next
    else Progress(next.cp + 1, next.same && name[next.cp] == '.' as int)
  }

  function CompareLabels(name: seq<byte>, at: Progress, labels: seq<seq<byte>>): (r: Option<Progress>)
    requires at.cp <= |name|
    ensures r.Some? ==> r.value.cp <= |name|
    decreases |labels|
  {
    if labels == [] then Some(at)
    else if at.cp + |labels[0]| + 1 >= MAXDNAME then None
    else CompareLabels(name, CompareLabel(name, at, labels[0]), labels[1..])
  }

  datatype Verdict = Malformed | Equal(resume: nat) | Different(resume: nat)

  /** extract_name in its comparing mode. */
  function CompareName(b: seq<byte>, p: nat, name: seq<byte>, extra: nat): Verdict {
    match Follow(b, p, 0)
    case None => Malformed
    case Some(w) =>
      match CompareLabels(name, Progress(0, true), w.labels)
      case None => Malformed
      case Some(at) =>
        if w.last + extra > |b| then Malformed
        else if at.same && at.cp == |name| then Equal(w.resume)
        else Different(w.resume)
  }

  // ----- skipping -----

  /** skip_name: pointers end a name, and the trailing bytes follow where the reader goes on. */
  function SkipName(b: seq<byte>, p: nat, extra: nat): (r: Option<nat>)
    ensures r.Some? ==> p < r.value && r.value + extra <= |b|
    decreases |b| - p
  {
    if p >= |b| then None
    else if IsPointer(b[p]) then (if p + 2 + extra <= |b| then Some(p + 2) else None)
    else if !IsLabel(b[p]) || p + 1 + b[p] > |b| then None
    else if b[p] == 0 then (if p + 1 + extra <= |b| then Some(p + 1) else None)
    else SkipName(b, p + 1 + b[p], extra)
  }

  /** A name that can be followed is skipped to where its reader goes on, if the trailing
      bytes are there. */
  lemma {:induction false} SkipFollows(b: seq<byte>, p: nat, hops: nat, extra: nat)
    requires hops <= MAXHOPS && Follow(b, p, hops).Some?
    ensures var r := Follow(b, p, hops).value.resume;
      SkipName(b, p, extra) == if r + extra <= |b| then Some(r) else None
    decreases |b| - p
  {
    if IsLabel(b[p]) && b[p] != 0 {
      SkipFollows(b, p + 1 + b[p], hops, extra);
    }
  }

  /** Whether it decodes a name or compares with one, the reader goes on where skip_name does. */
  lemma ReadersAgree(b: seq<byte>, p: nat, name: seq<byte>, extra: nat, more: nat)
    ensures DecodeName(b, p, extra).Some? ==>
      SkipName(b, p, more) ==
        if DecodeName(b, p, extra).value.resume + more <= |b| then Some(DecodeName(b, p, extra).value.resume) else None
    ensures !CompareName(b, p, name, extra).Malformed? ==>
      SkipName(b, p, more) ==
        if CompareName(b, p, name, extra).resume + more <= |b|
        then Some(CompareName(b, p, name, extra).resume) else None
  {
    if Follow(b, p, 0).Some? {
      SkipFollows(b, p, 0, more);
    }
  }

  // ----- comparing is decoding and comparing the texts -----

  lemma LowerAppend(a: seq<byte>, b: seq<byte>)
    ensures LowerAll(a + b) == LowerAll(a) + LowerAll(b)
  {
  }

  lemma SameNameSplit(t: seq<byte>, a: seq<byte>, b: seq<byte>)
    ensures SameName(t, a + b) <==>
      |a| <= |t| && SameName(t[..|a|], a) && SameName(t[|a|..], b)
  {
    hide LowerAll;
    LowerAppend(a, b);
    if |a| <= |t| {
      var c, d := LowerAll(t[..|a|]), LowerAll(t[|a|..]);
      LowerAppend(t[..|a|], t[|a|..]);
      assert t == t[..|a|] + t[|a|..];
      assert (c + d)[..|a|] == c && (c + d)[|a|..] == d;
      assert (LowerAll(a) + LowerAll(b))[..|a|] == LowerAll(a) && (LowerAll(a) + LowerAll(b))[|a|..] == LowerAll(b);
    }
  }

  /** The characters of a label: equal so far exactly if the label is what comes next. */
  lemma {:induction false} CharsMatch(name: seq<byte>, at: Progress, l: seq<byte>)
    requires at.cp <= |name|
    ensures var r := CompareChars(name, at, l);
      && (r.same <==> at.same && at.cp + |l| <= |name| && SameName(name[at.cp..at.cp + |l|], l))
      && (r.same ==> r.cp == at.cp + |l|)
    decreases |l|
  {
    if l != [] {
      hide LowerAll, Lower, SameName;
      if at.cp == |name| {
        CharsMatch(name, Progress(at.cp, false), l[1..]);
      } else {
        CharsMatch(name, Progress(at.cp + 1, at.same && Lower(name[at.cp]) == Lower(l[0])), l[1..]);
        if at.cp + |l| <= |name| {
          FirstChar(name[at.cp..at.cp + |l|], l);
          assert name[at.cp..at.cp + |l|][1..] == name[at.cp + 1..at.cp + 1 + |l[1..]|];
        }
      }
    }
  }

  lemma FirstChar(t: seq<byte>, l: seq<byte>)
    requires |t| == |l| > 0
    ensures SameName(t, l) <==> Lower(t[0]) == Lower(l[0]) && SameName(t[1..], l[1..])
  {
    assert l == [l[0]] + l[1..];
    SameNameSplit(t, [l[0]], l[1..]);
    assert t[..1] == [t[0]];
    assert LowerAll([t[0]]) == [Lower(t[0])] && LowerAll([l[0]]) == [Lower(l[0])];
  }

  predicate NoEmpty(labels: seq<seq<byte>>) {
    forall i :: 0 <= i < |labels| ==> labels[i] != []
  }

  const DOT: seq<byte> := ['.' as int]

  lemma {:induction false} DottedFront(labels: seq<seq<byte>>)
    requires labels != []
    ensures Dotted(labels) == labels[0] + DOT + Dotted(labels[1..])
    ensures |Dotted(labels)| > 0
    decreases |labels|
  {
    var k := |labels| - 1;
    if k == 0 {
      assert labels[..0] == [] && labels[1..] == [];
    } else {
      hide Dotted;
      var front, back, last := labels[..k], labels[1..], labels[k];
      DottedFront(front);
      DottedBack(labels);
      DottedBack(back);
      assert front[1..] == back[..k - 1] && back[k - 1] == last;
      var d := Dotted(front[1..]);
      assert labels[0] + DOT + d + last + DOT == labels[0] + DOT + (d + last + DOT);
    }
  }

  lemma DottedBack(labels: seq<seq<byte>>)
    requires labels != []
    ensures Dotted(labels) == Dotted(labels[..|labels| - 1]) + labels[|labels| - 1] + DOT
  {
  }

  /** What is left of a name is the labels, with or without the last dot. */
  predicate IsRest(t: seq<byte>, labels: seq<seq<byte>>) {
    SameName(t, Dotted(labels)) || (labels != [] && SameName(t, Text(labels)))
  }

  lemma RestOfNothing(labels: seq<seq<byte>>)
    requires NoEmpty(labels)
    ensures IsRest([], labels) <==> labels == []
  {
    if labels != [] {
      DottedFront(labels);
    }
  }

  /** A label and its dot in front of the rest. */
  lemma RestStep(t: seq<byte>, labels: seq<seq<byte>>)
    requires labels != [] && NoEmpty(labels)
    ensures var l := labels[0];
      IsRest(t, labels) <==>
        && |l| <= |t| && SameName(t[..|l|], l)
        && (if |t| == |l| then labels[1..] == [] else t[|l|] == '.' as int && IsRest(t[|l| + 1..], labels[1..]))
  {
    hide LowerAll, Dotted;
    var l, rest := labels[0], labels[1..];
    DottedFront(labels);
    assert Dotted(labels) == l + (DOT + Dotted(rest));
    SameNameSplit(t, l, DOT + Dotted(rest));
    if rest == [] {
      assert Dotted([]) == [] by { NothingDotted(); }
      assert Text(labels) == l;
      assert t[..|t|] == t;
      if |l| <= |t| {
        SameNameSplit(t, l, []);
        assert l + [] == l;
        DotStep(t[|l|..], []);
      }
    } else {
      DottedFront(rest);
      assert Text(labels) == l + (DOT + Text(rest));
      SameNameSplit(t, l, DOT + Text(rest));
      if |l| <= |t| {
        DotStep(t[|l|..], Dotted(rest));
        DotStep(t[|l|..], Text(rest));
      }
    }
    if |l| < |t| {
      assert t[|l|..][1..] == t[|l| + 1..];
    }
  }

  lemma NothingDotted()
    ensures Dotted([]) == []
  {
  }

  lemma DotStep(t: seq<byte>, d: seq<byte>)
    ensures SameName(t, DOT + d) <==> t != [] && t[0] == '.' as int && SameName(t[1..], d)
    ensures SameName(t, []) <==> t == []
  {
    SameNameSplit(t, DOT, d);
    if t != [] {
      assert t[..1] == [t[0]];
      assert LowerAll([t[0]]) == [Lower(t[0])] && LowerAll(DOT) == DOT;
    }
  }

  lemma {:induction false} LabelsMatch(name: seq<byte>, at: Progress, labels: seq<seq<byte>>)
    requires at.cp <= |name| && NoEmpty(labels) && CompareLabels(name, at, labels).Some?
    ensures var r := CompareLabels(name, at, labels).value;
      r.same && r.cp == |name| <==> at.same && IsRest(name[at.cp..], labels)
    decreases |labels|
  {
    hide CompareChars, IsRest, SameName;
    if labels == [] {
      EmptyRest(name[at.cp..]);
    } else {
      var l, t := labels[0], name[at.cp..];
      var next := CompareLabel(name, at, l);
      LabelsMatch(name, next, labels[1..]);
      CharsMatch(name, at, l);
      RestStep(t, labels);
      RestOfNothing(labels[1..]);
      assert |l| <= |t| ==> t[..|l|] == name[at.cp..at.cp + |l|];
      assert |l| < |t| ==> t[|l| + 1..] == name[at.cp + |l| + 1..];
      assert name[|name|..] == [];
    }
  }

  lemma EmptyRest(t: seq<byte>)
    ensures IsRest(t, []) <==> t == []
  {
  }

  lemma {:induction false} FollowNoEmpty(b: seq<byte>, p: nat, hops: nat)
    requires hops <= MAXHOPS && Follow(b, p, hops).Some?
    ensures NoEmpty(Follow(b, p, hops).value.labels)
    decreases MAXHOPS - hops, |b| - p
  {
    if IsPointer(b[p]) {
      FollowNoEmpty(b, Target(b[p], b[p + 1]), hops + 1);
    } else if b[p] != 0 {
      FollowNoEmpty(b, p + 1 + b[p], hops);
    }
  }

  /** A name that decodes is never too long to compare with. */
  lemma {:induction false} ComparesInBounds(name: seq<byte>, at: Progress, labels: seq<seq<byte>>)
    requires at.cp <= |name| && at.cp + |Dotted(labels)| < MAXDNAME
    ensures CompareLabels(name, at, labels).Some?
    decreases |labels|
  {
    if labels != [] {
      DottedFront(labels);
      ComparesInBounds(name, CompareLabel(name, at, labels[0]), labels[1..]);
    }
  }

  /** Whenever a name decodes to a text, comparing it with another name says equal exactly if
      that name is the text up to letter case, or the text of a name that is not the root with
      a dot behind it; and both readers go on at the same place. */
  lemma CompareIsDecode(b: seq<byte>, p: nat, name: seq<byte>, extra: nat)
    requires DecodeName(b, p, extra).Some?
    ensures var d := DecodeName(b, p, extra).value;
      CompareName(b, p, name, extra) ==
        if SameName(name, d.text) || (d.text != [] && SameName(name, d.text + DOT))
        then Equal(d.resume) else Different(d.resume)
  {
    hide SameName, CompareLabels, Follow;
    var w := Follow(b, p, 0).value;
    FollowNoEmpty(b, p, 0);
    ComparesInBounds(name, Progress(0, true), w.labels);
    LabelsMatch(name, Progress(0, true), w.labels);
    assert name[0..] == name;
    if w.labels != [] {
      DottedFront(w.labels);
      LastDot(w.labels);
    }
  }

  lemma LastDot(labels: seq<seq<byte>>)
    requires labels != [] && NoEmpty(labels)
    ensures Dotted(labels) == Text(labels) + DOT && Text(labels) != []
  {
    DottedFront(labels);
    var d := Dotted(labels);
    assert d[|d| - 1..] == DOT;
    assert d == d[..|d| - 1] + d[|d| - 1..];
  }
}
