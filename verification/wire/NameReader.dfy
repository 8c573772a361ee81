/** The loops that read names from packets: extract_name, in its two modes, and skip_name. */
module NameReader {
  import opened BigEndian
  import opened Wrappers
  import opened Bytes
  import opened Packets

  /** The labels read so far in front of those still to come. */
  function Joined(done: seq<seq<byte>>, back: Option<nat>, rest: Option<Path>): Option<Path> {
    match rest
    case None => None
    case Some(w) => Some(Path(done + w.labels, w.last, if back.Some? then back.value else w.resume))
  }

  lemma {:induction false} DottedGrows(a: seq<seq<byte>>, b: seq<seq<byte>>)
    ensures |Dotted(a + b)| >= |Dotted(a)|
    decreases |b|
  {
    if b == [] {
      assert a + b == a;
    } else {
      assert (a + b)[..|a + b| - 1] == a + b[..|b| - 1];
      DottedGrows(a, b[..|b| - 1]);
    }
  }

  lemma DottedAppend(a: seq<seq<byte>>, l: seq<byte>)
    ensures Dotted(a + [l]) == Dotted(a) + l + DOT
  {
    assert (a + [l])[..|a|] == a;
  }

  /** A label that is unclean or makes the text too long spoils the name. */
  lemma Spoiled(b: seq<byte>, p: nat, extra: nat, done: seq<seq<byte>>, back: Option<nat>, l: seq<byte>,
      rest: Option<Path>)
    requires Follow(b, p, 0) == Joined(done + [l], back, rest)
    requires !CleanLabel(l) || |Dotted(done)| + |l| + 1 >= MAXDNAME
    ensures DecodeName(b, p, extra).None?
  {
    if rest.Some? {
      var all := done + [l] + rest.value.labels;
      assert all[|done|] == l;
      DottedAppend(done, l);
      DottedGrows(done + [l], rest.value.labels);
    }
  }

  /** One more text, or one more pointer, in the reader's loop. */
  lemma FollowLabel(b: seq<byte>, p: nat, hops: nat, done: seq<seq<byte>>, back: Option<nat>)
    requires hops <= MAXHOPS && p < |b| && b[p] != 0 && IsLabel(b[p]) && p + 1 + b[p] <= |b|
    ensures Joined(done, back, Follow(b, p, hops))
         == Joined(done + [b[p + 1..p + 1 + b[p]]], back, Follow(b, p + 1 + b[p], hops))
  {
    var l, rest := b[p + 1..p + 1 + b[p]], Follow(b, p + 1 + b[p], hops);
    if rest.Some? {
      assert done + ([l] + rest.value.labels) == done + [l] + rest.value.labels;
    }
  }

  lemma FollowPointer(b: seq<byte>, p: nat, hops: nat, done: seq<seq<byte>>, back: Option<nat>)
    requires hops < MAXHOPS && p + 1 < |b| && IsPointer(b[p])
    ensures Joined(done, back, Follow(b, p, hops))
         == Joined(done, if back.Some? then back else Some(p + 2), Follow(b, Target(b[p], b[p + 1]), hops + 1))
  {
  }

  /** extract_name when it decodes. The text goes to name, closed by a zero. */
  method ExtractName(b: seq<byte>, start: nat, name: array<byte>, extra: nat) returns (ok: bool, resume: nat)
    requires name.Length >= MAXDNAME
    modifies name
    ensures ok <==> DecodeName(b, start, extra).Some?
    ensures ok ==> resume == DecodeName(b, start, extra).value.resume
    ensures ok ==> var t := DecodeName(b, start, extra).value.text;
                   |t| < name.Length && name[..|t|] == t && name[|t|] == 0
    ensures !ok ==> resume == start
  {
    hide Follow, Text;
    var p: nat, cp: nat, hops: nat, back: Option<nat> := start, 0, 0, None;
    ghost var done: seq<seq<byte>> := [];
    resume := start;
    name[0] := 0;
    JoinedNothing(Follow(b, start, 0));
    while true
      invariant hops <= MAXHOPS && cp < MAXDNAME
      invariant name[..cp] == Dotted(done) && AllClean(done)
      invariant Follow(b, start, 0) == Joined(done, back, Follow(b, p, hops))
      decreases MAXHOPS - hops, |b| - p
    {
      FollowStart(b, p, hops);
      if p >= |b| {
        return false, start;
      }
      var l := b[p];
      if l == 0 {
        if p + 1 + extra > |b| {
          return false, start;
        }
        assert done + [] == done;
        TextOf(done);
        if cp != 0 {
          cp := cp - 1;
        }
        assert Text(done) == name[..cp];
        name[cp] := 0;
        return true, if back.Some? then back.value else p + 1;
      } else if IsPointer(l) {
        if p + 1 >= |b| || hops == MAXHOPS {
          return false, start;
        }
        FollowPointer(b, p, hops, done, back);
        back := if back.Some? then back else Some(p + 2);
        hops := hops + 1;
        p := Target(l, b[p + 1]);
      } else if !IsLabel(l) || p + 1 + l > |b| {
        return false, start;
      } else {
        FollowLabel(b, p, hops, done, back);
        ghost var text := b[p + 1..p + 1 + l];
        if cp + l + 1 >= MAXDNAME {
          Spoiled(b, start, extra, done, back, text, Follow(b, p + 1 + l, hops));
          return false, start;
        }
        var clean := CopyLabel(b, p + 1, l, name, cp);
        if !clean {
          Spoiled(b, start, extra, done, back, text, Follow(b, p + 1 + l, hops));
          return false, start;
        }
        DottedAppend(done, text);
        done := done + [text];
        cp := cp + l + 1;
        p := p + 1 + l;
      }
    }
  }

  lemma JoinedNothing(rest: Option<Path>)
    ensures rest == Joined([], None, rest)
  {
    assert rest.Some? ==> [] + rest.value.labels == rest.value.labels;
  }

  /** The ways a name starts that need no further reading. */
  lemma FollowStart(b: seq<byte>, p: nat, hops: nat)
    requires hops <= MAXHOPS
    ensures p >= |b| ==> Follow(b, p, hops).None?
    ensures p < |b| && b[p] == 0 ==> Follow(b, p, hops) == Some(Path([], p + 1, p + 1))
    ensures p < |b| && IsPointer(b[p]) && (p + 1 >= |b| || hops == MAXHOPS) ==> Follow(b, p, hops).None?
    ensures p < |b| && b[p] != 0 && !IsPointer(b[p]) && (!IsLabel(b[p]) || p + 1 + b[p] > |b|) ==>
      Follow(b, p, hops).None?
  {
  }

  lemma TextOf(done: seq<seq<byte>>)
    ensures Text(done) == if |Dotted(done)| == 0 then [] else Dotted(done)[..|Dotted(done)| - 1]
  {
    if done != [] {
      DottedFront(done);
    }
  }

  /** The characters of a label and a dot. */
  method CopyLabel(b: seq<byte>, p: nat, l: nat, name: array<byte>, cp: nat) returns (clean: bool)
    requires p + l <= |b| && cp + l < name.Length
    modifies name
    ensures clean == CleanLabel(b[p..p + l])
    ensures clean ==> name[..cp + l + 1] == old(name[..cp]) + b[p..p + l] + DOT
  {
    for j := 0 to l
      invariant CleanLabel(b[p..p + j])
      invariant name[..cp + j] == old(name[..cp]) + b[p..p + j]
    {
      ghost var before := name[..cp + j];
      if !Clean(b[p + j]) {
        assert b[p..p + l][j] == b[p + j];
        return false;
      }
      name[cp + j] := b[p + j];
      assert name[..cp + j] == before;
      assert name[..cp + j + 1] == name[..cp + j] + [name[cp + j]];
      assert b[p..p + j + 1] == b[p..p + j] + [b[p + j]];
    }
    ghost var before := name[..cp + l];
    name[cp + l] := '.' as int;
    assert name[..cp + l] == before;
    assert name[..cp + l + 1] == name[..cp + l] + DOT;
    clean := true;
  }

  /** extract_name when it compares with a given name. */
  method MatchName(b: seq<byte>, start: nat, name: seq<byte>, extra: nat) returns (v: Verdict)
    requires 0 !in name
    ensures v == CompareName(b, start, name, extra)
  {
    hide Follow, CompareLabels, CompareLabel;
    var p: nat, hops: nat, back: Option<nat>, at := start, 0, None, Progress(0, true);
    ghost var done: seq<seq<byte>> := [];
    JoinedNothing(Follow(b, start, 0));
    CompareNothing(name, at);
    while true
      invariant hops <= MAXHOPS && at.cp <= |name|
      invariant Follow(b, start, 0) == Joined(done, back, Follow(b, p, hops))
      invariant CompareLabels(name, Progress(0, true), done) == Some(at)
      decreases MAXHOPS - hops, |b| - p
    {
      FollowStart(b, p, hops);
      if p >= |b| {
        return Malformed;
      }
      var l := b[p];
      if l == 0 {
        if p + 1 + extra > |b| {
          return Malformed;
        }
        assert done + [] == done;
        var goOn := if back.Some? then back.value else p + 1;
        return if at.same && at.cp == |name| then Equal(goOn) else Different(goOn);
      } else if IsPointer(l) {
        if p + 1 >= |b| || hops == MAXHOPS {
          return Malformed;
        }
        FollowPointer(b, p, hops, done, back);
        back := if back.Some? then back else Some(p + 2);
        hops := hops + 1;
        p := Target(l, b[p + 1]);
      } else if !IsLabel(l) || p + 1 + l > |b| {
        return Malformed;
      } else {
        FollowLabel(b, p, hops, done, back);
        ghost var text := b[p + 1..p + 1 + l];
        CompareMore(name, Progress(0, true), done, text);
        if at.cp + l + 1 >= MAXDNAME {
          TooLong(name, done, text, Follow(b, p + 1 + l, hops));
          return Malformed;
        }
        at := MatchLabel(b, p + 1, l, name, at);
        done := done + [text];
        p := p + 1 + l;
      }
    }
  }

  lemma CompareNothing(name: seq<byte>, at: Progress)
    requires at.cp <= |name|
    ensures CompareLabels(name, at, []) == Some(at)
  {
  }

  lemma {:induction false} CompareMore(name: seq<byte>, at: Progress, done: seq<seq<byte>>, l: seq<byte>)
    requires at.cp <= |name|
    ensures var r := CompareLabels(name, at, done);
      CompareLabels(name, at, done + [l]) ==
        if r.None? || r.value.cp + |l| + 1 >= MAXDNAME then None else Some(CompareLabel(name, r.value, l))
    decreases |done|
  {
    hide CompareLabel;
    if done == [] {
      assert done + [l] == [l];
      if at.cp + |l| + 1 < MAXDNAME {
        CompareNothing(name, CompareLabel(name, at, l));
      }
    } else if at.cp + |done[0]| + 1 < MAXDNAME {
      assert (done + [l])[1..] == done[1..] + [l];
      CompareMore(name, CompareLabel(name, at, done[0]), done[1..], l);
    }
  }

  lemma {:induction false} CompareStops(name: seq<byte>, at: Progress, a: seq<seq<byte>>, b: seq<seq<byte>>)
    requires at.cp <= |name| && CompareLabels(name, at, a).None?
    ensures CompareLabels(name, at, a + b).None?
    decreases |a|
  {
    hide CompareLabel;
    assert a != [];
    assert (a + b)[1..] == a[1..] + b;
    if at.cp + |a[0]| + 1 < MAXDNAME {
      CompareStops(name, CompareLabel(name, at, a[0]), a[1..], b);
    }
  }

  lemma TooLong(name: seq<byte>, done: seq<seq<byte>>, l: seq<byte>, rest: Option<Path>)
    requires CompareLabels(name, Progress(0, true), done + [l]).None?
    ensures rest.Some? ==> CompareLabels(name, Progress(0, true), done + [l] + rest.value.labels).None?
  {
    if rest.Some? {
      CompareStops(name, Progress(0, true), done + [l], rest.value.labels);
    }
  }

  method MatchLabel(b: seq<byte>, p: nat, l: nat, name: seq<byte>, at: Progress) returns (r: Progress)
    requires p + l <= |b| && at.cp <= |name|
    ensures r == CompareLabel(name, at, b[p..p + l])
  {
    r := at;
    for j := 0 to l
      invariant r.cp <= |name|
      invariant CompareChars(name, at, b[p..p + l]) == CompareChars(name, r, b[p + j..p + l])
    {
      assert b[p + j..p + l][1..] == b[p + j + 1..p + l];
      if r.cp == |name| {
        r := Progress(r.cp, false);
      } else {
        r := Progress(r.cp + 1, r.same && Lower(name[r.cp]) == Lower(b[p + j]));
      }
    }
    if r.cp != |name| {
      r := Progress(r.cp + 1, r.same && name[r.cp] == '.' as int);
    }
  }

  /** skip_name. */
  method Skip(b: seq<byte>, start: nat, extra: nat) returns (resume: Option<nat>)
    ensures resume == SkipName(b, start, extra)
  {
    var p := start;
    while true
      invariant SkipName(b, p, extra) == SkipName(b, start, extra)
      decreases |b| - p
    {
      if p + 1 > |b| {
        return None;
      }
      if IsPointer(b[p]) {
        p := p + 2;
        break;
      } else if !IsLabel(b[p]) {
        return None;
      } else {
        var len := b[p];
        if p + 1 + len > |b| {
          return None;
        }
        p := p + 1 + len;
        if len == 0 {
          break;
        }
      }
    }
    resume := if p + extra <= |b| then Some(p) else None;
  }
}
