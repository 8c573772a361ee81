/** add_resource_record and skip_section as they run. */
module AnswerWriter {
  import opened BigEndian
  import opened Wrappers
  import opened Bytes
  import opened DomainSearch
  import opened DomainSearchOption
  import opened Packets
  import opened NameReader
  import opened Records

  /** The buffer with s written over it from offset at on. */
  function Over(b: seq<byte>, at: nat, s: seq<byte>): (r: seq<byte>)
    requires at + |s| <= |b|
    ensures |r| == |b|
  {
    b[..at] + s + b[at + |s|..]
  }

  lemma OverOver(b: seq<byte>, at: nat, s: seq<byte>, t: seq<byte>)
    requires at + |s| + |t| <= |b|
    ensures Over(Over(b, at, s), at + |s|, t) == Over(b, at, s + t)
  {
  }

  lemma OverPatch(b: seq<byte>, at: nat, h: seq<byte>, x: seq<byte>, y: seq<byte>, d: seq<byte>)
    requires at + |h| + |x| + |d| <= |b| && |x| == |y|
    ensures Over(Over(b, at, h + x + d), at + |h|, y) == Over(b, at, h + y + d)
  {
  }

  class Writer {
    const buf: array<byte>
    const limit: Option<nat>
    var p: nat
    var truncated: bool

    constructor (buf: array<byte>, limit: Option<nat>, p: nat)
      requires p <= buf.Length
      ensures this.buf == buf && this.limit == limit && State() == Answer(buf[..], p, false)
    {
      this.buf, this.limit, this.p, this.truncated := buf, limit, p, false;
    }

    ghost function State(): Answer
      reads this, buf
    {
      Answer(buf[..], p, truncated)
    }

    method PutBytes(at: nat, s: seq<byte>) returns (next: nat)
      requires at + |s| <= buf.Length
      modifies buf
      ensures next == at + |s| && buf[..] == Over(old(buf[..]), at, s)
    {
      ghost var before := buf[..];
      for i := 0 to |s|
        invariant buf[..] == Over(before, at, s[..i])
      {
        buf[at + i] := s[i];
        assert buf[..] == Over(before, at, s[..i])[at + i := s[i]];
        assert s[..i + 1] == s[..i] + [s[i]];
      }
      assert s[..|s|] == s;
      next := at + |s|;
    }

    /** One item of data behind what is there already. */
    method PutItem(at: nat, it: Item) returns (next: nat)
      requires GoodItem(it) && at + |ItemBytes(it)| <= buf.Length
      modifies buf
      ensures next == at + |ItemBytes(it)| && buf[..] == Over(old(buf[..]), at, ItemBytes(it))
    {
      hide Over;
      match it
      case Bytes6(a) => next := PutBytes(at, a);
      case Bytes4(a) => next := PutBytes(at, a);
      case Short(v) => next := PutBytes(at, Two(v));
      case Long(v) => next := PutBytes(at, Four(v));
      case Domain(s) =>
        LabelsTame(s);
        next := PutBytes(at, Wire(Labels(s)));
      case Block(t) => next := PutBytes(at, t);
      case Counted(t) =>
        var n := if |t| > 255 then 255 else |t|;
        next := PutBytes(at, [n] + t[..n]);
        assert t[..|t|] == t;
    }

    method PutItems(at: nat, items: seq<Item>) returns (next: nat)
      requires GoodItems(items) && at + |Data(items)| <= buf.Length
      modifies buf
      ensures next == at + |Data(items)| && buf[..] == Over(old(buf[..]), at, Data(items))
    {
      hide Over, ItemBytes;
      next := at;
      ghost var before := buf[..];
      OverNothing(before, at);
      for i := 0 to |items|
        invariant GoodItems(items[..i]) && next == at + |Data(items[..i])|
        invariant at + |Data(items[..i])| <= at + |Data(items)| <= |before|
        invariant buf[..] == Over(before, at, Data(items[..i]))
      {
        DataStep(items, i);
        OverOver(before, at, Data(items[..i]), ItemBytes(items[i]));
        next := PutItem(next, items[i]);
      }
      assert items[..|items|] == items;
    }

    /** add_resource_record. The length of the data is filled in when the data is there, and
        the limit is looked at last. */
    method Add(q: Request) returns (ok: bool)
      requires Fits(State(), q.record)
      modifies this, buf
      ensures State() == AddRecord(old(State()), limit, q)
      ensures ok == !Records.Refused(old(State()), limit, q)
    {
      hide Over, Data, Head, GoodItem, GoodItems, ItemBytes, Two, Four;
      if q.shared && truncated {
        return false;
      }
      ghost var before := buf[..];
      var r := q.record;
      var sav := PutBytes(p, Head(r));
      var end := PutBytes(sav, Two(0));
      OverOver(before, p, Head(r), Two(0));
      end := PutItems(end, r.items);
      OverOver(before, p, Head(r) + Two(0), Data(r.items));
      OverPatch(before, p, Head(r), Two(0), Two(|Data(r.items)|), Data(r.items));
      var _ := PutBytes(sav, Two(end - sav - 2));
      OverIs(before, p, RecordBytes(r));
      if limit.Some? && end > limit.value {
        truncated := truncated || q.shared;
        return false;
      }
      p := end;
      ok := true;
    }
  }

  lemma OverNothing(b: seq<byte>, at: nat)
    requires at <= |b|
    ensures Over(b, at, []) == b && Data([]) == []
  {
  }

  lemma OverIs(b: seq<byte>, at: nat, s: seq<byte>)
    requires at + |s| <= |b|
    ensures Over(b, at, s) == b[..at] + s + b[at + |s|..]
  {
  }

  lemma {:induction false} DataStep(items: seq<Item>, i: nat)
    requires GoodItems(items) && i < |items|
    ensures GoodItems(items[..i + 1]) && Data(items[..i + 1]) == Data(items[..i]) + ItemBytes(items[i])
    ensures |Data(items[..i + 1])| <= |Data(items)|
    decreases |items| - i
  {
    hide GoodItem, ItemBytes;
    var upto := items[..i + 1];
    assert upto[..i] == items[..i] && upto[i] == items[i];
    if i + 1 < |items| {
      DataStep(items, i + 1);
    } else {
      assert items[..i + 1] == items;
    }
  }

  /** skip_section. */
  method SkipRecords(b: seq<byte>, start: nat, count: nat) returns (r: Option<nat>)
    ensures r == SkipSection(b, start, count)
  {
    hide SkipName;
    var p: nat, i: nat := start, 0;
    while i < count
      invariant i <= count
      invariant SkipSection(b, p, count - i) == SkipSection(b, start, count)
    {
      var q := Skip(b, p, 10);
      if q.None? {
        return None;
      }
      var length := GetTwo(b, q.value + 8);
      if q.value + 10 + length > |b| {
        return None;
      }
      p := q.value + 10 + length;
      i := i + 1;
    }
    r := Some(p);
  }
}
