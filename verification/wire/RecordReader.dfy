/** A reader of resource records, written from RFC 1035, section 4.1.3: what it finds in an
    answer are the records that were accepted. */
module RecordReader {
  import opened BigEndian
  import opened Wrappers
  import opened Bytes
  import opened DomainSearch
  import opened DomainSearchProofs
  import opened DomainSearchOption
  import opened Packets
  import opened Records

  // ----- record data -----

  /** What the type of a record says its data consists of. */
  datatype Field = Octets(size: nat) | Number16 | Number32 | DomainName | CharacterString

  datatype Value = OctetsOf(octets: seq<byte>) | NumberOf(number: nat) | NameOf(labels: seq<seq<byte>>)

  /** One field at p, and where the next one starts. */
  function ReadField(b: seq<byte>, p: nat, f: Field): Option<(Value, nat)> {
    match f
    case Octets(n) => if p + n <= |b| then Some((OctetsOf(b[p..p + n]), p + n)) else None
    case Number16 => if p + 2 <= |b| then Some((NumberOf(GetTwo(b, p)), p + 2)) else None
    case Number32 => if p + 4 <= |b| then Some((NumberOf(GetFour(b, p)), p + 4)) else None
    case DomainName =>
      (match Follow(b, p, 0)
       case Some(w) => Some((NameOf(w.labels), w.resume))
       case None => None)
    case CharacterString =>
      if p < |b| && p + 1 + b[p] <= |b| then Some((OctetsOf(b[p + 1..p + 1 + b[p]]), p + 1 + b[p])) else None
  }

  function ReadFields(b: seq<byte>, p: nat, fs: seq<Field>): Option<(seq<Value>, nat)>
    decreases |fs|
  {
    if fs == [] then Some(([], p)) else
    match ReadField(b, p, fs[0])
    case None => None
    case Some((v, q)) =>
      match ReadFields(b, q, fs[1..])
      case None => None
      case Some((vs, end)) => Some(([v] + vs, end))
  }

  function FieldOf(it: Item): Field {
    match it
    case Bytes6(_) => Octets(16)
    case Bytes4(_) => Octets(4)
    case Short(_) => Number16
    case Long(_) => Number32
    case Domain(_) => DomainName
    case Block(t) => Octets(|t|)
    case Counted(_) => CharacterString
  }

  /** What a field should hold: numbers in their width, strings of at most 255 characters. */
  function ValueOf(it: Item): Value {
    match it
    case Bytes6(a) => OctetsOf(a)
    case Bytes4(a) => OctetsOf(a)
    case Short(v) => NumberOf(v % 0x1_0000)
    case Long(v) => NumberOf(v % 0x1_0000_0000)
    case Domain(s) => NameOf(LabelsBytes(Labels(s)))
    case Block(t) => OctetsOf(t)
    case Counted(t) => OctetsOf(if |t| > 255 then t[..255] else t)
  }

  function FieldsOf(items: seq<Item>): seq<Field> {
    if items == [] then [] else [FieldOf(items[0])] + FieldsOf(items[1..])
  }

  function ValuesOf(items: seq<Item>): seq<Value> {
    if items == [] then [] else [ValueOf(items[0])] + ValuesOf(items[1..])
  }

  /** No domain name has an empty label, which would end it. */
  predicate WholeNames(items: seq<Item>) {
    forall i :: 0 <= i < |items| && items[i].Domain? ==> !HasEmptyLabel(items[i].name)
  }

  // ----- names in the data -----

  lemma Inside(b: seq<byte>, p: nat, n: nat, i: nat, j: nat)
    requires i <= j <= n && p + n <= |b|
    ensures b[p..p + n][i..j] == b[p + i..p + j]
  {
    var h := b[p..p + n];
    assert forall k :: 0 <= k < j - i ==> h[i..j][k] == h[i + k] == b[p + i + k] == b[p + i..p + j][k];
  }

  lemma {:induction false} WireFollows(b: seq<byte>, p: nat, hops: nat, ls: seq<string>)
    requires hops <= MAXHOPS && DomainSearch.Short(ls) && AllTame(ls)
    requires p + |Wire(ls)| <= |b| && b[p..p + |Wire(ls)|] == Wire(ls)
    ensures Follow(b, p, hops).Some?
    ensures var w, end := Follow(b, p, hops).value, p + |Wire(ls)|;
      if NoEmptyLabel(ls) then w == Path(LabelsBytes(ls), end, end) else |w.labels| < |ls|
    decreases |ls|
  {
    hide Wire, NoEmptyLabel, Label, Follow;
    var w := Wire(ls);
    WireFirst(ls);
    assert b[p] == b[p..p + |w|][0];
    if ls == [] || ls[0] == "" {
      NameEnds(b, p, hops);
    } else {
      var n := 1 + |ls[0]|;
      WireStep(ls);
      LabelIs(ls[0]);
      Inside(b, p, |w|, 0, n);
      Inside(b, p, |w|, n, |w|);
      Inside(b, p, n, 1, n);
      assert w[0..n] == Label(ls[0]) && w[n..|w|] == Wire(ls[1..]) && Label(ls[0])[1..n] == ToBytes(ls[0]);
      WireFollows(b, p + n, hops, ls[1..]);
      LabelFollows(b, p, hops);
    }
  }

  lemma NameEnds(b: seq<byte>, p: nat, hops: nat)
    requires hops <= MAXHOPS && p < |b| && b[p] == 0
    ensures Follow(b, p, hops) == Some(Path([], p + 1, p + 1))
  {
  }

  lemma LabelFollows(b: seq<byte>, p: nat, hops: nat)
    requires hops <= MAXHOPS && p < |b| && 0 < b[p] <= MAXLABEL && p + 1 + b[p] <= |b|
    requires Follow(b, p + 1 + b[p], hops).Some?
    ensures var w := Follow(b, p + 1 + b[p], hops).value;
      Follow(b, p, hops) == Some(Path([b[p + 1..p + 1 + b[p]]] + w.labels, w.last, w.resume))
  {
  }

  lemma LabelIs(s: string)
    requires |s| <= MAXLABEL
    ensures |Label(s)| == 1 + |s| && Label(s)[1..] == ToBytes(s)
  {
  }

  lemma WireFirst(ls: seq<string>)
    requires DomainSearch.Short(ls) && AllTame(ls)
    ensures |Wire(ls)| > 0 && Wire(ls)[0] == if ls == [] then 0 else |ls[0]|
    ensures ls == [] ==> Wire(ls) == [0] && NoEmptyLabel(ls)
    ensures ls != [] ==> (NoEmptyLabel(ls) <==> ls[0] != "" && NoEmptyLabel(ls[1..]))
    ensures ls != [] ==> |ls[0]| <= MAXLABEL && DomainSearch.Short(ls[1..]) && AllTame(ls[1..])
  {
    if ls != [] {
      assert Tame(ls[0]);
      NoEmptyCons(ls[0], ls[1..]);
      assert [ls[0]] + ls[1..] == ls;
    }
  }

  /** A domain name is read back as its labels exactly if none of them is empty. */
  lemma DomainReads(b: seq<byte>, p: nat, s: string)
    requires Acceptable(s)
    requires var n := |ItemBytes(Domain(s))|; p + n <= |b| && b[p..p + n] == ItemBytes(Domain(s))
    ensures !HasEmptyLabel(s) <==>
      ReadField(b, p, DomainName) == Some((NameOf(LabelsBytes(Labels(s))), p + |ItemBytes(Domain(s))|))
  {
    hide Follow, Wire, Labels, NoEmptyLabel, HasEmptyLabel;
    LabelsTame(s);
    EmptyLabels(s);
    WireFollows(b, p, 0, Labels(s));
    LabelsCount(Labels(s));
  }

  lemma {:induction false} LabelsCount(ls: seq<string>)
    ensures |LabelsBytes(ls)| == |ls|
    decreases |ls|
  {
    if ls != [] {
      LabelsCount(ls[1..]);
    }
  }

  // ----- the data of a record -----

  lemma FieldReads(b: seq<byte>, p: nat, it: Item)
    requires GoodItem(it) && (it.Domain? ==> !HasEmptyLabel(it.name))
    requires var n := |ItemBytes(it)|; p + n <= |b| && b[p..p + n] == ItemBytes(it)
    ensures ReadField(b, p, FieldOf(it)) == Some((ValueOf(it), p + |ItemBytes(it)|))
  {
    hide Two, Four, GetTwo, GetFour, Follow, Wire, Labels, HasEmptyLabel, LabelsBytes;
    match it
    case Short(v) => TwoReads(b, p, v);
    case Long(v) => FourReads(b, p, v);
    case Domain(name) => DomainReads(b, p, name);
    case Counted(t) => CountedReads(b, p, t);
    case _ =>
  }

  lemma CountedReads(b: seq<byte>, p: nat, t: seq<byte>)
    requires var n := |ItemBytes(Counted(t))|; p + n <= |b| && b[p..p + n] == ItemBytes(Counted(t))
    ensures ReadField(b, p, CharacterString) == Some((ValueOf(Counted(t)), p + |ItemBytes(Counted(t))|))
  {
    var n := |ItemBytes(Counted(t))|;
    assert b[p] == b[p..p + n][0];
    assert b[p + 1..p + n] == b[p..p + n][1..];
  }

  lemma TwoReads(b: seq<byte>, p: nat, v: nat)
    requires p + 2 <= |b| && b[p..p + 2] == Two(v)
    ensures GetTwo(b, p) == v % 0x1_0000
  {
    hide Two;
    assert b[p] == b[p..p + 2][0] && b[p + 1] == b[p..p + 2][1];
    TwoAt(b, p, v);
  }

  lemma FourReads(b: seq<byte>, p: nat, v: nat)
    requires p + 4 <= |b| && b[p..p + 4] == Four(v)
    ensures GetFour(b, p) == v % 0x1_0000_0000
  {
    hide Two, GetTwo;
    assert b[p..p + 2] == b[p..p + 4][..2] && b[p + 2..p + 4] == b[p..p + 4][2..];
    TwoReads(b, p, v / 0x1_0000);
    TwoReads(b, p + 2, v);
    var low, middle := v % 0x1_0000, v / 0x1_0000 % 0x1_0000;
    assert v == v / 0x1_0000 / 0x1_0000 * 0x1_0000_0000 + (middle * 0x1_0000 + low);
  }

  lemma {:induction false} DataFirst(items: seq<Item>)
    requires GoodItems(items) && items != []
    ensures GoodItem(items[0]) && GoodItems(items[1..]) && Data(items) == ItemBytes(items[0]) + Data(items[1..])
    decreases |items|
  {
    hide GoodItem, ItemBytes, Data;
    var n := |items| - 1;
    var front, rest := items[..n], items[1..];
    DataLast(items);
    if n == 0 {
      assert front == [] && rest == [];
      NoData();
    } else {
      DataLast(rest);
      DataFirst(front);
      assert front[1..] == rest[..n - 1] && front[0] == items[0] && rest[n - 1] == items[n];
      var first, middle, last := ItemBytes(items[0]), Data(front[1..]), ItemBytes(items[n]);
      assert (first + middle) + last == first + (middle + last);
    }
  }

  lemma DataLast(items: seq<Item>)
    requires GoodItems(items) && items != []
    ensures var n := |items| - 1;
      GoodItems(items[..n]) && GoodItems(items[1..]) && GoodItem(items[0]) && GoodItem(items[n])
      && Data(items) == Data(items[..n]) + ItemBytes(items[n])
  {
    hide GoodItem, ItemBytes;
  }

  lemma {:induction false} FieldsRead(b: seq<byte>, p: nat, items: seq<Item>)
    requires GoodItems(items) && WholeNames(items)
    requires p + |Data(items)| <= |b| && b[p..p + |Data(items)|] == Data(items)
    ensures ReadFields(b, p, FieldsOf(items)) == Some((ValuesOf(items), p + |Data(items)|))
    decreases |items|
  {
    hide GoodItem, ItemBytes, Data, ReadField, FieldOf, ValueOf, HasEmptyLabel;
    if items == [] {
      NoData();
    } else {
      DataFirst(items);
      var s, d := ItemBytes(items[0]), Data(items);
      assert b[p..p + |s|] == b[p..p + |d|][..|s|] == s;
      assert b[p + |s|..p + |d|] == b[p..p + |d|][|s|..] == Data(items[1..]);
      FieldReads(b, p, items[0]);
      FieldsRead(b, p + |s|, items[1..]);
    }
  }

  lemma NoData()
    ensures Data([]) == []
  {
  }

  // ----- records -----

  /** A record as it is read: its name, if that can be followed, and where its data is. */
  datatype Entry = Entry(
    name: Option<seq<seq<byte>>>, kind: nat, rrClass: nat, ttl: nat, data: nat, end: nat)

  function LabelsAt(b: seq<byte>, p: nat, hops: nat): Option<seq<seq<byte>>>
    requires hops <= MAXHOPS
  {
    match Follow(b, p, hops)
    case Some(w) => Some(w.labels)
    case None => None
  }

  function ReadRecord(b: seq<byte>, p: nat): Option<Entry> {
    match SkipName(b, p, 10)
    case None => None
    case Some(q) =>
      var end := q + 10 + GetTwo(b, q + 8);
      if end > |b| then None
      else Some(Entry(LabelsAt(b, p, 0), GetTwo(b, q), GetTwo(b, q + 2), GetFour(b, q + 4), q + 10, end))
  }

  function ReadSection(b: seq<byte>, p: nat, count: nat): Option<seq<Entry>>
    decreases count
  {
    if count == 0 then Some([]) else
    match ReadRecord(b, p)
    case None => None
    case Some(e) =>
      match ReadSection(b, e.end, count - 1)
      case None => None
      case Some(es) => Some([e] + es)
  }

  /** The entry is record r: its name is the one that stands at the record's offset, its fields
      are the record's in their widths, and its data reads as the record's items. */
  predicate Shows(b: seq<byte>, e: Entry, r: Record) {
    && e.name == LabelsAt(b, r.nameOffset % 0x4000, 1)
    && e.kind == r.kind % 0x1_0000 && e.rrClass == r.rrClass % 0x1_0000 && e.ttl == r.ttl % 0x1_0000_0000
    && (WholeNames(r.items) ==> ReadFields(b, e.data, FieldsOf(r.items)) == Some((ValuesOf(r.items), e.end)))
  }

  /** The fixed part of a record, where it was put. */
  lemma HeadReads(b: seq<byte>, p: nat, r: Record)
    requires p + 10 <= |b| && b[p..p + 10] == Head(r)
    ensures IsPointer(b[p]) && Target(b[p], b[p + 1]) == r.nameOffset % 0x4000
    ensures GetTwo(b, p + 2) == r.kind % 0x1_0000 && GetTwo(b, p + 4) == r.rrClass % 0x1_0000
    ensures GetFour(b, p + 6) == r.ttl % 0x1_0000_0000
  {
    hide Two, Four, GetTwo, GetFour;
    var h := b[p..p + 10];
    assert b[p] == h[0] && b[p + 1] == h[1];
    Inside(b, p, 10, 2, 4);
    Inside(b, p, 10, 4, 6);
    Inside(b, p, 10, 6, 10);
    var kind, rrClass, ttl := Two(r.kind), Two(r.rrClass), Four(r.ttl);
    assert h == [PointerHigh(r.nameOffset), PointerLow(r.nameOffset)] + kind + rrClass + ttl;
    assert h[2..4] == kind && h[4..6] == rrClass && h[6..10] == ttl;
    TwoReads(b, p + 2, r.kind);
    TwoReads(b, p + 4, r.rrClass);
    FourReads(b, p + 6, r.ttl);
    OffsetReads(r.nameOffset);
  }

  lemma OffsetReads(v: nat)
    ensures IsPointer(PointerHigh(v)) && Target(PointerHigh(v), PointerLow(v)) == v % 0x4000
  {
    var top, low := v / 0x4000, v % 0x4000;
    assert v == top * 0x4000 + low && low == low / 256 * 256 + low % 256;
    assert v % 256 == low % 256;
  }

  lemma RecordReads(b: seq<byte>, p: nat, r: Record)
    requires GoodRecord(r)
    requires var n := |RecordBytes(r)|; p + n <= |b| && b[p..p + n] == RecordBytes(r)
    ensures ReadRecord(b, p).Some?
    ensures var e := ReadRecord(b, p).value; e.end == p + |RecordBytes(r)| && Shows(b, e, r)
  {
    hide Head, Data, ReadFields, FieldsOf, ValuesOf, Two, GetTwo, GetFour, GoodItems, WholeNames;
    var s, n := RecordBytes(r), |Data(r.items)|;
    Inside(b, p, |s|, 0, 10);
    Inside(b, p, |s|, 10, 12);
    Inside(b, p, |s|, 12, |s|);
    assert s[0..10] == Head(r) && s[10..12] == Two(n) && s[12..|s|] == Data(r.items);
    HeadReads(b, p, r);
    TwoReads(b, p + 10, n);
    if WholeNames(r.items) {
      FieldsRead(b, p + 12, r.items);
    }
    assert SkipName(b, p, 10) == Some(p + 2);
  }

  // ----- answers -----

  /** The records accepted, in order. */
  function Accepted(a: Answer, limit: Option<nat>, qs: seq<Request>): (rs: seq<Record>)
    requires a.p <= |a.buf| && AllFit(a, limit, qs)
    ensures forall i :: 0 <= i < |rs| ==> GoodRecord(rs[i])
    decreases |qs|
  {
    if qs == [] then []
    else
      (if Records.Refused(a, limit, qs[0]) then [] else [qs[0].record])
      + Accepted(AddRecord(a, limit, qs[0]), limit, qs[1..])
  }

  function AllBytes(rs: seq<Record>): seq<byte>
    requires forall i :: 0 <= i < |rs| ==> GoodRecord(rs[i])
  {
    if rs == [] then [] else RecordBytes(rs[0]) + AllBytes(rs[1..])
  }

  /** The requests leave what was there and put the accepted records behind it. */
  lemma {:induction false} AnswerBytes(a: Answer, limit: Option<nat>, qs: seq<Request>)
    requires a.p <= |a.buf| && AllFit(a, limit, qs)
    ensures var r, s := AddRecords(a, limit, qs), AllBytes(Accepted(a, limit, qs));
      r.p == a.p + |s| && |r.buf| == |a.buf| && r.buf[..a.p] == a.buf[..a.p] && r.buf[a.p..r.p] == s
    decreases |qs|
  {
    hide RecordBytes, AddRecord, Records.Refused, AllBytes, Fits;
    NoBytesAtAll();
    if qs != [] {
      var next := AddRecord(a, limit, qs[0]);
      var rest := Accepted(next, limit, qs[1..]);
      AddEffect(a, limit, qs[0]);
      AnswerBytes(next, limit, qs[1..]);
      Behind(AddRecords(next, limit, qs[1..]).buf, next.buf, a.p, next.p, |AllBytes(rest)|);
      if !Records.Refused(a, limit, qs[0]) {
        MoreBytes(qs[0].record, rest);
      } else {
        assert [] + rest == rest;
      }
    }
  }

  /** Bytes that agree up to q agree up to p, and what follows p is what follows up to q and then
      the rest. */
  lemma Behind(b: seq<byte>, before: seq<byte>, p: nat, q: nat, n: nat)
    requires p <= q <= q + n <= |b| && q <= |before| && b[..q] == before[..q]
    ensures b[..p] == before[..p] && b[p..q + n] == before[..q][p..] + b[q..q + n]
  {
    assert b[..p] == b[..q][..p] && before[..p] == before[..q][..p];
    assert b[p..q] == b[..q][p..];
  }

  lemma NoBytesAtAll()
    ensures AllBytes([]) == []
  {
  }

  lemma MoreBytes(r: Record, rs: seq<Record>)
    requires GoodRecord(r) && forall i :: 0 <= i < |rs| ==> GoodRecord(rs[i])
    ensures AllBytes([r] + rs) == RecordBytes(r) + AllBytes(rs)
  {
    hide RecordBytes, GoodRecord;
    assert ([r] + rs)[1..] == rs;
  }

  /** One request: refused, it may leave bytes behind the end; accepted, they are in the answer. */
  lemma AddEffect(a: Answer, limit: Option<nat>, q: Request)
    requires Fits(a, q.record)
    ensures GoodRecord(q.record)
    ensures var next := AddRecord(a, limit, q);
      && |next.buf| == |a.buf| && next.buf[..a.p] == a.buf[..a.p]
      && (if Records.Refused(a, limit, q) then next.p == a.p
          else next.p == a.p + |RecordBytes(q.record)| && next.buf[..next.p][a.p..] == RecordBytes(q.record))
  {
    hide RecordBytes;
  }

  lemma {:induction false} SectionReads(b: seq<byte>, p: nat, rs: seq<Record>)
    requires forall i :: 0 <= i < |rs| ==> GoodRecord(rs[i])
    requires p + |AllBytes(rs)| <= |b| && b[p..p + |AllBytes(rs)|] == AllBytes(rs)
    ensures ReadSection(b, p, |rs|).Some?
    ensures var es := ReadSection(b, p, |rs|).value;
      |es| == |rs| && forall i :: 0 <= i < |rs| ==> Shows(b, es[i], rs[i])
    decreases |rs|
  {
    hide RecordBytes, ReadRecord, Shows, GoodRecord;
    if rs != [] {
      var s, all := RecordBytes(rs[0]), AllBytes(rs);
      assert b[p..p + |s|] == b[p..p + |all|][..|s|] == s;
      assert b[p + |s|..p + |all|] == b[p..p + |all|][|s|..] == AllBytes(rs[1..]);
      RecordReads(b, p, rs[0]);
      SectionReads(b, p + |s|, rs[1..]);
    }
  }

  /** After any requests the records read where the answer started are exactly those accepted,
      in order, and what was before is as it was. */
  lemma AnswerReads(a: Answer, limit: Option<nat>, qs: seq<Request>, len: nat)
    requires a.p <= |a.buf| && AllFit(a, limit, qs)
    requires AddRecords(a, limit, qs).p <= len <= |a.buf|
    ensures var r, rs := AddRecords(a, limit, qs), Accepted(a, limit, qs);
      && r.buf[..a.p] == a.buf[..a.p] && |r.buf| == |a.buf|
      && |rs| == Written(a, limit, qs)
      && ReadSection(r.buf[..len], a.p, |rs|).Some?
      && var es := ReadSection(r.buf[..len], a.p, |rs|).value;
         |es| == |rs| && forall i :: 0 <= i < |rs| ==> Shows(r.buf[..len], es[i], rs[i])
  {
    hide AllBytes, ReadSection, Shows;
    AnswerBytes(a, limit, qs);
    AcceptedWritten(a, limit, qs);
    var r, rs := AddRecords(a, limit, qs), Accepted(a, limit, qs);
    assert r.buf[..len][a.p..r.p] == r.buf[a.p..r.p];
    SectionReads(r.buf[..len], a.p, rs);
  }

  lemma {:induction false} AcceptedWritten(a: Answer, limit: Option<nat>, qs: seq<Request>)
    requires a.p <= |a.buf| && AllFit(a, limit, qs)
    ensures |Accepted(a, limit, qs)| == Written(a, limit, qs)
    decreases |qs|
  {
    hide RecordBytes, AddRecord;
    if qs != [] {
      AcceptedWritten(AddRecord(a, limit, qs[0]), limit, qs[1..]);
    }
  }
}
