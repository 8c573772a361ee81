/** Writing resource records behind each other up to a limit, and skipping them again
    (RFC 1035, section 4.1.3). */
module Records {
  import opened BigEndian
  import opened Wrappers
  import opened Bytes
  import opened DomainSearch
  import opened DomainSearchOption
  import opened Packets

  /** One item of record data, by the letter of the format that asks for it. */
  datatype Item =
    | Bytes6(address6: seq<byte>)   // 6
    | Bytes4(address4: seq<byte>)   // 4
    | Short(number: nat)            // s
    | Long(big: nat)                // l
    | Domain(name: string)          // d
    | Block(bytes: seq<byte>)       // t
    | Counted(text: seq<byte>)      // z

  datatype Record = Record(nameOffset: nat, kind: nat, rrClass: nat, ttl: nat, items: seq<Item>)

  predicate GoodItem(it: Item) {
    match it
    case Bytes6(a) => |a| == 16
    case Bytes4(a) => |a| == 4
    case Domain(s) => Acceptable(s)
    case _ => true
  }

  predicate GoodItems(items: seq<Item>) {
    forall i :: 0 <= i < |items| ==> GoodItem(items[i])
  }

  function ItemBytes(it: Item): seq<byte>
    requires GoodItem(it)
  {
    match it
    case Bytes6(a) => a
    case Bytes4(a) => a
    case Short(v) => Two(v)
    case Long(v) => Four(v)
    case Domain(s) =>
      assert DomainSearch.Short(Labels(s)) by { LabelsTame(s); }
      Wire(Labels(s))
    case Block(t) => t
    case Counted(t) => if |t| > 255 then [255] + t[..255] else [|t|] + t
  }

  function Data(items: seq<Item>): seq<byte>
    requires GoodItems(items)
  {
    if items == [] then [] else Data(items[..|items| - 1]) + ItemBytes(items[|items| - 1])
  }

  /** Data that fits the length field. */
  predicate GoodRecord(r: Record) {
    GoodItems(r.items) && |Data(r.items)| < 0x1_0000
  }

  function Head(r: Record): (b: seq<byte>)
    ensures |b| == 10
  {
    [PointerHigh(r.nameOffset), PointerLow(r.nameOffset)] + Two(r.kind) + Two(r.rrClass) + Four(r.ttl)
  }

  function RecordBytes(r: Record): (b: seq<byte>)
    requires GoodRecord(r)
    ensures |b| == 12 + |Data(r.items)|
  {
    Head(r) + Two(|Data(r.items)|) + Data(r.items)
  }

  // ----- answers -----

  /** The answer being written: the packet's buffer, the end of what is in it, and the flag
      that calls may share. */
  datatype Answer = Answer(buf: seq<byte>, p: nat, truncated: bool)

  /** A request to write a record; the flag is looked at and set only if shared. */
  datatype Request = Request(record: Record, shared: bool)

  /** The buffer has room for any single record behind p, which is checked against the limit
      only after it is written. */
  predicate Fits(a: Answer, r: Record) {
    GoodRecord(r) && a.p + 12 + |Data(r.items)| <= |a.buf|
  }

  predicate Refused(a: Answer, limit: Option<nat>, q: Request)
    requires GoodRecord(q.record)
  {
    (q.shared && a.truncated) || (limit.Some? && a.p + |RecordBytes(q.record)| > limit.value)
  }

  /** add_resource_record. */
  function AddRecord(a: Answer, limit: Option<nat>, q: Request): (r: Answer)
    requires Fits(a, q.record)
    ensures |r.buf| == |a.buf| && a.p <= r.p <= |a.buf|
  {
    if q.shared && a.truncated then a else
    var b := RecordBytes(q.record);
    var buf := a.buf[..a.p] + b + a.buf[a.p + |b|..];
    if limit.Some? && a.p + |b| > limit.value then Answer(buf, a.p, a.truncated || q.shared)
    else Answer(buf, a.p + |b|, a.truncated)
  }

  /** Some requests, each with room. */
  ghost predicate AllFit(a: Answer, limit: Option<nat>, qs: seq<Request>)
    decreases |qs|
  {
    qs == [] || (Fits(a, qs[0].record) && AllFit(AddRecord(a, limit, qs[0]), limit, qs[1..]))
  }

  function AddRecords(a: Answer, limit: Option<nat>, qs: seq<Request>): (r: Answer)
    requires a.p <= |a.buf| && AllFit(a, limit, qs)
    ensures a.p <= r.p <= |r.buf|
    decreases |qs|
  {
    if qs == [] then a else AddRecords(AddRecord(a, limit, qs[0]), limit, qs[1..])
  }

  /** How many of them are written. */
  function Written(a: Answer, limit: Option<nat>, qs: seq<Request>): nat
    requires a.p <= |a.buf| && AllFit(a, limit, qs)
    decreases |qs|
  {
    if qs == [] then 0
    else (if Refused(a, limit, qs[0]) then 0 else 1) + Written(AddRecord(a, limit, qs[0]), limit, qs[1..])
  }

  // ----- skipping -----

  /** skip_section on a packet of len bytes. */
  function SkipSection(b: seq<byte>, p: nat, count: nat): Option<nat>
    decreases count
  {
    if count == 0 then Some(p) else
    match SkipName(b, p, 10)
    case None => None
    case Some(q) =>
      var length := GetTwo(b, q + 8);
      if q + 10 + length > |b| then None else SkipSection(b, q + 10 + length, count - 1)
  }

  lemma {:induction false} SkipAppend(b: seq<byte>, p: nat, m: nat, n: nat)
    requires SkipSection(b, p, m).Some?
    ensures SkipSection(b, p, m + n) == SkipSection(b, SkipSection(b, p, m).value, n)
    decreases m
  {
    if m > 0 {
      var q := SkipName(b, p, 10).value;
      SkipAppend(b, q + 10 + GetTwo(b, q + 8), m - 1, n);
    }
  }

  /** A record that was written is skipped as one. */
  lemma SkipsRecord(b: seq<byte>, p: nat, r: Record)
    requires GoodRecord(r) && p + |RecordBytes(r)| <= |b| && b[p..p + |RecordBytes(r)|] == RecordBytes(r)
    ensures SkipSection(b, p, 1) == Some(p + |RecordBytes(r)|)
  {
    hide Data;
    var s := RecordBytes(r);
    var n := |Data(r.items)|;
    assert b[p] == s[0] && b[p + 10] == s[10] && b[p + 11] == s[11];
    assert s[0] == PointerHigh(r.nameOffset) && s[10] == n / 256 % 256 && s[11] == n % 256;
    assert n / 256 % 256 * 256 + n % 256 == n;
    assert SkipName(b, p, 10) == Some(p + 2);
    assert SkipSection(b, p + 12 + n, 0) == Some(p + 12 + n);
  }

  /** What lies before the end of a section does not matter to skipping it, nor does what
      lies behind. */
  lemma {:induction false} SkipPrefix(b: seq<byte>, c: seq<byte>, p: nat, count: nat)
    requires SkipSection(b, p, count).Some? && p <= |b| <= |c| && c[..|b|] == b
    ensures SkipSection(c, p, count) == SkipSection(b, p, count)
    decreases count
  {
    if count > 0 {
      hide SkipName;
      SkipNamePrefix(b, c, p, 10);
      var q := SkipName(b, p, 10).value;
      assert c[q + 8] == c[..|b|][q + 8] && c[q + 9] == c[..|b|][q + 9];
      SkipPrefix(b, c, q + 10 + GetTwo(b, q + 8), count - 1);
    }
  }

  lemma {:induction false} SkipNamePrefix(b: seq<byte>, c: seq<byte>, p: nat, extra: nat)
    requires SkipName(b, p, extra).Some? && |b| <= |c| && c[..|b|] == b
    ensures SkipName(c, p, extra) == SkipName(b, p, extra)
    decreases |b| - p
  {
    assert c[p] == c[..|b|][p];
    if !IsPointer(b[p]) && b[p] != 0 {
      SkipNamePrefix(b, c, p + 1 + b[p], extra);
    }
  }

  // ----- the properties of a run -----

  /** Records start..a.p of the packet: count of them, and nothing else. */
  predicate Section(a: Answer, start: nat, count: nat) {
    start <= a.p <= |a.buf| && SkipSection(a.buf[..a.p], start, count) == Some(a.p)
  }

  lemma AddKeepsSection(a: Answer, limit: Option<nat>, q: Request, start: nat, count: nat)
    requires Section(a, start, count) && Fits(a, q.record)
    ensures Section(AddRecord(a, limit, q), start, if Refused(a, limit, q) then count else count + 1)
  {
    hide RecordBytes, SkipSection;
    var r := AddRecord(a, limit, q);
    var b := RecordBytes(q.record);
    assert r.buf[..a.p] == a.buf[..a.p];
    if !Refused(a, limit, q) {
      var c := r.buf[..r.p];
      assert c[..a.p] == a.buf[..a.p] && c[a.p..a.p + |b|] == b;
      SkipPrefix(a.buf[..a.p], c, start, count);
      SkipsRecord(c, a.p, q.record);
      SkipAppend(c, start, count, 1);
    }
  }

  /** After any requests, what was written lies within the limit, and skipping as many records
      as were written ends exactly at the end of the answer, in a packet of any length that
      holds it. */
  lemma {:induction false} AnswerSkips(a: Answer, limit: Option<nat>, qs: seq<Request>, start: nat, count: nat,
      len: nat)
    requires Section(a, start, count) && AllFit(a, limit, qs)
    requires limit.Some? ==> a.p <= limit.value
    requires AddRecords(a, limit, qs).p <= len <= |AddRecords(a, limit, qs).buf|
    ensures var r := AddRecords(a, limit, qs);
      && (limit.Some? ==> r.p <= limit.value)
      && SkipSection(r.buf[..len], start, count + Written(a, limit, qs)) == Some(r.p)
    decreases |qs|
  {
    hide Section, AddRecord, Refused, SkipSection;
    if qs == [] {
      SectionSkips(a, start, count, len);
    } else {
      AddKeepsSection(a, limit, qs[0], start, count);
      AddInLimit(a, limit, qs[0]);
      AnswerSkips(AddRecord(a, limit, qs[0]), limit, qs[1..], start,
                  if Refused(a, limit, qs[0]) then count else count + 1, len);
    }
  }

  lemma SectionSkips(a: Answer, start: nat, count: nat, len: nat)
    requires Section(a, start, count) && a.p <= len <= |a.buf|
    ensures SkipSection(a.buf[..len], start, count) == Some(a.p)
  {
    assert a.buf[..len][..a.p] == a.buf[..a.p];
    SkipPrefix(a.buf[..a.p], a.buf[..len], start, count);
  }

  lemma AddInLimit(a: Answer, limit: Option<nat>, q: Request)
    requires Fits(a, q.record)
    ensures limit.Some? && a.p <= limit.value ==> AddRecord(a, limit, q).p <= limit.value
  {
  }

  /** With a shared flag that starts unset, the flag ends set exactly if some record was
      refused, and the records written are the first ones. */
  lemma {:induction false} FlagSaysTruncated(a: Answer, limit: Option<nat>, qs: seq<Request>)
    requires a.p <= |a.buf| && AllFit(a, limit, qs) && forall i :: 0 <= i < |qs| ==> qs[i].shared
    ensures Written(a, limit, qs) <= |qs|
    ensures a.truncated ==> Written(a, limit, qs) == 0 && AddRecords(a, limit, qs).truncated
    ensures !a.truncated ==> (AddRecords(a, limit, qs).truncated <==> Written(a, limit, qs) < |qs|)
    ensures !a.truncated ==>
      forall k :: 0 <= k < |qs| ==> (Refused(PartOf(a, limit, qs, k), limit, qs[k]) <==> Written(a, limit, qs) <= k)
    decreases |qs|
  {
    hide RecordBytes;
    if qs != [] {
      var next := AddRecord(a, limit, qs[0]);
      FlagSaysTruncated(next, limit, qs[1..]);
      forall k | 0 <= k < |qs| && !a.truncated
        ensures Refused(PartOf(a, limit, qs, k), limit, qs[k]) <==> Written(a, limit, qs) <= k
      {
        if k > 0 {
          assert PartOf(a, limit, qs, k) == PartOf(next, limit, qs[1..], k - 1);
          if next.truncated {
            StaysTruncated(next, limit, qs[1..], k - 1);
          }
        }
      }
    }
  }

  /** The answer after the first k requests. */
  function PartOf(a: Answer, limit: Option<nat>, qs: seq<Request>, k: nat): (r: Answer)
    requires a.p <= |a.buf| && AllFit(a, limit, qs) && k < |qs|
    ensures Fits(r, qs[k].record)
    decreases k
  {
    if k == 0 then a else PartOf(AddRecord(a, limit, qs[0]), limit, qs[1..], k - 1)
  }

  lemma {:induction false} StaysTruncated(a: Answer, limit: Option<nat>, qs: seq<Request>, k: nat)
    requires a.p <= |a.buf| && AllFit(a, limit, qs) && k < |qs| && a.truncated
    ensures PartOf(a, limit, qs, k).truncated
    decreases k
  {
    if k > 0 {
      StaysTruncated(AddRecord(a, limit, qs[0]), limit, qs[1..], k - 1);
    }
  }
}
