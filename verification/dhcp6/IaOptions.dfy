/** What a client reads in an identity association, from its bytes (RFC 3315, sections 22.4 to
    22.6 and 22.13). */
module IaOptions {
  import opened BigEndian
  import opened Wrappers
  import opened Options6
  import opened LeaseTimes
  import opened IaReply
  import opened IaTimes

  // ----- reading -----

  datatype Entry =
    | Lease(addr: seq<byte>, preferred: nat, valid: nat)
    | Status(code: nat, text: seq<byte>)
    | Other

  /** One option, by its number. */
  function ReadEntry(kind: nat, body: seq<byte>): Entry {
    if kind == 5 && |body| >= 24 then Lease(body[..16], GetFour(body, 16), GetFour(body, 20))
    else if kind == 13 && |body| >= 2 then Status(GetTwo(body, 0), body[2..])
    else Other
  }

  /** The options that the walk over b meets. */
  function ReadEntries(b: seq<byte>): seq<Entry>
    decreases |b|
  {
    match Walk(b)
    case None => []
    case Some(s) => [ReadEntry(s.kind, s.body)] + if s.next.Some? then ReadEntries(s.next.value) else []
  }

  /** An association for temporary addresses or for others. */
  datatype Association = Association(na: bool, iaid: nat, t1: nat, t2: nat, entries: seq<Entry>)

  function ReadAssociation(b: seq<byte>): Option<Association> {
    match Walk(b)
    case None => None
    case Some(s) =>
      if s.kind == 3 && |s.body| >= 12 then
        Some(Association(true, GetFour(s.body, 0), GetFour(s.body, 4), GetFour(s.body, 8), ReadEntries(s.body[12..])))
      else if s.kind == 4 && |s.body| >= 4 then
        Some(Association(false, GetFour(s.body, 0), 0, 0, ReadEntries(s.body[4..])))
      else None
  }

  // ----- reading what was written -----

  /** Options without options inside. */
  predicate Plain(s: seq<Node>) {
    forall i :: 0 <= i < |s| ==> s[i].kind < 0x1_0000 && s[i].kids == Nil
  }

  function Entries(s: seq<Node>): seq<Entry> {
    if s == [] then [] else [ReadEntry(s[0].kind, s[0].head)] + Entries(s[1..])
  }

  lemma {:induction false} EntriesRead(s: seq<Node>)
    requires Plain(s) && |Bytes(ToNodes(s))| < 0x1_0000
    ensures ReadEntries(Bytes(ToNodes(s))) == Entries(s)
    decreases |s|
  {
    hide Walk, ReadEntry, NodeBytes;
    if s == [] {
      WalkEmpty();
    } else {
      var n, rest := s[0], Bytes(ToNodes(s[1..]));
      PlainBody(n);
      NodeIs(n);
      WalkNode(n, rest);
      EntriesRead(s[1..]);
      if rest == [] {
        WalkEmpty();
      }
    }
  }

  lemma PlainBody(n: Node)
    requires n.kids == Nil
    ensures Body(n) == n.head
  {
  }

  lemma {:induction false} EntriesJoin(s: seq<Node>, t: seq<Node>)
    ensures Entries(s + t) == Entries(s) + Entries(t)
    decreases |s|
  {
    hide ReadEntry;
    if s == [] {
      assert s + t == t;
    } else {
      assert (s + t)[1..] == s[1..] + t;
      EntriesJoin(s[1..], t);
    }
  }

  lemma EntryOf(n: Node)
    ensures Entries([n]) == [ReadEntry(n.kind, n.head)] && Entries([]) == []
  {
    assert [n][1..] == [];
  }

  lemma AddressEntry(addr: Address, preferred: word, valid: word)
    ensures var n := AddressNode(addr, preferred, valid);
      n.kind < 0x1_0000 && n.kids == Nil && ReadEntry(n.kind, n.head) == Lease(addr, preferred, valid)
  {
    hide Four, GetFour;
    AddressFields(addr, preferred, valid);
  }

  lemma StatusEntry(code: nat, text: seq<byte>)
    ensures var n := StatusNode(code, text);
      n.kind < 0x1_0000 && n.kids == Nil && ReadEntry(n.kind, n.head) == Status(code % 0x1_0000, text)
  {
    hide Two, GetTwo;
    var b := Two(code) + text;
    TwoAt(b, 0, code);
    assert b[2..] == text;
  }

  /** The whole option: what its fixed fields and the options in it say. */
  lemma AssociationReads(na: bool, iaid: nat, t: (nat, nat), s: seq<Node>)
    requires Plain(s) && t.0 <= INFINITE && t.1 <= INFINITE
    requires |Body(IaNode(na, iaid, t, s))| < 0x1_0000
    ensures var times := if na then t else (0, 0);
      ReadAssociation(NodeBytes(IaNode(na, iaid, t, s)))
      == Some(Association(na, iaid % 0x1_0000_0000, times.0, times.1, Entries(s)))
  {
    hide Walk, Four, GetFour, NodeBytes, Bytes, ToNodes, Entries, ReadEntries, Plain;
    var n := IaNode(na, iaid, t, s);
    var b, kids := Body(n), Bytes(ToNodes(s));
    NodeIs(n);
    WalkNode(n, []);
    assert NodeBytes(n) + [] == NodeBytes(n);
    EntriesRead(s);
    if na {
      assert b[0..4] == Four(iaid) && b[4..8] == Four(t.0) && b[8..12] == Four(t.1) && b[12..] == kids;
      FourRoundTrip(b, 4, t.0);
      FourRoundTrip(b, 8, t.1);
    } else {
      assert b[0..4] == Four(iaid) && b[4..] == kids;
    }
    FourAt(b, iaid);
  }

  function IaNode(na: bool, iaid: nat, t: (nat, nat), s: seq<Node>): Node {
    Node(IaKind(na), Four(iaid) + (if na then Four(t.0) + Four(t.1) else []), ToNodes(s))
  }

  lemma FourAt(b: seq<byte>, v: nat)
    requires |b| >= 4 && b[0..4] == Four(v)
    ensures GetFour(b, 0) == v % 0x1_0000_0000
  {
    hide Two, GetTwo;
    var s := b[0..4];
    assert b[0] == s[0] && b[1] == s[1] && b[2] == s[2] && b[3] == s[3];
    TwoAt(b, 0, v / 0x1_0000);
    TwoAt(b, 2, v);
    var low, middle := v % 0x1_0000, v / 0x1_0000 % 0x1_0000;
    assert v == v / 0x1_0000 / 0x1_0000 * 0x1_0000_0000 + (middle * 0x1_0000 + low);
  }

  // ----- granting -----

  /** What the client should be told of one address: an address with a lease, with its lifetime,
      and to be preferred for as long or not at all; or why there is none. */
  function Told(o: Outcome): seq<Entry> {
    match o
    case Granted(addr, deprecated, host, range, requested, leased) =>
      var time := LeaseTime(host, range, requested);
      if leased then [Lease(addr, if deprecated then 0 else time, time)] else []
    case Refused(code, text) => [Status(code % 0x1_0000, text)]
    case Nothing => []
  }

  function ToldOfAll(os: seq<Outcome>): seq<Entry> {
    if os == [] then [] else ToldOfAll(os[..|os| - 1]) + Told(os[|os| - 1])
  }

  lemma {:induction false} OutcomesTold(os: seq<Outcome>)
    ensures Plain(OutcomesNodes(os)) && Entries(OutcomesNodes(os)) == ToldOfAll(os)
    decreases |os|
  {
    hide Entries, ReadEntry, AddressNode, StatusNode, LeaseTime;
    if os == [] {
      EntryOf(StatusNode(0, []));
    } else {
      var k := |os| - 1;
      OutcomesTold(os[..k]);
      OutcomeTold(os[k]);
      EntriesJoin(OutcomesNodes(os[..k]), OutcomeNodes(os[k]));
    }
  }

  lemma OutcomeTold(o: Outcome)
    ensures Plain(OutcomeNodes(o)) && Entries(OutcomeNodes(o)) == Told(o)
  {
    hide Entries, ReadEntry, AddressNode, StatusNode, LeaseTime;
    EntryOf(StatusNode(0, []));
    match o
    case Granted(addr, deprecated, _, _, _, leased) =>
      if leased {
        AddressEntry(addr, if deprecated then 0 else Lifetime(o), Lifetime(o));
        EntryOf(OutcomeNodes(o)[0]);
      }
    case Refused(code, text) =>
      StatusEntry(code, text);
      EntryOf(StatusNode(code, text));
    case Nothing =>
  }

  /** No address is granted for a shorter time than the i-th. */
  predicate Shortest(os: seq<Outcome>, i: int) {
    && 0 <= i < |os| && os[i].Granted?
    && forall j :: 0 <= j < |os| && os[j].Granted? ==> Lifetime(os[i]) <= Lifetime(os[j])
  }

  /** The least lifetime is that of an address. */
  lemma {:induction false} SomeLeast(os: seq<Outcome>) returns (i: nat)
    requires Assigned(os)
    ensures Shortest(os, i) && Lifetime(os[i]) == LeastTime(os)
    decreases |os|
  {
    hide LeaseTime;
    var k := |os| - 1;
    var before := os[..k];
    LeastGranted(os);
    assert os == before + [os[k]];
    i := k;
    if !Assigned(before) {
      NoneGranted(before);
    } else if !os[k].Granted? || Lifetime(os[k]) != LeastTime(os) {
      i := SomeLeast(before);
    }
  }

  lemma {:induction false} NoneGranted(os: seq<Outcome>)
    requires !Assigned(os)
    ensures LeastTime(os) == INFINITE
    decreases |os|
  {
    if os != [] {
      assert !os[|os| - 1].Granted?;
      assert forall j :: 0 <= j < |os| - 1 ==> os[..|os| - 1][j] == os[j];
      NoneGranted(os[..|os| - 1]);
    }
  }

  /** Renewal times made from a lifetime: half of it and seven eighths, or never. */
  predicate TimesOf(lifetime: nat, t1: nat, t2: nat) {
    if lifetime == INFINITE then t1 == INFINITE && t2 == INFINITE
    else t1 == lifetime / 2 && t2 == lifetime / 8 * 7
  }

  /** A client that walks over the option finds, in order, each granted address that has a lease,
      and each refusal, and last whether any address was assigned; the renewal times are made
      from the shortest lifetime granted. */
  lemma GrantReads(na: bool, iaid: nat, os: seq<Outcome>, texts: (seq<byte>, seq<byte>))
    requires |Body(GrantNode(na, iaid, os, texts))| < 0x1_0000
    ensures ReadAssociation(NodeBytes(GrantNode(na, iaid, os, texts))).Some?
    ensures var a := ReadAssociation(NodeBytes(GrantNode(na, iaid, os, texts))).value;
      var given := exists i :: 0 <= i < |os| && os[i].Granted?;
      && a.na == na && a.iaid == iaid % 0x1_0000_0000
      && a.entries == ToldOfAll(os) + [if given then Status(0, texts.0) else Status(2, texts.1)]
      && (na && given ==> exists i :: Shortest(os, i) && TimesOf(Lifetime(os[i]), a.t1, a.t2))
      && (na && !given ==> a.t1 == 0 && a.t2 == 0)
  {
    hide Entries, LeaseTime, OutcomesNodes, ToldOfAll, ReadAssociation, NodeBytes, Body, LeastTime, Lifetime, ToNodes,
      Four, StatusNode, ReadEntry;
    var given := Assigned(os);
    var t := if given then Times(LeastTime(os)) else (0, 0);
    var last := if given then StatusNode(SUCCESS, texts.0) else StatusNode(NOADDRS, texts.1);
    OutcomesTold(os);
    StatusEntry(SUCCESS, texts.0);
    StatusEntry(NOADDRS, texts.1);
    EntryOf(last);
    EntriesJoin(OutcomesNodes(os), [last]);
    TimesOrdered(LeastTime(os), 0);
    AssociationReads(na, iaid, t, OutcomesNodes(os) + [last]);
    if given {
      var i := SomeLeast(os);
      assert TimesOf(Lifetime(os[i]), t.0, t.1);
    }
  }

  // ----- renewing -----

  /** What the client should be told of an address that it renews: that it lasts, or that it is
      withdrawn. */
  function Renewed(b: Binding): Entry
    requires !b.Missing?
  {
    match b
    case Withdrawn(addr) => Lease(addr, 0, 0)
    case Prolonged(addr, deprecated, host, range, requested) =>
      var time := LeaseTime(host, range, Some(requested));
      Lease(addr, if deprecated then 0 else time, time)
  }

  lemma RenewedEntry(b: Binding)
    requires !b.Missing?
    ensures var n := RenewedAddress(b);
      n.kind < 0x1_0000 && n.kids == Nil && Entries([n]) == [Renewed(b)]
  {
    hide Entries, ReadEntry, AddressNode, LeaseTime;
    AddressEntry(b.addr, if b.Prolonged? && b.deprecated then 0 else NewLifetime(b), NewLifetime(b));
    EntryOf(RenewedAddress(b));
  }

  lemma {:induction false} FoundTold(bs: seq<Binding>)
    requires AllBound(bs)
    ensures Plain(Found(bs)) && |Found(bs)| == |bs|
    ensures var es := Entries(Found(bs)); |es| == |bs| && forall i :: 0 <= i < |bs| ==> es[i] == Renewed(bs[i])
    decreases |bs|
  {
    hide Entries, RenewedAddress, Renewed;
    if bs == [] {
      EntryOf(StatusNode(0, []));
    } else {
      var k := |bs| - 1;
      FoundTold(bs[..k]);
      RenewedEntry(bs[k]);
      EntriesJoin(Found(bs[..k]), [RenewedAddress(bs[k])]);
    }
  }

  /** No address is prolonged for a shorter time than L, and one for just that, if any is. */
  predicate ShortestRenewed(bs: seq<Binding>, L: nat) {
    && (forall j :: 0 <= j < |bs| && bs[j].Prolonged? ==> L <= NewLifetime(bs[j]))
    && (L == INFINITE || exists j :: 0 <= j < |bs| && bs[j].Prolonged? && NewLifetime(bs[j]) == L)
  }

  lemma {:induction false} RenewedLeast(bs: seq<Binding>)
    ensures ShortestRenewed(bs, LeastRenewed(bs))
    decreases |bs|
  {
    hide NewLifetime;
    LeastProlonged(bs);
    if bs != [] {
      var k := |bs| - 1;
      var before := bs[..k];
      RenewedLeast(before);
      if LeastRenewed(bs) != INFINITE && !(bs[k].Prolonged? && NewLifetime(bs[k]) == LeastRenewed(bs)) {
        var j :| 0 <= j < k && before[j].Prolonged? && NewLifetime(before[j]) == LeastRenewed(before);
        assert bs[j] == before[j];
      }
    }
  }

  /** Renewal times made from a lifetime with some fuzz: each is sooner by the same time, at most a
      sixteenth of the lifetime. */
  predicate FuzzyTimesOf(lifetime: nat, fuzz: int, t1: nat, t2: nat) {
    0 <= fuzz <= lifetime / 16
    && if lifetime == INFINITE then t1 == INFINITE && t2 == INFINITE
       else t1 == lifetime / 2 - fuzz && t2 == lifetime / 8 * 7 - fuzz
  }

  lemma FuzzyTimesMade(min: nat, fuzz: nat)
    ensures FuzzyTimesOf(min, Tamed(fuzz, min), FuzzyTimes(min, fuzz).0, FuzzyTimes(min, fuzz).1)
  {
    hide Tamed;
  }

  /** A client that renews finds each of its addresses with its new lifetime, in order; if there
      is no lease for one of them it finds only that. */
  lemma RenewalReads(na: bool, iaid: nat, bs: seq<Binding>, fuzz: nat, text: seq<byte>)
    requires |Body(RenewNode(na, iaid, bs, fuzz, text))| < 0x1_0000
    ensures ReadAssociation(NodeBytes(RenewNode(na, iaid, bs, fuzz, text))).Some?
    ensures var a := ReadAssociation(NodeBytes(RenewNode(na, iaid, bs, fuzz, text))).value;
      && a.na == na && a.iaid == iaid % 0x1_0000_0000
      && (if exists i :: 0 <= i < |bs| && bs[i].Missing? then a.entries == [Status(3, text)] && a.t1 == a.t2 == 0
          else |a.entries| == |bs| && forall i :: 0 <= i < |bs| ==> a.entries[i] == Renewed(bs[i]))
      && (na && (forall i :: 0 <= i < |bs| ==> !bs[i].Missing?) ==>
            exists L, f :: ShortestRenewed(bs, L) && FuzzyTimesOf(L, f, a.t1, a.t2))
  {
    hide Entries, LeaseTime, Found, ReadAssociation, NodeBytes, Body, LeastRenewed, ToNodes, Four, StatusNode,
      ReadEntry, Renewed, FuzzyTimes, ShortestRenewed, FuzzyTimesOf;
    RenewedLeast(bs);
    FuzzyTimesMade(LeastRenewed(bs), fuzz);
    var t := if AllBound(bs) then FuzzyTimes(LeastRenewed(bs), fuzz) else (0, 0);
    var status := StatusNode(NOBINDING, text);
    var s := if AllBound(bs) then Found(bs) else [status];
    StatusEntry(NOBINDING, text);
    EntryOf(status);
    if AllBound(bs) {
      FoundTold(bs);
    }
    TimesOrdered(LeastRenewed(bs), fuzz);
    AssociationReads(na, iaid, t, s);
  }
}
