/** The identity associations of a reply: options inside an option, with the renewal times
    filled in afterwards, or everything inside taken back (rfc3315.c). */
module IaReply {
  import opened BigEndian
  import opened Wrappers
  import opened Options6
  import opened LeaseTimes
  import opened OutPacket

  const IA_NA: nat := 3
  const IA_TA: nat := 4
  const IAADDR: nat := 5
  const STATUS_CODE: nat := 13
  const SUCCESS: nat := 0
  const NOADDRS: nat := 2
  const NOBINDING: nat := 3

  type Address = a: seq<byte> | |a| == 16 witness [0, 0, 0, 0, 0, 0, 0, 0, 0, 0, 0, 0, 0, 0, 0, 0]

  // ----- lists of options -----

  function ToNodes(s: seq<Node>): Nodes {
    if s == [] then Nil else Cons(s[0], ToNodes(s[1..]))
  }

  lemma {:induction false} BytesAppend(s: seq<Node>, n: Node)
    ensures Bytes(ToNodes(s + [n])) == Bytes(ToNodes(s)) + NodeBytes(n)
    decreases |s|
  {
    hide NodeBytes;
    if s == [] {
      assert s + [n] == [n] && [n][1..] == [];
      assert ToNodes([n]) == Cons(n, ToNodes([]));
      assert Bytes(ToNodes([n])) == NodeBytes(n) + Bytes(Nil);
    } else {
      assert (s + [n])[1..] == s[1..] + [n];
      BytesAppend(s[1..], n);
    }
  }

  function StatusNode(code: nat, text: seq<byte>): Node {
    Node(STATUS_CODE, Two(code) + text, Nil)
  }

  function AddressNode(addr: Address, preferred: nat, valid: nat): Node {
    Node(IAADDR, addr + (Four(preferred) + Four(valid)), Nil)
  }

  // ----- granting -----

  /** What comes of one address asked for: an address, for which a time may be asked for and
      which counts for the renewal times but is put only if there is a lease; a refusal; or
      nothing. */
  datatype Outcome =
    | Granted(addr: Address, deprecated: bool, host: Setting, range: Setting, requested: Option<word>, leased: bool)
    | Refused(code: nat, text: seq<byte>)
    | Nothing

  function Lifetime(o: Outcome): word
    requires o.Granted?
  {
    LeaseTime(o.host, o.range, o.requested)
  }

  function OutcomeNodes(o: Outcome): seq<Node> {
    match o
    case Granted(addr, deprecated, _, _, _, leased) =>
      if leased then [AddressNode(addr, if deprecated then 0 else Lifetime(o), Lifetime(o))] else []
    case Refused(code, text) => [StatusNode(code, text)]
    case Nothing => []
  }

  function OutcomesNodes(os: seq<Outcome>): seq<Node> {
    if os == [] then [] else OutcomesNodes(os[..|os| - 1]) + OutcomeNodes(os[|os| - 1])
  }

  predicate Assigned(os: seq<Outcome>) {
    exists i :: 0 <= i < |os| && os[i].Granted?
  }

  function LeastTime(os: seq<Outcome>): word {
    if os == [] then INFINITE
    else
      var last := os[|os| - 1];
      var before := LeastTime(os[..|os| - 1]);
      if last.Granted? then Least(before, Lifetime(last)) else before
  }

  /** The option that grants addresses. Without any the times stay zero. */
  function GrantNode(na: bool, iaid: nat, os: seq<Outcome>, texts: (seq<byte>, seq<byte>)): Node {
    var t := if Assigned(os) then Times(LeastTime(os)) else (0, 0);
    Node(if na then IA_NA else IA_TA,
         Four(iaid) + (if na then Four(t.0) + Four(t.1) else []),
         ToNodes(OutcomesNodes(os)
                 + [if Assigned(os) then StatusNode(SUCCESS, texts.0) else StatusNode(NOADDRS, texts.1)]))
  }

  /** One address; the least lease time is kept on the way. */
  method PutOutcome(p: Packet, o: Outcome, min: nat) returns (least: nat)
    requires p.Valid()
    modifies p
    ensures p.Valid() && p.Contents() == old(p.Contents()) + Bytes(ToNodes(OutcomeNodes(o)))
    ensures least == if o.Granted? then Least(min, Lifetime(o)) else min
  {
    hide NodeBytes, AddressNode, StatusNode, LeaseTime;
    SingleBytes(o);
    least := min;
    match o
    case Granted(addr, deprecated, host, range, requested, leased) =>
      var time := ChooseTime(host, range, requested);
      if time < min {
        least := time;
      }
      if leased {
        p.EmitNode(AddressNode(addr, if deprecated then 0 else time, time));
      }
    case Refused(code, text) => p.EmitNode(StatusNode(code, text));
    case Nothing =>
  }

  lemma SingleBytes(o: Outcome)
    ensures Bytes(ToNodes(OutcomeNodes(o))) == if OutcomeNodes(o) == [] then [] else NodeBytes(OutcomeNodes(o)[0])
  {
    hide NodeBytes, AddressNode, StatusNode;
    var s := OutcomeNodes(o);
    if s != [] {
      assert s == [] + [s[0]];
      BytesAppend([], s[0]);
      NoNodes();
    }
  }

  lemma NoNodes()
    ensures Bytes(ToNodes([])) == []
  {
  }

  lemma OutcomeStep(os: seq<Outcome>, i: nat)
    requires i < |os|
    ensures OutcomesNodes(os[..i + 1]) == OutcomesNodes(os[..i]) + OutcomeNodes(os[i])
    ensures Bytes(ToNodes(OutcomesNodes(os[..i + 1])))
         == Bytes(ToNodes(OutcomesNodes(os[..i]))) + Bytes(ToNodes(OutcomeNodes(os[i])))
    ensures LeastTime(os[..i + 1]) ==
      if os[i].Granted? then Least(LeastTime(os[..i]), Lifetime(os[i])) else LeastTime(os[..i])
    ensures Assigned(os[..i + 1]) <==> Assigned(os[..i]) || os[i].Granted?
  {
    hide Bytes, ToNodes, Least;
    assert os[..i + 1][..i] == os[..i];
    NoNodes();
    SingleBytes(os[i]);
    var s := OutcomesNodes(os[..i]);
    if OutcomeNodes(os[i]) != [] {
      BytesAppend(s, OutcomeNodes(os[i])[0]);
      assert OutcomeNodes(os[i]) == [OutcomeNodes(os[i])[0]];
    } else {
      assert s + [] == s;
    }
    assert forall j :: 0 <= j < i ==> os[..i][j] == os[..i + 1][j];
    if Assigned(os[..i + 1]) && !os[i].Granted? {
      var j :| 0 <= j < i + 1 && os[..i + 1][j].Granted?;
      assert os[..i][j].Granted?;
    }
    if os[i].Granted? {
      assert os[..i + 1][i].Granted?;
    }
  }

  function IaKind(na: bool): nat {
    if na then IA_NA else IA_TA
  }

  /** The bytes of an open identity association up to the options in it. */
  function IaOpen(na: bool, iaid: nat, t: (nat, nat)): seq<byte> {
    Two(IaKind(na)) + Two(0) + (Four(iaid) + if na then Four(t.0) + Four(t.1) else [])
  }

  method OpenIa(p: Packet, na: bool, iaid: nat) returns (o: nat, times: nat)
    requires p.Valid()
    modifies p
    ensures p.Valid() && p.Contents() == old(p.Contents()) + IaOpen(na, iaid, (0, 0))
    ensures o == |old(p.Contents())| && times == if na then o + 8 else 0
  {
    hide Four;
    o := p.NewOpt6(IaKind(na));
    p.Put(Four(iaid));
    times := 0;
    if na {
      times := p.SaveCounter(None);
      p.Put(Four(0));
      p.Put(Four(0));
    }
  }

  /** Going back for the times. */
  method FillTimes(p: Packet, ghost before: seq<byte>, iaid: nat, t: (nat, nat), ghost kids: seq<byte>, times: nat)
    requires p.Valid() && p.Contents() == before + IaOpen(true, iaid, (0, 0)) + kids && times == |before| + 8
    modifies p
    ensures p.Valid() && p.Contents() == before + IaOpen(true, iaid, t) + kids
  {
    hide Four;
    ghost var now := p.Contents();
    assert now == before + (Two(IA_NA) + Two(0)) + Four(iaid) + Four(0) + Four(0) + kids;
    TimesFit(before, Two(IA_NA) + Two(0), Four(iaid), kids, Four(t.0) + Four(t.1), now);
    p.PatchAt(times, Four(t.0) + Four(t.1));
  }

  method CloseIa(p: Packet, ghost before: seq<byte>, na: bool, iaid: nat, ghost t: (nat, nat), ghost kids: Nodes,
      o: nat)
    requires p.Valid() && p.Contents() == before + IaOpen(na, iaid, t) + Bytes(kids) && o == |before|
    modifies p
    ensures p.Valid()
    ensures var n := Node(IaKind(na), Four(iaid) + (if na then Four(t.0) + Four(t.1) else []), kids);
      p.Contents() == before + NodeBytes(n)
  {
    hide Four, Bytes, NodeBytes;
    ghost var n := Node(IaKind(na), Four(iaid) + (if na then Four(t.0) + Four(t.1) else []), kids);
    NodeIs(n);
    HeadFirst(before, Two(n.kind) + Two(0), n.head, Bytes(kids), p.Contents());
    Close(before, n.kind, Body(n), p.Contents());
    p.EndOpt6(o);
  }

  method PutOutcomes(p: Packet, os: seq<Outcome>) returns (given: bool, min: nat)
    requires p.Valid()
    modifies p
    ensures p.Valid() && p.Contents() == old(p.Contents()) + Bytes(ToNodes(OutcomesNodes(os)))
    ensures given == Assigned(os) && min == LeastTime(os)
  {
    hide Bytes, ToNodes, OutcomesNodes, LeastTime, Assigned;
    given, min := false, INFINITE;
    NothingYet(os);
    var i := 0;
    while i < |os|
      invariant p.Valid() && i <= |os|
      invariant p.Contents() == old(p.Contents()) + Bytes(ToNodes(OutcomesNodes(os[..i])))
      invariant given == Assigned(os[..i]) && min == LeastTime(os[..i])
    {
      OutcomeStep(os, i);
      min := PutOutcome(p, os[i], min);
      given := given || os[i].Granted?;
      i := i + 1;
    }
    assert os[..i] == os;
  }

  /** SOLICIT and REQUEST: the times are put as zeros and filled in at the end, when the least
      lease time is known. */
  method PutGrant(p: Packet, na: bool, iaid: nat, os: seq<Outcome>, texts: (seq<byte>, seq<byte>))
    requires p.Valid()
    modifies p
    ensures p.Valid() && p.Contents() == old(p.Contents()) + NodeBytes(GrantNode(na, iaid, os, texts))
  {
    hide Bytes, ToNodes, OutcomesNodes, NodeBytes, LeastTime, Assigned, Times, IaOpen, StatusNode;
    ghost var before := p.Contents();
    var o, times := OpenIa(p, na, iaid);
    ghost var base := p.Contents();
    var given, min := PutOutcomes(p, os);
    var status := if given then StatusNode(SUCCESS, texts.0) else StatusNode(NOADDRS, texts.1);
    BytesAppend(OutcomesNodes(os), status);
    p.EmitNode(status);
    ghost var kids := ToNodes(OutcomesNodes(os) + [status]);
    assert p.Contents() == base + Bytes(kids);
    var t := if given then Times(min) else (0, 0);
    if given && na {
      FillTimes(p, before, iaid, t, Bytes(kids), times);
    } else {
      NoTimes(na, iaid, t);
    }
    CloseIa(p, before, na, iaid, t, kids, o);
  }

  /** Without times, or with none to fill in, the option is as it was opened. */
  lemma NoTimes(na: bool, iaid: nat, t: (nat, nat))
    requires na ==> t == (0, 0)
    ensures IaOpen(na, iaid, t) == IaOpen(na, iaid, (0, 0))
  {
  }

  lemma NothingYet(os: seq<Outcome>)
    ensures Bytes(ToNodes(OutcomesNodes(os[..0]))) == [] && !Assigned(os[..0]) && LeastTime(os[..0]) == INFINITE
  {
  }

  lemma NodeIs(n: Node)
    ensures NodeBytes(n) == Two(n.kind) + Two(|Body(n)|) + Body(n) && Body(n) == n.head + Bytes(n.kids)
  {
  }

  /** Writing the times over the zeros. */
  lemma TimesFit(before: seq<byte>, start: seq<byte>, iaid: seq<byte>, kids: seq<byte>, t: seq<byte>, now: seq<byte>)
    requires |start| == 4 && |iaid| == 4 && |t| == 8
    requires now == before + start + iaid + Four(0) + Four(0) + kids
    ensures |before| + 16 <= |now|
    ensures now[..|before| + 8] + t + now[|before| + 16..] == before + start + iaid + t + kids
  {
    hide Four;
    assert now[..|before| + 8] == before + start + iaid;
    assert now[|before| + 16..] == kids;
  }

  lemma HeadFirst(before: seq<byte>, start: seq<byte>, head: seq<byte>, kids: seq<byte>, now: seq<byte>)
    requires now == before + start + head + kids
    ensures now == before + start + (head + kids)
  {
  }

  // ----- renewing -----

  /** What a renewal finds of one address: no lease; one whose address is no longer given out,
      which is withdrawn; or one that is prolonged. */
  datatype Binding =
    | Missing
    | Withdrawn(addr: Address)
    | Prolonged(addr: Address, deprecated: bool, host: Setting, range: Setting, requested: word)

  function NewLifetime(b: Binding): word
    requires !b.Missing?
  {
    if b.Withdrawn? then 0 else LeaseTime(b.host, b.range, Some(b.requested))
  }

  function RenewedAddress(b: Binding): Node
    requires !b.Missing?
  {
    AddressNode(b.addr, if b.Prolonged? && b.deprecated then 0 else NewLifetime(b), NewLifetime(b))
  }

  /** The bindings before the first that is missing. */
  function Found(bs: seq<Binding>): seq<Node> {
    if bs == [] then []
    else
      var last := bs[|bs| - 1];
      Found(bs[..|bs| - 1]) + (if last.Missing? then [] else [RenewedAddress(last)])
  }

  /** A withdrawn address does not count. */
  function LeastRenewed(bs: seq<Binding>): word {
    if bs == [] then INFINITE
    else
      var last := bs[|bs| - 1];
      var before := LeastRenewed(bs[..|bs| - 1]);
      if last.Prolonged? then Least(before, NewLifetime(last)) else before
  }

  predicate AllBound(bs: seq<Binding>) {
    forall i :: 0 <= i < |bs| ==> !bs[i].Missing?
  }

  /** The option that renews addresses. If a lease is missing, nothing but that is said. */
  function RenewNode(na: bool, iaid: nat, bs: seq<Binding>, fuzz: nat, text: seq<byte>): Node {
    var t := if AllBound(bs) then FuzzyTimes(LeastRenewed(bs), fuzz) else (0, 0);
    Node(if na then IA_NA else IA_TA,
         Four(iaid) + (if na then Four(t.0) + Four(t.1) else []),
         ToNodes(if AllBound(bs) then Found(bs) else [StatusNode(NOBINDING, text)]))
  }

  lemma FoundStep(bs: seq<Binding>, i: nat)
    requires i < |bs| && !bs[i].Missing?
    ensures Bytes(ToNodes(Found(bs[..i + 1]))) == Bytes(ToNodes(Found(bs[..i]))) + NodeBytes(RenewedAddress(bs[i]))
    ensures LeastRenewed(bs[..i + 1]) ==
      if bs[i].Prolonged? then Least(LeastRenewed(bs[..i]), NewLifetime(bs[i])) else LeastRenewed(bs[..i])
    ensures AllBound(bs[..i]) ==> AllBound(bs[..i + 1])
  {
    hide Bytes, ToNodes, Least, NodeBytes;
    assert bs[..i + 1][..i] == bs[..i];
    BytesAppend(Found(bs[..i]), RenewedAddress(bs[i]));
  }

  method PutBinding(p: Packet, b: Binding, min: nat) returns (least: nat)
    requires p.Valid() && !b.Missing?
    modifies p
    ensures p.Valid() && p.Contents() == old(p.Contents()) + NodeBytes(RenewedAddress(b))
    ensures least == if b.Prolonged? then Least(min, NewLifetime(b)) else min
  {
    hide NodeBytes, AddressNode, LeaseTime;
    var time: word := 0;
    least := min;
    if b.Prolonged? {
      time := ChooseTime(b.host, b.range, Some(b.requested));
      if time < min {
        least := time;
      }
    }
    p.EmitNode(AddressNode(b.addr, if b.Prolonged? && b.deprecated then 0 else time, time));
  }

  /** The addresses of a renewal; at the first missing lease the packet is set back to where
      they start. */
  method PutBindings(p: Packet, bs: seq<Binding>, text: seq<byte>) returns (found: bool, min: nat)
    requires p.Valid()
    modifies p
    ensures p.Valid() && found == AllBound(bs) && (found ==> min == LeastRenewed(bs))
    ensures p.Contents()
         == old(p.Contents()) + Bytes(ToNodes(if AllBound(bs) then Found(bs) else [StatusNode(NOBINDING, text)]))
  {
    hide Bytes, ToNodes, Found, NodeBytes, LeastRenewed, StatusNode, RenewedAddress, NewLifetime;
    var mark := p.SaveCounter(None);
    ghost var base := p.Contents();
    found, min := true, INFINITE;
    NoneFound(bs);
    var i := 0;
    while i < |bs|
      invariant p.Valid() && i <= |bs| && found
      invariant p.Contents() == base + Bytes(ToNodes(Found(bs[..i])))
      invariant AllBound(bs[..i]) && min == LeastRenewed(bs[..i])
    {
      if bs[i].Missing? {
        assert p.Contents()[..mark] == base;
        var _ := p.SaveCounter(Some(mark));
        assert p.Contents() == base;
        p.EmitNode(StatusNode(NOBINDING, text));
        NotAllBound(bs, i, StatusNode(NOBINDING, text));
        return false, min;
      }
      FoundStep(bs, i);
      min := PutBinding(p, bs[i], min);
      i := i + 1;
    }
    assert bs[..i] == bs;
  }

  /** RENEW: the times are filled in unless the addresses were taken back. */
  method PutRenewal(p: Packet, na: bool, iaid: nat, bs: seq<Binding>, fuzz: nat, text: seq<byte>)
    requires p.Valid()
    modifies p
    ensures p.Valid() && p.Contents() == old(p.Contents()) + NodeBytes(RenewNode(na, iaid, bs, fuzz, text))
  {
    hide Bytes, ToNodes, Found, NodeBytes, LeastRenewed, FuzzyTimes, IaOpen, StatusNode, AllBound;
    ghost var before := p.Contents();
    var o, times := OpenIa(p, na, iaid);
    var found, min := PutBindings(p, bs, text);
    ghost var kids := ToNodes(if AllBound(bs) then Found(bs) else [StatusNode(NOBINDING, text)]);
    var t := if found then FuzzyTimes(min, fuzz) else (0, 0);
    if found && times != 0 {
      FillTimes(p, before, iaid, t, Bytes(kids), times);
    } else {
      NoTimes(na, iaid, t);
    }
    CloseIa(p, before, na, iaid, t, kids, o);
  }

  lemma NoneFound(bs: seq<Binding>)
    ensures Bytes(ToNodes(Found(bs[..0]))) == [] && LeastRenewed(bs[..0]) == INFINITE && AllBound(bs[..0])
  {
  }

  lemma NotAllBound(bs: seq<Binding>, i: nat, status: Node)
    requires i < |bs| && bs[i].Missing?
    ensures !AllBound(bs) && Bytes(ToNodes([status])) == NodeBytes(status)
  {
    hide NodeBytes;
    BytesAppend([], status);
    assert [] + [status] == [status];
    NoNodes();
  }
}
