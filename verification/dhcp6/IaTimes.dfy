/** The renewal times of an identity association against the lifetimes of its addresses, as they
    stand in the option. */
module IaTimes {
  import opened BigEndian
  import opened Wrappers
  import opened Options6
  import opened LeaseTimes
  import opened IaReply

  /** The options inside an option. */
  function Inside(ns: Nodes): seq<Node> {
    match ns
    case Nil => []
    case Cons(n, rest) => [n] + Inside(rest)
  }

  lemma {:induction false} InsideNodes(s: seq<Node>)
    ensures Inside(ToNodes(s)) == s
    decreases |s|
  {
    if s != [] {
      InsideNodes(s[1..]);
    }
  }

  function T1(ia: Node): nat
    requires |ia.head| == 12
  {
    GetFour(ia.head, 4)
  }

  function T2(ia: Node): nat
    requires |ia.head| == 12
  {
    GetFour(ia.head, 8)
  }

  function Preferred(address: Node): nat
    requires |address.head| == 24
  {
    GetFour(address.head, 16)
  }

  function Valid(address: Node): nat
    requires |address.head| == 24
  {
    GetFour(address.head, 20)
  }

  lemma AddressFields(addr: Address, preferred: word, valid: word)
    ensures var n := AddressNode(addr, preferred, valid);
      n.kind == IAADDR && |n.head| == 24 && Preferred(n) == preferred && Valid(n) == valid
  {
    hide Four, GetFour;
    var n := AddressNode(addr, preferred, valid);
    assert n.head[16..20] == Four(preferred) && n.head[20..24] == Four(valid);
    FourRoundTrip(n.head, 16, preferred);
    FourRoundTrip(n.head, 20, valid);
  }

  lemma TimeFields(ia: Node, iaid: nat, t: (nat, nat))
    requires ia.head == Four(iaid) + (Four(t.0) + Four(t.1)) && t.0 <= INFINITE && t.1 <= INFINITE
    ensures |ia.head| == 12 && T1(ia) == t.0 && T2(ia) == t.1
  {
    hide Four, GetFour;
    assert ia.head[4..8] == Four(t.0) && ia.head[8..12] == Four(t.1);
    FourRoundTrip(ia.head, 4, t.0);
    FourRoundTrip(ia.head, 8, t.1);
  }

  /** The renewal times are in order and not after the end of any address's lifetime. */
  ghost predicate InTime(ia: Node, withdrawn: bool) {
    && |ia.head| == 12 && T1(ia) <= T2(ia)
    && forall n :: n in Inside(ia.kids) && n.kind == IAADDR ==>
         |n.head| == 24 && (T2(ia) <= Valid(n) || (withdrawn && Valid(n) == 0)) && Preferred(n) <= Valid(n)
  }

  // ----- granting -----

  lemma {:induction false} LeastGranted(os: seq<Outcome>)
    ensures SHORTEST <= LeastTime(os)
    ensures forall i :: 0 <= i < |os| && os[i].Granted? ==> LeastTime(os) <= Lifetime(os[i])
    ensures forall n :: n in OutcomesNodes(os) && n.kind == IAADDR ==>
      |n.head| == 24 && LeastTime(os) <= Valid(n) && Preferred(n) <= Valid(n)
    decreases |os|
  {
    hide AddressNode, StatusNode, LeaseTime, Valid, Preferred;
    if os != [] {
      var k := |os| - 1;
      LeastGranted(os[..k]);
      GrantedAddress(os[k]);
      assert forall i :: 0 <= i < k ==> os[..k][i] == os[i];
    }
  }

  lemma GrantedAddress(o: Outcome)
    ensures forall n :: n in OutcomeNodes(o) && n.kind == IAADDR ==>
      o.Granted? && |n.head| == 24 && Valid(n) == Lifetime(o) && Preferred(n) <= Valid(n)
  {
    hide LeaseTime, Valid, Preferred;
    if o.Granted? {
      AddressFields(o.addr, if o.deprecated then 0 else Lifetime(o), Lifetime(o));
    }
  }

  /** Whatever is configured and asked for: of an association with addresses, T1 is not after T2
      and T2 not after the end of any lifetime granted; without addresses both are zero. */
  lemma GrantedTimes(iaid: nat, os: seq<Outcome>, texts: (seq<byte>, seq<byte>))
    ensures var ia := GrantNode(true, iaid, os, texts);
      && InTime(ia, false)
      && (Assigned(os) ==> forall i :: 0 <= i < |os| && os[i].Granted? ==> T2(ia) <= Lifetime(os[i]))
      && (!Assigned(os) ==> T1(ia) == T2(ia) == 0)
  {
    hide OutcomesNodes, LeastTime, Lifetime, T1, T2, Valid, Preferred, Four, Times, Assigned;
    var ia := GrantNode(true, iaid, os, texts);
    var t := if Assigned(os) then Times(LeastTime(os)) else (0, 0);
    LeastGranted(os);
    TimesOrdered(LeastTime(os), 0);
    TimeFields(ia, iaid, t);
    InsideNodes(OutcomesNodes(os)
                + [if Assigned(os) then StatusNode(SUCCESS, texts.0) else StatusNode(NOADDRS, texts.1)]);
  }

  // ----- renewing -----

  lemma {:induction false} LeastProlonged(bs: seq<Binding>)
    ensures SHORTEST <= LeastRenewed(bs)
    ensures forall i :: 0 <= i < |bs| && bs[i].Prolonged? ==> LeastRenewed(bs) <= NewLifetime(bs[i])
    ensures forall n :: n in Found(bs) ==>
      |n.head| == 24 && (LeastRenewed(bs) <= Valid(n) || Valid(n) == 0) && Preferred(n) <= Valid(n)
    decreases |bs|
  {
    hide AddressNode, LeaseTime, Valid, Preferred;
    if bs != [] {
      var k := |bs| - 1;
      LeastProlonged(bs[..k]);
      if !bs[k].Missing? {
        var b := bs[k];
        AddressFields(b.addr, if b.Prolonged? && b.deprecated then 0 else NewLifetime(b), NewLifetime(b));
      }
      assert forall i :: 0 <= i < k ==> bs[..k][i] == bs[i];
    }
  }

  /** The same of a renewal with any fuzz, apart from addresses that are withdrawn. */
  lemma RenewedTimes(iaid: nat, bs: seq<Binding>, fuzz: nat, text: seq<byte>)
    ensures var ia := RenewNode(true, iaid, bs, fuzz, text);
      && InTime(ia, true)
      && (AllBound(bs) ==> forall i :: 0 <= i < |bs| && bs[i].Prolonged? ==> T2(ia) <= NewLifetime(bs[i]))
      && (!AllBound(bs) ==> T1(ia) == T2(ia) == 0)
  {
    hide Found, LeastRenewed, NewLifetime, T1, T2, Valid, Preferred, Four, FuzzyTimes, AllBound;
    var ia := RenewNode(true, iaid, bs, fuzz, text);
    var t := if AllBound(bs) then FuzzyTimes(LeastRenewed(bs), fuzz) else (0, 0);
    LeastProlonged(bs);
    TimesOrdered(LeastRenewed(bs), fuzz);
    TimeFields(ia, iaid, t);
    InsideNodes(if AllBound(bs) then Found(bs) else [StatusNode(NOBINDING, text)]);
  }
}
