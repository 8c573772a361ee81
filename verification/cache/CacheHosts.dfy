/** What a new hosts or DHCP record changes, and that the lookups answer it. */
module CacheHosts {
  import opened Sequences
  import opened CacheState
  import opened CacheSteps
  import opened CacheLookup
  import opened CacheReverse
  import opened CacheInsert
  import opened CacheBatch
  import opened CacheTable

  /** The record is new, stands in the chain of its name and in no other, and all else is as it was. */
  lemma AddHostEffect(s: State, a: Attr)
    requires Valid(s) && HostRecord(s, a)
    ensures InRange(s) && |s.chains| > 0
    ensures var x, s' := |s.attr|, AddHost(s, a);
      && s'.attr == s.attr + [a] && s'.gen == s.gen + [0] && s'.linkGen == s.linkGen + [0]
      && s' == s.(attr := s'.attr, gen := s'.gen, linkGen := s'.linkGen, chains := s'.chains)
      && |s'.chains| == |s.chains|
      && (forall b, y :: 0 <= b < |s.chains| ==>
            (y in s'.chains[b] <==> y in s.chains[b] || (y == x && b == Bucket(s.mix, a.name, |s.chains|))))
      && (forall b, y :: 0 <= b < |s.chains| && y in s.chains[b] ==> y < x)
  {
    hide Valid, Bucket;
    assert Inv(s) by { ValidInv(s); }
    InvInRange(s);
    InvPending(s);
    NewHostKeepsValid(s, a);
    var s1 := NewHost(s, a);
    ValidInv(s1);
    InvInRange(s1);
    var h := Bucket(s.mix, a.name, |s.chains|);
    InsertAtMembers(s.chains[h], HashPos(s1.attr, s.chains[h], a.flags), |s.attr|);
  }

  lemma InsertAtMembers(c: seq<nat>, p: nat, x: nat)
    requires p <= |c|
    ensures forall y :: y in InsertAt(c, p, x) <==> y in c || y == x
  {
    var r := InsertAt(c, p, x);
    InsertAtHolds(c, p, x);
    forall y | y in r ensures y in c || y == x {
      var i :| 0 <= i < |r| && r[i] == y;
      assert i == p || c[if i < p then i else i - 1] == y;
    }
  }

  /** A host's CNAME never dies by a record that the same scan frees. */
  lemma LiveHostNotDead(s: State, c: seq<nat>, k: nat, now: int)
    requires Inv(s) && ChainInRange(s, c) && k < |c| && s.size <= c[k] && Live(s.attr, c[k], now)
    ensures !Dead(s, c, k, now)
  {
  }

  /** The next lookup by its name answers a new record that is live. */
  lemma NewHostIsNamed(s: State, a: Attr, name: string, now: int, prot: Flags)
    requires Valid(s) && HostRecord(s, a) && NameMatch(a, name, prot)
    ensures InRange(s) && |s.chains| > 0 && InRange(AddHost(s, a)) && |AddHost(s, a).chains| == |s.chains|
    ensures var s' := AddHost(s, a);
      Live(s'.attr, |s.attr|, now) ==>
        |s.attr| in SweepName(StartCursor(s'), Bucket(s.mix, name, |s.chains|), name, now, prot).hosts
  {
    hide Valid, Inv, AddHost, NameMatch, Bucket, Live, SweepName;
    var x := |s.attr|;
    AddHostEffect(s, a);
    AddHostKeepsValid(s, a);
    var s' := AddHost(s, a);
    LookupByNameExact(s', name, now, prot);
    NamesBucket(s.mix, a, name, prot, |s.chains|);
    var b := Bucket(s.mix, name, |s.chains|);
    var c := s'.chains[b];
    assert x in s'.chains[b];
    var k :| 0 <= k < |c| && c[k] == x;
    if Live(s'.attr, x, now) {
      ValidInv(s');
      ValidInv(s);
      InvSizes(s);
      LiveHostNotDead(s', c, k, now);
      FoundElements(s', c, |c|, name, now, prot);
      HostElements(s', Found(s', c, |c|, name, now, prot));
    }
  }

  lemma NamesBucket(mix: string -> nat, a: Attr, name: string, prot: Flags, n: nat)
    requires n > 0 && NameMatch(a, name, prot)
    ensures Bucket(mix, a.name, n) == Bucket(mix, name, n)
  {
  }

  /** The next lookup by its address answers a new reverse record that has not expired. */
  lemma NewHostIsAddressed(s: State, a: Attr, addr: Addr, now: int, prot: Flags)
    requires Valid(s) && HostRecord(s, a) && AddrMatch(a, addr, prot) && !Expired(a, now)
    ensures InRange(s) && |s.chains| > 0 && InRange(AddHost(s, a))
    ensures |s.attr| in SweepAddr(StartCursor(AddHost(s, a)), 0, addr, now, prot).hosts
  {
    hide Valid, Inv, AddHost, AddrMatch, Bucket, Expired, SweepAddr, AllMatching;
    AddHostEffect(s, a);
    AddHostKeepsValid(s, a);
    var s' := AddHost(s, a);
    assert |s.attr| in s'.chains[Bucket(s.mix, a.name, |s.chains|)];
    LookupByAddrExact(s', addr, now, prot);
    AllMatchingElements(s', |s'.chains|, addr, now, prot);
    ValidInv(s);
    InvSizes(s);
    HostElements(s', AllMatching(s', |s'.chains|, addr, now, prot));
  }
}
