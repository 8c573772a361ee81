/** The DNS cache as a value: what the records hold, and in which order the three kinds of list visit them. */
module CacheState {
  import opened BigEndian
  import opened HostNames
  import opened Sequences

  /** Record flags; only the ones the cache itself looks at or sets. */
  datatype Flag =
    | Immortal | Reverse | Forward | Dhcp | Neg | Hosts
    | IPv4 | IPv6 | BigName | NxDomain | Cname | NameP | Config

  type Flags = set<Flag>

  type Addr = a: seq<byte> | |a| == 16 witness seq(16, _ => 0)

  const NIL := -1
  const SMALLDNAME := 40

  /** The part of a record that is not a link. `target` and `targetUid` are the CNAME member of the address union. */
  datatype Attr = Attr(flags: Flags, uid: int, ttd: int, name: string, addr: Addr, target: int, targetUid: int)

  /** Records 0..size are the cache's own; later ones come from hosts files and DHCP.
      `gen` counts how often a record was freed and `linkGen` keeps the target's count at the time a CNAME was linked:
      the program has neither, they only state what an incarnation is. */
  datatype State = State(
    size: nat, mix: string -> nat,
    attr: seq<Attr>, lru: seq<nat>, pending: seq<nat>, chains: seq<seq<nat>>,
    uid: int, bigFree: nat, bigLeft: nat, gen: seq<nat>, linkGen: seq<nat>)

  function Lower(s: string): (r: string)
    ensures |r| == |s|
    ensures forall i :: 0 <= i < |s| ==> r[i] == LowerChar(s[i])
  {
    seq(|s|, i requires 0 <= i < |s| => LowerChar(s[i]))
  }

  predicate SameName(a: string, b: string) {
    Lower(a) == Lower(b)
  }

  function Bucket(mix: string -> nat, name: string, buckets: nat): (b: nat)
    requires buckets > 0
    ensures b < buckets
  {
    mix(Lower(name)) % buckets
  }

  predicate Meets(a: Flags, b: Flags) {
    a * b != {}
  }

  predicate InUse(a: Attr) {
    Forward in a.flags || Reverse in a.flags
  }

  predicate IsHost(a: Attr) {
    Hosts in a.flags || Dhcp in a.flags
  }

  /** The order classes of a hash chain: reverse, other, immortal. */
  function Rank(f: Flags): nat {
    if Reverse in f then 0 else if Immortal in f then 2 else 1
  }

  predicate Expired(a: Attr, now: int) {
    Immortal !in a.flags && now - a.ttd >= 0
  }

  predicate Outdated(attr: seq<Attr>, x: nat)
    requires x < |attr|
  {
    Cname in attr[x].flags &&
    !(0 <= attr[x].target < |attr| &&
      Meets(attr[attr[x].target].flags, {IPv4, IPv6}) &&
      attr[x].targetUid == attr[attr[x].target].uid)
  }

  predicate Live(attr: seq<Attr>, x: nat, now: int)
    requires x < |attr|
  {
    !Expired(attr[x], now) && !Outdated(attr, x)
  }

  /** What callers of the insertion code put into `flags`. */
  predicate WellFlagged(f: Flags) {
    && (Forward in f <==> Reverse !in f)
    && (Forward in f ==> Meets(f, {IPv4, IPv6, Cname}))
    && (Reverse in f ==> Meets(f, {IPv4, IPv6}))
    && f !! {Hosts, Dhcp, Immortal}
  }

  // ---------- the joint invariant, one clause a predicate ----------

  ghost predicate Sized(s: State) {
    && s.size <= |s.attr| && |s.gen| == |s.attr| && |s.linkGen| == |s.attr|
    && |s.chains| > 0
  }

  /** The cache's own records split exactly into the LRU list and the pending batch. */
  ghost predicate Partitioned(s: State) {
    Split(s.size, s.lru, s.pending)
  }

  ghost predicate Split(size: nat, lru: seq<nat>, pending: seq<nat>) {
    && Distinct(lru) && Distinct(pending)
    && (forall i :: 0 <= i < |lru| ==> lru[i] < size && lru[i] !in pending)
    && (forall i :: 0 <= i < |pending| ==> pending[i] < size)
    && (forall x :: 0 <= x < size ==> x in lru || x in pending)
  }

  /** No free record stands before one in use. */
  ghost predicate UsedFirst(s: State)
    requires Sized(s) && Partitioned(s)
  {
    UsedBeforeFree(s.attr, s.lru)
  }

  ghost predicate UsedBeforeFree(attr: seq<Attr>, q: seq<nat>)
    requires forall i :: 0 <= i < |q| ==> q[i] < |attr|
  {
    forall i, j :: 0 <= i < j < |q| && InUse(attr[q[j]]) ==> InUse(attr[q[i]])
  }

  ghost predicate Flagged(s: State)
    requires Sized(s) && Partitioned(s)
  {
    && (forall x :: 0 <= x < s.size ==> s.attr[x].flags !! {Hosts, Dhcp, Immortal})
    && (forall x :: 0 <= x < s.size && InUse(s.attr[x]) ==> WellFlagged(s.attr[x].flags))
    && (forall i :: 0 <= i < |s.pending| ==> InUse(s.attr[s.pending[i]]))
    && (forall x :: s.size <= x < |s.attr| ==>
          IsHost(s.attr[x]) && (Cname in s.attr[x].flags ==> s.attr[x].target < 0 || s.attr[x].target >= s.size))
  }

  /** A record in bucket `b` is in use, belongs there and, if it is the cache's own, is in the LRU list. */
  ghost predicate MayHash(s: State, b: nat, x: nat)
    requires Sized(s)
  {
    && x < |s.attr| && InUse(s.attr[x])
    && Bucket(s.mix, s.attr[x].name, |s.chains|) == b
    && (x < s.size ==> x in s.lru)
  }

  ghost predicate ChainOk(s: State, b: nat, c: seq<nat>)
    requires Sized(s)
  {
    && Distinct(c)
    && (forall i :: 0 <= i < |c| ==> MayHash(s, b, c[i]))
    && (forall i, j :: 0 <= i < j < |c| ==> Rank(s.attr[c[i]].flags) <= Rank(s.attr[c[j]].flags))
  }

  ghost predicate ChainsOk(s: State)
    requires Sized(s)
  {
    forall b :: 0 <= b < |s.chains| ==> ChainOk(s, b, s.chains[b])
  }

  /** Every in-use record of the LRU list is in the chain of its name. */
  ghost predicate AllHashed(s: State)
    requires Sized(s) && Partitioned(s)
  {
    forall x :: x in s.lru && InUse(s.attr[x]) ==> x in s.chains[Bucket(s.mix, s.attr[x].name, |s.chains|)]
  }

  /** A CNAME whose stored uid still matches refers to the incarnation it was linked to, and that is in use;
      a committed CNAME refers to a committed record. */
  ghost predicate LinkOk(s: State, c: nat)
    requires Sized(s) && c < |s.attr|
  {
    var t := s.attr[c].target;
    t != NIL ==>
      && 0 <= t < s.size
      && s.attr[c].targetUid < s.uid
      && (s.attr[c].targetUid == s.attr[t].uid ==>
            InUse(s.attr[t]) && s.linkGen[c] == s.gen[t] && (c in s.lru ==> t in s.lru))
  }

  ghost predicate LinksOk(s: State)
    requires Sized(s)
  {
    && (forall c :: 0 <= c < s.size && InUse(s.attr[c]) && Cname in s.attr[c].flags ==> LinkOk(s, c))
    && (forall x :: 0 <= x < s.size ==> s.attr[x].uid < s.uid)
  }

  ghost predicate Inv(s: State) {
    && Sized(s)
    && Partitioned(s)
    && UsedFirst(s)
    && Flagged(s)
    && ChainsOk(s)
    && AllHashed(s)
    && LinksOk(s)
  }

  /** Outside the committing loop, a CNAME of the batch only refers to an older record of the batch. */
  ghost predicate BatchClosed(s: State)
    requires Sized(s) && Partitioned(s)
  {
    forall i :: 0 <= i < |s.pending| && Cname in s.attr[s.pending[i]].flags ==>
      var c := s.pending[i];
      var t := s.attr[c].target;
      0 <= t < s.size && s.attr[c].targetUid == s.attr[t].uid ==> t in s.pending[..i]
  }

  ghost predicate Valid(s: State) {
    Inv(s) && BatchClosed(s)
  }

  // ---------- elementary steps ----------

  /** All that the steps need to be defined. */
  ghost predicate InRange(s: State) {
    && |s.gen| == |s.attr|
    && (forall i :: 0 <= i < |s.lru| ==> s.lru[i] < |s.attr|)
    && (forall b, i :: 0 <= b < |s.chains| && 0 <= i < |s.chains[b]| ==> s.chains[b][i] < |s.attr|)
  }

  lemma InvInRange(s: State)
    requires Inv(s)
    ensures InRange(s)
  {
    forall b, i | 0 <= b < |s.chains| && 0 <= i < |s.chains[b]| ensures s.chains[b][i] < |s.attr| {
      assert ChainOk(s, b, s.chains[b]) && MayHash(s, b, s.chains[b][i]);
    }
  }

  function FreedAttr(a: Attr, uid: int): Attr {
    a.(flags := a.flags - {Forward, Reverse, BigName}, uid := uid)
  }

  /** `cache_free` of a record that is in no list. */
  ghost function Free(s: State, x: nat): State
    requires x < |s.attr| == |s.gen|
  {
    s.(attr := s.attr[x := FreedAttr(s.attr[x], s.uid)],
       uid := s.uid + 1,
       lru := s.lru + [x],
       gen := s.gen[x := s.gen[x] + 1],
       bigFree := s.bigFree + if BigName in s.attr[x].flags then 1 else 0)
  }

  ghost function Unlink(s: State, x: nat): State {
    s.(lru := Without(s.lru, x))
  }

  ghost function Unhash(s: State, b: nat, i: nat): State
    requires b < |s.chains| && i < |s.chains[b]|
  {
    s.(chains := s.chains[b := RemoveAt(s.chains[b], i)])
  }

  /** Takes a record out of its chain; the cache's own records are freed as well. */
  ghost function Evict(s: State, b: nat, i: nat): (s': State)
    requires InRange(s) && b < |s.chains| && i < |s.chains[b]|
    ensures InRange(s') && |s'.chains| == |s.chains|
    ensures s'.chains == s.chains[b := RemoveAt(s.chains[b], i)]
  {
    var x := s.chains[b][i];
    if IsHost(s.attr[x]) then Unhash(s, b, i) else Free(Unlink(Unhash(s, b, i), x), x)
  }

  ghost function Promote(s: State, x: nat): State {
    s.(lru := [x] + Without(s.lru, x))
  }

  // ---------- the elementary steps keep the invariant ----------

  lemma UnhashKeepsChains(s: State, b: nat, i: nat)
    requires Sized(s) && ChainsOk(s) && b < |s.chains| && i < |s.chains[b]|
    ensures var s' := Unhash(s, b, i);
      && Sized(s') && ChainsOk(s')
      && (forall y, a :: 0 <= a < |s.chains| ==> (y in s'.chains[a] <==> y in s.chains[a] && y != s.chains[b][i]))
  {
    var s' := Unhash(s, b, i);
    var x := s.chains[b][i];
    RemoveAtElements(s.chains[b], i);
    forall a | 0 <= a < |s.chains|
      ensures ChainOk(s', a, s'.chains[a])
      ensures forall y :: y in s'.chains[a] <==> y in s.chains[a] && y != x
    {
      assert ChainOk(s, a, s.chains[a]) && ChainOk(s, b, s.chains[b]);
      assert MayHash(s, b, x);
      if a != b {
        forall y | y in s.chains[a] ensures y != x { assert MayHash(s, a, y); }
      }
      forall y | y in s'.chains[a] ensures MayHash(s', a, y) { assert MayHash(s, a, y); }
    }
  }
}
