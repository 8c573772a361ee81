/** Adding hosts and DHCP records, growing the hash table, and clearing it before hosts files are read again. */
module CacheTable {
  import opened Sequences
  import opened CacheState
  import opened CacheSteps
  import opened CacheScan
  import opened CacheInsert
  import opened CacheBatch

  // ---------- hosts and DHCP records ----------

  ghost predicate HostRecord(s: State, a: Attr) {
    InUse(a) && IsHost(a) && (Cname in a.flags ==> a.target < 0 || a.target >= s.size)
  }

  /** A newly allocated record, not yet hashed. */
  ghost function NewHost(s: State, a: Attr): State {
    s.(attr := s.attr + [a], gen := s.gen + [0], linkGen := s.linkGen + [0])
  }

  ghost function AddHost(s: State, a: Attr): State
    requires InRange(s) && |s.chains| > 0
  {
    HashIn(NewHost(s, a), |s.attr|)
  }

  lemma NewHostKeepsValid(s: State, a: Attr)
    requires Valid(s) && HostRecord(s, a)
    ensures Valid(NewHost(s, a))
  {
    var s' := NewHost(s, a);
    forall b | 0 <= b < |s.chains| ensures ChainOk(s', b, s'.chains[b]) {
      assert ChainOk(s, b, s.chains[b]);
      forall i | 0 <= i < |s.chains[b]| ensures MayHash(s', b, s'.chains[b][i]) {
        assert MayHash(s, b, s.chains[b][i]);
      }
    }
    forall c | 0 <= c < s.size && InUse(s'.attr[c]) && Cname in s'.attr[c].flags ensures LinkOk(s', c) {
      assert LinkOk(s, c);
    }
  }

  lemma HashHostKeepsValid(s: State, x: nat)
    requires Valid(s) && InRange(s) && s.size <= x < |s.attr| && InUse(s.attr[x]) && |s.chains| > 0
    requires forall b :: 0 <= b < |s.chains| ==> x !in s.chains[b]
    ensures Valid(HashIn(s, x))
  {
    hide UsedFirst, Flagged, LinksOk, AllHashed;
    var h := Bucket(s.mix, s.attr[x].name, |s.chains|);
    assert ChainOk(s, h, s.chains[h]);
    HashKeepsChain(s, h, s.chains[h], x);
    InsertAtElements(s.chains[h], HashPos(s.attr, s.chains[h], s.attr[x].flags), x);
    ExtendChain(s, h, HashIn(s, x).chains[h]);
  }

  lemma ExtendChain(s: State, b: nat, c: seq<nat>)
    requires Valid(s) && b < |s.chains| && ChainOk(s, b, c)
    requires forall y :: y in s.chains[b] ==> y in c
    ensures Valid(s.(chains := s.chains[b := c]))
  {
    var s' := s.(chains := s.chains[b := c]);
    forall a | 0 <= a < |s.chains| ensures ChainOk(s', a, s'.chains[a]) {
      assert ChainOk(s, a, s.chains[a]);
      SameChainOk(s, s', a, s'.chains[a]);
    }
    forall k | 0 <= k < s.size && InUse(s.attr[k]) && Cname in s.attr[k].flags ensures LinkOk(s', k) {
      assert LinkOk(s, k);
    }
  }

  lemma AddHostKeepsValid(s: State, a: Attr)
    requires Valid(s) && HostRecord(s, a)
    ensures InRange(s) && |s.chains| > 0
    ensures Valid(AddHost(s, a))
  {
    hide Valid;
    assert Inv(s) by { ValidInv(s); }
    InvInRange(s);
    InvPending(s);
    NewHostKeepsValid(s, a);
    var s1 := NewHost(s, a);
    ValidInv(s1);
    InvInRange(s1);
    forall b | 0 <= b < |s.chains| ensures |s.attr| !in s1.chains[b] {
    }
    InvSizes(s);
    HashHostKeepsValid(s1, |s.attr|);
  }

  lemma ValidInv(s: State)
    requires Valid(s)
    ensures Inv(s)
  {
  }

  lemma InvSizes(s: State)
    requires Inv(s)
    ensures s.size <= |s.attr|
  {
  }

  // ---------- rehash ----------

  ghost predicate ChainsInRange(attr: seq<Attr>, t: seq<seq<nat>>) {
    forall b, i :: 0 <= b < |t| && 0 <= i < |t[b]| ==> t[b][i] < |attr|
  }

  /** Hashes the records of the old chains, from record `i` of chain `b` on, into the new table `t`. */
  ghost function RehashFrom(s: State, b: nat, i: nat, t: seq<seq<nat>>): (r: seq<seq<nat>>)
    requires ChainsInRange(s.attr, s.chains) && ChainsInRange(s.attr, t) && |t| > 0
    requires b <= |s.chains| && (b < |s.chains| ==> i <= |s.chains[b]|)
    ensures |r| == |t|
    decreases |s.chains| - b, if b < |s.chains| then |s.chains[b]| - i else 0
  {
    if b == |s.chains| then t
    else if i == |s.chains[b]| then RehashFrom(s, b + 1, 0, t)
    else
      RehashFrom(s, b, i + 1, MoveTo(s, s.chains[b][i], t))
  }

  /** Whether record `y` is among those already moved. */
  ghost predicate Moved(s: State, b: nat, i: nat, y: nat)
    requires b <= |s.chains| && (b < |s.chains| ==> i <= |s.chains[b]|)
  {
    || (exists a :: 0 <= a < b && y in s.chains[a])
    || (b < |s.chains| && y in s.chains[b][..i])
  }

  /** The new table `t` is well ordered and holds exactly the moved records. */
  ghost predicate HalfMoved(s: State, b: nat, i: nat, t: seq<seq<nat>>)
    requires b <= |s.chains| && (b < |s.chains| ==> i <= |s.chains[b]|)
  {
    var s' := s.(chains := t);
    && Sized(s') && ChainsOk(s')
    && (forall h, y :: 0 <= h < |t| && y in t[h] ==> Moved(s, b, i, y))
    && (forall y :: Moved(s, b, i, y) ==> Hashed(s', y))
  }

  ghost function MoveTo(s: State, x: nat, t: seq<seq<nat>>): seq<seq<nat>>
    requires ChainsInRange(s.attr, t) && |t| > 0 && x < |s.attr|
  {
    var h := Bucket(s.mix, s.attr[x].name, |t|);
    t[h := InsertAt(t[h], HashPos(s.attr, t[h], s.attr[x].flags), x)]
  }

  lemma MoveToKeepsChains(s: State, x: nat, t: seq<seq<nat>>)
    requires var s1 := s.(chains := t); Sized(s1) && ChainsOk(s1)
    requires x < |s.attr| && InUse(s.attr[x]) && (x < s.size ==> x in s.lru) && forall h :: 0 <= h < |t| ==> x !in t[h]
    ensures ChainsInRange(s.attr, t)
    ensures var t' := MoveTo(s, x, t);
      && ChainsOk(s.(chains := t')) && |t'| == |t|
      && (forall h, y :: 0 <= h < |t| ==> (y in t'[h] <==>
           y in t[h] || (y == x && h == Bucket(s.mix, s.attr[x].name, |t|))))
  {
    var s1 := s.(chains := t);
    TableInRange(s1);
    var h := Bucket(s.mix, s.attr[x].name, |t|);
    assert MayHash(s1, h, x) && ChainOk(s1, h, t[h]);
    HashKeepsChain(s1, h, t[h], x);
    InsertAtElements(t[h], HashPos(s.attr, t[h], s.attr[x].flags), x);
    var s2 := s.(chains := MoveTo(s, x, t));
    forall a | 0 <= a < |t| ensures ChainOk(s2, a, s2.chains[a]) {
      SameChainOk(s1, s2, a, s2.chains[a]);
    }
  }

  lemma MovedStep(s: State, b: nat, i: nat, y: nat)
    requires b < |s.chains| && i < |s.chains[b]|
    ensures Moved(s, b, i + 1, y) <==> Moved(s, b, i, y) || y == s.chains[b][i]
  {
    assert s.chains[b][..i + 1] == s.chains[b][..i] + [s.chains[b][i]];
  }

  lemma MovedNext(s: State, b: nat, y: nat)
    requires b < |s.chains|
    ensures Moved(s, b + 1, 0, y) <==> Moved(s, b, |s.chains[b]|, y)
  {
    assert s.chains[b][..|s.chains[b]|] == s.chains[b];
  }

  lemma MoveOne(s: State, b: nat, i: nat, t: seq<seq<nat>>)
    requires Inv(s) && b < |s.chains| && i < |s.chains[b]| && HalfMoved(s, b, i, t)
    ensures var x := s.chains[b][i];
      && x < |s.attr| && |t| > 0 && ChainsInRange(s.attr, t)
      && HalfMoved(s, b, i + 1, MoveTo(s, x, t))
  {
    hide Inv, ChainsOk, Moved, ChainsInRange;
    var x := s.chains[b][i];
    HashedRecord(s, b, i);
    assert x < s.size ==> x in s.lru by { HashedHere(s, b, i); }
    NotYetMoved(s, b, i);
    MoveToKeepsChains(s, x, t);
    var t' := MoveTo(s, x, t);
    var s2 := s.(chains := t');
    forall h, y | 0 <= h < |t'| && y in t'[h] ensures Moved(s, b, i + 1, y) {
      MovedStep(s, b, i, y);
    }
    forall y | Moved(s, b, i + 1, y) ensures Hashed(s2, y) {
      MovedStep(s, b, i, y);
      if Moved(s, b, i, y) {
        var a :| 0 <= a < |t| && y in t[a];
        assert y in t'[a];
      } else {
        assert y in t'[Bucket(s.mix, s.attr[x].name, |t|)];
      }
    }
  }

  lemma HashedHere(s: State, b: nat, i: nat)
    requires Inv(s) && b < |s.chains| && i < |s.chains[b]|
    ensures s.chains[b][i] < s.size ==> s.chains[b][i] in s.lru
  {
    assert ChainOk(s, b, s.chains[b]) && MayHash(s, b, s.chains[b][i]);
  }

  lemma TableInRange(s: State)
    requires Sized(s) && ChainsOk(s)
    ensures ChainsInRange(s.attr, s.chains)
  {
    forall b, i | 0 <= b < |s.chains| && 0 <= i < |s.chains[b]| ensures s.chains[b][i] < |s.attr| {
      assert ChainOk(s, b, s.chains[b]) && MayHash(s, b, s.chains[b][i]);
    }
  }

  lemma NotYetMoved(s: State, b: nat, i: nat)
    requires Inv(s) && b < |s.chains| && i < |s.chains[b]|
    ensures !Moved(s, b, i, s.chains[b][i])
  {
    var x := s.chains[b][i];
    HashedRecord(s, b, i);
    forall a, j | 0 <= a < b && 0 <= j < |s.chains[a]| ensures s.chains[a][j] != x {
      HashedRecord(s, a, j);
    }
  }

  lemma {:induction false} RehashMoves(s: State, b: nat, i: nat, t: seq<seq<nat>>)
    requires Inv(s) && b <= |s.chains| && (b < |s.chains| ==> i <= |s.chains[b]|) && HalfMoved(s, b, i, t)
    requires b == |s.chains| ==> i == 0
    ensures ChainsInRange(s.attr, s.chains) && ChainsInRange(s.attr, t) && |t| > 0
    ensures HalfMoved(s, |s.chains|, 0, RehashFrom(s, b, i, t))
    decreases |s.chains| - b, if b < |s.chains| then |s.chains[b]| - i else 0
  {
    hide Inv, ChainsOk, ChainsInRange, Moved, Hashed;
    assert Sized(s) && ChainsOk(s) by { InvChains(s); }
    TableInRange(s);
    TableInRange(s.(chains := t));
    if b < |s.chains| {
      if i < |s.chains[b]| {
        MoveOne(s, b, i, t);
        RehashMoves(s, b, i + 1, MoveTo(s, s.chains[b][i], t));
      } else {
        NextMoved(s, b, t);
        RehashMoves(s, b + 1, 0, t);
      }
    }
  }

  lemma InvChains(s: State)
    requires Inv(s)
    ensures Sized(s) && ChainsOk(s)
  {
  }

  lemma NextMoved(s: State, b: nat, t: seq<seq<nat>>)
    requires b < |s.chains| && HalfMoved(s, b, |s.chains[b]|, t)
    ensures HalfMoved(s, b + 1, 0, t)
  {
    hide Moved;
    forall h, y | 0 <= h < |t| && y in t[h] ensures Moved(s, b + 1, 0, y) {
      MovedNext(s, b, y);
    }
    forall y | Moved(s, b + 1, 0, y) ensures Hashed(s.(chains := t), y) {
      MovedNext(s, b, y);
    }
  }

  ghost function Rehash(s: State, n: nat): State
    requires ChainsInRange(s.attr, s.chains) && n > 0
  {
    s.(chains := RehashFrom(s, 0, 0, seq(n, _ => [])))
  }

  /** A larger table holds the same records, in chains ordered the same way. */
  lemma RehashKeepsRecords(s: State, n: nat)
    requires Valid(s) && n > 0
    ensures ChainsInRange(s.attr, s.chains)
    ensures Valid(Rehash(s, n)) && |Rehash(s, n).chains| == n
    ensures forall y :: Hashed(Rehash(s, n), y) <==> Hashed(s, y)
  {
    var t := seq(n, _ => []);
    InvChains(s);
    TableInRange(s);
    assert HalfMoved(s, 0, 0, t);
    RehashMoves(s, 0, 0, t);
    RetableValid(s, Rehash(s, n).chains);
  }

  lemma RetableValid(s: State, t: seq<seq<nat>>)
    requires Valid(s) && HalfMoved(s, |s.chains|, 0, t)
    ensures Valid(s.(chains := t))
    ensures forall y :: Hashed(s.(chains := t), y) <==> Hashed(s, y)
  {
    var s' := s.(chains := t);
    assert forall y :: Moved(s, |s.chains|, 0, y) <==> Hashed(s, y);
    forall x | x in s'.lru && InUse(s'.attr[x]) ensures x in t[Bucket(s.mix, s.attr[x].name, |t|)] {
      assert Hashed(s, x);
      var h :| 0 <= h < |t| && x in t[h];
      assert ChainOk(s', h, t[h]);
      var k :| 0 <= k < |t[h]| && t[h][k] == x;
      assert MayHash(s', h, x);
    }
    forall c | 0 <= c < s.size && InUse(s.attr[c]) && Cname in s.attr[c].flags ensures LinkOk(s', c) {
      assert LinkOk(s, c);
    }
  }

  // ---------- the clearing loop of cache_reload ----------

  function Wiped(a: Attr): Attr {
    a.(flags := {})
  }

  /** Clears the chains from record `i` of chain `b` on: hosts records are unhashed, the cache's own are unhashed and
      lose all flags where they stand in the LRU list, DHCP records stay. */
  ghost function ClearFrom(s: State, b: nat, i: nat): (s': State)
    requires InRange(s) && b <= |s.chains| && (b < |s.chains| ==> i <= |s.chains[b]|)
    ensures InRange(s') && |s'.chains| == |s.chains|
    decreases |s.chains| - b, if b < |s.chains| then |s.chains[b]| - i else 0
  {
    if b == |s.chains| then s
    else if i == |s.chains[b]| then ClearFrom(s, b + 1, 0)
    else
      var x := s.chains[b][i];
      var f := s.attr[x].flags;
      if Hosts in f then ClearFrom(Unhash(s, b, i), b, i)
      else if Dhcp !in f then ClearFrom(Wipe(Unhash(s, b, i), x), b, i)
      else ClearFrom(s, b, i + 1)
  }

  ghost function Wipe(s: State, x: nat): State
    requires x < |s.attr| == |s.gen|
  {
    s.(attr := s.attr[x := Wiped(s.attr[x])], gen := s.gen[x := s.gen[x] + 1],
       bigFree := s.bigFree + if BigName in s.attr[x].flags then 1 else 0)
  }

  /** The part of the invariant that holds in the middle of clearing, when free records may stand before used ones. */
  ghost predicate Clearing(s0: State, s: State, b: nat, i: nat)
    requires Sized(s0)
  {
    && Sized(s) && Partitioned(s) && Flagged(s) && ChainsOk(s) && AllHashed(s)
    && s.size == s0.size && s.lru == s0.lru && s.pending == s0.pending && s.uid == s0.uid && s.linkGen == s0.linkGen
    && |s.attr| == |s0.attr|
    && (forall y :: 0 <= y < |s.attr| && y !in s.lru ==> s.attr[y] == s0.attr[y] && s.gen[y] == s0.gen[y])
    && (forall y :: 0 <= y < |s.attr| ==> s.attr[y].uid == s0.attr[y].uid)
    && (forall a, j :: 0 <= a < b && a < |s.chains| && 0 <= j < |s.chains[a]| ==> KeptDhcp(s, s.chains[a][j]))
    && (b < |s.chains| ==> i <= |s.chains[b]| && forall j :: 0 <= j < i ==> KeptDhcp(s, s.chains[b][j]))
  }

  ghost predicate KeptDhcp(s: State, x: nat) {
    x < |s.attr| && Dhcp in s.attr[x].flags && Hosts !in s.attr[x].flags
  }

  lemma ClearUnhash(s0: State, s: State, b: nat, i: nat)
    requires Sized(s0) && Clearing(s0, s, b, i) && b < |s.chains| && i < |s.chains[b]|
    requires s.chains[b][i] < |s.attr| && IsHost(s.attr[s.chains[b][i]])
    ensures Clearing(s0, Unhash(s, b, i), b, i)
  {
    UnhashKeepsChains(s, b, i);
  }

  lemma ClearWipe(s0: State, s: State, b: nat, i: nat)
    requires Sized(s0) && Clearing(s0, s, b, i) && b < |s.chains| && i < |s.chains[b]|
    requires var x := s.chains[b][i]; x < |s.attr| && !IsHost(s.attr[x])
    ensures Clearing(s0, Wipe(Unhash(s, b, i), s.chains[b][i]), b, i)
  {
    var x := s.chains[b][i];
    assert ChainOk(s, b, s.chains[b]) && MayHash(s, b, x);
    UnhashKeepsChains(s, b, i);
    WipeKeepsChains(Unhash(s, b, i), x);
    hide ChainsOk, UsedBeforeFree;
  }

  lemma WipeKeepsChains(u: State, x: nat)
    requires Sized(u) && ChainsOk(u) && x < |u.attr| && forall a :: 0 <= a < |u.chains| ==> x !in u.chains[a]
    ensures Sized(Wipe(u, x)) && ChainsOk(Wipe(u, x))
  {
    var s' := Wipe(u, x);
    forall a | 0 <= a < |s'.chains| ensures ChainOk(s', a, s'.chains[a]) {
      assert ChainOk(u, a, u.chains[a]);
      forall j | 0 <= j < |s'.chains[a]| ensures MayHash(s', a, s'.chains[a][j]) {
        assert MayHash(u, a, u.chains[a][j]) && u.chains[a][j] in u.chains[a];
      }
    }
  }

  lemma {:induction false} ClearFromClears(s0: State, s: State, b: nat, i: nat)
    requires Sized(s0) && InRange(s) && Clearing(s0, s, b, i) && b <= |s.chains|
      && (b < |s.chains| ==> i <= |s.chains[b]|)
    requires b == |s.chains| ==> i == 0
    ensures Clearing(s0, ClearFrom(s, b, i), |s.chains|, 0)
    decreases |s.chains| - b, if b < |s.chains| then |s.chains[b]| - i else 0
  {
    hide Clearing;
    if b < |s.chains| {
      if i == |s.chains[b]| {
        ClearNext(s0, s, b);
        ClearFromClears(s0, s, b + 1, 0);
      } else {
        var x := s.chains[b][i];
        if Hosts in s.attr[x].flags {
          ClearUnhash(s0, s, b, i);
          ClearFromClears(s0, Unhash(s, b, i), b, i);
        } else if Dhcp !in s.attr[x].flags {
          ClearWipe(s0, s, b, i);
          ClearFromClears(s0, Wipe(Unhash(s, b, i), x), b, i);
        } else {
          ClearKeep(s0, s, b, i);
          ClearFromClears(s0, s, b, i + 1);
        }
      }
    }
  }

  lemma ClearNext(s0: State, s: State, b: nat)
    requires Sized(s0) && b < |s.chains| && Clearing(s0, s, b, |s.chains[b]|)
    ensures Clearing(s0, s, b + 1, 0)
  {
    hide Partitioned, Flagged, ChainsOk, AllHashed;
  }

  lemma ClearKeep(s0: State, s: State, b: nat, i: nat)
    requires Sized(s0) && b < |s.chains| && Clearing(s0, s, b, i) && i < |s.chains[b]|
    requires KeptDhcp(s, s.chains[b][i])
    ensures Clearing(s0, s, b, i + 1)
  {
    hide Partitioned, Flagged, ChainsOk, AllHashed;
  }

  /** Clearing leaves only DHCP records hashed and every record of the LRU list free; a batch in progress is
      untouched. */
  lemma ClearKeepsValid(s: State)
    requires Valid(s)
    ensures InRange(s)
    ensures var s' := ClearFrom(s, 0, 0);
      && Valid(s') && s'.pending == s.pending && s'.lru == s.lru && |s'.attr| == |s.attr|
      && (forall x :: x in s'.lru ==> x < |s'.attr| && !InUse(s'.attr[x]))
      && (forall b, i :: 0 <= b < |s'.chains| && 0 <= i < |s'.chains[b]| ==> KeptDhcp(s', s'.chains[b][i]))
      && (forall y :: 0 <= y < |s.attr| && y !in s.lru ==> s'.attr[y] == s.attr[y])
  {
    InvInRange(s);
    ClearFromClears(s, s, 0, 0);
    ClearedValid(s, ClearFrom(s, 0, 0));
  }

  lemma ClearedValid(s: State, s': State)
    requires Valid(s) && Clearing(s, s', |s'.chains|, 0)
    ensures Valid(s')
    ensures forall x :: x in s'.lru ==> x < |s'.attr| && !InUse(s'.attr[x])
    ensures forall b, i :: 0 <= b < |s'.chains| && 0 <= i < |s'.chains[b]| ==> KeptDhcp(s', s'.chains[b][i])
  {
    assert forall b, i :: 0 <= b < |s'.chains| && 0 <= i < |s'.chains[b]| ==> KeptDhcp(s', s'.chains[b][i]);
    PendingLinksStay(s, s');
  }

  lemma PendingLinksStay(s: State, s': State)
    requires Valid(s) && Clearing(s, s', |s'.chains|, 0)
    requires forall x :: x in s'.lru ==> x < |s'.attr| && !InUse(s'.attr[x])
    ensures LinksOk(s') && BatchClosed(s')
  {
    forall i | 0 <= i < |s.pending| && Cname in s.attr[s.pending[i]].flags
      ensures LinkOk(s', s.pending[i])
    {
      var c := s.pending[i];
      assert c in s.pending && LinkOk(s, c);
      var t := s.attr[c].target;
      if 0 <= t < s.size && s.attr[c].targetUid == s.attr[t].uid {
        assert t in s.pending;
      }
    }
    forall c | 0 <= c < s'.size && InUse(s'.attr[c]) && Cname in s'.attr[c].flags ensures LinkOk(s', c) {
      assert c in s'.pending;
    }
  }
}
