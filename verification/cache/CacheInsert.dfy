/** Hashing, the insertion batch, and the bulk operations on the hash table. */
module CacheInsert {
  import opened Wrappers
  import opened Sequences
  import opened CacheState
  import opened CacheSteps
  import opened CacheScan
  import opened CacheAlloc

  // ---------- hashing ----------

  function SkipReverse(attr: seq<Attr>, c: seq<nat>, i: nat): (p: nat)
    requires i <= |c| && forall k :: 0 <= k < |c| ==> c[k] < |attr|
    ensures i <= p <= |c|
    ensures forall k :: i <= k < p ==> Reverse in attr[c[k]].flags
    ensures p < |c| ==> Reverse !in attr[c[p]].flags
    decreases |c| - i
  {
    if i < |c| && Reverse in attr[c[i]].flags then SkipReverse(attr, c, i + 1) else i
  }

  function SkipMortal(attr: seq<Attr>, c: seq<nat>, i: nat): (p: nat)
    requires i <= |c| && forall k :: 0 <= k < |c| ==> c[k] < |attr|
    ensures i <= p <= |c|
    ensures forall k :: i <= k < p ==> Immortal !in attr[c[k]].flags
    ensures p < |c| ==> Immortal in attr[c[p]].flags
    decreases |c| - i
  {
    if i < |c| && Immortal !in attr[c[i]].flags then SkipMortal(attr, c, i + 1) else i
  }

  /** Where `cache_hash` links a record with flags `f` into chain `c`. */
  function HashPos(attr: seq<Attr>, c: seq<nat>, f: Flags): (p: nat)
    requires forall k :: 0 <= k < |c| ==> c[k] < |attr|
    ensures p <= |c|
  {
    if Reverse in f then 0
    else if Immortal in f then SkipMortal(attr, c, SkipReverse(attr, c, 0))
    else SkipReverse(attr, c, 0)
  }

  /** Linking a record where `cache_hash` does keeps a chain well ordered. */
  lemma HashKeepsChain(s: State, b: nat, c: seq<nat>, x: nat)
    requires Sized(s) && ChainOk(s, b, c) && MayHash(s, b, x) && x !in c
    ensures forall k :: 0 <= k < |c| ==> c[k] < |s.attr|
    ensures ChainOk(s, b, InsertAt(c, HashPos(s.attr, c, s.attr[x].flags), x))
  {
    forall k | 0 <= k < |c| ensures c[k] < |s.attr| { assert MayHash(s, b, c[k]); }
    var f := s.attr[x].flags;
    var p := HashPos(s.attr, c, f);
    var c' := InsertAt(c, p, x);
    InsertAtElements(c, p, x);
    forall k | 0 <= k < |c'| ensures MayHash(s, b, c'[k]) {
      assert k == p || MayHash(s, b, c[if k < p then k else k - 1]);
    }
    RankAround(s, b, c, f);
  }

  lemma RankAround(s: State, b: nat, c: seq<nat>, f: Flags)
    requires Sized(s) && ChainOk(s, b, c) && forall k :: 0 <= k < |c| ==> c[k] < |s.attr|
    ensures var p := HashPos(s.attr, c, f);
      && (forall k :: 0 <= k < p ==> Rank(s.attr[c[k]].flags) <= Rank(f))
      && (forall k :: p <= k < |c| ==> Rank(f) <= Rank(s.attr[c[k]].flags))
  {
    var q := SkipReverse(s.attr, c, 0);
    var p := HashPos(s.attr, c, f);
    assert q < |c| ==> forall k :: q < k < |c| ==> Rank(s.attr[c[q]].flags) <= Rank(s.attr[c[k]].flags);
    assert p < |c| ==> forall k :: p < k < |c| ==> Rank(s.attr[c[p]].flags) <= Rank(s.attr[c[k]].flags);
  }

  ghost function HashIn(s: State, x: nat): State
    requires InRange(s) && |s.chains| > 0 && x < |s.attr|
  {
    var b := Bucket(s.mix, s.attr[x].name, |s.chains|);
    s.(chains := s.chains[b := InsertAt(s.chains[b], HashPos(s.attr, s.chains[b], s.attr[x].flags), x)])
  }

  // ---------- the batch ----------

  /** The CNAME member of the union is cleared by the only caller that inserts CNAMEs, straight after the insertion. */
  function NewAttr(a: Attr, name: string, addr: Option<Addr>, ttd: int, flags: Flags, big: bool): Attr {
    Attr(if big then flags + {BigName} else flags, a.uid, ttd, name, if addr.Some? then addr.value else a.addr,
         if Cname in flags then NIL else a.target, a.targetUid)
  }

  predicate Long(name: string) {
    |name| > SMALLDNAME - 1
  }

  /** Takes the free record `x` off the LRU list, fills it in and puts it at the head of the batch. */
  ghost function Grab(s: State, x: nat, name: string, addr: Option<Addr>, ttd: int, flags: Flags): State
    requires x < |s.attr| && (Long(name) ==> s.bigFree > 0 || s.bigLeft > 0)
  {
    s.(attr := s.attr[x := NewAttr(s.attr[x], name, addr, ttd, flags, Long(name))],
       lru := Without(s.lru, x),
       pending := [x] + s.pending,
       bigFree := if Long(name) && s.bigFree > 0 then s.bigFree - 1 else s.bigFree,
       bigLeft := if Long(name) && s.bigFree == 0 then s.bigLeft - 1 else s.bigLeft)
  }

  lemma GrabKeepsLists(s: State, x: nat, name: string, addr: Option<Addr>, ttd: int, flags: Flags)
    requires Sized(s) && Partitioned(s) && UsedFirst(s) && Flagged(s) && x in s.lru && x < |s.attr| && !InUse(s.attr[x])
    requires WellFlagged(flags) && BigName !in flags && (Long(name) ==> s.bigFree > 0 || s.bigLeft > 0)
    ensures var s' := Grab(s, x, name, addr, ttd, flags);
      Sized(s') && Partitioned(s') && UsedFirst(s') && Flagged(s')
  {
    var s' := Grab(s, x, name, addr, ttd, flags);
    SplitIds(s.size, s.lru, s.pending);
    LruIds(s);
    OrderWithout(s.attr, s.lru, x);
    SplitGrab(s.size, s.lru, s.pending, x);
    hide UsedBeforeFree, Split;
    OrderFrame(s.attr, s'.attr, Without(s.lru, x));
    GrabFlagged(s, x, name, addr, ttd, flags);
  }

  lemma GrabFlagged(s: State, x: nat, name: string, addr: Option<Addr>, ttd: int, flags: Flags)
    requires Sized(s) && Partitioned(s) && Flagged(s) && x in s.lru && x < |s.attr|
    requires WellFlagged(flags) && BigName !in flags && (Long(name) ==> s.bigFree > 0 || s.bigLeft > 0)
    requires Sized(Grab(s, x, name, addr, ttd, flags)) && Partitioned(Grab(s, x, name, addr, ttd, flags))
    ensures Flagged(Grab(s, x, name, addr, ttd, flags))
  {
    hide UsedBeforeFree;
    var s' := Grab(s, x, name, addr, ttd, flags);
    BlockStaysWellFlagged(flags);
    forall i | 0 <= i < |s'.pending| ensures InUse(s'.attr[s'.pending[i]]) {
      assert i > 0 ==> s'.pending[i] == s.pending[i - 1];
    }
  }

  lemma BlockStaysWellFlagged(f: Flags)
    requires WellFlagged(f)
    ensures WellFlagged(f + {BigName})
  {
    assert forall g: Flags :: f * g <= (f + {BigName}) * g;
  }

  lemma GrabKeepsChains(s: State, x: nat, name: string, addr: Option<Addr>, ttd: int, flags: Flags)
    requires Sized(s) && Partitioned(s) && ChainsOk(s) && AllHashed(s) && x in s.lru && x < |s.attr|
      && !InUse(s.attr[x])
    requires Long(name) ==> s.bigFree > 0 || s.bigLeft > 0
    ensures var s' := Grab(s, x, name, addr, ttd, flags);
      Sized(s') && ChainsOk(s') && (Partitioned(s') ==> AllHashed(s'))
  {
    var s' := Grab(s, x, name, addr, ttd, flags);
    WithoutElements(s.lru, x);
    forall b | 0 <= b < |s.chains| ensures ChainOk(s', b, s'.chains[b]) {
      assert ChainOk(s, b, s.chains[b]);
      forall i | 0 <= i < |s.chains[b]| ensures MayHash(s', b, s'.chains[b][i]) {
        assert MayHash(s, b, s.chains[b][i]);
      }
    }
  }

  lemma GrabKeepsLinks(s: State, x: nat, name: string, addr: Option<Addr>, ttd: int, flags: Flags)
    requires Sized(s) && Partitioned(s) && LinksOk(s) && x in s.lru && x < |s.attr| && !InUse(s.attr[x])
    requires Long(name) ==> s.bigFree > 0 || s.bigLeft > 0
    ensures var s' := Grab(s, x, name, addr, ttd, flags); Sized(s') && LinksOk(s')
  {
    var s' := Grab(s, x, name, addr, ttd, flags);
    WithoutElements(s.lru, x);
    forall c | 0 <= c < s.size && InUse(s'.attr[c]) && Cname in s'.attr[c].flags ensures LinkOk(s', c) {
      assert c != x ==> LinkOk(s, c);
    }
  }

  lemma GrabKeepsValid(s: State, x: nat, name: string, addr: Option<Addr>, ttd: int, flags: Flags)
    requires Valid(s) && x in s.lru && x < |s.attr| && !InUse(s.attr[x])
    requires WellFlagged(flags) && BigName !in flags && (Long(name) ==> s.bigFree > 0 || s.bigLeft > 0)
    ensures Valid(Grab(s, x, name, addr, ttd, flags))
  {
    GrabKeepsLists(s, x, name, addr, ttd, flags);
    GrabKeepsChains(s, x, name, addr, ttd, flags);
    GrabKeepsLinks(s, x, name, addr, ttd, flags);
    GrabKeepsBatch(s, x, name, addr, ttd, flags);
  }

  lemma GrabKeepsBatch(s: State, x: nat, name: string, addr: Option<Addr>, ttd: int, flags: Flags)
    requires Sized(s) && Partitioned(s) && BatchClosed(s) && x in s.lru && x < |s.attr|
    requires Long(name) ==> s.bigFree > 0 || s.bigLeft > 0
    requires Sized(Grab(s, x, name, addr, ttd, flags)) && Partitioned(Grab(s, x, name, addr, ttd, flags))
    ensures BatchClosed(Grab(s, x, name, addr, ttd, flags))
  {
    var s' := Grab(s, x, name, addr, ttd, flags);
    forall i | 0 <= i < |s'.pending| && Cname in s'.attr[s'.pending[i]].flags
      ensures var c := s'.pending[i]; var t := s'.attr[c].target;
        0 <= t < s'.size && s'.attr[c].targetUid == s'.attr[t].uid ==> t in s'.pending[..i]
    {
      if i > 0 {
        assert s'.pending[i] == s.pending[i - 1];
        assert s'.pending[..i] == [x] + s.pending[..i - 1];
      }
    }
  }

  /** What `cache_insert` demands: a forward record has a name, a reverse one an address; `memory` is whether a block
      for a long name can still be had from the system. */
  ghost predicate InsertArgs(name: Option<string>, addr: Option<Addr>, flags: Flags) {
    && WellFlagged(flags) && BigName !in flags
    && (Forward in flags ==> name.Some?)
    && (Reverse in flags ==> addr.Some?)
  }

  function NameOf(name: Option<string>): string {
    if name.Some? then name.value else ""
  }

  function AddrOf(addr: Option<Addr>): Addr {
    if addr.Some? then addr.value else NO_ADDR
  }

  /** `cache_insert`: the new state, the error flag and the record, NIL if there is none. */
  ghost function Insert(s: State, error: bool, name: Option<string>, addr: Option<Addr>, now: int, ttl: nat,
      flags: Flags, memory: bool): (r: (State, bool, int))
    requires InRange(s) && |s.chains| > 0
  {
    if error then (s, true, NIL)
    else
      var (s1, ok) := ScanFree(s, NameOf(name), AddrOf(addr), now, flags);
      if !ok then (s1, true, NIL)
      else
        var (s2, out) := Allocate(s1, now, Reverse in flags, false);
        if !out.Got? then (s2, true, NIL)
        else if Long(NameOf(name)) && s2.bigFree == 0 && (s2.bigLeft == 0 || !memory) then (s2, true, NIL)
        else (Grab(s2, out.record, NameOf(name), addr, now + ttl, flags), false, out.record)
  }

  /** A cached record that an insertion removes or reuses. */
  ghost predicate Lost(s: State, s': State, y: nat)
    requires y < |s.attr| == |s'.attr|
  {
    y in s.lru && InUse(s.attr[y]) && s'.attr[y] != s.attr[y]
  }

  /** The scan that begins an insertion had a reason to free `y`. */
  ghost predicate Displacement(s: State, s1: State, y: nat, name: Option<string>, addr: Option<Addr>, now: int,
      flags: Flags)
    requires y < |s.attr| == |s1.attr|
  {
    || Expired(s.attr[y], now)
    || (Forward in flags && (Outdated(s1.attr, y) || Clashes(s.attr[y], NameOf(name), flags)))
    || (Reverse in flags && AddrClashes(s.attr[y], AddrOf(addr), flags))
  }

  /** The two intermediate states of an insertion: after the first scan and after the allocation loop. */
  lemma InsertStages(s: State, name: Option<string>, addr: Option<Addr>, now: int, flags: Flags)
    requires Valid(s) && InsertArgs(name, addr, flags)
    ensures InRange(s) && |s.chains| > 0
    ensures
      var (s1, ok) := ScanFree(s, NameOf(name), AddrOf(addr), now, flags);
      var (s2, out) := Allocate(s1, now, Reverse in flags, false);
      && Valid(s1) && Valid(s2) && Trimmed(s, s1) && Trimmed(s1, s2) && Trimmed(s, s2)
      && (Reverse in flags ==> AllFresh(s1, now))
  {
    hide Inv, BatchClosed, ScanFree, Allocate, Trimmed;
    InvInRange(s);
    InvSized(s);
    var s1 := ScanFree(s, NameOf(name), AddrOf(addr), now, flags).0;
    ScanFreeTrims(s, NameOf(name), AddrOf(addr), now, flags);
    FreshAfterReverse(s, name, addr, now, flags);
    AllocateExact(s1, now, Reverse in flags);
    TrimmedTransitive(s, s1, Allocate(s1, now, Reverse in flags, false).0);
  }

  /** An insertion keeps the invariant, adds the record it returns to the batch, fills it in, and shows nothing new to
      lookups. When it fails the batch is as before. */
  lemma InsertKeepsValid(s: State, name: Option<string>, addr: Option<Addr>, now: int, ttl: nat, flags: Flags,
      memory: bool)
    requires Valid(s) && InsertArgs(name, addr, flags)
    ensures InRange(s) && |s.chains| > 0
    ensures
      var (s', error, x) := Insert(s, false, name, addr, now, ttl, flags, memory);
      && Valid(s') && |s'.attr| == |s.attr| && |s'.chains| == |s.chains|
      && (error <==> x == NIL)
      && (error ==> s'.pending == s.pending)
      && (!error ==>
            && 0 <= x < |s.attr| && x in s.lru && s'.pending == [x] + s.pending
            && s'.attr[x].flags == flags + (if Long(NameOf(name)) then {BigName} else {})
            && s'.attr[x].name == NameOf(name) && s'.attr[x].ttd == now + ttl
            && (addr.Some? ==> s'.attr[x].addr == addr.value)
            && (Cname in flags ==> s'.attr[x].target == NIL))
      && (forall b, y :: 0 <= b < |s.chains| && y in s'.chains[b] ==> y in s.chains[b])
  {
    hide Inv, BatchClosed, ScanFree, Allocate, RoomLeft, OldestShadowed, AllFresh, Displaced;
    InsertStages(s, name, addr, now, flags);
    var (s1, ok) := ScanFree(s, NameOf(name), AddrOf(addr), now, flags);
    var (s2, out) := Allocate(s1, now, Reverse in flags, false);
    AllocateExact(s1, now, Reverse in flags);
    if ok && out.Got? && !NoLongName(s1, name, now, flags, memory) {
      assert out.record in s2.lru;
      InvLru(s2);
      GrabKeepsValid(s2, out.record, NameOf(name), addr, now + ttl, flags);
    }
  }

  /** An insertion gives up a record that neither expired nor clashes nor lost its CNAME target only if no free and no
      expired record is left once the expired and clashing ones of the first scan are gone. */
  lemma InsertLosesOnly(s: State, name: Option<string>, addr: Option<Addr>, now: int, ttl: nat, flags: Flags,
      memory: bool, y: nat)
    requires Valid(s) && InsertArgs(name, addr, flags) && y < |s.attr|
    ensures InRange(s) && |s.chains| > 0
    ensures
      var s' := Insert(s, false, name, addr, now, ttl, flags, memory).0;
      var s1 := ScanFree(s, NameOf(name), AddrOf(addr), now, flags).0;
      && |s'.attr| == |s1.attr| == |s.attr|
      && (Lost(s, s', y) ==> Displacement(s, s1, y, name, addr, now, flags) || !RoomLeft(s1, now))
  {
    hide Inv, BatchClosed, Clashes, AddrClashes, Expired, RoomLeft, ScanFree, Allocate, Outdated, Trimmed, Displacement;
    InsertStages(s, name, addr, now, flags);
    InsertKeepsValid(s, name, addr, now, ttl, flags, memory);
    var (s1, ok) := ScanFree(s, NameOf(name), AddrOf(addr), now, flags);
    var (s2, out) := Allocate(s1, now, Reverse in flags, false);
    TrimmedSizes(s, s1);
    TrimmedSizes(s, s2);
    AllocateExact(s1, now, Reverse in flags);
    ScanFreeTrims(s, NameOf(name), AddrOf(addr), now, flags);
    if Lost(s, Insert(s, false, name, addr, now, ttl, flags, memory).0, y) {
      TrimmedSelf(s1);
      LostHasReason(s, s1, if ok then s2 else s1, y, name, addr, now, flags);
    }
  }

  /** An insertion fails exactly in four cases: a hosts or DHCP record clashes, the LRU list is empty, a full cache's
      oldest record is shadowed by a hosts or DHCP record of its name, or a long name finds no block. */
  lemma InsertFailsExactly(s: State, name: Option<string>, addr: Option<Addr>, now: int, ttl: nat, flags: Flags,
      memory: bool)
    requires Valid(s) && InsertArgs(name, addr, flags)
    ensures InRange(s) && |s.chains| > 0
    ensures
      var (s1, ok) := ScanFree(s, NameOf(name), AddrOf(addr), now, flags);
      && |s1.lru| == |s.lru|
      && (Insert(s, false, name, addr, now, ttl, flags, memory).1 <==>
            || !ok
            || s.lru == []
            || (!RoomLeft(s1, now) && OldestShadowed(s1, now))
            || NoLongName(s1, name, now, flags, memory))
  {
    hide Inv, BatchClosed, RoomLeft, ScanFree, Allocate, OldestShadowed;
    InsertStages(s, name, addr, now, flags);
    AllocateExact(ScanFree(s, NameOf(name), AddrOf(addr), now, flags).0, now, Reverse in flags);
  }

  /** With no hosts or DHCP record sharing the name of a cached one, a short name is always inserted. */
  lemma UnsharedNameInserts(s: State, name: Option<string>, addr: Option<Addr>, now: int, ttl: nat, flags: Flags,
      memory: bool)
    requires Valid(s) && InsertArgs(name, addr, flags) && InRange(s) && |s.chains| > 0
    requires s.lru != [] && !Long(NameOf(name))
    requires forall h, y :: s.size <= h < |s.attr| && 0 <= y < s.size && InUse(s.attr[y]) ==>
      !Clashes(s.attr[h], s.attr[y].name, s.attr[y].flags)
    requires forall h :: s.size <= h < |s.attr| ==> !Clashes(s.attr[h], NameOf(name), flags)
    ensures !Insert(s, false, name, addr, now, ttl, flags, memory).1
  {
    hide Inv, BatchClosed, Allocate, Clashes;
    InsertFailsExactly(s, name, addr, now, ttl, flags, memory);
    InsertStages(s, name, addr, now, flags);
    var (s1, ok) := ScanFree(s, NameOf(name), AddrOf(addr), now, flags);
    if Forward in flags {
      var b := Bucket(s.mix, NameOf(name), |s.chains|);
      ForeignOnly(s, s);
      NoClashNoFailure(s, b, 0, NameOf(name), now, flags);
    }
    ForeignOnly(s, s1);
    if !RoomLeft(s1, now) {
      AllInUse(s1, now);
    }
  }

  /** A scan fails only at a hosts or DHCP record that clashes. */
  lemma {:induction false} NoClashNoFailure(s: State, b: nat, i: nat, name: string, now: int, flags: Flags)
    requires Valid(s) && InRange(s) && b < |s.chains| && i <= |s.chains[b]|
    requires forall h :: s.size <= h < |s.attr| ==> !Clashes(s.attr[h], name, flags)
    ensures ScanName(s, b, i, name, now, flags).1
    decreases |s.chains[b]| - i
  {
    hide Inv, Clashes, BatchClosed, Evict, IsHost, Live;
    if i < |s.chains[b]| {
      var x := s.chains[b][i];
      HashedRecord(s, b, i);
      EvictTrims(s, b, i);
      EvictKeepsInv(s, b, i);
      var s1 := Evict(s, b, i);
      if !Live(s.attr, x, now) || (Clashes(s.attr[x], name, flags) && !IsHost(s.attr[x])) {
        ForeignOnly(s, s1);
        NoClashNoFailure(s1, b, i, name, now, flags);
      } else if !Clashes(s.attr[x], name, flags) {
        NoClashNoFailure(s, b, i + 1, name, now, flags);
      }
    }
  }

  /** Scans leave hosts and DHCP records as they are. */
  lemma ForeignOnly(s: State, s1: State)
    requires Inv(s) && Inv(s1) && (s == s1 || Trimmed(s, s1))
    ensures s1.size == s.size && |s1.attr| == |s.attr|
    ensures forall h :: s.size <= h < |s.attr| ==> s1.attr[h] == s.attr[h]
    ensures forall y :: 0 <= y < s.size && InUse(s1.attr[y]) ==> s1.attr[y] == s.attr[y]
    ensures forall b, i :: 0 <= b < |s1.chains| && 0 <= i < |s1.chains[b]| ==>
      s1.chains[b][i] < |s1.attr| && (IsHost(s1.attr[s1.chains[b][i]]) <==> s1.chains[b][i] >= s1.size)
  {
    forall b, i | 0 <= b < |s1.chains| && 0 <= i < |s1.chains[b]|
      ensures s1.chains[b][i] < |s1.attr| && (IsHost(s1.attr[s1.chains[b][i]]) <==> s1.chains[b][i] >= s1.size)
    {
      HashedRecord(s1, b, i);
    }
    InvLru(s);
  }

  lemma AllInUse(s1: State, now: int)
    requires Inv(s1) && InRange(s1) && !RoomLeft(s1, now) && s1.lru != []
    ensures InUse(s1.attr[Oldest(s1)]) && Oldest(s1) < s1.size
  {
  }

  /** No block is left for a name that needs one. */
  ghost predicate NoLongName(s1: State, name: Option<string>, now: int, flags: Flags, memory: bool)
    requires InRange(s1) && |s1.chains| > 0
  {
    var (s2, out) := Allocate(s1, now, Reverse in flags, false);
    out.Got? && Long(NameOf(name)) && s2.bigFree == 0 && (s2.bigLeft == 0 || !memory)
  }

  lemma InvLru(s: State)
    requires Inv(s)
    ensures forall x :: x in s.lru ==> x < s.size <= |s.attr|
  {
  }

  /** An insertion by address has scanned all chains before the allocation loop starts. */
  lemma FreshAfterReverse(s: State, name: Option<string>, addr: Option<Addr>, now: int, flags: Flags)
    requires Valid(s) && InRange(s) && |s.chains| > 0 && InsertArgs(name, addr, flags)
    ensures Reverse in flags ==> AllFresh(ScanFree(s, NameOf(name), AddrOf(addr), now, flags).0, now)
  {
    hide Inv, BatchClosed, Expired, AddrClashes;
    if Reverse in flags {
      var s1 := ScanAll(s, 0, 0, AddrOf(addr), now, flags);
      ScanAllTrims(s, 0, 0, AddrOf(addr), now, flags);
      forall i | 0 <= i < |s1.lru| && InUse(s1.attr[s1.lru[i]]) ensures !Expired(s1.attr[s1.lru[i]], now) {
        var x := s1.lru[i];
        assert s1.attr[x] == s.attr[x];
        var b, m := CachedIsHashed(s, x);
        ScanAllClears(s, 0, 0, AddrOf(addr), now, flags, b, m);
      }
    }
  }

  lemma LostHasReason(s: State, s1: State, s2: State, y: nat, name: Option<string>, addr: Option<Addr>, now: int,
      flags: Flags)
    requires InsertArgs(name, addr, flags) && InRange(s1)
    requires y < |s.attr| == |s1.attr| == |s2.attr|
    requires Trimmed(s, s1) && Trimmed(s1, s2)
    requires y in s.lru && InUse(s.attr[y]) && (s2.attr[y] != s.attr[y] || !InUse(s2.attr[y]))
    requires s1.attr[y] != s.attr[y] ==>
      if Forward in flags then NameReason(s, s1, y, NameOf(name), now, flags)
      else Expired(s.attr[y], now) || AddrClashes(s.attr[y], AddrOf(addr), flags)
    requires Displaced(s1, s2, now, y) ==> !RoomLeft(s1, now)
    ensures Displacement(s, s1, y, name, addr, now, flags) || !RoomLeft(s1, now)
  {
  }
}
