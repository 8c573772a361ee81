/** How an insertion gets hold of a free record. */
module CacheAlloc {
  import opened Sequences
  import opened CacheState
  import opened CacheSteps
  import opened CacheScan

  const NO_ADDR: Addr := [0, 0, 0, 0, 0, 0, 0, 0, 0, 0, 0, 0, 0, 0, 0, 0]

  /** The loop's result: a free record, an empty LRU list, or the bail-out that believes a record must have
      been freed. */
  datatype Alloc = Got(record: nat) | Full | Stuck

  ghost function Oldest(s: State): (x: nat)
    requires InRange(s) && s.lru != []
    ensures x < |s.attr|
  {
    s.lru[|s.lru| - 1]
  }

  /** The loop of `cache_insert`, with its flags `freed_all` and `free_avail`. */
  ghost function Allocate(s: State, now: int, freedAll: bool, freeAvail: bool): (r: (State, Alloc))
    requires InRange(s) && |s.chains| > 0
    ensures InRange(r.0) && |r.0.chains| == |s.chains|
    ensures r.1.Got? ==> r.1.record < |r.0.attr|
    decreases !freeAvail, !freedAll
  {
    if s.lru == [] then (s, Full)
    else
      var a := s.attr[Oldest(s)];
      if !InUse(a) then (s, Got(Oldest(s)))
      else if freeAvail then (s, Stuck)
      else if freedAll then Allocate(ScanFree(s, a.name, a.addr, now, a.flags).0, now, true, true)
      else Allocate(ScanAll(s, 0, 0, NO_ADDR, now, {}), now, true, false)
  }

  /** Some record of the LRU list is free or has expired. */
  ghost predicate RoomLeft(s: State, now: int)
    requires InRange(s)
  {
    exists i :: 0 <= i < |s.lru| && (!InUse(s.attr[s.lru[i]]) || Expired(s.attr[s.lru[i]], now))
  }

  lemma ScanFreeTrims(s: State, name: string, addr: Addr, now: int, flags: Flags)
    requires Valid(s) && InRange(s)
    ensures var (s', ok) := ScanFree(s, name, addr, now, flags);
      && Valid(s') && Trimmed(s, s')
      && (forall y :: 0 <= y < |s.attr| && s'.attr[y] != s.attr[y] ==>
            if Forward in flags then NameReason(s, s', y, name, now, flags)
            else Expired(s.attr[y], now) || AddrClashes(s.attr[y], addr, flags))
  {
    hide Inv, BatchClosed, Trimmed, AddrClashes, Expired;
    assert |s.chains| > 0 by { InvSized(s); }
    if Forward in flags {
      ScanNameTrims(s, Bucket(s.mix, name, |s.chains|), 0, name, now, flags);
    } else {
      ScanAllTrims(s, 0, 0, addr, now, flags);
    }
  }

  lemma InvSized(s: State)
    requires Inv(s)
    ensures |s.chains| > 0
  {
  }

  /** A cached record is in the chain of its name. */
  lemma CachedIsHashed(s: State, x: nat) returns (b: nat, m: nat)
    requires Inv(s) && x in s.lru && x < |s.attr| && InUse(s.attr[x])
    ensures b < |s.chains| && m < |s.chains[b]| && s.chains[b][m] == x && !IsHost(s.attr[x])
      && WellFlagged(s.attr[x].flags)
    ensures b == Bucket(s.mix, s.attr[x].name, |s.chains|)
  {
    b := Bucket(s.mix, s.attr[x].name, |s.chains|);
    m :| 0 <= m < |s.chains[b]| && s.chains[b][m] == x;
  }

  /** A record clashes with its own name or address. */
  lemma ClashesWithItself(a: Attr)
    requires WellFlagged(a.flags)
    ensures if Forward in a.flags then Clashes(a, a.name, a.flags) else AddrClashes(a, a.addr, a.flags)
  {
    assert a.flags * a.flags == a.flags && a.flags + a.flags == a.flags;
    assert Forward in a.flags ==>
      Meets(a.flags, {IPv4, IPv6, Cname})
      && (a.flags * {IPv4, IPv6, Cname} == a.flags * {IPv4, IPv6} + a.flags * {Cname});
    assert Meets(a.flags, {IPv4, IPv6}) || Cname in a.flags || a.flags * {Cname} == {};
  }

  /** Spilling the oldest record fails exactly if its name is shadowed by a hosts or DHCP record. */
  lemma SpillOldest(s: State, now: int)
    requires Valid(s) && InRange(s) && |s.chains| > 0 && s.lru != [] && InUse(s.attr[Oldest(s)])
    ensures var a := s.attr[Oldest(s)];
      var s' := ScanFree(s, a.name, a.addr, now, a.flags).0;
      && s'.lru != []
      && (InUse(s'.attr[Oldest(s')]) <==>
            Forward in a.flags && Shadowed(s, Bucket(s.mix, a.name, |s.chains|), 0, a.name, now, a.flags))
      && (InUse(s'.attr[Oldest(s')]) ==> Untouched(s, s'))
  {
    hide Inv, BatchClosed, Clashes, AddrClashes, Expired, Shadowed, Bucket;
    var x := Oldest(s);
    var a := s.attr[x];
    var (s', ok) := ScanFree(s, a.name, a.addr, now, a.flags);
    ScanFreeTrims(s, a.name, a.addr, now, a.flags);
    var b, m := CachedIsHashed(s, x);
    ClashesWithItself(a);
    if Forward in a.flags {
      ScanNameStuck(s, b, 0, a.name, now, a.flags);
      if ok {
        ScanNameClears(s, b, 0, a.name, now, a.flags, m);
      }
    } else {
      ScanAllClears(s, 0, 0, a.addr, now, a.flags, b, m);
    }
  }

  /** No cached record has expired. */
  ghost predicate AllFresh(s: State, now: int)
    requires InRange(s)
  {
    forall i :: 0 <= i < |s.lru| && InUse(s.attr[s.lru[i]]) ==> !Expired(s.attr[s.lru[i]], now)
  }

  /** The oldest record is in use and its name is shadowed by a hosts or DHCP record. */
  ghost predicate OldestShadowed(s: State, now: int)
    requires InRange(s) && |s.chains| > 0 && s.lru != []
  {
    var a := s.attr[Oldest(s)];
    Forward in a.flags && Shadowed(s, Bucket(s.mix, a.name, |s.chains|), 0, a.name, now, a.flags)
  }

  ghost predicate Displaced(s: State, s': State, now: int, y: nat)
    requires y < |s.attr| == |s'.attr|
  {
    y in s.lru && InUse(s.attr[y]) && !Expired(s.attr[y], now) && s'.attr[y] != s.attr[y]
  }

  /** The records in use stand before the free ones, so the oldest one tells whether any is free. */
  lemma OldestTells(s: State, now: int)
    requires Inv(s) && InRange(s) && s.lru != []
    ensures InUse(s.attr[Oldest(s)]) && AllFresh(s, now) ==> !RoomLeft(s, now)
    ensures !InUse(s.attr[Oldest(s)]) ==> RoomLeft(s, now)
    ensures InUse(s.attr[Oldest(s)]) ==> forall i :: 0 <= i < |s.lru| ==> InUse(s.attr[s.lru[i]])
  {
    hide Flagged, ChainsOk, LinksOk, AllHashed;
  }

  lemma SweepLeavesFresh(s: State, now: int)
    requires Valid(s) && InRange(s) && |s.chains| > 0
    ensures var s1 := ScanAll(s, 0, 0, NO_ADDR, now, {});
      && Valid(s1) && Trimmed(s, s1) && AllFresh(s1, now)
      && (forall y :: 0 <= y < |s.attr| ==> !Displaced(s, s1, now, y))
      && (Untouched(s, s1) ==> AllFresh(s, now))
  {
    hide Inv, BatchClosed, Expired, AddrClashes;
    ScanAllTrims(s, 0, 0, NO_ADDR, now, {});
    var s1 := ScanAll(s, 0, 0, NO_ADDR, now, {});
    assert forall x :: 0 <= x < |s.attr| ==> !AddrClashes(s.attr[x], NO_ADDR, {}) by { NoFlagsNoClash(s, NO_ADDR); }
    forall i | 0 <= i < |s1.lru| && InUse(s1.attr[s1.lru[i]]) ensures !Expired(s1.attr[s1.lru[i]], now) {
      var x := s1.lru[i];
      assert s1.attr[x] == s.attr[x];
      var b, m := CachedIsHashed(s, x);
      ScanAllClears(s, 0, 0, NO_ADDR, now, {}, b, m);
    }
  }

  lemma NoFlagsNoClash(s: State, addr: Addr)
    ensures forall x :: 0 <= x < |s.attr| ==> !AddrClashes(s.attr[x], addr, {})
  {
  }

  /** The loop once all expired records are gone. */
  lemma AllocateFresh(s: State, now: int)
    requires Valid(s) && InRange(s) && |s.chains| > 0 && AllFresh(s, now) && s.lru != []
    ensures var (s', out) := Allocate(s, now, true, false);
      && Valid(s') && Trimmed(s, s') && s'.lru != []
      && (out.Got? ==> out.record == Oldest(s') && !InUse(s'.attr[Oldest(s')]))
      && !out.Full?
      && (out.Stuck? <==> !RoomLeft(s, now) && OldestShadowed(s, now))
      && (forall y :: 0 <= y < |s.attr| && Displaced(s, s', now, y) ==> !RoomLeft(s, now))
      && (RoomLeft(s, now) ==> s' == s)
  {
    hide Inv, BatchClosed, Expired, Shadowed;
    TrimmedSelf(s);
    OldestTells(s, now);
    if InUse(s.attr[Oldest(s)]) {
      var a := s.attr[Oldest(s)];
      SpillOldest(s, now);
      ScanFreeTrims(s, a.name, a.addr, now, a.flags);
    }
  }

  /** The allocation loop of an insertion: it fails through its bail-out exactly if no record is free or expired and
      the oldest record's name is shadowed; it gives up an unexpired record only if no record is free or expired. */
  lemma AllocateExact(s: State, now: int, freedAll: bool)
    requires Valid(s) && InRange(s) && |s.chains| > 0 && (freedAll ==> AllFresh(s, now))
    ensures var (s', out) := Allocate(s, now, freedAll, false);
      && Valid(s') && Trimmed(s, s')
      && (out.Full? <==> s.lru == [])
      && (out.Got? ==> s'.lru != [] && out.record == Oldest(s') && !InUse(s'.attr[Oldest(s')]))
      && (out.Stuck? <==> s.lru != [] && !RoomLeft(s, now) && OldestShadowed(s, now))
      && (forall y :: 0 <= y < |s.attr| && Displaced(s, s', now, y) ==> !RoomLeft(s, now))
  {
    hide Inv, BatchClosed, Shadowed, Displaced, Expired;
    TrimmedSelf(s);
    assert forall y :: 0 <= y < |s.attr| ==> !Displaced(s, s, now, y) by { NothingDisplaced(s, now); }
    if s.lru != [] {
      OldestTells(s, now);
      if InUse(s.attr[Oldest(s)]) {
        if freedAll {
          AllocateFresh(s, now);
        } else {
          var s1 := ScanAll(s, 0, 0, NO_ADDR, now, {});
          SweepLeavesFresh(s, now);
          AllocateFresh(s1, now);
          TrimmedTransitive(s, s1, Allocate(s1, now, true, false).0);
          SecondStage(s, s1, now);
        }
      }
    }
  }

  lemma NothingDisplaced(s: State, now: int)
    ensures forall y :: 0 <= y < |s.attr| ==> !Displaced(s, s, now, y)
  {
  }

  /** After the sweep either nothing was freed, and then the old state had no room, or there is room now. */
  lemma SecondStage(s: State, s1: State, now: int)
    requires Valid(s) && InRange(s) && |s.chains| > 0 && s.lru != [] && InUse(s.attr[Oldest(s)])
    requires s1 == ScanAll(s, 0, 0, NO_ADDR, now, {}) && Valid(s1) && AllFresh(s1, now) && Trimmed(s, s1)
    requires Untouched(s, s1) ==> AllFresh(s, now)
    requires forall y :: 0 <= y < |s.attr| ==> !Displaced(s, s1, now, y)
    requires var (s', out) := Allocate(s1, now, true, false);
      && Trimmed(s1, s')
      && (out.Stuck? <==> !RoomLeft(s1, now) && OldestShadowed(s1, now))
      && (forall y :: 0 <= y < |s1.attr| && Displaced(s1, s', now, y) ==> !RoomLeft(s1, now))
      && (RoomLeft(s1, now) ==> s' == s1)
    ensures var (s', out) := Allocate(s1, now, true, false);
      && (out.Stuck? <==> !RoomLeft(s, now) && OldestShadowed(s, now))
      && (forall y :: 0 <= y < |s.attr| && Displaced(s, s', now, y) ==> !RoomLeft(s, now))
  {
    hide Inv, BatchClosed, Shadowed, Expired, Allocate, ScanAll;
    OldestTells(s, now);
    if Untouched(s, s1) {
      var a := s.attr[Oldest(s)];
      ScanAllKeepsShadow(s, 0, 0, NO_ADDR, now, Bucket(s.mix, a.name, |s.chains|), a.name, a.flags);
      assert !RoomLeft(s, now) && !RoomLeft(s1, now);
    } else {
      assert TailFree(s1);
      OldestTells(s1, now);
      assert RoomLeft(s1, now);
      assert RoomLeft(s, now) by { FreedWasExpired(s, s1, now); }
    }
  }

  lemma FreedWasExpired(s: State, s1: State, now: int)
    requires InRange(s) && Trimmed(s, s1) && !Untouched(s, s1)
    requires forall i :: 0 <= i < |s.lru| ==> InUse(s.attr[s.lru[i]])
    requires forall y :: 0 <= y < |s.attr| ==> !Displaced(s, s1, now, y)
    ensures RoomLeft(s, now)
  {
    hide Expired;
    var x := s1.lru[|s1.lru| - 1];
    assert x in s1.lru && x in s.lru;
    var i :| 0 <= i < |s.lru| && s.lru[i] == x;
    assert InUse(s.attr[s.lru[i]]) && !InUse(s1.attr[x]);
    assert !Displaced(s, s1, now, x);
  }
}
