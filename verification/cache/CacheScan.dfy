/** `cache_scan_free`: what it removes, and what it leaves. */
module CacheScan {
  import opened Sequences
  import opened CacheState
  import opened CacheSteps

  /** A forward record that an insertion of `name` with `flags` would displace. */
  predicate Clashes(a: Attr, name: string, flags: Flags) {
    && Forward in a.flags
    && (Meets(flags * a.flags, {IPv4, IPv6}) || Cname in a.flags + flags)
    && SameName(a.name, name)
  }

  function AddrBytes(flags: Flags): (n: nat)
    ensures n <= 16
  {
    if IPv6 in flags then 16 else 4
  }

  /** A cached reverse record that an insertion of `addr` with `flags` would displace. */
  predicate AddrClashes(a: Attr, addr: Addr, flags: Flags) {
    && !IsHost(a)
    && Reverse in a.flags * flags
    && Meets(flags * a.flags, {IPv4, IPv6})
    && a.addr[..AddrBytes(flags)] == addr[..AddrBytes(flags)]
  }

  /** The forward case: one chain; stops at a hosts or DHCP record that the insertion would have to displace. */
  ghost function ScanName(s: State, b: nat, i: nat, name: string, now: int, flags: Flags): (r: (State, bool))
    requires InRange(s) && b < |s.chains| && i <= |s.chains[b]|
    ensures InRange(r.0) && |r.0.chains| == |s.chains|
    decreases |s.chains[b]| - i
  {
    var c := s.chains[b];
    if i == |c| then (s, true)
    else if !Live(s.attr, c[i], now) then ScanName(Evict(s, b, i), b, i, name, now, flags)
    else if Clashes(s.attr[c[i]], name, flags) then
      if IsHost(s.attr[c[i]]) then (s, false) else ScanName(Evict(s, b, i), b, i, name, now, flags)
    else ScanName(s, b, i + 1, name, now, flags)
  }

  /** The other case: every chain, up to the first immortal record that is not a reverse one. */
  ghost function ScanAll(s: State, b: nat, i: nat, addr: Addr, now: int, flags: Flags): (r: State)
    requires InRange(s) && b <= |s.chains| && (b < |s.chains| ==> i <= |s.chains[b]|)
    ensures InRange(r) && |r.chains| == |s.chains|
    decreases |s.chains| - b, if b < |s.chains| then |s.chains[b]| - i else 0
  {
    if b == |s.chains| then s
    else
      var c := s.chains[b];
      if i == |c| || (Reverse !in s.attr[c[i]].flags && Immortal in s.attr[c[i]].flags) then
        ScanAll(s, b + 1, 0, addr, now, flags)
      else if Expired(s.attr[c[i]], now) || AddrClashes(s.attr[c[i]], addr, flags) then
        ScanAll(Evict(s, b, i), b, i, addr, now, flags)
      else
        ScanAll(s, b, i + 1, addr, now, flags)
  }

  ghost function ScanFree(s: State, name: string, addr: Addr, now: int, flags: Flags): (r: (State, bool))
    requires InRange(s) && |s.chains| > 0
    ensures InRange(r.0) && |r.0.chains| == |s.chains|
  {
    if Forward in flags then ScanName(s, Bucket(s.mix, name, |s.chains|), 0, name, now, flags)
    else (ScanAll(s, 0, 0, addr, now, flags), true)
  }

  // ---------- what every scan leaves alone ----------

  /** `s'` differs from `s` only in that some of the cache's own LRU records were freed and some records unhashed. */
  ghost predicate Trimmed(s: State, s': State) {
    && s'.size == s.size && s'.mix == s.mix && |s'.attr| == |s.attr| && s'.pending == s.pending
    && |s'.chains| == |s.chains| && s'.uid >= s.uid && |s'.lru| == |s.lru| && s'.bigLeft == s.bigLeft
    && (forall x :: x in s'.lru <==> x in s.lru)
    && (forall y :: 0 <= y < |s.attr| ==> s'.attr[y] == s.attr[y] || FreedSince(s, s', y))
    && (forall b, y :: 0 <= b < |s.chains| && y in s'.chains[b] ==> y in s.chains[b])
    && (Untouched(s, s') || TailFree(s'))
  }

  ghost predicate FreedSince(s: State, s': State, y: nat)
    requires y < |s.attr| == |s'.attr|
  {
    y in s.lru && s'.attr[y].uid >= s.uid && s'.attr[y] == FreedAttr(s.attr[y], s'.attr[y].uid)
  }

  /** No record was freed. */
  ghost predicate Untouched(s: State, s': State) {
    s'.lru == s.lru && s'.attr == s.attr
  }

  /** The oldest record of the LRU list is free. */
  ghost predicate TailFree(s: State) {
    s.lru != [] && s.lru[|s.lru| - 1] < |s.attr| && !InUse(s.attr[s.lru[|s.lru| - 1]])
  }

  lemma TrimmedTransitive(s: State, s1: State, s2: State)
    requires Trimmed(s, s1) && Trimmed(s1, s2)
    ensures Trimmed(s, s2)
  {
    forall y | 0 <= y < |s.attr| ensures s2.attr[y] == s.attr[y] || FreedSince(s, s2, y) {
      FreedTwice(s.attr[y], s1.attr[y].uid, s2.attr[y].uid);
    }
  }

  lemma FreedTwice(a: Attr, u: int, v: int)
    ensures FreedAttr(FreedAttr(a, u), v) == FreedAttr(a, v)
  {
    assert a.flags - {Forward, Reverse, BigName} - {Forward, Reverse, BigName} == a.flags - {Forward, Reverse, BigName};
  }

  lemma EvictTrims(s: State, b: nat, i: nat)
    requires Inv(s) && InRange(s) && b < |s.chains| && i < |s.chains[b]|
    ensures Trimmed(s, Evict(s, b, i))
    ensures var x := s.chains[b][i]; x < |s.attr| && InUse(s.attr[x]) && (IsHost(s.attr[x]) || x in s.lru)
    ensures var x := s.chains[b][i];
      if IsHost(s.attr[x]) then Evict(s, b, i).attr == s.attr
      else Evict(s, b, i).attr == s.attr[x := FreedAttr(s.attr[x], s.uid)]
  {
    var x := s.chains[b][i];
    var s' := Evict(s, b, i);
    HashedRecord(s, b, i);
    hide Inv;
    WithoutElements(s.lru, x);
    assert forall y :: y in s'.lru <==> y in s.lru;
    RemoveAtElements(s.chains[b], i);
  }

  lemma HashedRecord(s: State, b: nat, i: nat)
    requires Inv(s) && b < |s.chains| && i < |s.chains[b]|
    ensures var x := s.chains[b][i];
      && x < |s.attr| && InUse(s.attr[x]) && (IsHost(s.attr[x]) || (x in s.lru && x < s.size))
         && (IsHost(s.attr[x]) <==> x >= s.size)
      && Bucket(s.mix, s.attr[x].name, |s.chains|) == b
    ensures Distinct(s.lru) && Distinct(s.chains[b])
  {
    assert ChainOk(s, b, s.chains[b]) && MayHash(s, b, s.chains[b][i]);
  }

  // ---------- the forward scan ----------

  /** A hosts or DHCP record that clashes stands in chain `b`, at or after position `i`, before every cached
      record the scan would free. */
  ghost predicate Shadowed(s: State, b: nat, i: nat, name: string, now: int, flags: Flags)
    requires InRange(s) && b < |s.chains|
  {
    exists j :: i <= j < |s.chains[b]| && Shadows(s, s.chains[b], j, name, now, flags) &&
      forall k :: i <= k < j ==> Spared(s, s.chains[b], k, name, now, flags)
  }

  ghost predicate Shadows(s: State, c: seq<nat>, j: nat, name: string, now: int, flags: Flags) {
    && j < |c| && c[j] < |s.attr|
    && IsHost(s.attr[c[j]]) && Live(s.attr, c[j], now) && Clashes(s.attr[c[j]], name, flags)
  }

  ghost predicate Spared(s: State, c: seq<nat>, k: nat, name: string, now: int, flags: Flags) {
    && k < |c| && c[k] < |s.attr|
    && (IsHost(s.attr[c[k]]) || (Live(s.attr, c[k], now) && !Clashes(s.attr[c[k]], name, flags)))
  }

  /** Why the forward scan may free a record. */
  ghost predicate NameReason(s: State, s': State, y: nat, name: string, now: int, flags: Flags)
    requires y < |s.attr| == |s'.attr|
  {
    Expired(s.attr[y], now) || Outdated(s'.attr, y) || Clashes(s.attr[y], name, flags)
  }

  /** A CNAME that has lost its target never gets it back by freeing more records. */
  lemma OutdatedStays(s: State, s': State, y: nat)
    requires Inv(s) && Trimmed(s, s') && y < |s.attr| && InUse(s.attr[y]) && Outdated(s.attr, y)
    ensures Outdated(s'.attr, y)
  {
    var t := s.attr[y].target;
    if t in s.lru && y < s.size { assert LinkOk(s, y); }
  }

  lemma {:induction false} ScanNameTrims(s: State, b: nat, i: nat, name: string, now: int, flags: Flags)
    requires Valid(s) && InRange(s) && b < |s.chains| && i <= |s.chains[b]|
    ensures var (s', ok) := ScanName(s, b, i, name, now, flags);
      && Valid(s') && Trimmed(s, s')
      && (forall y :: 0 <= y < |s.attr| && s'.attr[y] != s.attr[y] ==> NameReason(s, s', y, name, now, flags))
    decreases |s.chains[b]| - i
  {
    hide Inv, Live, Clashes, Expired, Outdated, BatchClosed, Evict, Trimmed, IsHost;
    TrimmedSelf(s);
    if i < |s.chains[b]| {
      var x := s.chains[b][i];
      EvictTrims(s, b, i);
      EvictKeepsInv(s, b, i);
      var s1 := Evict(s, b, i);
      if !Live(s.attr, x, now) || (Clashes(s.attr[x], name, flags) && !IsHost(s.attr[x])) {
        ScanNameTrims(s1, b, i, name, now, flags);
        var s' := ScanName(s1, b, i, name, now, flags).0;
        TrimmedTransitive(s, s1, s');
        TrimmedSizes(s, s1);
        TrimmedSizes(s, s');
        DeadHasReason(s, s', x, now);
      } else if !Clashes(s.attr[x], name, flags) {
        ScanNameTrims(s, b, i + 1, name, now, flags);
      }
    }
  }

  lemma TrimmedSelf(s: State)
    ensures Trimmed(s, s)
  {
  }

  lemma TrimmedSizes(s: State, s': State)
    requires Trimmed(s, s')
    ensures |s'.attr| == |s.attr| && |s'.chains| == |s.chains|
  {
  }

  lemma DeadHasReason(s: State, s': State, x: nat, now: int)
    requires Inv(s) && Trimmed(s, s') && x < |s.attr| && InUse(s.attr[x])
    ensures !Live(s.attr, x, now) ==> Expired(s.attr[x], now) || Outdated(s'.attr, x)
  {
    if Outdated(s.attr, x) {
      OutdatedStays(s, s', x);
    }
  }

  /** Freed records stay free. */
  lemma FreedShows(s: State, s1: State, s': State, x: nat)
    requires Trimmed(s1, s') && x < |s.attr| == |s1.attr| && InUse(s.attr[x]) && !InUse(s1.attr[x])
    ensures !Untouched(s, s')
  {
  }

  /** When nothing was freed, the scan fails exactly because of a hosts or DHCP record that comes first. */
  lemma {:induction false} ScanNameStuck(s: State, b: nat, i: nat, name: string, now: int, flags: Flags)
    requires Valid(s) && InRange(s) && b < |s.chains| && i <= |s.chains[b]|
    ensures var (s', ok) := ScanName(s, b, i, name, now, flags);
      !ok && Untouched(s, s') <==> Shadowed(s, b, i, name, now, flags)
    decreases |s.chains[b]| - i
  {
    hide Inv, Live, Clashes, BatchClosed, Evict, IsHost;
    var c := s.chains[b];
    if i < |c| {
      var x := c[i];
      EvictTrims(s, b, i);
      EvictKeepsInv(s, b, i);
      var s1 := Evict(s, b, i);
      if !Live(s.attr, x, now) || (Clashes(s.attr[x], name, flags) && !IsHost(s.attr[x])) {
        ScanNameStuck(s1, b, i, name, now, flags);
        if IsHost(s.attr[x]) {
          ShadowAfterUnhash(s, b, i, i, name, now, flags);
        } else {
          ScanNameTrims(s1, b, i, name, now, flags);
          FreedShows(s, s1, ScanName(s1, b, i, name, now, flags).0, x);
          assert !Spared(s, c, i, name, now, flags) && !Shadows(s, c, i, name, now, flags);
        }
      } else if !Clashes(s.attr[x], name, flags) {
        ScanNameStuck(s, b, i + 1, name, now, flags);
        assert Spared(s, c, i, name, now, flags) && !Shadows(s, c, i, name, now, flags);
      } else {
        assert Shadows(s, c, i, name, now, flags);
      }
    }
  }

  /** A dead hosts or DHCP record shadows nothing. */
  lemma ShadowAfterUnhash(s: State, b: nat, i0: nat, i: nat, name: string, now: int, flags: Flags)
    requires InRange(s) && b < |s.chains| && i0 <= i < |s.chains[b]| && InRange(Evict(s, b, i))
    requires IsHost(s.attr[s.chains[b][i]]) && !Live(s.attr, s.chains[b][i], now)
    ensures Shadowed(Evict(s, b, i), b, i0, name, now, flags) <==> Shadowed(s, b, i0, name, now, flags)
    ensures Evict(s, b, i).lru == s.lru && Evict(s, b, i).attr == s.attr
  {
    hide Live, Clashes;
    var s1 := Evict(s, b, i);
    var c, c1 := s.chains[b], s1.chains[b];
    assert Spared(s, c, i, name, now, flags) && !Shadows(s, c, i, name, now, flags);
    forall k | 0 <= k < |c1|
      ensures var k' := if k < i then k else k + 1;
        && Shadows(s1, c1, k, name, now, flags) == Shadows(s, c, k', name, now, flags)
        && Spared(s1, c1, k, name, now, flags) == Spared(s, c, k', name, now, flags) {}
    if Shadowed(s1, b, i0, name, now, flags) {
      var j :| i0 <= j < |c1| && Shadows(s1, c1, j, name, now, flags) && forall k :: i0 <= k < j ==>
        Spared(s1, c1, k, name, now, flags);
      var j' := if j < i then j else j + 1;
      assert Shadows(s, c, j', name, now, flags);
      forall k | i0 <= k < j' ensures Spared(s, c, k, name, now, flags) {
        assert k == i || Spared(s1, c1, if k < i then k else k - 1, name, now, flags);
      }
    }
    if Shadowed(s, b, i0, name, now, flags) {
      var j :| i0 <= j < |c| && Shadows(s, c, j, name, now, flags) && forall k :: i0 <= k < j ==>
        Spared(s, c, k, name, now, flags);
      var j' := if j < i then j else j - 1;
      assert Shadows(s1, c1, j', name, now, flags);
      forall k | i0 <= k < j' ensures Spared(s1, c1, k, name, now, flags) {
        assert Spared(s, c, if k < i then k else k + 1, name, now, flags);
      }
    }
  }

  lemma FreedStaysFree(s1: State, s': State, x: nat)
    requires Trimmed(s1, s') && x < |s1.attr| && !InUse(s1.attr[x])
    ensures !InUse(s'.attr[x])
  {
  }

  /** A scan that does not fail frees every cached record of the chain that has expired or clashes. */
  lemma {:induction false} ScanNameClears(s: State, b: nat, i: nat, name: string, now: int, flags: Flags, m: nat)
    requires Valid(s) && InRange(s) && b < |s.chains| && i <= m < |s.chains[b]|
    requires ScanName(s, b, i, name, now, flags).1
    ensures var (s', ok) := ScanName(s, b, i, name, now, flags);
      var y := s.chains[b][m];
      |s'.attr| == |s.attr| && (!IsHost(s.attr[y]) && (Expired(s.attr[y], now) || Clashes(s.attr[y], name, flags)) ==>
        !InUse(s'.attr[y]))
    decreases |s.chains[b]| - i
  {
    hide Inv, Clashes, BatchClosed, Evict, IsHost, Outdated;
    var c := s.chains[b];
    var x := c[i];
    var y := c[m];
    EvictTrims(s, b, i);
    EvictKeepsInv(s, b, i);
    var s1 := Evict(s, b, i);
    ScanNameTrims(s, b, i, name, now, flags);
    if !Live(s.attr, x, now) || (Clashes(s.attr[x], name, flags) && !IsHost(s.attr[x])) {
      ScanNameTrims(s1, b, i, name, now, flags);
      if m == i {
        if !IsHost(s.attr[x]) {
          FreedStaysFree(s1, ScanName(s1, b, i, name, now, flags).0, x);
        }
      } else {
        HashedRecord(s, b, i);
        assert s1.chains[b][m - 1] == y && s1.attr[y] == s.attr[y];
        ScanNameClears(s1, b, i, name, now, flags, m - 1);
      }
    } else {
      if m > i {
        ScanNameClears(s, b, i + 1, name, now, flags, m);
      }
    }
  }

  lemma {:induction false} ScanAllTrims(s: State, b: nat, i: nat, addr: Addr, now: int, flags: Flags)
    requires Valid(s) && InRange(s) && b <= |s.chains| && (b < |s.chains| ==> i <= |s.chains[b]|)
    ensures var s' := ScanAll(s, b, i, addr, now, flags);
      && Valid(s') && Trimmed(s, s')
      && (forall y :: 0 <= y < |s.attr| && s'.attr[y] != s.attr[y] ==>
           Expired(s.attr[y], now) || AddrClashes(s.attr[y], addr, flags))
    decreases |s.chains| - b, if b < |s.chains| then |s.chains[b]| - i else 0
  {
    hide Inv, AddrClashes, Expired, BatchClosed, Evict, Trimmed;
    TrimmedSelf(s);
    if b < |s.chains| {
      var c := s.chains[b];
      if i == |c| || (Reverse !in s.attr[c[i]].flags && Immortal in s.attr[c[i]].flags) {
        ScanAllTrims(s, b + 1, 0, addr, now, flags);
      } else if Expired(s.attr[c[i]], now) || AddrClashes(s.attr[c[i]], addr, flags) {
        EvictTrims(s, b, i);
        EvictKeepsInv(s, b, i);
        var s1 := Evict(s, b, i);
        TrimmedSizes(s, s1);
        ScanAllTrims(s1, b, i, addr, now, flags);
        TrimmedTransitive(s, s1, ScanAll(s1, b, i, addr, now, flags));
      } else {
        ScanAllTrims(s, b, i + 1, addr, now, flags);
      }
    }
  }

  /** Cached records never stand behind the record at which the scan leaves a chain. */
  lemma CachedBeforeImmortal(s: State, b: nat, i: nat, m: nat)
    requires Inv(s) && InRange(s) && b < |s.chains| && i <= m < |s.chains[b]|
    requires Reverse !in s.attr[s.chains[b][i]].flags && Immortal in s.attr[s.chains[b][i]].flags
    ensures IsHost(s.attr[s.chains[b][m]])
  {
    var c := s.chains[b];
    assert ChainOk(s, b, c);
    assert i == m || Rank(s.attr[c[i]].flags) <= Rank(s.attr[c[m]].flags);
    HashedRecord(s, b, m);
  }

  /** The whole-cache scan frees every cached record, in any chain, that has expired or clashes. */
  lemma {:induction false} ScanAllClears(s: State, b: nat, i: nat, addr: Addr, now: int, flags: Flags, a: nat, m: nat)
    requires Valid(s) && InRange(s) && b < |s.chains| && i <= |s.chains[b]|
    requires b <= a < |s.chains| && m < |s.chains[a]| && (a == b ==> i <= m)
    ensures var s' := ScanAll(s, b, i, addr, now, flags);
      var y := s.chains[a][m];
      |s'.attr| == |s.attr| &&
      (!IsHost(s.attr[y]) && (Expired(s.attr[y], now) || AddrClashes(s.attr[y], addr, flags)) ==> !InUse(s'.attr[y]))
    decreases |s.chains| - b, |s.chains[b]| - i
  {
    hide Inv, AddrClashes, Expired, BatchClosed, Evict, IsHost;
    var c := s.chains[b];
    var y := s.chains[a][m];
    ScanAllTrims(s, b, i, addr, now, flags);
    if i == |c| || (Reverse !in s.attr[c[i]].flags && Immortal in s.attr[c[i]].flags) {
      if a == b {
        CachedBeforeImmortal(s, b, i, m);
      } else {
        ScanAllClears(s, b + 1, 0, addr, now, flags, a, m);
      }
    } else if Expired(s.attr[c[i]], now) || AddrClashes(s.attr[c[i]], addr, flags) {
      EvictTrims(s, b, i);
      EvictKeepsInv(s, b, i);
      var s1 := Evict(s, b, i);
      ScanAllTrims(s1, b, i, addr, now, flags);
      if a == b && m == i {
        if !IsHost(s.attr[y]) {
          FreedStaysFree(s1, ScanAll(s1, b, i, addr, now, flags), y);
        }
      } else {
        HashedRecord(s, b, i);
        HashedRecord(s, a, m);
        assert y != c[i];
        ScanAllClears(s1, b, i, addr, now, flags, a, if a == b then m - 1 else m);
      }
    } else if a != b || m > i {
      ScanAllClears(s, b, i + 1, addr, now, flags, a, m);
    }
  }

  lemma ShadowElsewhere(s: State, s1: State, a: nat, name: string, now: int, flags: Flags)
    requires InRange(s) && InRange(s1) && a < |s.chains| && a < |s1.chains|
    requires s1.attr == s.attr && s1.chains[a] == s.chains[a]
    ensures Shadowed(s1, a, 0, name, now, flags) <==> Shadowed(s, a, 0, name, now, flags)
  {
    hide Live, Clashes;
    forall k ensures Shadows(s1, s.chains[a], k, name, now, flags) == Shadows(s, s.chains[a], k, name, now, flags)
      && Spared(s1, s.chains[a], k, name, now, flags) == Spared(s, s.chains[a], k, name, now, flags) {}
  }

  /** A whole-cache scan for expired records that frees none does not change which names are shadowed. */
  lemma {:induction false} ScanAllKeepsShadow(s: State, b: nat, i: nat, addr: Addr, now: int, a: nat, name: string,
      flags: Flags)
    requires Valid(s) && InRange(s) && b <= |s.chains| && (b < |s.chains| ==> i <= |s.chains[b]|) && a < |s.chains|
    requires Untouched(s, ScanAll(s, b, i, addr, now, {}))
    ensures Shadowed(ScanAll(s, b, i, addr, now, {}), a, 0, name, now, flags) <==> Shadowed(s, a, 0, name, now, flags)
    decreases |s.chains| - b, if b < |s.chains| then |s.chains[b]| - i else 0
  {
    hide Inv, Clashes, BatchClosed, Evict, IsHost, Outdated, Shadowed, Trimmed;
    if b < |s.chains| {
      var c := s.chains[b];
      assert forall x :: 0 <= x < |s.attr| ==> !AddrClashes(s.attr[x], addr, {});
      if i == |c| || (Reverse !in s.attr[c[i]].flags && Immortal in s.attr[c[i]].flags) {
        ScanAllKeepsShadow(s, b + 1, 0, addr, now, a, name, flags);
      } else if Expired(s.attr[c[i]], now) {
        EvictTrims(s, b, i);
        EvictKeepsInv(s, b, i);
        var s1 := Evict(s, b, i);
        ScanAllTrims(s1, b, i, addr, now, {});
        if IsHost(s.attr[c[i]]) {
          ShadowAfterUnhash(s, b, 0, i, name, now, flags);
          if a != b { ShadowElsewhere(s, s1, a, name, now, flags); }
          ScanAllKeepsShadow(s1, b, i, addr, now, a, name, flags);
        } else {
          FreedShows(s, s1, ScanAll(s1, b, i, addr, now, {}), c[i]);
        }
      } else {
        ScanAllKeepsShadow(s, b, i + 1, addr, now, a, name, flags);
      }
    }
  }
}
