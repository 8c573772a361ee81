/** The lookup by address: it searches every chain, but only up to the first record that is not a reverse one. */
module CacheReverse {
  import opened Sequences
  import opened CacheState
  import opened CacheSteps
  import opened CacheLookup

  function AddrLen(prot: Flags): (n: nat)
    ensures n <= 16
  {
    if prot == {IPv6} then 16 else 4
  }

  predicate AddrMatch(a: Attr, addr: Addr, prot: Flags) {
    Reverse in a.flags && Meets(a.flags, prot) && a.addr[..AddrLen(prot)] == addr[..AddrLen(prot)]
  }

  /** Record `cur.i` of chain `b` is next, or chain `b` is finished, or all chains are. */
  ghost predicate AddrOk(cur: Cursor, b: nat) {
    InRange(cur.s) && b <= |cur.s.chains| && (b < |cur.s.chains| ==> cur.i <= |cur.s.chains[b]|)
  }

  ghost predicate ChainLeft(cur: Cursor, b: nat)
    requires AddrOk(cur, b) && b < |cur.s.chains|
  {
    cur.i < |cur.s.chains[b]| && Reverse in cur.s.attr[cur.s.chains[b][cur.i]].flags
  }

  /** One turn of the inner loop of `cache_find_by_addr`. */
  ghost function AddrStep(cur: Cursor, b: nat, addr: Addr, now: int, prot: Flags): (r: Cursor)
    requires AddrOk(cur, b) && b < |cur.s.chains| && ChainLeft(cur, b)
    ensures AddrOk(r, b) && |r.s.chains| == |cur.s.chains|
    ensures |r.s.chains[b]| - r.i == |cur.s.chains[b]| - cur.i - 1
  {
    var x := cur.s.chains[b][cur.i];
    if Expired(cur.s.attr[x], now) then cur.(s := Evict(cur.s, b, cur.i))
    else if AddrMatch(cur.s.attr[x], addr, prot) then Note(cur, x).(i := cur.i + 1)
    else cur.(i := cur.i + 1)
  }

  ghost function SweepAddr(cur: Cursor, b: nat, addr: Addr, now: int, prot: Flags): (r: Cursor)
    requires AddrOk(cur, b)
    ensures InRange(r.s) && |r.s.chains| == |cur.s.chains|
    decreases |cur.s.chains| - b, if b < |cur.s.chains| then |cur.s.chains[b]| - cur.i else 0
  {
    if b == |cur.s.chains| then cur
    else if ChainLeft(cur, b) then SweepAddr(AddrStep(cur, b, addr, now, prot), b, addr, now, prot)
    else SweepAddr(cur.(i := 0), b + 1, addr, now, prot)
  }

  // ---------- the records a lookup by address should answer with ----------

  /** The answers among the first `k` records of a chain. */
  ghost function Matching(s: State, c: seq<nat>, k: nat, addr: Addr, now: int, prot: Flags): seq<nat>
    requires ChainInRange(s, c) && k <= |c|
  {
    if k == 0 then []
    else
      Matching(s, c, k - 1, addr, now, prot) +
      if !Expired(s.attr[c[k - 1]], now) && AddrMatch(s.attr[c[k - 1]], addr, prot) then [c[k - 1]] else []
  }

  /** The answers in the first `b` chains: every unexpired reverse record for the address, wherever it stands. */
  ghost function AllMatching(s: State, b: nat, addr: Addr, now: int, prot: Flags): seq<nat>
    requires InRange(s) && b <= |s.chains|
  {
    if b == 0 then []
    else AllMatching(s, b - 1, addr, now, prot) + Matching(s, s.chains[b - 1], |s.chains[b - 1]|, addr, now, prot)
  }

  lemma MatchingElements(s: State, c: seq<nat>, k: nat, addr: Addr, now: int, prot: Flags)
    requires ChainInRange(s, c) && k <= |c|
    ensures var f := Matching(s, c, k, addr, now, prot);
      && (forall y :: y in f <==>
           exists j :: 0 <= j < k && c[j] == y && !Expired(s.attr[y], now) && AddrMatch(s.attr[y], addr, prot))
      && (Distinct(c) ==> Distinct(f))
  {
    hide AddrMatch, Expired;
    if k > 0 {
      MatchingElements(s, c, k - 1, addr, now, prot);
      var g := Matching(s, c, k - 1, addr, now, prot);
      if !Expired(s.attr[c[k - 1]], now) && AddrMatch(s.attr[c[k - 1]], addr, prot) && Distinct(c) {
        SnocDistinct(c, k - 1, g);
      }
    }
  }

  lemma AllMatchingElements(s: State, b: nat, addr: Addr, now: int, prot: Flags)
    requires InRange(s) && b <= |s.chains|
    ensures forall y :: y in AllMatching(s, b, addr, now, prot) <==>
      y < |s.attr| && (exists a :: 0 <= a < b && y in s.chains[a]) && !Expired(s.attr[y], now)
        && AddrMatch(s.attr[y], addr, prot)
  {
    hide AddrMatch, Expired;
    if b > 0 {
      AllMatchingElements(s, b - 1, addr, now, prot);
      MatchingElements(s, s.chains[b - 1], |s.chains[b - 1]|, addr, now, prot);
    }
  }

  lemma AllMatchingDistinct(s: State, b: nat, addr: Addr, now: int, prot: Flags)
    requires Inv(s) && InRange(s) && b <= |s.chains|
    ensures Distinct(AllMatching(s, b, addr, now, prot))
  {
    hide AddrMatch, Expired, Inv, Matching, InRange;
    assert forall a :: 0 <= a < |s.chains| ==> ChainInRange(s, s.chains[a]) by { InRangeChains(s); }
    if b > 0 {
      AllMatchingDistinct(s, b - 1, addr, now, prot);
      AllMatchingElements(s, b - 1, addr, now, prot);
      var c := s.chains[b - 1];
      var f, g := AllMatching(s, b - 1, addr, now, prot), Matching(s, c, |c|, addr, now, prot);
      MatchingElements(s, c, |c|, addr, now, prot);
      if |c| > 0 { HostIffForeign(s, b - 1, 0); }
      forall i | 0 <= i < |g| ensures g[i] !in f {
        assert g[i] in g;
        OneChain(s, b - 1, g[i]);
      }
      ConcatDistinct(f, g);
    }
  }

  lemma InRangeChains(s: State)
    requires InRange(s)
    ensures forall a :: 0 <= a < |s.chains| ==> ChainInRange(s, s.chains[a])
  {
  }

  lemma ConcatDistinct(f: seq<nat>, g: seq<nat>)
    requires Distinct(f) && Distinct(g) && forall i :: 0 <= i < |g| ==> g[i] !in f
    ensures Distinct(f + g)
  {
  }

  /** A record is in at most one chain. */
  lemma OneChain(s: State, b: nat, y: nat)
    requires Inv(s) && b < |s.chains| && y in s.chains[b]
    ensures forall a :: 0 <= a < |s.chains| && y in s.chains[a] ==> a == b
  {
    var j :| 0 <= j < |s.chains[b]| && s.chains[b][j] == y;
    HostIffForeign(s, b, j);
    forall a | 0 <= a < |s.chains| && y in s.chains[a] ensures a == b {
      var i :| 0 <= i < |s.chains[a]| && s.chains[a][i] == y;
      HostIffForeign(s, a, i);
    }
  }

  /** After the first record of a chain that is not a reverse one, none is. */
  lemma NoReverseAfter(s: State, b: nat, k: nat, addr: Addr, now: int, prot: Flags)
    requires Inv(s) && InRange(s) && b < |s.chains| && ChainInRange(s, s.chains[b]) && k <= |s.chains[b]|
    requires k < |s.chains[b]| ==> Reverse !in s.attr[s.chains[b][k]].flags
    ensures Matching(s, s.chains[b], |s.chains[b]|, addr, now, prot) == Matching(s, s.chains[b], k, addr, now, prot)
  {
    var c := s.chains[b];
    NoReverseLeft(s, b, k);
    hide Inv, Expired, InRange;
    var m := k;
    while m < |c|
      invariant k <= m <= |c|
      invariant Matching(s, c, m, addr, now, prot) == Matching(s, c, k, addr, now, prot)
    {
      assert !AddrMatch(s.attr[c[m]], addr, prot);
      m := m + 1;
    }
  }

  /** `s` is what `s0` has become after the first `b` chains and `k` records of the next one were searched. */
  ghost predicate Searched(s0: State, b: nat, k: nat, now: int, s: State, i: nat)
    requires b <= |s0.chains|
  {
    && s.size == s0.size && s.mix == s0.mix && |s.attr| == |s0.attr| && |s.chains| == |s0.chains|
    && (forall y :: 0 <= y < |s.attr| ==>
          s.attr[y] == s0.attr[y] || (y < s.size && Expired(s0.attr[y], now) && !InUse(s.attr[y])))
    && (forall y :: y in s.lru <==> y in s0.lru)
    && (forall a, j :: 0 <= a < b && 0 <= j < |s0.chains[a]| ==> Handled(s0, now, s, s0.chains[a][j]))
    && (b < |s.chains| ==>
          && i <= |s.chains[b]| && k <= |s0.chains[b]| && s.chains[b][i..] == s0.chains[b][k..]
          && (forall j :: 0 <= j < k ==> Handled(s0, now, s, s0.chains[b][j]))
          && (forall a :: b < a < |s.chains| ==> s.chains[a] == s0.chains[a]))
  }

  /** An expired reverse record of the cache is no longer in use. */
  ghost predicate Handled(s0: State, now: int, s: State, y: nat) {
    y < s.size && y < |s.attr| && y < |s0.attr| && Reverse in s0.attr[y].flags && Expired(s0.attr[y], now) ==>
      !InUse(s.attr[y])
  }

  ghost predicate AddrProgress(s0: State, b: nat, k: nat, cur: Cursor, addr: Addr, now: int, prot: Flags)
    requires InRange(s0) && b <= |s0.chains| && (b < |s0.chains| ==>
      k <= |s0.chains[b]| && ChainInRange(s0, s0.chains[b]))
  {
    && AddrOk(cur, b) && Valid(cur.s)
    && Searched(s0, b, k, now, cur.s, cur.i)
    && Noted(s0, FoundSoFar(s0, b, k, addr, now, prot), cur)
  }

  ghost function FoundSoFar(s0: State, b: nat, k: nat, addr: Addr, now: int, prot: Flags): seq<nat>
    requires InRange(s0) && b <= |s0.chains| && (b < |s0.chains| ==>
      k <= |s0.chains[b]| && ChainInRange(s0, s0.chains[b]))
  {
    AllMatching(s0, b, addr, now, prot) + if b < |s0.chains| then Matching(s0, s0.chains[b], k, addr, now, prot) else []
  }

  lemma InvLists(s: State)
    requires Inv(s)
    ensures Distinct(s.lru) && (forall x :: x in s.lru ==> x < s.size <= |s.attr|)
  {
  }

  lemma EvictSearched(s0: State, b: nat, k: nat, now: int, s: State, i: nat)
    requires Inv(s) && InRange(s) && b < |s0.chains| && k < |s0.chains[b]|
    requires Searched(s0, b, k, now, s, i) && i < |s.chains[b]| && s.chains[b][i] == s0.chains[b][k]
    requires var x := s.chains[b][i];
      && Expired(s0.attr[x], now) && s0.attr[x] == s.attr[x] && (IsHost(s.attr[x]) || x in s.lru)
         && (IsHost(s.attr[x]) <==> x >= s.size)
    ensures Searched(s0, b, k + 1, now, Evict(s, b, i), i)
  {
    var x := s.chains[b][i];
    var s' := Evict(s, b, i);
    InvLists(s);
    WithoutElements(s.lru, x);
    assert s'.chains[b][i..] == s.chains[b][i..][1..] == s0.chains[b][k + 1..];
    assert forall y :: y in s'.lru <==> y in s.lru;
    forall y | 0 <= y < |s.attr| && Handled(s0, now, s, y) ensures Handled(s0, now, s', y) {}
  }

  lemma FoundSoFarStep(s0: State, b: nat, k: nat, addr: Addr, now: int, prot: Flags)
    requires Inv(s0) && InRange(s0) && b < |s0.chains| && k < |s0.chains[b]| && ChainInRange(s0, s0.chains[b])
    ensures var f := FoundSoFar(s0, b, k, addr, now, prot);
      var x := s0.chains[b][k];
      && x !in f
      && FoundSoFar(s0, b, k + 1, addr, now, prot) ==
         if !Expired(s0.attr[x], now) && AddrMatch(s0.attr[x], addr, prot) then f + [x] else f
  {
    hide AddrMatch, Expired, Inv;
    var x := s0.chains[b][k];
    AllMatchingElements(s0, b, addr, now, prot);
    MatchingElements(s0, s0.chains[b], k, addr, now, prot);
    OneChain(s0, b, x);
    HostIffForeign(s0, b, k);
  }

  /** The record the search stands at is as it was when the search began. */
  lemma Standing(s0: State, b: nat, k: nat, cur: Cursor, addr: Addr, now: int, prot: Flags)
    requires Inv(s0) && InRange(s0) && b < |s0.chains| && ChainInRange(s0, s0.chains[b]) && k <= |s0.chains[b]|
    requires AddrProgress(s0, b, k, cur, addr, now, prot)
    ensures cur.i <= |cur.s.chains[b]| && |cur.s.chains[b]| - cur.i == |s0.chains[b]| - k
    ensures k < |s0.chains[b]| ==>
      var x := s0.chains[b][k];
      && cur.s.chains[b][cur.i] == x && x < |cur.s.attr| && cur.s.attr[x] == s0.attr[x]
      && (IsHost(s0.attr[x]) <==> x >= s0.size) && (x < s0.size ==> x in cur.s.lru) && cur.s.size == s0.size
      && InUse(s0.attr[x])
  {
    assert |cur.s.chains[b][cur.i..]| == |s0.chains[b][k..]|;
    if k < |s0.chains[b]| {
      assert cur.s.chains[b][cur.i..][0] == s0.chains[b][k..][0];
      HostIffForeign(cur.s, b, cur.i);
      HostIffForeign(s0, b, k);
    }
  }

  lemma AddrStepProgress(s0: State, b: nat, k: nat, cur: Cursor, addr: Addr, now: int, prot: Flags)
    requires Inv(s0) && InRange(s0) && b < |s0.chains| && ChainInRange(s0, s0.chains[b]) && k <= |s0.chains[b]|
    requires AddrProgress(s0, b, k, cur, addr, now, prot) && ChainLeft(cur, b)
    ensures k < |s0.chains[b]|
    ensures AddrProgress(s0, b, k + 1, AddrStep(cur, b, addr, now, prot), addr, now, prot)
  {
    hide Inv, AddrMatch, Expired, Noted, BatchClosed, FoundSoFar, Handled;
    Standing(s0, b, k, cur, addr, now, prot);
    InvLists(cur.s);
    FoundSoFarStep(s0, b, k, addr, now, prot);
    var x := s0.chains[b][k];
    var f := FoundSoFar(s0, b, k, addr, now, prot);
    if Expired(s0.attr[x], now) {
      EvictKeepsInv(cur.s, b, cur.i);
      EvictSearched(s0, b, k, now, cur.s, cur.i);
      EvictNoted(s0, f, cur, b);
    } else {
      assert cur.s.chains[b][cur.i + 1..] == cur.s.chains[b][cur.i..][1..] == s0.chains[b][k + 1..];
      SearchedPast(s0, b, k, now, cur.s, cur.i);
      if AddrMatch(s0.attr[x], addr, prot) {
        NoteOne(s0, f, cur, x);
        NoteKeepsRest(cur, x);
        if x < s0.size {
          PromoteSearched(s0, b, k + 1, now, cur.s, cur.i + 1, x);
        }
        SameNoted(s0, f + [x], Note(cur, x));
      } else {
        SameNoted(s0, f, cur);
      }
    }
  }

  lemma PromoteSearched(s0: State, b: nat, k: nat, now: int, s: State, i: nat, x: nat)
    requires b <= |s0.chains| && Searched(s0, b, k, now, s, i) && Valid(s) && InRange(s)
    requires x in s.lru && x < |s.attr| && InUse(s.attr[x])
    ensures Searched(s0, b, k, now, Promote(s, x), i) && Valid(Promote(s, x)) && InRange(Promote(s, x))
  {
    hide Searched, Inv, BatchClosed;
    PromoteKeepsInv(s, x);
    InvInRange(Promote(s, x));
    InvDistinct(s);
    WithoutElements(s.lru, x);
    LruOnly(s0, b, k, now, s, i, Promote(s, x));
  }

  lemma SearchedPast(s0: State, b: nat, k: nat, now: int, s: State, i: nat)
    requires b < |s0.chains| && k < |s0.chains[b]|
    requires Searched(s0, b, k, now, s, i) && i < |s.chains[b]|
    requires s.chains[b][i + 1..] == s0.chains[b][k + 1..]
    requires s0.chains[b][k] < |s0.attr| && !Expired(s0.attr[s0.chains[b][k]], now)
    ensures Searched(s0, b, k + 1, now, s, i + 1)
  {
  }

  lemma LruOnly(s0: State, b: nat, k: nat, now: int, s: State, i: nat, s': State)
    requires b <= |s0.chains| && Searched(s0, b, k, now, s, i)
    requires s' == s.(lru := s'.lru) && (forall y :: y in s'.lru <==> y in s.lru)
    ensures Searched(s0, b, k, now, s', i)
  {
  }

  lemma NextChain(s0: State, b: nat, k: nat, cur: Cursor, addr: Addr, now: int, prot: Flags)
    requires Inv(s0) && InRange(s0) && b < |s0.chains| && ChainInRange(s0, s0.chains[b]) && k <= |s0.chains[b]|
    requires AddrProgress(s0, b, k, cur, addr, now, prot) && !ChainLeft(cur, b)
    ensures b + 1 < |s0.chains| ==> ChainInRange(s0, s0.chains[b + 1])
    ensures AddrProgress(s0, b + 1, 0, cur.(i := 0), addr, now, prot)
  {
    hide Inv, AddrMatch, Expired, Noted, BatchClosed;
    Standing(s0, b, k, cur, addr, now, prot);
    NoReverseAfter(s0, b, k, addr, now, prot);
    NoReverseLeft(s0, b, k);
    InRangeChains(s0);
    FoundNext(s0, b, k, addr, now, prot);
    hide FoundSoFar, Matching, AllMatching;
    SameNoted(s0, FoundSoFar(s0, b, k, addr, now, prot), cur);
  }

  lemma FoundNext(s0: State, b: nat, k: nat, addr: Addr, now: int, prot: Flags)
    requires InRange(s0) && b < |s0.chains| && ChainInRange(s0, s0.chains[b]) && k <= |s0.chains[b]|
    requires Matching(s0, s0.chains[b], |s0.chains[b]|, addr, now, prot)
          == Matching(s0, s0.chains[b], k, addr, now, prot)
    requires b + 1 < |s0.chains| ==> ChainInRange(s0, s0.chains[b + 1])
    ensures FoundSoFar(s0, b + 1, 0, addr, now, prot) == FoundSoFar(s0, b, k, addr, now, prot)
  {
    assert AllMatching(s0, b + 1, addr, now, prot) + [] == AllMatching(s0, b + 1, addr, now, prot);
  }

  lemma NoReverseLeft(s0: State, b: nat, k: nat)
    requires Inv(s0) && InRange(s0) && b < |s0.chains| && k <= |s0.chains[b]|
    requires k < |s0.chains[b]| ==> Reverse !in s0.attr[s0.chains[b][k]].flags
    ensures forall j :: k <= j < |s0.chains[b]| ==> Reverse !in s0.attr[s0.chains[b][j]].flags
  {
    var c := s0.chains[b];
    assert ChainOk(s0, b, c);
    forall j | k <= j < |c| ensures Reverse !in s0.attr[c[j]].flags {
      assert k == j || Rank(s0.attr[c[k]].flags) <= Rank(s0.attr[c[j]].flags);
    }
  }

  lemma {:induction false} SweepAddrProgress(s0: State, b: nat, k: nat, cur: Cursor, addr: Addr, now: int, prot: Flags)
    requires Inv(s0) && InRange(s0) && b <= |s0.chains|
    requires if b < |s0.chains| then ChainInRange(s0, s0.chains[b]) && k <= |s0.chains[b]| else k == 0
    requires AddrProgress(s0, b, k, cur, addr, now, prot)
    ensures AddrProgress(s0, |s0.chains|, 0, SweepAddr(cur, b, addr, now, prot), addr, now, prot)
    decreases |s0.chains| - b, if b < |s0.chains| then |s0.chains[b]| - k else 0
  {
    hide Inv, AddrMatch, Noted, Valid, AddrStep, ChainLeft, FoundSoFar;
    if b < |s0.chains| {
      if ChainLeft(cur, b) {
        AddrStepProgress(s0, b, k, cur, addr, now, prot);
        SweepAddrProgress(s0, b, k + 1, AddrStep(cur, b, addr, now, prot), addr, now, prot);
      } else {
        NextChain(s0, b, k, cur, addr, now, prot);
        SweepAddrProgress(s0, b + 1, 0, cur.(i := 0), addr, now, prot);
      }
    }
  }

  /** The lookup by address: although it leaves each chain at the first record that is not a reverse one, its answers
      are all unexpired reverse records for the address; the record after the last answer does not match. */
  lemma LookupByAddrExact(s: State, addr: Addr, now: int, prot: Flags)
    requires Valid(s)
    ensures InRange(s)
    ensures
      var f := AllMatching(s, |s.chains|, addr, now, prot);
      var r := SweepAddr(StartCursor(s), 0, addr, now, prot);
      var n := |CachedOf(s, f)|;
      && Valid(r.s) && |r.s.attr| == |s.attr|
      && r.hosts == HostsOf(s, f)
      && n <= |r.s.lru| && r.s.lru[..n] == Reversed(CachedOf(s, f))
      && Distinct(f)
      && (forall y :: y in f ==> y < |s.attr| && r.s.attr[y] == s.attr[y] && AddrMatch(s.attr[y], addr, prot))
      && (n < |r.s.lru| ==> r.s.lru[n] < |s.attr| && !AddrMatch(r.s.attr[r.s.lru[n]], addr, prot))
  {
    hide AddrMatch;
    InvInRange(s);
    InRangeChains(s);
    SearchStarts(s, addr, now, prot);
    SweepAddrProgress(s, 0, 0, StartCursor(s), addr, now, prot);
    var r := SweepAddr(StartCursor(s), 0, addr, now, prot);
    var f := AllMatching(s, |s.chains|, addr, now, prot);
    assert FoundSoFar(s, |s.chains|, 0, addr, now, prot) == f;
    AllMatchingElements(s, |s.chains|, addr, now, prot);
    AllMatchingDistinct(s, |s.chains|, addr, now, prot);
    NextAddrIsNoMatch(s, r, addr, now, prot);
  }

  lemma SearchStarts(s: State, addr: Addr, now: int, prot: Flags)
    requires Valid(s) && InRange(s) && ChainInRange(s, s.chains[0])
    ensures AddrProgress(s, 0, 0, StartCursor(s), addr, now, prot)
  {
    hide Valid, AddrMatch;
  }

  lemma NextAddrIsNoMatch(s: State, r: Cursor, addr: Addr, now: int, prot: Flags)
    requires Inv(s) && InRange(s) && AddrProgress(s, |s.chains|, 0, r, addr, now, prot)
    ensures var n := |CachedOf(s, AllMatching(s, |s.chains|, addr, now, prot))|;
      n < |r.s.lru| ==> r.s.lru[n] < |r.s.attr| && !AddrMatch(r.s.attr[r.s.lru[n]], addr, prot)
  {
    var f := AllMatching(s, |s.chains|, addr, now, prot);
    assert FoundSoFar(s, |s.chains|, 0, addr, now, prot) == f;
    var n := |CachedOf(s, f)|;
    if n < |r.s.lru| && AddrMatch(r.s.attr[r.s.lru[n]], addr, prot) {
      var y := r.s.lru[n];
      assert y in r.s.lru && y in s.lru;
      assert InUse(r.s.attr[y]);
      assert r.s.attr[y] == s.attr[y];
      var a := Bucket(s.mix, s.attr[y].name, |s.chains|);
      var j :| 0 <= j < |s.chains[a]| && s.chains[a][j] == y;
      assert Handled(s, now, r.s, s.chains[a][j]);
      AllMatchingElements(s, |s.chains|, addr, now, prot);
      assert y in f;
      CachedElements(s, f);
      ReversedElements(CachedOf(s, f));
      assert false;
    }
  }

  lemma FoundSoFarDistinct(s0: State, b: nat, k: nat, addr: Addr, now: int, prot: Flags)
    requires Inv(s0) && InRange(s0) && b <= |s0.chains|
      && (b < |s0.chains| ==> k <= |s0.chains[b]| && ChainInRange(s0, s0.chains[b]))
    ensures Distinct(FoundSoFar(s0, b, k, addr, now, prot))
  {
    hide AddrMatch, Expired, Inv, Matching, AllMatching;
    AllMatchingDistinct(s0, b, addr, now, prot);
    AllMatchingElements(s0, b, addr, now, prot);
    if b < |s0.chains| {
      var c := s0.chains[b];
      var f, g := AllMatching(s0, b, addr, now, prot), Matching(s0, c, k, addr, now, prot);
      MatchingElements(s0, c, k, addr, now, prot);
      if |c| > 0 { HostIffForeign(s0, b, 0); }
      forall i | 0 <= i < |g| ensures g[i] !in f {
        assert g[i] in g;
        OneChain(s0, b, g[i]);
      }
      ConcatDistinct(f, g);
    }
  }

  lemma AddrHostsApart(s0: State, b: nat, k: nat, cur: Cursor, addr: Addr, now: int, prot: Flags)
    requires Inv(s0) && InRange(s0) && b <= |s0.chains|
      && (b < |s0.chains| ==> k <= |s0.chains[b]| && ChainInRange(s0, s0.chains[b]))
    requires AddrProgress(s0, b, k, cur, addr, now, prot)
    ensures Valid(cur.s) && cur.s.size == s0.size
    ensures Distinct(cur.hosts) && forall i :: 0 <= i < |cur.hosts| ==> cur.hosts[i] >= s0.size
    ensures forall i :: 0 <= i < |cur.hosts| ==> cur.hosts[i] in FoundSoFar(s0, b, k, addr, now, prot)
  {
    hide AddrMatch, Valid, FoundSoFar, Fronted, CachedOf;
    FoundSoFarDistinct(s0, b, k, addr, now, prot);
    HostElements(s0, FoundSoFar(s0, b, k, addr, now, prot));
    assert forall i :: 0 <= i < |cur.hosts| ==> cur.hosts[i] in cur.hosts;
  }

  /** What one turn of the search does, case by case. */
  lemma AddrStepCases(cur: Cursor, b: nat, addr: Addr, now: int, prot: Flags)
    requires AddrOk(cur, b) && b < |cur.s.chains| && ChainLeft(cur, b)
    ensures
      var x := cur.s.chains[b][cur.i];
      var r := AddrStep(cur, b, addr, now, prot);
      && AddrOk(r, b) && |r.s.chains| == |cur.s.chains|
      && if Expired(cur.s.attr[x], now) then r == cur.(s := Evict(cur.s, b, cur.i))
         else if AddrMatch(cur.s.attr[x], addr, prot) then r == Note(cur, x).(i := cur.i + 1)
         else r == cur.(i := cur.i + 1)
  {
  }

  lemma AddrSweepUnfolds(cur: Cursor, b: nat, addr: Addr, now: int, prot: Flags)
    requires AddrOk(cur, b)
    ensures SweepAddr(cur, b, addr, now, prot) ==
      if b == |cur.s.chains| then cur
      else if ChainLeft(cur, b) then SweepAddr(AddrStep(cur, b, addr, now, prot), b, addr, now, prot)
      else SweepAddr(cur.(i := 0), b + 1, addr, now, prot)
  {
  }

  /** All that one turn of the search needs to know about the record it stands at. */
  lemma AddrTurnFacts(s0: State, b: nat, k: nat, cur: Cursor, addr: Addr, now: int, prot: Flags)
    requires Inv(s0) && InRange(s0) && b < |s0.chains| && ChainInRange(s0, s0.chains[b]) && k <= |s0.chains[b]|
    requires AddrProgress(s0, b, k, cur, addr, now, prot) && ChainLeft(cur, b)
    ensures k < |s0.chains[b]|
    ensures
      var x := cur.s.chains[b][cur.i];
      var r := AddrStep(cur, b, addr, now, prot);
      && AddrProgress(s0, b, k + 1, r, addr, now, prot) && Valid(r.s) && AddrOk(r, b)
      && (IsHost(cur.s.attr[x]) <==> x >= cur.s.size) && (x < cur.s.size ==> x in cur.s.lru) && InUse(cur.s.attr[x])
      && x !in cur.hosts && Distinct(cur.hosts)
      && (forall i :: 0 <= i < |cur.hosts| ==> cur.hosts[i] >= cur.s.size)
  {
    hide Inv, AddrMatch, Expired, Evict, Note, AddrStep, FoundSoFar, Valid;
    AddrStepProgress(s0, b, k, cur, addr, now, prot);
    AddrHostsApart(s0, b, k, cur, addr, now, prot);
    Standing(s0, b, k, cur, addr, now, prot);
    FoundSoFarStep(s0, b, k, addr, now, prot);
    AddrHostsApart(s0, b, k + 1, AddrStep(cur, b, addr, now, prot), addr, now, prot);
  }
}
