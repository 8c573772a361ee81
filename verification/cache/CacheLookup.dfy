/** What the two lookups do to the cache, and which records they answer with. */
module CacheLookup {
  import opened Sequences
  import opened CacheState
  import opened CacheSteps

  predicate NameMatch(a: Attr, name: string, prot: Flags) {
    Forward in a.flags && Meets(a.flags, prot) && SameName(a.name, name)
  }

  function Class(f: Flags): Flags {
    f * {Reverse, Immortal}
  }

  /** Moves the record at position `i` of chain `b` up to position `ins`. */
  ghost function MoveUp(s: State, b: nat, i: nat, ins: nat): (s': State)
    requires InRange(s) && b < |s.chains| && ins < i < |s.chains[b]|
    ensures InRange(s') && |s'.chains| == |s.chains|
    ensures s'.chains == s.chains[b := InsertAt(RemoveAt(s.chains[b], i), ins, s.chains[b][i])]
  {
    s.(chains := s.chains[b := InsertAt(RemoveAt(s.chains[b], i), ins, s.chains[b][i])])
  }

  lemma MovedUp(s: State, b: nat, c: seq<nat>, i: nat, ins: nat)
    requires Sized(s) && ChainOk(s, b, c) && ins < i < |c|
    requires Rank(s.attr[c[ins]].flags) == Rank(s.attr[c[i]].flags)
    ensures var c' := InsertAt(RemoveAt(c, i), ins, c[i]);
      ChainOk(s, b, c') && (forall y :: y in c' <==> y in c)
  {
    var r := RemoveAt(c, i);
    var c' := InsertAt(r, ins, c[i]);
    RemoveAtElements(c, i);
    assert c[i] !in r;
    InsertAtElements(r, ins, c[i]);
    hide MayHash;
    assert forall k :: 0 <= k < |c| ==> c'[k] == c[From(k, i, ins)];
    forall k | 0 <= k < |c'| ensures MayHash(s, b, c'[k]) {
      assert MayHash(s, b, c[From(k, i, ins)]);
    }
    HashedIds(s, b, c);
    forall k, m | 0 <= k < m < |c'| ensures Rank(s.attr[c'[k]].flags) <= Rank(s.attr[c'[m]].flags) {
      var k', m' := From(k, i, ins), From(m, i, ins);
      assert k' < m' || k' == i || m' == i;
    }
  }

  /** Which position the record now at `k` had before record `i` moved up to `ins`. */
  function From(k: nat, i: nat, ins: nat): nat {
    if k == ins then i else if ins < k <= i then k - 1 else k
  }

  lemma HashedIds(s: State, b: nat, c: seq<nat>)
    requires Sized(s) && forall k :: 0 <= k < |c| ==> MayHash(s, b, c[k])
    ensures forall k :: 0 <= k < |c| ==> c[k] < |s.attr|
  {
  }

  lemma MoveUpKeepsInv(s: State, b: nat, i: nat, ins: nat)
    requires Inv(s) && b < |s.chains| && ins < i < |s.chains[b]| && InRange(s)
    requires Rank(s.attr[s.chains[b][ins]].flags) == Rank(s.attr[s.chains[b][i]].flags)
    ensures Inv(MoveUp(s, b, i, ins))
    ensures BatchClosed(s) ==> BatchClosed(MoveUp(s, b, i, ins))
  {
    hide UsedFirst, Flagged, ChainOk, LinksOk, AllHashed;
    MovedUp(s, b, s.chains[b], i, ins);
    RechainKeepsInv(s, b, MoveUp(s, b, i, ins).chains[b]);
  }

  /** Where a lookup by name stands: the next record is number `i` of the chain, `ins` is where the next match is
      moved up to (negative until the first match), `cls` the order class of the first match, `hosts` the hosts and
      DHCP matches so far. */
  datatype Cursor = Cursor(s: State, i: nat, ins: int, cls: Flags, hosts: seq<nat>)

  ghost predicate CursorOk(cur: Cursor, b: nat) {
    InRange(cur.s) && b < |cur.s.chains| && cur.i <= |cur.s.chains[b]| && cur.ins < cur.i
  }

  /** A match is noted for the answer if it is a hosts or DHCP record and else becomes the youngest of the LRU list. */
  ghost function Note(cur: Cursor, x: nat): Cursor
    requires x < |cur.s.attr|
  {
    if IsHost(cur.s.attr[x]) then cur.(hosts := cur.hosts + [x]) else cur.(s := Promote(cur.s, x))
  }

  /** One turn of the loop of `cache_find_by_name`. */
  ghost function NameStep(cur: Cursor, b: nat, name: string, now: int, prot: Flags): (r: Cursor)
    requires CursorOk(cur, b) && cur.i < |cur.s.chains[b]|
    ensures CursorOk(r, b)
    ensures |r.s.chains[b]| - r.i == |cur.s.chains[b]| - cur.i - 1
  {
    var x := cur.s.chains[b][cur.i];
    var f := cur.s.attr[x].flags;
    if !Live(cur.s.attr, x, now) then
      cur.(s := Evict(cur.s, b, cur.i))
    else if !NameMatch(cur.s.attr[x], name, prot) then
      cur.(i := cur.i + 1)
    else
      var n := Note(cur, x);
      if cur.ins < 0 then n.(i := cur.i + 1, ins := cur.i, cls := Class(f))
      else if Class(f) != cur.cls then n.(i := cur.i + 1)
      else n.(s := MoveUp(n.s, b, cur.i, cur.ins), i := cur.i + 1, ins := cur.ins + 1)
  }

  ghost function SweepName(cur: Cursor, b: nat, name: string, now: int, prot: Flags): (r: Cursor)
    requires CursorOk(cur, b)
    ensures CursorOk(r, b) && r.i == |r.s.chains[b]|
    decreases |cur.s.chains[b]| - cur.i
  {
    if cur.i == |cur.s.chains[b]| then cur
    else SweepName(NameStep(cur, b, name, now, prot), b, name, now, prot)
  }

  // ---------- the records a lookup by name should answer with ----------

  ghost predicate ChainInRange(s: State, c: seq<nat>) {
    forall i :: 0 <= i < |c| ==> c[i] < |s.attr|
  }

  /** Whether record `k` of chain `c` has expired or lost its CNAME target by the time a scan of the chain reaches it:
      a scan frees the dead records it passes, so a target earlier in the same chain may go first. */
  ghost predicate Dead(s: State, c: seq<nat>, k: nat, now: int)
    requires ChainInRange(s, c) && k < |c|
    decreases k
  {
    var a := s.attr[c[k]];
    || Expired(a, now)
    || Outdated(s.attr, c[k])
    || (Cname in a.flags && exists j :: 0 <= j < k && c[j] == a.target && c[j] < s.size && Dead(s, c, j, now))
  }

  /** The answers among the first `k` records, in chain order. */
  ghost function Found(s: State, c: seq<nat>, k: nat, name: string, now: int, prot: Flags): seq<nat>
    requires ChainInRange(s, c) && k <= |c|
  {
    if k == 0 then []
    else
      Found(s, c, k - 1, name, now, prot) +
      if !Dead(s, c, k - 1, now) && NameMatch(s.attr[c[k - 1]], name, prot) then [c[k - 1]] else []
  }

  ghost function HostsOf(s: State, q: seq<nat>): seq<nat> {
    if q == [] then []
    else HostsOf(s, q[..|q| - 1]) + if q[|q| - 1] >= s.size then [q[|q| - 1]] else []
  }

  ghost function CachedOf(s: State, q: seq<nat>): seq<nat> {
    if q == [] then []
    else CachedOf(s, q[..|q| - 1]) + if q[|q| - 1] < s.size then [q[|q| - 1]] else []
  }

  /** Record `y` was freed by a scan of the first `k` records. */
  ghost predicate Gone(s: State, c: seq<nat>, k: nat, now: int, y: nat)
    requires ChainInRange(s, c) && k <= |c|
  {
    y < s.size && exists j :: 0 <= j < k && c[j] == y && Dead(s, c, j, now)
  }

  /** `c` is what the chain `c0` has become after scanning its first `k` records, `i` of which remain. */
  ghost predicate ChainScanned(s0: State, c0: seq<nat>, k: nat, now: int, c: seq<nat>, i: nat)
    requires ChainInRange(s0, c0) && k <= |c0|
  {
    && i <= |c| && c[i..] == c0[k..]
    && (forall j :: 0 <= j < i ==> c[j] in c0[..k])
    && (forall j :: 0 <= j < k ==> (c0[j] in c[..i] <==> !Dead(s0, c0, j, now)))
  }

  /** The records not freed by the scan are unchanged, the freed ones have a fresh uid. */
  ghost predicate AttrScanned(s0: State, c0: seq<nat>, k: nat, now: int, s: State)
    requires ChainInRange(s0, c0) && k <= |c0|
  {
    && s.size == s0.size && s.mix == s0.mix && |s.attr| == |s0.attr| && s0.uid <= s.uid
    && (forall y :: 0 <= y < |s.attr| ==>
          if Gone(s0, c0, k, now, y) then s.attr[y].uid >= s0.uid else s.attr[y] == s0.attr[y])
  }

  /** `s` is what `s0` has become after scanning the first `k` records of its chain `b`, `i` of which remain in it. */
  ghost predicate Scanned(s0: State, b: nat, k: nat, now: int, s: State, i: nat)
    requires b < |s0.chains| && ChainInRange(s0, s0.chains[b]) && k <= |s0.chains[b]|
  {
    && AttrScanned(s0, s0.chains[b], k, now, s)
    && |s.chains| == |s0.chains| && s.chains == s0.chains[b := s.chains[b]]
    && ChainScanned(s0, s0.chains[b], k, now, s.chains[b], i)
  }

  lemma LiveMeansNotDead(s0: State, b: nat, k: nat, now: int, s: State, i: nat)
    requires Inv(s0) && b < |s0.chains| && ChainInRange(s0, s0.chains[b]) && k < |s0.chains[b]|
    requires Scanned(s0, b, k, now, s, i)
    ensures var x := s0.chains[b][k];
      && s.attr[x] == s0.attr[x]
      && (Live(s.attr, x, now) <==> !Dead(s0, s0.chains[b], k, now))
  {
    var c0 := s0.chains[b];
    var x := c0[k];
    assert ChainOk(s0, b, c0);
    assert s.attr[x] == s0.attr[x];
    var t := s0.attr[x].target;
    if Cname in s0.attr[x].flags && 0 <= t < |s0.attr| {
      if Gone(s0, c0, k, now, t) {
        assert MayHash(s0, b, x);
        if x < s0.size {
          assert LinkOk(s0, x);
        }
      }
    }
  }

  lemma ChainPastDead(s0: State, c0: seq<nat>, k: nat, now: int, c: seq<nat>, i: nat)
    requires ChainInRange(s0, c0) && k < |c0| && Distinct(c0)
    requires ChainScanned(s0, c0, k, now, c, i) && Dead(s0, c0, k, now)
    ensures ChainScanned(s0, c0, k + 1, now, RemoveAt(c, i), i)
  {
    var c' := RemoveAt(c, i);
    assert c'[..i] == c[..i];
    assert c'[i..] == c[i..][1..] == c0[k + 1..];
    assert c0[..k + 1] == c0[..k] + [c0[k]];
    assert c0[k] !in c0[..k];
  }

  lemma AttrPastDead(s0: State, c0: seq<nat>, k: nat, now: int, s: State, b: nat, i: nat)
    requires ChainInRange(s0, c0) && k < |c0| && Distinct(c0) && InRange(s)
    requires AttrScanned(s0, c0, k, now, s) && Dead(s0, c0, k, now)
    requires b < |s.chains| && i < |s.chains[b]| && s.chains[b][i] == c0[k]
    requires IsHost(s.attr[c0[k]]) <==> c0[k] >= s0.size
    ensures AttrScanned(s0, c0, k + 1, now, Evict(s, b, i))
  {
    var x := c0[k];
    assert Gone(s0, c0, k + 1, now, x) <==> x < s0.size;
    forall y | 0 <= y < |s.attr| && y != x ensures Gone(s0, c0, k + 1, now, y) <==> Gone(s0, c0, k, now, y) {}
    assert !Gone(s0, c0, k, now, x);
  }

  lemma HostIffForeign(s: State, b: nat, i: nat)
    requires Inv(s) && b < |s.chains| && i < |s.chains[b]|
    ensures var x := s.chains[b][i];
      && x < |s.attr| && (IsHost(s.attr[x]) <==> x >= s.size) && (x < s.size ==> x in s.lru)
      && InUse(s.attr[x]) && Bucket(s.mix, s.attr[x].name, |s.chains|) == b && Distinct(s.chains[b])
  {
    assert ChainOk(s, b, s.chains[b]) && MayHash(s, b, s.chains[b][i]);
  }

  lemma ScannedHere(s0: State, b: nat, k: nat, now: int, s: State, i: nat)
    requires b < |s0.chains| && ChainInRange(s0, s0.chains[b]) && k < |s0.chains[b]|
    requires Scanned(s0, b, k, now, s, i)
    ensures i < |s.chains[b]| && s.chains[b][i] == s0.chains[b][k] && s.size == s0.size && |s.attr| == |s0.attr|
  {
    assert s.chains[b][i..][0] == s0.chains[b][k..][0];
  }

  lemma ScanPastDead(s0: State, b: nat, k: nat, now: int, s: State, i: nat)
    requires Inv(s0) && Inv(s) && InRange(s) && b < |s0.chains| && ChainInRange(s0, s0.chains[b]) && k < |s0.chains[b]|
    requires Scanned(s0, b, k, now, s, i) && Dead(s0, s0.chains[b], k, now)
    ensures Scanned(s0, b, k + 1, now, Evict(s, b, i), i)
  {
    hide Inv, AttrScanned, Dead, Evict, ChainScanned;
    var c0 := s0.chains[b];
    HostIffForeign(s0, b, k);
    ScannedHere(s0, b, k, now, s, i);
    HostIffForeign(s, b, i);
    ChainPastDead(s0, c0, k, now, s.chains[b], i);
    AttrPastDead(s0, c0, k, now, s, b, i);
  }

  lemma ScanPastLive(s0: State, b: nat, k: nat, now: int, s: State, i: nat)
    requires Inv(s0) && b < |s0.chains| && ChainInRange(s0, s0.chains[b]) && k < |s0.chains[b]|
    requires Scanned(s0, b, k, now, s, i) && !Dead(s0, s0.chains[b], k, now)
    ensures Scanned(s0, b, k + 1, now, s, i + 1)
  {
    var c0 := s0.chains[b];
    assert ChainOk(s0, b, c0);
    assert s.chains[b][i] == s.chains[b][i..][0] == c0[k];
    assert s.chains[b][i + 1..] == s.chains[b][i..][1..] == c0[k + 1..];
    assert s.chains[b][..i + 1] == s.chains[b][..i] + [c0[k]];
    assert c0[..k + 1] == c0[..k] + [c0[k]];
    forall y | 0 <= y < |s.attr| ensures Gone(s0, c0, k + 1, now, y) <==> Gone(s0, c0, k, now, y) {}
  }

  lemma SplitMoved(c: seq<nat>, i: nat, ins: nat, y: nat)
    requires ins < i < |c|
    ensures var c' := InsertAt(RemoveAt(c, i), ins, c[i]);
      c'[i + 1..] == c[i + 1..] && (y in c'[..i + 1] <==> y in c[..i + 1])
  {
    var c' := InsertAt(RemoveAt(c, i), ins, c[i]);
    if m :| 0 <= m <= i && c'[m] == y {
      assert y == c[..i + 1][if m == ins then i else if ins < m then m - 1 else m];
    }
    if m :| 0 <= m <= i && c[m] == y {
      assert y == c'[..i + 1][if m == i then ins else if m < ins then m else m + 1];
    }
  }

  lemma ChainPastMoved(s0: State, c0: seq<nat>, k: nat, now: int, c: seq<nat>, i: nat, ins: nat)
    requires ChainInRange(s0, c0) && k <= |c0| && ins < i < |c|
    requires ChainScanned(s0, c0, k, now, c, i + 1)
    ensures ChainScanned(s0, c0, k, now, InsertAt(RemoveAt(c, i), ins, c[i]), i + 1)
  {
    hide Dead, ChainInRange;
    var c' := InsertAt(RemoveAt(c, i), ins, c[i]);
    SplitMoved(c, i, ins, 0);
    forall j | 0 <= j < i + 1 ensures c'[j] in c0[..k] {
      SplitMoved(c, i, ins, c'[j]);
      assert c'[j] == c'[..i + 1][j];
    }
    forall j | 0 <= j < k ensures c0[j] in c'[..i + 1] <==> !Dead(s0, c0, j, now) {
      SplitMoved(c, i, ins, c0[j]);
    }
  }

  lemma ScanPastMoved(s0: State, b: nat, k: nat, now: int, s: State, i: nat, ins: nat)
    requires InRange(s) && b < |s0.chains| && ChainInRange(s0, s0.chains[b]) && k <= |s0.chains[b]|
    requires Scanned(s0, b, k, now, s, i + 1) && ins < i
    ensures Scanned(s0, b, k, now, MoveUp(s, b, i, ins), i + 1)
  {
    hide Dead, Gone, ChainInRange, ChainScanned, AttrScanned;
    assert i + 1 <= |s.chains[b]| by { ScannedLength(s0, b, k, now, s, i + 1); }
    ChainPastMoved(s0, s0.chains[b], k, now, s.chains[b], i, ins);
    AttrScannedFrame(s0, s0.chains[b], k, now, s, MoveUp(s, b, i, ins));
  }

  lemma ScannedLength(s0: State, b: nat, k: nat, now: int, s: State, i: nat)
    requires b < |s0.chains| && ChainInRange(s0, s0.chains[b]) && k <= |s0.chains[b]|
    requires Scanned(s0, b, k, now, s, i)
    ensures |s.chains| == |s0.chains| && i <= |s.chains[b]|
    ensures |s.chains[b]| - i == |s0.chains[b]| - k
  {
    assert |s.chains[b][i..]| == |s0.chains[b][k..]|;
  }

  lemma AttrScannedFrame(s0: State, c0: seq<nat>, k: nat, now: int, s: State, s': State)
    requires ChainInRange(s0, c0) && k <= |c0| && AttrScanned(s0, c0, k, now, s)
    requires s'.size == s.size && s'.mix == s.mix && s'.attr == s.attr && s'.uid == s.uid
    ensures AttrScanned(s0, c0, k, now, s')
  {
  }

  /** The cached answers among the first `k` records stand at the front of the LRU list, the last one first. */
  ghost predicate Fronted(q: seq<nat>, lru: seq<nat>) {
    |q| <= |lru| && lru[..|q|] == Reversed(q)
  }

  lemma ReversedSnoc<T>(q: seq<T>, x: T)
    ensures Reversed(q + [x]) == [x] + Reversed(q)
  {
    if q == [] {
    } else {
      assert (q + [x])[1..] == q[1..] + [x];
      ReversedSnoc(q[1..], x);
    }
  }

  lemma ReversedElements<T>(q: seq<T>)
    ensures forall y :: y in Reversed(q) <==> y in q
  {
  }

  lemma FoundElements(s: State, c: seq<nat>, k: nat, name: string, now: int, prot: Flags)
    requires ChainInRange(s, c) && k <= |c|
    ensures var f := Found(s, c, k, name, now, prot);
      && ChainInRange(s, f)
      && (forall y :: y in f <==>
           exists j :: 0 <= j < k && c[j] == y && !Dead(s, c, j, now) && NameMatch(s.attr[y], name, prot))
      && (Distinct(c) ==> Distinct(f))
  {
    FoundMembers(s, c, k, name, now, prot);
    if Distinct(c) {
      FoundDistinct(s, c, k, name, now, prot);
    }
  }

  lemma {:induction false} FoundMembers(s: State, c: seq<nat>, k: nat, name: string, now: int, prot: Flags)
    requires ChainInRange(s, c) && k <= |c|
    ensures var f := Found(s, c, k, name, now, prot);
      && ChainInRange(s, f)
      && (forall y :: y in f <==>
           exists j :: 0 <= j < k && c[j] == y && !Dead(s, c, j, now) && NameMatch(s.attr[y], name, prot))
  {
    hide Dead, NameMatch;
    if k > 0 {
      FoundMembers(s, c, k - 1, name, now, prot);
      var f, f' := Found(s, c, k, name, now, prot), Found(s, c, k - 1, name, now, prot);
      var x := c[k - 1];
      assert f == f' + if !Dead(s, c, k - 1, now) && NameMatch(s.attr[x], name, prot) then [x] else [];
      assert forall y :: y in f <==> y in f' || (f != f' && y == x);
    }
  }

  lemma {:induction false} FoundDistinct(s: State, c: seq<nat>, k: nat, name: string, now: int, prot: Flags)
    requires ChainInRange(s, c) && k <= |c| && Distinct(c)
    ensures Distinct(Found(s, c, k, name, now, prot))
  {
    hide Dead, NameMatch;
    if k > 0 {
      FoundDistinct(s, c, k - 1, name, now, prot);
      FoundMembers(s, c, k - 1, name, now, prot);
      SnocDistinct(c, k - 1, Found(s, c, k - 1, name, now, prot));
    }
  }

  /** A list picked from the first `k` elements stays without repetition when element `k` joins. */
  lemma SnocDistinct(c: seq<nat>, k: nat, f: seq<nat>)
    requires Distinct(c) && k < |c| && Distinct(f) && forall y :: y in f ==> exists j :: 0 <= j < k && c[j] == y
    ensures Distinct(f + [c[k]])
  {
    assert c[k] !in f;
    SnocElements(f, c[k]);
  }

  lemma HostElements(s: State, q: seq<nat>)
    ensures forall y :: y in HostsOf(s, q) <==> y in q && y >= s.size
    ensures Distinct(q) ==> Distinct(HostsOf(s, q))
  {
    if q != [] {
      var p, x := q[..|q| - 1], q[|q| - 1];
      HostElements(s, p);
      assert q == p + [x];
      assert Distinct(q) ==> x !in p && Distinct(p);
    }
  }

  lemma CachedElements(s: State, q: seq<nat>)
    ensures forall y :: y in CachedOf(s, q) <==> y in q && y < s.size
    ensures Distinct(q) ==> Distinct(CachedOf(s, q))
  {
    if q != [] {
      var p, x := q[..|q| - 1], q[|q| - 1];
      CachedElements(s, p);
      assert q == p + [x];
      assert Distinct(q) ==> x !in p && Distinct(p);
    }
  }

  /** Moving a record that is not among the fronted ones. */
  lemma FrontedStays(q: seq<nat>, lru: seq<nat>, x: nat)
    requires Fronted(q, lru) && Distinct(lru) && x in lru && x !in q
    ensures Fronted(q, Without(lru, x) + [x])
    ensures Fronted(q + [x], [x] + Without(lru, x))
  {
    var m := IndexOf(lru, x);
    ReversedElements(q);
    ReversedSnoc(q, x);
    assert x !in lru[..|q|];
    var w := Without(lru, x);
    assert w[..|q|] == lru[..|q|];
    assert (w + [x])[..|q|] == w[..|q|];
    assert ([x] + w)[..|q| + 1] == [x] + w[..|q|];
  }

  /** The lookup stands at record `k` of the chain it found in `s0`. */
  ghost predicate Progress(s0: State, b: nat, k: nat, cur: Cursor, name: string, now: int, prot: Flags)
    requires b < |s0.chains| && ChainInRange(s0, s0.chains[b]) && k <= |s0.chains[b]|
  {
    && CursorOk(cur, b) && Valid(cur.s)
    && (cur.ins >= 0 ==> SameClass(cur, b))
    && Scanned(s0, b, k, now, cur.s, cur.i)
    && Noted(s0, Found(s0, s0.chains[b], k, name, now, prot), cur)
  }

  ghost predicate SameClass(cur: Cursor, b: nat)
    requires CursorOk(cur, b) && cur.ins >= 0
  {
    Class(cur.s.attr[cur.s.chains[b][cur.ins]].flags) == cur.cls
  }

  /** The answers `f` found so far are noted: hosts and DHCP ones in `hosts`, cached ones at the front of the
      LRU list. */
  ghost predicate Noted(s0: State, f: seq<nat>, cur: Cursor) {
    cur.hosts == HostsOf(s0, f) && Fronted(CachedOf(s0, f), cur.s.lru)
  }

  lemma NoteOne(s0: State, f: seq<nat>, cur: Cursor, x: nat)
    requires Noted(s0, f, cur) && x < |cur.s.attr| && Distinct(cur.s.lru) && x !in f
    requires IsHost(cur.s.attr[x]) <==> x >= s0.size
    requires x < s0.size ==> x in cur.s.lru
    ensures Noted(s0, f + [x], Note(cur, x))
  {
    assert (f + [x])[..|f|] == f;
    if x < s0.size {
      CachedElements(s0, f);
      FrontedStays(CachedOf(s0, f), cur.s.lru, x);
    } else {
      assert CachedOf(s0, f + [x]) == CachedOf(s0, f) + [] == CachedOf(s0, f);
    }
  }

  lemma EvictNoted(s0: State, f: seq<nat>, cur: Cursor, b: nat)
    requires InRange(cur.s) && b < |cur.s.chains| && cur.i < |cur.s.chains[b]| && Noted(s0, f, cur)
      && Distinct(cur.s.lru)
    requires var x := cur.s.chains[b][cur.i]; x !in f && (IsHost(cur.s.attr[x]) || x in cur.s.lru)
    ensures Noted(s0, f, cur.(s := Evict(cur.s, b, cur.i)))
  {
    var x := cur.s.chains[b][cur.i];
    CachedElements(s0, f);
    if !IsHost(cur.s.attr[x]) {
      FrontedStays(CachedOf(s0, f), cur.s.lru, x);
    }
  }

  lemma StepDead(s0: State, b: nat, k: nat, cur: Cursor, name: string, now: int, prot: Flags)
    requires Inv(s0) && b < |s0.chains| && ChainInRange(s0, s0.chains[b]) && k < |s0.chains[b]|
    requires Progress(s0, b, k, cur, name, now, prot) && Dead(s0, s0.chains[b], k, now)
    ensures Progress(s0, b, k + 1, cur.(s := Evict(cur.s, b, cur.i)), name, now, prot)
  {
    hide Inv, Dead, Scanned, Noted, Found, ChainInRange;
    ScannedHere(s0, b, k, now, cur.s, cur.i);
    HostIffForeign(s0, b, k);
    HostIffForeign(cur.s, b, cur.i);
    FoundElements(s0, s0.chains[b], k, name, now, prot);
    FoundStep(s0, s0.chains[b], k, name, now, prot);
    EvictKeepsInv(cur.s, b, cur.i);
    ScanPastDead(s0, b, k, now, cur.s, cur.i);
    InvDistinct(cur.s);
    EvictNoted(s0, Found(s0, s0.chains[b], k, name, now, prot), cur, b);
  }

  lemma InvDistinct(s: State)
    requires Inv(s)
    ensures Distinct(s.lru)
  {
  }

  /** How the list of answers grows with one more record; that record is not in the list yet. */
  lemma FoundStep(s: State, c: seq<nat>, k: nat, name: string, now: int, prot: Flags)
    requires ChainInRange(s, c) && k < |c| && Distinct(c)
    ensures var f := Found(s, c, k, name, now, prot);
      && c[k] !in f
      && Found(s, c, k + 1, name, now, prot) ==
         if !Dead(s, c, k, now) && NameMatch(s.attr[c[k]], name, prot) then f + [c[k]] else f
  {
    FoundElements(s, c, k, name, now, prot);
  }

  lemma StepSkip(s0: State, b: nat, k: nat, cur: Cursor, name: string, now: int, prot: Flags)
    requires Inv(s0) && b < |s0.chains| && ChainInRange(s0, s0.chains[b]) && k < |s0.chains[b]|
    requires Progress(s0, b, k, cur, name, now, prot) && !Dead(s0, s0.chains[b], k, now)
    requires !NameMatch(s0.attr[s0.chains[b][k]], name, prot)
    ensures CursorOk(cur, b) && cur.i < |cur.s.chains[b]|
    ensures Progress(s0, b, k + 1, cur.(i := cur.i + 1), name, now, prot)
  {
    hide Inv, Dead, Scanned, Found, ChainInRange, NameMatch;
    ScannedHere(s0, b, k, now, cur.s, cur.i);
    HostIffForeign(s0, b, k);
    FoundStep(s0, s0.chains[b], k, name, now, prot);
    ScanPastLive(s0, b, k, now, cur.s, cur.i);
  }

  lemma StepNote(s0: State, b: nat, k: nat, cur: Cursor, name: string, now: int, prot: Flags)
    requires Inv(s0) && b < |s0.chains| && ChainInRange(s0, s0.chains[b]) && k < |s0.chains[b]|
    requires Progress(s0, b, k, cur, name, now, prot) && !Dead(s0, s0.chains[b], k, now)
    requires NameMatch(s0.attr[s0.chains[b][k]], name, prot)
    ensures CursorOk(cur, b) && cur.i < |cur.s.chains[b]|
    ensures var n := Note(cur, cur.s.chains[b][cur.i]);
      && Valid(n.s) && n.s.chains == cur.s.chains && n.s.attr == cur.s.attr
      && Scanned(s0, b, k + 1, now, n.s, cur.i + 1)
      && Noted(s0, Found(s0, s0.chains[b], k + 1, name, now, prot), n)
  {
    hide Inv, Dead, Found, ChainInRange, NameMatch, ChainScanned, Gone, BatchClosed, Noted;
    ScannedHere(s0, b, k, now, cur.s, cur.i);
    HostIffForeign(s0, b, k);
    HostIffForeign(cur.s, b, cur.i);
    FoundStep(s0, s0.chains[b], k, name, now, prot);
    ScanPastLive(s0, b, k, now, cur.s, cur.i);
    InvDistinct(cur.s);
    var x := cur.s.chains[b][cur.i];
    NoteOne(s0, Found(s0, s0.chains[b], k, name, now, prot), cur, x);
    if !IsHost(cur.s.attr[x]) {
      PromoteKeepsInv(cur.s, x);
    }
  }

  lemma ClassGivesRank(f: Flags, g: Flags)
    requires Class(f) == Class(g)
    ensures Rank(f) == Rank(g)
  {
    assert forall x :: x in Class(f) <==> x in f && x in {Reverse, Immortal};
    assert forall x :: x in Class(g) <==> x in g && x in {Reverse, Immortal};
    assert Reverse in Class(f) <==> Reverse in f;
    assert Immortal in Class(f) <==> Immortal in f;
  }

  lemma StepMatch(s0: State, b: nat, k: nat, cur: Cursor, name: string, now: int, prot: Flags)
    requires Inv(s0) && b < |s0.chains| && ChainInRange(s0, s0.chains[b]) && k < |s0.chains[b]|
    requires Progress(s0, b, k, cur, name, now, prot) && !Dead(s0, s0.chains[b], k, now)
    requires NameMatch(s0.attr[s0.chains[b][k]], name, prot)
    requires CursorOk(cur, b) && cur.i < |cur.s.chains[b]|
    requires Live(cur.s.attr, cur.s.chains[b][cur.i], now) && NameMatch(cur.s.attr[cur.s.chains[b][cur.i]], name, prot)
    ensures Progress(s0, b, k + 1, NameStep(cur, b, name, now, prot), name, now, prot)
  {
    hide Inv, Dead, Found, ChainInRange, NameMatch, Scanned, BatchClosed, Noted, Class, Live, Note;
    StepNote(s0, b, k, cur, name, now, prot);
    var x := cur.s.chains[b][cur.i];
    var n := Note(cur, x);
    NoteKeepsRest(cur, x);
    if cur.ins >= 0 && Class(cur.s.attr[x].flags) == cur.cls {
      ClassGivesRank(cur.s.attr[cur.s.chains[b][cur.ins]].flags, cur.s.attr[x].flags);
      MoveUpKeepsInv(n.s, b, cur.i, cur.ins);
      ScanPastMoved(s0, b, k + 1, now, n.s, cur.i, cur.ins);
      MoveUpNoted(s0, Found(s0, s0.chains[b], k + 1, name, now, prot), n, b, cur.i, cur.ins);
    }
    SameNoted(s0, Found(s0, s0.chains[b], k + 1, name, now, prot), n);
  }

  lemma NoteKeepsRest(cur: Cursor, x: nat)
    requires x < |cur.s.attr|
    ensures Note(cur, x) == cur.(s := Note(cur, x).s, hosts := Note(cur, x).hosts)
    ensures InRange(cur.s) ==> InRange(Note(cur, x).s)
  {
  }

  lemma SameNoted(s0: State, f: seq<nat>, n: Cursor)
    requires Noted(s0, f, n)
    ensures forall i: nat, ins, cls :: Noted(s0, f, n.(i := i, ins := ins, cls := cls))
  {
  }

  lemma MoveUpNoted(s0: State, f: seq<nat>, n: Cursor, b: nat, i: nat, ins: nat)
    requires InRange(n.s) && b < |n.s.chains| && ins < i < |n.s.chains[b]|
    requires Noted(s0, f, n)
    ensures forall j: nat, k, cls :: Noted(s0, f, n.(s := MoveUp(n.s, b, i, ins), i := j, ins := k, cls := cls))
  {
  }

  lemma StepProgress(s0: State, b: nat, k: nat, cur: Cursor, name: string, now: int, prot: Flags)
    requires Inv(s0) && b < |s0.chains| && ChainInRange(s0, s0.chains[b]) && k < |s0.chains[b]|
    requires Progress(s0, b, k, cur, name, now, prot)
    ensures CursorOk(cur, b) && cur.i < |cur.s.chains[b]|
    ensures Progress(s0, b, k + 1, NameStep(cur, b, name, now, prot), name, now, prot)
  {
    hide Inv, Dead, Found, ChainInRange, NameMatch, Scanned, Noted, Live, Valid, SameClass;
    ScannedHere(s0, b, k, now, cur.s, cur.i);
    LiveMeansNotDead(s0, b, k, now, cur.s, cur.i);
    if Dead(s0, s0.chains[b], k, now) {
      StepDead(s0, b, k, cur, name, now, prot);
    } else if NameMatch(s0.attr[s0.chains[b][k]], name, prot) {
      StepMatch(s0, b, k, cur, name, now, prot);
    } else {
      StepSkip(s0, b, k, cur, name, now, prot);
    }
  }

  lemma {:induction false} SweepProgress(s0: State, b: nat, k: nat, cur: Cursor, name: string, now: int, prot: Flags)
    requires Inv(s0) && b < |s0.chains| && ChainInRange(s0, s0.chains[b]) && k <= |s0.chains[b]|
    requires Progress(s0, b, k, cur, name, now, prot)
    ensures CursorOk(cur, b)
    ensures Progress(s0, b, |s0.chains[b]|, SweepName(cur, b, name, now, prot), name, now, prot)
    decreases |s0.chains[b]| - k
  {
    hide Inv, Dead, Found, ChainInRange, NameStep, Noted, Scanned, Valid, SameClass;
    ScannedLength(s0, b, k, now, cur.s, cur.i);
    if k < |s0.chains[b]| {
      StepProgress(s0, b, k, cur, name, now, prot);
      SweepProgress(s0, b, k + 1, NameStep(cur, b, name, now, prot), name, now, prot);
    }
  }

  ghost function StartCursor(s: State): Cursor {
    Cursor(s, 0, -1, {}, [])
  }

  /** Names that are equal but for case share a bucket, so every match for `name` is in the chain that is searched. */
  lemma MatchesShareBucket(s: State, name: string, prot: Flags, a: nat, j: nat)
    requires Inv(s) && a < |s.chains| && j < |s.chains[a]|
    ensures s.chains[a][j] < |s.attr|
    ensures NameMatch(s.attr[s.chains[a][j]], name, prot) ==> a == Bucket(s.mix, name, |s.chains|)
  {
    HostIffForeign(s, a, j);
  }

  /** The lookup by name: which records are answered, where the answers end up, and that the record after the last
      answer does not match, so that following the links stops there. */
  lemma LookupByNameExact(s: State, name: string, now: int, prot: Flags)
    requires Valid(s)
    ensures InRange(s)
    ensures
      var b := Bucket(s.mix, name, |s.chains|);
      var c := s.chains[b];
      ChainInRange(s, c) &&
      var f := Found(s, c, |c|, name, now, prot);
      var r := SweepName(StartCursor(s), b, name, now, prot);
      var n := |CachedOf(s, f)|;
      && Valid(r.s) && |r.s.attr| == |s.attr|
      && r.hosts == HostsOf(s, f)
      && n <= |r.s.lru| && r.s.lru[..n] == Reversed(CachedOf(s, f))
      && Distinct(f)
      && (forall y :: y in f ==> y < |s.attr| && r.s.attr[y] == s.attr[y] && NameMatch(s.attr[y], name, prot))
      && (n < |r.s.lru| ==> r.s.lru[n] < |s.attr| && !NameMatch(r.s.attr[r.s.lru[n]], name, prot))
  {
    InvInRange(s);
    var b := Bucket(s.mix, name, |s.chains|);
    var c := s.chains[b];
    assert ChainInRange(s, c);
    var f := Found(s, c, |c|, name, now, prot);
    StartProgress(s, b, name, now, prot);
    SweepProgress(s, b, 0, StartCursor(s), name, now, prot);
    var r := SweepName(StartCursor(s), b, name, now, prot);
    AnswersStand(s, b, r, name, now, prot);
    var n := |CachedOf(s, f)|;
    if n < |r.s.lru| {
      NextIsNoMatch(s, b, r, name, now, prot);
    }
  }

  lemma StartProgress(s: State, b: nat, name: string, now: int, prot: Flags)
    requires Valid(s) && InRange(s) && b < |s.chains| && ChainInRange(s, s.chains[b])
    ensures Progress(s, b, 0, StartCursor(s), name, now, prot)
  {
    hide Valid;
  }

  lemma AnswersStand(s: State, b: nat, r: Cursor, name: string, now: int, prot: Flags)
    requires Inv(s) && b < |s.chains| && ChainInRange(s, s.chains[b])
    requires Progress(s, b, |s.chains[b]|, r, name, now, prot)
    ensures var f := Found(s, s.chains[b], |s.chains[b]|, name, now, prot);
      && Distinct(f) && |r.s.attr| == |s.attr|
      && (forall y :: y in f ==> y < |s.attr| && r.s.attr[y] == s.attr[y] && NameMatch(s.attr[y], name, prot))
  {
    hide Valid, Noted, NameMatch, Dead;
    var c := s.chains[b];
    assert ChainOk(s, b, c);
    FoundElements(s, c, |c|, name, now, prot);
    forall y | y in Found(s, c, |c|, name, now, prot) ensures y < |s.attr| && r.s.attr[y] == s.attr[y] {
      var j :| 0 <= j < |c| && c[j] == y && !Dead(s, c, j, now);
      assert !Gone(s, c, |c|, now, y);
    }
  }

  lemma NextIsNoMatch(s: State, b: nat, r: Cursor, name: string, now: int, prot: Flags)
    requires Inv(s) && b < |s.chains| && ChainInRange(s, s.chains[b]) && b == Bucket(s.mix, name, |s.chains|)
    requires Progress(s, b, |s.chains[b]|, r, name, now, prot) && r.i == |r.s.chains[b]|
    ensures var n := |CachedOf(s, Found(s, s.chains[b], |s.chains[b]|, name, now, prot))|;
      n < |r.s.lru| ==> r.s.lru[n] < |r.s.attr| && !NameMatch(r.s.attr[r.s.lru[n]], name, prot)
  {
    hide Found, Scanned, CursorOk, NameMatch, Valid;
    var f := Found(s, s.chains[b], |s.chains[b]|, name, now, prot);
    var n := |CachedOf(s, f)|;
    LruInRange(r.s);
    if n < |r.s.lru| {
      var y := r.s.lru[n];
      BehindFront(CachedOf(s, f), r.s.lru);
      CachedElements(s, f);
      if NameMatch(r.s.attr[y], name, prot) {
        MatchIsFound(s, b, r, name, now, prot, y);
      }
    }
  }

  lemma LruInRange(s: State)
    requires Valid(s)
    ensures Distinct(s.lru) && s.size <= |s.attr| && forall i :: 0 <= i < |s.lru| ==> s.lru[i] < s.size
  {
  }

  lemma BehindFront(q: seq<nat>, lru: seq<nat>)
    requires Fronted(q, lru) && Distinct(lru) && |q| < |lru|
    ensures lru[|q|] !in q
  {
    ReversedElements(q);
  }

  /** A record that is left and matches after the scan is among the answers. */
  lemma MatchIsFound(s: State, b: nat, r: Cursor, name: string, now: int, prot: Flags, y: nat)
    requires Inv(s) && b < |s.chains| && ChainInRange(s, s.chains[b]) && b == Bucket(s.mix, name, |s.chains|)
    requires Progress(s, b, |s.chains[b]|, r, name, now, prot) && r.i == |r.s.chains[b]|
    requires y in r.s.lru && y < |r.s.attr| && NameMatch(r.s.attr[y], name, prot)
    ensures y in Found(s, s.chains[b], |s.chains[b]|, name, now, prot) && y < s.size
  {
    hide Found, NameMatch, Noted, Dead, Valid, Inv, CursorOk, SameClass;
    var c := s.chains[b];
    LruInRange(r.s);
    MatchInChain(r.s, b, name, prot, y);
    LeftIsLive(s, b, now, r.s, y);
    FoundElements(s, c, |c|, name, now, prot);
  }

  lemma MatchInChain(s: State, b: nat, name: string, prot: Flags, y: nat)
    requires Valid(s) && b < |s.chains| && b == Bucket(s.mix, name, |s.chains|)
    requires y in s.lru && y < |s.attr| && NameMatch(s.attr[y], name, prot)
    ensures y in s.chains[b]
  {
    hide UsedFirst, Flagged, ChainsOk, LinksOk, BatchClosed;
  }

  /** What is left of a chain after the scan was not dead and is as it was. */
  lemma LeftIsLive(s: State, b: nat, now: int, s': State, y: nat)
    requires Inv(s) && b < |s.chains| && ChainInRange(s, s.chains[b])
    requires b < |s'.chains| && y in s'.chains[b] && y < |s'.attr|
    requires Scanned(s, b, |s.chains[b]|, now, s', |s'.chains[b]|)
    ensures s'.attr[y] == s.attr[y]
    ensures exists j :: 0 <= j < |s.chains[b]| && s.chains[b][j] == y && !Dead(s, s.chains[b], j, now)
  {
    hide UsedFirst, Flagged, AllHashed, LinksOk, Dead, MayHash;
    var c, c' := s.chains[b], s'.chains[b];
    assert ChainOk(s, b, c);
    assert c'[..|c'|] == c' && c[..|c|] == c;
    var m :| 0 <= m < |c'| && c'[m] == y;
    assert c'[m] in c[..|c|];
    var j :| 0 <= j < |c| && c[j] == y;
    assert c[j] in c'[..|c'|];
    assert !Gone(s, c, |c|, now, y);
  }
}
