/** Starting, linking and committing an insertion batch; adding hosts records, growing and clearing the hash table. */
module CacheBatch {
  import opened Sequences
  import opened CacheState
  import opened CacheSteps
  import opened CacheScan
  import opened CacheInsert

  // ---------- cache_start_insert ----------

  /** Frees a batch that was never committed. */
  ghost function StartInsert(s: State): (s': State)
    requires |s.gen| == |s.attr| && forall i :: 0 <= i < |s.pending| ==> s.pending[i] < |s.attr|
    decreases |s.pending|
  {
    if s.pending == [] then s
    else StartInsert(Free(s.(pending := s.pending[1..]), s.pending[0]))
  }

  lemma FreePendingKeepsInv(s: State)
    requires Inv(s) && s.pending != []
    requires forall i :: 0 <= i < |s.pending| ==> s.pending[i] < |s.attr|
    ensures Inv(Free(s.(pending := s.pending[1..]), s.pending[0]))
  {
    FreePendingKeepsLists(s);
    FreePendingKeepsRest(s);
  }

  lemma FreePendingKeepsLists(s: State)
    requires Sized(s) && Partitioned(s) && UsedFirst(s) && Flagged(s) && s.pending != []
    ensures var s' := Free(s.(pending := s.pending[1..]), s.pending[0]);
      Sized(s') && Partitioned(s') && UsedFirst(s') && Flagged(s')
  {
    var x := s.pending[0];
    var s' := Free(s.(pending := s.pending[1..]), x);
    assert x in s.pending;
    SplitIds(s.size, s.lru, s.pending);
    LruIds(s);
    SnocElements(s.lru, x);
    SplitReturn(s.size, s.lru, s.pending, s.lru + [x]);
    hide UsedBeforeFree;
    OrderFrame(s.attr, s'.attr, s.lru);
    OrderSnoc(s'.attr, s.lru, x);
  }

  lemma FreePendingKeepsRest(s: State)
    requires Inv(s) && s.pending != []
    ensures var s' := Free(s.(pending := s.pending[1..]), s.pending[0]);
      Sized(s') && ChainsOk(s') && LinksOk(s') && (Partitioned(s') ==> AllHashed(s'))
  {
    var x := s.pending[0];
    var s' := Free(s.(pending := s.pending[1..]), x);
    assert x in s.pending && x !in s.lru;
    forall b | 0 <= b < |s.chains| ensures ChainOk(s', b, s'.chains[b]) {
      assert ChainOk(s, b, s.chains[b]);
      forall i | 0 <= i < |s.chains[b]| ensures MayHash(s', b, s'.chains[b][i]) {
        assert MayHash(s, b, s.chains[b][i]);
      }
    }
    forall c | 0 <= c < s.size && InUse(s'.attr[c]) && Cname in s'.attr[c].flags ensures LinkOk(s', c) {
      assert LinkOk(s, c);
    }
  }

  lemma InvBatch(s: State)
    requires Inv(s)
    ensures |s.gen| == |s.attr| && forall i :: 0 <= i < |s.pending| ==> s.pending[i] < |s.attr|
    ensures s.pending == [] ==> Valid(s)
    ensures s.pending != [] ==> s.pending[0] !in s.pending[1..]
  {
  }

  /** What freeing the first record of the batch changes. */
  lemma FreeFirst(s: State)
    requires |s.gen| == |s.attr| && s.pending != [] && s.pending[0] < |s.attr|
    ensures var x, s1 := s.pending[0], Free(s.(pending := s.pending[1..]), s.pending[0]);
      && s1.lru == s.lru + [x] && s1.pending == s.pending[1..] && s1.chains == s.chains
      && |s1.attr| == |s.attr| == |s1.gen| && !InUse(s1.attr[x])
      && forall y :: 0 <= y < |s.attr| && y != x ==> s1.attr[y] == s.attr[y]
  {
  }

  /** Whatever the last batch left behind becomes free records at the old end of the LRU list; nothing else changes. */
  lemma {:induction false} StartInsertFreesBatch(s: State)
    requires Inv(s)
    ensures |s.gen| == |s.attr| && forall i :: 0 <= i < |s.pending| ==> s.pending[i] < |s.attr|
    ensures var s' := StartInsert(s);
      && Valid(s') && s'.pending == [] && s'.lru == s.lru + s.pending && s'.chains == s.chains && |s'.attr| == |s.attr|
      && (forall y :: 0 <= y < |s.attr| ==> if y in s.pending then !InUse(s'.attr[y]) else s'.attr[y] == s.attr[y])
    decreases |s.pending|
  {
    hide Inv, BatchClosed, Free, InUse;
    InvBatch(s);
    if s.pending != [] {
      var s1 := Free(s.(pending := s.pending[1..]), s.pending[0]);
      FreePendingKeepsInv(s);
      FreeFirst(s);
      StartInsertFreesBatch(s1);
      assert s.lru + [s.pending[0]] + s.pending[1..] == s.lru + s.pending;
    } else {
      assert s.lru + s.pending == s.lru;
    }
  }

  // ---------- linking a CNAME of the batch to its target ----------

  /** The two assignments of `extract_addresses`; `linkGen` remembers the target's incarnation. */
  ghost function LinkCname(s: State, c: nat, t: nat): State
    requires c < |s.attr| && t < |s.attr| && |s.gen| == |s.attr| && |s.linkGen| == |s.attr|
  {
    s.(attr := s.attr[c := s.attr[c].(target := t, targetUid := s.attr[t].uid)], linkGen := s.linkGen[c := s.gen[t]])
  }

  lemma LinkKeepsValid(s: State, c: nat, i: nat)
    requires Valid(s) && 0 < i < |s.pending| && s.pending[i] == c
    ensures c < |s.attr| && s.pending[0] < |s.attr| && |s.gen| == |s.attr| && |s.linkGen| == |s.attr|
    ensures Valid(LinkCname(s, c, s.pending[0]))
  {
    assert c in s.pending && s.pending[0] in s.pending;
    LinkKeepsRest(s, c);
    LinkKeepsLinks(s, c, s.pending[0]);
    LinkKeepsBatch(s, c, i);
  }

  lemma LinkKeepsRest(s: State, c: nat)
    requires Inv(s) && c in s.pending && s.pending[0] < |s.attr|
    ensures c < |s.attr|
    ensures var s' := LinkCname(s, c, s.pending[0]);
      Sized(s') && Partitioned(s') && UsedFirst(s') && Flagged(s') && ChainsOk(s') && AllHashed(s')
  {
    hide LinksOk;
    var s' := LinkCname(s, c, s.pending[0]);
    assert c !in s.lru;
    forall b | 0 <= b < |s.chains| ensures ChainOk(s', b, s'.chains[b]) {
      assert ChainOk(s, b, s.chains[b]);
      forall k | 0 <= k < |s.chains[b]| ensures MayHash(s', b, s'.chains[b][k]) {
        assert MayHash(s, b, s.chains[b][k]);
      }
    }
  }

  lemma LinkKeepsLinks(s: State, c: nat, t: nat)
    requires Inv(s) && c in s.pending && t in s.pending && c < |s.attr| && t < |s.attr|
    ensures Sized(LinkCname(s, c, t)) && LinksOk(LinkCname(s, c, t))
  {
    hide UsedFirst, ChainsOk, AllHashed;
    var s' := LinkCname(s, c, t);
    forall k | 0 <= k < s.size && InUse(s'.attr[k]) && Cname in s'.attr[k].flags ensures LinkOk(s', k) {
      assert LinkOk(s, k);
    }
  }

  lemma LinkKeepsBatch(s: State, c: nat, i: nat)
    requires Sized(s) && Partitioned(s) && BatchClosed(s) && 0 < i < |s.pending| && s.pending[i] == c
    ensures BatchClosed(LinkCname(s, c, s.pending[0]))
  {
    var s' := LinkCname(s, c, s.pending[0]);
    forall k | 0 <= k < |s'.pending| && Cname in s'.attr[s'.pending[k]].flags
      ensures var c' := s'.pending[k]; var t := s'.attr[c'].target;
        0 <= t < s'.size && s'.attr[c'].targetUid == s'.attr[t].uid ==> t in s'.pending[..k]
    {
      if k == i {
        assert s.pending[..k][0] == s.pending[0];
      }
    }
  }

  // ---------- cache_end_insert ----------

  /** One turn of the committing loop: a CNAME without its target is freed, any other record is hashed and becomes the
      youngest of the LRU list. */
  ghost function CommitOne(s: State): (s': State)
    requires InRange(s) && |s.chains| > 0 && s.pending != [] && s.pending[0] < |s.attr|
    ensures InRange(s') && |s'.chains| == |s.chains| && s'.pending == s.pending[1..] && |s'.attr| == |s.attr|
  {
    var x := s.pending[0];
    var s1 := s.(pending := s.pending[1..]);
    if Outdated(s.attr, x) then Free(s1, x) else HashIn(s1, x).(lru := [x] + s.lru)
  }

  ghost function EndInsert(s: State): State
    requires InRange(s) && |s.chains| > 0 && forall i :: 0 <= i < |s.pending| ==> s.pending[i] < |s.attr|
    decreases |s.pending|
  {
    if s.pending == [] then s else EndInsert(CommitOne(s))
  }

  /** During the committing loop the target of a CNAME in the batch is either older in the batch or committed. */
  ghost predicate BatchResolved(s: State)
    requires Sized(s) && Partitioned(s)
  {
    forall i :: 0 <= i < |s.pending| && Cname in s.attr[s.pending[i]].flags ==>
      var c := s.pending[i];
      var t := s.attr[c].target;
      0 <= t < s.size && s.attr[c].targetUid == s.attr[t].uid ==> t in s.pending[..i] || t in s.lru
  }

  lemma CommitKeepsLists(s: State)
    requires Sized(s) && Partitioned(s) && UsedFirst(s) && Flagged(s) && s.pending != []
    ensures var s' := s.(pending := s.pending[1..], lru := [s.pending[0]] + s.lru);
      Partitioned(s') && UsedFirst(s') && Flagged(s')
  {
    var x := s.pending[0];
    assert x in s.pending;
    SplitIds(s.size, s.lru, s.pending);
    LruIds(s);
    ConsElements(s.lru, x);
    SplitReturn(s.size, s.lru, s.pending, [x] + s.lru);
    hide UsedBeforeFree;
    OrderCons(s.attr, s.lru, x);
  }

  lemma CommitKeepsChains(s: State)
    requires Inv(s) && InRange(s) && s.pending != [] && !Outdated(s.attr, s.pending[0])
    ensures var s' := CommitOne(s); Sized(s') && ChainsOk(s') && (Partitioned(s') ==> AllHashed(s'))
  {
    hide Inv, ChainOk, MayHash, Partitioned, Outdated, Bucket, HashPos;
    var x := s.pending[0];
    FirstOfBatch(s);
    var s1 := s.(pending := s.pending[1..], lru := [x] + s.lru);
    var s' := CommitOne(s);
    var h := Bucket(s.mix, s.attr[x].name, |s.chains|);
    forall b | 0 <= b < |s.chains| ensures ChainOk(s1, b, s.chains[b]) && x !in s.chains[b] {
      ChainWithYounger(s, b, x, s1);
    }
    YoungestMayHash(s1, x);
    HashKeepsChain(s1, h, s.chains[h], x);
    forall b | 0 <= b < |s.chains| ensures ChainOk(s', b, s'.chains[b]) {
      SameChainOk(s1, s', b, s'.chains[b]);
    }
    if Partitioned(s') {
      CommitKeepsHashed(s);
    }
  }

  lemma FirstOfBatch(s: State)
    requires Inv(s) && s.pending != []
    ensures Sized(s) && s.pending[0] < s.size && s.pending[0] !in s.lru && InUse(s.attr[s.pending[0]])
  {
    assert s.pending[0] in s.pending;
  }

  lemma YoungestMayHash(s: State, x: nat)
    requires Sized(s) && x < |s.attr| && InUse(s.attr[x]) && s.lru != [] && s.lru[0] == x
    ensures MayHash(s, Bucket(s.mix, s.attr[x].name, |s.chains|), x)
  {
    hide Bucket;
  }

  lemma CommitKeepsHashed(s: State)
    requires Inv(s) && InRange(s) && s.pending != [] && s.pending[0] < |s.attr| && !Outdated(s.attr, s.pending[0])
    requires Sized(CommitOne(s)) && Partitioned(CommitOne(s))
    ensures AllHashed(CommitOne(s))
  {
    hide UsedFirst, Flagged, LinksOk, ChainsOk, Outdated, Bucket, HashPos, InUse;
    var x := s.pending[0];
    var h := Bucket(s.mix, s.attr[x].name, |s.chains|);
    var p := HashPos(s.attr, s.chains[h], s.attr[x].flags);
    InsertAtHolds(s.chains[h], p, x);
  }

  lemma InsertAtHolds(c: seq<nat>, p: nat, x: nat)
    requires p <= |c|
    ensures x in InsertAt(c, p, x) && forall y :: y in c ==> y in InsertAt(c, p, x)
  {
    var r := InsertAt(c, p, x);
    assert r[p] == x;
    forall y | y in c ensures y in r {
      var i :| 0 <= i < |c| && c[i] == y;
      assert r[if i < p then i else i + 1] == y;
    }
  }

  lemma ChainWithYounger(s: State, b: nat, x: nat, s1: State)
    requires Inv(s) && b < |s.chains| && x !in s.lru && x < s.size
    requires s1 == s.(pending := s1.pending, lru := [x] + s.lru)
    ensures ChainOk(s1, b, s.chains[b]) && x !in s.chains[b]
  {
    assert ChainOk(s, b, s.chains[b]);
    forall i | 0 <= i < |s.chains[b]| ensures MayHash(s1, b, s.chains[b][i]) && s.chains[b][i] != x {
      assert MayHash(s, b, s.chains[b][i]);
    }
  }

  lemma SameChainOk(s: State, s': State, b: nat, c: seq<nat>)
    requires Sized(s) && Sized(s') && ChainOk(s, b, c)
    requires s'.size == s.size && s'.mix == s.mix && s'.attr == s.attr && s'.lru == s.lru && |s'.chains| == |s.chains|
    ensures ChainOk(s', b, c)
  {
    forall i | 0 <= i < |c| ensures MayHash(s', b, c[i]) {
      assert MayHash(s, b, c[i]);
    }
  }

  lemma CommitKeepsLinks(s: State)
    requires Inv(s) && BatchResolved(s) && InRange(s) && s.pending != [] && !Outdated(s.attr, s.pending[0])
    ensures var s' := CommitOne(s); Sized(s') && LinksOk(s')
  {
    var x := s.pending[0];
    var s' := CommitOne(s);
    assert s.pending[..0] == [];
    forall c | 0 <= c < s.size && InUse(s'.attr[c]) && Cname in s'.attr[c].flags ensures LinkOk(s', c) {
      assert LinkOk(s, c);
      assert c in s'.lru <==> c in s.lru || c == x;
    }
  }

  lemma CommitKeepsInv(s: State)
    requires Inv(s) && BatchResolved(s) && InRange(s) && s.pending != []
    requires s.pending[0] < |s.attr|
    ensures Inv(CommitOne(s)) && BatchResolved(CommitOne(s))
  {
    if Outdated(s.attr, s.pending[0]) {
      FreePendingKeepsInv(s);
    } else {
      CommitKeepsLists(s);
      CommitKeepsChains(s);
      CommitKeepsLinks(s);
      CommitKeepsFlags(s);
    }
    CommitKeepsBatch(s);
  }

  lemma CommitKeepsFlags(s: State)
    requires Sized(s) && InRange(s) && s.pending != [] && s.pending[0] < |s.attr| && !Outdated(s.attr, s.pending[0])
    requires var s1 := s.(pending := s.pending[1..], lru := [s.pending[0]] + s.lru);
      Partitioned(s1) && UsedFirst(s1) && Flagged(s1)
    ensures var s' := CommitOne(s); Sized(s') && Partitioned(s') && UsedFirst(s') && Flagged(s')
  {
  }

  lemma CommitKeepsBatch(s: State)
    requires Sized(s) && Partitioned(s) && BatchResolved(s) && InRange(s) && s.pending != [] && s.pending[0] < |s.attr|
    requires Partitioned(CommitOne(s))
    ensures Sized(CommitOne(s)) && BatchResolved(CommitOne(s))
  {
    hide Outdated, InRange;
    var x := s.pending[0];
    var s' := CommitOne(s);
    forall i | 0 <= i < |s'.pending| && Cname in s'.attr[s'.pending[i]].flags
      ensures var c := s'.pending[i]; var t := s'.attr[c].target;
        0 <= t < s'.size && s'.attr[c].targetUid == s'.attr[t].uid ==> t in s'.pending[..i] || t in s'.lru
    {
      var c := s'.pending[i];
      assert c == s.pending[i + 1] && s.pending[..i + 1] == [x] + s.pending[1..][..i];
      assert s'.attr[c] == s.attr[c];
    }
  }

  ghost predicate Hashed(s: State, y: nat) {
    exists b :: 0 <= b < |s.chains| && y in s.chains[b]
  }

  /** Unchanged, or freed in the meantime. */
  ghost predicate SameOrFreed(s: State, s': State, y: nat)
    requires y < |s.attr| == |s'.attr|
  {
    s'.attr[y] == s.attr[y] || (s'.attr[y].uid >= s.uid && s'.attr[y] == FreedAttr(s.attr[y], s'.attr[y].uid))
  }

  /** What committing does to one record of the batch. */
  ghost predicate Committed(s: State, s': State, y: nat)
    requires y < |s.attr| == |s'.attr|
  {
    y in s'.lru &&
    if Outdated(s'.attr, y) then !InUse(s'.attr[y])
    else s'.attr[y] == s.attr[y] && Hashed(s', y)
  }

  /** Committing makes the whole batch visible at once, except CNAMEs that found no target, which are freed; records
      that were visible before stay so, and nothing else becomes visible. */
  lemma {:induction false} EndInsertCommitsBatch(s: State)
    requires Inv(s) && BatchResolved(s)
    ensures InRange(s) && |s.chains| > 0 && forall i :: 0 <= i < |s.pending| ==> s.pending[i] < |s.attr|
    ensures var s' := EndInsert(s);
      && Valid(s') && s'.pending == [] && |s'.attr| == |s.attr| && |s'.chains| == |s.chains|
      && (forall y :: 0 <= y < |s.attr| && y !in s.pending ==> s'.attr[y] == s.attr[y])
      && (forall i :: 0 <= i < |s.pending| ==> Committed(s, s', s.pending[i]))
      && (forall b, y :: 0 <= b < |s.chains| && y in s.chains[b] ==> y in s'.chains[b])
      && (forall b, y :: 0 <= b < |s.chains| && y in s'.chains[b] ==> y in s.chains[b] || y in s.pending)
      && s'.uid >= s.uid && (forall y :: y in s.lru ==> y in s'.lru)
      && (forall y :: 0 <= y < |s.attr| ==> SameOrFreed(s, s', y))
    decreases |s.pending|
  {
    hide Inv, Outdated, Valid, BatchResolved, CommitOne;
    InvInRange(s);
    InvPending(s);
    if s.pending != [] {
      var x := s.pending[0];
      var s1 := CommitOne(s);
      CommitKeepsInv(s);
      EndInsertCommitsBatch(s1);
      var s' := EndInsert(s1);
      CommitOneShows(s);
      FirstCommitted(s, s');
      forall i | 0 < i < |s.pending| ensures Committed(s, s', s.pending[i]) {
        assert s.pending[i] == s1.pending[i - 1];
        assert Committed(s1, s', s1.pending[i - 1]);
        assert s.pending[i] != x;
      }
      forall b, y | 0 <= b < |s.chains| && y in s'.chains[b] ensures y in s.chains[b] || y in s.pending {
        assert y in s1.chains[b] || y in s1.pending;
        assert x in s.pending && (y in s.pending[1..] ==> y in s.pending);
      }
      forall y | 0 <= y < |s.attr| ensures SameOrFreed(s, s', y) {
        assert SameOrFreed(s1, s', y);
        assert y == s.pending[0] || s1.attr[y] == s.attr[y];
        FreedTwice(s.attr[y], s1.attr[y].uid, s'.attr[y].uid);
      }
    } else {
      assert Valid(s) by { EmptyBatchValid(s); }
    }
  }

  lemma EmptyBatchValid(s: State)
    requires Inv(s) && s.pending == []
    ensures Valid(s)
  {
  }

  lemma InvPending(s: State)
    requires Inv(s)
    ensures |s.chains| > 0 && |s.gen| == |s.attr| == |s.linkGen| && Distinct(s.pending)
    ensures forall i :: 0 <= i < |s.pending| ==> s.pending[i] < |s.attr|
  {
  }

  /** The record handled by one turn of the loop keeps its fate. */
  lemma FirstCommitted(s: State, s': State)
    requires Inv(s) && BatchResolved(s) && InRange(s) && s.pending != [] && s.pending[0] < |s.attr| && |s.chains| > 0
    requires var s1 := CommitOne(s);
      && |s'.attr| == |s.attr| && |s'.chains| == |s.chains|
      && (forall y :: 0 <= y < |s.attr| && y !in s1.pending ==> s'.attr[y] == s1.attr[y])
      && (forall b, y :: 0 <= b < |s.chains| && y in s1.chains[b] ==> y in s'.chains[b])
      && (forall y :: y in s1.lru ==> y in s'.lru)
      && (forall y :: 0 <= y < |s.attr| ==> SameOrFreed(s1, s', y))
    ensures Committed(s, s', s.pending[0])
  {
    var x := s.pending[0];
    var s1 := CommitOne(s);
    var h := Bucket(s.mix, s.attr[x].name, |s.chains|);
    assert x !in s1.pending && x in s.pending && InUse(s.attr[x]);
    assert x in s1.lru by {
      assert Outdated(s.attr, x) ==> s1.lru[|s.lru|] == x;
      assert !Outdated(s.attr, x) ==> s1.lru[0] == x;
    }
    var t := s.attr[x].target;
    if Cname in s.attr[x].flags { assert LinkOk(s, x) && s.pending[..0] == []; }
    if Outdated(s.attr, x) {
      assert 0 <= t < |s.attr| ==> SameOrFreed(s1, s', t);
    } else {
      assert s1.chains[h][HashPos(s.attr, s.chains[h], s.attr[x].flags)] == x;
      assert x in s'.chains[h];
      assert t in s.lru && t < |s.attr| ==> s'.attr[t] == s.attr[t];
    }
  }

  lemma CommitOneShows(s: State)
    requires Inv(s) && InRange(s) && s.pending != [] && s.pending[0] < |s.attr| && |s.chains| > 0
    ensures var s1 := CommitOne(s); var x := s.pending[0];
      && (forall y :: 0 <= y < |s.attr| && y != x ==> s1.attr[y] == s.attr[y]) && SameOrFreed(s, s1, x)
      && s1.uid >= s.uid && (forall y :: y in s.lru ==> y in s1.lru)
      && (forall b, y :: 0 <= b < |s.chains| && y in s.chains[b] ==> y in s1.chains[b])
      && (forall b, y :: 0 <= b < |s.chains| && y in s1.chains[b] ==> y in s.chains[b] || y == x)
  {
    hide Bucket, Outdated, HashPos;
    var x := s.pending[0];
    var h := Bucket(s.mix, s.attr[x].name, |s.chains|);
    assert ChainOk(s, h, s.chains[h]);
    forall i | 0 <= i < |s.chains[h]| ensures s.chains[h][i] != x {
      assert MayHash(s, h, s.chains[h][i]);
    }
    InsertAtElements(s.chains[h], HashPos(s.attr, s.chains[h], s.attr[x].flags), x);
  }
}
