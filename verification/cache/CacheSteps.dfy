/** Each elementary step of the cache keeps the joint invariant. */
module CacheSteps {
  import opened Sequences
  import opened CacheState

  /** Only the sets of records matter for the split. */
  lemma SplitSame(size: nat, lru: seq<nat>, pending: seq<nat>, lru': seq<nat>)
    requires Split(size, lru, pending) && Distinct(lru')
    requires forall y :: y in lru' <==> y in lru
    ensures Split(size, lru', pending)
  {
    forall i | 0 <= i < |lru'| ensures lru'[i] < size && lru'[i] !in pending {
      assert lru'[i] in lru' && lru'[i] in lru;
    }
  }

  lemma SplitIds(size: nat, lru: seq<nat>, pending: seq<nat>)
    requires Split(size, lru, pending)
    ensures forall y :: y in lru ==> y < size && y !in pending
    ensures forall y :: y in pending ==> y < size && y !in lru
    ensures Distinct(lru) && Distinct(pending)
  {
  }

  /** A record goes from the LRU list to the batch. */
  lemma SplitGrab(size: nat, lru: seq<nat>, pending: seq<nat>, x: nat)
    requires Split(size, lru, pending) && x in lru
    ensures Split(size, Without(lru, x), [x] + pending)
  {
    var r, p := Without(lru, x), [x] + pending;
    WithoutElements(lru, x);
    ConsElements(pending, x);
    forall i | 0 <= i < |r| ensures r[i] < size && r[i] !in p {
      assert r[i] in r;
    }
    forall i | 0 <= i < |p| ensures p[i] < size {
      assert p[i] in p;
    }
  }

  /** The first record of the batch goes back to the LRU list. */
  lemma SplitReturn(size: nat, lru: seq<nat>, pending: seq<nat>, lru': seq<nat>)
    requires Split(size, lru, pending) && pending != [] && Distinct(lru')
    requires forall y :: y in lru' <==> y in lru || y == pending[0]
    ensures Split(size, lru', pending[1..])
  {
    RemoveAtElements(pending, 0);
    var p := RemoveAt(pending, 0);
    assert p == pending[1..];
    forall i | 0 <= i < |lru'| ensures lru'[i] < size && lru'[i] !in p {
      assert lru'[i] in lru';
    }
  }

  lemma OrderWithout(attr: seq<Attr>, q: seq<nat>, x: nat)
    requires Distinct(q) && (forall i :: 0 <= i < |q| ==> q[i] < |attr|) && UsedBeforeFree(attr, q)
    ensures var r := Without(q, x);
      && Distinct(r) && (forall y :: y in r <==> y in q && y != x)
      && (forall i :: 0 <= i < |r| ==> r[i] < |attr| && r[i] != x)
      && UsedBeforeFree(attr, r)
  {
    WithoutElements(q, x);
    var r := Without(q, x);
    forall i | 0 <= i < |r| ensures r[i] < |attr| && r[i] != x { assert r[i] in r; }
    if x in q {
      var k := IndexOf(q, x);
      forall i, j | 0 <= i < j < |r| && InUse(attr[r[j]]) ensures InUse(attr[r[i]]) {
        assert r[i] == q[if i < k then i else i + 1] && r[j] == q[if j < k then j else j + 1];
      }
    }
  }

  lemma OrderFrame(attr: seq<Attr>, attr': seq<Attr>, q: seq<nat>)
    requires |attr'| == |attr| && (forall i :: 0 <= i < |q| ==> q[i] < |attr| && attr'[q[i]] == attr[q[i]])
      && UsedBeforeFree(attr, q)
    ensures UsedBeforeFree(attr', q)
  {
  }

  lemma OrderSnoc(attr: seq<Attr>, q: seq<nat>, x: nat)
    requires (forall i :: 0 <= i < |q| ==> q[i] < |attr|) && x < |attr| && UsedBeforeFree(attr, q) && !InUse(attr[x])
    ensures UsedBeforeFree(attr, q + [x])
  {
  }

  lemma OrderCons(attr: seq<Attr>, q: seq<nat>, x: nat)
    requires (forall i :: 0 <= i < |q| ==> q[i] < |attr|) && x < |attr| && UsedBeforeFree(attr, q) && InUse(attr[x])
    ensures UsedBeforeFree(attr, [x] + q)
  {
    var r := [x] + q;
    forall i, j | 0 <= i < j < |r| && InUse(attr[r[j]]) ensures InUse(attr[r[i]]) {
      assert r[j] == q[j - 1] && (i == 0 || r[i] == q[i - 1]);
    }
  }

  lemma LruIds(s: State)
    requires Sized(s) && Partitioned(s)
    ensures forall i :: 0 <= i < |s.lru| ==> s.lru[i] < |s.attr|
  {
  }

  /** Freeing a record of the LRU list that is in no chain. */
  lemma FreeKeepsLists(s: State, x: nat)
    requires Sized(s) && Partitioned(s) && UsedFirst(s) && Flagged(s) && x in s.lru
    ensures var s' := Free(Unlink(s, x), x);
      Sized(s') && Partitioned(s') && UsedFirst(s') && Flagged(s')
  {
    SplitIds(s.size, s.lru, s.pending);
    LruIds(s);
    OrderWithout(s.attr, s.lru, x);
    var r := Without(s.lru, x);
    var s' := Free(Unlink(s, x), x);
    SnocElements(r, x);
    hide UsedBeforeFree, Split;
    SplitSame(s.size, s.lru, s.pending, r + [x]);
    OrderFrame(s.attr, s'.attr, r);
    OrderSnoc(s'.attr, r, x);
    FreedFlagged(s, x);
  }

  lemma FreedFlagged(s: State, x: nat)
    requires Sized(s) && Partitioned(s) && Flagged(s) && x in s.lru && x < |s.attr|
    requires Partitioned(Free(Unlink(s, x), x))
    ensures Sized(Free(Unlink(s, x), x)) && Flagged(Free(Unlink(s, x), x))
  {
    hide UsedBeforeFree;
  }

  lemma FreeKeepsChains(s: State, x: nat)
    requires Sized(s) && Partitioned(s) && ChainsOk(s) && AllHashed'(s, x) && x in s.lru
    requires forall b :: 0 <= b < |s.chains| ==> x !in s.chains[b]
    ensures var s' := Free(Unlink(s, x), x);
      Sized(s') && ChainsOk(s') && (Partitioned(s') ==> AllHashed(s'))
  {
    var s' := Free(Unlink(s, x), x);
    WithoutElements(s.lru, x);
    forall b | 0 <= b < |s.chains| ensures ChainOk(s', b, s'.chains[b]) {
      assert ChainOk(s, b, s.chains[b]);
      forall i | 0 <= i < |s.chains[b]| ensures MayHash(s', b, s'.chains[b][i]) {
        var y := s.chains[b][i];
        assert y in s.chains[b] && MayHash(s, b, y);
      }
    }
  }

  /** Every in-use record of the LRU list but `x` is hashed. */
  ghost predicate AllHashed'(s: State, x: nat)
    requires Sized(s) && Partitioned(s)
  {
    forall y :: y in s.lru && y != x && InUse(s.attr[y]) ==> y in s.chains[Bucket(s.mix, s.attr[y].name, |s.chains|)]
  }

  lemma FreeKeepsLinks(s: State, x: nat)
    requires Sized(s) && Partitioned(s) && LinksOk(s) && x in s.lru
    ensures var s' := Free(Unlink(s, x), x); Sized(s') && LinksOk(s')
  {
    var s' := Free(Unlink(s, x), x);
    WithoutElements(s.lru, x);
    assert forall y :: y in s'.lru <==> y in s.lru;
    forall c | 0 <= c < s.size && InUse(s'.attr[c]) && Cname in s'.attr[c].flags ensures LinkOk(s', c) {
      assert LinkOk(s, c);
    }
  }

  /** The links do not depend on the chains. */
  lemma LinksWithoutChains(s: State, chains: seq<seq<nat>>)
    requires Sized(s) && LinksOk(s) && |chains| > 0
    ensures LinksOk(s.(chains := chains))
  {
    forall c | 0 <= c < s.size && InUse(s.attr[c]) && Cname in s.attr[c].flags ensures LinkOk(s.(chains := chains), c) {
      assert LinkOk(s, c);
    }
  }

  lemma EvictKeepsInv(s: State, b: nat, i: nat)
    requires Inv(s) && b < |s.chains| && i < |s.chains[b]|
    ensures InRange(s) && Inv(Evict(s, b, i))
    ensures BatchClosed(s) ==> BatchClosed(Evict(s, b, i))
  {
    var x := s.chains[b][i];
    assert ChainOk(s, b, s.chains[b]) && MayHash(s, b, x);
    InvInRange(s);
    UnhashKeepsChains(s, b, i);
    var u := Unhash(s, b, i);
    LinksWithoutChains(s, u.chains);
    hide ChainsOk, LinksOk, UsedBeforeFree;
    if IsHost(s.attr[x]) {
      assert AllHashed(u);
    } else {
      FreeKeepsLists(u, x);
      FreeKeepsChains(u, x);
      FreeKeepsLinks(u, x);
    }
  }

  lemma PromoteKeepsLists(s: State, x: nat)
    requires Sized(s) && Partitioned(s) && UsedFirst(s) && Flagged(s) && x in s.lru && InUse(s.attr[x])
    ensures var s' := Promote(s, x);
      && Partitioned(s') && UsedFirst(s') && Flagged(s')
      && (forall y :: y in s'.lru <==> y in s.lru)
  {
    SplitIds(s.size, s.lru, s.pending);
    LruIds(s);
    OrderWithout(s.attr, s.lru, x);
    var r := Without(s.lru, x);
    ConsElements(r, x);
    hide UsedBeforeFree, Split;
    SplitSame(s.size, s.lru, s.pending, [x] + r);
    OrderCons(s.attr, r, x);
  }

  /** The chain and link clauses only ask which records the LRU list holds, not in which order. */
  lemma LruOrderIrrelevant(s: State, q: seq<nat>)
    requires Sized(s) && ChainsOk(s) && LinksOk(s)
    requires forall y :: y in q <==> y in s.lru
    ensures var s' := s.(lru := q); ChainsOk(s') && LinksOk(s')
  {
    var s' := s.(lru := q);
    forall b | 0 <= b < |s.chains| ensures ChainOk(s', b, s'.chains[b]) {
      assert ChainOk(s, b, s.chains[b]);
      forall i | 0 <= i < |s.chains[b]| ensures MayHash(s', b, s'.chains[b][i]) {
        assert MayHash(s, b, s.chains[b][i]);
      }
    }
    forall c | 0 <= c < s.size && InUse(s.attr[c]) && Cname in s.attr[c].flags ensures LinkOk(s', c) {
      assert LinkOk(s, c);
    }
  }

  lemma PromoteKeepsInv(s: State, x: nat)
    requires Inv(s) && x in s.lru && InUse(s.attr[x])
    ensures Inv(Promote(s, x))
    ensures BatchClosed(s) ==> BatchClosed(Promote(s, x))
  {
    hide UsedFirst, Flagged, ChainsOk, LinksOk;
    PromoteKeepsLists(s, x);
    LruOrderIrrelevant(s, Promote(s, x).lru);
  }

  /** Reordering one chain within its order classes. */
  lemma RechainKeepsInv(s: State, b: nat, c: seq<nat>)
    requires Inv(s) && b < |s.chains| && ChainOk(s, b, c)
    requires forall y :: y in c <==> y in s.chains[b]
    ensures Inv(s.(chains := s.chains[b := c]))
    ensures BatchClosed(s) ==> BatchClosed(s.(chains := s.chains[b := c]))
  {
    var s' := s.(chains := s.chains[b := c]);
    forall a | 0 <= a < |s.chains| ensures ChainOk(s', a, s'.chains[a]) {
      assert ChainOk(s, a, s.chains[a]);
      forall i | 0 <= i < |s'.chains[a]| ensures MayHash(s', a, s'.chains[a][i]) {
        assert MayHash(s, a, s'.chains[a][i]);
      }
    }
    forall k | 0 <= k < s.size && InUse(s.attr[k]) && Cname in s.attr[k].flags ensures LinkOk(s', k) {
      assert LinkOk(s, k);
    }
  }
}
