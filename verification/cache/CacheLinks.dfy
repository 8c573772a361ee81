/** The links that thread records into lists, and how the pointer updates of the cache change those lists. */
module CacheLinks {
  import opened Sequences
  import opened CacheState

  /** The record at position `i` of a list, NIL past its end. */
  function Nth(q: seq<nat>, i: nat): int {
    if i < |q| then q[i] else NIL
  }

  /** The record before position `i`, NIL at the front. */
  function Before(q: seq<nat>, i: nat): int
    requires i <= |q|
  {
    if i == 0 then NIL else q[i - 1]
  }

  /** Following `link` from `first` visits exactly the records of `q`, in order. */
  ghost predicate Linked(link: seq<int>, first: int, q: seq<nat>) {
    && first == Nth(q, 0)
    && (forall i :: 0 <= i < |q| ==> q[i] < |link|)
    && (forall i {:trigger link[q[i]]} :: 0 <= i < |q| ==> link[q[i]] == Nth(q, i + 1))
  }

  ghost predicate BackLinked(link: seq<int>, last: int, q: seq<nat>) {
    && last == Before(q, |q|)
    && (forall i :: 0 <= i < |q| ==> q[i] < |link|)
    && (forall i {:trigger link[q[i]]} :: 0 <= i < |q| ==> link[q[i]] == Before(q, i))
  }

  ghost predicate Disjoint(q: seq<nat>, r: seq<nat>) {
    forall i, j :: 0 <= i < |q| && 0 <= j < |r| ==> q[i] != r[j]
  }

  /** The LRU list, linked both ways, and the batch, linked through the same field. */
  ghost predicate Lists(next: seq<int>, prev: seq<int>, head: int, tail: int, newChain: int, lru: seq<nat>,
      pending: seq<nat>) {
    && |prev| == |next|
    && Linked(next, head, lru) && BackLinked(prev, tail, lru)
    && Linked(next, newChain, pending)
    && Distinct(lru) && Distinct(pending) && Disjoint(lru, pending)
  }

  ghost predicate Table(hashNext: seq<int>, table: seq<int>, chains: seq<seq<nat>>) {
    && |table| == |chains| > 0
    && (forall b :: 0 <= b < |chains| ==> Linked(hashNext, table[b], chains[b]) && Distinct(chains[b]))
    && (forall a, b :: 0 <= a < b < |chains| ==> Disjoint(chains[a], chains[b]))
  }

  lemma LinkedFrame(link: seq<int>, link': seq<int>, first: int, q: seq<nat>)
    requires Linked(link, first, q) && |link'| >= |link|
    requires forall i :: 0 <= i < |q| ==> link'[q[i]] == link[q[i]]
    ensures Linked(link', first, q)
  {
  }

  /** The record at position `i` is taken out by the link before it. */
  lemma LinkedRemove(link: seq<int>, first: int, q: seq<nat>, i: nat)
    requires Linked(link, first, q) && Distinct(q) && i < |q|
    ensures if i == 0 then Linked(link, link[q[0]], RemoveAt(q, 0))
            else Linked(link[q[i - 1] := link[q[i]]], first, RemoveAt(q, i))
  {
  }

  /** A record is put in at position `p` by its own link and the one before it. */
  lemma LinkedInsert(link: seq<int>, first: int, q: seq<nat>, p: nat, x: nat)
    requires Linked(link, first, q) && Distinct(q) && p <= |q| && x !in q && x < |link|
    ensures var link1 := link[x := Nth(q, p)];
      if p == 0 then Linked(link1, x, InsertAt(q, 0, x))
      else Linked(link1[q[p - 1] := x], first, InsertAt(q, p, x))
  {
    var r := InsertAt(q, p, x);
    assert forall i :: 0 <= i < |q| ==> q[i] != x;
  }

  lemma BackLinkedRemove(prev: seq<int>, last: int, q: seq<nat>, k: nat)
    requires BackLinked(prev, last, q) && Distinct(q) && k < |q|
    ensures if k + 1 == |q| then BackLinked(prev, prev[q[k]], RemoveAt(q, k))
            else BackLinked(prev[q[k + 1] := prev[q[k]]], last, RemoveAt(q, k))
  {
    if k + 1 == |q| {
      BackLinkedRemoveLast(prev, last, q);
    } else {
      BackLinkedRemoveInner(prev, last, q, k);
    }
  }

  lemma BackLinkedRemoveLast(prev: seq<int>, last: int, q: seq<nat>)
    requires BackLinked(prev, last, q) && q != []
    ensures BackLinked(prev, prev[q[|q| - 1]], RemoveAt(q, |q| - 1))
  {
  }

  lemma BackLinkedRemoveInner(prev: seq<int>, last: int, q: seq<nat>, k: nat)
    requires BackLinked(prev, last, q) && Distinct(q) && k + 1 < |q|
    ensures BackLinked(prev[q[k + 1] := prev[q[k]]], last, RemoveAt(q, k))
  {
    var r := RemoveAt(q, k);
    var prev' := prev[q[k + 1] := prev[q[k]]];
    forall i | 0 <= i < |r| ensures r[i] < |prev'| {
      BackLinkRemoved(prev, last, q, k, i);
    }
    forall i {:trigger prev'[r[i]]} | 0 <= i < |r| ensures prev'[r[i]] == Before(r, i) {
      BackLinkRemoved(prev, last, q, k, i);
    }
  }

  lemma BackLinkRemoved(prev: seq<int>, last: int, q: seq<nat>, k: nat, i: nat)
    requires BackLinked(prev, last, q) && Distinct(q) && k + 1 < |q| && i < |q| - 1
    ensures q[k + 1] < |prev| && q[k] < |prev|
    ensures var r := RemoveAt(q, k); r[i] < |prev| && prev[q[k + 1] := prev[q[k]]][r[i]] == Before(r, i)
  {
  }

  ghost predicate InBounds(p: int, n: nat) {
    p == NIL || 0 <= p < n
  }

  /** `cache_unlink`, on values. */
  lemma ListsUnlink(next: seq<int>, prev: seq<int>, head: int, tail: int, newChain: int, lru: seq<nat>,
      pending: seq<nat>, k: nat)
    requires Lists(next, prev, head, tail, newChain, lru, pending) && k < |lru|
    ensures lru[k] < |next| == |prev| && InBounds(prev[lru[k]], |next|) && InBounds(next[lru[k]], |prev|)
    ensures prev[lru[k]] != NIL ==> prev[lru[k]] in lru
    ensures
      var before, after := prev[lru[k]], next[lru[k]];
      Lists(if before == NIL then next else next[before := after],
            if after == NIL then prev else prev[after := before],
            if before == NIL then after else head,
            if after == NIL then before else tail,
            newChain, RemoveAt(lru, k), pending)
  {
    var before, after := prev[lru[k]], next[lru[k]];
    LinkedRemove(next, head, lru, k);
    BackLinkedRemove(prev, tail, lru, k);
    RemoveAtElements(lru, k);
    var next' := if before == NIL then next else next[before := after];
    forall i | 0 <= i < |pending| ensures next'[pending[i]] == next[pending[i]] {}
    LinkedFrame(next, next', newChain, pending);
    forall i, j | 0 <= i < |lru| - 1 && 0 <= j < |pending| ensures RemoveAt(lru, k)[i] != pending[j] {
      assert RemoveAt(lru, k)[i] == lru[if i < k then i else i + 1];
    }
  }

  /** `cache_link`, on values. */
  lemma ListsLink(next: seq<int>, prev: seq<int>, head: int, tail: int, newChain: int, lru: seq<nat>,
      pending: seq<nat>, x: nat)
    requires Lists(next, prev, head, tail, newChain, lru, pending) && x < |next| && x !in lru && x !in pending
    ensures |prev| == |next| && InBounds(head, |prev|)
    ensures Lists(next[x := head], (if head == NIL then prev else prev[head := x])[x := NIL],
                  x, if tail == NIL then x else tail,
                  newChain, [x] + lru, pending)
  {
    var next' := next[x := head];
    HeadIsFirst(next, head, lru);
    LinkedInsert(next, head, lru, 0, x);
    assert InsertAt(lru, 0, x) == [x] + lru;
    BackLinkedCons(prev, tail, lru, x);
    ConsElements(lru, x);
    LinkedBounds(next, newChain, pending);
    hide Linked, BackLinked;
    assert forall i :: 0 <= i < |pending| ==> pending[i] in pending;
    LinkedFrame(next, next', newChain, pending);
  }

  lemma HeadIsFirst(next: seq<int>, head: int, lru: seq<nat>)
    requires Linked(next, head, lru)
    ensures head == Nth(lru, 0) && InBounds(head, |next|)
  {
  }

  lemma BackLinkedCons(prev: seq<int>, tail: int, lru: seq<nat>, x: nat)
    requires BackLinked(prev, tail, lru) && Distinct(lru) && x < |prev| && x !in lru
    ensures if lru == [] then tail == NIL && BackLinked(prev[x := NIL], x, [x] + lru)
            else tail != NIL && lru[0] < |prev| && BackLinked(prev[lru[0] := x][x := NIL], tail, [x] + lru)
  {
    var r := [x] + lru;
    if lru != [] {
      var prev' := prev[lru[0] := x][x := NIL];
      forall i | 0 <= i < |r| ensures r[i] < |prev'| {
        BackLinkCons(prev, tail, lru, x, i);
      }
      forall i {:trigger prev'[r[i]]} | 0 <= i < |r| ensures prev'[r[i]] == Before(r, i) {
        BackLinkCons(prev, tail, lru, x, i);
      }
      assert r[|r| - 1] == lru[|lru| - 1];
    }
  }

  lemma BackLinkCons(prev: seq<int>, tail: int, lru: seq<nat>, x: nat, i: nat)
    requires BackLinked(prev, tail, lru) && Distinct(lru) && x < |prev| && x !in lru && lru != [] && i <= |lru|
    ensures lru[0] < |prev|
    ensures var r := [x] + lru; r[i] < |prev| && prev[lru[0] := x][x := NIL][r[i]] == Before(r, i)
  {
    assert i > 0 ==> lru[i - 1] in lru;
  }

  lemma LinkedAppend(next: seq<int>, head: int, lru: seq<nat>, x: nat)
    requires Linked(next, head, lru) && Distinct(lru) && x < |next| && x !in lru
    ensures if lru == [] then Linked(next[x := NIL], x, [x])
            else Linked(next[lru[|lru| - 1] := x][x := NIL], head, lru + [x])
  {
    assert forall i :: 0 <= i < |lru| ==> lru[i] != x;
  }

  lemma BackLinkedAppend(prev: seq<int>, tail: int, lru: seq<nat>, x: nat)
    requires BackLinked(prev, tail, lru) && x < |prev| && x !in lru
    ensures BackLinked(prev[x := tail], x, lru + [x])
  {
    assert forall i :: 0 <= i < |lru| ==> lru[i] != x;
  }

  /** The list part of `cache_free`, on values. */
  lemma ListsAppend(next: seq<int>, prev: seq<int>, head: int, tail: int, newChain: int, lru: seq<nat>,
      pending: seq<nat>, x: nat)
    requires Lists(next, prev, head, tail, newChain, lru, pending) && x < |next| && x !in lru && x !in pending
    ensures |prev| == |next| && InBounds(tail, |next|) && (tail != NIL ==> tail in lru)
    ensures Lists((if tail == NIL then next else next[tail := x])[x := NIL], prev[x := tail],
                  if tail == NIL then x else head, x,
                  newChain, lru + [x], pending)
  {
    TailIsLast(prev, tail, lru);
    var next' := (if tail == NIL then next else next[tail := x])[x := NIL];
    LinkedAppend(next, head, lru, x);
    BackLinkedAppend(prev, tail, lru, x);
    hide Linked, BackLinked;
    if lru == [] { assert lru + [x] == [x]; }
    forall i | 0 <= i < |pending| ensures pending[i] < |next| && next'[pending[i]] == next[pending[i]] {
      LinkedBounds(next, newChain, pending);
    }
    LinkedFrame(next, next', newChain, pending);
  }

  lemma TailIsLast(prev: seq<int>, tail: int, lru: seq<nat>)
    requires BackLinked(prev, tail, lru)
    ensures if lru == [] then tail == NIL else tail == lru[|lru| - 1] && tail in lru && 0 <= tail < |prev|
  {
  }

  lemma LinkedBounds(next: seq<int>, first: int, q: seq<nat>)
    requires Linked(next, first, q)
    ensures forall i :: 0 <= i < |q| ==> q[i] < |next|
  {
  }

  /** The batch loses or gains its first record. */
  lemma ListsPop(next: seq<int>, prev: seq<int>, head: int, tail: int, newChain: int, lru: seq<nat>, pending: seq<nat>)
    requires Lists(next, prev, head, tail, newChain, lru, pending) && newChain != NIL
    ensures |pending| > 0 && newChain == pending[0] && 0 <= newChain < |next| && pending[0] !in pending[1..]
      && pending[0] !in lru
    ensures Lists(next, prev, head, tail, next[newChain], lru, pending[1..])
  {
    LinkedRemove(next, newChain, pending, 0);
    RemoveAtElements(pending, 0);
    assert RemoveAt(pending, 0) == pending[1..];
    assert forall i :: 0 <= i < |lru| ==> lru[i] != pending[0];
  }

  lemma ListsPush(next: seq<int>, prev: seq<int>, head: int, tail: int, newChain: int, lru: seq<nat>,
      pending: seq<nat>, x: nat)
    requires Lists(next, prev, head, tail, newChain, lru, pending) && x < |next| && x !in lru && x !in pending
    ensures Lists(next[x := newChain], prev, head, tail, x, lru, [x] + pending)
  {
    assert forall i :: 0 <= i < |lru| ==> lru[i] != x;
    LinkedInsert(next, newChain, pending, 0, x);
    InsertAtElements(pending, 0, x);
    assert InsertAt(pending, 0, x) == [x] + pending;
    LinkedFrame(next, next[x := newChain], head, lru);
    forall i, j | 0 <= i < |lru| && 0 <= j < |pending| + 1 ensures lru[i] != ([x] + pending)[j] {}
  }

  // ---------- hash chains ----------

  /** Writes the link `*up` of chain `b`: the bucket itself when there is no record before. */
  function SetHash(link: seq<int>, up: int, v: int): seq<int>
    requires up == NIL || 0 <= up < |link|
  {
    if up == NIL then link else link[up := v]
  }

  function SetBucket(table: seq<int>, b: nat, up: int, v: int): seq<int>
    requires b < |table|
  {
    if up == NIL then table[b := v] else table
  }

  lemma ChainLinks(link: seq<int>, table: seq<int>, chains: seq<seq<nat>>, b: nat, i: nat)
    requires Table(link, table, chains) && b < |chains| && i <= |chains[b]|
    ensures b < |table| == |chains| && table[b] == Nth(chains[b], 0)
    ensures i < |chains[b]| ==> chains[b][i] < |link| && link[chains[b][i]] == Nth(chains[b], i + 1)
    ensures InBounds(Before(chains[b], i), |link|)
    ensures i > 0 ==> link[chains[b][i - 1]] == Nth(chains[b], i)
    ensures Distinct(chains[b])
  {
  }

  lemma TableFrame(link: seq<int>, link': seq<int>, table: seq<int>, table': seq<int>, chains: seq<seq<nat>>,
      b: nat, c: seq<nat>)
    requires Table(link, table, chains) && b < |chains| && |link'| == |link| && |table'| == |table|
    requires Linked(link', table'[b], c) && Distinct(c)
    requires forall a :: 0 <= a < |chains| && a != b ==> table'[a] == table[a] && Disjoint(chains[a], c)
    requires forall a, i :: 0 <= a < |chains| && a != b && 0 <= i < |chains[a]| && chains[a][i] < |link| ==>
      link'[chains[a][i]] == link[chains[a][i]]
    ensures Table(link', table', chains[b := c])
  {
    var chains' := chains[b := c];
    forall a | 0 <= a < |chains'| ensures Linked(link', table'[a], chains'[a]) && Distinct(chains'[a]) {
      if a != b { LinkedFrame(link, link', table[a], chains[a]); }
    }
  }

  lemma TableRemove(link: seq<int>, table: seq<int>, chains: seq<seq<nat>>, b: nat, i: nat)
    requires Table(link, table, chains) && b < |chains| && i < |chains[b]|
    ensures var c := chains[b]; var up := Before(c, i);
      && b < |table| && InBounds(up, |link|) && c[i] < |link|
      && Table(SetHash(link, up, link[c[i]]), SetBucket(table, b, up, link[c[i]]), chains[b := RemoveAt(c, i)])
  {
    var c := chains[b];
    var up := Before(c, i);
    ChainLinks(link, table, chains, b, i);
    LinkedRemove(link, table[b], c, i);
    RemoveAtElements(c, i);
    var c' := RemoveAt(c, i);
    var link' := SetHash(link, up, link[c[i]]);
    forall a | 0 <= a < |chains| && a != b ensures Disjoint(chains[a], c') {
      assert Disjoint(chains[a], c) || Disjoint(c, chains[a]);
      forall k, j | 0 <= k < |chains[a]| && 0 <= j < |c'| ensures chains[a][k] != c'[j] {
        assert c'[j] == c[if j < i then j else j + 1];
      }
    }
    OtherLinks(link, table, chains, b, up, link[c[i]]);
    TableFrame(link, link', table, SetBucket(table, b, up, link[c[i]]), chains, b, c');
  }

  /** Writing a link of one chain leaves the other chains' links alone. */
  lemma OtherLinks(link: seq<int>, table: seq<int>, chains: seq<seq<nat>>, b: nat, up: int, v: int)
    requires Table(link, table, chains) && b < |chains|
      && (up == NIL || (up >= 0 && (up as nat) in chains[b] && up < |link|))
    ensures forall a, k :: 0 <= a < |chains| && a != b && 0 <= k < |chains[a]| && chains[a][k] < |link| ==>
      SetHash(link, up, v)[chains[a][k]] == link[chains[a][k]]
  {
    forall a, k | 0 <= a < |chains| && a != b && 0 <= k < |chains[a]| ensures chains[a][k] != up {
      assert Disjoint(chains[a], chains[b]) || Disjoint(chains[b], chains[a]);
    }
  }

  lemma TableInsert(link: seq<int>, table: seq<int>, chains: seq<seq<nat>>, b: nat, p: nat, x: nat)
    requires Table(link, table, chains) && b < |chains| && p <= |chains[b]| && x < |link|
    requires forall a :: 0 <= a < |chains| ==> x !in chains[a]
    ensures var c := chains[b]; var up := Before(c, p);
      && b < |table| && InBounds(up, |link|)
      && Table(SetHash(link[x := Nth(c, p)], up, x), SetBucket(table, b, up, x), chains[b := InsertAt(c, p, x)])
  {
    var c := chains[b];
    var up := Before(c, p);
    ChainLinks(link, table, chains, b, p);
    LinkedInsert(link, table[b], c, p, x);
    InsertAtElements(c, p, x);
    var c' := InsertAt(c, p, x);
    var link1 := link[x := Nth(c, p)];
    forall a | 0 <= a < |chains| && a != b ensures Disjoint(chains[a], c') {
      assert Disjoint(chains[a], c) || Disjoint(c, chains[a]);
      forall k, j | 0 <= k < |chains[a]| && 0 <= j < |c'| ensures chains[a][k] != c'[j] {
        assert j == p || c'[j] == c[if j < p then j else j - 1];
        assert chains[a][k] in chains[a];
      }
    }
    OtherLinks(link, table, chains, b, up, x);
    forall a, k | 0 <= a < |chains| && a != b && 0 <= k < |chains[a]| && chains[a][k] < |link|
      ensures SetHash(link1, up, x)[chains[a][k]] == link[chains[a][k]]
    {
      assert chains[a][k] in chains[a];
    }
    TableFrame(link, SetHash(link1, up, x), table, SetBucket(table, b, up, x), chains, b, c');
  }

  // ---------- the list of answers ----------

  /** `first` and the links from it visit `hosts`; `last` is the last of them, NIL while there is none. */
  ghost predicate Chained(next: seq<int>, first: int, last: int, hosts: seq<nat>) {
    && last == Before(hosts, |hosts|)
    && (hosts != [] ==> first == hosts[0])
    && (forall i :: 0 <= i < |hosts| ==> hosts[i] < |next|)
    && (forall i :: 0 <= i < |hosts| - 1 ==> next[hosts[i]] == hosts[i + 1])
  }

  lemma ChainedFrame(next: seq<int>, next': seq<int>, first: int, last: int, hosts: seq<nat>)
    requires Chained(next, first, last, hosts) && |next'| == |next|
    requires forall i :: 0 <= i < |hosts| && hosts[i] < |next| ==> next'[hosts[i]] == next[hosts[i]]
    ensures Chained(next', first, last, hosts)
  {
  }

  lemma ChainedSnoc(next: seq<int>, first: int, last: int, hosts: seq<nat>, x: nat)
    requires Chained(next, first, last, hosts) && Distinct(hosts) && x !in hosts && x < |next|
    ensures InBounds(last, |next|) && (last != NIL ==> last in hosts)
    ensures if last == NIL then Chained(next, x, x, hosts + [x]) else Chained(next[last := x], first, x, hosts + [x])
  {
  }

  /** Linking the last answer from hosts to the head of the LRU list joins the two lists. */
  lemma ChainedJoin(next: seq<int>, first: int, last: int, hosts: seq<nat>, head: int, lru: seq<nat>)
    requires Chained(next, first, last, hosts) && Distinct(hosts) && Linked(next, head, lru) && Disjoint(hosts, lru)
    ensures InBounds(last, |next|) && (last != NIL ==> last in hosts)
    ensures if last == NIL then Linked(next, head, hosts + lru) else Linked(next[last := head], first, hosts + lru)
  {
    if hosts == [] {
      assert hosts + lru == lru;
    }
  }

  /** Writing the `next` field of a record that is in neither list. */
  lemma ListsFrame(next: seq<int>, next': seq<int>, prev: seq<int>, head: int, tail: int, newChain: int,
      lru: seq<nat>, pending: seq<nat>)
    requires Lists(next, prev, head, tail, newChain, lru, pending) && |next'| == |next|
    requires forall y :: 0 <= y < |next| && (y in lru || y in pending) ==> next'[y] == next[y]
    ensures Lists(next', prev, head, tail, newChain, lru, pending)
  {
    assert forall i :: 0 <= i < |lru| ==> lru[i] in lru;
    assert forall i :: 0 <= i < |pending| ==> pending[i] in pending;
    LinkedFrame(next, next', head, lru);
    LinkedFrame(next, next', newChain, pending);
  }

  lemma ListsLinked(next: seq<int>, prev: seq<int>, head: int, tail: int, newChain: int, lru: seq<nat>,
      pending: seq<nat>)
    requires Lists(next, prev, head, tail, newChain, lru, pending)
    ensures Linked(next, head, lru)
  {
  }
}
