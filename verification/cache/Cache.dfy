/** The cache itself: records in arrays of fields, threaded by index. */
module Cache {
  import opened Wrappers
  import opened Sequences
  import opened CacheState
  import opened CacheSteps
  import opened CacheLinks
  import opened CacheLookup
  import opened CacheReverse
  import opened CacheScan
  import opened CacheAlloc
  import opened CacheInsert
  import opened CacheBatch
  import opened CacheTable

  /** Where the search for a name stands: the record before and the next one of the chain, the place where matches are
      moved up to and its order class, and the ends of the list of answers from hosts. */
  datatype Walk = Walk(up: int, x: int, moving: bool, insert: int, cls: Flags, first: int, last: int)

  class DnsCache {
    const mix: string -> nat
    const size: nat

    // the fields of the records, by record number
    var attr: seq<Attr>
    var next: seq<int>
    var prev: seq<int>
    var hashNext: seq<int>

    var head: int
    var tail: int
    var table: seq<int>
    var newChain: int
    var insertError: bool
    var bigFree: nat
    var bigLeft: nat
    var uid: int

    ghost var lru: seq<nat>
    ghost var pending: seq<nat>
    ghost var chains: seq<seq<nat>>
    ghost var gen: seq<nat>
    ghost var linkGen: seq<nat>

    ghost function S(): State
      reads this`attr, this`lru, this`pending, this`chains, this`uid, this`bigFree, this`bigLeft, this`gen, this`linkGen
    {
      State(size, mix, attr, lru, pending, chains, uid, bigFree, bigLeft, gen, linkGen)
    }

    /** The links spell out the three kinds of list. */
    ghost predicate Repr()
      reads this`attr, this`next, this`prev, this`hashNext, this`head, this`tail, this`table, this`newChain
      reads this`lru, this`pending, this`chains, this`gen, this`linkGen
    {
      && |next| == |attr| && |hashNext| == |attr| && |gen| == |attr| && |linkGen| == |attr|
      && Lists(next, prev, head, tail, newChain, lru, pending)
      && Table(hashNext, table, chains)
    }

    ghost predicate Ok()
      reads this
    {
      Repr() && Valid(S())
    }

    // ---------- the elementary operations ----------

    method CacheUnlink(x: nat)
      requires Repr() && x in lru
      modifies this`next, this`prev, this`head, this`tail, this`lru
      ensures Repr() && lru == Without(old(lru), x)
      ensures forall y :: 0 <= y < |next| && y !in old(lru) ==> next[y] == old(next[y])
    {
      hide Lists, Table;
      ghost var k := IndexOf(lru, x);
      ListsUnlink(next, prev, head, tail, newChain, lru, pending, k);
      if prev[x] != NIL {
        next := next[prev[x] := next[x]];
      } else {
        head := next[x];
      }
      if next[x] != NIL {
        prev := prev[next[x] := prev[x]];
      } else {
        tail := prev[x];
      }
      lru := RemoveAt(lru, k);
    }

    method CacheLink(x: nat)
      requires Repr() && x < |attr| && x !in lru && x !in pending
      modifies this`next, this`prev, this`head, this`tail, this`lru
      ensures Repr() && lru == [x] + old(lru)
      ensures forall y :: 0 <= y < |next| && y != x ==> next[y] == old(next[y])
    {
      hide Lists, Table;
      ListsLink(next, prev, head, tail, newChain, lru, pending, x);
      if head != NIL {
        prev := prev[head := x];
      }
      next := next[x := head];
      prev := prev[x := NIL];
      head := x;
      if tail == NIL {
        tail := x;
      }
      lru := [x] + lru;
    }

    /** The list part of `cache_free`. */
    method AppendOldest(x: nat)
      requires Repr() && x < |attr| && x !in lru && x !in pending
      modifies this`next, this`prev, this`head, this`tail, this`lru
      ensures Repr() && lru == old(lru) + [x]
      ensures forall y :: 0 <= y < |next| && y != x && y !in old(lru) ==> next[y] == old(next[y])
    {
      hide Lists, Table;
      ListsAppend(next, prev, head, tail, newChain, lru, pending, x);
      if tail != NIL {
        next := next[tail := x];
      } else {
        head := x;
      }
      prev := prev[x := tail];
      next := next[x := NIL];
      tail := x;
      lru := lru + [x];
    }

    method CacheFree(x: nat)
      requires Repr() && x < |attr| && x !in lru && x !in pending
      modifies this`attr, this`next, this`prev, this`head, this`tail, this`uid, this`bigFree, this`lru, this`gen
      ensures Repr() && S() == Free(old(S()), x)
      ensures forall y :: 0 <= y < |next| && y != x && y !in old(lru) ==> next[y] == old(next[y])
    {
      hide Lists, Table;
      var big := BigName in attr[x].flags;
      attr := attr[x := FreedAttr(attr[x], uid)];
      uid := uid + 1;
      gen := gen[x := gen[x] + 1];
      AppendOldest(x);
      if big {
        bigFree := bigFree + 1;
      }
    }
  
    /** Takes record `i` of chain `b` out by the link of the record before it, `up`, or of the bucket. */
    method UnhashAt(b: nat, up: int, x: nat, ghost i: nat)
      requires Repr() && b < |chains| && i < |chains[b]| && chains[b][i] == x && up == Before(chains[b], i)
      modifies this`hashNext, this`table, this`chains
      ensures Repr() && S() == Unhash(old(S()), b, i) && hashNext[x] == old(hashNext[x])
      ensures hashNext[x] == Nth(chains[b], i)
    {
      hide Lists, Table;
      ChainLinks(hashNext, table, chains, b, i);
      TableRemove(hashNext, table, chains, b, i);
      assert Nth(RemoveAt(chains[b], i), i) == Nth(chains[b], i + 1);
      assert up == NIL || up != x;
      if up == NIL {
        table := table[b := hashNext[x]];
      } else {
        hashNext := hashNext[up := hashNext[x]];
      }
      chains := chains[b := RemoveAt(chains[b], i)];
    }

    /** Takes a dead or displaced record out of its chain; the cache's own records are freed as well. */
    method EvictAt(b: nat, up: int, x: nat, ghost i: nat)
      requires Ok() && b < |chains| && i < |chains[b]| && chains[b][i] == x && up == Before(chains[b], i)
      modifies this`hashNext, this`table, this`chains, this`attr, this`next, this`prev, this`head, this`tail,
               this`uid, this`bigFree, this`lru, this`gen
      ensures InRange(old(S())) && S() == Evict(old(S()), b, i) && Ok()
      ensures x < |hashNext| && hashNext[x] == Nth(chains[b], i)
      ensures forall y :: 0 <= y < |next| && y !in old(lru) ==> next[y] == old(next[y])
    {
      hide Lists, Table, Inv, BatchClosed;
      InvInRange(S());
      HashedRecord(S(), b, i);
      EvictKeepsInv(S(), b, i);
      NotInBatch(S(), x);
      InvDistinct(S());
      WithoutElements(lru, x);
      UnhashAt(b, up, x, i);
      if Hosts !in attr[x].flags && Dhcp !in attr[x].flags {
        CacheUnlink(x);
        CacheFree(x);
      }
    }

    // ---------- cache_scan_free ----------

    method ScanFreeName(name: string, now: int, flags: Flags) returns (ok: bool)
      requires Ok()
      modifies this`hashNext, this`table, this`chains, this`attr, this`next, this`prev, this`head, this`tail,
               this`uid, this`bigFree, this`lru, this`gen
      ensures Ok()
      ensures InRange(old(S())) && |old(chains)| > 0
      ensures (S(), ok) == ScanName(old(S()), Bucket(mix, name, |old(chains)|), 0, name, now, flags)
    {
      hide Lists, Table, Inv, BatchClosed, Live, Clashes, Evict;
      InvInRange(S());
      TableSize(hashNext, table, chains);
      var b := Bucket(mix, name, |table|);
      ChainLinks(hashNext, table, chains, b, 0);
      var up, x := NIL, table[b];
      ghost var i := 0;
      while x != NIL
        invariant Ok() && InRange(S()) && b < |chains| == |old(chains)| && i <= |chains[b]|
        invariant x == Nth(chains[b], i) && up == Before(chains[b], i)
        invariant ScanName(S(), b, i, name, now, flags) == ScanName(old(S()), b, 0, name, now, flags)
        decreases |chains[b]| - i
      {
        HashedRecord(S(), b, i);
        ChainLinks(hashNext, table, chains, b, i);
        if !Live(attr, x, now) {
          EvictAt(b, up, x, i);
        } else if Clashes(attr[x], name, flags) {
          if Hosts in attr[x].flags || Dhcp in attr[x].flags {
            return false;
          }
          EvictAt(b, up, x, i);
        } else {
          up, i := x, i + 1;
        }
        InvInRange(S());
        x := hashNext[x];
      }
      ok := true;
    }

    /** One chain of the whole-cache scan, up to the first immortal record that is no reverse one. */
    method ScanFreeChain(b: nat, addr: Addr, now: int, flags: Flags)
      requires Ok() && b < |chains|
      modifies this`hashNext, this`table, this`chains, this`attr, this`next, this`prev, this`head, this`tail,
               this`uid, this`bigFree, this`lru, this`gen
      ensures Ok() && InRange(old(S())) && InRange(S()) && |chains| == |old(chains)|
      ensures ScanAll(S(), b + 1, 0, addr, now, flags) == ScanAll(old(S()), b, 0, addr, now, flags)
    {
      hide Lists, Table, Inv, BatchClosed, Expired, AddrClashes, Evict;
      InvInRange(S());
      TableSize(hashNext, table, chains);
      ChainLinks(hashNext, table, chains, b, 0);
      var up, x := NIL, table[b];
      ghost var i := 0;
      ghost var n := |chains|;
      while x != NIL && (Reverse in attr[x].flags || Immortal !in attr[x].flags)
        invariant Ok() && InRange(S()) && b < |chains| == n && |table| == n && i <= |chains[b]|
        invariant x == Nth(chains[b], i) && up == Before(chains[b], i) && (x != NIL ==> 0 <= x < |attr|)
        invariant ScanAll(S(), b, i, addr, now, flags) == ScanAll(old(S()), b, 0, addr, now, flags)
        decreases |chains[b]| - i
      {
        HashedRecord(S(), b, i);
        ChainLinks(hashNext, table, chains, b, i);
        if Expired(attr[x], now) || AddrClashes(attr[x], addr, flags) {
          EvictAt(b, up, x, i);
        } else {
          up, i := x, i + 1;
        }
        InvInRange(S());
        TableSize(hashNext, table, chains);
        x := hashNext[x];
      }
    }

    method ScanFreeAll(addr: Addr, now: int, flags: Flags)
      requires Ok()
      modifies this`hashNext, this`table, this`chains, this`attr, this`next, this`prev, this`head, this`tail,
               this`uid, this`bigFree, this`lru, this`gen
      ensures Ok()
      ensures InRange(old(S()))
      ensures S() == ScanAll(old(S()), 0, 0, addr, now, flags)
    {
      hide Lists, Table, Inv, BatchClosed, Expired, AddrClashes, Evict;
      InvInRange(S());
      TableSize(hashNext, table, chains);
      var b := 0;
      while b < |table|
        invariant Ok() && InRange(S()) && |table| == |chains| && b <= |chains|
        invariant ScanAll(S(), b, 0, addr, now, flags) == ScanAll(old(S()), 0, 0, addr, now, flags)
        decreases |chains| - b
      {
        ScanFreeChain(b, addr, now, flags);
        TableSize(hashNext, table, chains);
        b := b + 1;
      }
    }

    method CacheScanFree(name: string, addr: Addr, now: int, flags: Flags) returns (ok: bool)
      requires Ok()
      modifies this`hashNext, this`table, this`chains, this`attr, this`next, this`prev, this`head, this`tail,
               this`uid, this`bigFree, this`lru, this`gen
      ensures Ok()
      ensures InRange(old(S())) && |old(chains)| > 0
      ensures (S(), ok) == ScanFree(old(S()), name, addr, now, flags)
    {
      hide Lists, Table, Inv, BatchClosed;
      TableSize(hashNext, table, chains);
      if Forward in flags {
        ok := ScanFreeName(name, now, flags);
      } else {
        ScanFreeAll(addr, now, flags);
        ok := true;
      }
    }

    // ---------- cache_find_by_name ----------

    method Rejuvenate(x: nat)
      requires Ok() && x in lru && x < |attr| && InUse(attr[x])
      modifies this`next, this`prev, this`head, this`tail, this`lru
      ensures Ok() && S() == Promote(old(S()), x)
      ensures forall y :: 0 <= y < |next| && y !in old(lru) ==> next[y] == old(next[y])
    {
      hide Lists, Table, Inv, BatchClosed;
      PromoteKeepsInv(S(), x);
      InvDistinct(S());
      WithoutElements(lru, x);
      NotInBatch(S(), x);
      CacheUnlink(x);
      CacheLink(x);
    }

    /** Moves record `i` of chain `b` up to position `ins`, by three changes of links. */
    method MoveUpAt(b: nat, up: int, x: nat, insert: int, ghost i: nat, ghost ins: nat)
      requires Repr() && InRange(S()) && b < |chains| && ins < i < |chains[b]| && chains[b][i] == x
      requires up == Before(chains[b], i) && insert == Before(chains[b], ins)
      modifies this`hashNext, this`table, this`chains
      ensures Repr() && S() == MoveUp(old(S()), b, i, ins)
    {
      hide Lists, Table;
      UnhashAt(b, up, x, i);
      assert insert == Before(chains[b], ins);
      ChainLinks(hashNext, table, chains, b, ins);
      RemovedNowhere(old(hashNext), old(table), old(chains), b, i);
      TableInsert(hashNext, table, chains, b, ins, x);
      if insert == NIL {
        hashNext := hashNext[x := table[b]];
        table := table[b := x];
      } else {
        hashNext := hashNext[x := hashNext[insert]];
        hashNext := hashNext[insert := x];
      }
      chains := chains[b := InsertAt(chains[b], ins, x)];
    }

    /** A match joins the list of answers, if it is a hosts or DHCP record, or becomes the youngest of the LRU list. */
    method NoteMatch(x: nat, first: int, last: int, ghost cur: Cursor) returns (first': int, last': int)
      requires Ok() && x < |attr| && cur.s == S() && InRange(S()) && InUse(attr[x])
      requires Chained(next, first, last, cur.hosts) && Distinct(cur.hosts) && x !in cur.hosts
      requires forall i :: 0 <= i < |cur.hosts| ==> cur.hosts[i] >= size
      requires (IsHost(attr[x]) <==> x >= size) && (x < size ==> x in lru)
      modifies this`next, this`prev, this`head, this`tail, this`lru
      ensures Ok() && S() == Note(cur, x).s
      ensures Chained(next, first', last', Note(cur, x).hosts)
    {
      hide Lists, Table, Inv, BatchClosed, Chained;
      InvIds(S());
      first', last' := first, last;
      if Hosts in attr[x].flags || Dhcp in attr[x].flags {
        ChainedSnoc(next, first, last, cur.hosts, x);
        if last == NIL {
          first' := x;
        } else {
          ListsFrame(next, next[last := x], prev, head, tail, newChain, lru, pending);
          next := next[last := x];
        }
        last' := x;
      } else {
        Rejuvenate(x);
        ChainedFrame(old(next), next, first, last, cur.hosts);
      }
    }

    /** All matches but the first move up the chain, to just before the first, unless that would break its order. */
    method RoundRobin(b: nat, up: int, x: nat, moving: bool, insert: int, cls: Flags, ghost was: Cursor,
        ghost cur: Cursor)
      returns (up': int, moving': bool, insert': int, cls': Flags)
      requires Repr() && InRange(S()) && b < |chains| && was.i < |chains[b]| && chains[b][was.i] == x && x < |attr|
      requires up == Before(chains[b], was.i) && was.ins < was.i && was.cls == cls
      requires moving <==> was.ins >= 0
      requires moving ==> insert == Before(chains[b], was.ins)
      requires cur.i == was.i + 1
      requires if was.ins < 0 then cur.ins == was.i && cur.cls == Class(attr[x].flags) && cur.s == S()
               else if Class(attr[x].flags) != was.cls then cur.ins == was.ins && cur.cls == was.cls && cur.s == S()
               else cur.ins == was.ins + 1 && cur.cls == was.cls && cur.s == MoveUp(S(), b, was.i, was.ins)
      modifies this`hashNext, this`table, this`chains
      ensures Repr() && S() == cur.s
      ensures cur.i <= |chains[b]| && up' == Before(chains[b], cur.i)
      ensures moving' && insert' == Before(chains[b], cur.ins) && cls' == cur.cls
    {
      hide Lists, Table, Class;
      up', moving', insert', cls' := x, moving, insert, cls;
      if moving && Class(attr[x].flags) == cls {
        MoveUpAt(b, up, x, insert, was.i, was.ins);
        up', insert' := up, x;
      } else if !moving {
        moving', insert', cls' := true, up, Class(attr[x].flags);
      }
    }

    /** `*chainp = cache_head`: the cached answers at the front of the LRU list follow those from hosts. */
    method JoinAnswers(first: int, last: int, ghost hosts: seq<nat>) returns (ans: int)
      requires Ok() && Chained(next, first, last, hosts) && Distinct(hosts)
      requires forall i :: 0 <= i < |hosts| ==> hosts[i] >= size
      modifies this`next
      ensures Ok() && Linked(next, ans, hosts + lru)
    {
      hide Lists, Table, Inv, BatchClosed, Chained, Linked;
      HostsApartFromLists(S(), hosts);
      ListsLinked(next, prev, head, tail, newChain, lru, pending);
      ChainedJoin(next, first, last, hosts, head, lru);
      if last == NIL {
        ans := head;
      } else {
        ListsFrame(next, next[last := head], prev, head, tail, newChain, lru, pending);
        next := next[last := head];
        ans := first;
      }
    }

    /** The local variables of the search stand for `cur`. */
    ghost predicate At(w: Walk, cur: Cursor, b: nat)
      reads this
    {
      && cur.s == S() && CursorOk(cur, b) && cur.cls == w.cls
      && w.x == Nth(chains[b], cur.i) && w.up == Before(chains[b], cur.i)
      && (w.moving <==> cur.ins >= 0)
      && (w.moving ==> w.insert == Before(chains[b], cur.ins))
      && Chained(next, w.first, w.last, cur.hosts)
    }

    /** One turn of the search, at record `k` of the chain as it was in `s0`. */
    method SearchTurn(w: Walk, b: nat, name: string, now: int, prot: Flags, ghost s0: State, ghost k: nat,
        ghost was: Cursor)
      returns (w': Walk)
      requires Ok() && At(w, was, b) && w.x != NIL
      requires Inv(s0) && s0.size == size && b < |s0.chains| && ChainInRange(s0, s0.chains[b]) && k < |s0.chains[b]|
      requires Progress(s0, b, k, was, name, now, prot)
      modifies this`hashNext, this`table, this`chains, this`attr, this`next, this`prev, this`head, this`tail,
               this`uid, this`bigFree, this`lru, this`gen
      ensures was.i < |was.s.chains[b]|
      ensures Progress(s0, b, k + 1, NameStep(was, b, name, now, prot), name, now, prot)
      ensures Ok() && At(w', NameStep(was, b, name, now, prot), b)
    {
      hide Lists, Table, Inv, BatchClosed, NameStep, Live, NameMatch, Chained, Progress, Evict, Note, InRange;
      HashedRecord(S(), b, was.i);
      ChainLinks(hashNext, table, chains, b, was.i);
      StepProgress(s0, b, k, was, name, now, prot);
      HostsStand(s0, b, k, was, name, now, prot);
      StepCases(was, b, name, now, prot);
      ghost var cur, links := NameStep(was, b, name, now, prot), next;
      ProgressValid(s0, b, k + 1, cur, name, now, prot);
      var x := w.x;
      var after := hashNext[x];
      w' := w.(x := after);
      if !Live(attr, x, now) {
        HostsOutsideLru(S(), was.hosts);
        EvictAt(b, w.up, x, was.i);
        ChainedFrame(links, next, w.first, w.last, was.hosts);
      } else if NameMatch(attr[x], name, prot) {
        var first, last := NoteMatch(x, w.first, w.last, was);
        var up, moving, insert, cls := RoundRobin(b, w.up, x, w.moving, w.insert, w.cls, was, cur);
        w' := Walk(up, after, moving, insert, cls, first, last);
      } else {
        w' := w'.(up := x);
      }
    }

    /** The first search for a name; returns the first record of the list of answers. */
    method SearchByName(name: string, now: int, prot: Flags) returns (ans: int)
      requires Ok()
      modifies this`hashNext, this`table, this`chains, this`attr, this`next, this`prev, this`head, this`tail,
               this`uid, this`bigFree, this`lru, this`gen
      ensures Ok()
      ensures InRange(old(S())) && |old(chains)| > 0
      ensures
        var r := SweepName(StartCursor(old(S())), Bucket(mix, name, |old(chains)|), name, now, prot);
        S() == r.s && Linked(next, ans, r.hosts + lru)
    {
      hide Lists, Table, Inv, BatchClosed, NameStep, SweepName, Chained, Progress, Linked;
      InvInRange(S());
      TableSize(hashNext, table, chains);
      ghost var s0 := S();
      var b := Bucket(mix, name, |table|);
      InRangeChains(s0);
      StartProgress(s0, b, name, now, prot);
      ChainLinks(hashNext, table, chains, b, 0);
      NothingChained(next);
      var w := Walk(NIL, table[b], false, NIL, {}, NIL, NIL);
      ghost var cur, k := StartCursor(s0), 0;
      while w.x != NIL
        invariant Ok() && At(w, cur, b)
        invariant k <= |s0.chains[b]| && |s0.chains[b]| - k == |chains[b]| - cur.i
        invariant Progress(s0, b, k, cur, name, now, prot)
        invariant SweepName(cur, b, name, now, prot) == SweepName(StartCursor(s0), b, name, now, prot)
        decreases |s0.chains[b]| - k
      {
        SweepUnfolds(cur, b, name, now, prot);
        w := SearchTurn(w, b, name, now, prot, s0, k, cur);
        cur, k := NameStep(cur, b, name, now, prot), k + 1;
      }
      SweepEnds(cur, b, name, now, prot);
      HostsApart(s0, b, k, cur, name, now, prot);
      ans := JoinAnswers(w.first, w.last, cur.hosts);
    }

    /** `cache_find_by_name`: with NIL starts a search, with the last answer goes on to the next. */
    method FindByName(crecp: int, name: string, now: int, prot: Flags) returns (r: int)
      requires Ok() && InBounds(crecp, |attr|)
      requires crecp != NIL ==> InBounds(next[crecp], |attr|)
      modifies this`hashNext, this`table, this`chains, this`attr, this`next, this`prev, this`head, this`tail,
               this`uid, this`bigFree, this`lru, this`gen
      ensures Ok() && InRange(old(S())) && |old(chains)| > 0
      ensures crecp == NIL ==>
        var w := SweepName(StartCursor(old(S())), Bucket(mix, name, |old(chains)|), name, now, prot);
        && S() == w.s
        && Linked(next, Nth(w.hosts + lru, 0), w.hosts + lru)
        && r == IfMatches(Nth(w.hosts + lru, 0), attr, name, prot)
      ensures crecp != NIL ==>
        S() == old(S()) && next == old(next) && r == IfMatches(next[crecp], attr, name, prot)
    {
      hide Lists, Table, Inv, BatchClosed, SweepName, NameMatch;
      var ans;
      if crecp != NIL {
        ans := next[crecp];
        InvInRange(S());
        TableSize(hashNext, table, chains);
      } else {
        ans := SearchByName(name, now, prot);
      }
      r := if ans != NIL && NameMatch(attr[ans], name, prot) then ans else NIL;
    }

    /** What callers do: start a search, then go from answer to answer until there is none. */
    method AllByName(name: string, now: int, prot: Flags) returns (answers: seq<nat>)
      requires Ok()
      modifies this`hashNext, this`table, this`chains, this`attr, this`next, this`prev, this`head, this`tail,
               this`uid, this`bigFree, this`lru, this`gen
      ensures Ok()
      ensures InRange(old(S())) && |old(chains)| > 0
      ensures
        var s := old(S());
        var c := s.chains[Bucket(mix, name, |s.chains|)];
        ChainInRange(s, c) && answers == AnswerList(s, Found(s, c, |c|, name, now, prot))
    {
      hide Lists, Table, Inv, BatchClosed, SweepName, NameMatch, Found, Linked, Bucket, AnswerList;
      ghost var s := S();
      SearchAnswers(s, name, now, prot);
      ghost var c := s.chains[Bucket(mix, name, |s.chains|)];
      ghost var w := SweepName(StartCursor(s), Bucket(mix, name, |s.chains|), name, now, prot);
      ghost var all := AnswerList(s, Found(s, c, |c|, name, now, prot));
      var x := FindByName(NIL, name, now, prot);
      ghost var q := w.hosts + lru;
      answers := [];
      while x != NIL
        invariant Ok() && S() == w.s && Linked(next, Nth(q, 0), q)
        invariant |answers| <= |all| && answers == all[..|answers|]
        invariant x == IfMatches(Nth(q, |answers|), attr, name, prot)
        decreases |all| - |answers|
      {
        NextAnswer(next, q, |answers|, attr);
        answers := answers + [x];
        x := FindByName(x, name, now, prot);
      }
    }

    // ---------- cache_find_by_addr ----------

    /** The local variables of the search by address stand for `cur`. */
    ghost predicate AtAddr(up: int, x: int, first: int, last: int, cur: Cursor, b: nat)
      reads this
    {
      && cur.s == S() && AddrOk(cur, b) && b < |chains|
      && x == Nth(chains[b], cur.i) && up == Before(chains[b], cur.i)
      && Chained(next, first, last, cur.hosts)
    }

    /** One turn of the inner loop, at record `k` of chain `b` as it was in `s0`. */
    method AddrTurn(up: int, x: int, first: int, last: int, b: nat, addr: Addr, now: int, prot: Flags,
                    ghost s0: State, ghost k: nat, ghost was: Cursor)
      returns (up': int, x': int, first': int, last': int)
      requires Ok() && AtAddr(up, x, first, last, was, b) && x != NIL && ChainLeft(was, b)
      requires Inv(s0) && s0.size == size && InRange(s0) && b < |s0.chains| && ChainInRange(s0, s0.chains[b])
        && k <= |s0.chains[b]|
      requires AddrProgress(s0, b, k, was, addr, now, prot)
      modifies this`hashNext, this`table, this`chains, this`attr, this`next, this`prev, this`head, this`tail,
               this`uid, this`bigFree, this`lru, this`gen
      ensures k < |s0.chains[b]|
      ensures AddrProgress(s0, b, k + 1, AddrStep(was, b, addr, now, prot), addr, now, prot)
      ensures Ok() && |chains| == |old(chains)| && AtAddr(up', x', first', last', AddrStep(was, b, addr, now, prot), b)
    {
      hide Lists, Table, Inv, BatchClosed, AddrStep, Expired, AddrMatch, Chained, AddrProgress, Evict, Note;
      AddrTurnFacts(s0, b, k, was, addr, now, prot);
      ChainLinks(hashNext, table, chains, b, was.i);
      AddrStepCases(was, b, addr, now, prot);
      ghost var links := next;
      first', last' := first, last;
      x' := hashNext[x];
      up' := up;
      if !Expired(attr[x], now) {
        if AddrMatch(attr[x], addr, prot) {
          first', last' := NoteMatch(x, first, last, was);
        }
        up' := x;
      } else {
        HostsOutsideLru(S(), was.hosts);
        EvictAt(b, up, x, was.i);
        ChainedFrame(links, next, first, last, was.hosts);
      }
    }

    method SearchByAddr(addr: Addr, now: int, prot: Flags) returns (ans: int)
      requires Ok()
      modifies this`hashNext, this`table, this`chains, this`attr, this`next, this`prev, this`head, this`tail,
               this`uid, this`bigFree, this`lru, this`gen
      ensures Ok()
      ensures InRange(old(S()))
      ensures
        var r := SweepAddr(StartCursor(old(S())), 0, addr, now, prot);
        S() == r.s && Linked(next, ans, r.hosts + lru)
    {
      hide Lists, Table, Inv, BatchClosed, AddrStep, SweepAddr, Chained, AddrProgress, Linked;
      InvInRange(S());
      TableSize(hashNext, table, chains);
      ghost var s0 := S();
      InRangeChains(s0);
      SearchStarts(s0, addr, now, prot);
      NothingChained(next);
      var first, last := NIL, NIL;
      ghost var cur := StartCursor(s0);
      var b := 0;
      while b < |table|
        invariant Ok() && InRange(S()) && |table| == |chains| == |s0.chains| && b <= |table|
        invariant cur.s == S() && cur.i == 0 && Chained(next, first, last, cur.hosts)
        invariant AddrProgress(s0, b, 0, cur, addr, now, prot)
        invariant SweepAddr(cur, b, addr, now, prot) == SweepAddr(StartCursor(s0), 0, addr, now, prot)
        decreases |s0.chains| - b
      {
        first, last, cur := SearchChain(b, first, last, addr, now, prot, s0, cur);
        b := b + 1;
      }
      AddrSweepUnfolds(cur, b, addr, now, prot);
      AddrHostsApart(s0, b, 0, cur, addr, now, prot);
      ans := JoinAnswers(first, last, cur.hosts);
    }

    /** The inner loop: the reverse records at the start of chain `b`. */
    method SearchChain(b: nat, first: int, last: int, addr: Addr, now: int, prot: Flags, ghost s0: State,
        ghost was: Cursor)
      returns (first': int, last': int, ghost cur: Cursor)
      requires Ok() && InRange(S()) && b < |chains| == |s0.chains| && |table| == |chains|
      requires was.s == S() && was.i == 0 && Chained(next, first, last, was.hosts)
      requires Inv(s0) && s0.size == size && InRange(s0) && ChainInRange(s0, s0.chains[b])
      requires AddrProgress(s0, b, 0, was, addr, now, prot)
      modifies this`hashNext, this`table, this`chains, this`attr, this`next, this`prev, this`head, this`tail,
               this`uid, this`bigFree, this`lru, this`gen
      ensures Ok() && InRange(S()) && |table| == |chains| == |old(chains)|
      ensures cur.s == S() && cur.i == 0 && Chained(next, first', last', cur.hosts)
      ensures AddrProgress(s0, b + 1, 0, cur, addr, now, prot)
      ensures SweepAddr(cur, b + 1, addr, now, prot) == SweepAddr(was, b, addr, now, prot)
    {
      hide Lists, Table, Inv, BatchClosed, AddrStep, SweepAddr, Chained, AddrProgress, Linked;
      InRangeChains(s0);
      ChainLinks(hashNext, table, chains, b, 0);
      var up, x := NIL, table[b];
      first', last' := first, last;
      cur := was;
      ghost var k := 0;
      while x != NIL && Reverse in attr[x].flags
        invariant Ok() && |chains| == |s0.chains| && AtAddr(up, x, first', last', cur, b) && InBounds(x, |attr|)
        invariant k <= |s0.chains[b]| && AddrProgress(s0, b, k, cur, addr, now, prot)
        invariant SweepAddr(cur, b, addr, now, prot) == SweepAddr(was, b, addr, now, prot)
        decreases |s0.chains[b]| - k
      {
        AddrSweepUnfolds(cur, b, addr, now, prot);
        up, x, first', last' := AddrTurn(up, x, first', last', b, addr, now, prot, s0, k, cur);
        cur, k := AddrStep(cur, b, addr, now, prot), k + 1;
      }
      AddrSweepUnfolds(cur, b, addr, now, prot);
      NextChain(s0, b, k, cur, addr, now, prot);
      TableSize(hashNext, table, chains);
      cur := cur.(i := 0);
    }

    /** `cache_find_by_addr`: with NIL starts a search, with the last answer goes on to the next. */
    method FindByAddr(crecp: int, addr: Addr, now: int, prot: Flags) returns (r: int)
      requires Ok() && InBounds(crecp, |attr|)
      requires crecp != NIL ==> InBounds(next[crecp], |attr|)
      modifies this`hashNext, this`table, this`chains, this`attr, this`next, this`prev, this`head, this`tail,
               this`uid, this`bigFree, this`lru, this`gen
      ensures Ok() && InRange(old(S()))
      ensures crecp == NIL ==>
        var w := SweepAddr(StartCursor(old(S())), 0, addr, now, prot);
        && S() == w.s
        && Linked(next, Nth(w.hosts + lru, 0), w.hosts + lru)
        && r == IfAddrMatches(Nth(w.hosts + lru, 0), attr, addr, prot)
      ensures crecp != NIL ==>
        S() == old(S()) && next == old(next) && r == IfAddrMatches(next[crecp], attr, addr, prot)
    {
      hide Lists, Table, Inv, BatchClosed, SweepAddr, AddrMatch;
      var ans;
      if crecp != NIL {
        ans := next[crecp];
        InvInRange(S());
      } else {
        ans := SearchByAddr(addr, now, prot);
      }
      r := if ans != NIL && AddrMatch(attr[ans], addr, prot) then ans else NIL;
    }

    /** What callers do: start a search, then go from answer to answer until there is none. */
    method AllByAddr(addr: Addr, now: int, prot: Flags) returns (answers: seq<nat>)
      requires Ok()
      modifies this`hashNext, this`table, this`chains, this`attr, this`next, this`prev, this`head, this`tail,
               this`uid, this`bigFree, this`lru, this`gen
      ensures Ok()
      ensures InRange(old(S()))
      ensures answers == AnswerList(old(S()), AllMatching(old(S()), |old(chains)|, addr, now, prot))
    {
      hide Lists, Table, Inv, BatchClosed, SweepAddr, AddrMatch, AllMatching, Linked, AnswerList;
      ghost var s := S();
      AddrAnswers(s, addr, now, prot);
      ghost var w := SweepAddr(StartCursor(s), 0, addr, now, prot);
      ghost var all := AnswerList(s, AllMatching(s, |s.chains|, addr, now, prot));
      var x := FindByAddr(NIL, addr, now, prot);
      ghost var q := w.hosts + lru;
      answers := [];
      while x != NIL
        invariant Ok() && S() == w.s && Linked(next, Nth(q, 0), q)
        invariant |answers| <= |all| && answers == all[..|answers|]
        invariant x == IfAddrMatches(Nth(q, |answers|), attr, addr, prot)
        decreases |all| - |answers|
      {
        NextAnswer(next, q, |answers|, attr);
        answers := answers + [x];
        x := FindByAddr(x, addr, now, prot);
      }
    }

    // ---------- insertion ----------

    /** Walks chain `b` past the reverse records, and for an immortal record past all but the immortal ones. */
    method HashPlace(b: nat, f: Flags) returns (up: int, p: int, ghost i: nat)
      requires Repr() && b < |chains| && forall k :: 0 <= k < |chains[b]| ==> chains[b][k] < |attr|
      ensures i == HashPos(attr, chains[b], f) && up == Before(chains[b], i) && p == Nth(chains[b], i)
    {
      hide Lists, Table;
      ghost var c := chains[b];
      ChainLinks(hashNext, table, chains, b, 0);
      up, p, i := NIL, table[b], 0;
      if Reverse !in f {
        while p != NIL && Reverse in attr[p].flags
          invariant i <= |c| && p == Nth(c, i) && up == Before(c, i)
          invariant SkipReverse(attr, c, i) == SkipReverse(attr, c, 0)
          decreases |c| - i
        {
          ChainLinks(hashNext, table, chains, b, i);
          up, p, i := p, hashNext[p], i + 1;
        }
        if Immortal in f {
          ghost var j := i;
          while p != NIL && Immortal !in attr[p].flags
            invariant j <= i <= |c| && p == Nth(c, i) && up == Before(c, i)
            invariant SkipMortal(attr, c, i) == SkipMortal(attr, c, j)
            decreases |c| - i
          {
            ChainLinks(hashNext, table, chains, b, i);
            up, p, i := p, hashNext[p], i + 1;
          }
        }
      }
    }

    /** `cache_hash`. */
    method CacheHash(x: nat)
      requires Repr() && InRange(S()) && x < |attr|
      requires forall a :: 0 <= a < |chains| ==> x !in chains[a]
      modifies this`hashNext, this`table, this`chains
      ensures Repr() && |old(chains)| > 0 && S() == HashIn(old(S()), x)
      ensures |hashNext| == |old(hashNext)|
      ensures forall y ::
        0 <= y < |hashNext| && y != x && (forall a :: 0 <= a < |old(chains)| ==> y !in old(chains)[a]) ==>
        hashNext[y] == old(hashNext[y])
    {
      hide Lists, Table, HashPos;
      TableSize(hashNext, table, chains);
      var b := Bucket(mix, attr[x].name, |table|);
      InRangeChain(S(), b);
      var up, p;
      ghost var i;
      up, p, i := HashPlace(b, attr[x].flags);
      TableInsert(hashNext, table, chains, b, i, x);
      hashNext := hashNext[x := p];
      if up == NIL {
        table := table[b := x];
      } else {
        hashNext := hashNext[up := x];
      }
      chains := chains[b := InsertAt(chains[b], i, x)];
    }

    /** Frees the first record of the batch. */
    method FreePending()
      requires Repr() && newChain != NIL && |gen| == |attr| && |pending| > 0 && pending[0] < |attr|
      modifies this`attr, this`next, this`prev, this`head, this`tail, this`uid, this`bigFree, this`lru, this`gen,
               this`pending, this`newChain
      ensures Repr() && newChain == Nth(pending, 0) && pending == old(pending)[1..]
      ensures S() == Free(old(S().(pending := pending[1..])), old(pending)[0])
    {
      hide Lists, Table, Linked, Free;
      ListsPop(next, prev, head, tail, newChain, lru, pending);
      var x := newChain;
      newChain := next[x];
      pending := pending[1..];
      CacheFree(x);
      PendingHead(next, prev, head, tail, newChain, lru, pending);
    }

    method StartInsertBatch()
      requires Repr() && Inv(S())
      modifies this`attr, this`next, this`prev, this`head, this`tail, this`uid, this`bigFree, this`lru, this`gen,
               this`pending, this`newChain, this`insertError
      ensures Ok() && !insertError
      ensures |old(gen)| == |old(attr)| && forall i :: 0 <= i < |old(pending)| ==> old(pending)[i] < |old(attr)|
      ensures S() == StartInsert(old(S()))
    {
      hide Lists, Table, Inv, Linked, StartInsert, Free, BatchClosed;
      ghost var s0 := S();
      InvPending(s0);
      PendingHead(next, prev, head, tail, newChain, lru, pending);
      while newChain != NIL
        invariant Repr() && Inv(S()) && newChain == Nth(pending, 0)
        invariant forall i :: 0 <= i < |pending| ==> pending[i] < |attr|
        invariant StartInsert(S()) == StartInsert(s0)
        decreases |pending|
      {
        FreePendingKeepsInv(S());
        StartUnfolds(S());
        FreePending();
        InvPending(S());
      }
      StartUnfolds(S());
      EmptyBatchValid(S());
      insertError := false;
    }

    /** The loop of `cache_insert` that ends with a free record at the tail of the LRU list, or fails. */
    method AllocateTail(now: int, reverse: bool) returns (x: int)
      requires Ok()
      modifies this`hashNext, this`table, this`chains, this`attr, this`next, this`prev, this`head, this`tail,
               this`uid, this`bigFree, this`lru, this`gen
      ensures Ok() && InRange(old(S())) && |old(chains)| > 0
      ensures var (s', out) := Allocate(old(S()), now, reverse, false);
        S() == s' && x == if out.Got? then out.record else NIL
    {
      hide Lists, Table, Inv, BatchClosed, ScanFree, ScanAll, Allocate;
      var freedAll, freeAvail := reverse, false;
      InvInRange(S());
      TableSize(hashNext, table, chains);
      while true
        invariant Ok() && InRange(S()) && |chains| > 0
        invariant Allocate(S(), now, freedAll, freeAvail) == Allocate(old(S()), now, reverse, false)
        decreases !freeAvail, !freedAll
      {
        AllocateUnfolds(S(), now, freedAll, freeAvail);
        TailOldest(next, prev, head, tail, newChain, lru, pending);
        x := tail;
        if x == NIL {
          return;
        }
        if Forward !in attr[x].flags && Reverse !in attr[x].flags {
          return;
        }
        if freeAvail {
          x := NIL;
          return;
        }
        if freedAll {
          freeAvail := true;
          var ok := CacheScanFree(attr[x].name, attr[x].addr, now, attr[x].flags);
        } else {
          ScanFreeAll(NO_ADDR, now, {});
          freedAll := true;
        }
        InvInRange(S());
        TableSize(hashNext, table, chains);
      }
    }

    /** Adds `x` at the head of the batch. */
    method PushBatch(x: nat)
      requires Repr() && x < |attr| && x !in lru && x !in pending
      modifies this`next, this`pending, this`newChain
      ensures Repr() && pending == [x] + old(pending)
    {
      hide Lists, Table;
      ListsPush(next, prev, head, tail, newChain, lru, pending, x);
      next := next[x := newChain];
      newChain := x;
      pending := [x] + pending;
    }

    /** The end of `cache_insert`: gets a block for a long name, takes `x` off the LRU list, fills it in and
        adds it to the batch. */
    method GrabTail(x: nat, name: string, addr: Option<Addr>, ttd: int, flags: Flags)
      requires Repr() && x in lru && x < |attr| && x !in pending && x !in Without(lru, x)
      requires Long(name) ==> bigFree > 0 || bigLeft > 0
      modifies this`attr, this`next, this`prev, this`head, this`tail, this`lru, this`bigFree, this`bigLeft,
               this`pending, this`newChain
      ensures Repr() && S() == Grab(old(S()), x, name, addr, ttd, flags)
    {
      hide Lists, Table, NewAttr, Without, Long;
      if Long(name) {
        if bigFree > 0 {
          bigFree := bigFree - 1;
        } else {
          bigLeft := bigLeft - 1;
        }
      }
      CacheUnlink(x);
      attr := attr[x := NewAttr(attr[x], name, addr, ttd, flags, Long(name))];
      PushBatch(x);
    }

    /** The part of `cache_insert` before a record is taken: NIL, or a free record at the tail of the LRU list. */
    method FindRoom(name: Option<string>, addr: Option<Addr>, now: int, ttl: nat, flags: Flags, memory: bool)
      returns (x: int)
      requires Ok() && InsertArgs(name, addr, flags)
      modifies this`hashNext, this`table, this`chains, this`attr, this`next, this`prev, this`head, this`tail,
               this`uid, this`bigFree, this`lru, this`gen
      ensures Ok() && InRange(old(S())) && |old(chains)| > 0
      ensures x == NIL ==> Insert(old(S()), false, name, addr, now, ttl, flags, memory) == (S(), true, NIL)
      ensures x != NIL ==>
        && (Long(NameOf(name)) ==> bigFree > 0 || bigLeft > 0)
        && 0 <= x < |attr| && x in lru && x !in pending && x !in Without(lru, x)
        && Insert(old(S()), false, name, addr, now, ttl, flags, memory) ==
             (Grab(S(), x, NameOf(name), addr, now + ttl, flags), false, x)
    {
      hide Lists, Table, Inv, BatchClosed, ScanFree, Allocate, Valid, Insert, Grab, Repr;
      InsertCases(S(), false, name, addr, now, ttl, flags, memory);
      var ok := CacheScanFree(NameOf(name), AddrOf(addr), now, flags);
      if !ok {
        return NIL;
      }
      x := AllocateTail(now, Reverse in flags);
      if x != NIL {
        OldestIsFree(S());
        if Long(NameOf(name)) && bigFree == 0 && (bigLeft == 0 || !memory) {
          x := NIL;
        }
      }
    }

    /** `cache_insert`. */
    method Put(name: Option<string>, addr: Option<Addr>, now: int, ttl: nat, flags: Flags, memory: bool)
      returns (r: int)
      requires Ok() && InsertArgs(name, addr, flags)
      modifies this`hashNext, this`table, this`chains, this`attr, this`next, this`prev, this`head, this`tail,
               this`uid, this`bigFree, this`lru, this`gen,
               this`bigLeft, this`pending, this`newChain, this`insertError
      ensures Ok() && InRange(old(S())) && |old(chains)| > 0
      ensures (S(), insertError, r) == Insert(old(S()), old(insertError), name, addr, now, ttl, flags, memory)
    {
      hide Lists, Table, Inv, BatchClosed, ScanFree, Allocate, Valid, Insert, Grab, Repr;
      InsertCases(S(), insertError, name, addr, now, ttl, flags, memory);
      if insertError {
        return NIL;
      }
      r := FindRoom(name, addr, now, ttl, flags, memory);
      if r == NIL {
        insertError := true;
      } else {
        GrabTail(r, NameOf(name), addr, now + ttl, flags);
      }
    }

    /** Joining the pending CNAME `c` to the record `t` that was inserted last, in its present incarnation. */
    method LinkTarget(c: nat, t: nat, ghost i: nat)
      requires Ok() && 0 < i < |pending| && pending[i] == c && pending[0] == t
      modifies this`attr, this`linkGen
      ensures Ok() && c < |old(attr)| && t < |old(attr)| && |old(gen)| == |old(attr)| == |old(linkGen)|
      ensures S() == LinkCname(old(S()), c, t)
    {
      hide Lists, Table, Inv, BatchClosed;
      LinkKeepsValid(S(), c, i);
      attr := attr[c := attr[c].(target := t, targetUid := attr[t].uid)];
      linkGen := linkGen[c := gen[t]];
    }

    /** `cache_end_insert`. */
    method EndInsertBatch()
      requires Ok()
      modifies this`attr, this`next, this`prev, this`head, this`tail, this`uid, this`bigFree, this`lru, this`gen,
               this`pending, this`newChain,
               this`hashNext, this`table, this`chains
      ensures Ok()
      ensures InRange(old(S())) && |old(chains)| > 0 && forall i :: 0 <= i < |old(pending)| ==>
        old(pending)[i] < |old(attr)|
      ensures S() == if insertError then old(S()) else EndInsert(old(S()))
    {
      hide Lists, Table, Sized, Partitioned, UsedFirst, Flagged, ChainsOk, AllHashed, LinksOk, Linked, EndInsert,
           CommitOne, BatchResolved, Outdated, BatchClosed;
      ghost var s0 := S();
      InvInRange(s0);
      InvPending(s0);
      if insertError {
        return;
      }
      ClosedResolves(s0);
      PendingHead(next, prev, head, tail, newChain, lru, pending);
      while newChain != NIL
        invariant Repr() && Inv(S()) && BatchResolved(S()) && newChain == Nth(pending, 0)
        invariant InRange(S()) && |chains| > 0 && forall i :: 0 <= i < |pending| ==> pending[i] < |attr|
        invariant EndInsert(S()) == EndInsert(s0)
        decreases |pending|
      {
        EndUnfolds(S());
        CommitFirst();
        InvInRange(S());
        InvPending(S());
        PendingHead(next, prev, head, tail, newChain, lru, pending);
      }
      EndUnfolds(S());
      EmptyBatchValid(S());
    }

    /** One turn of the committing loop. */
    method CommitFirst()
      requires Repr() && Inv(S()) && BatchResolved(S()) && newChain != NIL
      modifies this`attr, this`next, this`prev, this`head, this`tail, this`uid, this`bigFree, this`lru, this`gen,
               this`pending, this`newChain,
               this`hashNext, this`table, this`chains
      ensures InRange(old(S())) && |old(chains)| > 0 && |old(pending)| > 0 && old(pending)[0] < |old(attr)|
      ensures Repr() && S() == CommitOne(old(S())) && Inv(S()) && BatchResolved(S())
    {
      hide Lists, Table, Inv, Linked, BatchResolved, Outdated, Free, HashIn, Nth;
      InvInRange(S());
      InvPending(S());
      ListsPop(next, prev, head, tail, newChain, lru, pending);
      CommitKeepsInv(S());
      PendingNotHashed(S(), pending[0]);
      var x := newChain;
      newChain := next[x];
      pending := pending[1..];
      if Outdated(attr, x) {
        CacheFree(x);
      } else {
        CacheHash(x);
        CacheLink(x);
      }
    }

    /** Adds a record from hosts files or DHCP: newly allocated, hashed, never in the LRU list. */
    method AddHostRecord(a: Attr) returns (x: nat)
      requires Ok() && HostRecord(S(), a)
      modifies this`attr, this`next, this`prev, this`gen, this`linkGen, this`hashNext, this`table, this`chains
      ensures Ok() && InRange(old(S())) && |old(chains)| > 0
      ensures x == |old(attr)| && S() == AddHost(old(S()), a)
    {
      hide Lists, Table, Inv, Linked, HashIn, BatchClosed;
      ghost var s0 := S();
      InvInRange(s0);
      TableSize(hashNext, table, chains);
      AddHostKeepsValid(s0, a);
      NewRecordLinks(s0, next, prev, hashNext, head, tail, table, newChain);
      x := |attr|;
      attr := attr + [a];
      next := next + [NIL];
      prev := prev + [NIL];
      hashNext := hashNext + [NIL];
      gen := gen + [0];
      linkGen := linkGen + [0];
      NewHostInRange(s0, a);
      CacheHash(x);
    }

    // ---------- bulk operations ----------

    /** `rehash` of an existing table: moves every record to a table large enough for `wanted` names, unless the present
        one is no smaller or there is no memory. */
    method Enlarge(wanted: nat, memory: bool)
      requires Ok()
      modifies this`hashNext, this`table, this`chains
      ensures Ok() && ChainsInRange(old(attr), old(chains))
      ensures var n := SizeFor(64, wanted / 10);
        S() == if n <= |old(chains)| || !memory then old(S()) else Rehash(old(S()), n)
    {
      hide Lists, Table, Inv, BatchClosed, RehashFrom, HalfMoved, Linked, ChainsInRange, Moved, MoveTo;
      ghost var s0 := S();
      InvChains(s0);
      TableInRange(s0);
      TableSize(hashNext, table, chains);
      var n := 64;
      while n < wanted / 10
        invariant n > 0 && SizeFor(n, wanted / 10) == SizeFor(64, wanted / 10)
        decreases wanted - n
      {
        n := n * 2;
      }
      if n <= |table| || !memory {
        return;
      }
      RehashKeepsRecords(s0, n);
      var old_ := table;
      OldLinks(hashNext, table, chains);
      table := seq(n, _ => NIL);
      chains := seq(n, _ => []);
      EmptyTable(hashNext, n);
      NothingMoved(s0, n);
      var b := 0;
      while b < |old_|
        invariant Repr() && S() == s0.(chains := chains) && |old_| == |s0.chains| && b <= |old_|
        invariant HalfMoved(s0, b, 0, chains) && |chains| > 0 && ChainsInRange(s0.attr, chains)
        invariant RehashFrom(s0, b, 0, chains) == RehashFrom(s0, 0, 0, seq(n, _ => []))
        invariant forall a :: b <= a < |old_| ==> Linked(hashNext, old_[a], s0.chains[a])
        decreases |s0.chains| - b
      {
        MoveChain(b, old_, s0);
        b := b + 1;
      }
      RehashUnfolds(s0, b, 0, chains);
    }

    /** The inner loop of `rehash`: hashes the records of the old chain `b` into the new table. */
    method MoveChain(b: nat, old_: seq<int>, ghost s0: State)
      requires Repr() && Inv(s0) && S() == s0.(chains := chains) && |old_| == |s0.chains| && b < |old_|
      requires ChainsInRange(s0.attr, s0.chains)
      requires HalfMoved(s0, b, 0, chains) && |chains| > 0 && ChainsInRange(s0.attr, chains)
      requires forall a :: b <= a < |old_| ==> Linked(hashNext, old_[a], s0.chains[a])
      modifies this`hashNext, this`table, this`chains
      ensures Repr() && S() == s0.(chains := chains)
      ensures HalfMoved(s0, b + 1, 0, chains) && |chains| > 0 && ChainsInRange(s0.attr, chains)
      ensures RehashFrom(s0, b + 1, 0, chains) == RehashFrom(s0, b, 0, old(chains))
      ensures forall a :: b + 1 <= a < |old_| ==> Linked(hashNext, old_[a], s0.chains[a])
    {
      hide Lists, Table, Inv, BatchClosed, RehashFrom, HalfMoved, Linked, ChainsInRange, Moved, MoveTo, HashIn;
      var p := old_[b];
      ghost var i := 0;
      WholeChain(hashNext, p, s0.chains[b]);
      while p != NIL
        invariant Repr() && S() == s0.(chains := chains) && i <= |s0.chains[b]|
        invariant HalfMoved(s0, b, i, chains) && |chains| > 0 && ChainsInRange(s0.attr, chains)
        invariant RehashFrom(s0, b, i, chains) == RehashFrom(s0, b, 0, old(chains))
        invariant Linked(hashNext, p, s0.chains[b][i..])
        invariant forall a :: b < a < |old_| ==> Linked(hashNext, old_[a], s0.chains[a])
        decreases |s0.chains[b]| - i
      {
        RestOfChain(hashNext, p, s0.chains[b], i);
        var tmp := hashNext[p];
        MoveOne(s0, b, i, chains);
        RehashUnfolds(s0, b, i, chains);
        HalfMovedInRange(s0, b, i, chains);
        LaterNotMoved(s0, b, i, chains);
        LaterDiffer(s0, b, i);
        ghost var links, was := hashNext, chains;
        CacheHash(p);
        HashInMoves(s0, p, was, chains);
        LaterLinks(s0, b, i, links, hashNext, tmp, old_);
        HalfMovedInRange(s0, b, i + 1, chains);
        p, i := tmp, i + 1;
      }
      ChainDone(hashNext, p, s0.chains[b], i);
      NextMoved(s0, b, chains);
      RehashUnfolds(s0, b, i, chains);
    }

    /** The clearing loop of `cache_reload`. */
    method ClearTable()
      requires Ok()
      modifies this`hashNext, this`table, this`chains, this`attr, this`bigFree, this`gen
      ensures Ok() && InRange(old(S()))
      ensures S() == ClearFrom(old(S()), 0, 0)
    {
      hide Lists, Table, Inv, BatchClosed, ClearFrom, Linked, InRange;
      ghost var s0 := S();
      InvInRange(s0);
      ClearKeepsValid(s0);
      TableSize(hashNext, table, chains);
      var b := 0;
      while b < |table|
        invariant Repr() && InRange(S()) && |table| == |chains| == |s0.chains| && b <= |table|
        invariant ClearFrom(S(), b, 0) == ClearFrom(s0, 0, 0)
        decreases |s0.chains| - b
      {
        ClearChain(b);
        b := b + 1;
      }
      ClearUnfolds(S(), b, 0);
    }

    /** Clears the flags of a record; the block of a long name is returned. */
    method WipeAt(x: nat)
      requires Repr() && x < |attr|
      modifies this`attr, this`bigFree, this`gen
      ensures Repr() && S() == Wipe(old(S()), x)
    {
      hide Lists, Table;
      if BigName in attr[x].flags {
        bigFree := bigFree + 1;
      }
      attr := attr[x := Wiped(attr[x])];
      gen := gen[x := gen[x] + 1];
    }

    method ClearChain(b: nat)
      requires Repr() && InRange(S()) && b < |chains| == |table|
      modifies this`hashNext, this`table, this`chains, this`attr, this`bigFree, this`gen
      ensures Repr() && InRange(S()) && |table| == |chains| == |old(chains)|
      ensures ClearFrom(S(), b + 1, 0) == ClearFrom(old(S()), b, 0)
    {
      hide Lists, Table, ClearFrom, Linked, InRange;
      ChainLinks(hashNext, table, chains, b, 0);
      var up, x := NIL, table[b];
      ghost var i := 0;
      while x != NIL
        invariant Repr() && InRange(S()) && b < |chains| == |old(chains)| && i <= |chains[b]|
        invariant x == Nth(chains[b], i) && up == Before(chains[b], i)
        invariant ClearFrom(S(), b, i) == ClearFrom(old(S()), b, 0)
        decreases |chains[b]| - i
      {
        ChainLinks(hashNext, table, chains, b, i);
        InRangeChain(S(), b);
        ClearUnfolds(S(), b, i);
        ClearStepsInRange(S(), b, i);
        var tmp := hashNext[x];
        if Hosts in attr[x].flags {
          UnhashAt(b, up, x, i);
        } else if Dhcp !in attr[x].flags {
          UnhashAt(b, up, x, i);
          WipeAt(x);
        } else {
          up, i := x, i + 1;
        }
        x := tmp;
      }
      ClearUnfolds(S(), b, i);
      TableSize(hashNext, table, chains);
    }

    /** Room for `n` records, whatever their memory held, none of them linked yet. */
    constructor (n: nat, mix: string -> nat, raw: Attr)
      ensures Repr() && !insertError && S() == FreshState(n, mix, raw).(lru := [])
    {
      var init := FreshState(n, mix, raw);
      size, this.mix := n, mix;
      attr, uid, bigFree, bigLeft := init.attr, n, 0, n / 10;
      next, prev, hashNext := seq(n, _ => NIL), seq(n, _ => NIL), seq(n, _ => NIL);
      head, tail, newChain := NIL, NIL, NIL;
      table, chains := seq(SizeFor(64, n / 10), _ => NIL), init.chains;
      insertError := false;
      lru, pending, gen, linkGen := [], [], init.gen, init.linkGen;
      new;
      hide Lists, Table;
      EmptyTable(hashNext, |table|);
      NoLists(next, prev);
    }

    /** `cache_init`: links all records into the LRU list. */
    method Init(ghost raw: Attr)
      requires Repr() && S() == FreshState(size, mix, raw).(lru := [])
      modifies this`next, this`prev, this`head, this`tail, this`lru
      ensures Ok() && S() == FreshState(size, mix, raw)
    {
      hide Lists, Table, Valid, FreshState;
      FreshValid(size, mix, raw);
      FreshShape(size, mix, raw);
      var i := 0;
      while i < size
        invariant Repr() && i <= |attr| == size && |lru| == i && (forall k :: 0 <= k < i ==> lru[k] == i - 1 - k)
          && pending == []
        invariant S() == FreshState(size, mix, raw).(lru := lru)
      {
        CacheLink(i);
        i := i + 1;
      }
    }
  }

  function IfMatches(p: int, attr: seq<Attr>, name: string, prot: Flags): int {
    if 0 <= p < |attr| && NameMatch(attr[p], name, prot) then p else NIL
  }

  function IfAddrMatches(p: int, attr: seq<Attr>, addr: Addr, prot: Flags): int {
    if 0 <= p < |attr| && AddrMatch(attr[p], addr, prot) then p else NIL
  }

  /** The answers `f` in the order they are given: hosts and DHCP records as they stand in the chain, then the cached
      ones, last in the chain first. */
  ghost function AnswerList(s: State, f: seq<nat>): seq<nat> {
    HostsOf(s, f) + Reversed(CachedOf(s, f))
  }

  /** The list that a search leaves behind begins with the answers, all of which match, and the next record does not. */
  lemma AnswersLead(s: State, f: seq<nat>, w: Cursor, name: string, prot: Flags)
    requires Inv(w.s) && |w.s.attr| == |s.attr|
    requires var n := |CachedOf(s, f)|;
      && w.hosts == HostsOf(s, f)
      && n <= |w.s.lru| && w.s.lru[..n] == Reversed(CachedOf(s, f))
      && (forall y :: y in f ==> y < |s.attr| && w.s.attr[y] == s.attr[y] && NameMatch(s.attr[y], name, prot))
      && (n < |w.s.lru| ==> w.s.lru[n] < |s.attr| && !NameMatch(w.s.attr[w.s.lru[n]], name, prot))
    ensures var all, q := AnswerList(s, f), w.hosts + w.s.lru;
      && |all| <= |q| && all == q[..|all|]
      && (forall i :: 0 <= i < |all| ==> all[i] < |w.s.attr| && IfMatches(all[i], w.s.attr, name, prot) == all[i])
      && IfMatches(Nth(q, |all|), w.s.attr, name, prot) == NIL
      && (forall i :: 0 <= i < |q| ==> i < |all| || q[i] < |w.s.attr|)
  {
    hide NameMatch;
    HostElements(s, f);
    CachedElements(s, f);
    ReversedElements(CachedOf(s, f));
    InvLru(w.s);
    var all, q := AnswerList(s, f), w.hosts + w.s.lru;
    forall i | 0 <= i < |all| ensures all[i] in f {
      assert all[i] in HostsOf(s, f) || all[i] in Reversed(CachedOf(s, f));
    }
  }

  lemma SearchAnswers(s: State, name: string, now: int, prot: Flags)
    requires Valid(s)
    ensures InRange(s) && |s.chains| > 0
    ensures
      var b := Bucket(s.mix, name, |s.chains|);
      var c := s.chains[b];
      ChainInRange(s, c) &&
      var w := SweepName(StartCursor(s), b, name, now, prot);
      var all, q := AnswerList(s, Found(s, c, |c|, name, now, prot)), w.hosts + w.s.lru;
      && |all| <= |q| && all == q[..|all|]
      && (forall i :: 0 <= i < |all| ==> all[i] < |w.s.attr| && IfMatches(all[i], w.s.attr, name, prot) == all[i])
      && IfMatches(Nth(q, |all|), w.s.attr, name, prot) == NIL
      && (forall i :: 0 <= i < |q| ==> i < |all| || q[i] < |w.s.attr|)
  {
    hide Inv, BatchClosed, SweepName, NameMatch, Found, Bucket;
    LookupByNameExact(s, name, now, prot);
    var b := Bucket(s.mix, name, |s.chains|);
    var c := s.chains[b];
    AnswersLead(s, Found(s, c, |c|, name, now, prot), SweepName(StartCursor(s), b, name, now, prot), name, prot);
  }

  lemma AddrAnswers(s: State, addr: Addr, now: int, prot: Flags)
    requires Valid(s)
    ensures InRange(s)
    ensures
      var w := SweepAddr(StartCursor(s), 0, addr, now, prot);
      var all, q := AnswerList(s, AllMatching(s, |s.chains|, addr, now, prot)), w.hosts + w.s.lru;
      && |all| <= |q| && all == q[..|all|]
      && (forall i :: 0 <= i < |all| ==> all[i] < |w.s.attr| && IfAddrMatches(all[i], w.s.attr, addr, prot) == all[i])
      && IfAddrMatches(Nth(q, |all|), w.s.attr, addr, prot) == NIL
      && (forall i :: 0 <= i < |q| ==> i < |all| || q[i] < |w.s.attr|)
  {
    hide Inv, BatchClosed, SweepAddr, AddrMatch, AllMatching;
    LookupByAddrExact(s, addr, now, prot);
    var f := AllMatching(s, |s.chains|, addr, now, prot);
    var w := SweepAddr(StartCursor(s), 0, addr, now, prot);
    HostElements(s, f);
    CachedElements(s, f);
    ReversedElements(CachedOf(s, f));
    InvLru(w.s);
    var all, q := AnswerList(s, f), w.hosts + w.s.lru;
    forall i | 0 <= i < |all| ensures all[i] in f {
      assert all[i] in HostsOf(s, f) || all[i] in Reversed(CachedOf(s, f));
    }
  }

  lemma InRangeChain(s: State, b: nat)
    requires InRange(s) && b < |s.chains|
    ensures forall i :: 0 <= i < |s.chains[b]| ==> s.chains[b][i] < |s.attr|
  {
  }

  lemma StartUnfolds(s: State)
    requires |s.gen| == |s.attr| && forall i :: 0 <= i < |s.pending| ==> s.pending[i] < |s.attr|
    ensures StartInsert(s) ==
      if s.pending == [] then s else StartInsert(Free(s.(pending := s.pending[1..]), s.pending[0]))
  {
  }

  lemma PendingHead(next: seq<int>, prev: seq<int>, head: int, tail: int, newChain: int, lru: seq<nat>,
      pending: seq<nat>)
    requires Lists(next, prev, head, tail, newChain, lru, pending)
    ensures newChain == Nth(pending, 0)
  {
  }

  lemma AllocateUnfolds(s: State, now: int, freedAll: bool, freeAvail: bool)
    requires InRange(s) && |s.chains| > 0
    ensures Allocate(s, now, freedAll, freeAvail) ==
      if s.lru == [] then (s, Full)
      else
        var a := s.attr[Oldest(s)];
        if !InUse(a) then (s, Got(Oldest(s)))
        else if freeAvail then (s, Stuck)
        else if freedAll then Allocate(ScanFree(s, a.name, a.addr, now, a.flags).0, now, true, true)
        else Allocate(ScanAll(s, 0, 0, NO_ADDR, now, {}), now, true, false)
  {
  }

  /** What an insertion results in, case by case. */
  lemma InsertCases(s: State, error: bool, name: Option<string>, addr: Option<Addr>, now: int, ttl: nat,
      flags: Flags, memory: bool)
    requires Valid(s) && InsertArgs(name, addr, flags)
    ensures InRange(s) && |s.chains| > 0
    ensures
      var (s1, ok) := ScanFree(s, NameOf(name), AddrOf(addr), now, flags);
      var (s2, out) := Allocate(s1, now, Reverse in flags, false);
      var r := Insert(s, error, name, addr, now, ttl, flags, memory);
      && Valid(r.0)
      && (out.Got? ==> s2.lru != [] && out.record == s2.lru[|s2.lru| - 1])
      && if error then r == (s, true, NIL)
         else if !ok then r == (s1, true, NIL)
         else if !out.Got? then r == (s2, true, NIL)
         else if Long(NameOf(name)) && s2.bigFree == 0 && (s2.bigLeft == 0 || !memory) then r == (s2, true, NIL)
         else r == (Grab(s2, out.record, NameOf(name), addr, now + ttl, flags), false, out.record)
  {
    hide Valid, ScanFree, Allocate, Grab;
    InsertStages(s, name, addr, now, flags);
    InsertKeepsValid(s, name, addr, now, ttl, flags, memory);
    AllocateExact(ScanFree(s, NameOf(name), AddrOf(addr), now, flags).0, now, Reverse in flags);
  }

  lemma OldestIsFree(s: State)
    requires Valid(s) && s.lru != []
    ensures var x := s.lru[|s.lru| - 1]; x in s.lru && x < |s.attr| && x !in s.pending && x !in Without(s.lru, x)
  {
    WithoutElements(s.lru, s.lru[|s.lru| - 1]);
  }

  lemma TailOldest(next: seq<int>, prev: seq<int>, head: int, tail: int, newChain: int, lru: seq<nat>,
      pending: seq<nat>)
    requires Lists(next, prev, head, tail, newChain, lru, pending)
    ensures if lru == [] then tail == NIL else tail == lru[|lru| - 1]
  {
  }

  lemma ClosedResolves(s: State)
    requires Valid(s)
    ensures BatchResolved(s)
  {
  }

  lemma EndUnfolds(s: State)
    requires InRange(s) && |s.chains| > 0 && forall i :: 0 <= i < |s.pending| ==> s.pending[i] < |s.attr|
    ensures EndInsert(s) == if s.pending == [] then s else EndInsert(CommitOne(s))
  {
  }

  lemma PendingNotHashed(s: State, x: nat)
    requires Inv(s) && x in s.pending
    ensures forall a :: 0 <= a < |s.chains| ==> x !in s.chains[a]
    ensures x !in s.lru
  {
    forall a, i | 0 <= a < |s.chains| && 0 <= i < |s.chains[a]| ensures s.chains[a][i] != x {
      assert ChainOk(s, a, s.chains[a]) && MayHash(s, a, s.chains[a][i]);
    }
  }

  /** A new record, with all its links NIL, is in no list. */
  lemma NewRecordLinks(s: State, next: seq<int>, prev: seq<int>, hashNext: seq<int>, head: int, tail: int,
      table: seq<int>, newChain: int)
    requires Inv(s) && |next| == |s.attr| == |hashNext|
    requires Lists(next, prev, head, tail, newChain, s.lru, s.pending) && Table(hashNext, table, s.chains)
    ensures Lists(next + [NIL], prev + [NIL], head, tail, newChain, s.lru, s.pending)
    ensures Table(hashNext + [NIL], table, s.chains)
  {
    hide Inv;
    LinkedFrame(next, next + [NIL], head, s.lru);
    LinkedFrame(next, next + [NIL], newChain, s.pending);
    forall b | 0 <= b < |s.chains| ensures Linked(hashNext + [NIL], table[b], s.chains[b]) {
      LinkedFrame(hashNext, hashNext + [NIL], table[b], s.chains[b]);
    }
  }

  lemma NewHostInRange(s: State, a: Attr)
    requires InRange(s)
    ensures InRange(NewHost(s, a))
    ensures forall b :: 0 <= b < |s.chains| ==> |s.attr| !in s.chains[b]
  {
  }

  function SizeFor(n: nat, want: nat): (r: nat)
    requires n > 0
    ensures r >= n && r >= want
    ensures want <= n || r < 2 * want
    decreases want - n
  {
    if n < want then SizeFor(n * 2, want) else n
  }

  lemma OldLinks(link: seq<int>, table: seq<int>, chains: seq<seq<nat>>)
    requires Table(link, table, chains)
    ensures |table| == |chains| && forall b :: 0 <= b < |chains| ==> Linked(link, table[b], chains[b])
  {
  }

  lemma EmptyTable(link: seq<int>, n: nat)
    requires n > 0
    ensures Table(link, seq(n, _ => NIL), seq(n, _ => []))
  {
  }

  lemma NothingMoved(s: State, n: nat)
    requires Inv(s) && n > 0
    ensures HalfMoved(s, 0, 0, seq(n, _ => [])) && ChainsInRange(s.attr, seq(n, _ => []))
  {
  }

  lemma RehashUnfolds(s: State, b: nat, i: nat, t: seq<seq<nat>>)
    requires ChainsInRange(s.attr, s.chains) && ChainsInRange(s.attr, t) && |t| > 0
    requires b <= |s.chains| && (b < |s.chains| ==> i <= |s.chains[b]|)
    ensures RehashFrom(s, b, i, t) ==
      if b == |s.chains| then t
      else if i == |s.chains[b]| then RehashFrom(s, b + 1, 0, t)
      else RehashFrom(s, b, i + 1, MoveTo(s, s.chains[b][i], t))
  {
  }

  lemma WholeChain(link: seq<int>, p: int, c: seq<nat>)
    requires Linked(link, p, c)
    ensures Linked(link, p, c[0..])
  {
    assert c[0..] == c;
  }

  lemma RestOfChain(link: seq<int>, p: int, c: seq<nat>, i: nat)
    requires i <= |c| && Linked(link, p, c[i..]) && p != NIL
    ensures i < |c| && p == c[i] && c[i] < |link| && Linked(link, link[p], c[i + 1..])
  {
    assert c[i..][0] == c[i] && c[i + 1..] == c[i..][1..];
  }

  lemma ChainDone(link: seq<int>, p: int, c: seq<nat>, i: nat)
    requires i <= |c| && Linked(link, p, c[i..]) && p == NIL
    ensures i == |c|
  {
  }

  lemma HalfMovedInRange(s: State, b: nat, i: nat, t: seq<seq<nat>>)
    requires Inv(s) && b <= |s.chains| && (b < |s.chains| ==> i <= |s.chains[b]|) && HalfMoved(s, b, i, t)
    ensures |t| > 0 && ChainsInRange(s.attr, t) && InRange(s.(chains := t))
  {
    TableInRange(s.(chains := t));
  }

  /** No record still in an old chain is in the new table. */
  lemma LaterNotMoved(s: State, b: nat, i: nat, t: seq<seq<nat>>)
    requires Inv(s) && b < |s.chains| && i <= |s.chains[b]| && HalfMoved(s, b, i, t)
    ensures forall a, j :: b <= a < |s.chains| && 0 <= j < |s.chains[a]| && (a == b ==> i <= j) ==>
      forall h :: 0 <= h < |t| ==> s.chains[a][j] !in t[h]
  {
    hide ChainsOk;
    forall a, j | b <= a < |s.chains| && 0 <= j < |s.chains[a]| && (a == b ==> i <= j)
      ensures !Moved(s, b, i, s.chains[a][j])
    {
      HashedRecord(s, a, j);
      forall a', j' | 0 <= a' <= b && 0 <= j' < |s.chains[a']|
        && (a' == b ==> j' < i)
        ensures s.chains[a'][j'] != s.chains[a][j]
      {
        HashedRecord(s, a', j');
      }
    }
  }

  lemma LaterDiffer(s: State, b: nat, i: nat)
    requires Inv(s) && b < |s.chains| && i < |s.chains[b]|
    ensures forall a, j :: b <= a < |s.chains| && 0 <= j < |s.chains[a]| && (a == b ==> i < j) ==>
      s.chains[a][j] != s.chains[b][i]
  {
    HashedRecord(s, b, i);
    forall a, j | b <= a < |s.chains| && 0 <= j < |s.chains[a]|
      && (a == b ==> i < j)
      ensures s.chains[a][j] != s.chains[b][i]
    {
      HashedRecord(s, a, j);
    }
  }

  lemma HashInMoves(s: State, x: nat, t: seq<seq<nat>>, t': seq<seq<nat>>)
    requires InRange(s.(chains := t)) && |t| > 0 && x < |s.attr|
    requires s.(chains := t') == HashIn(s.(chains := t), x)
    ensures ChainsInRange(s.attr, t) && t' == MoveTo(s, x, t)
  {
  }

  lemma LaterLinks(s: State, b: nat, i: nat, link: seq<int>, link': seq<int>, tmp: int, old_: seq<int>)
    requires Inv(s) && b < |s.chains| == |old_| && i < |s.chains[b]| && |link'| == |link|
    requires Linked(link, tmp, s.chains[b][i + 1..])
    requires forall a :: b < a < |old_| ==> Linked(link, old_[a], s.chains[a])
    requires forall a, j ::
      b <= a < |s.chains| && 0 <= j < |s.chains[a]| && (a == b ==> i < j) && s.chains[a][j] < |link| ==>
      link'[s.chains[a][j]] == link[s.chains[a][j]]
    ensures Linked(link', tmp, s.chains[b][i + 1..])
    ensures forall a :: b < a < |old_| ==> Linked(link', old_[a], s.chains[a])
  {
    hide Inv;
    LinkedFrame(link, link', tmp, s.chains[b][i + 1..]);
    forall a | b < a < |old_| ensures Linked(link', old_[a], s.chains[a]) {
      LinkedFrame(link, link', old_[a], s.chains[a]);
    }
  }

  lemma ClearUnfolds(s: State, b: nat, i: nat)
    requires InRange(s) && b <= |s.chains| && (b < |s.chains| ==> i <= |s.chains[b]|)
    ensures b < |s.chains| && i < |s.chains[b]| ==> s.chains[b][i] < |s.attr| == |s.gen|
    ensures ClearFrom(s, b, i) ==
      if b == |s.chains| then s
      else if i == |s.chains[b]| then ClearFrom(s, b + 1, 0)
      else
        var x := s.chains[b][i];
        if Hosts in s.attr[x].flags then ClearFrom(Unhash(s, b, i), b, i)
        else if Dhcp !in s.attr[x].flags then ClearFrom(Wipe(Unhash(s, b, i), x), b, i)
        else ClearFrom(s, b, i + 1)
  {
  }

  lemma ClearStepsInRange(s: State, b: nat, i: nat)
    requires InRange(s) && b < |s.chains| && i < |s.chains[b]|
    ensures InRange(Unhash(s, b, i)) && s.chains[b][i] < |s.attr| == |s.gen|
    ensures InRange(Wipe(Unhash(s, b, i), s.chains[b][i]))
  {
  }

  lemma NoLists(next: seq<int>, prev: seq<int>)
    requires |prev| == |next|
    ensures Lists(next, prev, NIL, NIL, NIL, [], [])
  {
  }

  /** All records free, the last one first. */
  function FreshState(n: nat, mix: string -> nat, raw: Attr): State {
    State(n, mix, seq(n, i => raw.(flags := {}, uid := i)), seq(n, i => n - 1 - i), [],
          seq(SizeFor(64, n / 10), _ => []),
          n, 0, n / 10, seq(n, _ => 0), seq(n, _ => 0))
  }

  lemma FreshShape(n: nat, mix: string -> nat, raw: Attr)
    ensures var s := FreshState(n, mix, raw);
      && s.size == n && s.mix == mix && s.pending == []
      && |s.attr| == |s.gen| == |s.linkGen| == |s.lru| == n && s.chains == seq(SizeFor(64, n / 10), _ => [])
      && forall q: seq<nat> :: |q| == n && (forall k :: 0 <= k < n ==> q[k] == n - 1 - k) ==> q == s.lru
  {
  }

  /** The state after initialization is valid: every run starts in a valid state. */
  lemma FreshValid(n: nat, mix: string -> nat, raw: Attr)
    ensures Valid(FreshState(n, mix, raw))
  {
    var s := FreshState(n, mix, raw);
    forall x | 0 <= x < s.size ensures x in s.lru {
      assert s.lru[s.size - 1 - x] == x;
    }
  }

  lemma NextAnswer(next: seq<int>, q: seq<nat>, k: nat, attr: seq<Attr>)
    requires Linked(next, Nth(q, 0), q) && k < |q| && |next| == |attr|
    ensures q[k] < |next| && next[q[k]] == Nth(q, k + 1) && InBounds(next[q[k]], |attr|)
  {
  }

  lemma RemovedNowhere(link: seq<int>, table: seq<int>, chains: seq<seq<nat>>, b: nat, i: nat)
    requires Table(link, table, chains) && b < |chains| && i < |chains[b]|
    ensures var chains' := chains[b := RemoveAt(chains[b], i)];
      forall a :: 0 <= a < |chains'| ==> chains[b][i] !in chains'[a]
  {
    RemoveAtElements(chains[b], i);
    forall a | 0 <= a < |chains| && a != b ensures chains[b][i] !in chains[a] {
      assert Disjoint(chains[a], chains[b]) || Disjoint(chains[b], chains[a]);
    }
  }

  lemma TableSize(link: seq<int>, table: seq<int>, chains: seq<seq<nat>>)
    requires Table(link, table, chains)
    ensures |table| == |chains| > 0
  {
  }

  /** What one turn of the search does, case by case. */
  lemma StepCases(cur: Cursor, b: nat, name: string, now: int, prot: Flags)
    requires CursorOk(cur, b) && cur.i < |cur.s.chains[b]|
    ensures
      var x := cur.s.chains[b][cur.i];
      var f := cur.s.attr[x].flags;
      var r := NameStep(cur, b, name, now, prot);
      if !Live(cur.s.attr, x, now) then r == cur.(s := Evict(cur.s, b, cur.i))
      else if !NameMatch(cur.s.attr[x], name, prot) then r == cur.(i := cur.i + 1)
      else
        && r.i == cur.i + 1 && r.hosts == Note(cur, x).hosts && InRange(Note(cur, x).s)
           && Note(cur, x).s.chains == cur.s.chains
        && if cur.ins < 0 then r.ins == cur.i && r.cls == Class(f) && r.s == Note(cur, x).s
           else if Class(f) != cur.cls then r.ins == cur.ins && r.cls == cur.cls && r.s == Note(cur, x).s
           else r.ins == cur.ins + 1 && r.cls == cur.cls && r.s == MoveUp(Note(cur, x).s, b, cur.i, cur.ins)
  {
  }

  lemma SweepUnfolds(cur: Cursor, b: nat, name: string, now: int, prot: Flags)
    requires CursorOk(cur, b) && cur.i < |cur.s.chains[b]|
    ensures SweepName(cur, b, name, now, prot) == SweepName(NameStep(cur, b, name, now, prot), b, name, now, prot)
  {
  }

  lemma InvIds(s: State)
    requires Inv(s)
    ensures forall x :: x in s.lru || x in s.pending ==> x < s.size
  {
  }

  lemma HostsOutsideLru(s: State, hosts: seq<nat>)
    requires Inv(s) && forall i :: 0 <= i < |hosts| ==> hosts[i] >= s.size
    ensures forall i :: 0 <= i < |hosts| ==> hosts[i] !in s.lru
  {
  }

  lemma HostsApart(s0: State, b: nat, k: nat, cur: Cursor, name: string, now: int, prot: Flags)
    requires Inv(s0) && b < |s0.chains| && ChainInRange(s0, s0.chains[b]) && k <= |s0.chains[b]|
    requires Progress(s0, b, k, cur, name, now, prot)
    ensures Distinct(cur.hosts) && cur.s.size == s0.size
    ensures forall i :: 0 <= i < |cur.hosts| ==> cur.hosts[i] >= s0.size
    ensures forall i :: 0 <= i < |cur.hosts| ==> cur.hosts[i] in Found(s0, s0.chains[b], k, name, now, prot)
  {
    hide Dead, NameMatch, Valid, Found, Fronted, CachedOf, ChainInRange;
    assert ChainOk(s0, b, s0.chains[b]);
    FoundElements(s0, s0.chains[b], k, name, now, prot);
    HostElements(s0, Found(s0, s0.chains[b], k, name, now, prot));
    assert forall i :: 0 <= i < |cur.hosts| ==> cur.hosts[i] in cur.hosts;
  }

  lemma HostsStand(s0: State, b: nat, k: nat, cur: Cursor, name: string, now: int, prot: Flags)
    requires Inv(s0) && b < |s0.chains| && ChainInRange(s0, s0.chains[b]) && k < |s0.chains[b]|
    requires Progress(s0, b, k, cur, name, now, prot)
    ensures cur.i < |cur.s.chains[b]| && cur.s.chains[b][cur.i] == s0.chains[b][k]
    ensures Distinct(cur.hosts) && s0.chains[b][k] !in cur.hosts
    ensures forall i :: 0 <= i < |cur.hosts| ==> cur.hosts[i] >= s0.size
  {
    hide Dead, NameMatch, Valid, Found, Fronted, CachedOf, ChainInRange;
    ScannedHere(s0, b, k, now, cur.s, cur.i);
    HostIffForeign(s0, b, k);
    FoundStep(s0, s0.chains[b], k, name, now, prot);
    HostsApart(s0, b, k, cur, name, now, prot);
  }

  lemma ProgressValid(s0: State, b: nat, k: nat, cur: Cursor, name: string, now: int, prot: Flags)
    requires b < |s0.chains| && ChainInRange(s0, s0.chains[b]) && k <= |s0.chains[b]|
    requires Progress(s0, b, k, cur, name, now, prot)
    ensures Valid(cur.s) && InRange(cur.s) && |cur.s.chains| == |s0.chains|
  {
    hide Valid;
  }

  lemma SweepEnds(cur: Cursor, b: nat, name: string, now: int, prot: Flags)
    requires CursorOk(cur, b) && cur.i == |cur.s.chains[b]|
    ensures SweepName(cur, b, name, now, prot) == cur
  {
  }

  lemma HostsApartFromLists(s: State, hosts: seq<nat>)
    requires Inv(s) && forall i :: 0 <= i < |hosts| ==> hosts[i] >= s.size
    ensures Disjoint(hosts, s.lru) && forall y :: y in hosts ==> y !in s.lru && y !in s.pending
  {
  }

  lemma NothingChained(next: seq<int>)
    ensures forall first :: Chained(next, first, NIL, [])
  {
  }

  lemma NotInBatch(s: State, x: nat)
    requires Inv(s)
    ensures x in s.lru ==> x !in s.pending
  {
  }
}
