/** Whole runs of the cache: what holds in every reachable state. */
module CacheRuns {
  import opened Wrappers
  import opened Sequences
  import opened CacheState
  import opened CacheSteps
  import opened CacheLookup
  import opened CacheReverse
  import opened CacheScan
  import opened CacheAlloc
  import opened CacheInsert
  import opened CacheBatch
  import opened CacheTable

  /** The cache and its `insert_error` flag. */
  datatype Machine = Machine(s: State, error: bool)

  /** The calls other code makes; `Link` joins a CNAME of the batch, at position `at`, to the record inserted last. */
  datatype Event =
    | Start
    | Put(name: Option<string>, addr: Option<Addr>, now: int, ttl: nat, flags: Flags, memory: bool)
    | Link(at: nat)
    | End
    | FindName(key: string, time: int, prot: Flags)
    | FindAddr(target: Addr, time: int, prot: Flags)
    | Host(attr: Attr)
    | Grow(buckets: nat)
    | Reload

  /** What the calls demand of their callers. */
  ghost predicate Allowed(m: Machine, e: Event) {
    match e
    case Put(name, addr, _, _, flags, _) => InsertArgs(name, addr, flags)
    case Link(at) => 0 < at < |m.s.pending|
    case Host(a) => HostRecord(m.s, a)
    case Grow(n) => n > 0
    case _ => true
  }

  ghost function Step(m: Machine, e: Event): Machine
    requires Valid(m.s) && Allowed(m, e)
  {
    var s := m.s;
    InvInRange(s);
    InvPending(s);
    match e
    case Start => Machine(StartInsert(s), false)
    case Put(name, addr, now, ttl, flags, memory) =>
      var r := Insert(s, m.error, name, addr, now, ttl, flags, memory);
      Machine(r.0, r.1)
    case Link(at) => m.(s := LinkCname(s, s.pending[at], s.pending[0]))
    case End => if m.error then m else m.(s := EndInsert(s))
    case FindName(key, time, prot) =>
      m.(s := SweepName(StartCursor(s), Bucket(s.mix, key, |s.chains|), key, time, prot).s)
    case FindAddr(target, time, prot) => m.(s := SweepAddr(StartCursor(s), 0, target, time, prot).s)
    case Host(a) => m.(s := AddHost(s, a))
    case Grow(n) =>
      TableInRange(s);
      m.(s := Rehash(s, n))
    case Reload => m.(s := ClearFrom(s, 0, 0))
  }

  /** Every call keeps the joint invariant. */
  lemma StepKeepsValid(m: Machine, e: Event)
    requires Valid(m.s) && Allowed(m, e)
    ensures Valid(Step(m, e).s)
  {
    hide Valid, SweepName, SweepAddr, InRange, BatchClosed, BatchResolved;
    ValidInv(m.s);
    match e
    case Start => StartInsertFreesBatch(m.s);
    case Put(name, addr, now, ttl, flags, memory) =>
      if !m.error { InsertKeepsValid(m.s, name, addr, now, ttl, flags, memory); }
    case Link(at) => LinkKeepsValid(m.s, m.s.pending[at], at);
    case End =>
      ClosedIsResolved(m.s);
      EndInsertCommitsBatch(m.s);
    case FindName(key, time, prot) => LookupByNameExact(m.s, key, time, prot);
    case FindAddr(target, time, prot) => LookupByAddrExact(m.s, target, time, prot);
    case Host(a) => AddHostKeepsValid(m.s, a);
    case Grow(n) => RehashKeepsRecords(m.s, n);
    case Reload => ClearKeepsValid(m.s);
  }

  lemma ClosedIsResolved(s: State)
    requires Valid(s)
    ensures Inv(s) && BatchResolved(s)
  {
  }

  /** A run is a sequence of calls, each allowed when it is made. */
  ghost predicate Run(m: Machine, events: seq<Event>, m': Machine)
    requires Valid(m.s)
    decreases |events|
  {
    if events == [] then m' == m
    else
      Allowed(m, events[0]) &&
      (StepKeepsValid(m, events[0]); Run(Step(m, events[0]), events[1..], m'))
  }

  lemma {:induction false} RunKeepsValid(m: Machine, events: seq<Event>, m': Machine)
    requires Valid(m.s) && Run(m, events, m')
    ensures Valid(m'.s)
    decreases |events|
  {
    hide Valid, Step, Allowed;
    if events != [] {
      StepKeepsValid(m, events[0]);
      RunKeepsValid(Step(m, events[0]), events[1..], m');
    }
  }

  /** In every reachable state a cached CNAME that is not outdated points at a record that is in use, hashed, and
      still the incarnation the CNAME was linked to. */
  lemma LiveCnameHasItsTarget(m: Machine, events: seq<Event>, m': Machine, c: nat)
    requires Valid(m.s) && Run(m, events, m')
    requires c in m'.s.lru && c < |m'.s.attr| && InUse(m'.s.attr[c])
    requires Cname in m'.s.attr[c].flags && !Outdated(m'.s.attr, c)
    ensures
      var s := m'.s;
      var t := s.attr[c].target;
      && 0 <= t < s.size <= |s.gen| && c < |s.linkGen| && |s.gen| == |s.attr|
      && InUse(s.attr[t]) && t in s.lru && Hashed(s, t)
      && s.linkGen[c] == s.gen[t]
  {
    RunKeepsValid(m, events, m');
    var s := m'.s;
    var t := s.attr[c].target;
    assert LinkOk(s, c);
    assert t in s.chains[Bucket(s.mix, s.attr[t].name, |s.chains|)];
  }

  /** Freeing a record makes every cached CNAME that points at it outdated, whatever it is used for afterwards. */
  lemma FreeingInvalidates(s: State, t: nat, c: nat)
    requires Inv(s) && t in s.lru && t < s.size && c < s.size && c != t && InUse(s.attr[c])
    requires Cname in s.attr[c].flags && s.attr[c].target == t
    ensures Outdated(Free(Unlink(s, t), t).attr, c)
    ensures forall a: Attr :: a.uid == s.uid ==> Outdated(Free(Unlink(s, t), t).attr[t := a], c)
  {
    assert LinkOk(s, c);
  }

  /** No record of the batch is in a chain or the LRU list, so no lookup can return it. */
  lemma BatchIsInvisible(m: Machine, events: seq<Event>, m': Machine, x: nat)
    requires Valid(m.s) && Run(m, events, m')
    requires x in m'.s.pending
    ensures !Hashed(m'.s, x) && x !in m'.s.lru
  {
    RunKeepsValid(m, events, m');
    var s := m'.s;
    forall b, i | 0 <= b < |s.chains| && 0 <= i < |s.chains[b]| ensures s.chains[b][i] != x {
      assert ChainOk(s, b, s.chains[b]) && MayHash(s, b, s.chains[b][i]);
    }
  }

  /** Once an insertion has failed, whatever follows before the next start, no record of the batch ever
      becomes visible. */
  lemma {:induction false} FailedBatchStaysHidden(m: Machine, events: seq<Event>, m': Machine, x: nat)
    requires Valid(m.s) && m.error && x in m.s.pending && Run(m, events, m')
    requires Start !in events
    ensures m'.error && x in m'.s.pending && Valid(m'.s) && !Hashed(m'.s, x) && x !in m'.s.lru
    decreases |events|
  {
    hide Valid, Step, Allowed, Hashed;
    if events == [] {
      BatchIsInvisible(m, events, m', x);
    } else {
      assert events[0] in events;
      StepKeepsValid(m, events[0]);
      FailedStepKeepsBatch(m, events[0]);
      FailedBatchStaysHidden(Step(m, events[0]), events[1..], m', x);
    }
  }

  lemma {:induction false} NameSweepKeepsBatch(cur: Cursor, b: nat, name: string, now: int, prot: Flags)
    requires CursorOk(cur, b)
    ensures SweepName(cur, b, name, now, prot).s.pending == cur.s.pending
    decreases |cur.s.chains[b]| - cur.i
  {
    hide Live, NameMatch, InRange;
    if cur.i < |cur.s.chains[b]| {
      NameSweepKeepsBatch(NameStep(cur, b, name, now, prot), b, name, now, prot);
    }
  }

  lemma {:induction false} AddrSweepKeepsBatch(cur: Cursor, b: nat, addr: Addr, now: int, prot: Flags)
    requires AddrOk(cur, b)
    ensures SweepAddr(cur, b, addr, now, prot).s.pending == cur.s.pending
    decreases |cur.s.chains| - b, if b < |cur.s.chains| then |cur.s.chains[b]| - cur.i else 0
  {
    hide Expired, AddrMatch;
    if b < |cur.s.chains| {
      if ChainLeft(cur, b) {
        AddrSweepKeepsBatch(AddrStep(cur, b, addr, now, prot), b, addr, now, prot);
      } else {
        AddrSweepKeepsBatch(cur.(i := 0), b + 1, addr, now, prot);
      }
    }
  }

  lemma FailedStepKeepsBatch(m: Machine, e: Event)
    requires Valid(m.s) && m.error && Allowed(m, e) && e != Start
    ensures Step(m, e).error && Step(m, e).s.pending == m.s.pending
  {
    hide Valid, SweepName, SweepAddr, BatchClosed;
    ValidInv(m.s);
    InvInRange(m.s);
    InvPending(m.s);
    match e
    case FindName(key, time, prot) =>
      NameSweepKeepsBatch(StartCursor(m.s), Bucket(m.s.mix, key, |m.s.chains|), key, time, prot);
    case FindAddr(target, time, prot) => AddrSweepKeepsBatch(StartCursor(m.s), 0, target, time, prot);
    case Reload => ClearKeepsValid(m.s);
    case _ =>
  }
}
