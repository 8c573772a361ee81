/** Choosing an address for a client: what is decided, as functions (dhcp.c, dhcp6.c). */
module Allocation {
  import opened Wrappers
  import opened Ring

  const WORD32: nat := 0x1_0000_0000
  const WORD64: nat := 0x1_0000_0000_0000_0000
  const PING_CACHE_TIME: int := 30
  /** Six tenths of PING_CACHE_TIME / PING_WAIT. */
  const MAXPINGS: nat := 6

  // ----- tags -----

  /** match_netid: every wanted tag is there, and no unwanted one; without any wanted tag only
      if none is needed. */
  predicate MatchNetid(check: seq<string>, pool: seq<string>, notNeeded: bool) {
    (check != [] || notNeeded) && forall i :: 0 <= i < |check| ==> MatchTag(check[i], pool)
  }

  predicate MatchTag(tag: string, pool: seq<string>) {
    if tag == "" then tag in pool
    else if tag[0] == '!' || tag[0] == '#' then tag[1..] !in pool
    else tag in pool
  }

  // ----- contexts -----

  /** A range of addresses on the client's link, the server's own address there, whether
      addresses are given out from it at all, and its tags. */
  datatype Context = Context(range: Range, own: nat, closed: bool, filter: seq<string>)

  predicate Usable(cs: seq<Context>, word: nat) {
    forall i :: 0 <= i < |cs| ==> Proper(cs[i].range) && cs[i].range.word == word
  }

  /** Pass 0 takes contexts with tags only. */
  predicate Eligible(c: Context, netids: seq<string>, pass: nat) {
    !c.closed && MatchNetid(c.filter, netids, pass == 1)
  }

  lemma TaggedFirst(c: Context, netids: seq<string>)
    ensures Eligible(c, netids, 0) <==> Eligible(c, netids, 1) && c.filter != []
  {
  }

  // ----- hashing -----

  /** The SDBM hash of the client's identity. */
  function Sdbm(id: seq<nat>, word: nat): (j: nat)
    requires word > 0
    ensures j < word
  {
    if id == [] then 0
    else
      var j := Sdbm(id[..|id| - 1], word);
      (id[|id| - 1] + j * 64 + j * 65536) % word
  }

  // ----- pings -----

  datatype Ping = Ping(addr: nat, time: int, hash: nat)

  /** What is known besides: leases, addresses of configured hosts, who answers a ping now, and
      the options. */
  datatype Env = Env(
    leased: seq<nat>, configured: set<nat>, answers: nat -> bool,
    consecutive: bool, noPing: bool, now: int)

  predicate Fresh(p: Ping, now: int) {
    now - p.time <= PING_CACHE_TIME
  }

  /** How the records of pings bear on an address: the first fresh one of it, the number of
      fresh ones, and the last old one. */
  datatype PingView = PingView(hit: Option<Ping>, count: nat, victim: Option<nat>)

  function ViewFrom(ps: seq<Ping>, i: nat, now: int, a: nat, count: nat, victim: Option<nat>): (v: PingView)
    requires i <= |ps| && (victim.Some? ==> victim.value < i)
    ensures v.victim.Some? ==> v.victim.value < |ps|
    decreases |ps| - i
  {
    if i == |ps| then PingView(None, count, victim)
    else if !Fresh(ps[i], now) then ViewFrom(ps, i + 1, now, a, count, Some(i))
    else if ps[i].addr == a then PingView(Some(ps[i]), count + 1, victim)
    else ViewFrom(ps, i + 1, now, a, count + 1, victim)
  }

  /** The address is recorded as good, over an old record if there is one. */
  function Noted(ps: seq<Ping>, v: PingView, a: nat, now: int, hash: nat): seq<Ping>
    requires v.victim.Some? ==> v.victim.value < |ps|
  {
    if v.hit.Some? then ps
    else match v.victim
      case Some(i) => ps[i := Ping(a, now, hash)]
      case None => [Ping(a, now, hash)] + ps
  }

  // ----- judging an address -----

  predicate OwnAddress(cs: seq<Context>, a: nat) {
    exists i :: 0 <= i < |cs| && cs[i].own == a
  }

  /** Class C addresses that end in 0 or 255. */
  predicate Broken(a: nat) {
    a / 0x2000_0000 == 6 && (a % 256 == 255 || a % 256 == 0)
  }

  /** Never given out: the server's own, leased, reserved or broken. */
  predicate Reserved(env: Env, cs: seq<Context>, a: nat) {
    OwnAddress(cs, a) || a in env.leased || a in env.configured || Broken(a)
  }

  function Judge(env: Env, cs: seq<Context>, ps: seq<Ping>, hash: nat, a: nat): Verdict {
    if Reserved(env, cs, a) then Blocked else
    var v := ViewFrom(ps, 0, env.now, a, 0, None);
    match v.hit
    case Some(p) => if env.consecutive && p.hash != hash then Blocked else Free
    case None => if v.count < MAXPINGS && !env.noPing && env.answers(a) then Busy else Free
  }

  function Judging(env: Env, cs: seq<Context>, ps: seq<Ping>, hash: nat): nat -> Verdict {
    (a: nat) => Judge(env, cs, ps, hash, a)
  }

  // ----- the search over contexts -----

  /** lease_find_max_addr: the largest lease in the range, or its first address. */
  function MaxLease(r: Range, leased: seq<nat>): (a: nat)
    requires Proper(r)
    ensures Inside(r, a)
  {
    if leased == [] then r.first
    else
      var a, last := MaxLease(r, leased[..|leased| - 1]), leased[|leased| - 1];
      if r.first < last <= r.last && last > a then last else a
  }

  function StartOf(env: Env, r: Range, hash: nat, epoch: nat): (a: nat)
    requires Proper(r)
    ensures Inside(r, a)
  {
    if env.consecutive then MaxLease(r, env.leased) else Start(r, (hash + epoch) % WORD32)
  }

  /** Result of the search: the address with the pass and context it comes from, and the
      epochs, which every busy address perturbs. */
  datatype Found = Found(addr: Option<nat>, pass: nat, context: nat, epochs: seq<nat>)

  function EpochAfter(env: Env, epoch: nat, busy: nat): nat {
    if env.consecutive || busy == 0 then epoch else (epoch + busy) % WORD32
  }

  function FindFrom(env: Env, cs: seq<Context>, netids: seq<string>, hash: nat, ps: seq<Ping>,
                    epochs: seq<nat>, pass: nat, i: nat): (f: Found)
    requires Usable(cs, WORD32) && |epochs| == |cs| && i <= |cs| && pass <= 2
    ensures |f.epochs| == |cs| && (f.addr.Some? ==> f.context < |cs| && f.pass < 2)
    decreases 2 - pass, |cs| - i
  {
    if pass == 2 then Found(None, 2, 0, epochs)
    else if i == |cs| then FindFrom(env, cs, netids, hash, ps, epochs, pass + 1, 0)
    else if !Eligible(cs[i], netids, pass) then FindFrom(env, cs, netids, hash, ps, epochs, pass, i + 1)
    else
      var r := cs[i].range;
      var s := SearchFrom(r, StartOf(env, r, hash, epochs[i]), 0, Judging(env, cs, ps, hash));
      var now := epochs[i := EpochAfter(env, epochs[i], s.busy)];
      if s.found.Some? then Found(s.found, pass, i, now)
      else FindFrom(env, cs, netids, hash, ps, now, pass, i + 1)
  }

  /** No address of the context can be given out. */
  ghost predicate Exhausted(env: Env, cs: seq<Context>, ps: seq<Ping>, hash: nat, c: Context) {
    forall a: nat :: Inside(c.range, a) ==> Judge(env, cs, ps, hash, a) != Free
  }

  /** The contexts of earlier passes, and before i of this one, that were searched. */
  predicate SearchedBefore(c: Context, k: nat, netids: seq<string>, pass: nat, i: nat) {
    (pass > 0 && Eligible(c, netids, 0)) || (pass > 1 && Eligible(c, netids, 1))
    || (pass < 2 && k < i && Eligible(c, netids, pass))
  }

  lemma {:induction false} FindIs(env: Env, cs: seq<Context>, netids: seq<string>, hash: nat, ps: seq<Ping>,
                                  epochs: seq<nat>, pass: nat, i: nat)
    requires Usable(cs, WORD32) && |epochs| == |cs| && i <= |cs| && pass <= 2
    requires forall k :: 0 <= k < |cs| && SearchedBefore(cs[k], k, netids, pass, i) ==>
      Exhausted(env, cs, ps, hash, cs[k])
    ensures var f := FindFrom(env, cs, netids, hash, ps, epochs, pass, i);
      && (f.addr.Some? ==>
            && Inside(cs[f.context].range, f.addr.value) && Eligible(cs[f.context], netids, f.pass)
            && Judge(env, cs, ps, hash, f.addr.value) == Free
            && forall k :: 0 <= k < |cs| && SearchedBefore(cs[k], k, netids, f.pass, f.context) ==>
                 Exhausted(env, cs, ps, hash, cs[k]))
      && (f.addr.None? ==>
            forall k :: 0 <= k < |cs| && Eligible(cs[k], netids, 1) ==> Exhausted(env, cs, ps, hash, cs[k]))
    decreases 2 - pass, |cs| - i
  {
    hide SearchFrom, Judge, Exhausted, Eligible, StartOf, EpochAfter;
    if pass == 2 {
    } else if i == |cs| {
      FindIs(env, cs, netids, hash, ps, epochs, pass + 1, 0);
    } else if !Eligible(cs[i], netids, pass) {
      FindIs(env, cs, netids, hash, ps, epochs, pass, i + 1);
    } else {
      var r := cs[i].range;
      var s := SearchFrom(r, StartOf(env, r, hash, epochs[i]), 0, Judging(env, cs, ps, hash));
      RangeSearched(env, cs, ps, hash, cs[i], StartOf(env, r, hash, epochs[i]));
      if s.found.None? {
        FindIs(env, cs, netids, hash, ps, epochs[i := EpochAfter(env, epochs[i], s.busy)], pass, i + 1);
      }
    }
  }

  lemma RangeSearched(env: Env, cs: seq<Context>, ps: seq<Ping>, hash: nat, c: Context, start: nat)
    requires Proper(c.range) && Inside(c.range, start)
    ensures var s := SearchFrom(c.range, start, 0, Judging(env, cs, ps, hash));
      && (s.found.Some? ==> Inside(c.range, s.found.value) && Judge(env, cs, ps, hash, s.found.value) == Free)
      && (s.found.None? <==> Exhausted(env, cs, ps, hash, c))
  {
    hide Judge, SearchFrom;
    SearchComplete(c.range, start, Judging(env, cs, ps, hash));
    assert forall a: nat :: Judging(env, cs, ps, hash)(a) == Judge(env, cs, ps, hash, a);
  }

  /** An address that is found belongs to a range for the client and is none of the server's,
      leased, reserved or broken ones; it comes from a range without tags only if every range
      with matching tags is exhausted; and no address is found only if every range for the
      client is. */
  lemma AllocationIsRight(env: Env, cs: seq<Context>, netids: seq<string>, hash: nat, ps: seq<Ping>, epochs: seq<nat>)
    requires Usable(cs, WORD32) && |epochs| == |cs|
    ensures var f := FindFrom(env, cs, netids, hash, ps, epochs, 0, 0);
      && (f.addr.Some? ==>
            && Inside(cs[f.context].range, f.addr.value) && Eligible(cs[f.context], netids, 1)
            && !Reserved(env, cs, f.addr.value)
            && (cs[f.context].filter == [] ==>
                  forall k :: 0 <= k < |cs| && cs[k].filter != [] && Eligible(cs[k], netids, 1) ==>
                    Exhausted(env, cs, ps, hash, cs[k])))
      && (f.addr.None? <==>
            forall k :: 0 <= k < |cs| && Eligible(cs[k], netids, 1) ==> Exhausted(env, cs, ps, hash, cs[k]))
  {
    hide FindFrom, Exhausted, Eligible, Judge;
    FindIs(env, cs, netids, hash, ps, epochs, 0, 0);
    var f := FindFrom(env, cs, netids, hash, ps, epochs, 0, 0);
    forall k | 0 <= k < |cs|
      ensures Eligible(cs[k], netids, 0) <==> Eligible(cs[k], netids, 1) && cs[k].filter != []
    {
      TaggedFirst(cs[k], netids);
    }
    if f.addr.Some? {
      FreeNotReserved(env, cs, ps, hash, f.addr.value);
      NotExhausted(env, cs, ps, hash, cs[f.context], f.addr.value);
    }
  }

  lemma FreeNotReserved(env: Env, cs: seq<Context>, ps: seq<Ping>, hash: nat, a: nat)
    requires Judge(env, cs, ps, hash, a) == Free
    ensures !Reserved(env, cs, a)
  {
  }

  lemma NotExhausted(env: Env, cs: seq<Context>, ps: seq<Ping>, hash: nat, c: Context, a: nat)
    requires Inside(c.range, a) && Judge(env, cs, ps, hash, a) == Free
    ensures !Exhausted(env, cs, ps, hash, c)
  {
  }

  /** An address is refused although it is not reserved only if it answered a ping, or was
      offered to another client lately while addresses are given out in order. */
  lemma RefusedUnreserved(env: Env, cs: seq<Context>, ps: seq<Ping>, hash: nat, a: nat)
    requires !Reserved(env, cs, a) && Judge(env, cs, ps, hash, a) != Free
    ensures env.answers(a) ||
      (env.consecutive && exists i :: 0 <= i < |ps| && Fresh(ps[i], env.now) && ps[i].addr == a && ps[i].hash != hash)
  {
    ViewHit(ps, 0, env.now, a, 0, None);
  }

  lemma {:induction false} ViewHit(ps: seq<Ping>, i: nat, now: int, a: nat, count: nat, victim: Option<nat>)
    requires i <= |ps| && (victim.Some? ==> victim.value < i)
    ensures var v := ViewFrom(ps, i, now, a, count, victim);
      v.hit.Some? ==> exists k :: 0 <= k < |ps| && ps[k] == v.hit.value && Fresh(ps[k], now) && ps[k].addr == a
    decreases |ps| - i
  {
    if i < |ps| {
      if !Fresh(ps[i], now) {
        ViewHit(ps, i + 1, now, a, count, Some(i));
      } else if ps[i].addr != a {
        ViewHit(ps, i + 1, now, a, count + 1, victim);
      }
    }
  }

  // ----- address_available -----

  /** The first context that gives out the address, from i on. */
  function ContextFrom(cs: seq<Context>, netids: seq<string>, a: nat, i: nat): (r: Option<nat>)
    ensures r.Some? ==> i <= r.value < |cs| && Eligible(cs[r.value], netids, 1) && Inside(cs[r.value].range, a)
    ensures r.None? ==> forall k :: i <= k < |cs| ==> !(Eligible(cs[k], netids, 1) && Inside(cs[k].range, a))
    decreases |cs| - i
  {
    if i >= |cs| then None
    else if Eligible(cs[i], netids, 1) && Inside(cs[i].range, a) then Some(i)
    else ContextFrom(cs, netids, a, i + 1)
  }

  /** The check for the server's own address looks, for every context, at the first one's. */
  function Available(cs: seq<Context>, netids: seq<string>, a: nat): Option<nat> {
    if cs != [] && cs[0].own == a then None else ContextFrom(cs, netids, a, 0)
  }

  /** An address that is allocated is one that a client can go on using. */
  lemma AllocatedIsAvailable(env: Env, cs: seq<Context>, netids: seq<string>, hash: nat, ps: seq<Ping>,
      epochs: seq<nat>)
    requires Usable(cs, WORD32) && |epochs| == |cs|
    ensures var f := FindFrom(env, cs, netids, hash, ps, epochs, 0, 0);
      f.addr.Some? ==> Available(cs, netids, f.addr.value).Some?
  {
    hide FindFrom, Eligible, Exhausted;
    AllocationIsRight(env, cs, netids, hash, ps, epochs);
  }

  /** In a range for the client an address is refused exactly if it is the first context's own. */
  lemma RefusedExactly(cs: seq<Context>, netids: seq<string>, a: nat, k: nat)
    requires k < |cs| && Eligible(cs[k], netids, 1) && Inside(cs[k].range, a)
    ensures Available(cs, netids, a).None? <==> cs[0].own == a
  {
    hide Eligible;
  }

  /** The server's own address in the second of two subnets passes. */
  lemma OwnAddressPasses()
    ensures var cs := [Context(Range(10, 20, WORD32), 1, false, []), Context(Range(266, 276, WORD32), 271, false, [])];
      OwnAddress(cs, 271) && Available(cs, [], 271) == Some(1)
  {
    var cs := [Context(Range(10, 20, WORD32), 1, false, []), Context(Range(266, 276, WORD32), 271, false, [])];
    assert cs[1].own == 271;
    assert ContextFrom(cs, [], 271, 0) == ContextFrom(cs, [], 271, 1);
  }
}
