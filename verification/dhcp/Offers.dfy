/** How long an address that was offered is kept for its client (dhcp.c, the records of pings). */
module Offers {
  import opened Wrappers
  import opened Ring
  import opened Allocation

  // ----- the record of an address -----

  /** The only record of the address that can still be fresh is one made at time t for h. */
  predicate KeptAt(ps: seq<Ping>, i: int, now: int, a: nat, h: nat, t: int) {
    && 0 <= i < |ps| && ps[i] == Ping(a, t, h)
    && forall j :: 0 <= j < |ps| && j != i && ps[j].addr == a ==> !Fresh(ps[j], now)
  }

  ghost predicate Kept(ps: seq<Ping>, now: int, a: nat, h: nat, t: int) {
    exists i :: KeptAt(ps, i, now, a, h, t)
  }

  /** The first fresh record of the address, if any. */
  lemma {:induction false} FirstFresh(ps: seq<Ping>, i: nat, now: int, a: nat, count: nat, victim: Option<nat>)
    requires i <= |ps| && (victim.Some? ==> victim.value < i && !Fresh(ps[victim.value], now))
    ensures var v := ViewFrom(ps, i, now, a, count, victim);
      && (v.hit.None? <==> forall j :: i <= j < |ps| && ps[j].addr == a ==> !Fresh(ps[j], now))
      && (v.hit.Some? ==> v.hit.value.addr == a && Fresh(v.hit.value, now))
      && (v.hit.Some? ==> exists j :: i <= j < |ps| && ps[j] == v.hit.value)
      && (v.victim.Some? ==> v.victim.value < |ps| && !Fresh(ps[v.victim.value], now))
    decreases |ps| - i
  {
    if i < |ps| {
      if !Fresh(ps[i], now) {
        FirstFresh(ps, i + 1, now, a, count, Some(i));
      } else if ps[i].addr != a {
        FirstFresh(ps, i + 1, now, a, count + 1, victim);
      } else {
        assert ps[i] == Ping(a, ps[i].time, ps[i].hash);
      }
    }
  }

  function View(ps: seq<Ping>, now: int, a: nat): PingView {
    ViewFrom(ps, 0, now, a, 0, None)
  }

  /** While its record is fresh, that is what is found of the address; then nothing is. */
  lemma KeptHit(ps: seq<Ping>, now: int, a: nat, h: nat, t: int)
    requires Kept(ps, now, a, h, t)
    ensures View(ps, now, a).hit == if now - t <= PING_CACHE_TIME then Some(Ping(a, t, h)) else None
  {
    hide ViewFrom;
    FirstFresh(ps, 0, now, a, 0, None);
    var i :| KeptAt(ps, i, now, a, h, t);
    assert ps[i].addr == a;
  }

  /** The record stays the only one as time passes. */
  lemma KeptLater(ps: seq<Ping>, now: int, later: int, a: nat, h: nat, t: int)
    requires Kept(ps, now, a, h, t) && now <= later
    ensures Kept(ps, later, a, h, t)
  {
    var i :| KeptAt(ps, i, now, a, h, t);
    assert KeptAt(ps, i, later, a, h, t);
  }

  // ----- offers -----

  /** A search for an address for one client that found one. */
  datatype Offer = Offer(env: Env, cs: seq<Context>, netids: seq<string>, epochs: seq<nat>, hash: nat, addr: nat)

  ghost predicate Made(ps: seq<Ping>, o: Offer) {
    && Usable(o.cs, WORD32) && |o.epochs| == |o.cs|
    && FindFrom(o.env, o.cs, o.netids, o.hash, ps, o.epochs, 0, 0).addr == Some(o.addr)
  }

  /** The records after it. */
  function AfterOffer(ps: seq<Ping>, o: Offer): seq<Ping> {
    Noted(ps, View(ps, o.env.now, o.addr), o.addr, o.env.now, o.hash)
  }

  lemma OfferFree(ps: seq<Ping>, o: Offer)
    requires Made(ps, o)
    ensures Judge(o.env, o.cs, ps, o.hash, o.addr) == Free
  {
    hide FindFrom, Judge, Exhausted, Eligible;
    FindIs(o.env, o.cs, o.netids, o.hash, ps, o.epochs, 0, 0);
  }

  /** An offer of an address of which no fresh record was there makes one. */
  lemma OfferKeeps(ps: seq<Ping>, o: Offer)
    requires Made(ps, o) && View(ps, o.env.now, o.addr).hit.None?
    ensures Kept(AfterOffer(ps, o), o.env.now, o.addr, o.hash, o.env.now)
  {
    hide ViewFrom, FindFrom;
    FirstFresh(ps, 0, o.env.now, o.addr, 0, None);
    var v, r := View(ps, o.env.now, o.addr), AfterOffer(ps, o);
    var at := if v.victim.Some? then v.victim.value else 0;
    if v.victim.None? {
      assert forall j :: 1 <= j < |r| ==> r[j] == ps[j - 1];
    }
    assert KeptAt(r, at, o.env.now, o.addr, o.hash, o.env.now);
  }

  /** While the record is fresh no other offer takes it away. */
  lemma OthersKeep(ps: seq<Ping>, o: Offer, a: nat, h: nat, t: int)
    requires Kept(ps, o.env.now, a, h, t) && o.env.now - t <= PING_CACHE_TIME
    ensures Kept(AfterOffer(ps, o), o.env.now, a, h, t)
  {
    hide ViewFrom;
    var now := o.env.now;
    FirstFresh(ps, 0, now, o.addr, 0, None);
    var v, r := View(ps, now, o.addr), AfterOffer(ps, o);
    var i :| KeptAt(ps, i, now, a, h, t);
    if o.addr == a {
      assert ps[i].addr == a;
      assert r == ps;
    } else if v.hit.None? && v.victim.None? {
      assert r[i + 1] == ps[i];
      assert forall j :: 1 <= j < |r| ==> r[j] == ps[j - 1];
      assert KeptAt(r, i + 1, now, a, h, t);
    } else {
      assert KeptAt(r, i, now, a, h, t);
    }
  }

  // ----- one client at a time -----

  /** For another client the address is free exactly when the record is too old; for the same
      client it stays free, without another ping. */
  lemma KeptExactly(ps: seq<Ping>, env: Env, cs: seq<Context>, a: nat, h: nat, t: int, g: nat)
    requires Kept(ps, env.now, a, h, t) && !Reserved(env, cs, a)
    ensures env.now - t <= PING_CACHE_TIME ==> Judge(env, cs, ps, h, a) == Free
    ensures env.consecutive && g != h && !env.answers(a) ==>
      (Judge(env, cs, ps, g, a) == Free <==> env.now - t > PING_CACHE_TIME)
  {
    hide ViewFrom, Reserved;
    KeptHit(ps, env.now, a, h, t);
  }

  /** Offers one after the other. */
  ghost predicate Offered(ps: seq<Ping>, start: int, os: seq<Offer>)
    decreases |os|
  {
    os == [] || (start <= os[0].env.now && Made(ps, os[0])
                 && Offered(AfterOffer(ps, os[0]), os[0].env.now, os[1..]))
  }

  predicate InOrder(os: seq<Offer>) {
    forall i :: 0 <= i < |os| ==> os[i].env.consecutive
  }

  lemma {:induction false} KeptThroughout(ps: seq<Ping>, start: int, os: seq<Offer>, a: nat, h: nat, t: int)
    requires Kept(ps, start, a, h, t) && Offered(ps, start, os) && InOrder(os)
    ensures forall k :: 0 <= k < |os| && os[k].addr == a && os[k].env.now - t <= PING_CACHE_TIME ==> os[k].hash == h
    decreases |os|
  {
    hide Made, Kept, AfterOffer, Judge;
    if os != [] {
      var o := os[0];
      KeptLater(ps, start, o.env.now, a, h, t);
      if o.env.now - t <= PING_CACHE_TIME {
        OfferFree(ps, o);
        if o.addr == a {
          HeldForOne(ps, o, a, h, t);
        }
        OthersKeep(ps, o, a, h, t);
        KeptThroughout(AfterOffer(ps, o), o.env.now, os[1..], a, h, t);
      } else {
        TimesGo(AfterOffer(ps, o), o.env.now, os[1..]);
      }
    }
  }

  lemma HeldForOne(ps: seq<Ping>, o: Offer, a: nat, h: nat, t: int)
    requires Made(ps, o) && o.addr == a && o.env.consecutive
    requires Kept(ps, o.env.now, a, h, t) && o.env.now - t <= PING_CACHE_TIME
    ensures o.hash == h
  {
    hide FindFrom, ViewFrom, Reserved, Kept;
    OfferFree(ps, o);
    KeptHit(ps, o.env.now, a, h, t);
  }

  lemma {:induction false} TimesGo(ps: seq<Ping>, start: int, os: seq<Offer>)
    requires Offered(ps, start, os)
    ensures forall k :: 0 <= k < |os| ==> start <= os[k].env.now
    decreases |os|
  {
    hide Made, AfterOffer;
    if os != [] {
      TimesGo(AfterOffer(ps, os[0]), os[0].env.now, os[1..]);
    }
  }

  /** While addresses are given out in order: in the PING_CACHE_TIME seconds after an offer that
      made a record, no client with another hash is offered the address, whatever is offered in
      between. */
  lemma OneClientEach(ps: seq<Ping>, start: int, os: seq<Offer>, k: nat)
    requires Offered(ps, start, os) && InOrder(os) && 0 < k < |os|
    requires View(ps, os[0].env.now, os[0].addr).hit.None?
    requires os[k].addr == os[0].addr && os[k].env.now - os[0].env.now <= PING_CACHE_TIME
    ensures os[k].hash == os[0].hash
  {
    hide Made, Kept, AfterOffer;
    var o := os[0];
    OfferKeeps(ps, o);
    KeptThroughout(AfterOffer(ps, o), o.env.now, os[1..], o.addr, o.hash, o.env.now);
    assert os[k] == os[1..][k - 1];
  }

  /** The only address of the only range. */
  function Narrow(now: int, hash: nat): Offer {
    Offer(Env([], {}, _ => false, true, false, now), [Context(Range(10, 10, WORD32), 1, false, [])], [], [0], hash, 10)
  }

  lemma NarrowMade(ps: seq<Ping>, now: int, hash: nat)
    requires Judge(Narrow(now, hash).env, Narrow(now, hash).cs, ps, hash, 10) == Free
    ensures Made(ps, Narrow(now, hash))
  {
    hide Judge;
    var o := Narrow(now, hash);
    var r := o.cs[0].range;
    assert FindFrom(o.env, o.cs, [], hash, ps, [0], 0, 0) == FindFrom(o.env, o.cs, [], hash, ps, [0], 1, 0);
    assert StartOf(o.env, r, hash, 0) == 10;
    assert SearchFrom(r, 10, 0, Judging(o.env, o.cs, ps, hash)).found == Some(10);
  }

  /** An offer that only finds the record does not make it younger: offered to a client at 0 and
      again at 29, the address goes to another one at 31. */
  lemma NotRenewed()
    ensures Offered([], 0, [Narrow(0, 1), Narrow(29, 1), Narrow(31, 2)])
  {
    hide FindFrom, Made, Narrow;
    var first, second := Narrow(0, 1), Narrow(29, 1);
    NarrowIs(0, 1);
    NarrowIs(29, 1);
    NarrowIs(31, 2);
    NarrowMade([], 0, 1);
    var ps := [Ping(10, 0, 1)];
    assert AfterOffer([], first) == ps;
    assert KeptAt(ps, 0, 0, 10, 1, 0);
    KeptLater(ps, 0, 29, 10, 1, 0);
    KeptLater(ps, 0, 31, 10, 1, 0);
    KeptExactly(ps, second.env, second.cs, 10, 1, 0, 2);
    NarrowMade(ps, 29, 1);
    KeptHit(ps, 29, 10, 1, 0);
    assert AfterOffer(ps, second) == ps;
    var third := Narrow(31, 2);
    KeptExactly(ps, third.env, third.cs, 10, 1, 0, 2);
    NarrowMade(ps, 31, 2);
    var os := [first, second, third];
    assert os[1..][1..] == [third] && os[1..][0] == second && [third][1..] == [];
  }

  lemma NarrowIs(now: int, hash: nat)
    ensures var o := Narrow(now, hash);
      o.env.now == now && o.env.consecutive && o.addr == 10 && o.hash == hash && !o.env.answers(10)
      && !Reserved(o.env, o.cs, 10)
  {
  }
}
