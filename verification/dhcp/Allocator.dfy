/** address_allocate with its records of pings and its epochs, as it runs. */
module Allocator {
  import opened Wrappers
  import opened Ring
  import opened Allocation

  class Server {
    var epochs: seq<nat>
    var pings: seq<Ping>

    constructor (contexts: nat)
      ensures |epochs| == contexts && pings == []
      ensures forall i :: 0 <= i < contexts ==> epochs[i] == 0
    {
      epochs := seq(contexts, _ => 0);
      pings := [];
    }

    /** The hash of the client's identity, in the arithmetic of the word. */
    method Hash(id: seq<nat>, word: nat) returns (j: nat)
      requires word > 0
      ensures j == Sdbm(id, word)
    {
      j := 0;
      for i := 0 to |id|
        invariant j == Sdbm(id[..i], word)
      {
        assert id[..i + 1][..i] == id[..i];
        j := (id[i] + j * 64 + j * 65536) % word;
      }
      assert id[..|id|] == id;
    }

    /** The scan of the records of pings. */
    method ScanPings(now: int, a: nat) returns (v: PingView)
      ensures v == ViewFrom(pings, 0, now, a, 0, None)
    {
      var count: nat, victim: Option<nat>, i: nat := 0, None, 0;
      while i < |pings|
        invariant i <= |pings| && (victim.Some? ==> victim.value < i)
        invariant ViewFrom(pings, i, now, a, count, victim) == ViewFrom(pings, 0, now, a, 0, None)
      {
        var r := pings[i];
        if !Fresh(r, now) {
          victim := Some(i);
        } else {
          count := count + 1;
          if r.addr == a {
            return PingView(Some(r), count, victim);
          }
        }
        i := i + 1;
      }
      v := PingView(None, count, victim);
    }

    /** One address: taken, found busy, or passed over. */
    method TryAddress(env: Env, cs: seq<Context>, hash: nat, a: nat) returns (verdict: Verdict)
      modifies this`pings
      ensures verdict == Judge(env, cs, old(pings), hash, a)
      ensures pings == if verdict == Free
                       then Noted(old(pings), ViewFrom(old(pings), 0, env.now, a, 0, None), a, env.now, hash)
                       else old(pings)
    {
      hide Reserved;
      if Reserved(env, cs, a) {
        return Blocked;
      }
      var v := ScanPings(env.now, a);
      if v.hit.Some? {
        return if env.consecutive && v.hit.value.hash != hash then Blocked else Free;
      }
      if v.count < MAXPINGS && !env.noPing && env.answers(a) {
        return Busy;
      }
      pings := if v.victim.Some? then pings[v.victim.value := Ping(a, env.now, hash)]
               else [Ping(a, env.now, hash)] + pings;
      verdict := Free;
    }

    /** Once around a range. */
    method SearchRange(env: Env, cs: seq<Context>, hash: nat, i: nat, start: nat) returns (found: Option<nat>)
      requires Usable(cs, WORD32) && i < |cs| == |epochs| && Inside(cs[i].range, start)
      modifies this
      ensures var s := SearchFrom(cs[i].range, start, 0, Judging(env, cs, old(pings), hash));
        found == s.found && epochs == old(epochs)[i := EpochAfter(env, old(epochs)[i], s.busy)]
      ensures pings == if found.Some?
                       then Noted(old(pings), ViewFrom(old(pings), 0, env.now, found.value, 0, None),
                                  found.value, env.now, hash)
                       else old(pings)
    {
      hide Judge, Nth, Next, ViewFrom, Noted;
      var r := cs[i].range;
      ghost var judge := Judging(env, cs, pings, hash);
      OnceAround(r, start);
      var addr := start;
      ghost var k, busy := 0, 0;
      FirstTry(r, start);
      EpochStart(env, epochs[i]);
      while true
        invariant k < Size(r) && addr == Nth(r, start, k) && Inside(r, addr)
        invariant pings == old(pings)
        invariant epochs == old(epochs)[i := EpochAfter(env, old(epochs)[i], busy)]
        invariant SearchFrom(r, start, 0, judge)
               == Search(SearchFrom(r, start, k, judge).found, busy + SearchFrom(r, start, k, judge).busy)
        decreases Size(r) - k
      {
        var verdict := TryAddress(env, cs, hash, addr);
        assert judge(addr) == verdict;
        if verdict == Free {
          return Some(addr);
        }
        if verdict == Busy {
          if !env.consecutive {
            epochs := epochs[i := (epochs[i] + 1) % WORD32];
          }
          EpochStep(env, old(epochs)[i], busy);
          busy := busy + 1;
        }
        NthNext(r, start, k);
        addr := Next(r, addr);
        k := k + 1;
        if addr == start {
          return None;
        }
      }
    }

    /** address_allocate. */
    method Allocate(env: Env, cs: seq<Context>, id: seq<nat>, netids: seq<string>) returns (addr: Option<nat>)
      requires Usable(cs, WORD32) && |epochs| == |cs|
      modifies this
      ensures var f := FindFrom(env, cs, netids, Sdbm(id, WORD32), old(pings), old(epochs), 0, 0);
        addr == f.addr && epochs == f.epochs
      ensures pings == if addr.Some?
                       then Noted(old(pings), ViewFrom(old(pings), 0, env.now, addr.value, 0, None),
                                  addr.value, env.now, Sdbm(id, WORD32))
                       else old(pings)
    {
      hide SearchFrom, StartOf, EpochAfter, Eligible, Judging, ViewFrom, Noted, Sdbm;
      var hash := Hash(id, WORD32);
      var pass := 0;
      while pass < 2
        invariant pass <= 2 && |epochs| == |cs| && pings == old(pings)
        invariant FindFrom(env, cs, netids, hash, pings, epochs, pass, 0)
               == FindFrom(env, cs, netids, hash, pings, old(epochs), 0, 0)
      {
        var i := 0;
        while i < |cs|
          invariant i <= |cs| == |epochs| && pings == old(pings)
          invariant FindFrom(env, cs, netids, hash, pings, epochs, pass, i)
                 == FindFrom(env, cs, netids, hash, pings, old(epochs), 0, 0)
        {
          if Eligible(cs[i], netids, pass) {
            var r := cs[i].range;
            var start := StartOf(env, r, hash, epochs[i]);
            addr := SearchRange(env, cs, hash, i, start);
            if addr.Some? {
              return;
            }
          }
          i := i + 1;
        }
        pass := pass + 1;
      }
      addr := None;
    }
  }

  /** address_available. */
  method AddressAvailable(cs: seq<Context>, netids: seq<string>, a: nat) returns (context: Option<nat>)
    ensures context == Available(cs, netids, a)
  {
    hide Eligible;
    var i := 0;
    while i < |cs|
      invariant i <= |cs| && (i > 0 ==> cs[0].own != a)
    {
      if a == cs[0].own {
        return None;
      }
      i := i + 1;
    }
    i := 0;
    while i < |cs|
      invariant i <= |cs| && ContextFrom(cs, netids, a, i) == ContextFrom(cs, netids, a, 0)
    {
      if Eligible(cs[i], netids, 1) && Inside(cs[i].range, a) {
        return Some(i);
      }
      i := i + 1;
    }
    context := None;
  }

  lemma FirstTry(r: Range, start: nat)
    requires Proper(r) && Inside(r, start)
    ensures Nth(r, start, 0) == start
  {
    NthNext(r, start, 0);
  }

  lemma EpochStart(env: Env, epoch: nat)
    ensures EpochAfter(env, epoch, 0) == epoch
  {
  }

  lemma EpochStep(env: Env, epoch: nat, busy: nat)
    ensures EpochAfter(env, epoch, busy + 1) ==
      if env.consecutive then epoch else (EpochAfter(env, epoch, busy) + 1) % WORD32
  {
  }
}
