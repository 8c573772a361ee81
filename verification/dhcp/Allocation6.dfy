/** address6_allocate: the search of the IPv6 ranges, by the low 64 bits of the addresses, from
    a hashed start (without OPT_CONSEC_ADDR). */
module Allocation6 {
  import opened Wrappers
  import opened Ring
  import opened Allocation

  /** What is leased or configured in the prefix of each context. */
  type Taken = (nat, nat) -> bool

  function Judge6(cs: seq<Context>, taken: Taken, i: nat, a: nat): Verdict {
    if OwnAddress(cs, a) || taken(i, a) then Blocked else Free
  }

  function Judging6(cs: seq<Context>, taken: Taken, i: nat): nat -> Verdict {
    (a: nat) => Judge6(cs, taken, i, a)
  }

  /** The address found and the context it is in. */
  datatype Found6 = Found6(addr: Option<nat>, pass: nat, context: nat)

  function Find6From(cs: seq<Context>, taken: Taken, netids: seq<string>, seeds: seq<nat>, pass: nat,
      i: nat): (f: Found6)
    requires Usable(cs, WORD64) && |seeds| == |cs| && i <= |cs| && pass <= 2
    ensures f.addr.Some? ==> f.context < |cs| && f.pass < 2
    decreases 2 - pass, |cs| - i
  {
    if pass == 2 then Found6(None, 2, 0)
    else if i == |cs| then Find6From(cs, taken, netids, seeds, pass + 1, 0)
    else if !Eligible(cs[i], netids, pass) then Find6From(cs, taken, netids, seeds, pass, i + 1)
    else
      var s := SearchFrom(cs[i].range, Start(cs[i].range, seeds[i]), 0, Judging6(cs, taken, i));
      if s.found.Some? then Found6(s.found, pass, i) else Find6From(cs, taken, netids, seeds, pass, i + 1)
  }

  ghost predicate Exhausted6(cs: seq<Context>, taken: Taken, i: nat)
    requires i < |cs|
  {
    forall a: nat :: Inside(cs[i].range, a) ==> Judge6(cs, taken, i, a) == Blocked
  }

  lemma {:induction false} Find6Is(cs: seq<Context>, taken: Taken, netids: seq<string>, seeds: seq<nat>, pass: nat,
      i: nat)
    requires Usable(cs, WORD64) && |seeds| == |cs| && i <= |cs| && pass <= 2
    requires forall k :: 0 <= k < |cs| && SearchedBefore(cs[k], k, netids, pass, i) ==> Exhausted6(cs, taken, k)
    ensures var f := Find6From(cs, taken, netids, seeds, pass, i);
      && (f.addr.Some? ==>
            && Inside(cs[f.context].range, f.addr.value) && Eligible(cs[f.context], netids, f.pass)
            && Judge6(cs, taken, f.context, f.addr.value) == Free
            && forall k :: 0 <= k < |cs| && SearchedBefore(cs[k], k, netids, f.pass, f.context) ==>
                 Exhausted6(cs, taken, k))
      && (f.addr.None? ==> forall k :: 0 <= k < |cs| && Eligible(cs[k], netids, 1) ==> Exhausted6(cs, taken, k))
    decreases 2 - pass, |cs| - i
  {
    hide SearchFrom, Judge6, Exhausted6, Eligible, Start;
    if pass == 2 {
    } else if i == |cs| {
      Find6Is(cs, taken, netids, seeds, pass + 1, 0);
    } else if !Eligible(cs[i], netids, pass) {
      Find6Is(cs, taken, netids, seeds, pass, i + 1);
    } else {
      RangeSearched6(cs, taken, i, Start(cs[i].range, seeds[i]));
      if SearchFrom(cs[i].range, Start(cs[i].range, seeds[i]), 0, Judging6(cs, taken, i)).found.None? {
        Find6Is(cs, taken, netids, seeds, pass, i + 1);
      }
    }
  }

  lemma RangeSearched6(cs: seq<Context>, taken: Taken, i: nat, start: nat)
    requires i < |cs| && Proper(cs[i].range) && Inside(cs[i].range, start)
    ensures var s := SearchFrom(cs[i].range, start, 0, Judging6(cs, taken, i));
      && (s.found.Some? ==> Inside(cs[i].range, s.found.value) && Judge6(cs, taken, i, s.found.value) == Free)
      && (s.found.None? <==> Exhausted6(cs, taken, i))
  {
    hide SearchFrom;
    SearchComplete(cs[i].range, start, Judging6(cs, taken, i));
  }

  /** An address that is found is in a range for the client and free; one from a range without
      tags means that all ranges with matching tags are exhausted; none is found exactly if all
      ranges for the client are. */
  lemma Allocation6IsRight(cs: seq<Context>, taken: Taken, netids: seq<string>, seeds: seq<nat>)
    requires Usable(cs, WORD64) && |seeds| == |cs|
    ensures var f := Find6From(cs, taken, netids, seeds, 0, 0);
      && (f.addr.Some? ==>
            && Inside(cs[f.context].range, f.addr.value) && Eligible(cs[f.context], netids, 1)
            && !OwnAddress(cs, f.addr.value) && !taken(f.context, f.addr.value)
            && (cs[f.context].filter == [] ==>
                  forall k :: 0 <= k < |cs| && cs[k].filter != [] && Eligible(cs[k], netids, 1) ==>
                    Exhausted6(cs, taken, k)))
      && (f.addr.None? <==> forall k :: 0 <= k < |cs| && Eligible(cs[k], netids, 1) ==> Exhausted6(cs, taken, k))
  {
    hide Find6From, Eligible, OwnAddress;
    Find6Is(cs, taken, netids, seeds, 0, 0);
    forall k | 0 <= k < |cs|
      ensures Eligible(cs[k], netids, 0) <==> Eligible(cs[k], netids, 1) && cs[k].filter != []
    {
      TaggedFirst(cs[k], netids);
    }
  }

  /** The loops of address6_allocate; epochs belong to the contexts, serial counts the
      addresses of one request. */
  method Allocate6(cs: seq<Context>, taken: Taken, id: seq<nat>, netids: seq<string>, epochs: seq<nat>, serial: nat)
    returns (addr: Option<nat>, context: nat)
    requires Usable(cs, WORD64) && |epochs| == |cs|
    ensures var seeds := seq(|cs|, i requires 0 <= i < |cs| => (Sdbm(id, WORD64) + epochs[i] + serial) % WORD64);
      var f := Find6From(cs, taken, netids, seeds, 0, 0);
      addr == f.addr && (addr.Some? ==> context == f.context)
  {
    hide SearchFrom, Eligible, Judging6, Sdbm, Start;
    var hash := Hash6(id);
    ghost var seeds := seq(|cs|, i requires 0 <= i < |cs| => (Sdbm(id, WORD64) + epochs[i] + serial) % WORD64);
    var pass := 0;
    context := 0;
    while pass < 2
      invariant pass <= 2
      invariant Find6From(cs, taken, netids, seeds, pass, 0) == Find6From(cs, taken, netids, seeds, 0, 0)
    {
      var i := 0;
      while i < |cs|
        invariant i <= |cs|
        invariant Find6From(cs, taken, netids, seeds, pass, i) == Find6From(cs, taken, netids, seeds, 0, 0)
      {
        if Eligible(cs[i], netids, pass) {
          addr := SearchRange6(cs, taken, i, Start(cs[i].range, (hash + epochs[i] + serial) % WORD64));
          if addr.Some? {
            context := i;
            return;
          }
        }
        i := i + 1;
      }
      pass := pass + 1;
    }
    addr := None;
  }

  method Hash6(id: seq<nat>) returns (j: nat)
    ensures j == Sdbm(id, WORD64)
  {
    j := 0;
    for i := 0 to |id|
      invariant j == Sdbm(id[..i], WORD64)
    {
      assert id[..i + 1][..i] == id[..i];
      j := (id[i] + j * 64 + j * 65536) % WORD64;
    }
    assert id[..|id|] == id;
  }

  method SearchRange6(cs: seq<Context>, taken: Taken, i: nat, start: nat) returns (found: Option<nat>)
    requires i < |cs| && Proper(cs[i].range) && Inside(cs[i].range, start)
    ensures found == SearchFrom(cs[i].range, start, 0, Judging6(cs, taken, i)).found
  {
    hide Nth, Next;
    var r := cs[i].range;
    ghost var judge := Judging6(cs, taken, i);
    OnceAround(r, start);
    NthNext(r, start, 0);
    var addr := start;
    ghost var k := 0;
    while true
      invariant k < Size(r) && addr == Nth(r, start, k) && Inside(r, addr)
      invariant SearchFrom(r, start, 0, judge).found == SearchFrom(r, start, k, judge).found
      decreases Size(r) - k
    {
      assert judge(addr) == Judge6(cs, taken, i, addr);
      if !OwnAddress(cs, addr) && !taken(i, addr) {
        return Some(addr);
      }
      NthNext(r, start, k);
      addr := Next(r, addr);
      k := k + 1;
      if addr == start {
        return None;
      }
    }
  }
}
