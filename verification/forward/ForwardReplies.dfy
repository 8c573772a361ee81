/** What a reply does to the query it answers, and to whom it is passed on. */
module ForwardReplies {
  import opened Wrappers
  import opened Frecs
  import opened Forwarding
  import opened ForwardRuns

  // ----- one reply -----

  /** All records but i are as before. */
  predicate OthersKept(st: State, r: State, i: nat) {
    |r.frecs| == |st.frecs| && forall j :: 0 <= j < |st.frecs| && j != i ==> r.frecs[j] == st.frecs[j]
  }

  /** Every socket lost as many references as f had to it, and is open while any are left. */
  predicate GivenBack(f: Frec, before: seq<Sock>, after: seq<Sock>) {
    && |before| == |after| == RANDOM_SOCKS
    && forall s :: 0 <= s < RANDOM_SOCKS ==>
         && after[s].refcount == before[s].refcount - Uses(f, s)
         && after[s].v6 == before[s].v6 && (after[s].open <==> after[s].refcount > 0)
  }

  /** A good reply, the last of the bad ones, or a bad one after which no other server is tried
      ends the query: it is no longer in flight, its sockets are given back, and its client is
      answered. */
  lemma ReplyEnds(st: State, e: Event, i: nat)
    requires Inv(st) && |st.socks| == RANDOM_SOCKS && e.Reply? && Possible(st, e)
    requires Lookup(st.frecs, e.replyId, e.replyCrc, 0) == Some(i)
    requires var n := st.frecs[i].forwardall; !e.bad || n == 2 || (n == 0 && (e.strict || !e.rebuilt))
    ensures var f, r := st.frecs[i], OnReply(st, e);
      && OthersKept(st, r, i) && !InFlight(r.frecs[i]) && GivenBack(f, st.socks, r.socks)
      && PassedOn(st, e) == Some(Client(f.source, f.origId, f.crc))
  {
    hide Lookup, Release, InvExcept;
    OnReplyKeeps(st, e);
    var f, r := st.frecs[i], OnReply(st, e);
    FreedSockets(st, i);
    assert r.socks == Free(st, i).socks;
  }

  lemma FreedSockets(st: State, i: nat)
    requires Inv(st) && i < |st.frecs|
    ensures GivenBack(st.frecs[i], st.socks, Free(st, i).socks)
  {
    var r := Free(st, i);
    FreeSockets(st, i);
    assert RightFamily(st.frecs[i], st.socks);
    forall s | 0 <= s < RANDOM_SOCKS
      ensures r.socks[s].refcount == st.socks[s].refcount - Uses(st.frecs[i], s)
    {
      RefsUpdate(st.frecs, i, Freed(st.frecs[i]), s);
    }
  }

  /** The same reply is not taken again. */
  lemma TakenOnce(st: State, e: Event, again: Event, i: nat)
    requires Inv(st) && |st.socks| == RANDOM_SOCKS && e.Reply? && Possible(st, e) && again.Reply?
    requires Lookup(st.frecs, e.replyId, e.replyCrc, 0) == Some(i) && e.replyCrc != NO_CRC
    requires again.replyId == e.replyId && again.replyCrc == e.replyCrc
    requires PassedOn(st, e).Some?
    ensures var r := OnReply(st, e);
      |r.socks| == RANDOM_SOCKS && OnReply(r, again) == r && PassedOn(r, again) == None
  {
    hide Release, InvExcept, SendQuery;
    var r := OnReply(st, e);
    ReplyEnds(st, e, i);
    forall j | 0 <= j < |r.frecs| ensures !Answers(r.frecs[j], e.replyId, e.replyCrc) {
      if j != i && Answers(r.frecs[j], e.replyId, e.replyCrc) {
        OneAnswer(st, e.replyId, e.replyCrc, i, j);
      }
    }
  }

  /** A bad reply to a query that waits for more than one is counted. */
  lemma BadReplyCounts(st: State, e: Event, i: nat)
    requires |st.socks| == RANDOM_SOCKS && e.Reply? && e.bad
    requires Lookup(st.frecs, e.replyId, e.replyCrc, 0) == Some(i)
    requires st.frecs[i].forwardall !in {0, 2}
    ensures var f, r := st.frecs[i], OnReply(st, e);
      && r.frecs == st.frecs[i := f.(forwardall := f.forwardall - 1)] && r.socks == st.socks
      && PassedOn(st, e) == None
  {
    hide Lookup;
  }

  /** The server that is asked first from now on: none after a bad reply, after a good one the
      server the reply came from, or the one the query was sent to last. */
  lemma LastServerAfter(st: State, e: Event, i: nat)
    requires |st.socks| == RANDOM_SOCKS && e.Reply?
    requires Lookup(st.frecs, e.replyId, e.replyCrc, 0) == Some(i)
    ensures var last := OnReply(st, e).lastServer;
      && (e.bad && st.frecs[i].forwardall == 0 && !e.strict && e.rebuilt ==> last == None)
      && (e.bad && !e.special ==> last == None)
      && (!e.bad && !e.special && e.byAddress.Some? ==> last == e.byAddress)
      && (!e.bad && !e.special && e.byAddress.None? ==> last == st.frecs[i].sentto)
      && (e.special && !Retried(st.frecs[i], e) ==> last == st.lastServer)
  {
    hide Lookup;
    SendChanges(Again(st, i, false), i, e.turns, false);
  }

  // ----- sending -----

  /** The servers that the query reaches, when there is a socket for each. */
  function Reached(turns: seq<Turn>): seq<nat> {
    if turns == [] then []
    else (if turns[0].eligible && turns[0].sends then [turns[0].server] else []) + Reached(turns[1..])
  }

  /** Sending changes nothing of a query but its sockets, the server it was sent to and the
      count. */
  predicate SameQuery(f: Frec, g: Frec) {
    g.source == f.source && g.origId == f.origId && g.newId == f.newId && g.crc == f.crc && g.time == f.time
  }

  lemma AttachChanges(st: State, i: nat, v6: bool, opens: bool)
    requires |st.socks| == RANDOM_SOCKS && i < |st.frecs|
    ensures var a := Attach(st, i, v6, opens);
      var f, g := st.frecs[i], a.st.frecs[i];
      && OthersKept(st, a.st, i) && SameQuery(f, g) && g.sentto == f.sentto && g.forwardall == f.forwardall
      && a.st.lastServer == st.lastServer && a.st.ftabsize == st.ftabsize
      && (!a.ok ==> SocketOf(g, v6).None?)
  {
    hide AllocateSocket;
  }

  lemma {:induction false} SendChanges(st: State, i: nat, turns: seq<Turn>, forwarded: bool)
    requires |st.socks| == RANDOM_SOCKS && i < |st.frecs|
    ensures var r := SendFrom(st, i, turns, forwarded).st;
      && OthersKept(st, r, i) && SameQuery(st.frecs[i], r.frecs[i]) && r.lastServer == st.lastServer
      && r.ftabsize == st.ftabsize
    decreases |turns|
  {
    hide Attach;
    if turns != [] {
      var t := turns[0];
      AttachChanges(st, i, t.v6, t.opens);
      if !t.eligible {
        SendChanges(st, i, turns[1..], forwarded);
      } else {
        var a := if t.ownSocket then Attached(st, true) else Attach(st, i, t.v6, t.opens);
        if a.ok && !t.sends {
          SendChanges(a.st, i, turns[1..], forwarded);
        } else if a.ok {
          var s := SentTo(a.st, i, t.server);
          if s.frecs[i].forwardall != 0 {
            SendChanges(CountSend(s, i), i, turns[1..], true);
          }
        }
      }
    }
  }

  /** No socket could be had for this turn. */
  predicate Stuck(f: Frec, t: Turn) {
    t.eligible && !t.ownSocket && SocketOf(f, t.v6).None?
  }

  /** The turns up to the k-th after the first. */
  lemma Further(turns: seq<Turn>, k: nat) returns (n: nat)
    requires turns != [] && k <= |turns| - 1
    ensures n == k + 1 && (n < |turns| ==> turns[n] == turns[1..][k])
    ensures var t, rest := turns[0], Reached(turns[1..][..k]);
      Reached(turns[..n]) == if t.eligible && t.sends then [t.server] + rest else rest
  {
    n := k + 1;
    assert turns[..n][1..] == turns[1..][..k] && turns[..n][0] == turns[0];
    assert [] + Reached(turns[1..][..k]) == Reached(turns[1..][..k]);
  }

  lemma NobodyReached()
    ensures Reached([]) == []
  {
  }

  /** A query for all servers is counted once for each it reaches, up to one for which there is
      no socket; the last one reached is where it was sent to. */
  lemma {:induction false} SendCounts(st: State, i: nat, turns: seq<Turn>, forwarded: bool) returns (k: nat)
    requires |st.socks| == RANDOM_SOCKS && i < |st.frecs| && st.frecs[i].forwardall > 0
    ensures k <= |turns|
    ensures var r, to := SendFrom(st, i, turns, forwarded), Reached(turns[..k]);
      && r.forwarded == (forwarded || to != [])
      && r.st.frecs[i].forwardall == st.frecs[i].forwardall + |to|
      && r.st.frecs[i].sentto == (if to == [] then st.frecs[i].sentto else Some(to[|to| - 1]))
      && (k < |turns| ==> Stuck(r.st.frecs[i], turns[k]))
    decreases |turns|
  {
    hide Attach, SocketOf, Reached, OthersKept, SameQuery;
    k := 0;
    NobodyReached();
    if turns != [] {
      var t := turns[0];
      AttachChanges(st, i, t.v6, t.opens);
      var a := if t.ownSocket then Attached(st, true) else Attach(st, i, t.v6, t.opens);
      if !t.eligible {
        k := SendCounts(st, i, turns[1..], forwarded);
        k := Further(turns, k);
      } else if a.ok && !t.sends {
        k := SendCounts(a.st, i, turns[1..], forwarded);
        k := Further(turns, k);
      } else if a.ok {
        k := SendCounts(CountSend(SentTo(a.st, i, t.server), i), i, turns[1..], true);
        k := Further(turns, k);
      }
    }
  }

  /** Any other query is sent to the first server that it reaches. */
  lemma {:induction false} SendFirst(st: State, i: nat, turns: seq<Turn>) returns (k: nat)
    requires |st.socks| == RANDOM_SOCKS && i < |st.frecs| && st.frecs[i].forwardall == 0
    ensures k <= |turns|
    ensures var r, to := SendFrom(st, i, turns, false), Reached(turns[..k]);
      && r.st.frecs[i].forwardall == 0 && |to| == (if r.forwarded then 1 else 0)
      && r.st.frecs[i].sentto == (if r.forwarded then Some(to[0]) else st.frecs[i].sentto)
      && (!r.forwarded && k < |turns| ==> Stuck(r.st.frecs[i], turns[k]))
    decreases |turns|
  {
    hide Attach, SocketOf, Reached, OthersKept, SameQuery;
    k := 0;
    NobodyReached();
    if turns != [] {
      var t := turns[0];
      AttachChanges(st, i, t.v6, t.opens);
      var a := if t.ownSocket then Attached(st, true) else Attach(st, i, t.v6, t.opens);
      if !t.eligible {
        k := SendFirst(st, i, turns[1..]);
        k := Further(turns, k);
      } else if a.ok && !t.sends {
        k := SendFirst(a.st, i, turns[1..]);
        k := Further(turns, k);
      } else if a.ok {
        k := Further(turns, 0);
        assert turns[1..][..0] == [];
      }
    }
  }

  /** After a bad reply from the one server it was sent to, a query is sent to all of them and
      waits for as many replies; it is over if none is reached. */
  lemma RetryAsksAll(st: State, e: Event, i: nat) returns (k: nat)
    requires Inv(st) && |st.socks| == RANDOM_SOCKS && e.Reply? && Possible(st, e)
    requires Lookup(st.frecs, e.replyId, e.replyCrc, 0) == Some(i)
    requires e.bad && !e.strict && e.rebuilt && st.frecs[i].forwardall == 0
    ensures k <= |e.turns|
    ensures var f, r, to := st.frecs[i], OnReply(st, e), Reached(e.turns[..k]);
      && OthersKept(st, r, i) && PassedOn(st, e) == None && SameQuery(f, r.frecs[i])
      && (InFlight(r.frecs[i]) <==> to != [])
      && (to != [] ==> r.frecs[i].forwardall == |to| + 1 && r.frecs[i].sentto == Some(to[|to| - 1]))
  {
    hide Lookup, SendFrom, Release, Reached, InvExcept;
    k := SendCounts(Again(st, i, false), i, e.turns, false);
    SendChanges(Again(st, i, false), i, e.turns, false);
  }

  // ----- bad replies from all servers -----

  predicate Refusal(e: Event, f: Frec) {
    e.Reply? && e.bad && e.replyId == f.newId && e.replyCrc == f.crc
  }

  /** A query that waits for n replies outlives n - 1 bad ones, and not the last. */
  lemma {:induction false} AllRefuse(st: State, es: seq<Event>, st': State, i: nat)
    requires Inv(st) && |st.socks| == RANDOM_SOCKS && Reaches(st, es, st')
    requires i < |st.frecs| && InFlight(st.frecs[i]) && st.frecs[i].crc != NO_CRC
    requires 1 <= |es| < st.frecs[i].forwardall
    requires forall k :: 0 <= k < |es| ==> Refusal(es[k], st.frecs[i])
    ensures OthersKept(st, st', i)
    ensures InFlight(st'.frecs[i]) <==> |es| < st.frecs[i].forwardall - 1
    ensures InFlight(st'.frecs[i]) ==>
      st'.frecs[i] == st.frecs[i].(forwardall := st.frecs[i].forwardall - |es|) && st'.socks == st.socks
    decreases |es|
  {
    hide InvExcept, OnReply, GivenBack;
    var f, e := st.frecs[i], es[0];
    var next := Step(st, e);
    FindsOwn(st, i);
    StepKeepsInv(st, e);
    if f.forwardall == 2 {
      ReplyEnds(st, e, i);
    } else {
      BadReplyCounts(st, e, i);
      if |es| > 1 {
        AllRefuse(next, es[1..], st', i);
      } else {
        assert Reaches(next, [], st');
      }
    }
  }

  lemma FindsOwn(st: State, i: nat)
    requires Inv(st) && i < |st.frecs| && InFlight(st.frecs[i]) && st.frecs[i].crc != NO_CRC
    ensures Lookup(st.frecs, st.frecs[i].newId, st.frecs[i].crc, 0) == Some(i)
  {
    hide InvExcept, Lookup;
    var f := st.frecs[i];
    var found := Lookup(st.frecs, f.newId, f.crc, 0);
    assert Answers(f, f.newId, f.crc);
    if found.Some? {
      OneAnswer(st, f.newId, f.crc, i, found.value);
    }
  }

  // ----- other records -----

  lemma {:induction false} DropsExactly(st: State, server: nat, i: nat)
    requires i <= |st.frecs|
    ensures var r := DropFrom(st, server, i);
      && r.lastServer == st.lastServer && r.live == st.live
      && forall j :: 0 <= j < |st.frecs| ==>
           r.frecs[j] == if j >= i && st.frecs[j].sentto == Some(server) then Freed(st.frecs[j]) else st.frecs[j]
    decreases |st.frecs| - i
  {
    hide Release;
    if i < |st.frecs| {
      DropsExactly(if st.frecs[i].sentto == Some(server) then Free(st, i) else st, server, i + 1);
    }
  }

  /** When a server goes, the queries sent to it last are over and no others; it is not asked
      first any more. */
  lemma GoneDropsExactly(st: State, server: nat)
    ensures var r := OnGone(st, server);
      && |r.frecs| == |st.frecs|
      && (forall j :: 0 <= j < |st.frecs| && st.frecs[j].sentto == Some(server) ==> !InFlight(r.frecs[j]))
      && (forall j :: 0 <= j < |st.frecs| && st.frecs[j].sentto != Some(server) ==> r.frecs[j] == st.frecs[j])
      && r.lastServer == (if st.lastServer == Some(server) then None else st.lastServer)
      && r.live == st.live - {server}
  {
    hide DropFrom;
    DropsExactly(st, server, 0);
  }

  /** Looking for a record ends no query that is younger than four times TIMEOUT but the one whose
      record is taken. */
  lemma OnlyOldEnd(st: State, now: int, waiting: bool, memory: bool, i: nat)
    requires Inv(st) && i < |st.frecs| && InFlight(st.frecs[i]) && now - st.frecs[i].time < 4 * TIMEOUT
    ensures var r := GetNew(st, now, waiting, memory);
      var shift := |r.st.frecs| - |st.frecs|;
      && 0 <= shift <= 1 && i + shift < |r.st.frecs|
      && (r.frec != Some(i + shift) ==> r.st.frecs[i + shift] == st.frecs[i])
  {
    hide Inv, SweepFrom, Release;
    StartScan(st, now);
    SweepKeeps(st, Scan(st, None, None), now, 0);
  }
}
