/** Runs of the forwarding table: queries, replies, servers that come and go, and probes for
    room. */
module ForwardRuns {
  import opened Wrappers
  import opened Frecs
  import opened Forwarding

  /** strict: servers are tried in order (OPT_ORDER). all: ask all servers. local: answered
      without forwarding. bad: SERVFAIL or REFUSED. rebuilt: the query could be recreated from
      the reply. special: the query was for servers of a special type, or all servers are always
      asked. byAddress: the server found by the address the reply came from. */
  datatype Event =
    | Query(now: int, source: int, id: nat, crc: nat, servers: bool, local: bool, strict: bool, all: bool,
            memory: bool, draws: seq<nat>, turns: seq<Turn>)
    | Reply(replyId: nat, replyCrc: nat, bad: bool, strict: bool, rebuilt: bool,
            special: bool, byAddress: Option<nat>, turns: seq<Turn>)
    | Gone(server: nat)
    | Added(server: nat)
    | Probe(now: int, memory: bool)

  /** A query that is asked again, of all servers unless they are tried in order. */
  function Again(st: State, i: nat, strict: bool): State
    requires i < |st.frecs|
  {
    if strict then st
    else st.(frecs := st.frecs[i := st.frecs[i].(forwardall := 1)], lastServer := None)
  }

  function Begin(st: State, i: nat, source: int, id: nat, newId: nat, crc: nat, all: bool): State
    requires i < |st.frecs|
  {
    st.(frecs := st.frecs[i := st.frecs[i].(
      source := source, origId := id, newId := newId, crc := crc, forwardall := if all then 1 else 0)])
  }

  /** A query from a client, and whether it was forwarded. */
  function AskServers(st: State, e: Event): Sent
    requires e.Query? && |st.socks| == RANDOM_SOCKS
  {
    if !e.servers then Sent(st, false) else
    match LookupSender(st.frecs, e.id, e.source, e.crc, 0)
    case Some(i) => SendQuery(Again(st, i, e.strict), i, e.turns)
    case None =>
      if e.local then Sent(st, false) else
      var g := GetNew(st, e.now, false, e.memory);
      if g.frec.None? then Sent(g.st, false) else
      var i := g.frec.value;
      match FreshId(g.st.frecs, e.crc, e.draws)
      case None => Sent(g.st, false)
      case Some(newId) =>
        if |g.st.socks| != RANDOM_SOCKS then Sent(g.st, false)
        else SendQuery(Begin(g.st, i, e.source, e.id, newId, e.crc, e.all), i, e.turns)
  }

  function OnQuery(st: State, e: Event): State
    requires e.Query? && |st.socks| == RANDOM_SOCKS
  {
    AskServers(st, e).st
  }

  /** The server that a reply shows to be good. */
  function GoodServer(f: Frec, e: Event): Option<nat>
    requires e.Reply?
  {
    if e.bad then None else if e.byAddress.Some? then e.byAddress else f.sentto
  }

  /** The query is sent on to another server. */
  predicate Retried(f: Frec, e: Event)
    requires e.Reply?
  {
    e.bad && !e.strict && f.forwardall == 0 && e.rebuilt
  }

  /** There is no other reply to wait for. */
  predicate Final(f: Frec, e: Event)
    requires e.Reply?
  {
    f.forwardall == 0 || f.forwardall - 1 == 1 || !e.bad
  }

  /** A reply from a server. */
  function OnReply(st: State, e: Event): State
    requires e.Reply? && |st.socks| == RANDOM_SOCKS
  {
    match Lookup(st.frecs, e.replyId, e.replyCrc, 0)
    case None => st
    case Some(i) =>
      var f := st.frecs[i];
      if Retried(f, e) then SendQuery(Again(st, i, false), i, e.turns).st
      else
        var s := if e.special then st else st.(lastServer := GoodServer(f, e));
        var c := if f.forwardall == 0 then s else s.(frecs := s.frecs[i := f.(forwardall := f.forwardall - 1)]);
        if Final(f, e) then Free(c, i) else c
  }

  /** Who asked what, and with which id. */
  datatype Client = Client(source: int, id: nat, question: nat)

  function ClientOf(f: Frec): Client {
    Client(f.source, f.origId, f.crc)
  }

  /** The client that a reply is passed on to. */
  function PassedOn(st: State, e: Event): Option<Client>
    requires e.Reply?
  {
    match Lookup(st.frecs, e.replyId, e.replyCrc, 0)
    case None => None
    case Some(i) =>
      var f := st.frecs[i];
      if !Retried(f, e) && Final(f, e) then Some(ClientOf(f)) else None
  }

  /** Every query that was sent to the server is dropped. */
  function DropFrom(st: State, server: nat, i: nat): (r: State)
    ensures |r.frecs| == |st.frecs|
    decreases |st.frecs| - i
  {
    if i >= |st.frecs| then st
    else DropFrom(if st.frecs[i].sentto == Some(server) then Free(st, i) else st, server, i + 1)
  }

  /** server_gone. */
  function OnGone(st: State, server: nat): State {
    var s := DropFrom(st, server, 0);
    s.(lastServer := if s.lastServer == Some(server) then None else s.lastServer, live := s.live - {server})
  }

  function Step(st: State, e: Event): State
    requires |st.socks| == RANDOM_SOCKS
  {
    match e
    case Query(_, _, _, _, _, _, _, _, _, _, _) => OnQuery(st, e)
    case Reply(_, _, _, _, _, _, _, _) => OnReply(st, e)
    case Gone(server) => OnGone(st, server)
    case Added(server) => st.(live := st.live + {server})
    case Probe(now, memory) => GetNew(st, now, true, memory).st
  }

  /** Only servers that exist are tried or remembered. */
  predicate Possible(st: State, e: Event) {
    match e
    case Query(_, _, _, _, _, _, _, _, _, _, turns) => Known(turns, st.live)
    case Reply(_, _, _, _, _, _, byAddress, turns) =>
      Known(turns, st.live) && (byAddress.Some? ==> byAddress.value in st.live)
    case _ => true
  }

  // ----- every step keeps the invariant -----

  lemma AgainKeeps(st: State, i: nat, strict: bool)
    requires Inv(st) && i < |st.frecs| && InFlight(st.frecs[i])
    ensures InvExcept(Again(st, i, strict), i)
  {
    SameSockets(st, i, st.frecs[i].(forwardall := 1));
  }

  lemma BeginKeeps(st: State, i: nat, source: int, id: nat, newId: nat, crc: nat, all: bool)
    requires Inv(st) && i < |st.frecs| && !InFlight(st.frecs[i])
    requires Lookup(st.frecs, newId, crc, 0).None?
    ensures InvExcept(Begin(st, i, source, id, newId, crc, all), i)
  {
    hide Sockets;
    var r := Begin(st, i, source, id, newId, crc, all);
    SameSockets(st, i, r.frecs[i]);
    assert forall j :: 0 <= j < |st.frecs| ==> !Answers(st.frecs[j], newId, crc);
  }

  lemma OnQueryKeeps(st: State, e: Event)
    requires Inv(st) && e.Query? && Possible(st, e)
    ensures Inv(OnQuery(st, e))
  {
    hide InvExcept, GetNew, SendQuery, Lookup, LookupSender, Again, Begin, FreshId, Known;
    HasSocks(st, -1);
    match LookupSender(st.frecs, e.id, e.source, e.crc, 0)
    case Some(i) =>
      AgainKeeps(st, i, e.strict);
      AgainLive(st, i, e.strict);
      SendQueryKeeps(Again(st, i, e.strict), i, e.turns);
    case None =>
      GetNewInv(st, e.now, false, e.memory);
      GetNewSpares(st, e.now, e.memory);
      GetNewLive(st, e.now, e.memory);
      var g := GetNew(st, e.now, false, e.memory);
      if g.frec.Some? {
        var newId := FreshId(g.st.frecs, e.crc, e.draws);
        if newId.Some? {
          var b := Begin(g.st, g.frec.value, e.source, e.id, newId.value, e.crc, e.all);
          BeginKeeps(g.st, g.frec.value, e.source, e.id, newId.value, e.crc, e.all);
          BeginLive(g.st, g.frec.value, e.source, e.id, newId.value, e.crc, e.all);
          HasSocks(b, g.frec.value);
          SendQueryKeeps(b, g.frec.value, e.turns);
        }
      }
  }

  lemma HasSocks(st: State, busy: int)
    requires InvExcept(st, busy)
    ensures |st.socks| == RANDOM_SOCKS
  {
  }

  lemma AgainLive(st: State, i: nat, strict: bool)
    requires i < |st.frecs|
    ensures var r := Again(st, i, strict);
      r.live == st.live && r.socks == st.socks && |r.frecs| == |st.frecs|
  {
  }

  lemma BeginLive(st: State, i: nat, source: int, id: nat, newId: nat, crc: nat, all: bool)
    requires i < |st.frecs|
    ensures var r := Begin(st, i, source, id, newId, crc, all);
      r.live == st.live && r.socks == st.socks && |r.frecs| == |st.frecs|
  {
  }

  lemma GetNewLive(st: State, now: int, memory: bool)
    ensures GetNew(st, now, false, memory).st.live == st.live
  {
    SweepLive(Scan(st, None, None), now, 0);
  }

  lemma {:induction false} SweepLive(at: Scan, now: int, i: nat)
    requires at.oldest.Some? ==> at.oldest.value < |at.st.frecs|
    requires at.target.Some? ==> at.target.value < |at.st.frecs|
    ensures SweepFrom(at, now, i).st.live == at.st.live
    decreases |at.st.frecs| - i
  {
    if i < |at.st.frecs| {
      SweepLive(SweepStep(at, now, i), now, i + 1);
    }
  }

  lemma OnReplyKeeps(st: State, e: Event)
    requires Inv(st) && e.Reply? && Possible(st, e)
    ensures Inv(OnReply(st, e))
  {
    hide InvExcept, SendQuery, Lookup, Again, Free, Known;
    HasSocks(st, -1);
    match Lookup(st.frecs, e.replyId, e.replyCrc, 0)
    case None =>
    case Some(i) =>
      AgainKeeps(st, i, false);
      AgainLive(st, i, false);
      SendQueryKeeps(Again(st, i, false), i, e.turns);
      var f := st.frecs[i];
      var s := if e.special then st else st.(lastServer := GoodServer(f, e));
      SentToLive(st, i);
      if !e.special {
        LastServerKeeps(st, GoodServer(f, e));
      }
      var c := if f.forwardall == 0 then s else s.(frecs := s.frecs[i := f.(forwardall := f.forwardall - 1)]);
      CountDownKeeps(s, i);
      FreeAny(c, i);
  }

  lemma SentToLive(st: State, i: nat)
    requires Inv(st) && i < |st.frecs| && InFlight(st.frecs[i])
    ensures st.frecs[i].sentto.value in st.live
  {
  }

  lemma LastServerKeeps(st: State, last: Option<nat>)
    requires Inv(st) && (last.Some? ==> last.value in st.live)
    ensures Inv(st.(lastServer := last))
  {
  }

  lemma CountDownKeeps(st: State, i: nat)
    requires Inv(st) && i < |st.frecs|
    ensures Inv(st.(frecs := st.frecs[i := st.frecs[i].(forwardall := st.frecs[i].forwardall - 1)]))
  {
    SameSockets(st, i, st.frecs[i].(forwardall := st.frecs[i].forwardall - 1));
  }

  lemma {:induction false} DropKeeps(st: State, server: nat, i: nat)
    requires Inv(st) && i <= |st.frecs|
    requires forall j :: 0 <= j < i ==> st.frecs[j].sentto != Some(server)
    ensures var r := DropFrom(st, server, i);
      && Inv(r) && r.live == st.live && r.lastServer == st.lastServer
      && forall j :: 0 <= j < |r.frecs| ==> r.frecs[j].sentto != Some(server)
    decreases |st.frecs| - i
  {
    hide InvExcept, Release;
    if i < |st.frecs| {
      FreeAny(st, i);
      DropKeeps(if st.frecs[i].sentto == Some(server) then Free(st, i) else st, server, i + 1);
    }
  }

  lemma OnGoneKeeps(st: State, server: nat)
    requires Inv(st)
    ensures Inv(OnGone(st, server))
  {
    DropKeeps(st, server, 0);
    GoneFrom(DropFrom(st, server, 0), server);
  }

  lemma GoneFrom(s: State, server: nat)
    requires Inv(s) && forall j :: 0 <= j < |s.frecs| ==> s.frecs[j].sentto != Some(server)
    ensures Inv(s.(lastServer := if s.lastServer == Some(server) then None else s.lastServer,
                   live := s.live - {server}))
  {
  }

  lemma AddedKeeps(st: State, server: nat)
    requires Inv(st)
    ensures Inv(st.(live := st.live + {server}))
  {
  }

  lemma StepKeepsInv(st: State, e: Event)
    requires Inv(st) && Possible(st, e)
    ensures Inv(Step(st, e))
  {
    hide InvExcept, OnQuery, OnReply, OnGone, GetNew;
    HasSocks(st, -1);
    match e
    case Query(_, _, _, _, _, _, _, _, _, _, _) => OnQueryKeeps(st, e);
    case Reply(_, _, _, _, _, _, _, _) => OnReplyKeeps(st, e);
    case Gone(server) => OnGoneKeeps(st, server);
    case Added(server) => AddedKeeps(st, server);
    case Probe(now, memory) => GetNewInv(st, now, true, memory);
  }

  // ----- runs -----

  /** The table when nothing was asked yet. */
  function Start(ftabsize: nat, live: set<nat>, socks: seq<Sock>): State {
    State([], socks, 0, live, None, ftabsize)
  }

  predicate AllClosed(socks: seq<Sock>) {
    |socks| == RANDOM_SOCKS && forall s :: 0 <= s < RANDOM_SOCKS ==> socks[s].refcount == 0 && !socks[s].open
  }

  /** st' can be reached from st by the events. */
  ghost predicate Reaches(st: State, events: seq<Event>, st': State)
    requires |st.socks| == RANDOM_SOCKS
    decreases |events|
  {
    if events == [] then st' == st
    else
      var next := Step(st, events[0]);
      Possible(st, events[0]) && |next.socks| == RANDOM_SOCKS && Reaches(next, events[1..], st')
  }

  /** In every state a run can reach, each socket's count is its number of references and it is
      open exactly while there are any, the pairs in flight are distinct, no query refers to a
      server that is gone, and the table is no larger than one more than its size. */
  lemma {:induction false} RunKeepsInv(st: State, events: seq<Event>, st': State)
    requires Inv(st) && |st.socks| == RANDOM_SOCKS && Reaches(st, events, st')
    ensures Inv(st')
    decreases |events|
  {
    hide InvExcept, Step;
    if events != [] {
      StepKeepsInv(st, events[0]);
      RunKeepsInv(Step(st, events[0]), events[1..], st');
    }
  }

  lemma StartInv(ftabsize: nat, live: set<nat>, socks: seq<Sock>)
    requires AllClosed(socks)
    ensures Inv(Start(ftabsize, live, socks))
  {
  }

  // ----- what a new query does to the others -----

  lemma {:induction false} SendOthers(st: State, i: nat, turns: seq<Turn>, forwarded: bool, j: nat)
    requires |st.socks| == RANDOM_SOCKS && i < |st.frecs| && j < |st.frecs| && j != i
    ensures SendFrom(st, i, turns, forwarded).st.frecs[j] == st.frecs[j]
    decreases |turns|
  {
    hide AllocateSocket;
    if turns != [] {
      var t := turns[0];
      if !t.eligible {
        SendOthers(st, i, turns[1..], forwarded, j);
      } else {
        var a := if t.ownSocket then Attached(st, true) else Attach(st, i, t.v6, t.opens);
        if a.ok && !t.sends {
          SendOthers(a.st, i, turns[1..], forwarded, j);
        } else if a.ok {
          var s := SentTo(a.st, i, t.server);
          if s.frecs[i].forwardall != 0 {
            SendOthers(CountSend(s, i), i, turns[1..], true, j);
          }
        }
      }
    }
  }

  /** A query from a client leaves every other query younger than the timeout as it is. */
  lemma QuerySparesYoung(st: State, e: Event, i: nat)
    requires Inv(st) && e.Query? && |st.socks| == RANDOM_SOCKS
    requires i < |st.frecs| && Young(st.frecs[i], e.now)
    requires LookupSender(st.frecs, e.id, e.source, e.crc, 0) != Some(i)
    ensures var r := OnQuery(st, e);
      var shift := |r.frecs| - |st.frecs|;
      0 <= shift <= |r.frecs| - i && i + shift < |r.frecs| && r.frecs[i + shift] == st.frecs[i]
  {
    hide InvExcept, GetNew, LookupSender, FreshId, SendFrom, Release;
    match LookupSender(st.frecs, e.id, e.source, e.crc, 0)
    case Some(k) => SendOthers(Again(st, k, e.strict), k, e.turns, false, i);
    case None =>
      GetNewSpares(st, e.now, e.memory);
      var g := GetNew(st, e.now, false, e.memory);
      var shift: nat := |g.st.frecs| - |st.frecs|;
      assert g.st.frecs[i + shift] == st.frecs[i];
      var newId := FreshId(g.st.frecs, e.crc, e.draws);
      if !e.local && g.frec.Some? && newId.Some? && |g.st.socks| == RANDOM_SOCKS {
        var k := g.frec.value;
        SendOthers(Begin(g.st, k, e.source, e.id, newId.value, e.crc, e.all), k, e.turns, false, i + shift);
      }
  }
}
