/** Every reply is passed on to a client that asked, and to none more often than it asked. */
module ForwardClients {
  import opened Wrappers
  import opened Frecs
  import opened Forwarding
  import opened ForwardRuns
  import opened ForwardReplies

  // ----- counting records -----

  function Count(fs: seq<Frec>, p: Frec -> bool): nat {
    if fs == [] then 0 else (if p(fs[0]) then 1 else 0) + Count(fs[1..], p)
  }

  /** A property of queries in flight that does not depend on when they were asked. */
  ghost predicate OfQueries(p: Frec -> bool) {
    && (forall f :: p(f) ==> InFlight(f))
    && (forall f: Frec, now: int :: p(f.(time := now)) == p(f))
  }

  lemma {:induction false} CountUpdate(fs: seq<Frec>, i: nat, f: Frec, p: Frec -> bool)
    requires i < |fs|
    ensures Count(fs[i := f], p) == Count(fs, p) - (if p(fs[i]) then 1 else 0) + (if p(f) then 1 else 0)
    decreases i
  {
    if i == 0 {
      assert fs[0 := f][1..] == fs[1..];
    } else {
      assert fs[i := f][1..] == fs[1..][i - 1 := f];
      CountUpdate(fs[1..], i - 1, f, p);
    }
  }

  lemma FreeCount(st: State, i: nat, p: Frec -> bool)
    requires i < |st.frecs| && OfQueries(p)
    ensures Count(Free(st, i).frecs, p) == Count(st.frecs, p) - (if p(st.frecs[i]) then 1 else 0)
  {
    hide Release;
    CountUpdate(st.frecs, i, Freed(st.frecs[i]), p);
    assert !InFlight(Freed(st.frecs[i]));
  }

  lemma StampCount(st: State, i: nat, now: int, p: Frec -> bool)
    requires i < |st.frecs| && OfQueries(p)
    ensures Count(Stamp(st, i, now).frecs, p) == Count(st.frecs, p)
  {
    CountUpdate(st.frecs, i, st.frecs[i].(time := now), p);
  }

  lemma {:induction false} SweepCount(at: Scan, now: int, i: nat, p: Frec -> bool)
    requires at.oldest.Some? ==> at.oldest.value < |at.st.frecs|
    requires at.target.Some? ==> at.target.value < |at.st.frecs|
    requires OfQueries(p)
    ensures Count(SweepFrom(at, now, i).st.frecs, p) <= Count(at.st.frecs, p)
    decreases |at.st.frecs| - i
  {
    hide OfQueries, Count, Free;
    if i < |at.st.frecs| {
      FreeCount(at.st, i, p);
      SweepCount(SweepStep(at, now, i), now, i + 1, p);
    }
  }

  lemma GetNewCount(st: State, now: int, waiting: bool, memory: bool, p: Frec -> bool)
    requires OfQueries(p)
    ensures Count(GetNew(st, now, waiting, memory).st.frecs, p) <= Count(st.frecs, p)
  {
    hide SweepFrom, Free, Stamp, OfQueries, Count, Allocated;
    var s := SweepFrom(Scan(st, None, None), now, 0);
    SweepCount(Scan(st, None, None), now, 0, p);
    AllocatedCount(s.st, now, p);
    if s.target.Some? {
      StampCount(s.st, s.target.value, now, p);
    } else if s.oldest.Some? {
      FreeCount(s.st, s.oldest.value, p);
      FreeSize(s.st, s.oldest.value);
      StampCount(Free(s.st, s.oldest.value), s.oldest.value, now, p);
    }
  }

  lemma AllocatedCount(st: State, now: int, p: Frec -> bool)
    requires OfQueries(p)
    ensures Count(Allocated(st, now).frecs, p) == Count(st.frecs, p)
  {
    var fs := Allocated(st, now).frecs;
    assert fs[1..] == st.frecs && !InFlight(fs[0]);
  }

  lemma {:induction false} DropCount(st: State, server: nat, i: nat, p: Frec -> bool)
    requires OfQueries(p)
    ensures Count(DropFrom(st, server, i).frecs, p) <= Count(st.frecs, p)
    decreases |st.frecs| - i
  {
    hide OfQueries, Count, Free;
    if i < |st.frecs| {
      FreeCount(st, i, p);
      FreeSize(st, i);
      DropCount(if st.frecs[i].sentto == Some(server) then Free(st, i) else st, server, i + 1, p);
    }
  }

  // ----- the queries of one client -----

  function Of(c: Client): Frec -> bool {
    (f: Frec) => InFlight(f) && ClientOf(f) == c
  }

  lemma OfClient(c: Client)
    ensures OfQueries(Of(c))
  {
  }

  /** Sending a query of a client on makes it one in flight, or none. */
  lemma SendCount(st: State, i: nat, turns: seq<Turn>, c: Client)
    requires |st.socks| == RANDOM_SOCKS && i < |st.frecs|
    ensures Count(SendQuery(st, i, turns).st.frecs, Of(c)) <=
      Count(st.frecs, Of(c)) - (if Of(c)(st.frecs[i]) then 1 else 0) + (if ClientOf(st.frecs[i]) == c then 1 else 0)
  {
    hide SendFrom, Release, Count;
    SendChanges(st, i, turns, false);
    OfClient(c);
    var s := SendFrom(st, i, turns, false).st;
    assert s.frecs == st.frecs[i := s.frecs[i]];
    CountUpdate(st.frecs, i, s.frecs[i], Of(c));
    FreeCount(s, i, Of(c));
  }

  function Asks(e: Event, c: Client): nat {
    if e.Query? && Client(e.source, e.id, e.crc) == c then 1 else 0
  }

  function Passes(st: State, e: Event, c: Client): nat {
    if e.Reply? && PassedOn(st, e) == Some(c) then 1 else 0
  }

  lemma QueryBalances(st: State, e: Event, c: Client)
    requires Inv(st) && |st.socks| == RANDOM_SOCKS && e.Query?
    ensures Count(OnQuery(st, e).frecs, Of(c)) <= Count(st.frecs, Of(c)) + Asks(e, c)
  {
    hide InvExcept, GetNew, LookupSender, FreshId, SendQuery, Count;
    OfClient(c);
    match LookupSender(st.frecs, e.id, e.source, e.crc, 0)
    case Some(i) =>
      var a := Again(st, i, e.strict);
      if !e.strict {
        CountUpdate(st.frecs, i, a.frecs[i], Of(c));
      }
      SendCount(a, i, e.turns, c);
    case None =>
      var g := GetNew(st, e.now, false, e.memory);
      GetNewCount(st, e.now, false, e.memory, Of(c));
      GetNewSpares(st, e.now, e.memory);
      var newId := FreshId(g.st.frecs, e.crc, e.draws);
      if g.frec.Some? && newId.Some? && |g.st.socks| == RANDOM_SOCKS {
        var i := g.frec.value;
        var b := Begin(g.st, i, e.source, e.id, newId.value, e.crc, e.all);
        CountUpdate(g.st.frecs, i, b.frecs[i], Of(c));
        SendCount(b, i, e.turns, c);
      }
  }

  lemma ReplyBalances(st: State, e: Event, c: Client)
    requires Inv(st) && |st.socks| == RANDOM_SOCKS && e.Reply?
    ensures Count(OnReply(st, e).frecs, Of(c)) + Passes(st, e, c) <= Count(st.frecs, Of(c))
  {
    hide InvExcept, Lookup, SendQuery, Count, Release;
    OfClient(c);
    match Lookup(st.frecs, e.replyId, e.replyCrc, 0)
    case None =>
    case Some(i) =>
      var f := st.frecs[i];
      var a := Again(st, i, false);
      CountUpdate(st.frecs, i, a.frecs[i], Of(c));
      SendCount(a, i, e.turns, c);
      var less := f.(forwardall := f.forwardall - 1);
      CountUpdate(st.frecs, i, less, Of(c));
      CountUpdate(st.frecs, i, Freed(f), Of(c));
      CountUpdate(st.frecs, i, Freed(less), Of(c));
      assert st.frecs[i := less][i := Freed(less)] == st.frecs[i := Freed(less)];
  }

  /** In one step a client's queries in flight grow by at most what it asks, and shrink by what
      is passed on to it. */
  lemma StepBalances(st: State, e: Event, c: Client)
    requires Inv(st) && |st.socks| == RANDOM_SOCKS
    ensures Count(Step(st, e).frecs, Of(c)) + Passes(st, e, c) <= Count(st.frecs, Of(c)) + Asks(e, c)
  {
    hide InvExcept, OnQuery, OnReply, GetNew, Count, PassedOn, DropFrom, Of;
    OfClient(c);
    match e
    case Query(_, _, _, _, _, _, _, _, _, _, _) => QueryBalances(st, e, c);
    case Reply(_, _, _, _, _, _, _, _) => ReplyBalances(st, e, c);
    case Gone(server) => DropCount(st, server, 0, Of(c));
    case Added(_) =>
    case Probe(now, memory) => GetNewCount(st, now, true, memory, Of(c));
  }

  // ----- runs -----

  function Asked(events: seq<Event>, c: Client): nat {
    if events == [] then 0 else Asks(events[0], c) + Asked(events[1..], c)
  }

  function Answered(st: State, events: seq<Event>, c: Client): nat
    requires |st.socks| == RANDOM_SOCKS
    decreases |events|
  {
    if events == [] then 0
    else
      var next := Step(st, events[0]);
      Passes(st, events[0], c) + if |next.socks| == RANDOM_SOCKS then Answered(next, events[1..], c) else 0
  }

  /** Over every run, the replies passed on to a client and its queries still in flight are no
      more than it asked. */
  lemma {:induction false} RunBalances(st: State, events: seq<Event>, st': State, c: Client)
    requires Inv(st) && |st.socks| == RANDOM_SOCKS && Reaches(st, events, st')
    ensures Count(st'.frecs, Of(c)) + Answered(st, events, c) <= Count(st.frecs, Of(c)) + Asked(events, c)
    decreases |events|
  {
    hide InvExcept, Step, Count, Passes, Asks, Of;
    if events != [] {
      StepBalances(st, events[0], c);
      StepKeepsInv(st, events[0]);
      RunBalances(Step(st, events[0]), events[1..], st', c);
    }
  }

  /** From an empty table: nobody is answered more often than it asked with that id. */
  lemma NoSpareAnswers(ftabsize: nat, live: set<nat>, socks: seq<Sock>, events: seq<Event>, st': State, c: Client)
    requires AllClosed(socks) && Reaches(Start(ftabsize, live, socks), events, st')
    ensures Answered(Start(ftabsize, live, socks), events, c) <= Asked(events, c)
  {
    StartInv(ftabsize, live, socks);
    RunBalances(Start(ftabsize, live, socks), events, st', c);
  }

  // ----- one query of a client at a time -----

  lemma {:induction false} NotAsked(fs: seq<Frec>, id: nat, source: int, crc: nat, i: nat)
    requires i <= |fs| && LookupSender(fs, id, source, crc, i).None?
    ensures Count(fs[i..], Of(Client(source, id, crc))) == 0
    decreases |fs| - i
  {
    if i < |fs| {
      NotAsked(fs, id, source, crc, i + 1);
      assert fs[i..][1..] == fs[i + 1..] && fs[i..][0] == fs[i];
    }
  }

  lemma {:induction false} SomeCounted(fs: seq<Frec>, i: nat, p: Frec -> bool)
    requires i < |fs| && p(fs[i])
    ensures Count(fs, p) > 0
    decreases i
  {
    if i > 0 {
      SomeCounted(fs[1..], i - 1, p);
    }
  }

  /** Asked again, a query that is in flight takes no second record. */
  lemma QueryOnce(st: State, e: Event, c: Client)
    requires Inv(st) && |st.socks| == RANDOM_SOCKS && e.Query?
    requires Count(st.frecs, Of(c)) <= 1
    ensures Count(OnQuery(st, e).frecs, Of(c)) <= 1
  {
    hide InvExcept, GetNew, LookupSender, FreshId, SendQuery, Count;
    QueryBalances(st, e, c);
    if Client(e.source, e.id, e.crc) == c {
      match LookupSender(st.frecs, e.id, e.source, e.crc, 0) {
        case Some(i) =>
          var a := Again(st, i, e.strict);
          CountUpdate(st.frecs, i, a.frecs[i], Of(c));
          SendCount(a, i, e.turns, c);
        case None =>
          NotAsked(st.frecs, e.id, e.source, e.crc, 0);
          assert st.frecs[0..] == st.frecs;
      }
    }
  }

  /** At any time at most one query of a client with that id and question is in flight. */
  lemma {:induction false} OneInFlight(st: State, events: seq<Event>, st': State, c: Client)
    requires Inv(st) && |st.socks| == RANDOM_SOCKS && Reaches(st, events, st')
    requires Count(st.frecs, Of(c)) <= 1
    ensures Count(st'.frecs, Of(c)) <= 1
    decreases |events|
  {
    hide InvExcept, Step, Count, Passes, Of;
    if events != [] {
      StepKeepsInv(st, events[0]);
      StepOnce(st, events[0], c);
      OneInFlight(Step(st, events[0]), events[1..], st', c);
    }
  }

  lemma StepOnce(st: State, e: Event, c: Client)
    requires Inv(st) && |st.socks| == RANDOM_SOCKS && Count(st.frecs, Of(c)) <= 1
    ensures Count(Step(st, e).frecs, Of(c)) <= 1
  {
    hide InvExcept, OnQuery, OnReply, GetNew, Count, OnGone, Of;
    if e.Query? {
      QueryOnce(st, e, c);
    } else {
      StepBalances(st, e, c);
    }
  }

  /** After a query it is in flight, to be known when it is asked again, exactly if it was
      forwarded. */
  lemma ForwardedIsKnown(st: State, e: Event)
    requires Inv(st) && |st.socks| == RANDOM_SOCKS && e.Query? && Possible(st, e) && e.servers
    requires Count(st.frecs, Of(Client(e.source, e.id, e.crc))) <= 1
    ensures LookupSender(OnQuery(st, e).frecs, e.id, e.source, e.crc, 0).Some? <==> AskServers(st, e).forwarded
  {
    hide InvExcept, GetNew, LookupSender, FreshId, SendQuery, Count, Again, Begin, Known;
    var c := Client(e.source, e.id, e.crc);
    match LookupSender(st.frecs, e.id, e.source, e.crc, 0)
    case Some(i) =>
      AgainKeeps(st, i, e.strict);
      AgainLive(st, i, e.strict);
      AgainCount(st, i, e.strict, c);
      SendKnown(Again(st, i, e.strict), i, e.turns, c);
    case None =>
      NotAsked(st.frecs, e.id, e.source, e.crc, 0);
      assert st.frecs[0..] == st.frecs;
      OfClient(c);
      GetNewCount(st, e.now, false, e.memory, Of(c));
      GetNewInv(st, e.now, false, e.memory);
      GetNewSpares(st, e.now, e.memory);
      GetNewLive(st, e.now, e.memory);
      var g := GetNew(st, e.now, false, e.memory);
      NoneFound(g.st.frecs, c);
      NoneFound(st.frecs, c);
      var newId := FreshId(g.st.frecs, e.crc, e.draws);
      if !e.local && g.frec.Some? && newId.Some? {
        HasSocks(g.st, -1);
        var i := g.frec.value;
        BeginKeeps(g.st, i, e.source, e.id, newId.value, e.crc, e.all);
        BeginLive(g.st, i, e.source, e.id, newId.value, e.crc, e.all);
        BeginCount(g.st, i, e, newId.value);
        SendKnown(Begin(g.st, i, e.source, e.id, newId.value, e.crc, e.all), i, e.turns, c);
      }
  }

  /** The query of e, sent just now under an id that was drawn for it. */
  predicate IsNew(f: Frec, e: Event)
    requires e.Query?
  {
    InFlight(f) && ClientOf(f) == Client(e.source, e.id, e.crc) && f.time == e.now && f.newId in e.draws
  }

  /** A query asked for the first time and forwarded is as young as can be: for TIMEOUT seconds no
      other query takes its record (QuerySparesYoung). */
  lemma ForwardedIsYoung(st: State, e: Event)
    requires Inv(st) && |st.socks| == RANDOM_SOCKS && e.Query? && Possible(st, e)
    requires LookupSender(st.frecs, e.id, e.source, e.crc, 0).None? && AskServers(st, e).forwarded
    ensures var r := OnQuery(st, e);
      exists i :: 0 <= i < |r.frecs| && IsNew(r.frecs[i], e)
  {
    hide InvExcept, GetNew, LookupSender, FreshId, SendFrom, Free, Begin, Known;
    var g := GetNew(st, e.now, false, e.memory);
    GetNewInv(st, e.now, false, e.memory);
    GetNewSpares(st, e.now, e.memory);
    GetNewLive(st, e.now, e.memory);
    GotNow(st, e.now, e.memory);
    var newId := FreshId(g.st.frecs, e.crc, e.draws);
    var i := g.frec.value;
    BeginKeeps(g.st, i, e.source, e.id, newId.value, e.crc, e.all);
    BeginLive(g.st, i, e.source, e.id, newId.value, e.crc, e.all);
    BeginIs(g.st, i, e, newId.value);
    var b := Begin(g.st, i, e.source, e.id, newId.value, e.crc, e.all);
    SendChanges(b, i, e.turns, false);
    SendFromKeeps(b, i, e.turns, false);
    var s := SendFrom(b, i, e.turns, false);
    assert OnQuery(st, e) == s.st && s.forwarded;
    assert IsNew(s.st.frecs[i], e);
  }

  lemma BeginIs(st: State, i: nat, e: Event, newId: nat)
    requires e.Query? && i < |st.frecs|
    ensures var f := Begin(st, i, e.source, e.id, newId, e.crc, e.all).frecs[i];
      f.source == e.source && f.origId == e.id && f.crc == e.crc && f.newId == newId && f.time == st.frecs[i].time
  {
  }

  lemma GotNow(st: State, now: int, memory: bool)
    ensures var g := GetNew(st, now, false, memory);
      g.frec.Some? ==> g.st.frecs[g.frec.value].time == now
  {
    hide SweepFrom, Release;
  }

  lemma AgainCount(st: State, i: nat, strict: bool, c: Client)
    requires i < |st.frecs| && Of(c)(st.frecs[i])
    ensures var r := Again(st, i, strict); Of(c)(r.frecs[i]) && Count(r.frecs, Of(c)) == Count(st.frecs, Of(c))
  {
    hide Count;
    CountUpdate(st.frecs, i, Again(st, i, strict).frecs[i], Of(c));
  }

  lemma BeginCount(st: State, i: nat, e: Event, newId: nat)
    requires e.Query? && i < |st.frecs| && !InFlight(st.frecs[i])
    ensures var r, c := Begin(st, i, e.source, e.id, newId, e.crc, e.all), Client(e.source, e.id, e.crc);
      !InFlight(r.frecs[i]) && ClientOf(r.frecs[i]) == c && Count(r.frecs, Of(c)) == Count(st.frecs, Of(c))
  {
    hide Count;
    var r := Begin(st, i, e.source, e.id, newId, e.crc, e.all);
    CountUpdate(st.frecs, i, r.frecs[i], Of(Client(e.source, e.id, e.crc)));
  }

  lemma NoneFound(fs: seq<Frec>, c: Client)
    requires Count(fs, Of(c)) == 0
    ensures LookupSender(fs, c.id, c.source, c.question, 0).None?
  {
    hide LookupSender, Count;
    var found := LookupSender(fs, c.id, c.source, c.question, 0);
    if found.Some? {
      SomeCounted(fs, found.value, Of(c));
    }
  }

  /** When no other record is this client's, it has one after sending exactly if that worked. */
  lemma SendKnown(st: State, i: nat, turns: seq<Turn>, c: Client)
    requires InvExcept(st, i) && i < |st.frecs| && |st.socks| == RANDOM_SOCKS && Known(turns, st.live)
    requires ClientOf(st.frecs[i]) == c && Count(st.frecs, Of(c)) <= if InFlight(st.frecs[i]) then 1 else 0
    ensures var r := SendQuery(st, i, turns);
      LookupSender(r.st.frecs, c.id, c.source, c.question, 0).Some? <==> r.forwarded
  {
    hide InvExcept, LookupSender, SendFrom, Count, Release, Known;
    var s := SendFrom(st, i, turns, false);
    SendChanges(st, i, turns, false);
    SendFromKeeps(st, i, turns, false);
    assert s.st.frecs == st.frecs[i := s.st.frecs[i]];
    CountUpdate(st.frecs, i, s.st.frecs[i], Of(c));
    if s.forwarded {
      var found := LookupSender(s.st.frecs, c.id, c.source, c.question, 0);
      if found.None? {
        NotAsked(s.st.frecs, c.id, c.source, c.question, 0);
        assert s.st.frecs[0..] == s.st.frecs;
        SomeCounted(s.st.frecs, i, Of(c));
      }
    } else {
      OfClient(c);
      FreeCount(s.st, i, Of(c));
      NoneFound(Free(s.st, i).frecs, c);
    }
  }

  // ----- how many replies a query waits for -----

  /** Sent to several servers, but waiting for no other bad reply. */
  function Overdue(): Frec -> bool {
    (f: Frec) => InFlight(f) && f.forwardall != 0 && f.forwardall < 2
  }

  lemma OverdueQueries()
    ensures OfQueries(Overdue())
  {
  }

  lemma SendWaits(st: State, i: nat, turns: seq<Turn>)
    requires |st.socks| == RANDOM_SOCKS && i < |st.frecs| && st.frecs[i].forwardall >= 0
    ensures Count(SendQuery(st, i, turns).st.frecs, Overdue())
      <= Count(st.frecs, Overdue()) - if Overdue()(st.frecs[i]) then 1 else 0
  {
    hide SendFrom, Release, Count, Reached;
    SendChanges(st, i, turns, false);
    OverdueQueries();
    var s := SendFrom(st, i, turns, false).st;
    assert s.frecs == st.frecs[i := s.frecs[i]];
    CountUpdate(st.frecs, i, s.frecs[i], Overdue());
    FreeCount(s, i, Overdue());
    if st.frecs[i].forwardall == 0 {
      var _ := SendFirst(st, i, turns);
    } else {
      var _ := SendCounts(st, i, turns, false);
    }
  }

  lemma NoneOverdue(fs: seq<Frec>, i: nat)
    requires i < |fs| && InFlight(fs[i]) && Count(fs, Overdue()) == 0
    ensures fs[i].forwardall == 0 || fs[i].forwardall >= 2
  {
    hide Count;
    if Overdue()(fs[i]) {
      SomeCounted(fs, i, Overdue());
    }
  }

  lemma QueryWaits(st: State, e: Event)
    requires Inv(st) && |st.socks| == RANDOM_SOCKS && e.Query? && Count(st.frecs, Overdue()) == 0
    ensures Count(OnQuery(st, e).frecs, Overdue()) == 0
  {
    hide InvExcept, GetNew, LookupSender, FreshId, SendQuery, Count;
    OverdueQueries();
    match LookupSender(st.frecs, e.id, e.source, e.crc, 0)
    case Some(i) =>
      var a := Again(st, i, e.strict);
      NoneOverdue(st.frecs, i);
      CountUpdate(st.frecs, i, a.frecs[i], Overdue());
      SendWaits(a, i, e.turns);
    case None =>
      var g := GetNew(st, e.now, false, e.memory);
      GetNewCount(st, e.now, false, e.memory, Overdue());
      GetNewSpares(st, e.now, e.memory);
      var newId := FreshId(g.st.frecs, e.crc, e.draws);
      if g.frec.Some? && newId.Some? && |g.st.socks| == RANDOM_SOCKS {
        var i := g.frec.value;
        var b := Begin(g.st, i, e.source, e.id, newId.value, e.crc, e.all);
        CountUpdate(g.st.frecs, i, b.frecs[i], Overdue());
        SendWaits(b, i, e.turns);
      }
  }

  lemma ReplyWaits(st: State, e: Event)
    requires Inv(st) && |st.socks| == RANDOM_SOCKS && e.Reply? && Count(st.frecs, Overdue()) == 0
    ensures Count(OnReply(st, e).frecs, Overdue()) == 0
  {
    hide InvExcept, Lookup, SendQuery, Count, Release;
    OverdueQueries();
    match Lookup(st.frecs, e.replyId, e.replyCrc, 0)
    case None =>
    case Some(i) =>
      var f := st.frecs[i];
      var a := Again(st, i, false);
      NoneOverdue(st.frecs, i);
      CountUpdate(st.frecs, i, a.frecs[i], Overdue());
      SendWaits(a, i, e.turns);
      var less := f.(forwardall := f.forwardall - 1);
      CountUpdate(st.frecs, i, less, Overdue());
      CountUpdate(st.frecs, i, Freed(f), Overdue());
      CountUpdate(st.frecs, i, Freed(less), Overdue());
      assert st.frecs[i := less][i := Freed(less)] == st.frecs[i := Freed(less)];
  }

  lemma StepWaits(st: State, e: Event)
    requires Inv(st) && |st.socks| == RANDOM_SOCKS && Count(st.frecs, Overdue()) == 0
    ensures Count(Step(st, e).frecs, Overdue()) == 0
  {
    hide InvExcept, OnQuery, OnReply, GetNew, Count, DropFrom, Overdue;
    OverdueQueries();
    match e
    case Query(_, _, _, _, _, _, _, _, _, _, _) => QueryWaits(st, e);
    case Reply(_, _, _, _, _, _, _, _) => ReplyWaits(st, e);
    case Gone(server) => DropCount(st, server, 0, Overdue());
    case Added(_) =>
    case Probe(now, memory) => GetNewCount(st, now, true, memory, Overdue());
  }

  /** In every state a run can reach, a query in flight was sent to one server, or it waits for
      at least one more bad reply. */
  lemma {:induction false} RunWaits(st: State, events: seq<Event>, st': State)
    requires Inv(st) && |st.socks| == RANDOM_SOCKS && Reaches(st, events, st')
    requires Count(st.frecs, Overdue()) == 0
    ensures Count(st'.frecs, Overdue()) == 0
    ensures forall i :: 0 <= i < |st'.frecs| && InFlight(st'.frecs[i]) ==>
      st'.frecs[i].forwardall == 0 || st'.frecs[i].forwardall >= 2
    decreases |events|
  {
    hide InvExcept, Step, Count, Overdue;
    if events != [] {
      StepWaits(st, events[0]);
      StepKeepsInv(st, events[0]);
      RunWaits(Step(st, events[0]), events[1..], st');
    } else {
      forall i | 0 <= i < |st'.frecs| && InFlight(st'.frecs[i])
        ensures st'.frecs[i].forwardall == 0 || st'.frecs[i].forwardall >= 2
      {
        NoneOverdue(st'.frecs, i);
      }
    }
  }
}
