/** What a query, a reply and the loss of a server do to the table. */
module Forwarding {
  import opened Wrappers
  import opened Frecs

  // ----- get_new_frec -----

  /** The scan for a free record and for the oldest one. */
  datatype Scan = Scan(st: State, target: Option<nat>, oldest: Option<nat>)

  function SweepFrom(at: Scan, now: int, i: nat): (r: Scan)
    requires at.oldest.Some? ==> at.oldest.value < |at.st.frecs|
    requires at.target.Some? ==> at.target.value < |at.st.frecs|
    ensures |r.st.frecs| == |at.st.frecs|
    ensures r.oldest.Some? ==> r.oldest.value < |r.st.frecs|
    ensures r.target.Some? ==> r.target.value < |r.st.frecs|
    decreases |at.st.frecs| - i
  {
    if i >= |at.st.frecs| then at
    else SweepFrom(SweepStep(at, now, i), now, i + 1)
  }

  function SweepStep(at: Scan, now: int, i: nat): (r: Scan)
    requires at.oldest.Some? ==> at.oldest.value < |at.st.frecs|
    requires i < |at.st.frecs|
    ensures |r.st.frecs| == |at.st.frecs|
    ensures r.oldest.Some? ==> r.oldest.value < |r.st.frecs|
    ensures at.target.Some? && at.target.value < |at.st.frecs| ==> r.target.Some? && r.target.value < |r.st.frecs|
    ensures r.target.Some? ==> r.target == at.target || r.target == Some(i)
  {
    var f := at.st.frecs[i];
    if !InFlight(f) then at.(target := Some(i)) else
    var eldest := if at.oldest.None? || f.time <= at.st.frecs[at.oldest.value].time then Some(i) else at.oldest;
    if now - f.time >= 4 * TIMEOUT then Scan(Free(at.st, i), Some(i), eldest)
    else at.(oldest := eldest)
  }

  function Stamp(st: State, i: nat, now: int): State
    requires i < |st.frecs|
  {
    st.(frecs := st.frecs[i := st.frecs[i].(time := now)])
  }

  /** allocate_frec: in front of the others. */
  function Allocated(st: State, now: int): State {
    st.(frecs := [Frec(0, 0, 0, 0, None, None, None, now, 0)] + st.frecs)
  }

  datatype NewFrec = NewFrec(st: State, frec: Option<nat>, wait: int)

  /** get_new_frec. With waiting nothing but the oldest queries is freed, and the answer may be
      a record that is still in flight; memory says whether one can be allocated. */
  function GetNew(st: State, now: int, waiting: bool, memory: bool): (r: NewFrec)
    ensures r.frec.Some? ==> r.frec.value < |r.st.frecs|
  {
    var s := SweepFrom(Scan(st, None, None), now, 0);
    if s.target.Some? then NewFrec(Stamp(s.st, s.target.value, now), s.target, 0)
    else if s.oldest.Some? && now - s.st.frecs[s.oldest.value].time >= TIMEOUT then
      var o := s.oldest.value;
      if now - s.st.frecs[o].time < 2 * TIMEOUT && |st.frecs| <= st.ftabsize && memory
      then NewFrec(Allocated(s.st, now), Some(0), 0)
      else NewFrec(if waiting then s.st else Stamp(Free(s.st, o), o, now), s.oldest, 0)
    else if |st.frecs| > st.ftabsize then
      NewFrec(s.st, None, if waiting && s.oldest.Some? then s.st.frecs[s.oldest.value].time + TIMEOUT - now else 0)
    else if memory then NewFrec(Allocated(s.st, now), Some(0), 0)
    else NewFrec(s.st, None, if waiting then 1 else 0)
  }

  // ----- what the scan keeps -----

  predicate Young(f: Frec, now: int) {
    InFlight(f) && now - f.time < TIMEOUT
  }

  /** Queries younger than the timeout are the same in both, shift places further on. */
  predicate YoungKept(st: State, st': State, now: int, shift: nat) {
    forall i :: 0 <= i < |st.frecs| && Young(st.frecs[i], now) ==>
      i + shift < |st'.frecs| && st'.frecs[i + shift] == st.frecs[i]
  }

  /** How the scan stands before record i. */
  ghost predicate Scanned(st: State, at: Scan, now: int, i: nat) {
    && |at.st.frecs| == |st.frecs| && at.st.ftabsize == st.ftabsize && i <= |st.frecs|
    && (at.target.Some? ==> at.target.value < i && !InFlight(at.st.frecs[at.target.value]))
    && (at.oldest.Some? ==> at.oldest.value < i)
    && (forall j :: i <= j < |st.frecs| ==> at.st.frecs[j] == st.frecs[j])
    && (forall j :: 0 <= j < i ==>
          (at.st.frecs[j] == st.frecs[j]
           || (InFlight(st.frecs[j]) && now - st.frecs[j].time >= 4 * TIMEOUT && at.target.Some?)))
    && (at.target.None? ==> forall j :: 0 <= j < i ==> InFlight(at.st.frecs[j]))
    && (at.target.None? && i > 0 ==> at.oldest.Some?)
    && (at.target.None? && at.oldest.Some? ==>
          forall j :: 0 <= j < i ==> at.st.frecs[at.oldest.value].time <= at.st.frecs[j].time)
  }

  lemma StepKeeps(st: State, at: Scan, now: int, i: nat)
    requires Scanned(st, at, now, i) && i < |st.frecs| && Inv(at.st)
    ensures Scanned(st, SweepStep(at, now, i), now, i + 1) && Inv(SweepStep(at, now, i).st)
  {
    hide Inv;
    var f := at.st.frecs[i];
    if InFlight(f) && now - f.time >= 4 * TIMEOUT {
      FreeAny(at.st, i);
    }
  }

  lemma FreeAny(st: State, i: nat)
    requires Inv(st) && i < |st.frecs|
    ensures Inv(Free(st, i))
  {
    FreeKeeps(st, i, -1);
  }

  lemma {:induction false} SweepKeeps(st: State, at: Scan, now: int, i: nat)
    requires Scanned(st, at, now, i) && Inv(at.st)
    ensures Scanned(st, SweepFrom(at, now, i), now, |st.frecs|) && Inv(SweepFrom(at, now, i).st)
    decreases |st.frecs| - i
  {
    hide Inv, SweepStep;
    if i < |st.frecs| {
      StepKeeps(st, at, now, i);
      ScanBounds(st, at, now, i);
      SweepKeeps(st, SweepStep(at, now, i), now, i + 1);
    }
  }

  lemma ScanBounds(st: State, at: Scan, now: int, i: nat)
    requires Scanned(st, at, now, i)
    ensures at.oldest.Some? ==> at.oldest.value < |at.st.frecs|
    ensures at.target.Some? ==> at.target.value < |at.st.frecs|
  {
  }

  // ----- small changes -----

  lemma StampKeeps(st: State, i: nat, now: int)
    requires Inv(st) && i < |st.frecs|
    ensures Inv(Stamp(st, i, now))
  {
    var r := Stamp(st, i, now);
    forall s | 0 <= s < RANDOM_SOCKS ensures Refs(r.frecs, s) == Refs(st.frecs, s) {
      RefsUpdate(st.frecs, i, r.frecs[i], s);
    }
    assert forall j :: 0 <= j < |r.frecs| ==> RightFamily(st.frecs[j], st.socks);
  }

  lemma AllocatedKeeps(st: State, now: int)
    requires Inv(st) && |st.frecs| <= st.ftabsize
    ensures Inv(Allocated(st, now))
  {
    var r := Allocated(st, now);
    assert r.frecs[1..] == st.frecs;
    assert forall j :: 1 <= j < |r.frecs| ==> r.frecs[j] == st.frecs[j - 1];
    forall j | 0 <= j < |r.frecs| ensures RightFamily(r.frecs[j], r.socks) {
      assert j > 0 ==> RightFamily(st.frecs[j - 1], st.socks);
    }
  }

  // ----- what get_new_frec promises -----

  lemma GetNewInv(st: State, now: int, waiting: bool, memory: bool)
    requires Inv(st)
    ensures Inv(GetNew(st, now, waiting, memory).st)
  {
    hide Inv, SweepFrom, Stamp, Free, Allocated;
    var s := SweepFrom(Scan(st, None, None), now, 0);
    SweepKeeps(st, Scan(st, None, None), now, 0);
    if s.target.Some? {
      StampKeeps(s.st, s.target.value, now);
    } else {
      if s.oldest.Some? {
        FreeAny(s.st, s.oldest.value);
        FreeSize(s.st, s.oldest.value);
        StampKeeps(Free(s.st, s.oldest.value), s.oldest.value, now);
      }
      if |st.frecs| <= st.ftabsize {
        AllocatedKeeps(s.st, now);
      }
    }
  }

  lemma FreeSize(st: State, i: nat)
    requires i < |st.frecs|
    ensures |Free(st, i).frecs| == |st.frecs|
  {
  }

  lemma AllocatedYoung(st: State, at: Scan, now: int)
    requires Scanned(st, at, now, |st.frecs|)
    ensures var r := Allocated(at.st, now);
      |r.frecs| == |st.frecs| + 1 && !InFlight(r.frecs[0]) && YoungKept(st, r, now, 1)
  {
    var a := Allocated(at.st, now);
    assert forall j :: 0 <= j < |st.frecs| ==> a.frecs[j + 1] == at.st.frecs[j];
  }

  /** Taking a record that is free or old. */
  lemma TakenYoung(st: State, at: Scan, now: int, t: nat, st': State)
    requires Scanned(st, at, now, |st.frecs|) && t < |st.frecs|
    requires !InFlight(at.st.frecs[t]) || now - at.st.frecs[t].time >= TIMEOUT
    requires st' == Stamp(if InFlight(at.st.frecs[t]) then Free(at.st, t) else at.st, t, now)
    ensures |st'.frecs| == |st.frecs| && !InFlight(st'.frecs[t]) && YoungKept(st, st', now, 0)
  {
    hide Release;
  }

  lemma ScanFacts(st: State, at: Scan, now: int)
    requires Scanned(st, at, now, |st.frecs|)
    ensures |at.st.frecs| == |st.frecs| && YoungKept(st, at.st, now, 0)
    ensures at.target.Some? ==> at.target.value < |st.frecs| && !InFlight(at.st.frecs[at.target.value])
    ensures at.target.None? && at.oldest.Some? ==>
      at.oldest.value < |st.frecs| && InFlight(at.st.frecs[at.oldest.value])
  {
  }

  /** The ways get_new_frec ends: with a record of the table taken over, with a new one, or with
      the table as the scan left it. */
  datatype Way = Reuse(frec: nat) | Extend | Leave

  lemma GetNewWay(st: State, now: int, waiting: bool, memory: bool) returns (way: Way)
    requires Scanned(st, SweepFrom(Scan(st, None, None), now, 0), now, |st.frecs|)
    ensures var r := GetNew(st, now, waiting, memory);
      var s := SweepFrom(Scan(st, None, None), now, 0);
      match way
      case Reuse(t) =>
        && t < |s.st.frecs| && r.frec == Some(t)
        && (!InFlight(s.st.frecs[t]) || now - s.st.frecs[t].time >= TIMEOUT)
        && |Free(s.st, t).frecs| == |s.st.frecs|
        && r.st == Stamp(if InFlight(s.st.frecs[t]) then Free(s.st, t) else s.st, t, now)
      case Extend => r.frec == Some(0) && r.st == Allocated(s.st, now)
      case Leave => r.st == s.st && (waiting || r.frec.None?)
  {
    hide SweepFrom, Free, Stamp, Allocated;
    var s := SweepFrom(Scan(st, None, None), now, 0);
    ScanFacts(st, s, now);
    if s.target.Some? {
      FreeSize(s.st, s.target.value);
      way := Reuse(s.target.value);
    } else if GetNew(st, now, waiting, memory).st == Allocated(s.st, now)
      && GetNew(st, now, waiting, memory).frec == Some(0) {
      way := Extend;
    } else if s.oldest.Some? && now - s.st.frecs[s.oldest.value].time >= TIMEOUT && !waiting {
      FreeSize(s.st, s.oldest.value);
      way := Reuse(s.oldest.value);
    } else {
      way := Leave;
    }
  }

  lemma StartScan(st: State, now: int)
    ensures Scanned(st, Scan(st, None, None), now, 0)
  {
  }

  /** The record got is free, and a query younger than the timeout is never touched. */
  predicate Spares(st: State, r: NewFrec, now: int) {
    && (r.frec.Some? ==> r.frec.value < |r.st.frecs| && !InFlight(r.st.frecs[r.frec.value]))
    && |r.st.frecs| >= |st.frecs|
    && YoungKept(st, r.st, now, |r.st.frecs| - |st.frecs|)
  }

  lemma GetNewSpares(st: State, now: int, memory: bool)
    requires Inv(st)
    ensures Spares(st, GetNew(st, now, false, memory), now)
  {
    hide Inv, SweepFrom, YoungKept, Free, Stamp, Allocated, Scanned, InFlight, GetNew;
    var s := SweepFrom(Scan(st, None, None), now, 0);
    StartScan(st, now);
    SweepKeeps(st, Scan(st, None, None), now, 0);
    ScanFacts(st, s, now);
    AllocatedYoung(st, s, now);
    var way := GetNewWay(st, now, false, memory);
    if way.Reuse? {
      TakenYoung(st, s, now, way.frec, GetNew(st, now, false, memory).st);
    }
  }

  /** While waiting, too. */
  lemma GetNewWaits(st: State, now: int, memory: bool)
    requires Inv(st)
    ensures var r := GetNew(st, now, true, memory).st;
      |r.frecs| >= |st.frecs| && YoungKept(st, r, now, |r.frecs| - |st.frecs|)
  {
    hide Inv, SweepFrom, YoungKept, Free, Stamp, Allocated, Scanned, InFlight, GetNew;
    var s := SweepFrom(Scan(st, None, None), now, 0);
    StartScan(st, now);
    SweepKeeps(st, Scan(st, None, None), now, 0);
    ScanFacts(st, s, now);
    AllocatedYoung(st, s, now);
    var way := GetNewWay(st, now, true, memory);
    if way.Reuse? {
      TakenYoung(st, s, now, way.frec, GetNew(st, now, true, memory).st);
    }
  }

  /** When a query in flight has to give way although none is four times as old as the
      timeout, it is an oldest one, at least as old as the timeout, and either twice as old or
      the table is full or memory is short. */
  lemma GivesWay(st: State, now: int, memory: bool, i: nat)
    requires Inv(st) && i < |st.frecs| && InFlight(st.frecs[i]) && now - st.frecs[i].time < 4 * TIMEOUT
    ensures var r := GetNew(st, now, false, memory);
      r.frec == Some(i) && |r.st.frecs| == |st.frecs| ==>
        && (forall j :: 0 <= j < |st.frecs| ==> InFlight(st.frecs[j]) && st.frecs[i].time <= st.frecs[j].time)
        && now - st.frecs[i].time >= TIMEOUT
        && (now - st.frecs[i].time >= 2 * TIMEOUT || |st.frecs| > st.ftabsize || !memory)
  {
    hide Inv, SweepFrom;
    var s := SweepFrom(Scan(st, None, None), now, 0);
    SweepKeeps(st, Scan(st, None, None), now, 0);
  }

  // ----- looking up -----

  /** lookup_frec: by id, and by checksum unless that is all ones. */
  predicate Answers(f: Frec, id: nat, crc: nat) {
    InFlight(f) && f.newId == id && (f.crc == crc || crc == NO_CRC)
  }

  function Lookup(fs: seq<Frec>, id: nat, crc: nat, i: nat): (r: Option<nat>)
    ensures r.Some? ==> i <= r.value < |fs| && Answers(fs[r.value], id, crc)
    ensures r.None? ==> forall j :: i <= j < |fs| ==> !Answers(fs[j], id, crc)
    decreases |fs| - i
  {
    if i >= |fs| then None else if Answers(fs[i], id, crc) then Some(i) else Lookup(fs, id, crc, i + 1)
  }

  predicate Asked(f: Frec, id: nat, source: int, crc: nat) {
    InFlight(f) && f.origId == id && f.crc == crc && f.source == source
  }

  function LookupSender(fs: seq<Frec>, id: nat, source: int, crc: nat, i: nat): (r: Option<nat>)
    ensures r.Some? ==> i <= r.value < |fs| && Asked(fs[r.value], id, source, crc)
    decreases |fs| - i
  {
    if i >= |fs| then None
    else if Asked(fs[i], id, source, crc) then Some(i)
    else LookupSender(fs, id, source, crc, i + 1)
  }

  /** A reply whose checksum is known can be the answer to one query only. */
  lemma OneAnswer(st: State, id: nat, crc: nat, i: nat, j: nat)
    requires Inv(st) && crc != NO_CRC && i < |st.frecs| && j < |st.frecs|
    requires Answers(st.frecs[i], id, crc) && Answers(st.frecs[j], id, crc)
    ensures i == j
  {
  }

  /** get_id: the first of the numbers drawn that no query with this checksum uses. */
  function FreshId(fs: seq<Frec>, crc: nat, draws: seq<nat>): (r: Option<nat>)
    ensures r.Some? ==> r.value in draws && Lookup(fs, r.value, crc, 0).None?
  {
    if draws == [] then None
    else if Lookup(fs, draws[0], crc, 0).None? then Some(draws[0])
    else FreshId(fs, crc, draws[1..])
  }

  // ----- sending -----

  /** One server in the order they are tried: whether it is for the query's domain, whether it
      has a socket of its own, its family, and what opening a socket and sending come to. */
  datatype Turn = Turn(server: nat, eligible: bool, ownSocket: bool, v6: bool, opens: bool, sends: bool)

  datatype Sent = Sent(st: State, forwarded: bool)

  function SentTo(st: State, i: nat, server: nat): State
    requires i < |st.frecs|
  {
    st.(frecs := st.frecs[i := st.frecs[i].(sentto := Some(server))])
  }

  function CountSend(st: State, i: nat): State
    requires i < |st.frecs|
  {
    st.(frecs := st.frecs[i := st.frecs[i].(forwardall := st.frecs[i].forwardall + 1)])
  }

  /** The loop of forward_query over the servers. */
  function SendFrom(st: State, i: nat, turns: seq<Turn>, forwarded: bool): (r: Sent)
    requires |st.socks| == RANDOM_SOCKS && i < |st.frecs|
    ensures |r.st.frecs| == |st.frecs| && |r.st.socks| == RANDOM_SOCKS
    decreases |turns|
  {
    if turns == [] then Sent(st, forwarded)
    else if !turns[0].eligible then SendFrom(st, i, turns[1..], forwarded)
    else
      var t := turns[0];
      var a := if t.ownSocket then Attached(st, true) else Attach(st, i, t.v6, t.opens);
      if !a.ok then Sent(a.st, forwarded)
      else if !t.sends then SendFrom(a.st, i, turns[1..], forwarded)
      else
        var s := SentTo(a.st, i, t.server);
        if s.frecs[i].forwardall == 0 then Sent(s, true)
        else SendFrom(CountSend(s, i), i, turns[1..], true)
  }

  /** Sending, and cancelling when no server could be reached. */
  function SendQuery(st: State, i: nat, turns: seq<Turn>): (r: Sent)
    requires |st.socks| == RANDOM_SOCKS && i < |st.frecs|
    ensures |r.st.frecs| == |st.frecs|
  {
    var s := SendFrom(st, i, turns, false);
    if s.forwarded then s else Sent(Free(s.st, i), false)
  }

  predicate Known(turns: seq<Turn>, live: set<nat>) {
    forall k :: 0 <= k < |turns| ==> turns[k].server in live
  }

  /** While record i is being sent it has its pair and may hold sockets before it is in
      flight. */
  lemma AttachKeeps(st: State, i: nat, v6: bool, opens: bool)
    requires InvExcept(st, i) && i < |st.frecs|
    ensures InvExcept(Attach(st, i, v6, opens).st, i)
    ensures InFlight(Attach(st, i, v6, opens).st.frecs[i]) == InFlight(st.frecs[i])
  {
    hide Sockets, AllocateSocket;
    AttachSockets(st, i, v6, opens);
  }

  lemma SentToKeeps(st: State, i: nat, server: nat)
    requires InvExcept(st, i) && i < |st.frecs| && server in st.live
    ensures InvExcept(SentTo(st, i, server), i) && Inv(SentTo(st, i, server))
  {
    SameSockets(st, i, st.frecs[i].(sentto := Some(server)));
  }

  lemma CountSendKeeps(st: State, i: nat)
    requires InvExcept(st, i) && i < |st.frecs|
    ensures InvExcept(CountSend(st, i), i)
    ensures InFlight(st.frecs[i]) ==> Inv(CountSend(st, i))
  {
    SameSockets(st, i, st.frecs[i].(forwardall := st.frecs[i].forwardall + 1));
  }

  /** A change of a record that keeps its sockets. */
  lemma SameSockets(st: State, i: nat, f: Frec)
    requires Sockets(st) && i < |st.frecs| && f.rfd4 == st.frecs[i].rfd4 && f.rfd6 == st.frecs[i].rfd6
    ensures Sockets(st.(frecs := st.frecs[i := f]))
  {
    var r := st.(frecs := st.frecs[i := f]);
    forall s | 0 <= s < RANDOM_SOCKS ensures Refs(r.frecs, s) == Refs(st.frecs, s) {
      RefsUpdate(st.frecs, i, f, s);
    }
    assert RightFamily(st.frecs[i], st.socks);
  }

  lemma {:induction false} SendFromKeeps(st: State, i: nat, turns: seq<Turn>, forwarded: bool)
    requires InvExcept(st, i) && i < |st.frecs| && |st.socks| == RANDOM_SOCKS && Known(turns, st.live)
    requires forwarded ==> InFlight(st.frecs[i])
    ensures var r := SendFrom(st, i, turns, forwarded);
      InvExcept(r.st, i) && (r.forwarded ==> Inv(r.st) && InFlight(r.st.frecs[i]))
    decreases |turns|
  {
    hide InvExcept, Attach;
    if turns == [] {
      DoneSending(st, i);
    } else if !turns[0].eligible {
      SendFromKeeps(st, i, turns[1..], forwarded);
    } else {
      var t := turns[0];
      AttachKeeps(st, i, t.v6, t.opens);
      AttachLive(st, i, t.v6, t.opens);
      var a := if t.ownSocket then Attached(st, true) else Attach(st, i, t.v6, t.opens);
      DoneSending(a.st, i);
      if a.ok && !t.sends {
        SendFromKeeps(a.st, i, turns[1..], forwarded);
      } else if a.ok {
        SentToKeeps(a.st, i, t.server);
        var s := SentTo(a.st, i, t.server);
        CountSendKeeps(s, i);
        if s.frecs[i].forwardall != 0 {
          SendFromKeeps(CountSend(s, i), i, turns[1..], true);
        }
      }
    }
  }

  lemma DoneSending(st: State, i: nat)
    requires InvExcept(st, i) && i < |st.frecs|
    ensures InFlight(st.frecs[i]) ==> Inv(st)
  {
  }

  lemma AttachLive(st: State, i: nat, v6: bool, opens: bool)
    requires |st.socks| == RANDOM_SOCKS && i < |st.frecs|
    ensures Attach(st, i, v6, opens).st.live == st.live
  {
  }

  lemma SendQueryKeeps(st: State, i: nat, turns: seq<Turn>)
    requires InvExcept(st, i) && i < |st.frecs| && |st.socks| == RANDOM_SOCKS && Known(turns, st.live)
    ensures Inv(SendQuery(st, i, turns).st)
  {
    hide InvExcept, SendFrom;
    SendFromKeeps(st, i, turns, false);
    var s := SendFrom(st, i, turns, false);
    if !s.forwarded {
      FreeKeeps(s.st, i, i);
    }
  }
}
