/** The table of queries in flight and the random sockets they share, as values. */
module Frecs {
  import opened Wrappers

  const TIMEOUT: int := 10
  const RANDOM_SOCKS: nat := 64
  const MAXREFS: nat := 0xffff
  const NO_CRC: nat := 0xffff_ffff

  /** One random socket. Its descriptor is open or not; the family matters while it is. */
  datatype Sock = Sock(refcount: nat, v6: bool, open: bool)

  /** A query. It is free when it was sent to no server. */
  datatype Frec = Frec(
    source: int, origId: nat, newId: nat, crc: nat,
    sentto: Option<nat>, rfd4: Option<nat>, rfd6: Option<nat>,
    time: int, forwardall: int)

  /** live holds the servers that exist. Records are in list order, the newest first. */
  datatype State = State(
    frecs: seq<Frec>, socks: seq<Sock>, finger: nat,
    live: set<nat>, lastServer: Option<nat>, ftabsize: nat)

  predicate InFlight(f: Frec) {
    f.sentto.Some?
  }

  // ----- counting references -----

  function Uses(f: Frec, s: nat): nat {
    (if f.rfd4 == Some(s) then 1 else 0) + (if f.rfd6 == Some(s) then 1 else 0)
  }

  function Refs(fs: seq<Frec>, s: nat): nat {
    if fs == [] then 0 else Uses(fs[0], s) + Refs(fs[1..], s)
  }

  lemma {:induction false} RefsUpdate(fs: seq<Frec>, i: nat, f: Frec, s: nat)
    requires i < |fs|
    ensures Refs(fs[i := f], s) == Refs(fs, s) - Uses(fs[i], s) + Uses(f, s)
    decreases i
  {
    if i > 0 {
      assert fs[i := f][1..] == fs[1..][i - 1 := f];
      RefsUpdate(fs[1..], i - 1, f, s);
    }
  }

  lemma {:induction false} UsesCounted(fs: seq<Frec>, i: nat, s: nat)
    requires i < |fs|
    ensures Refs(fs, s) >= Uses(fs[i], s)
    decreases i
  {
    if i > 0 {
      UsesCounted(fs[1..], i - 1, s);
    }
  }

  // ----- the invariant -----

  /** Each socket's count is the number of references to it, and it is open while there are
      any. */
  predicate Counted(st: State) {
    && |st.socks| == RANDOM_SOCKS
    && forall s :: 0 <= s < RANDOM_SOCKS ==>
         && st.socks[s].refcount == Refs(st.frecs, s) <= MAXREFS
         && (st.socks[s].open <==> st.socks[s].refcount > 0)
  }

  /** References are to sockets of the right family. */
  predicate RightFamily(f: Frec, socks: seq<Sock>) {
    && |socks| == RANDOM_SOCKS
    && (f.rfd4.Some? ==> f.rfd4.value < RANDOM_SOCKS && !socks[f.rfd4.value].v6)
    && (f.rfd6.Some? ==> f.rfd6.value < RANDOM_SOCKS && socks[f.rfd6.value].v6)
  }

  predicate Families(st: State) {
    forall i :: 0 <= i < |st.frecs| ==> RightFamily(st.frecs[i], st.socks)
  }

  /** Free records hold no socket; busy is a record that is being worked on. */
  predicate Idle(st: State, busy: int) {
    forall i :: 0 <= i < |st.frecs| && i != busy && !InFlight(st.frecs[i]) ==>
      st.frecs[i].rfd4.None? && st.frecs[i].rfd6.None?
  }

  predicate SamePair(f: Frec, g: Frec) {
    f.newId == g.newId && f.crc == g.crc
  }

  /** The pairs of id and checksum of queries in flight are distinct, and busy's pair, too, is
      in no other record in flight. */
  predicate Distinct(st: State, busy: int) {
    forall i, j :: 0 <= i < |st.frecs| && 0 <= j < |st.frecs| && i != j
      && (InFlight(st.frecs[i]) || i == busy) && InFlight(st.frecs[j])
      ==> !SamePair(st.frecs[i], st.frecs[j])
  }

  /** No record, nor the server that answered last, is a server that is gone. */
  predicate NoDangling(st: State) {
    && (forall i :: 0 <= i < |st.frecs| && InFlight(st.frecs[i]) ==> st.frecs[i].sentto.value in st.live)
    && (st.lastServer.Some? ==> st.lastServer.value in st.live)
  }

  predicate Bounded(st: State) {
    |st.frecs| <= st.ftabsize + 1
  }

  predicate Sockets(st: State) {
    Counted(st) && Families(st)
  }

  predicate InvExcept(st: State, busy: int) {
    Sockets(st) && Idle(st, busy) && Distinct(st, busy) && NoDangling(st) && Bounded(st)
  }

  /** The invariant between calls. */
  predicate Inv(st: State) {
    InvExcept(st, -1)
  }

  // ----- free_frec -----

  function Release(socks: seq<Sock>, rfd: Option<nat>): (r: seq<Sock>)
    ensures |r| == |socks|
  {
    if rfd.None? || rfd.value >= |socks| then socks else
    var s := socks[rfd.value];
    var n := if s.refcount > 0 then s.refcount - 1 else 0;
    socks[rfd.value := Sock(n, s.v6, s.open && n != 0)]
  }

  function Freed(f: Frec): Frec {
    f.(sentto := None, rfd4 := None, rfd6 := None)
  }

  function Free(st: State, i: nat): State
    requires i < |st.frecs|
  {
    var f := st.frecs[i];
    st.(frecs := st.frecs[i := Freed(f)], socks := Release(Release(st.socks, f.rfd4), f.rfd6))
  }

  lemma FreeSockets(st: State, i: nat)
    requires Sockets(st) && i < |st.frecs|
    ensures Sockets(Free(st, i))
  {
    var f := st.frecs[i];
    var r := Free(st, i);
    forall s | 0 <= s < RANDOM_SOCKS
      ensures r.socks[s].refcount == Refs(r.frecs, s) <= MAXREFS
      ensures r.socks[s].open <==> r.socks[s].refcount > 0
    {
      RefsUpdate(st.frecs, i, Freed(f), s);
      UsesCounted(st.frecs, i, s);
      assert RightFamily(f, st.socks);
    }
    assert forall s :: 0 <= s < RANDOM_SOCKS ==> r.socks[s].v6 == st.socks[s].v6;
    assert forall j :: 0 <= j < |r.frecs| ==> RightFamily(st.frecs[j], st.socks);
  }

  /** Freeing any record, the one being worked on included. */
  lemma FreeKeeps(st: State, i: nat, busy: int)
    requires InvExcept(st, busy) && i < |st.frecs| && (busy == i || busy == -1)
    ensures Inv(Free(st, i))
  {
    FreeSockets(st, i);
  }

  // ----- allocate_rfd -----

  function FirstFree(socks: seq<Sock>, i: nat): (r: Option<nat>)
    ensures r.Some? ==> i <= r.value < |socks| && socks[r.value].refcount == 0
    ensures r.None? ==> forall k :: i <= k < |socks| ==> socks[k].refcount > 0
    decreases |socks| - i
  {
    if i >= |socks| then None
    else if socks[i].refcount == 0 then Some(i)
    else FirstFree(socks, i + 1)
  }

  predicate Sharable(s: Sock, v6: bool) {
    s.refcount != 0 && s.v6 == v6 && s.refcount != MAXREFS
  }

  /** The search for a socket to share starts where the last one was found. */
  function FirstShared(socks: seq<Sock>, finger: nat, v6: bool, i: nat): (r: Option<nat>)
    requires |socks| == RANDOM_SOCKS
    ensures r.Some? ==> r.value < |socks| && Sharable(socks[r.value], v6)
    decreases RANDOM_SOCKS - i
  {
    if i >= RANDOM_SOCKS then None
    else
      var j := (i + finger) % RANDOM_SOCKS;
      if Sharable(socks[j], v6) then Some(j) else FirstShared(socks, finger, v6, i + 1)
  }

  datatype Allocation = Allocation(socks: seq<Sock>, finger: nat, sock: Option<nat>)

  /** allocate_rfd; opens says whether a new socket can be had. */
  function AllocateSocket(socks: seq<Sock>, finger: nat, v6: bool, opens: bool): Allocation
    requires |socks| == RANDOM_SOCKS
  {
    var free := FirstFree(socks, 0);
    if free.Some? && opens then Allocation(socks[free.value := Sock(1, v6, true)], finger, free)
    else match FirstShared(socks, finger, v6, 0)
      case None => Allocation(socks, finger, None)
      case Some(j) => Allocation(socks[j := socks[j].(refcount := socks[j].refcount + 1)], j, Some(j))
  }

  // ----- giving a record a socket -----

  function SocketOf(f: Frec, v6: bool): Option<nat> {
    if v6 then f.rfd6 else f.rfd4
  }

  function WithSocket(f: Frec, v6: bool, s: nat): Frec {
    if v6 then f.(rfd6 := Some(s)) else f.(rfd4 := Some(s))
  }

  datatype Attached = Attached(st: State, ok: bool)

  /** The record gets a socket of the family unless it has one. */
  function Attach(st: State, i: nat, v6: bool, opens: bool): (r: Attached)
    requires |st.socks| == RANDOM_SOCKS && i < |st.frecs|
    ensures |r.st.socks| == RANDOM_SOCKS && |r.st.frecs| == |st.frecs|
  {
    if SocketOf(st.frecs[i], v6).Some? then Attached(st, true) else
    var a := AllocateSocket(st.socks, st.finger, v6, opens);
    match a.sock
    case None => Attached(st.(socks := a.socks, finger := a.finger), false)
    case Some(s) =>
      Attached(st.(frecs := st.frecs[i := WithSocket(st.frecs[i], v6, s)], socks := a.socks, finger := a.finger), true)
  }

  lemma AttachSockets(st: State, i: nat, v6: bool, opens: bool)
    requires Sockets(st) && i < |st.frecs|
    ensures Sockets(Attach(st, i, v6, opens).st)
  {
    hide FirstFree, FirstShared;
    var r := Attach(st, i, v6, opens).st;
    var a := AllocateSocket(st.socks, st.finger, v6, opens);
    if SocketOf(st.frecs[i], v6).None? && a.sock.Some? {
      var n := a.sock.value;
      var f := WithSocket(st.frecs[i], v6, n);
      forall s | 0 <= s < RANDOM_SOCKS
        ensures r.socks[s].refcount == Refs(r.frecs, s) <= MAXREFS
        ensures r.socks[s].open <==> r.socks[s].refcount > 0
      {
        RefsUpdate(st.frecs, i, f, s);
        assert RightFamily(st.frecs[i], st.socks);
        if s == n && st.socks[n].refcount == 0 {
          UsesCounted(st.frecs, i, n);
        }
      }
      AttachFamilies(st, i, v6, opens);
    }
  }

  /** A socket that changes its family was used by nobody. */
  lemma AttachFamilies(st: State, i: nat, v6: bool, opens: bool)
    requires Sockets(st) && i < |st.frecs|
    ensures Families(Attach(st, i, v6, opens).st)
  {
    hide FirstFree, FirstShared;
    var r := Attach(st, i, v6, opens).st;
    forall j | 0 <= j < |r.frecs|
      ensures RightFamily(r.frecs[j], r.socks)
    {
      assert RightFamily(st.frecs[j], st.socks);
      var a := AllocateSocket(st.socks, st.finger, v6, opens);
      if a.sock.Some? {
        UsesCounted(st.frecs, j, a.sock.value);
      }
    }
  }
}
