/** The forwarding table as it is kept: a list of records and an array of random sockets that
    the operations change in place. */
module ForwardTable {
  import opened Wrappers
  import opened Frecs
  import opened Forwarding
  import opened ForwardRuns

  class Table {
    var frecs: seq<Frec>
    const socks: array<Sock>
    var finger: nat
    var live: set<nat>
    var lastServer: Option<nat>
    const ftabsize: nat

    ghost function St(): State
      reads this, socks
    {
      State(frecs, socks[..], finger, live, lastServer, ftabsize)
    }

    ghost predicate Valid()
      reads this, socks
    {
      socks.Length == RANDOM_SOCKS
    }

    constructor (ftabsize: nat, live: set<nat>)
      ensures Valid() && Inv(St()) && fresh(socks)
      ensures frecs == [] && this.live == live && this.ftabsize == ftabsize
    {
      this.ftabsize := ftabsize;
      this.live := live;
      socks := new Sock[RANDOM_SOCKS](_ => Sock(0, false, false));
      frecs, finger, lastServer := [], 0, None;
      new;
      StartInv(ftabsize, live, socks[..]);
    }

    /** Dropping one reference; the last one closes the socket. */
    method ReleaseSocket(rfd: Option<nat>)
      requires Valid()
      modifies socks
      ensures socks[..] == Release(old(socks[..]), rfd)
    {
      if rfd.Some? && rfd.value < RANDOM_SOCKS {
        var s := socks[rfd.value];
        var n := if s.refcount > 0 then s.refcount - 1 else 0;
        socks[rfd.value] := Sock(n, s.v6, s.open && n != 0);
      }
    }

    /** free_frec. */
    method FreeFrec(i: nat)
      requires Valid() && i < |frecs|
      modifies this`frecs, socks
      ensures Valid() && St() == Free(old(St()), i)
    {
      hide Release;
      ReleaseSocket(frecs[i].rfd4);
      ReleaseSocket(frecs[i].rfd6);
      frecs := frecs[i := Freed(frecs[i])];
    }

    /** allocate_rfd. */
    method AllocateRfd(v6: bool, opens: bool) returns (sock: Option<nat>)
      requires Valid()
      modifies this`finger, socks
      ensures var a := AllocateSocket(old(socks[..]), old(finger), v6, opens);
        sock == a.sock && socks[..] == a.socks && finger == a.finger
    {
      var i := 0;
      while i < RANDOM_SOCKS && socks[i].refcount != 0
        invariant i <= RANDOM_SOCKS
        invariant FirstFree(socks[..], i) == FirstFree(socks[..], 0)
      {
        i := i + 1;
      }
      if i < RANDOM_SOCKS && opens {
        socks[i] := Sock(1, v6, true);
        return Some(i);
      }
      i := 0;
      while i < RANDOM_SOCKS
        invariant i <= RANDOM_SOCKS
        invariant FirstShared(socks[..], finger, v6, i) == FirstShared(socks[..], finger, v6, 0)
      {
        var j := (i + finger) % RANDOM_SOCKS;
        if Sharable(socks[j], v6) {
          finger := j;
          socks[j] := socks[j].(refcount := socks[j].refcount + 1);
          return Some(j);
        }
        i := i + 1;
      }
      sock := None;
    }

    /** The scan of get_new_frec. */
    method Sweep(now: int) returns (target: Option<nat>, oldest: Option<nat>)
      requires Valid()
      modifies this`frecs, socks
      ensures Valid() && Scan(St(), target, oldest) == SweepFrom(Scan(old(St()), None, None), now, 0)
    {
      hide Free;
      target, oldest := None, None;
      var i := 0;
      while i < |frecs|
        invariant Valid() && i <= |frecs| == |old(frecs)|
        invariant unchanged(`finger, `live, `lastServer)
        invariant oldest.Some? ==> oldest.value < |frecs|
        invariant target.Some? ==> target.value < |frecs|
        invariant SweepFrom(Scan(St(), target, oldest), now, i) == SweepFrom(Scan(old(St()), None, None), now, 0)
      {
        ghost var at := Scan(St(), target, oldest);
        var f := frecs[i];
        if !InFlight(f) {
          target := Some(i);
        } else {
          var next := if oldest.None? || f.time <= frecs[oldest.value].time then Some(i) else oldest;
          if now - f.time >= 4 * TIMEOUT {
            FreeSize(St(), i);
            FreeFrec(i);
            target := Some(i);
          }
          oldest := next;
        }
        assert Scan(St(), target, oldest) == SweepStep(at, now, i);
        i := i + 1;
      }
    }

    /** allocate_frec. */
    method AllocateFrec(now: int)
      modifies this`frecs
      ensures St() == Allocated(old(St()), now)
    {
      frecs := [Frec(0, 0, 0, 0, None, None, None, now, 0)] + frecs;
    }

    /** get_new_frec. */
    method GetNewFrec(now: int, waiting: bool, memory: bool) returns (frec: Option<nat>, wait: int)
      requires Valid()
      modifies this`frecs, socks
      ensures Valid() && NewFrec(St(), frec, wait) == GetNew(old(St()), now, waiting, memory)
    {
      hide SweepFrom, Free;
      wait := 0;
      var count := |frecs|;
      var target, oldest := Sweep(now);
      if target.Some? {
        frecs := frecs[target.value := frecs[target.value].(time := now)];
        return target, 0;
      }
      if oldest.Some? && now - frecs[oldest.value].time >= TIMEOUT {
        if now - frecs[oldest.value].time < 2 * TIMEOUT && count <= ftabsize && memory {
          AllocateFrec(now);
          return Some(0), 0;
        }
        if !waiting {
          FreeSize(St(), oldest.value);
          FreeFrec(oldest.value);
          frecs := frecs[oldest.value := frecs[oldest.value].(time := now)];
        }
        return oldest, 0;
      }
      if count > ftabsize {
        if oldest.Some? && waiting {
          wait := frecs[oldest.value].time + TIMEOUT - now;
        }
        return None, wait;
      }
      if memory {
        AllocateFrec(now);
        return Some(0), 0;
      }
      return None, if waiting then 1 else 0;
    }

    /** lookup_frec. */
    method LookupFrec(id: nat, crc: nat) returns (frec: Option<nat>)
      ensures frec == Lookup(frecs, id, crc, 0)
    {
      var i := 0;
      while i < |frecs|
        invariant i <= |frecs| && Lookup(frecs, id, crc, i) == Lookup(frecs, id, crc, 0)
      {
        if Answers(frecs[i], id, crc) {
          return Some(i);
        }
        i := i + 1;
      }
      frec := None;
    }

    /** lookup_frec_by_sender. */
    method LookupFrecBySender(id: nat, source: int, crc: nat) returns (frec: Option<nat>)
      ensures frec == LookupSender(frecs, id, source, crc, 0)
    {
      var i := 0;
      while i < |frecs|
        invariant i <= |frecs| && LookupSender(frecs, id, source, crc, i) == LookupSender(frecs, id, source, crc, 0)
      {
        if Asked(frecs[i], id, source, crc) {
          return Some(i);
        }
        i := i + 1;
      }
      frec := None;
    }

    /** get_id, on the numbers that are drawn. */
    method GetId(crc: nat, draws: seq<nat>) returns (id: Option<nat>)
      ensures id == FreshId(frecs, crc, draws)
    {
      hide Lookup;
      var k := 0;
      assert draws[0..] == draws;
      while k < |draws|
        invariant k <= |draws| && FreshId(frecs, crc, draws[k..]) == FreshId(frecs, crc, draws)
      {
        var taken := LookupFrec(draws[k], crc);
        if taken.None? {
          return Some(draws[k]);
        }
        assert draws[k..][1..] == draws[k + 1..];
        k := k + 1;
      }
      id := None;
    }

    /** A socket of the family for record i, unless it has one. */
    method AttachSocket(i: nat, v6: bool, opens: bool) returns (ok: bool)
      requires Valid() && i < |frecs|
      modifies this`frecs, this`finger, socks
      ensures Valid() && Attached(St(), ok) == Attach(old(St()), i, v6, opens)
    {
      hide AllocateSocket;
      if SocketOf(frecs[i], v6).Some? {
        return true;
      }
      var sock := AllocateRfd(v6, opens);
      if sock.None? {
        return false;
      }
      frecs := frecs[i := WithSocket(frecs[i], v6, sock.value)];
      ok := true;
    }

    /** The loop of forward_query over the servers. */
    method SendLoop(i: nat, turns: seq<Turn>) returns (forwarded: bool)
      requires Valid() && i < |frecs|
      modifies this`frecs, this`finger, socks
      ensures Valid() && Sent(St(), forwarded) == SendFrom(old(St()), i, turns, false)
    {
      hide Attach;
      forwarded := false;
      var k := 0;
      assert turns[0..] == turns;
      while k < |turns|
        invariant Valid() && k <= |turns| && i < |frecs|
        invariant unchanged(`live, `lastServer)
        invariant SendFrom(St(), i, turns[k..], forwarded) == SendFrom(old(St()), i, turns, false)
      {
        var t := turns[k];
        assert turns[k..][0] == t && turns[k..][1..] == turns[k + 1..];
        k := k + 1;
        if t.eligible {
          var ok := true;
          if !t.ownSocket {
            ok := AttachSocket(i, t.v6, t.opens);
          }
          if !ok {
            return;
          }
          if t.sends {
            forwarded := true;
            frecs := frecs[i := frecs[i].(sentto := Some(t.server))];
            if frecs[i].forwardall == 0 {
              return;
            }
            frecs := frecs[i := frecs[i].(forwardall := frecs[i].forwardall + 1)];
          }
        }
      }
    }

    method Send(i: nat, turns: seq<Turn>) returns (forwarded: bool)
      requires Valid() && i < |frecs|
      modifies this`frecs, this`finger, socks
      ensures Valid() && Sent(St(), forwarded) == SendQuery(old(St()), i, turns)
    {
      hide SendFrom, Free;
      forwarded := SendLoop(i, turns);
      if !forwarded {
        FreeFrec(i);
      }
    }

    method AskAgain(i: nat, strict: bool)
      requires Valid() && i < |frecs|
      modifies this`frecs, this`lastServer
      ensures Valid() && St() == Again(old(St()), i, strict)
    {
      if !strict {
        frecs := frecs[i := frecs[i].(forwardall := 1)];
        lastServer := None;
      }
    }

    /** forward_query for a client's query. */
    method ForwardQuery(e: Event) returns (forwarded: bool)
      requires Valid() && e.Query?
      modifies this, socks
      ensures Valid() && Sent(St(), forwarded) == AskServers(old(St()), e)
    {
      hide LookupSender, GetNew, FreshId, SendQuery, Again;
      forwarded := false;
      if !e.servers {
        return;
      }
      var known := LookupFrecBySender(e.id, e.source, e.crc);
      if known.Some? {
        AgainLive(St(), known.value, e.strict);
        AskAgain(known.value, e.strict);
        forwarded := Send(known.value, e.turns);
        return;
      }
      if e.local {
        return;
      }
      var frec, _ := GetNewFrec(e.now, false, e.memory);
      if frec.None? {
        return;
      }
      var newId := GetId(e.crc, e.draws);
      if newId.None? {
        return;
      }
      frecs := frecs[frec.value := frecs[frec.value].(
        source := e.source, origId := e.id, newId := newId.value, crc := e.crc, forwardall := if e.all then 1 else 0)];
      forwarded := Send(frec.value, e.turns);
    }

    /** reply_query; to is the client the reply is passed on to. */
    method ReplyQuery(e: Event) returns (to: Option<Client>)
      requires Valid() && e.Reply?
      modifies this, socks
      ensures Valid() && St() == OnReply(old(St()), e) && to == PassedOn(old(St()), e)
    {
      hide Lookup, SendQuery, Again, Free;
      to := None;
      var frec := LookupFrec(e.replyId, e.replyCrc);
      if frec.None? {
        return;
      }
      var i := frec.value;
      var all := frecs[i].forwardall;
      if e.bad && !e.strict && all == 0 && e.rebuilt {
        AgainLive(St(), i, false);
        AskAgain(i, false);
        var _ := Send(i, e.turns);
        return;
      }
      if !e.special {
        lastServer := if e.bad then None else if e.byAddress.Some? then e.byAddress else frecs[i].sentto;
      }
      if all != 0 {
        frecs := frecs[i := frecs[i].(forwardall := all - 1)];
      }
      if all == 0 || all - 1 == 1 || !e.bad {
        to := Some(Client(frecs[i].source, frecs[i].origId, frecs[i].crc));
        FreeFrec(i);
      }
    }

    /** server_gone. */
    method ServerGone(server: nat)
      requires Valid()
      modifies this, socks
      ensures Valid() && St() == OnGone(old(St()), server)
    {
      hide Free;
      var i := 0;
      while i < |frecs|
        invariant Valid() && i <= |frecs| && unchanged(`finger, `live, `lastServer)
        invariant DropFrom(St(), server, i) == DropFrom(old(St()), server, 0)
      {
        if frecs[i].sentto == Some(server) {
          FreeSize(St(), i);
          FreeFrec(i);
        }
        i := i + 1;
      }
      if lastServer == Some(server) {
        lastServer := None;
      }
      live := live - {server};
    }
  }
}
