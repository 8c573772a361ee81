/** Which leases end, and whether the script that is told of leases can keep the books: how many
    it was told of as new and not as deleted (lease.c). */
module LeaseEnds {
  import opened HostNames
  import opened Wrappers
  import opened Leases

  // ----- lease_prune -----

  /** A lease with a limit that is past, or the one to be dropped. */
  predicate Over(l: Lease, now: int, dropped: bool) {
    dropped || (l.expires != 0 && l.expires < now)
  }

  function Less(target: Option<nat>, n: nat): Option<nat> {
    if target.Some? && target.value >= n then Some(target.value - n) else None
  }

  function Remaining(ls: seq<Lease>, target: Option<nat>, now: int): seq<Lease> {
    if ls == [] then []
    else (if Over(ls[0], now, target == Some(0)) then [] else [ls[0]]) + Remaining(ls[1..], Less(target, 1), now)
  }

  /** The last one first. */
  function Ended(ls: seq<Lease>, target: Option<nat>, now: int): seq<Lease> {
    if ls == [] then []
    else Ended(ls[1..], Less(target, 1), now) + (if Over(ls[0], now, target == Some(0)) then [ls[0]] else [])
  }

  lemma {:induction false} PruneIs(st: State, target: Option<nat>, now: int, i: nat)
    requires i <= |st.leases| && st.left + |st.leases| == st.max
    ensures var r, rest, t := PruneFrom(st, target, now, i), st.leases[i..], Less(target, i);
      && r.leases == st.leases[..i] + Remaining(rest, t, now) && r.gone == Ended(rest, t, now) + st.gone
      && r.byFqdn == st.byFqdn && r.readOnly == st.readOnly
    decreases |st.leases| - i
  {
    hide Over, Ends, Remaining, Ended, Less;
    var rest, t := st.leases[i..], Less(target, i);
    FirstOver(rest, t, now);
    if rest == [] {
      assert st.leases[..i] + [] == st.leases && [] + st.gone == st.gone;
    } else {
      var l := st.leases[i];
      var before, more := st.leases[..i], st.leases[i + 1..];
      assert rest[0] == l && rest[1..] == more;
      NextTarget(target, i);
      OverIs(l, now);
      if Ends(l, now) || target == Some(i) {
        var s := st.(leases := before + more, gone := [l] + st.gone, left := st.left + 1);
        PruneIs(s, if target.Some? && target.value > i then Some(target.value - 1)
                   else if target == Some(i) then None else target, now, i);
        assert (before + more)[..i] == before && (before + more)[i..] == more;
        assert Ended(more, Less(t, 1), now) + ([l] + st.gone) == Ended(more, Less(t, 1), now) + [l] + st.gone;
      } else {
        PruneIs(st, target, now, i + 1);
        assert st.leases[..i + 1] == before + [l];
        assert before + [l] + Remaining(more, Less(t, 1), now) == before + ([l] + Remaining(more, Less(t, 1), now));
      }
    }
  }

  lemma FirstOver(ls: seq<Lease>, target: Option<nat>, now: int)
    ensures ls == [] ==> Remaining(ls, target, now) == [] && Ended(ls, target, now) == []
    ensures ls != [] ==>
      var over, rs, es := Over(ls[0], now, target == Some(0)), Remaining(ls[1..], Less(target, 1), now),
                          Ended(ls[1..], Less(target, 1), now);
      && Remaining(ls, target, now) == (if over then rs else [ls[0]] + rs)
      && Ended(ls, target, now) == (if over then es + [ls[0]] else es)
  {
    hide Over;
    if ls != [] {
      var rs, es := Remaining(ls[1..], Less(target, 1), now), Ended(ls[1..], Less(target, 1), now);
      assert [] + rs == rs && es + [] == es;
    }
  }

  lemma NextTarget(target: Option<nat>, i: nat)
    ensures var t := Less(target, i);
      && (t == Some(0) <==> target == Some(i)) && Less(t, 1) == Less(target, i + 1)
      && Less(if target.Some? && target.value > i then Some(target.value - 1)
              else if target == Some(i) then None else target, i) == Less(t, 1)
  {
  }

  lemma OverIs(l: Lease, now: int)
    ensures forall dropped :: Over(l, now, dropped) <==> Ends(l, now) || dropped
  {
  }

  lemma {:induction false} RemainingMembers(ls: seq<Lease>, target: Option<nat>, now: int)
    ensures var rs, es := Remaining(ls, target, now), Ended(ls, target, now);
      && |rs| + |es| == |ls|
      && (forall k :: 0 <= k < |ls| ==>
            if Over(ls[k], now, target == Some(k)) then ls[k] in es else ls[k] in rs)
      && (forall l :: l in rs ==> !Over(l, now, false))
    decreases |ls|
  {
    if ls != [] {
      var rest, t := ls[1..], Less(target, 1);
      RemainingMembers(rest, t, now);
      forall k | 0 <= k < |ls|
        ensures if Over(ls[k], now, target == Some(k)) then ls[k] in Ended(ls, target, now)
                else ls[k] in Remaining(ls, target, now)
      {
        if k > 0 {
          assert rest[k - 1] == ls[k];
          assert (t == Some(k - 1)) == (target == Some(k));
        }
      }
    }
  }

  /** The leases whose limit is past, and the one to be dropped, go to the front of the list of
      those gone; all others stay as they are, in their order. */
  lemma PruneEnds(st: State, target: Option<nat>, now: int)
    requires Inv(st)
    ensures var r := PruneFrom(st, target, now, 0);
      && r.leases == Remaining(st.leases, target, now) && r.gone == Ended(st.leases, target, now) + st.gone
      && (forall l :: l in r.leases ==> l.expires == 0 || now <= l.expires)
      && (forall k :: 0 <= k < |st.leases| ==>
            var l := st.leases[k];
            if target != Some(k) && (l.expires == 0 || now <= l.expires) then l in r.leases else l in r.gone)
      && |r.leases| + |r.gone| == |st.leases| + |st.gone|
      && r.left == st.left + |st.leases| - |r.leases|
  {
    hide Remaining, Ended;
    PruneIs(st, target, now, 0);
    RemainingMembers(st.leases, target, now);
    PruneKeeps(st, target, now, 0);
    assert st.leases[0..] == st.leases && st.leases[..0] == [];
    assert Less(target, 0) == target;
    var r := PruneFrom(st, target, now, 0);
    assert [] + Remaining(st.leases, target, now) == r.leases;
  }

  /** A lease that is given some seconds outlives every moment up to then, and no later one; for
      the longest time there is it outlives them all. */
  lemma LastsAsSet(st: State, i: nat, len: nat, at: int, now: int)
    requires Inv(st) && i < |st.leases| && at + len != 0
    ensures Inv(SetExpires(st, i, len, at))
    ensures var s := SetExpires(st, i, len, at);
      var l := s.leases[i];
      && |s.leases| == |st.leases|
      && (if len == 0xffff_ffff || now <= at + len then l in PruneFrom(s, None, now, 0).leases
          else l in PruneFrom(s, None, now, 0).gone)
      && (forall j :: 0 <= j < |st.leases| && j != i ==> s.leases[j] == st.leases[j])
  {
    hide UniqueNames, PruneFrom, Ended, Remaining;
    ExpireKeeps(st, i, len, at);
    PruneEnds(SetExpires(st, i, len, at), None, now);
  }

  // ----- taking a name -----

  /** A lease has the name afterwards, unless a configured lease that it does not outrank has it;
      then nothing changes. */
  lemma NameTaken(st: State, i: nat, name: string, auth: bool, domain: Option<string>)
    requires i < |st.leases|
    ensures var r := SetHostname(st, i, Some(name), auth, domain);
      var l, m := st.leases[i], r.leases[i];
      && |r.leases| == |st.leases|
      && (r == st || (m.hostname.Some? && SameHost(m.hostname.value, name)))
      && (m.hostname.Some? && SameHost(m.hostname.value, name) ==> (auth ==> m.auth) && (l.auth ==> m.auth))
      && (!(m.hostname.Some? && SameHost(m.hostname.value, name)) ==>
            !auth && exists j :: 0 <= j < |st.leases| && st.leases[j].auth
                       && SameKey(Key(st.leases[j], st.byFqdn),
                                  if st.byFqdn then FullName(name, domain) else Some(name)))
      && (m.hostname == Some(name) && !(l.hostname.Some? && SameHost(l.hostname.value, name)) ==>
            m.fqdn == FullName(name, domain) && m.changed)
  {
    hide FullName, Key, SameKey;
    SameAsItself(name);
    var full := FullName(name, domain);
    var other := FirstConflict(st, i, if st.byFqdn then full else Some(name), 0);
    if other.Some? {
      assert Conflicts(st, i, other.value, if st.byFqdn then full else Some(name));
    }
  }

  lemma SameAsItself(name: string)
    ensures SameHost(name, name)
  {
  }

  // ----- what the script was told -----

  /** Leases that the script was, or was not yet, told of. */
  function Number(ls: seq<Lease>, unsaid: bool): nat {
    if ls == [] then 0 else (if ls[0].isNew == unsaid then 1 else 0) + Number(ls[1..], unsaid)
  }

  function InAll(st: State, unsaid: bool): nat {
    Number(st.leases, unsaid) + Number(st.gone, unsaid)
  }

  lemma {:induction false} NumberUpdate(ls: seq<Lease>, i: nat, l: Lease, unsaid: bool)
    requires i < |ls|
    ensures Number(ls[i := l], unsaid)
         == Number(ls, unsaid) - (if ls[i].isNew == unsaid then 1 else 0) + (if l.isNew == unsaid then 1 else 0)
    decreases i
  {
    if i > 0 {
      assert ls[i := l][1..] == ls[1..][i - 1 := l];
      NumberUpdate(ls[1..], i - 1, l, unsaid);
    } else {
      assert ls[i := l][1..] == ls[1..];
    }
  }

  lemma {:induction false} NumberAppend(a: seq<Lease>, b: seq<Lease>, unsaid: bool)
    ensures Number(a + b, unsaid) == Number(a, unsaid) + Number(b, unsaid)
    decreases |a|
  {
    if a == [] {
      assert a + b == b;
    } else {
      assert (a + b)[1..] == a[1..] + b;
      NumberAppend(a[1..], b, unsaid);
    }
  }

  lemma {:induction false} NumberPruned(ls: seq<Lease>, target: Option<nat>, now: int, unsaid: bool)
    ensures Number(Remaining(ls, target, now), unsaid) + Number(Ended(ls, target, now), unsaid) == Number(ls, unsaid)
    decreases |ls|
  {
    hide Over;
    if ls != [] {
      var t := Less(target, 1);
      NumberPruned(ls[1..], t, now, unsaid);
      var last := if Over(ls[0], now, target == Some(0)) then [ls[0]] else [];
      NumberAppend(Ended(ls[1..], t, now), last, unsaid);
      OneNumber(ls[0], unsaid);
      NumberAppend(if last == [] then [ls[0]] else [], Remaining(ls[1..], t, now), unsaid);
    }
  }

  lemma OneNumber(l: Lease, unsaid: bool)
    ensures Number([l], unsaid) == (if l.isNew == unsaid then 1 else 0) && Number([], unsaid) == 0
  {
    assert [l][1..] == [];
  }

  function EventOf(st: State, c: Change): Option<Event> {
    if c.CallScript? then ScriptRun(st).event else None
  }

  function Says(e: Option<Event>, action: Action, unsaid: bool): nat {
    if e.Some? && e.value.action == action && e.value.lease.isNew == unsaid then 1 else 0
  }

  function Taken(st: State, c: Change): nat {
    if c.TakeLease? && st.left > 0 then 1 else 0
  }

  /** New leases that end before the script is told of them. */
  function EndedNew(st: State, c: Change): nat {
    if c.Prune? then Number(Ended(st.leases, c.target, c.now), true) else 0
  }

  lemma KillNumber(st: State, i: nat, unsaid: bool)
    requires i < |st.leases|
    ensures var r := Kill(st, i);
      |r.leases| == |st.leases| && Number(r.leases, unsaid) == Number(st.leases, unsaid) && r.gone == st.gone
  {
    hide Number;
    NumberUpdate(st.leases, i, Killed(st.leases[i]), unsaid);
  }

  lemma NamedNumber(st: State, i: nat, name: Option<string>, full: Option<string>, auth: bool, unsaid: bool)
    requires i < |st.leases|
    ensures var r := Named(st, i, name, full, auth);
      Number(r.leases, unsaid) == Number(st.leases, unsaid) && r.gone == st.gone
  {
    hide Number, Kill;
    KillNumber(st, i, unsaid);
    var s := if st.leases[i].hostname.Some? then Kill(st, i) else st;
    NumberUpdate(s.leases, i, Named(st, i, name, full, auth).leases[i], unsaid);
  }

  lemma RenameNumber(st: State, i: nat, name: Option<string>, auth: bool, domain: Option<string>, unsaid: bool)
    requires i < |st.leases|
    ensures Number(SetHostname(st, i, name, auth, domain).leases, unsaid) == Number(st.leases, unsaid)
    ensures SetHostname(st, i, name, auth, domain).gone == st.gone
  {
    hide Number, SameHost, FirstConflict, FullName, Kill, Named, Conflicts;
    var l := st.leases[i];
    NumberUpdate(st.leases, i, l.(auth := l.auth || auth), unsaid);
    var full := if name.Some? then FullName(name.value, domain) else None;
    var other := if name.Some? then FirstConflict(st, i, if st.byFqdn then full else name, 0) else None;
    if other.Some? {
      KillNumber(st, other.value, unsaid);
    }
    NamedNumber(if other.Some? then Kill(st, other.value) else st, i, name, full, auth, unsaid);
  }

  /** In every step: leases become new only when they are taken; the script is told of a new one
      as added, once, and of any other as changed; and the leases it was told of and not told
      to be deleted are those that are not new. */
  lemma StepBooks(st: State, c: Change)
    requires Inv(st)
    ensures var e, r := EventOf(st, c), Step(st, c);
      && InAll(r, false) + Says(e, Del, false) == InAll(st, false) + Says(e, Add, true)
      && InAll(r, true) + Says(e, Add, true) + Says(e, Del, true) == InAll(st, true) + Taken(st, c)
      && Number(r.gone, true) + Says(e, Del, true) == Number(st.gone, true) + EndedNew(st, c)
      && Says(e, Add, false) == 0 && Says(e, Old, true) == 0
  {
    hide Number, SetHostname, PruneFrom, UniqueNames, Ended, Remaining;
    match c
    case TakeLease(v6, duid) =>
      if st.left > 0 {
        TakeBooks(st, v6, duid);
      }
    case Prune(target, now) => PruneBooks(st, target, now);
    case Expire(i, len, at) =>
      if i < |st.leases| {
        NumberUpdate(st.leases, i, SetExpires(st, i, len, at).leases[i], true);
        NumberUpdate(st.leases, i, SetExpires(st, i, len, at).leases[i], false);
      }
    case Rename(i, name, auth, domain) =>
      if i < |st.leases| {
        RenameNumber(st, i, name, auth, domain, true);
        RenameNumber(st, i, name, auth, domain, false);
      }
    case CallScript => ScriptBooks(st);
  }

  lemma TakeBooks(st: State, v6: bool, duid: Option<seq<nat>>)
    requires st.left > 0
    ensures var r := Allocate(st, v6, duid);
      r.Some? && r.value.gone == st.gone && Number(r.value.leases, true) == Number(st.leases, true) + 1
      && Number(r.value.leases, false) == Number(st.leases, false)
  {
    OneNumber(NewLease(v6, duid), true);
    OneNumber(NewLease(v6, duid), false);
    NumberAppend([NewLease(v6, duid)], st.leases, true);
    NumberAppend([NewLease(v6, duid)], st.leases, false);
  }

  lemma PruneBooks(st: State, target: Option<nat>, now: int)
    requires Inv(st)
    ensures var r := PruneFrom(st, target, now, 0);
      && InAll(r, true) == InAll(st, true) && InAll(r, false) == InAll(st, false)
      && Number(r.gone, true) == Number(st.gone, true) + Number(Ended(st.leases, target, now), true)
  {
    hide Number, Ended, Remaining, PruneFrom;
    PruneEnds(st, target, now);
    NumberPruned(st.leases, target, now, true);
    NumberPruned(st.leases, target, now, false);
    NumberAppend(Ended(st.leases, target, now), st.gone, true);
    NumberAppend(Ended(st.leases, target, now), st.gone, false);
  }

  /** How many are new, and how many are not, when one lease is announced or deleted. */
  lemma ScriptNumbers(st: State, unsaid: bool)
    ensures var e, r := ScriptRun(st).event, ScriptRun(st).st;
      && Number(r.gone, unsaid) + Says(e, Del, unsaid) == Number(st.gone, unsaid)
      && Number(r.leases, unsaid) + (if unsaid then Says(e, Add, true) else 0)
         == Number(st.leases, unsaid) + (if unsaid then 0 else Says(e, Add, true))
  {
    hide Number;
    if st.gone != [] {
      var l := st.gone[0];
      NumberUpdate(st.gone, 0, l.(oldHostname := None), unsaid);
      assert st.gone == [l] + st.gone[1..];
      NumberAppend([l], st.gone[1..], unsaid);
      OneNumber(l, unsaid);
    } else {
      var lost, news := FirstLost(st.leases, 0), FirstNews(st.leases, st.readOnly, 0);
      var i := if lost.Some? then lost else news;
      if i.Some? {
        NumberUpdate(st.leases, i.value, ScriptRun(st).st.leases[i.value], unsaid);
      }
    }
  }

  lemma ScriptBooks(st: State)
    ensures var e, r := ScriptRun(st).event, ScriptRun(st).st;
      && InAll(r, false) + Says(e, Del, false) == InAll(st, false) + Says(e, Add, true)
      && InAll(r, true) + Says(e, Add, true) + Says(e, Del, true) == InAll(st, true)
      && Number(r.gone, true) + Says(e, Del, true) == Number(st.gone, true)
      && Says(e, Add, false) == 0 && Says(e, Old, true) == 0
  {
    hide Number;
    ScriptNumbers(st, true);
    ScriptNumbers(st, false);
  }

  // ----- runs -----

  ghost function Said(st: State, cs: seq<Change>, action: Action, unsaid: bool): nat
    requires Inv(st)
    decreases |cs|
  {
    if cs == [] then 0
    else
      StepKeeps(st, cs[0]);
      Says(EventOf(st, cs[0]), action, unsaid) + Said(Step(st, cs[0]), cs[1..], action, unsaid)
  }

  ghost function EndedNewIn(st: State, cs: seq<Change>): nat
    requires Inv(st)
    decreases |cs|
  {
    if cs == [] then 0
    else
      StepKeeps(st, cs[0]);
      EndedNew(st, cs[0]) + EndedNewIn(Step(st, cs[0]), cs[1..])
  }

  lemma {:induction false} RunBooks(st: State, cs: seq<Change>)
    requires Inv(st)
    ensures InAll(After(st, cs), false) + Said(st, cs, Del, false) == InAll(st, false) + Said(st, cs, Add, true)
    ensures Number(After(st, cs).gone, true) + Said(st, cs, Del, true) == Number(st.gone, true) + EndedNewIn(st, cs)
    ensures Said(st, cs, Add, false) == 0 && Said(st, cs, Old, true) == 0
    decreases |cs|
  {
    hide UniqueNames, Number, InAll, Step, Says, EventOf, EndedNew;
    if cs != [] {
      StepKeeps(st, cs[0]);
      StepBooks(st, cs[0]);
      RunBooks(Step(st, cs[0]), cs[1..]);
    }
  }

  lemma {:induction false} NoneNew(ls: seq<Lease>)
    requires forall k :: 0 <= k < |ls| ==> !ls[k].isNew
    ensures Number(ls, false) == |ls| && Number(ls, true) == 0
    decreases |ls|
  {
    if ls != [] {
      NoneNew(ls[1..]);
    }
  }

  /** Once nothing is pending, the leases that there are number the leases the script was told of
      as added, less those of them it was told to be deleted. */
  lemma BooksAreRight(max: nat, byFqdn: bool, readOnly: bool, cs: seq<Change>)
    ensures var st := State([], [], max, max, byFqdn, readOnly);
      && Inv(st)
      && (Pending(After(st, cs)) == 0 ==>
            Said(st, cs, Add, true) == |After(st, cs).leases| + Said(st, cs, Del, false))
  {
    hide Said, After, Number;
    var st := State([], [], max, max, byFqdn, readOnly);
    RunBooks(st, cs);
    OneNumber(NewLease(false, None), false);
    var r := After(st, cs);
    if Pending(r) == 0 {
      NothingPending(r.leases, r.readOnly);
      NoneNew(r.leases);
    }
  }

  /** Once nothing is pending, every deletion told was of a lease told as added exactly if no
      lease ended while it was new. */
  lemma DeletionsOfAdded(max: nat, byFqdn: bool, readOnly: bool, cs: seq<Change>)
    ensures var st := State([], [], max, max, byFqdn, readOnly);
      && Inv(st)
      && (Pending(After(st, cs)) == 0 ==> (Said(st, cs, Del, true) == 0 <==> EndedNewIn(st, cs) == 0))
  {
    hide Said, After, Number, EndedNewIn;
    var st := State([], [], max, max, byFqdn, readOnly);
    RunBooks(st, cs);
    OneNumber(NewLease(false, None), true);
  }

  /** A lease that is taken and ends before the script runs: it is told to be deleted, but was
      never told as added. */
  lemma DeletedNotAdded()
    ensures var st := State([], [], 1, 1, false, false);
      var cs := [TakeLease(false, None), Prune(None, 2), CallScript];
      Inv(st) && Said(st, cs, Add, true) == 0 && Said(st, cs, Del, true) == 1 && Pending(After(st, cs)) == 0
  {
  }
}
