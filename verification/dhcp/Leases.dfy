/** The leases, the ones that ended but were not announced yet, and the names they hold
    (lease.c). */
module Leases {
  import opened HostNames
  import opened Wrappers

  /** v6 leases have a DUID. The flags are LEASE_NEW, LEASE_CHANGED, LEASE_AUX_CHANGED and
      LEASE_AUTH_NAME; expires 0 is never. */
  datatype Lease = Lease(
    v6: bool, duid: Option<seq<nat>>,
    hostname: Option<string>, fqdn: Option<string>, oldHostname: Option<string>,
    isNew: bool, changed: bool, aux: bool, auth: bool, expires: int)

  /** Leases are in list order, the newest first; gone is the list of those that ended. */
  datatype State = State(leases: seq<Lease>, gone: seq<Lease>, left: nat, max: nat, byFqdn: bool, readOnly: bool)

  // ----- names -----

  /** The name that has to be unique: the full one, or the host name. */
  function Key(l: Lease, byFqdn: bool): Option<string> {
    if byFqdn then l.fqdn else l.hostname
  }

  predicate SameKey(a: Option<string>, b: Option<string>) {
    a.Some? && b.Some? && SameHost(a.value, b.value)
  }

  /** No two IPv4 leases have the same name. */
  predicate UniqueNames(st: State) {
    forall i, j :: 0 <= i < j < |st.leases| && !st.leases[i].v6 && !st.leases[j].v6 ==>
      !SameKey(Key(st.leases[i], st.byFqdn), Key(st.leases[j], st.byFqdn))
  }

  /** The leases left and the leases there are add up to the limit. */
  predicate Counted(st: State) {
    st.left + |st.leases| == st.max
  }

  predicate Inv(st: State) {
    Counted(st) && UniqueNames(st)
  }

  // ----- lease_allocate, lease_prune, lease_set_expires -----

  function NewLease(v6: bool, duid: Option<seq<nat>>): Lease {
    Lease(v6, duid, None, None, None, true, false, false, false, 1)
  }

  /** None when no lease is left. */
  function Allocate(st: State, v6: bool, duid: Option<seq<nat>>): Option<State> {
    if st.left == 0 then None
    else Some(st.(leases := [NewLease(v6, duid)] + st.leases, left := st.left - 1))
  }

  predicate Ends(l: Lease, now: int) {
    l.expires != 0 && now > l.expires
  }

  /** The leases from i on that end, or are the target, move to the list of those gone. */
  function PruneFrom(st: State, target: Option<nat>, now: int, i: nat): (r: State)
    requires i <= |st.leases| && st.left + |st.leases| == st.max
    ensures r.left + |r.leases| == r.max == st.max
    decreases |st.leases| - i
  {
    if i == |st.leases| then st
    else if Ends(st.leases[i], now) || target == Some(i) then
      PruneFrom(st.(leases := st.leases[..i] + st.leases[i + 1..], gone := [st.leases[i]] + st.gone,
                    left := st.left + 1),
                if target.Some? && target.value > i then Some(target.value - 1)
                else if target == Some(i) then None else target, now, i)
    else PruneFrom(st, target, now, i + 1)
  }

  function SetExpires(st: State, i: nat, len: nat, now: int): State
    requires i < |st.leases|
  {
    var exp := if len == 0xffff_ffff then 0 else now + len;
    if exp == st.leases[i].expires then st
    else st.(leases := st.leases[i := st.leases[i].(expires := exp, aux := true)])
  }

  // ----- lease_set_hostname -----

  /** kill_name. A loss that was not announced yet is forgotten. */
  function Killed(l: Lease): Lease {
    l.(oldHostname := if l.fqdn.Some? then l.fqdn else l.hostname, hostname := None, fqdn := None)
  }

  function Kill(st: State, i: nat): State
    requires i < |st.leases|
  {
    st.(leases := st.leases[i := Killed(st.leases[i])])
  }

  /** Lease j stands in the way of lease i taking the name. */
  predicate Conflicts(st: State, i: nat, j: nat, key: Option<string>)
    requires i < |st.leases| && j < |st.leases|
  {
    var l, m := st.leases[i], st.leases[j];
    && SameKey(Key(m, st.byFqdn), key) && m.v6 == l.v6
    && (l.v6 ==> !(l.duid.Some? && m.duid.Some? && l.duid == m.duid))
  }

  function FirstConflict(st: State, i: nat, key: Option<string>, j: nat): (r: Option<nat>)
    requires i < |st.leases|
    ensures r.Some? ==> j <= r.value < |st.leases| && Conflicts(st, i, r.value, key)
    ensures r.None? ==> forall k :: j <= k < |st.leases| ==> !Conflicts(st, i, k, key)
    decreases |st.leases| - j
  {
    if j >= |st.leases| then None
    else if Conflicts(st, i, j, key) then Some(j)
    else FirstConflict(st, i, key, j + 1)
  }

  function FullName(name: string, domain: Option<string>): Option<string> {
    if domain.Some? then Some(name + "." + domain.value) else None
  }

  /** The lease takes the name, or loses the one it has. A name from the configuration is not
      taken away for one from a client. */
  function SetHostname(st: State, i: nat, name: Option<string>, auth: bool, domain: Option<string>): State
    requires i < |st.leases|
  {
    var l := st.leases[i];
    if l.hostname.Some? && name.Some? && SameHost(l.hostname.value, name.value) then
      st.(leases := st.leases[i := l.(auth := l.auth || auth)])
    else if name.None? && l.hostname.None? then st
    else
      var full := if name.Some? then FullName(name.value, domain) else None;
      var other := if name.Some? then FirstConflict(st, i, if st.byFqdn then full else name, 0) else None;
      if other.Some? && st.leases[other.value].auth && !auth then st
      else Named(if other.Some? then Kill(st, other.value) else st, i, name, full, auth)
  }

  function Named(st: State, i: nat, name: Option<string>, full: Option<string>, auth: bool): State
    requires i < |st.leases|
  {
    var s := if st.leases[i].hostname.Some? then Kill(st, i) else st;
    var m := s.leases[i];
    s.(leases := s.leases[i := m.(hostname := name, fqdn := full, auth := m.auth || auth, changed := true)])
  }

  // ----- the invariant -----

  lemma AllocateKeeps(st: State, v6: bool, duid: Option<seq<nat>>)
    requires Inv(st)
    ensures Allocate(st, v6, duid).None? <==> |st.leases| == st.max
    ensures Allocate(st, v6, duid).Some? ==> Inv(Allocate(st, v6, duid).value)
  {
    if st.left > 0 {
      var r := Allocate(st, v6, duid).value;
      assert forall i :: 1 <= i < |r.leases| ==> r.leases[i] == st.leases[i - 1];
    }
  }

  lemma {:induction false} PruneKeeps(st: State, target: Option<nat>, now: int, i: nat)
    requires Inv(st) && i <= |st.leases|
    ensures Inv(PruneFrom(st, target, now, i))
    decreases |st.leases| - i
  {
    if i < |st.leases| {
      if Ends(st.leases[i], now) || target == Some(i) {
        var s := st.(leases := st.leases[..i] + st.leases[i + 1..], gone := [st.leases[i]] + st.gone,
                     left := st.left + 1);
        DropKeeps(st, i);
        PruneKeeps(s, if target.Some? && target.value > i then Some(target.value - 1)
                      else if target == Some(i) then None else target, now, i);
      } else {
        PruneKeeps(st, target, now, i + 1);
      }
    }
  }

  lemma DropKeeps(st: State, i: nat)
    requires Inv(st) && i < |st.leases|
    ensures Inv(st.(leases := st.leases[..i] + st.leases[i + 1..], gone := [st.leases[i]] + st.gone,
                    left := st.left + 1))
  {
    var ls := st.leases[..i] + st.leases[i + 1..];
    assert forall j :: 0 <= j < |ls| ==> ls[j] == if j < i then st.leases[j] else st.leases[j + 1];
  }

  lemma SameHostTransitive(a: string, b: string, c: string)
    requires SameHost(a, b) && SameHost(c, b)
    ensures SameHost(a, c)
  {
  }

  lemma KillKeeps(st: State, i: nat)
    requires Inv(st) && i < |st.leases|
    ensures Inv(Kill(st, i))
  {
  }

  /** Taking the name keeps names unique: the only other lease that could have it has lost it. */
  lemma SetHostnameKeeps(st: State, i: nat, name: Option<string>, auth: bool, domain: Option<string>)
    requires Inv(st) && i < |st.leases|
    ensures Inv(SetHostname(st, i, name, auth, domain))
  {
    hide SameHost, UniqueNames, Named, FullName;
    AuthKeeps(st, i, auth);
    var l := st.leases[i];
    if !(l.hostname.Some? && name.Some? && SameHost(l.hostname.value, name.value))
      && !(name.None? && l.hostname.None?) {
      var full := if name.Some? then FullName(name.value, domain) else None;
      var key := if st.byFqdn then full else name;
      var other := if name.Some? then FirstConflict(st, i, key, 0) else None;
      if !(other.Some? && st.leases[other.value].auth && !auth) {
        var s := if other.Some? then Kill(st, other.value) else st;
        if other.Some? {
          KillKeeps(st, other.value);
        }
        forall j | 0 <= j < |s.leases| && j != i && !s.leases[j].v6 && !l.v6
          ensures !SameKey(Key(s.leases[j], s.byFqdn), key)
        {
          NoOther(st, i, j, key, other);
        }
        NamedKeeps(s, i, name, full, auth, key);
      }
    }
  }

  lemma AuthKeeps(st: State, i: nat, auth: bool)
    requires Inv(st) && i < |st.leases|
    ensures Inv(st.(leases := st.leases[i := st.leases[i].(auth := st.leases[i].auth || auth)]))
  {
    hide SameHost;
  }

  lemma NoOther(st: State, i: nat, j: nat, key: Option<string>, other: Option<nat>)
    requires Inv(st) && i < |st.leases| && j < |st.leases| && j != i && !st.leases[i].v6 && !st.leases[j].v6
    requires key.Some? ==> other == FirstConflict(st, i, key, 0)
    requires other.Some? ==> other.value < |st.leases|
    ensures !SameKey(Key((if other.Some? then Kill(st, other.value) else st).leases[j], st.byFqdn), key)
  {
    if key.Some? && SameKey(Key(st.leases[j], st.byFqdn), key) {
      assert Conflicts(st, i, j, key);
      if other.value != j {
        SameHostTransitive(Key(st.leases[j], st.byFqdn).value, key.value, Key(st.leases[other.value], st.byFqdn).value);
        SameHostTransitive(Key(st.leases[other.value], st.byFqdn).value, key.value, Key(st.leases[j], st.byFqdn).value);
      }
    }
  }

  lemma NamedKeeps(st: State, i: nat, name: Option<string>, full: Option<string>, auth: bool, key: Option<string>)
    requires Inv(st) && i < |st.leases| && key == if st.byFqdn then full else name
    requires forall j :: 0 <= j < |st.leases| && j != i && !st.leases[j].v6 && !st.leases[i].v6 ==>
      !SameKey(Key(st.leases[j], st.byFqdn), key)
    ensures Inv(Named(st, i, name, full, auth))
  {
    var r := Named(st, i, name, full, auth);
    assert Key(r.leases[i], st.byFqdn) == key;
    forall a, b | 0 <= a < b < |r.leases| && !r.leases[a].v6 && !r.leases[b].v6
      ensures !SameKey(Key(r.leases[a], r.byFqdn), Key(r.leases[b], r.byFqdn))
    {
      if a == i && SameKey(key, Key(st.leases[b], st.byFqdn)) {
        assert SameKey(Key(st.leases[b], st.byFqdn), key);
      }
    }
  }

  /** A lease set by a client's name does not take a configured one. */
  lemma ConfiguredNamesStay(st: State, i: nat, name: string, domain: Option<string>, j: nat)
    requires i < |st.leases| && j < |st.leases| && i != j
    requires !st.leases[i].v6 && !st.leases[j].v6 && st.leases[j].auth
    ensures SetHostname(st, i, Some(name), false, domain).leases[j] == st.leases[j]
  {
    hide SameHost, FullName, Conflicts, Kill, Named, FirstConflict;
    var full := FullName(name, domain);
    var other := FirstConflict(st, i, if st.byFqdn then full else Some(name), 0);
    if other.None? {
      NamedOthers(st, i, Some(name), full, false, j);
    } else if !st.leases[other.value].auth {
      KillOthers(st, other.value, j);
      NamedOthers(Kill(st, other.value), i, Some(name), full, false, j);
    }
  }

  lemma KillOthers(st: State, k: nat, j: nat)
    requires k < |st.leases| && j < |st.leases| && k != j
    ensures |Kill(st, k).leases| == |st.leases| && Kill(st, k).leases[j] == st.leases[j]
  {
  }

  lemma NamedOthers(st: State, i: nat, name: Option<string>, full: Option<string>, auth: bool, j: nat)
    requires i < |st.leases| && j < |st.leases| && i != j
    ensures Named(st, i, name, full, auth).leases[j] == st.leases[j]
  {
  }

  // ----- do_script_run -----

  datatype Action = Del | OldHostname | Add | Old

  /** A call of the script: what it says, for which lease, by which name. */
  datatype Event = Event(action: Action, lease: Lease, name: Option<string>)

  datatype Run = Run(st: State, event: Option<Event>)

  predicate News(l: Lease, readOnly: bool) {
    l.isNew || l.changed || (l.aux && readOnly)
  }

  function FirstLost(ls: seq<Lease>, i: nat): (r: Option<nat>)
    ensures r.Some? ==> i <= r.value < |ls| && ls[r.value].oldHostname.Some?
    ensures r.None? ==> forall k :: i <= k < |ls| ==> ls[k].oldHostname.None?
    decreases |ls| - i
  {
    if i >= |ls| then None else if ls[i].oldHostname.Some? then Some(i) else FirstLost(ls, i + 1)
  }

  function FirstNews(ls: seq<Lease>, readOnly: bool, i: nat): (r: Option<nat>)
    ensures r.Some? ==> i <= r.value < |ls| && News(ls[r.value], readOnly)
    ensures r.None? ==> forall k :: i <= k < |ls| ==> !News(ls[k], readOnly)
    decreases |ls| - i
  {
    if i >= |ls| then None else if News(ls[i], readOnly) then Some(i) else FirstNews(ls, readOnly, i + 1)
  }

  function NameOf(l: Lease): Option<string> {
    if l.fqdn.Some? then l.fqdn else l.hostname
  }

  /** One run; no event if there is nothing to do. */
  function ScriptRun(st: State): Run {
    if st.gone != [] then
      var l := st.gone[0];
      if l.oldHostname.Some? then
        Run(st.(gone := st.gone[0 := l.(oldHostname := None)]), Some(Event(OldHostname, l, l.oldHostname)))
      else Run(st.(gone := st.gone[1..]), Some(Event(Del, Killed(l), Killed(l).oldHostname)))
    else
      match FirstLost(st.leases, 0)
      case Some(i) =>
        var l := st.leases[i];
        Run(st.(leases := st.leases[i := l.(oldHostname := None)]), Some(Event(OldHostname, l, l.oldHostname)))
      case None =>
        match FirstNews(st.leases, st.readOnly, 0)
        case Some(i) =>
          var l := st.leases[i];
          Run(st.(leases := st.leases[i := l.(isNew := false, changed := false, aux := false)]),
              Some(Event(if l.isNew then Add else Old, l, NameOf(l))))
        case None => Run(st, None)
  }

  /** Events a list of leases still has to announce. */
  function PendingGone(ls: seq<Lease>): nat {
    if ls == [] then 0 else (if ls[0].oldHostname.Some? then 2 else 1) + PendingGone(ls[1..])
  }

  function Due(l: Lease, readOnly: bool): nat {
    (if l.oldHostname.Some? then 1 else 0) + (if News(l, readOnly) then 1 else 0)
  }

  function PendingLive(ls: seq<Lease>, readOnly: bool): nat {
    if ls == [] then 0 else Due(ls[0], readOnly) + PendingLive(ls[1..], readOnly)
  }

  function Pending(st: State): nat {
    PendingGone(st.gone) + PendingLive(st.leases, st.readOnly)
  }

  lemma {:induction false} PendingUpdate(ls: seq<Lease>, readOnly: bool, i: nat, l: Lease)
    requires i < |ls|
    ensures PendingLive(ls[i := l], readOnly) == PendingLive(ls, readOnly) - Due(ls[i], readOnly) + Due(l, readOnly)
    decreases i
  {
    hide Due;
    if i > 0 {
      assert ls[i := l][1..] == ls[1..][i - 1 := l];
      PendingUpdate(ls[1..], readOnly, i - 1, l);
    }
  }

  lemma {:induction false} NothingPending(ls: seq<Lease>, readOnly: bool)
    ensures PendingLive(ls, readOnly) == 0 <==>
      forall k :: 0 <= k < |ls| ==> ls[k].oldHostname.None? && !News(ls[k], readOnly)
    decreases |ls|
  {
    if ls != [] {
      NothingPending(ls[1..], readOnly);
      assert forall k :: 1 <= k < |ls| ==> ls[k] == ls[1..][k - 1];
      if forall k :: 0 <= k < |ls| ==> ls[k].oldHostname.None? && !News(ls[k], readOnly) {
        assert forall k :: 0 <= k < |ls[1..]| ==> ls[1..][k] == ls[k + 1];
      }
    }
  }

  /** Every run announces one of the pending events and leaves the others pending; there is no
      event exactly when nothing is pending. A new or changed lease is announced only when no
      deletion and no lost name is waiting. */
  lemma RunAnnouncesOne(st: State)
    ensures var r := ScriptRun(st);
      && (r.event.None? <==> Pending(st) == 0)
      && (r.event.Some? ==> Pending(r.st) == Pending(st) - 1)
      && (r.event.Some? && (r.event.value.action == Add || r.event.value.action == Old) ==>
            st.gone == [] && forall k :: 0 <= k < |st.leases| ==> st.leases[k].oldHostname.None?)
  {
    hide Due;
    var r := ScriptRun(st);
    if st.gone != [] {
      assert r.st.gone == st.gone[1..] || (r.st.gone[0].oldHostname.None? && r.st.gone[1..] == st.gone[1..]);
    } else {
      NothingPending(st.leases, st.readOnly);
      var lost, news := FirstLost(st.leases, 0), FirstNews(st.leases, st.readOnly, 0);
      if lost.Some? {
        PendingUpdate(st.leases, st.readOnly, lost.value, r.st.leases[lost.value]);
        DueDrops(st.leases[lost.value], r.st.leases[lost.value], st.readOnly);
      } else if news.Some? {
        PendingUpdate(st.leases, st.readOnly, news.value, r.st.leases[news.value]);
        DueDrops(st.leases[news.value], r.st.leases[news.value], st.readOnly);
      }
    }
  }

  /** Taking a name away from a lease gives the script one event more exactly if the lease has a
      name and no earlier loss of it still waits; what waits then is the name just lost. */
  lemma LossForgotten(st: State, i: nat)
    requires i < |st.leases|
    ensures Pending(Kill(st, i)) == Pending(st) + 1 <==>
      st.leases[i].oldHostname.None? && NameOf(st.leases[i]).Some?
    ensures Kill(st, i).leases[i].oldHostname == NameOf(st.leases[i])
  {
    PendingUpdate(st.leases, st.readOnly, i, Killed(st.leases[i]));
  }

  lemma DueDrops(l: Lease, m: Lease, readOnly: bool)
    requires (l.oldHostname.Some? && m == l.(oldHostname := None))
      || (News(l, readOnly) && m == l.(isNew := false, changed := false, aux := false))
    ensures Due(m, readOnly) == Due(l, readOnly) - 1
  {
  }

  lemma RunKeeps(st: State)
    requires Inv(st)
    ensures Inv(ScriptRun(st).st)
  {
    hide SameHost;
    var r := ScriptRun(st).st;
    assert forall i :: 0 <= i < |st.leases| ==>
      r.leases[i].v6 == st.leases[i].v6 && Key(r.leases[i], r.byFqdn) == Key(st.leases[i], st.byFqdn);
  }

  // ----- runs -----

  datatype Change =
    | TakeLease(v6: bool, duid: Option<seq<nat>>)
    | Prune(target: Option<nat>, now: int)
    | Expire(lease: nat, len: nat, at: int)
    | Rename(lease: nat, name: Option<string>, auth: bool, domain: Option<string>)
    | CallScript

  function Step(st: State, c: Change): State
    requires st.left + |st.leases| == st.max
  {
    match c
    case TakeLease(v6, duid) => (match Allocate(st, v6, duid) case None => st case Some(r) => r)
    case Prune(target, now) => PruneFrom(st, target, now, 0)
    case Expire(i, len, at) => if i < |st.leases| then SetExpires(st, i, len, at) else st
    case Rename(i, name, auth, domain) => if i < |st.leases| then SetHostname(st, i, name, auth, domain) else st
    case CallScript => ScriptRun(st).st
  }

  lemma StepKeeps(st: State, c: Change)
    requires Inv(st)
    ensures Inv(Step(st, c))
  {
    hide UniqueNames, SetHostname, ScriptRun, PruneFrom, Allocate;
    match c
    case TakeLease(v6, duid) => AllocateKeeps(st, v6, duid);
    case Prune(target, now) => PruneKeeps(st, target, now, 0);
    case Expire(i, len, at) => ExpireKeeps(st, i, len, at);
    case Rename(i, name, auth, domain) => if i < |st.leases| { SetHostnameKeeps(st, i, name, auth, domain); }
    case CallScript => RunKeeps(st);
  }

  lemma ExpireKeeps(st: State, i: nat, len: nat, now: int)
    requires Inv(st)
    ensures i < |st.leases| ==> Inv(SetExpires(st, i, len, now))
  {
    hide SameHost;
  }

  /** The state after some changes. */
  ghost function After(st: State, cs: seq<Change>): State
    requires Inv(st)
    decreases |cs|
  {
    if cs == [] then st
    else
      StepKeeps(st, cs[0]);
      After(Step(st, cs[0]), cs[1..])
  }

  /** In every state that can be reached the leases left and those there are add up to the
      limit, and no two IPv4 leases have the same name. */
  lemma {:induction false} RunsKeepInv(st: State, cs: seq<Change>)
    requires Inv(st)
    ensures Inv(After(st, cs))
    decreases |cs|
  {
    hide UniqueNames, Step;
    if cs != [] {
      StepKeeps(st, cs[0]);
      RunsKeepInv(Step(st, cs[0]), cs[1..]);
    }
  }
}
