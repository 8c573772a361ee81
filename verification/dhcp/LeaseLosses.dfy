/** What becomes of the names leases lose, counted name by name: each loss is announced, still
    waits to be announced, or was pushed out by a later loss of the same lease. */
module LeaseLosses {
  import opened HostNames
  import opened Wrappers
  import opened Leases

  // ----- what waits -----

  function Is(name: Option<string>, n: string): nat {
    if name == Some(n) then 1 else 0
  }

  /** The losses of n that wait to be announced among some leases. */
  function Waiting(ls: seq<Lease>, n: string): nat {
    if ls == [] then 0 else Is(ls[0].oldHostname, n) + Waiting(ls[1..], n)
  }

  function AllWaiting(st: State, n: string): nat {
    Waiting(st.gone, n) + Waiting(st.leases, n)
  }

  lemma {:induction false} WaitingUpdate(ls: seq<Lease>, i: nat, l: Lease, n: string)
    requires i < |ls|
    ensures Waiting(ls[i := l], n) == Waiting(ls, n) - Is(ls[i].oldHostname, n) + Is(l.oldHostname, n)
    decreases i
  {
    hide Is;
    if i > 0 {
      assert ls[i := l][1..] == ls[1..][i - 1 := l];
      WaitingUpdate(ls[1..], i - 1, l, n);
    } else {
      assert ls[i := l][1..] == ls[1..];
    }
  }

  lemma {:induction false} WaitingAppend(a: seq<Lease>, b: seq<Lease>, n: string)
    ensures Waiting(a + b, n) == Waiting(a, n) + Waiting(b, n)
    decreases |a|
  {
    hide Is;
    if a == [] {
      assert a + b == b;
    } else {
      assert (a + b)[1..] == a[1..] + b;
      WaitingAppend(a[1..], b, n);
    }
  }

  /** A lease that ends takes what waits for it along. */
  lemma DropWaiting(st: State, i: nat, n: string)
    requires i < |st.leases|
    ensures Waiting(st.leases[..i] + st.leases[i + 1..], n) + Waiting([st.leases[i]] + st.gone, n) == AllWaiting(st, n)
  {
    hide Waiting, Is;
    var a, l, b := st.leases[..i], [st.leases[i]], st.leases[i + 1..];
    assert st.leases == a + (l + b);
    WaitingAppend(a, l + b, n);
    WaitingAppend(l, b, n);
    WaitingAppend(a, b, n);
    WaitingAppend(l, st.gone, n);
  }

  lemma {:induction false} PruneWaiting(st: State, target: Option<nat>, now: int, i: nat, n: string)
    requires i <= |st.leases| && st.left + |st.leases| == st.max
    ensures AllWaiting(PruneFrom(st, target, now, i), n) == AllWaiting(st, n)
    decreases |st.leases| - i
  {
    hide Waiting;
    if i < |st.leases| {
      if Ends(st.leases[i], now) || target == Some(i) {
        DropWaiting(st, i, n);
        PruneWaiting(st.(leases := st.leases[..i] + st.leases[i + 1..], gone := [st.leases[i]] + st.gone,
                         left := st.left + 1),
                     if target.Some? && target.value > i then Some(target.value - 1)
                     else if target == Some(i) then None else target, now, i, n);
      } else {
        PruneWaiting(st, target, now, i + 1, n);
      }
    }
  }

  // ----- one step -----

  /** The lease that has to give up the name another one takes. */
  function Rival(st: State, i: nat, name: Option<string>, domain: Option<string>): (r: Option<nat>)
    requires i < |st.leases|
    ensures r.Some? ==> r.value < |st.leases|
  {
    if name.None? then None
    else FirstConflict(st, i, if st.byFqdn then FullName(name.value, domain) else name, 0)
  }

  /** The leases kill_name is called for in a change. */
  function Victims(st: State, c: Change): (vs: seq<nat>)
    ensures |vs| <= 2 && (|vs| == 2 ==> vs[0] != vs[1])
    ensures forall k :: 0 <= k < |vs| ==> vs[k] < |st.leases|
  {
    if !c.Rename? || c.lease >= |st.leases| then [] else
    var l, rival := st.leases[c.lease], Rival(st, c.lease, c.name, c.domain);
    if (l.hostname.Some? && c.name.Some? && SameHost(l.hostname.value, c.name.value))
       || (c.name.None? && l.hostname.None?)
       || (rival.Some? && st.leases[rival.value].auth && !c.auth)
    then []
    else (if rival.Some? then [rival.value] else [])
         + (if l.hostname.Some? && rival != Some(c.lease) then [c.lease] else [])
  }

  /** How often n is lost. */
  function Lost(st: State, vs: seq<nat>, n: string): nat
    requires forall k :: 0 <= k < |vs| ==> vs[k] < |st.leases|
  {
    if vs == [] then 0 else Is(NameOf(st.leases[vs[0]]), n) + Lost(st, vs[1..], n)
  }

  /** How many earlier losses of n give way to those losses. */
  function PushedOut(st: State, vs: seq<nat>, n: string): nat
    requires forall k :: 0 <= k < |vs| ==> vs[k] < |st.leases|
  {
    if vs == [] then 0 else Is(st.leases[vs[0]].oldHostname, n) + PushedOut(st, vs[1..], n)
  }

  /** The loss that is announced. */
  function Announced(st: State, c: Change): Option<string> {
    if !c.CallScript? then None else
    match ScriptRun(st).event
    case Some(e) => if e.action == OldHostname then e.name else None
    case None => None
  }

  /** kill_name is called for no lease for which a loss waits. */
  predicate Spares(st: State, c: Change) {
    forall v :: v in Victims(st, c) ==> st.leases[v].oldHostname.None?
  }

  lemma KillWaiting(st: State, i: nat, n: string)
    requires i < |st.leases|
    ensures AllWaiting(Kill(st, i), n)
         == AllWaiting(st, n) - Is(st.leases[i].oldHostname, n) + Is(NameOf(st.leases[i]), n)
  {
    hide Waiting, Is;
    WaitingUpdate(st.leases, i, Killed(st.leases[i]), n);
  }

  lemma NamedWaiting(st: State, i: nat, name: Option<string>, full: Option<string>, auth: bool, n: string)
    requires i < |st.leases|
    ensures var l := st.leases[i];
      AllWaiting(Named(st, i, name, full, auth), n) == AllWaiting(st, n)
        + if l.hostname.Some? then Is(NameOf(l), n) - Is(l.oldHostname, n) else 0
  {
    hide Waiting, Is;
    var s := if st.leases[i].hostname.Some? then Kill(st, i) else st;
    if st.leases[i].hostname.Some? {
      KillWaiting(st, i, n);
    }
    WaitingUpdate(s.leases, i, Named(st, i, name, full, auth).leases[i], n);
  }

  lemma RenameBalances(st: State, c: Change, n: string)
    requires c.Rename? && c.lease < |st.leases|
    ensures var vs := Victims(st, c);
      AllWaiting(st, n) + Lost(st, vs, n)
      == AllWaiting(SetHostname(st, c.lease, c.name, c.auth, c.domain), n) + PushedOut(st, vs, n)
  {
    hide Waiting, Is, SameHost, FirstConflict, Kill, Named, FullName, NameOf;
    var l, rival := st.leases[c.lease], Rival(st, c.lease, c.name, c.domain);
    var full := if c.name.Some? then FullName(c.name.value, c.domain) else None;
    if l.hostname.Some? && c.name.Some? && SameHost(l.hostname.value, c.name.value) {
      WaitingUpdate(st.leases, c.lease, l.(auth := l.auth || c.auth), n);
    } else if !(c.name.None? && l.hostname.None?) && !(rival.Some? && st.leases[rival.value].auth && !c.auth) {
      VictimSums(st, rival, l.hostname.Some? && rival != Some(c.lease), c.lease, n);
      var s := if rival.Some? then Kill(st, rival.value) else st;
      if rival.Some? {
        KillWaiting(st, rival.value, n);
        Killing(st, rival.value, c.lease);
      }
      NamedWaiting(s, c.lease, c.name, full, c.auth, n);
    }
  }

  lemma VictimSums(st: State, rival: Option<nat>, own: bool, i: nat, n: string)
    requires i < |st.leases| && (rival.Some? ==> rival.value < |st.leases|)
    ensures var vs := (if rival.Some? then [rival.value] else []) + (if own then [i] else []);
      && Lost(st, vs, n) == (if rival.Some? then Is(NameOf(st.leases[rival.value]), n) else 0)
                            + (if own then Is(NameOf(st.leases[i]), n) else 0)
      && PushedOut(st, vs, n) == (if rival.Some? then Is(st.leases[rival.value].oldHostname, n) else 0)
                                 + (if own then Is(st.leases[i].oldHostname, n) else 0)
  {
    hide Is, NameOf;
    var vs := (if rival.Some? then [rival.value] else []) + (if own then [i] else []);
    OneVictim(st, i, n);
    if vs != [] {
      assert vs[1..] == if rival.Some? && own then [i] else [];
    }
  }

  lemma OneVictim(st: State, v: nat, n: string)
    requires v < |st.leases|
    ensures Lost(st, [v], n) == Is(NameOf(st.leases[v]), n) && Lost(st, [], n) == 0
    ensures PushedOut(st, [v], n) == Is(st.leases[v].oldHostname, n) && PushedOut(st, [], n) == 0
  {
    assert [v][1..] == [];
  }

  /** kill_name takes a lease's names and leaves the other leases alone. */
  lemma Killing(st: State, k: nat, i: nat)
    requires k < |st.leases| && i < |st.leases|
    ensures |Kill(st, k).leases| == |st.leases|
    ensures if i == k then Kill(st, k).leases[i].hostname.None? else Kill(st, k).leases[i] == st.leases[i]
  {
  }

  lemma ScriptBalances(st: State, n: string)
    ensures AllWaiting(st, n) == AllWaiting(ScriptRun(st).st, n) + Is(Announced(st, CallScript), n)
  {
    hide Waiting, Is;
    var r := ScriptRun(st);
    if st.gone != [] {
      var l := st.gone[0];
      if l.oldHostname.Some? {
        WaitingUpdate(st.gone, 0, l.(oldHostname := None), n);
        NoName(n);
      } else {
        assert st.gone == [l] + st.gone[1..];
        WaitingAppend([l], st.gone[1..], n);
        OneWaiting(l, n);
      }
    } else {
      match FirstLost(st.leases, 0) {
        case Some(i) =>
          WaitingUpdate(st.leases, i, st.leases[i].(oldHostname := None), n);
          NoName(n);
        case None =>
          var news := FirstNews(st.leases, st.readOnly, 0);
          NoName(n);
          if news.Some? {
            WaitingUpdate(st.leases, news.value, r.st.leases[news.value], n);
          }
      }
    }
  }

  lemma NoName(n: string)
    ensures Is(None, n) == 0
  {
  }

  lemma OneWaiting(l: Lease, n: string)
    ensures Waiting([l], n) == Is(l.oldHostname, n)
  {
    assert [l][1..] == [];
  }

  /** In every step the losses that waited and those that come are the ones that wait
      afterwards, the one announced and the ones pushed out. */
  lemma StepBalances(st: State, c: Change, n: string)
    requires st.left + |st.leases| == st.max
    ensures AllWaiting(st, n) + Lost(st, Victims(st, c), n)
         == AllWaiting(Step(st, c), n) + Is(Announced(st, c), n) + PushedOut(st, Victims(st, c), n)
  {
    hide Waiting, Is, SetHostname, ScriptRun, PruneFrom;
    NoName(n);
    match c
    case TakeLease(v6, duid) =>
      WaitingAppend([NewLease(v6, duid)], st.leases, n);
      OneWaiting(NewLease(v6, duid), n);
    case Prune(target, now) => PruneWaiting(st, target, now, 0, n);
    case Expire(i, len, at) =>
      if i < |st.leases| {
        WaitingUpdate(st.leases, i, SetExpires(st, i, len, at).leases[i], n);
      }
    case Rename(i, _, _, _) => if i < |st.leases| { RenameBalances(st, c, n); }
    case CallScript => ScriptBalances(st, n);
  }

  // ----- runs -----

  ghost function LostIn(st: State, cs: seq<Change>, n: string): nat
    requires Inv(st)
    decreases |cs|
  {
    if cs == [] then 0
    else
      StepKeeps(st, cs[0]);
      Lost(st, Victims(st, cs[0]), n) + LostIn(Step(st, cs[0]), cs[1..], n)
  }

  ghost function AnnouncedIn(st: State, cs: seq<Change>, n: string): nat
    requires Inv(st)
    decreases |cs|
  {
    if cs == [] then 0
    else
      StepKeeps(st, cs[0]);
      Is(Announced(st, cs[0]), n) + AnnouncedIn(Step(st, cs[0]), cs[1..], n)
  }

  ghost function PushedOutIn(st: State, cs: seq<Change>, n: string): nat
    requires Inv(st)
    decreases |cs|
  {
    if cs == [] then 0
    else
      StepKeeps(st, cs[0]);
      PushedOut(st, Victims(st, cs[0]), n) + PushedOutIn(Step(st, cs[0]), cs[1..], n)
  }

  ghost predicate SparesAll(st: State, cs: seq<Change>)
    requires Inv(st)
    decreases |cs|
  {
    cs == [] ||
    (StepKeeps(st, cs[0]);
     Spares(st, cs[0]) && SparesAll(Step(st, cs[0]), cs[1..]))
  }

  /** Over every run no loss is gained and none disappears: each is announced, waits, or was
      pushed out. */
  lemma {:induction false} RunBalances(st: State, cs: seq<Change>, n: string)
    requires Inv(st)
    ensures AllWaiting(st, n) + LostIn(st, cs, n)
         == AllWaiting(After(st, cs), n) + AnnouncedIn(st, cs, n) + PushedOutIn(st, cs, n)
    decreases |cs|
  {
    hide Inv, AllWaiting, Lost, PushedOut, Announced, Is, Step, Victims;
    if cs != [] {
      StepKeeps(st, cs[0]);
      InvCounts(st);
      StepBalances(st, cs[0], n);
      RunBalances(Step(st, cs[0]), cs[1..], n);
    }
  }

  lemma InvCounts(st: State)
    requires Inv(st)
    ensures st.left + |st.leases| == st.max
  {
  }

  lemma SparedStep(st: State, c: Change)
    ensures Spares(st, c) ==> forall n :: PushedOut(st, Victims(st, c), n) == 0
    ensures !Spares(st, c) ==> exists n :: PushedOut(st, Victims(st, c), n) > 0
  {
    hide Victims;
    var vs := Victims(st, c);
    if Spares(st, c) {
      forall n ensures PushedOut(st, vs, n) == 0 {
        if |vs| > 0 {
          OneVictim(st, vs[|vs| - 1], n);
          assert vs[0] in vs && vs[1..] == if |vs| == 2 then [vs[1]] else [];
          assert |vs| == 2 ==> vs[1] in vs;
        }
      }
    } else {
      var v :| v in vs && st.leases[v].oldHostname.Some?;
      var n := st.leases[v].oldHostname.value;
      OneVictim(st, v, n);
      assert vs[1..] == if |vs| == 2 then [vs[1]] else [];
      assert PushedOut(st, vs, n) > 0;
    }
  }

  lemma {:induction false} SparedRun(st: State, cs: seq<Change>)
    requires Inv(st)
    ensures SparesAll(st, cs) ==> forall n :: PushedOutIn(st, cs, n) == 0
    ensures !SparesAll(st, cs) ==> exists n :: PushedOutIn(st, cs, n) > 0
    decreases |cs|
  {
    hide Inv, Spares, PushedOut, Step, Victims;
    if cs != [] {
      StepKeeps(st, cs[0]);
      InvCounts(st);
      var next := Step(st, cs[0]);
      SparedStep(st, cs[0]);
      SparedRun(next, cs[1..]);
      if !Spares(st, cs[0]) {
        var n :| PushedOut(st, Victims(st, cs[0]), n) > 0;
        assert PushedOutIn(st, cs, n) > 0;
      } else if !SparesAll(next, cs[1..]) {
        var n :| PushedOutIn(next, cs[1..], n) > 0;
        assert PushedOutIn(st, cs, n) > 0;
      }
    }
  }

  /** Over a run all losses are announced or still wait exactly if no lease loses a name while
      an earlier loss of it waits. */
  lemma LossesKept(st: State, cs: seq<Change>)
    requires Inv(st)
    ensures SparesAll(st, cs) <==>
      forall n :: AllWaiting(st, n) + LostIn(st, cs, n) == AllWaiting(After(st, cs), n) + AnnouncedIn(st, cs, n)
  {
    hide Inv, SparesAll, AllWaiting, LostIn, AnnouncedIn, PushedOutIn, After;
    SparedRun(st, cs);
    forall n ensures AllWaiting(st, n) + LostIn(st, cs, n)
                  == AllWaiting(After(st, cs), n) + AnnouncedIn(st, cs, n) + PushedOutIn(st, cs, n)
    {
      RunBalances(st, cs, n);
    }
  }

  // ----- announcing -----

  function Calls(k: nat): seq<Change> {
    if k == 0 then [] else [CallScript] + Calls(k - 1)
  }

  /** As many calls of the script as there are events pending announce all losses that wait. */
  lemma {:induction false} CallsAnnounce(st: State, k: nat, n: string)
    requires Inv(st) && Pending(st) <= k
    ensures AnnouncedIn(st, Calls(k), n) == AllWaiting(st, n) && AllWaiting(After(st, Calls(k)), n) == 0
    decreases k
  {
    hide Inv, Announced, Is, ScriptRun, Pending, AllWaiting;
    if k == 0 {
      NoneWaiting(st, n);
    } else {
      assert Calls(k)[1..] == Calls(k - 1);
      StepKeeps(st, CallScript);
      ScriptBalances(st, n);
      RunAnnouncesOne(st);
      var next := ScriptRun(st).st;
      IdleScript(st);
      CallsAnnounce(next, k - 1, n);
    }
  }

  lemma IdleScript(st: State)
    ensures ScriptRun(st).event.None? ==> ScriptRun(st).st == st
  {
  }

  lemma NoneWaiting(st: State, n: string)
    requires Pending(st) == 0
    ensures AllWaiting(st, n) == 0
  {
    NothingPending(st.leases, st.readOnly);
    NoLosses(st.leases, n);
  }

  lemma {:induction false} NoLosses(ls: seq<Lease>, n: string)
    requires forall k :: 0 <= k < |ls| ==> ls[k].oldHostname.None?
    ensures Waiting(ls, n) == 0
    decreases |ls|
  {
    if ls != [] {
      NoLosses(ls[1..], n);
    }
  }

  // ----- a run that loses one -----

  /** A lease with a name, and one whose loss waits. */
  function Sole(hostname: Option<string>, oldHostname: Option<string>): State {
    var l := NewLease(false, None);
    State([l.(hostname := hostname, oldHostname := oldHostname, changed := hostname.Some?)], [], 0, 1, false, false)
  }

  lemma RenameSole(name: Option<string>, waiting: Option<string>, next: string)
    requires name.Some? ==> !SameHost(name.value, next)
    ensures var st, c := Sole(name, waiting), Rename(0, Some(next), false, None);
      && Victims(st, c) == (if name.Some? then [0] else [])
      && Step(st, c) == Sole(Some(next), if name.Some? then name else waiting)
  {
    var st := Sole(name, waiting);
    assert FirstConflict(st, 0, Some(next), 0).None?;
  }

  lemma OneMore(st: State, c: Change, cs: seq<Change>, n: string)
    requires Inv(st)
    ensures Inv(Step(st, c)) && var next, all := Step(st, c), [c] + cs;
      && After(st, all) == After(next, cs)
      && LostIn(st, all, n) == Lost(st, Victims(st, c), n) + LostIn(next, cs, n)
      && AnnouncedIn(st, all, n) == Is(Announced(st, c), n) + AnnouncedIn(next, cs, n)
      && (SparesAll(st, all) <==> Spares(st, c) && SparesAll(next, cs))
  {
    hide Inv, Step, Victims, Lost, Announced, Is, Spares;
    StepKeeps(st, c);
    assert ([c] + cs)[0] == c && ([c] + cs)[1..] == cs;
  }

  /** A lease that is named a, b and c before the script is called: two names are lost, and only
      the second waits to be announced. */
  lemma ThreeNames(n: string)
    ensures var st := State([], [], 1, 1, false, false);
      var cs := [TakeLease(false, None)] + [Rename(0, Some("a"), false, None)]
              + [Rename(0, Some("b"), false, None)] + [Rename(0, Some("c"), false, None)];
      && Inv(st) && !SparesAll(st, cs)
      && LostIn(st, cs, n) == (if n == "a" || n == "b" then 1 else 0)
      && AllWaiting(After(st, cs), n) == (if n == "b" then 1 else 0)
      && AnnouncedIn(st, cs, n) == 0
  {
    hide SameHost, Step, Victims;
    var st := State([], [], 1, 1, false, false);
    var c0, c1 := TakeLease(false, None), Rename(0, Some("a"), false, None);
    var c2, c3 := Rename(0, Some("b"), false, None), Rename(0, Some("c"), false, None);
    NamesDiffer();
    FirstLease(st);
    RenameSole(None, None, "a");
    RenameSole(Some("a"), None, "b");
    RenameSole(Some("b"), Some("a"), "c");
    OneMore(st, c0, [c1, c2, c3], n);
    OneMore(Sole(None, None), c1, [c2, c3], n);
    OneMore(Sole(Some("a"), None), c2, [c3], n);
    OneMore(Sole(Some("b"), Some("a")), c3, [], n);
    OneVictim(Sole(Some("a"), None), 0, n);
    OneVictim(Sole(Some("b"), Some("a")), 0, n);
    OneVictim(Sole(None, None), 0, n);
    OneWaiting(Sole(Some("c"), Some("b")).leases[0], n);
    assert [c0] + [c1, c2, c3] == [c0] + [c1] + [c2] + [c3];
    assert [c1] + [c2, c3] == [c1, c2, c3] && [c2] + [c3] == [c2, c3] && [c3] + [] == [c3];
  }

  lemma FirstLease(st: State)
    requires st == State([], [], 1, 1, false, false)
    ensures Victims(st, TakeLease(false, None)) == [] && Step(st, TakeLease(false, None)) == Sole(None, None)
  {
    assert [NewLease(false, None)] + [] == [NewLease(false, None)];
  }

  lemma NamesDiffer()
    ensures !SameHost("a", "b") && !SameHost("b", "c")
  {
    assert LowerChar("a"[0]) != LowerChar("b"[0]) && LowerChar("b"[0]) != LowerChar("c"[0]);
  }
}
