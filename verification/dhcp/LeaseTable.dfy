/** The lists of leases as they are kept and changed. */
module LeaseTable {
  import opened HostNames
  import opened Wrappers
  import opened Leases

  class Table {
    var leases: seq<Lease>
    var gone: seq<Lease>
    var left: nat
    const max: nat
    const byFqdn: bool
    const readOnly: bool

    ghost function St(): State
      reads this
    {
      State(leases, gone, left, max, byFqdn, readOnly)
    }

    constructor (max: nat, byFqdn: bool, readOnly: bool)
      ensures Inv(St()) && leases == [] && gone == [] && left == max
    {
      this.max, this.byFqdn, this.readOnly := max, byFqdn, readOnly;
      leases, gone, left := [], [], max;
    }

    /** lease_allocate. */
    method AllocateLease(v6: bool, duid: Option<seq<nat>>) returns (ok: bool)
      modifies this
      ensures ok == Allocate(old(St()), v6, duid).Some?
      ensures St() == if ok then Allocate(old(St()), v6, duid).value else old(St())
    {
      if left == 0 {
        return false;
      }
      leases := [NewLease(v6, duid)] + leases;
      left := left - 1;
      ok := true;
    }

    /** lease_prune; target is a lease to end now. */
    method PruneLeases(target: Option<nat>, now: int)
      requires Inv(St())
      modifies this
      ensures St() == PruneFrom(old(St()), target, now, 0)
    {
      hide UniqueNames;
      var i: nat, t := 0, target;
      while i < |leases|
        invariant i <= |leases| && left + |leases| == max
        invariant PruneFrom(St(), t, now, i) == PruneFrom(old(St()), target, now, 0)
        decreases |leases| - i
      {
        if Ends(leases[i], now) || t == Some(i) {
          gone := [leases[i]] + gone;
          leases := leases[..i] + leases[i + 1..];
          left := left + 1;
          t := if t.Some? && t.value > i then Some(t.value - 1) else if t == Some(i) then None else t;
        } else {
          i := i + 1;
        }
      }
    }

    /** lease_set_expires. */
    method SetLeaseExpires(i: nat, len: nat, now: int)
      requires i < |leases|
      modifies this`leases
      ensures St() == SetExpires(old(St()), i, len, now)
    {
      var exp := if len == 0xffff_ffff then 0 else now + len;
      if exp != leases[i].expires {
        leases := leases[i := leases[i].(expires := exp, aux := true)];
      }
    }

    /** kill_name. */
    method KillName(i: nat)
      requires i < |leases|
      modifies this`leases
      ensures St() == Kill(old(St()), i)
    {
      leases := leases[i := Killed(leases[i])];
    }

    /** The search for another lease with the name. */
    method FindConflict(i: nat, key: Option<string>) returns (other: Option<nat>)
      requires i < |leases|
      ensures other == FirstConflict(St(), i, key, 0)
    {
      hide Conflicts;
      var j := 0;
      while j < |leases|
        invariant j <= |leases| && FirstConflict(St(), i, key, j) == FirstConflict(St(), i, key, 0)
      {
        if Clash(leases[i], leases[j], key) {
          ClashIs(St(), i, j, key);
          return Some(j);
        }
        ClashIs(St(), i, j, key);
        j := j + 1;
      }
      other := None;
    }

    predicate Clash(l: Lease, m: Lease, key: Option<string>) {
      && SameKey(Key(m, byFqdn), key) && m.v6 == l.v6
      && (l.v6 ==> !(l.duid.Some? && m.duid.Some? && l.duid == m.duid))
    }

    lemma ClashIs(st: State, i: nat, j: nat, key: Option<string>)
      requires i < |st.leases| && j < |st.leases| && st.byFqdn == byFqdn
      ensures Clash(st.leases[i], st.leases[j], key) == Conflicts(st, i, j, key)
    {
    }

    /** The end of lease_set_hostname: the old name is given up and the new one set. */
    method TakeName(i: nat, name: Option<string>, full: Option<string>, auth: bool)
      requires i < |leases|
      modifies this`leases
      ensures St() == Named(old(St()), i, name, full, auth)
    {
      if leases[i].hostname.Some? {
        KillName(i);
      }
      var m := leases[i];
      leases := leases[i := m.(hostname := name, fqdn := full, auth := m.auth || auth, changed := true)];
    }

    /** lease_set_hostname. */
    method SetLeaseHostname(i: nat, name: Option<string>, auth: bool, domain: Option<string>)
      requires i < |leases|
      modifies this`leases
      ensures St() == SetHostname(old(St()), i, name, auth, domain)
    {
      hide SameHost, FirstConflict, Named, Killed;
      if leases[i].hostname.Some? && name.Some? && SameHost(leases[i].hostname.value, name.value) {
        if auth {
          leases := leases[i := leases[i].(auth := true)];
        }
        return;
      }
      if name.None? {
        if leases[i].hostname.Some? {
          TakeName(i, None, None, auth);
        }
        return;
      }
      var full := FullName(name.value, domain);
      var other := FindConflict(i, if byFqdn then full else name);
      if other.Some? {
        if leases[other.value].auth && !auth {
          return;
        }
        KillName(other.value);
      }
      TakeName(i, name, full, auth);
    }

    /** do_script_run. */
    method DoScriptRun() returns (event: Option<Event>)
      modifies this`leases, this`gone
      ensures Run(St(), event) == ScriptRun(old(St()))
    {
      hide News;
      if gone != [] {
        var l := gone[0];
        if l.oldHostname.Some? {
          gone := gone[0 := l.(oldHostname := None)];
          return Some(Event(OldHostname, l, l.oldHostname));
        }
        gone := gone[1..];
        return Some(Event(Del, Killed(l), Killed(l).oldHostname));
      }
      var i := 0;
      while i < |leases|
        invariant i <= |leases| && FirstLost(leases, i) == FirstLost(leases, 0)
      {
        var l := leases[i];
        if l.oldHostname.Some? {
          leases := leases[i := l.(oldHostname := None)];
          return Some(Event(OldHostname, l, l.oldHostname));
        }
        i := i + 1;
      }
      i := 0;
      while i < |leases|
        invariant i <= |leases| && FirstNews(leases, readOnly, i) == FirstNews(leases, readOnly, 0)
      {
        var l := leases[i];
        if News(l, readOnly) {
          leases := leases[i := l.(isNew := false, changed := false, aux := false)];
          return Some(Event(if l.isNew then Add else Old, l, NameOf(l)));
        }
        i := i + 1;
      }
      event := None;
    }
  }
}
