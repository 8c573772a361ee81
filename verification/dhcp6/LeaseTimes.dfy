/** How long leases last, and when they are renewed (rfc3315.c, with the settings option.c
    makes). */
module LeaseTimes {
  import opened Wrappers

  const INFINITE: nat := 0xffff_ffff
  const DEFLEASE: nat := 3600
  const SHORTEST: nat := 120

  type word = v: nat | v <= INFINITE

  /** A lease time in a range of addresses or for a host, as it is configured. */
  datatype Setting = Unset | Endless | Seconds(value: word)

  /** The time a setting makes. A range always has one; a host has one if it is set. */
  function SettingTime(s: Setting): (t: word)
    ensures t >= SHORTEST
  {
    match s
    case Unset => DEFLEASE
    case Endless => INFINITE
    case Seconds(v) => if v < SHORTEST then SHORTEST else v
  }

  function Configured(host: Setting, range: Setting): word {
    SettingTime(if host.Unset? then range else host)
  }

  function Least(a: nat, b: nat): nat {
    if b < a then b else a
  }

  /** The lesser of what is configured and what is asked for, but not too short. */
  function LeaseTime(host: Setting, range: Setting, requested: Option<word>): (t: word)
    ensures SHORTEST <= t <= Configured(host, range)
  {
    if requested.None? then Configured(host, range)
    else Least(Configured(host, range), if requested.value < SHORTEST then SHORTEST else requested.value)
  }

  /** The tests for a time without end make no difference to that. */
  method ChooseTime(host: Setting, range: Setting, requested: Option<word>) returns (t: word)
    ensures t == LeaseTime(host, range, requested)
  {
    t := if !host.Unset? then SettingTime(host) else SettingTime(range);
    if requested.Some? {
      var asked := requested.value;
      if asked < SHORTEST {
        asked := SHORTEST;
      }
      if t == INFINITE || (asked != INFINITE && asked < t) {
        t := asked;
      }
    }
  }

  /** A client that asks for no time gets what is configured; one that asks for two minutes at
      least gets what it asks for, or what is configured if that is less; one that asks for less
      gets two minutes. The host's setting comes before the range's; without any it is an hour. */
  lemma TimesAsked(host: Setting, range: Setting, asked: word)
    ensures LeaseTime(host, range, None) == Configured(host, range)
    ensures 120 <= asked <= Configured(host, range) ==> LeaseTime(host, range, Some(asked)) == asked
    ensures asked > Configured(host, range) ==> LeaseTime(host, range, Some(asked)) == Configured(host, range)
    ensures asked < 120 ==> LeaseTime(host, range, Some(asked)) == 120
    ensures host.Seconds? && host.value >= 120 ==> Configured(host, range) == host.value
    ensures host.Unset? && range.Seconds? && range.value >= 120 ==> Configured(host, range) == range.value
    ensures host.Endless? || (host.Unset? && range.Endless?) ==> Configured(host, range) == 0xffff_ffff
    ensures host.Unset? && range.Unset? ==> Configured(host, range) == 3600
    ensures Configured(host, range) >= 120
  {
  }

  // ----- renewal times -----

  /** T1 and T2 of a grant, from the least of the lease times. */
  function Times(min: nat): (nat, nat) {
    if min == INFINITE then (INFINITE, INFINITE) else (min / 2, min / 8 * 7)
  }

  /** The fuzz of a renewal is halved until it is small. */
  function Tamed(fuzz: nat, min: nat): (r: nat)
    ensures r <= min / 16
    decreases fuzz
  {
    if fuzz > min / 16 then Tamed(fuzz / 2, min) else fuzz
  }

  function Halved(fuzz: nat, times: nat): nat {
    if times == 0 then fuzz else Halved(fuzz, times - 1) / 2
  }

  lemma {:induction false} HalvedFirst(fuzz: nat, times: nat)
    ensures Halved(fuzz / 2, times) == Halved(fuzz, times + 1)
    decreases times
  {
    if times > 0 {
      HalvedFirst(fuzz, times - 1);
    }
  }

  /** It is halved no more often than it takes. */
  lemma {:induction false} TamedOften(fuzz: nat, min: nat) returns (times: nat)
    ensures Tamed(fuzz, min) == Halved(fuzz, times)
    ensures times > 0 ==> Halved(fuzz, times - 1) > min / 16
    decreases fuzz
  {
    times := 0;
    if fuzz > min / 16 {
      var k := TamedOften(fuzz / 2, min);
      HalvedFirst(fuzz, k);
      if k > 0 {
        HalvedFirst(fuzz, k - 1);
      }
      times := k + 1;
    }
  }

  function FuzzyTimes(min: nat, fuzz: nat): (r: (nat, nat)) {
    var f := Tamed(fuzz, min);
    if min == INFINITE then (INFINITE, INFINITE)
    else (min / 2 - f, min / 8 * 7 - f)
  }

  /** The times are in order exactly if the least lease time is 0, 1 or at least 8, and they
      are never after it. */
  lemma TimesOrdered(min: nat, fuzz: nat)
    requires min <= INFINITE
    ensures Times(min).0 <= Times(min).1 <==> min < 2 || min >= 8
    ensures Times(min).0 <= min && Times(min).1 <= min
    ensures FuzzyTimes(min, fuzz).0 <= FuzzyTimes(min, fuzz).1 <==> min < 2 || min >= 8
    ensures FuzzyTimes(min, fuzz).0 <= min && FuzzyTimes(min, fuzz).1 <= min
  {
    hide Tamed;
  }
}
