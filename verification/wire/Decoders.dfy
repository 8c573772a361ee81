/** The two ways names are decoded here: the reader of packets, which counts the pointers it
    follows, and the decoding of the domain search option, whose pointers only lead back. */
module Decoders {
  import opened BigEndian
  import opened Wrappers
  import opened Bytes
  import opened DomainSearch
  import opened Packets

  /** Pointers in the name at i. */
  function Pointers(b: seq<byte>, i: nat, run: nat): nat
    requires Decode(b, i, run).Some?
    decreases run, |b| - i
  {
    if b[i] == 0 then 0
    else if IsPointer(b[i]) then 1 + Pointers(b, Target(b[i], b[i + 1]), Target(b[i], b[i + 1]))
    else Pointers(b, i + 1 + b[i], run)
  }

  /** A name of the option is what the reader of packets reads exactly if it has no more pointers
      than the reader follows; otherwise the reader refuses it. */
  lemma {:induction false} DecodersAgree(b: seq<byte>, i: nat, run: nat, hops: nat)
    requires Decode(b, i, run).Some? && hops <= MAXHOPS
    ensures var d, r := Decode(b, i, run).value, Follow(b, i, hops);
      && (r.Some? <==> hops + Pointers(b, i, run) <= MAXHOPS)
      && (r.Some? ==> r.value.labels == d.labels && r.value.resume == d.next)
    decreases run, |b| - i
  {
    if IsPointer(b[i]) {
      if hops < MAXHOPS {
        var t := Target(b[i], b[i + 1]);
        DecodersAgree(b, t, t, hops + 1);
      }
    } else if b[i] != 0 {
      DecodersAgree(b, i + 1 + b[i], run, hops);
    }
  }
}
