/** DHCPv6 options (RFC 3315, section 22.1): nested options as trees, their bytes, and what
    walking the bytes finds. */
module Options6 {
  import opened BigEndian
  import opened Wrappers

  // ----- options as trees -----

  /** An option: fixed fields and then options inside it. */
  datatype Node = Node(kind: nat, head: seq<byte>, kids: Nodes)
  datatype Nodes = Nil | Cons(first: Node, rest: Nodes)

  function Body(n: Node): seq<byte>
    decreases n, 0
  {
    n.head + Bytes(n.kids)
  }

  /** Type, length and body; the length field keeps 16 bits. */
  function NodeBytes(n: Node): (b: seq<byte>)
    decreases n, 1
  {
    Two(n.kind) + Two(|Body(n)|) + Body(n)
  }

  function Bytes(ns: Nodes): seq<byte>
    decreases ns
  {
    if ns.Nil? then [] else NodeBytes(ns.first) + Bytes(ns.rest)
  }

  // ----- walking -----

  /** One option at the start of a stretch of bytes, and where the next one starts. opt6_next
      has no next one when the option reaches, or passes, the end. */
  datatype Step = Step(kind: nat, body: seq<byte>, next: Option<seq<byte>>)

  function Walk(b: seq<byte>): (r: Option<Step>)
    ensures r.Some? ==> |r.value.body| + 4 <= |b| && r.value.kind < 0x1_0000
    ensures r.Some? && r.value.next.Some? ==> |r.value.next.value| < |b|
  {
    if |b| < 4 || GetTwo(b, 2) > |b| - 4 then None else
    var len := GetTwo(b, 2);
    Some(Step(GetTwo(b, 0), b[4..4 + len], if len >= |b| - 4 then None else Some(b[4 + len..])))
  }

  /** The walk over b, and over the bodies behind their fixed fields, meets just these
      options. */
  predicate WalksTo(b: seq<byte>, ns: Nodes)
    decreases ns
  {
    match ns
    case Nil => b == []
    case Cons(n, rest) =>
      match Walk(b)
      case None => false
      case Some(s) =>
        && s.kind == n.kind && |n.head| <= |s.body| && s.body[..|n.head|] == n.head
        && WalksTo(s.body[|n.head|..], n.kids)
        && (if s.next.None? then rest.Nil? else rest.Cons? && WalksTo(s.next.value, rest))
  }

  /** Types and lengths that the two byte fields can hold. */
  predicate Fit(ns: Nodes)
    decreases ns
  {
    ns.Cons? ==>
      && ns.first.kind < 0x1_0000 && |Body(ns.first)| < 0x1_0000
      && Fit(ns.first.kids) && Fit(ns.rest)
  }

  lemma WalkNode(n: Node, more: seq<byte>)
    requires n.kind < 0x1_0000 && |Body(n)| < 0x1_0000
    ensures Walk(NodeBytes(n) + more) == Some(Step(n.kind, Body(n), if more == [] then None else Some(more)))
  {
    hide Body, GetTwo;
    var b, len := NodeBytes(n) + more, |Body(n)|;
    Field(b, 0, n.kind);
    Field(b, 2, len);
    assert b[4..4 + len] == Body(n);
    assert b[4 + len..] == more;
  }

  lemma Field(b: seq<byte>, i: nat, v: nat)
    requires v < 0x1_0000 && i + 2 <= |b| && b[i..i + 2] == Two(v)
    ensures GetTwo(b, i) == v
  {
    TwoRoundTrip(v);
    assert b[i] == b[i..i + 2][0] && b[i + 1] == b[i..i + 2][1];
  }

  /** Walking the bytes of a tree of options gives back the tree. */
  lemma {:induction false} BytesWalk(ns: Nodes)
    requires Fit(ns)
    ensures WalksTo(Bytes(ns), ns)
    decreases ns
  {
    if ns.Cons? {
      hide Walk, NodeBytes;
      WalkNode(ns.first, Bytes(ns.rest));
      BytesWalk(ns.first.kids);
      BytesWalk(ns.rest);
      BytesEmpty(ns.rest);
      assert Body(ns.first)[..|ns.first.head|] == ns.first.head;
      assert Body(ns.first)[|ns.first.head|..] == Bytes(ns.first.kids);
    }
  }

  lemma BytesEmpty(ns: Nodes)
    ensures Bytes(ns) == [] <==> ns.Nil?
  {
  }

  /** The walk finds one tree only, given how long the fixed fields are. */
  predicate SameShape(ms: Nodes, ns: Nodes)
    decreases ms
  {
    match ms
    case Nil => true
    case Cons(m, rest) =>
      ns.Cons? ==> |m.head| == |ns.first.head| && SameShape(m.kids, ns.first.kids) && SameShape(rest, ns.rest)
  }

  lemma {:induction false} WalkUnique(b: seq<byte>, ms: Nodes, ns: Nodes)
    requires WalksTo(b, ms) && WalksTo(b, ns) && SameShape(ms, ns)
    ensures ms == ns
    decreases ms
  {
    hide Walk;
    match ms
    case Nil => assert ns.Nil? by { WalkNothing(ns); }
    case Cons(m, rest) =>
      if ns.Cons? {
        var s := Walk(b).value;
        WalkUnique(s.body[|m.head|..], m.kids, ns.first.kids);
        if rest.Cons? {
          WalkUnique(s.next.value, rest, ns.rest);
        }
      } else {
        WalkNothing(ms);
      }
  }

  lemma WalkNothing(ns: Nodes)
    requires WalksTo([], ns)
    ensures ns.Nil?
  {
  }

  // ----- finding -----

  /** opt6_find: the first option of the type whose body is long enough. */
  function Find(b: seq<byte>, kind: nat, min: nat): Option<Step>
    decreases |b|
  {
    match Walk(b)
    case None => None
    case Some(s) =>
      if s.kind == kind && |s.body| >= min then Some(s)
      else if s.next.None? then None
      else Find(s.next.value, kind, min)
  }

  function FirstOf(ns: Nodes, kind: nat, min: nat): Option<Node> {
    if ns.Nil? then None
    else if ns.first.kind == kind && |Body(ns.first)| >= min then Some(ns.first)
    else FirstOf(ns.rest, kind, min)
  }

  /** On the bytes of some options the search finds the first of them that fits, and fails
      only if none does. */
  lemma {:induction false} FindMeets(ns: Nodes, kind: nat, min: nat)
    requires Fit(ns)
    ensures var f := Find(Bytes(ns), kind, min);
      match FirstOf(ns, kind, min)
      case None => f.None?
      case Some(n) => f.Some? && f.value.kind == kind && f.value.body == Body(n)
    decreases ns
  {
    hide Walk, NodeBytes, Body;
    if ns.Cons? {
      WalkNode(ns.first, Bytes(ns.rest));
      BytesEmpty(ns.rest);
      FindMeets(ns.rest, kind, min);
    } else {
      assert Walk([]).None? by { WalkEmpty(); }
    }
  }

  lemma WalkEmpty()
    ensures Walk([]).None?
  {
  }

  /** The loop of opt6_find, with the header read field by field. */
  method FindOption(b: seq<byte>, kind: nat, min: nat) returns (found: Option<Step>)
    ensures found == Find(b, kind, min)
  {
    var rest := b;
    while |rest| >= 4
      invariant Find(rest, kind, min) == Find(b, kind, min)
      decreases |rest|
    {
      var opt, len := GetTwo(rest, 0), GetTwo(rest, 2);
      if len > |rest| - 4 {
        return None;
      }
      if opt == kind && len >= min {
        return Walk(rest);
      }
      EndOfWalk(rest, kind, min);
      rest := rest[4 + len..];
    }
    found := None;
  }

  /** Behind the last option there is nothing to find. */
  lemma EndOfWalk(b: seq<byte>, kind: nat, min: nat)
    requires |b| >= 4 && GetTwo(b, 2) <= |b| - 4
    requires !(GetTwo(b, 0) == kind && GetTwo(b, 2) >= min)
    ensures Find(b, kind, min) == Find(b[4 + GetTwo(b, 2)..], kind, min)
  {
    var rest := b[4 + GetTwo(b, 2)..];
    if GetTwo(b, 2) == |b| - 4 {
      assert rest == [];
    }
  }
}
