/** Relayed messages (RFC 3315, section 20): a relay-forward message carries another message in
    one of its options, to any depth; the reply has the same layers around the server's answer
    to the innermost one. */
module Relay {
  import opened BigEndian
  import opened Wrappers
  import opened Options6
  import opened OutPacket

  const RELAY_FORW: byte := 12
  const RELAY_REPL: byte := 13
  const RELAY_MSG: nat := 9

  /** Type, hop count and two addresses. */
  const HEADER: nat := 34

  datatype Message =
    | Layer(hops: byte, link: seq<byte>, peer: seq<byte>, options: RelayOptions)
    | Innermost(body: seq<byte>)

  datatype RelayOptions = End | More(first: RelayOption, rest: RelayOptions)

  datatype RelayOption = Plain(kind: nat, data: seq<byte>) | Relayed(message: Message)

  // ----- reading -----

  /** A message in which layers have the given type. Layers are well formed: room for the
      header and an option, and options that fill the message exactly. */
  function Parse(layer: byte, b: seq<byte>): Option<Message>
    decreases |b|, 1
  {
    if b == [] then None
    else if b[0] != layer then Some(Innermost(b))
    else if |b| < HEADER + 4 then None
    else match ParseOptions(layer, b[HEADER..])
      case None => None
      case Some(os) => Some(Layer(b[1], b[2..18], b[18..34], os))
  }

  /** The options from the start of b to its end, at least one. */
  function ParseOptions(layer: byte, b: seq<byte>): Option<RelayOptions>
    decreases |b|, 0
  {
    match Walk(b)
    case None => None
    case Some(s) =>
      var o := if s.kind != RELAY_MSG then Some(Plain(s.kind, s.body))
               else match Parse(layer, s.body) case None => None case Some(m) => Some(Relayed(m));
      if o.None? then None
      else if s.next.None? then Some(More(o.value, End))
      else match ParseOptions(layer, s.next.value)
        case None => None
        case Some(rest) => Some(More(o.value, rest))
  }

  // ----- writing -----

  function Encode(layer: byte, m: Message): seq<byte>
    decreases m
  {
    match m
    case Layer(hops, link, peer, os) => [layer, hops] + link + peer + EncodeOptions(layer, os)
    case Innermost(body) => body
  }

  function EncodeOptions(layer: byte, os: RelayOptions): seq<byte>
    decreases os
  {
    if os.End? then [] else EncodeOption(layer, os.first) + EncodeOptions(layer, os.rest)
  }

  function EncodeOption(layer: byte, o: RelayOption): seq<byte>
    decreases o
  {
    match o
    case Plain(kind, data) => Framed(kind, data)
    case Relayed(m) => Framed(RELAY_MSG, Encode(layer, m))
  }

  function Framed(kind: nat, data: seq<byte>): seq<byte> {
    Two(kind) + Two(|data|) + data
  }

  /** Messages that can be told apart from their bytes: lengths fit their fields, and what is
      innermost does not look like another layer. */
  predicate WellFormed(layer: byte, m: Message)
    decreases m
  {
    match m
    case Layer(hops, link, peer, os) => |link| == 16 && |peer| == 16 && os.More? && WellFormedOptions(layer, os)
    case Innermost(body) => body != [] && body[0] != layer
  }

  predicate WellFormedOptions(layer: byte, os: RelayOptions)
    decreases os
  {
    os.More? ==> WellFormedOption(layer, os.first) && WellFormedOptions(layer, os.rest)
  }

  predicate WellFormedOption(layer: byte, o: RelayOption)
    decreases o
  {
    match o
    case Plain(kind, data) => kind < 0x1_0000 && kind != RELAY_MSG && |data| < 0x1_0000
    case Relayed(m) => |Encode(layer, m)| < 0x1_0000 && WellFormed(layer, m)
  }

  lemma FramedWalk(kind: nat, data: seq<byte>, more: seq<byte>)
    requires kind < 0x1_0000 && |data| < 0x1_0000
    ensures Walk(Framed(kind, data) + more) == Some(Step(kind, data, if more == [] then None else Some(more)))
  {
    var n := Node(kind, data, Nil);
    assert Body(n) == data;
    WalkNode(n, more);
  }

  lemma EncodedNonEmpty(layer: byte, os: RelayOptions)
    ensures EncodeOptions(layer, os) == [] <==> os.End?
  {
    hide Encode;
  }

  /** What is written is read back. */
  lemma {:induction false} ParseEncode(layer: byte, m: Message)
    requires WellFormed(layer, m)
    ensures Parse(layer, Encode(layer, m)) == Some(m)
    decreases m
  {
    match m
    case Innermost(body) =>
    case Layer(hops, link, peer, os) =>
      hide ParseOptions, EncodeOptions, WellFormedOptions;
      ParseEncodeOptions(layer, os);
      var b := Encode(layer, m);
      assert b[..HEADER] == [layer, hops] + link + peer;
      assert b[HEADER..] == EncodeOptions(layer, os);
      OptionSize(layer, os);
      assert b[2..18] == b[..HEADER][2..18] == link;
      assert b[18..34] == b[..HEADER][18..34] == peer;
      assert b[0] == b[..HEADER][0] && b[1] == b[..HEADER][1];
  }

  lemma OptionSize(layer: byte, os: RelayOptions)
    requires os.More?
    ensures |EncodeOptions(layer, os)| >= 4
  {
    hide Encode;
  }

  lemma {:induction false} ParseEncodeOptions(layer: byte, os: RelayOptions)
    requires os.More? && WellFormedOptions(layer, os)
    ensures ParseOptions(layer, EncodeOptions(layer, os)) == Some(os)
    decreases os
  {
    hide Walk, Framed, Parse, Encode, WellFormed;
    var more := EncodeOptions(layer, os.rest);
    EncodedNonEmpty(layer, os.rest);
    match os.first {
      case Plain(kind, data) => FramedWalk(kind, data, more);
      case Relayed(m) =>
        FramedWalk(RELAY_MSG, Encode(layer, m), more);
        ParseEncode(layer, m);
    }
    if os.rest.More? {
      ParseEncodeOptions(layer, os.rest);
    }
  }

  // ----- replying -----

  /** What the server makes of an innermost message that came through a relay on the given
      link, if through any; None if it does not answer. */
  type Answer = (Option<seq<byte>>, seq<byte>) -> Option<seq<byte>>

  /** The layers of the request around the answer. */
  function Reply(m: Message, link: Option<seq<byte>>, answer: Answer): Option<Message>
    decreases m
  {
    match m
    case Innermost(body) => (match answer(link, body) case None => None case Some(a) => Some(Innermost(a)))
    case Layer(hops, l, peer, os) =>
      (match ReplyOptions(os, l, answer) case None => None case Some(r) => Some(Layer(hops, l, peer, r)))
  }

  function ReplyOptions(os: RelayOptions, link: seq<byte>, answer: Answer): Option<RelayOptions>
    decreases os
  {
    if os.End? then Some(End) else
    match ReplyOption(os.first, link, answer)
    case None => None
    case Some(o) =>
      match ReplyOptions(os.rest, link, answer)
      case None => None
      case Some(rest) => Some(More(o, rest))
  }

  function ReplyOption(o: RelayOption, link: seq<byte>, answer: Answer): Option<RelayOption>
    decreases o
  {
    match o
    case Plain(kind, data) => Some(o)
    case Relayed(m) => (match Reply(m, Some(link), answer) case None => None case Some(r) => Some(Relayed(r)))
  }

  /** The same layers with the same other options in the same order; only the innermost
      messages differ. */
  predicate SameLayers(m: Message, r: Message)
    decreases m
  {
    match m
    case Innermost(_) => r.Innermost?
    case Layer(hops, link, peer, os) =>
      r.Layer? && r.hops == hops && r.link == link && r.peer == peer && SameOptions(os, r.options)
  }

  predicate SameOptions(os: RelayOptions, rs: RelayOptions)
    decreases os
  {
    match os
    case End => rs.End?
    case More(o, rest) =>
      && rs.More? && SameOptions(rest, rs.rest)
      && match o
         case Plain(_, _) => rs.first == o
         case Relayed(m) => rs.first.Relayed? && SameLayers(m, rs.first.message)
  }

  lemma {:induction false} ReplySameLayers(m: Message, link: Option<seq<byte>>, answer: Answer)
    requires Reply(m, link, answer).Some?
    ensures SameLayers(m, Reply(m, link, answer).value)
    decreases m
  {
    if m.Layer? {
      ReplySameOptions(m.options, m.link, answer);
    }
  }

  lemma {:induction false} ReplySameOptions(os: RelayOptions, link: seq<byte>, answer: Answer)
    requires ReplyOptions(os, link, answer).Some?
    ensures SameOptions(os, ReplyOptions(os, link, answer).value)
    decreases os
  {
    if os.More? {
      ReplySameOptions(os.rest, link, answer);
      if os.first.Relayed? {
        ReplySameLayers(os.first.message, Some(link), answer);
      }
    }
  }

  // ----- who is answered for which link -----

  /** A message from a client, and the link of the relay that took it from the client. */
  datatype Request = Request(link: Option<seq<byte>>, body: seq<byte>)

  /** The innermost messages, in order, each with the link of the layer right around it. */
  function Requests(m: Message, around: Option<seq<byte>>): seq<Request>
    decreases m
  {
    match m
    case Innermost(body) => [Request(around, body)]
    case Layer(_, link, _, os) => RequestsIn(os, Some(link))
  }

  function RequestsIn(os: RelayOptions, around: Option<seq<byte>>): seq<Request>
    decreases os
  {
    match os
    case End => []
    case More(Plain(_, _), rest) => RequestsIn(rest, around)
    case More(Relayed(m), rest) => Requests(m, around) + RequestsIn(rest, around)
  }

  /** What the answers are, in order. */
  function Answers(rs: seq<Request>, answer: Answer): Option<seq<seq<byte>>> {
    if rs == [] then Some([]) else
    var a, more := answer(rs[0].link, rs[0].body), Answers(rs[1..], answer);
    if a.Some? && more.Some? then Some([a.value] + more.value) else None
  }

  function Bodies(rs: seq<Request>): seq<seq<byte>> {
    if rs == [] then [] else [rs[0].body] + Bodies(rs[1..])
  }

  lemma {:induction false} AnswersJoin(xs: seq<Request>, ys: seq<Request>, answer: Answer)
    ensures var a, b := Answers(xs, answer), Answers(ys, answer);
      Answers(xs + ys, answer) == if a.Some? && b.Some? then Some(a.value + b.value) else None
    ensures Bodies(xs + ys) == Bodies(xs) + Bodies(ys)
    decreases |xs|
  {
    if xs == [] {
      assert xs + ys == ys;
      Joined(Some([]), Answers(ys, answer));
    } else {
      assert (xs + ys)[1..] == xs[1..] + ys && (xs + ys)[0] == xs[0];
      AnswersJoin(xs[1..], ys, answer);
      var a, more, b := answer(xs[0].link, xs[0].body), Answers(xs[1..], answer), Answers(ys, answer);
      if a.Some? && more.Some? && b.Some? {
        assert Answers(xs + ys, answer) == Some([a.value] + (more.value + b.value));
        assert [a.value] + (more.value + b.value) == ([a.value] + more.value) + b.value;
      }
    }
  }

  lemma Joined(a: Option<seq<seq<byte>>>, b: Option<seq<seq<byte>>>)
    requires a == Some([])
    ensures b == if b.Some? then Some(a.value + b.value) else None
  {
    assert b.Some? ==> [] + b.value == b.value;
  }

  /** There is a reply exactly if every innermost message is answered, each for the link of its
      own relay; the innermost messages of the reply are these answers in order. */
  lemma {:induction false} RepliesToAll(m: Message, link: Option<seq<byte>>, answer: Answer)
    ensures var r := Reply(m, link, answer);
      Answers(Requests(m, link), answer)
      == if r.Some? then Some(Bodies(Requests(r.value, link))) else None
    decreases m
  {
    match m
    case Innermost(body) => OneRequest(Request(link, body), answer);
    case Layer(_, l, _, os) => RepliesToOptions(os, l, answer);
  }

  lemma OneRequest(r: Request, answer: Answer)
    ensures var a := answer(r.link, r.body);
      Answers([r], answer) == (if a.Some? then Some([a.value]) else None) && Bodies([r]) == [r.body]
  {
    var a := answer(r.link, r.body);
    assert [r][1..] == [];
    if a.Some? {
      assert Answers([r], answer) == Some([a.value] + []);
      assert [a.value] + [] == [a.value];
    }
  }

  lemma {:induction false} RepliesToOptions(os: RelayOptions, link: seq<byte>, answer: Answer)
    ensures var r := ReplyOptions(os, link, answer);
      Answers(RequestsIn(os, Some(link)), answer)
      == if r.Some? then Some(Bodies(RequestsIn(r.value, Some(link)))) else None
    decreases os
  {
    if os.More? {
      RepliesToOptions(os.rest, link, answer);
      var rest := RequestsIn(os.rest, Some(link));
      if os.first.Relayed? {
        var m := os.first.message;
        RepliesToAll(m, Some(link), answer);
        AnswersJoin(Requests(m, Some(link)), rest, answer);
        var r, s := Reply(m, Some(link), answer), ReplyOptions(os.rest, link, answer);
        if r.Some? && s.Some? {
          AnswersJoin(Requests(r.value, Some(link)), RequestsIn(s.value, Some(link)), answer);
        }
      }
    }
  }

  /** Answers are messages of a server, which are not relay messages. */
  ghost predicate ServerAnswers(answer: Answer) {
    forall link, body :: answer(link, body).Some? ==>
      answer(link, body).value != [] && answer(link, body).value[0] != RELAY_REPL
  }

  /** The reply to a message that was read is well formed when it is not too long. */
  lemma {:induction false} ReplyWellFormed(b: seq<byte>, link: Option<seq<byte>>, answer: Answer)
    requires Parse(RELAY_FORW, b).Some? && ServerAnswers(answer)
    requires Reply(Parse(RELAY_FORW, b).value, link, answer).Some?
    requires |Encode(RELAY_REPL, Reply(Parse(RELAY_FORW, b).value, link, answer).value)| < 0x1_0000
    ensures WellFormed(RELAY_REPL, Reply(Parse(RELAY_FORW, b).value, link, answer).value)
    decreases |b|, 1
  {
    var m := Parse(RELAY_FORW, b).value;
    match m
    case Innermost(body) => assert answer(link, body).Some?;
    case Layer(hops, l, peer, os) =>
      var r := ReplyOptions(os, l, answer).value;
      LayerSize(hops, l, peer, r);
      ReplyWellFormedOptions(b[HEADER..], l, answer);
  }

  lemma LayerSize(hops: byte, link: seq<byte>, peer: seq<byte>, os: RelayOptions)
    ensures |Encode(RELAY_REPL, Layer(hops, link, peer, os))| == 2 + |link| + |peer| + |EncodeOptions(RELAY_REPL, os)|
  {
  }

  lemma {:induction false} ReplyWellFormedOptions(b: seq<byte>, link: seq<byte>, answer: Answer)
    requires ParseOptions(RELAY_FORW, b).Some? && ServerAnswers(answer)
    requires ReplyOptions(ParseOptions(RELAY_FORW, b).value, link, answer).Some?
    requires |EncodeOptions(RELAY_REPL, ReplyOptions(ParseOptions(RELAY_FORW, b).value, link, answer).value)| < 0x1_0000
    ensures var r := ReplyOptions(ParseOptions(RELAY_FORW, b).value, link, answer).value;
      r.More? && WellFormedOptions(RELAY_REPL, r)
    decreases |b|, 0
  {
    hide Parse, Encode, ServerAnswers, WellFormed;
    var os := ParseOptions(RELAY_FORW, b).value;
    var s := Walk(b).value;
    var r := ReplyOptions(os, link, answer).value;
    EncodeMore(r);
    if os.first.Relayed? {
      ReplyWellFormed(s.body, Some(link), answer);
    }
    if s.next.Some? {
      ReplyWellFormedOptions(s.next.value, link, answer);
    }
  }

  lemma EncodeMore(os: RelayOptions)
    requires os.More?
    ensures |EncodeOptions(RELAY_REPL, os)|
         == |EncodeOption(RELAY_REPL, os.first)| + |EncodeOptions(RELAY_REPL, os.rest)|
    ensures os.first.Plain? ==> |EncodeOption(RELAY_REPL, os.first)| == 4 + |os.first.data|
    ensures os.first.Relayed? ==> |EncodeOption(RELAY_REPL, os.first)| == 4 + |Encode(RELAY_REPL, os.first.message)|
  {
    hide Encode;
  }

  // ----- the server's loop -----

  /** The bytes of the reply to some options. */
  function ReplyBytes(os: RelayOptions, link: seq<byte>, answer: Answer): Option<seq<byte>> {
    match ReplyOptions(os, link, answer)
    case None => None
    case Some(r) => Some(EncodeOptions(RELAY_REPL, r))
  }

  function After(done: seq<byte>, rest: Option<seq<byte>>): Option<seq<byte>> {
    if rest.None? then None else Some(done + rest.value)
  }

  lemma ReplyStep(done: seq<byte>, os: RelayOptions, link: seq<byte>, answer: Answer)
    requires os.More?
    ensures var o := ReplyOption(os.first, link, answer);
      After(done, ReplyBytes(os, link, answer)) ==
        if o.None? then None
        else After(done + EncodeOption(RELAY_REPL, o.value), ReplyBytes(os.rest, link, answer))
  {
    hide ReplyOption, EncodeOption;
    var o, rest := ReplyOption(os.first, link, answer), ReplyOptions(os.rest, link, answer);
    if o.Some? && rest.Some? {
      var x, y := EncodeOption(RELAY_REPL, o.value), EncodeOptions(RELAY_REPL, rest.value);
      assert done + (x + y) == done + x + y;
    }
  }

  /** dhcp6_maybe_relay on a well formed message. */
  method MaybeRelay(p: Packet, b: seq<byte>, link: Option<seq<byte>>, answer: Answer) returns (ok: bool)
    requires p.Valid() && Parse(RELAY_FORW, b).Some?
    modifies p
    ensures p.Valid() && ok == Reply(Parse(RELAY_FORW, b).value, link, answer).Some?
    ensures ok ==>
      p.Contents() == old(p.Contents()) + Encode(RELAY_REPL, Reply(Parse(RELAY_FORW, b).value, link, answer).value)
    ensures |p.Contents()| >= |old(p.Contents())| && p.Contents()[..|old(p.Contents())|] == old(p.Contents())
    decreases |b|, 0
  {
    if b[0] != RELAY_FORW {
      var a := answer(link, b);
      if a.None? {
        return false;
      }
      p.Put(a.value);
      return true;
    }
    ghost var before := p.Contents();
    ghost var os := ParseOptions(RELAY_FORW, b[HEADER..]).value;
    var header := [RELAY_REPL] + b[1..HEADER];
    p.Put(header);
    ok := RelayOptionsLoop(p, b[HEADER..], b[2..18], answer);
    if ok {
      HeaderIs(b);
      assert p.Contents() == before + (header + ReplyBytes(os, b[2..18], answer).value);
    }
  }

  lemma HeaderIs(b: seq<byte>)
    requires |b| >= HEADER
    ensures [RELAY_REPL] + b[1..HEADER] == [RELAY_REPL, b[1]] + b[2..18] + b[18..34]
  {
  }

  /** The loop over the options of a layer. */
  method RelayOptionsLoop(p: Packet, b: seq<byte>, link: seq<byte>, answer: Answer) returns (ok: bool)
    requires p.Valid() && ParseOptions(RELAY_FORW, b).Some?
    modifies p
    ensures p.Valid() && ok == ReplyBytes(ParseOptions(RELAY_FORW, b).value, link, answer).Some?
    ensures ok ==>
      p.Contents() == old(p.Contents()) + ReplyBytes(ParseOptions(RELAY_FORW, b).value, link, answer).value
    ensures |p.Contents()| >= |old(p.Contents())| && p.Contents()[..|old(p.Contents())|] == old(p.Contents())
    decreases |b|, 0
  {
    hide Parse, ReplyBytes, Encode, ReplyOption, EncodeOption;
    var rest := b;
    ghost var before, all := p.Contents(), ParseOptions(RELAY_FORW, b).value;
    ghost var os, done: seq<byte> := all, [];
    StartAfter(ReplyBytes(all, link, answer));
    while true
      invariant p.Valid() && p.Contents() == before + done
      invariant |rest| <= |b| && ParseOptions(RELAY_FORW, rest) == Some(os)
      invariant ReplyBytes(all, link, answer) == After(done, ReplyBytes(os, link, answer))
      decreases |rest|
    {
      var s := Walk(rest).value;
      ReplyStep(done, os, link, answer);
      ok := RelayOne(p, s.kind, s.body, link, answer, os.first);
      if !ok {
        assert p.Contents()[..|before|] == before;
        return;
      }
      done := done + EncodeOption(RELAY_REPL, ReplyOption(os.first, link, answer).value);
      if s.next.None? {
        NothingAfter(link, answer, done);
        return;
      }
      os := os.rest;
      rest := s.next.value;
    }
  }

  lemma StartAfter(r: Option<seq<byte>>)
    ensures r == After([], r)
  {
    assert r.Some? ==> [] + r.value == r.value;
  }

  lemma NothingAfter(link: seq<byte>, answer: Answer, done: seq<byte>)
    ensures After(done, ReplyBytes(End, link, answer)) == Some(done)
  {
    assert done + [] == done;
  }

  /** One option: opened, filled with the same data or with a reply, and closed. */
  method RelayOne(p: Packet, kind: nat, body: seq<byte>, link: seq<byte>, answer: Answer, ghost o: RelayOption)
    returns (ok: bool)
    requires p.Valid()
    requires if kind == RELAY_MSG then Parse(RELAY_FORW, body).Some? && o == Relayed(Parse(RELAY_FORW, body).value)
             else o == Plain(kind, body)
    modifies p
    ensures p.Valid() && ok == ReplyOption(o, link, answer).Some?
    ensures ok ==> p.Contents() == old(p.Contents()) + EncodeOption(RELAY_REPL, ReplyOption(o, link, answer).value)
    ensures |p.Contents()| >= |old(p.Contents())| && p.Contents()[..|old(p.Contents())|] == old(p.Contents())
    decreases |body|, 1
  {
    hide Parse, Encode, Reply, Two;
    ghost var before := p.Contents();
    var c := p.NewOpt6(kind);
    ghost var open := p.Contents();
    ghost var data: seq<byte>;
    if kind == RELAY_MSG {
      ok := MaybeRelay(p, body, Some(link), answer);
      if !ok {
        assert p.Contents()[..|before|] == p.Contents()[..|open|][..|before|];
        return;
      }
      data := Encode(RELAY_REPL, Reply(o.message, Some(link), answer).value);
    } else {
      p.Put(body);
      data := body;
      ok := true;
    }
    Close(before, kind, data, p.Contents());
    p.EndOpt6(c);
    assert p.Contents() == before + Framed(kind, data);
  }

  /** A relayed request that is read as nested layers is answered by a message that is read as
      the same layers, with the same hop counts, addresses and other options, around the
      server's answers, each for the link of the relay right around its request. */
  lemma RelayReply(b: seq<byte>, answer: Answer)
    requires Parse(RELAY_FORW, b).Some? && ServerAnswers(answer)
    requires Reply(Parse(RELAY_FORW, b).value, None, answer).Some?
    requires |Encode(RELAY_REPL, Reply(Parse(RELAY_FORW, b).value, None, answer).value)| < 0x1_0000
    ensures var m := Parse(RELAY_FORW, b).value;
      var r := Parse(RELAY_REPL, Encode(RELAY_REPL, Reply(m, None, answer).value));
      && r.Some? && SameLayers(m, r.value) && r == Reply(m, None, answer)
      && Answers(Requests(m, None), answer) == Some(Bodies(Requests(r.value, None)))
  {
    ReplyWellFormed(b, None, answer);
    ReplySameLayers(Parse(RELAY_FORW, b).value, None, answer);
    RepliesToAll(Parse(RELAY_FORW, b).value, None, answer);
    ParseEncode(RELAY_REPL, Reply(Parse(RELAY_FORW, b).value, None, answer).value);
  }
}
