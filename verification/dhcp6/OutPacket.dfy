/** The packet under construction: a growing buffer, and a counter that marks the end of what
    is in it and that can be set back. */
module OutPacket {
  import opened BigEndian
  import opened Wrappers
  import opened Options6

  class Packet {
    /** data[..counter] is the packet so far; the bytes behind are left from before. */
    var data: seq<byte>
    var counter: nat

    ghost predicate Valid()
      reads this
    {
      counter <= |data|
    }

    ghost function Contents(): seq<byte>
      requires Valid()
      reads this
    {
      data[..counter]
    }

    constructor ()
      ensures Valid() && Contents() == []
    {
      data, counter := [], 0;
    }

    /** expand and the copy into it. */
    method Put(s: seq<byte>)
      requires Valid()
      modifies this
      ensures Valid() && Contents() == old(Contents()) + s
      ensures counter == old(counter) + |s|
      ensures old(counter) + |s| <= old(|data|) ==>
        data == old(data[..counter]) + s + old(data[counter + |s|..])
    {
      data := data[..counter] + s + (if counter + |s| <= |data| then data[counter + |s|..] else []);
      counter := counter + |s|;
    }

    /** save_counter. */
    method SaveCounter(to: Option<nat>) returns (was: nat)
      requires Valid() && (to.Some? ==> to.value <= |data|)
      modifies this`counter
      ensures Valid() && was == old(counter)
      ensures counter == if to.Some? then to.value else old(counter)
    {
      was := counter;
      if to.Some? {
        counter := to.value;
      }
    }

    /** new_opt6: a type and room for the length. */
    method NewOpt6(kind: nat) returns (container: nat)
      requires Valid()
      modifies this
      ensures Valid() && container == old(counter)
      ensures Contents() == old(Contents()) + (Two(kind) + Two(0))
    {
      container := counter;
      Put(Two(kind) + Two(0));
    }

    /** end_opt6: the length field takes the low 16 bits. */
    method EndOpt6(container: nat)
      requires Valid() && container + 4 <= counter
      modifies this`data
      ensures Valid()
      ensures Contents()
           == old(Contents()[..container + 2]) + Two(counter - container - 4) + old(Contents()[container + 4..])
    {
      var len := Two(counter - container - 4);
      data := data[container + 2 := len[0]][container + 3 := len[1]];
      assert Contents() == old(Contents()[..container + 2]) + len + old(Contents()[container + 4..]);
    }

    /** Overwriting what was put at an earlier counter, and going back to the end. */
    method PatchAt(at: nat, s: seq<byte>)
      requires Valid() && at + |s| <= counter
      modifies this
      ensures Valid() && counter == old(counter)
      ensures Contents() == old(Contents()[..at]) + s + old(Contents()[at + |s|..])
    {
      var end := SaveCounter(Some(at));
      ghost var before := data;
      Put(s);
      var _ := SaveCounter(Some(end));
      assert data == before[..at] + s + before[at + |s|..];
      Patched(before, at, s, end);
    }

    /** An option opened and closed around what is put in between. */
    method EmitNode(n: Node)
      requires Valid()
      modifies this
      ensures Valid() && Contents() == old(Contents()) + NodeBytes(n)
      decreases n, 1
    {
      hide Two, Bytes;
      ghost var before := Contents();
      var o := NewOpt6(n.kind);
      Put(n.head);
      EmitNodes(n.kids);
      var start := Two(n.kind) + Two(0);
      Close(before, n.kind, Body(n), Contents());
      EndOpt6(o);
    }

    method EmitNodes(ns: Nodes)
      requires Valid()
      modifies this
      ensures Valid() && Contents() == old(Contents()) + Bytes(ns)
      decreases ns, 0
    {
      hide NodeBytes;
      if ns.Cons? {
        EmitNode(ns.first);
        EmitNodes(ns.rest);
      }
    }

    /** Emitting and taking back: nothing is left of it. */
    method EmitAndDrop(ns: Nodes)
      requires Valid()
      modifies this
      ensures Valid() && Contents() == old(Contents())
    {
      ghost var before := Contents();
      var mark := SaveCounter(None);
      EmitNodes(ns);
      assert Contents()[..mark] == before;
      var _ := SaveCounter(Some(mark));
      assert data[..counter] == before;
    }
  }

  /** The part in use of what overwriting makes of the data. */
  lemma Patched(before: seq<byte>, at: nat, s: seq<byte>, end: nat)
    requires at + |s| <= end <= |before|
    ensures (before[..at] + s + before[at + |s|..])[..end] == before[..end][..at] + s + before[..end][at + |s|..]
  {
    assert before[..end][..at] == before[..at];
  }

  /** What closing an option makes of the packet. */
  lemma Close(before: seq<byte>, kind: nat, body: seq<byte>, now: seq<byte>)
    requires now == before + (Two(kind) + Two(0)) + body
    ensures |before| + 4 <= |now|
    ensures now[..|before| + 2] + Two(|now| - |before| - 4) + now[|before| + 4..]
         == before + (Two(kind) + Two(|body|) + body)
  {
    hide Two;
    assert now[..|before| + 2] == before + Two(kind);
    assert now[|before| + 4..] == body;
  }
}
