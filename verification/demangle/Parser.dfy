/** The demangler's parser as it runs: a position, an arena of 2 * len entries, a table of len
    substitutions and the last name seen, updated in place. Every method does exactly what the
    unbounded grammar says, so no check of the two capacities ever turns a name down, and no
    entry the source uses without checking is ever missing. */
module Parser {
  import opened Decimals
  import opened Wrappers
  import opened Components
  import opened Scanner
  import opened Operators
  import G = Grammar

  class Demangler {
    const x: Input
    const numComps: nat
    const subs: array<Comp>
    var n: nat
    var nextComp: nat
    var nextSub: nat
    var lastName: Option<Comp>
    /** Where the first thing stands at which the source goes astray; it has no such field. */
    var lost: Option<nat>

    ghost predicate Valid()
      reads this
    {
      && CString(x.text) && n <= |x.text|
      && numComps == 2 * |x.text| && subs.Length == |x.text|
      && nextSub <= subs.Length
    }

    /** At least k entries to spare for the characters read so far. */
    ghost predicate Room(k: int)
      reads this
    {
      nextComp + k <= 2 * n && nextSub <= n
    }

    ghost function St(): State
      requires Valid()
      reads this, subs
    {
      State(n, nextComp, subs[..nextSub], lastName, lost)
    }

    /** cplus_demangle_init_info. */
    constructor (input: Input)
      requires CString(input.text)
      ensures Valid() && Room(0) && x == input && fresh(subs)
      ensures St() == State(0, 0, [], None, None)
    {
      x := input;
      numComps := 2 * |input.text|;
      subs := new Comp[|input.text|](_ => Name(""));
      n, nextComp, nextSub, lastName, lost := 0, 0, 0, None, None;
    }

    // ----- characters -----

    function PeekChar(): (c: char)
      reads this
      ensures Valid() ==> c == Peek(x, St())
    {
      if n < |x.text| then x.text[n] else '\0'
    }

    function PeekNextChar(): (c: char)
      reads this
      ensures Valid() ==> c == PeekNext(x, St())
    {
      if n + 1 < |x.text| then x.text[n + 1] else '\0'
    }

    method AdvanceBy(k: nat)
      requires Valid() && n + k <= |x.text|
      modifies this`n
      ensures Valid() && St() == Advance(old(St()), k)
    {
      n := n + k;
    }

    method NextChar() returns (c: char)
      requires Valid()
      modifies this`n
      ensures Valid() && c == Peek(x, old(St())) && St() == Next(x, old(St()))
    {
      c := PeekChar();
      if c != '\0' {
        n := n + 1;
      }
    }

    method CheckChar(c: char) returns (yes: bool)
      requires Valid() && c != '\0'
      modifies this`n
      ensures Valid() && yes == (Peek(x, old(St())) == c)
      ensures St() == if yes then Advance(old(St()), 1) else old(St())
    {
      yes := PeekChar() == c;
      if yes {
        n := n + 1;
      }
    }

    /** d_number. */
    method ReadNumber() returns (num: int)
      requires Valid()
      modifies this`n
      ensures Valid() && Count(num, St()) == ScanNumber(x, old(St()))
    {
      var negative := PeekChar() == 'n';
      if negative {
        n := n + 1;
      }
      num := 0;
      ghost var from := St();
      while IsDigit(PeekChar())
        invariant Valid() && num >= 0 && unchanged(`nextComp, `nextSub, `lastName, `lost, subs)
        invariant Digits(x, St(), num) == Digits(x, from, 0)
        decreases |x.text| - n
      {
        num := num * 10 + (PeekChar() as int - '0' as int);
        n := n + 1;
      }
      if negative {
        num := -num;
      }
    }

    method ReadCompactNumber() returns (num: int)
      requires Valid()
      modifies this`n
      ensures Valid() && Count(num, St()) == CompactNumber(x, old(St()))
    {
      if PeekChar() == '_' {
        num := 0;
      } else if PeekChar() == 'n' {
        return -1;
      } else {
        num := ReadNumber();
        num := num + 1;
      }
      var yes := CheckChar('_');
      if !yes {
        num := -1;
      }
    }

    method ReadCompactInt() returns (num: int)
      requires Valid()
      modifies this`n
      ensures Valid() && Count(num, St()) == CompactInt(x, old(St()))
    {
      hide CompactNumber, ToInt;
      num := ReadCompactNumber();
      num := ToInt(num);
    }

    method ReadDiscriminator() returns (yes: bool)
      requires Valid()
      modifies this`n
      ensures Valid() && Answer(yes, St()) == Discriminator(x, old(St()))
    {
      if PeekChar() != '_' {
        return true;
      }
      AdvanceBy(1);
      var num := ReadNumber();
      yes := num >= 0;
    }

    method ReadCallOffset(first: char) returns (yes: bool)
      requires Valid()
      modifies this`n
      ensures Valid() && Answer(yes, St()) == CallOffset(x, old(St()), first)
    {
      hide ScanNumber;
      var c := first;
      if c == '\0' {
        c := NextChar();
      }
      if c == 'h' {
        var _ := ReadNumber();
      } else if c == 'v' {
        var _ := ReadNumber();
        yes := CheckChar('_');
        if !yes {
          return;
        }
        var _ := ReadNumber();
      } else {
        return false;
      }
      yes := CheckChar('_');
    }

    // ----- the arena and the substitutions -----

    /** d_make_empty. */
    method MakeEmpty() returns (ok: bool)
      requires Valid()
      modifies this`nextComp
      ensures Valid() && ok == (old(nextComp) < numComps)
      ensures St() == if ok then Made(old(St())) else old(St())
    {
      if nextComp >= numComps {
        return false;
      }
      nextComp := nextComp + 1;
      ok := true;
    }

    method MakeSingle(kind: SingleKind, left: Option<Comp>) returns (c: Option<Comp>)
      requires Valid() && (left.Some? ==> nextComp < numComps)
      modifies this`nextComp
      ensures Valid() && Parse(c, St()) == G.MakeSingle(kind, Parse(left, old(St())))
    {
      if left.None? {
        return None;
      }
      var ok := MakeEmpty();
      c := if ok then Some(Single(kind, left.value)) else None;
    }

    method MakePair(kind: PairKind, left: Option<Comp>, right: Option<Comp>) returns (c: Option<Comp>)
      requires Valid() && (left.Some? && right.Some? ==> nextComp < numComps)
      modifies this`nextComp
      ensures Valid() && Parse(c, St()) == G.MakePair(kind, left, right, old(St()))
    {
      if left.None? || right.None? {
        return None;
      }
      var ok := MakeEmpty();
      c := if ok then Some(Pair(kind, left.value, right.value)) else None;
    }

    method MakeName(text: string) returns (c: Option<Comp>)
      requires Valid() && nextComp < numComps
      modifies this`nextComp
      ensures Valid() && Parse(c, St()) == G.MakeName(text, old(St()))
    {
      var ok := MakeEmpty();
      c := if ok && text != "" then Some(Name(text)) else None;
    }

    /** d_make_builtin_type, d_make_operator and the other leaves. */
    method MakeLeaf(leaf: Comp) returns (c: Option<Comp>)
      requires Valid() && nextComp < numComps
      modifies this`nextComp
      ensures Valid() && Parse(c, St()) == G.MakeLeaf(leaf, old(St()))
    {
      var ok := MakeEmpty();
      c := if ok then Some(leaf) else None;
    }

    /** d_add_substitution. */
    method AddSubstitution(c: Option<Comp>) returns (ok: bool)
      requires Valid() && (c.Some? ==> nextSub < n)
      modifies this`nextSub, subs
      ensures Valid() && ok == c.Some?
      ensures Parse(c, St()) == G.Record(Parse(c, old(St())))
    {
      if c.None? {
        return false;
      }
      if nextSub >= subs.Length {
        return false;
      }
      subs[nextSub] := c.value;
      nextSub := nextSub + 1;
      ok := true;
    }

    // ----- names -----

    method Identifier(len: nat) returns (c: Option<Comp>)
      requires Valid() && Room(0) && nextComp < numComps
      modifies this
      ensures Valid() && Parse(c, St()) == G.Identifier(x, old(St()), len)
    {
      if |x.text| - n < len {
        return None;
      }
      var name := x.text[n..n + len];
      AdvanceBy(len);
      if x.options.java && PeekChar() == '$' {
        AdvanceBy(1);
      }
      c := MakeName(if G.IsAnonymous(name) then "(anonymous namespace)" else name);
    }

    method SourceName() returns (c: Option<Comp>)
      requires Valid() && Room(0)
      modifies this
      ensures Valid() && Parse(c, St()) == G.SourceName(x, old(St()))
    {
      hide ScanNumber, ToInt, G.Identifier;
      var at := n;
      var len := ReadNumber();
      if len <= 0 {
        return None;
      }
      if ToInt(len) < 0 {
        lost := if lost.None? then Some(at) else lost;
        lastName := None;
        return None;
      }
      c := Identifier(ToInt(len));
      lastName := c;
    }

    /** The binary search of d_operator_name. */
    method SearchOperator(c1: char, c2: char) returns (op: Option<nat>)
      ensures op == FindOperator(c1, c2, 0, OPERATORS)
    {
      hide Code;
      var low: nat, high: nat := 0, OPERATORS;
      while true
        invariant low < high <= OPERATORS
        invariant FindOperator(c1, c2, low, high) == FindOperator(c1, c2, 0, OPERATORS)
        decreases high - low
      {
        var i := low + (high - low) / 2;
        if c1 == Code(i)[0] && c2 == Code(i)[1] {
          return Some(i);
        }
        if Before(c1, c2, Code(i)) {
          high := i;
        } else {
          low := i + 1;
        }
        if low == high {
          return None;
        }
      }
    }

    method OperatorName() returns (c: Option<Comp>)
      requires Valid() && Room(0)
      modifies this, subs
      ensures Valid() && Parse(c, St()) == G.OperatorName(x, old(St()))
      decreases |x.text| - n, 0
    {
      hide FindOperator, G.SourceName, G.Type;
      var c1 := NextChar();
      var c2 := NextChar();
      if c1 == 'v' && IsDigit(c2) {
        var name := SourceName();
        var ok := MakeEmpty();
        c := if ok && name.Some? then Some(ExtendedOperator(c2 as int - '0' as int, name.value)) else None;
      } else if c1 == 'c' && c2 == 'v' {
        var t := Type();
        c := MakeSingle(Cast, t);
      } else {
        var op := SearchOperator(c1, c2);
        if op.None? {
          return None;
        }
        c := MakeLeaf(Operator(op.value));
      }
    }

    method CtorDtorName() returns (c: Option<Comp>)
      requires Valid() && Room(0)
      modifies this
      ensures Valid() && Parse(c, St()) == G.CtorDtorName(x, old(St()))
    {
      var k := PeekNextChar();
      if PeekChar() == 'C' && '1' <= k <= '3' {
        AdvanceBy(2);
        var ok := MakeEmpty();
        c := if ok && lastName.Some? then Some(Ctor(k as int - '0' as int, lastName.value)) else None;
      } else if PeekChar() == 'D' && '0' <= k <= '2' {
        AdvanceBy(2);
        var ok := MakeEmpty();
        c := if ok && lastName.Some? then Some(Dtor(k as int - '0' as int, lastName.value)) else None;
      } else {
        c := None;
      }
    }

    method LambdaName() returns (c: Option<Comp>)
      requires Valid() && Room(0)
      modifies this, subs
      ensures Valid() && Parse(c, St()) == G.LambdaName(x, old(St()))
      decreases |x.text| - n, 0
    {
      hide G.ParmList, CompactInt;
      var yes := CheckChar('U');
      if !yes {
        return None;
      }
      yes := CheckChar('l');
      if !yes {
        return None;
      }
      var args := ParmList();
      if args.None? {
        return None;
      }
      yes := CheckChar('E');
      if !yes {
        return None;
      }
      var num := ReadCompactInt();
      if num < 0 {
        return None;
      }
      c := MakeLeaf(Lambda(num, args.value));
      yes := AddSubstitution(c);
      if !yes {
        return None;
      }
    }

    method UnnamedTypeName() returns (c: Option<Comp>)
      requires Valid() && Room(0)
      modifies this, subs
      ensures Valid() && Parse(c, St()) == G.UnnamedTypeName(x, old(St()))
    {
      hide CompactNumber;
      var yes := CheckChar('U');
      if !yes {
        return None;
      }
      yes := CheckChar('t');
      if !yes {
        return None;
      }
      var num := ReadCompactNumber();
      if num < 0 {
        return None;
      }
      c := MakeLeaf(UnnamedType(num));
      yes := AddSubstitution(c);
      if !yes {
        return None;
      }
    }

    method UnqualifiedName() returns (c: Option<Comp>)
      requires Valid() && Room(0)
      modifies this, subs
      ensures Valid() && Parse(c, St()) == G.UnqualifiedName(x, old(St()))
      decreases |x.text| - n, 1
    {
      hide G.SourceName, G.OperatorName, G.CtorDtorName, Discriminator, G.LambdaName, G.UnnamedTypeName;
      var peek := PeekChar();
      if IsDigit(peek) {
        c := SourceName();
      } else if IsLower(peek) {
        c := OperatorName();
      } else if peek == 'C' || peek == 'D' {
        c := CtorDtorName();
      } else if peek == 'L' {
        AdvanceBy(1);
        c := SourceName();
        if c.None? {
          return;
        }
        var yes := ReadDiscriminator();
        if !yes {
          return None;
        }
      } else if peek == 'U' {
        if PeekNextChar() == 'l' {
          c := LambdaName();
        } else if PeekNextChar() == 't' {
          c := UnnamedTypeName();
        } else {
          c := None;
        }
      } else {
        c := None;
      }
    }

    method NameOf() returns (c: Option<Comp>)
      requires Valid() && Room(0)
      modifies this, subs
      ensures Valid() && Parse(c, St()) == G.NameOf(x, old(St()))
      decreases |x.text| - n, 2
    {
      hide G.NestedName, G.LocalNameOf, G.UnqualifiedName, G.StdName, G.Substitution, G.TemplateOf;
      var peek := PeekChar();
      if peek == 'N' {
        c := NestedName();
      } else if peek == 'Z' {
        c := LocalNameOf();
      } else if peek == 'L' || peek == 'U' {
        c := UnqualifiedName();
      } else if peek == 'S' {
        if PeekNextChar() != 't' {
          c := Substitution(false);
          c := TemplateOf(old(St()), c, false);
        } else {
          c := StdName();
          c := TemplateOf(old(St()), c, true);
        }
      } else {
        c := UnqualifiedName();
        c := TemplateOf(old(St()), c, true);
      }
    }

    method StdName() returns (c: Option<Comp>)
      requires Valid() && Room(0) && PeekChar() == 'S' && PeekNextChar() == 't'
      modifies this, subs
      ensures Valid() && Parse(c, St()) == G.StdName(x, old(St()))
      decreases |x.text| - n, 1
    {
      hide G.UnqualifiedName;
      AdvanceBy(2);
      var std := MakeName("std");
      var name := UnqualifiedName();
      c := MakePair(QualName, std, name);
    }

    /** The template arguments that may follow a name. */
    method TemplateOf(ghost from: State, name: Option<Comp>, record: bool) returns (c: Option<Comp>)
      requires Valid() && In(x, from) && Within(x, from, Parse(name, St()), 2, 2)
      requires from.made <= 2 * from.n && |from.subs| <= from.n
      modifies this, subs
      ensures Valid() && Parse(c, St()) == G.TemplateOf(x, from, Parse(name, old(St())), record)
      decreases |x.text| - n, 1
    {
      hide G.TemplateArgs;
      if PeekChar() != 'I' {
        return name;
      }
      if record {
        var ok := AddSubstitution(name);
        if !ok {
          return None;
        }
      }
      assert nextSub == |St().subs|;
      var args := TemplateArgs();
      c := MakePair(Template, name, args);
    }

    method NestedName() returns (c: Option<Comp>)
      requires Valid() && Room(0)
      modifies this, subs
      ensures Valid() && Parse(c, St()) == G.NestedName(x, old(St()))
      decreases |x.text| - n, 0
    {
      hide G.CvQualifiers, G.Prefix;
      var yes := CheckChar('N');
      if !yes {
        return None;
      }
      var qs := CvQualifiers();
      var p := Prefix();
      if p.None? {
        return None;
      }
      yes := CheckChar('E');
      if !yes {
        return None;
      }
      c := Some(Qualify(qs, true, p.value));
    }

    /** One entry for each qualifier; there always is one, so the NULL return of the source
        is never taken. */
    method CvQualifiers() returns (qs: seq<Qualifier>)
      requires Valid() && Room(0)
      modifies this`n, this`nextComp
      ensures Valid() && G.Qualifiers(qs, St()) == G.CvQualifiers(x, old(St()), [])
    {
      qs := [];
      while G.IsQualifier(PeekChar())
        invariant Valid() && Room(0) && unchanged(`nextSub, `lastName, `lost, subs)
        invariant G.CvQualifiers(x, St(), qs) == G.CvQualifiers(x, old(St()), [])
        decreases |x.text| - n
      {
        var peek := PeekChar();
        AdvanceBy(1);
        var ok := MakeEmpty();
        assert ok;
        qs := qs + [G.QualifierOf(peek)];
      }
    }

    /** d_prefix. A substitution that is refused leaves nothing read so far, and the loop goes
        on. */
    method Prefix() returns (ret: Option<Comp>)
      requires Valid() && Room(0)
      modifies this, subs
      ensures Valid() && Parse(ret, St()) == G.Prefix(x, old(St()), None)
      decreases |x.text| - n, 4
    {
      hide G.NextPrefix, G.StartsItem;
      ret := None;
      while true
        invariant Valid() && Room(0)
        invariant n >= old(n)
        invariant G.Prefix(x, St(), ret) == G.Prefix(x, old(St()), None)
        decreases |x.text| - n
      {
        var peek := PeekChar();
        if peek == 'E' {
          return;
        }
        if peek == 'M' {
          if ret.None? {
            return None;
          }
          AdvanceBy(1);
        } else if !G.StartsItem(peek, ret) {
          return None;
        } else {
          ret := NextPrefix(ret);
          if peek != 'S' && PeekChar() != 'E' {
            var ok := AddSubstitution(ret);
            if !ok {
              return None;
            }
          }
        }
      }
    }

    method NextPrefix(acc: Option<Comp>) returns (c: Option<Comp>)
      requires Valid() && Room(0) && G.StartsItem(PeekChar(), acc)
      modifies this, subs
      ensures Valid() && Parse(c, St()) == G.NextPrefix(x, old(St()), acc)
      decreases |x.text| - n, 3
    {
      hide G.PrefixItem, G.StartsUnqualified;
      var kind := if PeekChar() == 'I' then Template else QualName;
      c := PrefixItem();
      if acc.Some? {
        c := MakePair(kind, acc, c);
      }
    }

    method PrefixItem() returns (c: Option<Comp>)
      requires Valid() && Room(0)
      requires G.StartsUnqualified(PeekChar()) || PeekChar() == 'S' || PeekChar() == 'T' || PeekChar() == 'I'
      modifies this, subs
      ensures Valid() && Parse(c, St()) == G.PrefixItem(x, old(St()))
      decreases |x.text| - n, 2
    {
      hide G.UnqualifiedName, G.Substitution, G.TemplateArgs, G.TemplateParamOf, G.StartsUnqualified;
      var peek := PeekChar();
      if G.StartsUnqualified(peek) {
        c := UnqualifiedName();
      } else if peek == 'S' {
        c := Substitution(true);
      } else if peek == 'I' {
        c := TemplateArgs();
      } else {
        c := TemplateParamOf();
      }
    }

    method LocalNameOf() returns (c: Option<Comp>)
      requires Valid() && Room(0)
      modifies this, subs
      ensures Valid() && Parse(c, St()) == G.LocalNameOf(x, old(St()))
      decreases |x.text| - n, 0
    {
      hide G.Encoding, G.LocalEntity;
      var yes := CheckChar('Z');
      if !yes {
        return None;
      }
      var f := Encoding(false);
      yes := CheckChar('E');
      if !yes {
        return None;
      }
      c := LocalEntity(f);
    }

    method LocalEntity(f: Option<Comp>) returns (c: Option<Comp>)
      requires Valid() && Room(0)
      modifies this, subs
      ensures Valid() && Parse(c, St()) == G.LocalEntity(x, f, old(St()))
      decreases |x.text| - n, 4
    {
      hide Discriminator, CompactInt, G.DiscriminatedName;
      if PeekChar() == 's' {
        AdvanceBy(1);
        var yes := ReadDiscriminator();
        if !yes {
          return None;
        }
        var lit := MakeName("string literal");
        c := MakePair(LocalName, f, lit);
        return;
      }
      var num := -1;
      if PeekChar() == 'd' {
        AdvanceBy(1);
        num := ReadCompactInt();
        if num < 0 {
          return None;
        }
      }
      var name, yes := DiscriminatedName();
      if !yes {
        return None;
      }
      if num >= 0 {
        var ok := MakeEmpty();
        name := if ok then Some(DefaultArg(num, name)) else None;
      }
      c := MakePair(LocalName, f, name);
    }

    method DiscriminatedName() returns (name: Option<Comp>, yes: bool)
      requires Valid() && Room(0)
      modifies this, subs
      ensures Valid() && (name.None? ==> yes)
      ensures Parse(if name.None? then None else Some(G.Discriminated(name.value, yes)), St())
           == G.DiscriminatedName(x, old(St()))
      decreases |x.text| - n, 3
    {
      hide Discriminator, G.NameOf;
      name := NameOf();
      yes := true;
      if name.Some? && !name.value.Lambda? && !name.value.UnnamedType? {
        yes := ReadDiscriminator();
      }
    }

    // ----- substitutions and template parameters -----

    method Substitution(prefix: bool) returns (c: Option<Comp>)
      requires Valid() && Room(0)
      modifies this, subs
      ensures Valid() && Parse(c, St()) == G.Substitution(x, old(St()), prefix)
    {
      hide SeqId, G.StandardSub;
      var yes := CheckChar('S');
      if !yes {
        return None;
      }
      var ch := NextChar();
      if ch == '_' || IsDigit(ch) || IsUpper(ch) {
        var id := 0;
        if ch != '_' {
          id := ReadSeqId(ch);
          if id < 0 {
            return None;
          }
        }
        if id >= nextSub {
          return None;
        }
        c := Some(subs[id]);
      } else {
        c := StandardSub(ch, prefix);
      }
    }

    /** The digits of a sequence number, in an unsigned int. */
    method ReadSeqId(first: char) returns (id: int)
      requires Valid() && (IsDigit(first) || IsUpper(first))
      modifies this`n
      ensures Valid() && Count(id, St()) == SeqId(x, old(St()), first, 0)
    {
      var c := first;
      id := 0;
      while c != '_'
        invariant Valid() && unchanged(`nextComp, `nextSub, `lastName, `lost, subs)
        invariant 0 <= id < WORD
        invariant c != '_' ==> SeqId(x, St(), c, id) == SeqId(x, old(St()), first, 0)
        invariant c == '_' ==> Count((id + 1) % WORD, St()) == SeqId(x, old(St()), first, 0)
        decreases |x.text| - n, if c == '\0' then 0 else 1, if c == '_' then 0 else 1
      {
        if !IsDigit(c) && !IsUpper(c) {
          return -1;
        }
        var digit := if IsDigit(c) then c as int - '0' as int else c as int - 'A' as int + 10;
        var next := (id * 36 + digit) % WORD;
        if next < id {
          return -1;
        }
        id := next;
        c := NextChar();
      }
      id := (id + 1) % WORD;
    }

    method StandardSub(ch: char, prefix: bool) returns (c: Option<Comp>)
      requires Valid() && Room(2)
      modifies this
      ensures Valid() && Parse(c, St()) == G.StandardSub(x, old(St()), ch, prefix)
    {
      hide G.Expansion, G.ClassName;
      var verbose := x.options.verbose;
      if !verbose && prefix {
        verbose := PeekChar() == 'C' || PeekChar() == 'D';
      }
      if ch !in {'t', 'a', 'b', 's', 'i', 'o', 'd'} {
        return None;
      }
      if ch != 't' {
        var last := MakeLeaf(SubStd(G.ClassName(ch)));
        lastName := last;
      }
      c := MakeLeaf(SubStd(G.Expansion(ch, verbose)));
    }

    method TemplateParamOf() returns (c: Option<Comp>)
      requires Valid() && Room(0)
      modifies this
      ensures Valid() && Parse(c, St()) == G.TemplateParamOf(x, old(St()))
    {
      hide CompactNumber;
      var yes := CheckChar('T');
      if !yes {
        return None;
      }
      var num := ReadCompactNumber();
      if num < 0 {
        return None;
      }
      c := MakeLeaf(TemplateParam(num));
    }

    method TemplateArgs() returns (c: Option<Comp>)
      requires Valid() && Room(0)
      modifies this, subs
      ensures Valid() && Parse(c, St()) == G.TemplateArgs(x, old(St()))
      decreases |x.text| - n, 0
    {
      hide G.TemplateArgList;
      var hold := lastName;
      var yes := CheckChar('I');
      if !yes {
        return None;
      }
      if PeekChar() == 'E' {
        AdvanceBy(1);
        c := MakeLeaf(TemplateArglist([]));
        return;
      }
      var args := TemplateArgList();
      if args.None? {
        return None;
      }
      lastName := hold;
      c := Some(TemplateArglist(args.value));
    }

    method TemplateArgList() returns (args: Option<seq<Comp>>)
      requires Valid() && Room(0)
      modifies this, subs
      ensures Valid() && Parse(args, St()) == G.TemplateArgList(x, old(St()), [])
      decreases |x.text| - n, 7
    {
      hide G.TemplateArg;
      var list: seq<Comp> := [];
      while true
        invariant Valid() && Room(0) && n >= old(n)
        invariant G.TemplateArgList(x, St(), list) == G.TemplateArgList(x, old(St()), [])
        decreases |x.text| - n
      {
        var a := TemplateArg();
        if a.None? {
          return None;
        }
        var ok := MakeEmpty();
        assert ok;
        list := list + [a.value];
        if PeekChar() == 'E' {
          AdvanceBy(1);
          return Some(list);
        }
      }
    }

    method TemplateArg() returns (c: Option<Comp>)
      requires Valid() && Room(0)
      modifies this, subs
      ensures Valid() && Parse(c, St()) == G.TemplateArg(x, old(St()))
      decreases |x.text| - n, 6
    {
      hide G.Expression, G.ExprPrimary, G.TemplateArgs, G.Type;
      if PeekChar() == 'X' {
        AdvanceBy(1);
        c := Expression();
        c := Closed(c);
      } else if PeekChar() == 'L' {
        c := ExprPrimary();
      } else if PeekChar() == 'I' {
        c := TemplateArgs();
      } else {
        c := Type();
      }
    }

    /** The check for a closing E. */
    method Closed(p: Option<Comp>) returns (c: Option<Comp>)
      requires Valid()
      modifies this`n
      ensures Valid() && Parse(c, St()) == G.Closed(x, Parse(p, old(St())))
    {
      var yes := CheckChar('E');
      c := if yes then p else None;
    }

    // ----- encodings -----

    method MangledName(top: bool) returns (c: Option<Comp>)
      requires Valid() && Room(0)
      modifies this, subs
      ensures Valid() && Parse(c, St()) == G.MangledName(x, old(St()), top)
      decreases |x.text| - n, 4
    {
      hide G.Encoding;
      var yes := CheckChar('_');
      if !yes && top {
        return None;
      }
      yes := CheckChar('Z');
      if !yes {
        return None;
      }
      c := Encoding(top);
    }

    method Encoding(top: bool) returns (c: Option<Comp>)
      requires Valid() && Room(0)
      modifies this, subs
      ensures Valid() && Parse(c, St()) == G.Encoding(x, old(St()), top)
      decreases |x.text| - n, 3
    {
      hide G.SpecialName, G.NameOf, G.BareFunctionType, StripTop, HasReturnType;
      if PeekChar() == 'G' || PeekChar() == 'T' {
        c := SpecialName();
        return;
      }
      c := NameOf();
      if c.None? {
        return;
      }
      if top && !x.options.params {
        return Some(StripTop(c.value));
      }
      if PeekChar() == '\0' || PeekChar() == 'E' {
        return;
      }
      var f := BareFunctionType(HasReturnType(c.value));
      c := MakePair(TypedName, c, f);
    }

    method SpecialName() returns (c: Option<Comp>)
      requires Valid() && Room(0)
      modifies this, subs
      ensures Valid() && Parse(c, St()) == G.SpecialName(x, old(St()))
      decreases |x.text| - n, 1
    {
      hide G.TableName, G.ObjectName;
      if PeekChar() == 'T' {
        c := TableName();
      } else if PeekChar() == 'G' {
        c := ObjectName();
      } else {
        c := None;
      }
    }

    method TableName() returns (c: Option<Comp>)
      requires Valid() && Room(0) && PeekChar() == 'T'
      modifies this, subs
      ensures Valid() && Parse(c, St()) == G.TableName(x, old(St()))
      decreases |x.text| - n, 0
    {
      hide G.TableKind, G.Type, G.ThunkName, G.ConstructionVtableOf;
      AdvanceBy(1);
      var ch := NextChar();
      var kind := G.TableKind(ch);
      if ch == '\0' {
        return None;
      }
      if kind.Some? {
        var t := Type();
        c := MakeSingle(kind.value, t);
      } else if ch == 'C' {
        c := ConstructionVtableOf();
      } else {
        c := ThunkName(ch);
      }
    }

    method ThunkName(ch: char) returns (c: Option<Comp>)
      requires Valid() && Room(1)
      modifies this, subs
      ensures Valid() && Parse(c, St()) == G.ThunkName(x, old(St()), ch)
      decreases |x.text| - n, 5
    {
      hide G.ThunkOf, CallOffset, G.TwoOffsets;
      if ch == 'h' {
        var yes := ReadCallOffset('h');
        c := ThunkOf(Thunk, yes);
      } else if ch == 'v' {
        var yes := ReadCallOffset('v');
        c := ThunkOf(VirtualThunk, yes);
      } else if ch == 'c' {
        var yes := TwoOffsets();
        c := ThunkOf(CovariantThunk, yes);
      } else {
        c := None;
      }
    }

    method TwoOffsets() returns (yes: bool)
      requires Valid()
      modifies this`n
      ensures Valid() && Answer(yes, St()) == G.TwoOffsets(x, old(St()))
    {
      hide CallOffset;
      yes := ReadCallOffset('\0');
      if yes {
        yes := ReadCallOffset('\0');
      }
    }

    method ThunkOf(kind: SingleKind, offset: bool) returns (c: Option<Comp>)
      requires Valid() && Room(1)
      modifies this, subs
      ensures Valid() && Parse(c, St()) == G.ThunkOf(x, kind, Answer(offset, old(St())))
      decreases |x.text| - n, 4
    {
      hide G.Encoding;
      if !offset {
        return None;
      }
      var e := Encoding(false);
      c := MakeSingle(kind, e);
    }

    method ConstructionVtableOf() returns (c: Option<Comp>)
      requires Valid() && Room(0)
      modifies this, subs
      ensures Valid() && Parse(c, St()) == G.ConstructionVtableOf(x, old(St()))
      decreases |x.text| - n, 6
    {
      hide G.Type, ScanNumber;
      var derived := Type();
      var offset := ReadNumber();
      if offset < 0 {
        return None;
      }
      var yes := CheckChar('_');
      if !yes {
        return None;
      }
      var base := Type();
      c := MakePair(ConstructionVtable, base, derived);
    }

    method ObjectName() returns (c: Option<Comp>)
      requires Valid() && Room(0) && PeekChar() == 'G'
      modifies this, subs
      ensures Valid() && Parse(c, St()) == G.ObjectName(x, old(St()))
      decreases |x.text| - n, 0
    {
      hide G.NameOf, G.Encoding, G.JavaResourceOf;
      AdvanceBy(1);
      var ch := NextChar();
      if ch == 'V' {
        c := NameOf();
        c := MakeSingle(Guard, c);
      } else if ch == 'R' {
        c := NameOf();
        c := MakeSingle(Reftemp, c);
      } else if ch == 'A' {
        c := Encoding(false);
        c := MakeSingle(HiddenAlias, c);
      } else if ch == 'r' {
        c := JavaResourceOf();
      } else {
        c := None;
      }
    }

    method JavaResourceOf() returns (c: Option<Comp>)
      requires Valid() && Room(0)
      modifies this
      ensures Valid() && Parse(c, St()) == G.JavaResourceOf(x, old(St()))
    {
      hide ScanNumber, G.JavaChunks;
      var len := ReadNumber();
      if len <= 1 {
        return None;
      }
      var ch := NextChar();
      if ch != '_' {
        return None;
      }
      c := JavaChunks(len - 1);
      c := MakeSingle(JavaResource, c);
    }

    /** The loop of d_java_resource. */
    method JavaChunks(length: int) returns (p: Option<Comp>)
      requires Valid() && Room(0) && length > 0
      modifies this`n, this`nextComp
      ensures Valid() && Parse(p, St()) == G.JavaChunks(x, old(St()), length, None)
    {
      hide G.NextChunk;
      var len := length;
      p := None;
      while len > 0
        invariant Valid() && Room(0) && unchanged(`nextSub, `lastName, `lost, subs)
        invariant p.None? ==> len > 0
        invariant G.JavaChunks(x, St(), len, p) == G.JavaChunks(x, old(St()), length, None)
        decreases |x.text| - n
      {
        if PeekChar() == '\0' {
          return None;
        }
        var from := n;
        p := NextChunk(len, p);
        if p.None? {
          return None;
        }
        len := len - (n - from);
      }
    }

    method NextChunk(len: int, acc: Option<Comp>) returns (p: Option<Comp>)
      requires Valid() && Room(0) && n < |x.text| && len > 0
      modifies this`n, this`nextComp
      ensures Valid() && Parse(p, St()) == G.NextChunk(x, old(St()), len, acc)
    {
      hide G.JavaChunk;
      var chunk, k := JavaChunk(len);
      if chunk.None? {
        return None;
      }
      var next := MakeLeaf(chunk.value);
      AdvanceBy(k);
      p := next;
      if acc.Some? {
        p := MakePair(CompoundName, acc, next);
      }
    }

    method JavaChunk(len: int) returns (chunk: Option<Comp>, k: nat)
      requires Valid() && n < |x.text| && len > 0
      ensures (chunk, k) == G.JavaChunk(x, St(), len)
    {
      hide G.JavaRun;
      if PeekChar() == '$' {
        var e := G.JavaEscape(PeekNextChar());
        return if e == '\0' then None else Some(Character(e)), 2;
      }
      k := JavaRun(len);
      chunk := Some(Name(x.text[n..n + k]));
    }

    method JavaRun(len: int) returns (k: nat)
      requires Valid()
      ensures k == G.JavaRun(x, St(), len)
    {
      k := 0;
      while k < len && n + k < |x.text| && x.text[n + k] != '$'
        invariant n + k <= |x.text|
        invariant G.JavaRun(x, St(), len) == k + G.JavaRun(x, Advance(St(), k), len - k)
      {
        k := k + 1;
      }
    }

    // ----- types -----

    method ParmList() returns (c: Option<Comp>)
      requires Valid() && Room(0)
      modifies this, subs
      ensures Valid() && Parse(c, St()) == G.ParmList(x, old(St()))
      decreases |x.text| - n, 7
    {
      hide G.Type;
      var types: seq<Comp> := [];
      while PeekChar() != '\0' && PeekChar() != 'E'
        invariant Valid() && Room(0) && n >= old(n)
        invariant G.ParmTypes(x, St(), types) == G.ParmTypes(x, old(St()), [])
        decreases |x.text| - n
      {
        var t := Type();
        if t.None? {
          return None;
        }
        var ok := MakeEmpty();
        assert ok;
        types := types + [t.value];
      }
      if types == [] {
        return None;
      }
      c := Some(Arglist(G.DropVoid(types)));
    }

    method BareFunctionType(hasReturn: bool) returns (c: Option<Comp>)
      requires Valid() && Room(if hasReturn then 0 else 1)
      modifies this, subs
      ensures Valid() && Parse(c, St()) == G.BareFunctionType(x, old(St()), hasReturn)
      decreases |x.text| - n, 8
    {
      hide G.Type, G.ParmList;
      var has := hasReturn;
      if PeekChar() == 'J' {
        AdvanceBy(1);
        has := true;
      }
      var result := None;
      if has {
        result := Type();
        if result.None? {
          return None;
        }
      }
      var args := ParmList();
      if args.None? {
        return None;
      }
      var ok := MakeEmpty();
      c := if ok then Some(FunctionType(result, args.value)) else None;
    }

    method FunctionTypeOf() returns (c: Option<Comp>)
      requires Valid() && Room(0)
      modifies this, subs
      ensures Valid() && Parse(c, St()) == G.FunctionTypeOf(x, old(St()))
      decreases |x.text| - n, 0
    {
      hide G.BareFunctionType;
      var yes := CheckChar('F');
      if !yes {
        return None;
      }
      if PeekChar() == 'Y' {
        AdvanceBy(1);
      }
      c := BareFunctionType(true);
      c := Closed(c);
    }

    method ArrayTypeOf() returns (c: Option<Comp>)
      requires Valid() && Room(0)
      modifies this, subs
      ensures Valid() && Parse(c, St()) == G.ArrayTypeOf(x, old(St()))
      decreases |x.text| - n, 0
    {
      hide G.Dimension, G.ArrayElement;
      var yes := CheckChar('A');
      if !yes {
        return None;
      }
      var dim := None;
      if PeekChar() != '_' {
        dim := Dimension();
        if dim.None? {
          return None;
        }
      }
      yes := CheckChar('_');
      if !yes {
        return None;
      }
      c := ArrayElement(dim);
    }

    method Dimension() returns (c: Option<Comp>)
      requires Valid() && Room(0)
      modifies this, subs
      ensures Valid() && Parse(c, St()) == G.Dimension(x, old(St()))
      decreases |x.text| - n, 4
    {
      hide G.Expression;
      if IsDigit(PeekChar()) {
        var from := n;
        SkipDigits();
        c := MakeName(x.text[from..n]);
      } else {
        c := Expression();
      }
    }

    method SkipDigits()
      requires Valid()
      modifies this`n
      ensures Valid() && St() == DigitRun(x, old(St()))
    {
      while IsDigit(PeekChar())
        invariant Valid() && unchanged(`nextComp, `nextSub, `lastName, `lost, subs)
        invariant DigitRun(x, St()) == DigitRun(x, old(St()))
        decreases |x.text| - n
      {
        n := n + 1;
      }
    }

    method ArrayElement(dim: Option<Comp>) returns (c: Option<Comp>)
      requires Valid() && Room(0)
      modifies this, subs
      ensures Valid() && Parse(c, St()) == G.ArrayElement(x, dim, old(St()))
      decreases |x.text| - n, 6
    {
      hide G.Type;
      var t := Type();
      if t.None? {
        return None;
      }
      var ok := MakeEmpty();
      c := if ok then Some(ArrayType(dim, t.value)) else None;
    }

    method VectorTypeOf() returns (c: Option<Comp>)
      requires Valid() && Room(1)
      modifies this, subs
      ensures Valid() && Parse(c, St()) == G.VectorTypeOf(x, old(St()))
      decreases |x.text| - n, 6
    {
      hide G.Expression, G.Type, ScanNumber;
      var dim;
      if PeekChar() == '_' {
        AdvanceBy(1);
        dim := Expression();
      } else {
        var ok := MakeEmpty();
        assert ok;
        var num := ReadNumber();
        dim := Some(Number(num));
      }
      if dim.None? {
        return None;
      }
      var yes := CheckChar('_');
      if !yes {
        return None;
      }
      var t := Type();
      c := MakePair(VectorType, dim, t);
    }

    method PointerToMember() returns (c: Option<Comp>)
      requires Valid() && Room(0)
      modifies this, subs
      ensures Valid() && Parse(c, St()) == G.PointerToMember(x, old(St()))
      decreases |x.text| - n, 0
    {
      hide G.Type, G.CvQualifiers;
      var yes := CheckChar('M');
      if !yes {
        return None;
      }
      var cl := Type();
      var qs := CvQualifiers();
      var t := Type();
      if t.None? {
        return None;
      }
      var mem := Qualify(qs, true, t.value);
      if qs != [] && !t.value.FunctionType? {
        yes := AddSubstitution(Some(mem));
        if !yes {
          return None;
        }
      }
      c := MakePair(PtrmemType, cl, Some(mem));
    }

    /** cplus_demangle_type. */
    method Type() returns (c: Option<Comp>)
      requires Valid() && Room(0)
      modifies this, subs
      ensures Valid() && Parse(c, St()) == G.Type(x, old(St()))
      decreases |x.text| - n, 5
    {
      hide G.Unqualified;
      if G.IsQualifier(PeekChar()) {
        var qs := CvQualifiers();
        assert |qs| > 0;
        c := Type();
        if c.None? {
          return;
        }
        c := Some(Qualify(qs, false, c.value));
        var ok := AddSubstitution(c);
        if !ok {
          return None;
        }
      } else {
        var canSubst;
        c, canSubst := Unqualified();
        if canSubst {
          var ok := AddSubstitution(c);
          if !ok {
            return None;
          }
        }
      }
    }

    method Unqualified() returns (c: Option<Comp>, canSubst: bool)
      requires Valid() && Room(0) && !G.IsQualifier(PeekChar())
      modifies this, subs
      ensures Valid() && G.Unrecorded(Parse(c, St()), canSubst) == G.Unqualified(x, old(St()))
      decreases |x.text| - n, 4
    {
      hide G.SubstitutedType, G.ExtendedType, G.CompoundType;
      var peek := PeekChar();
      if G.IsBuiltin(peek) {
        c := MakeLeaf(BuiltinType(BuiltinIndex(peek)));
        canSubst := false;
        AdvanceBy(1);
      } else if peek == 'S' {
        c, canSubst := SubstitutedType();
      } else if peek == 'D' {
        c := ExtendedType();
        canSubst := false;
      } else {
        c := CompoundType();
        canSubst := true;
      }
    }

    method CompoundType() returns (c: Option<Comp>)
      requires Valid() && Room(0)
      modifies this, subs
      ensures Valid() && Parse(c, St()) == G.CompoundType(x, old(St()))
      decreases |x.text| - n, 3
    {
      hide G.NameOf, G.SourceName, G.FunctionTypeOf, G.ArrayTypeOf, G.PointerToMember, G.TemplateOf,
        G.TemplateParamOf, G.VendorQualified, G.Type, G.IndirectKind;
      var peek := PeekChar();
      if IsDigit(peek) || peek == 'N' || peek == 'Z' {
        c := NameOf();
      } else if peek == 'u' {
        AdvanceBy(1);
        c := SourceName();
        c := MakeSingle(VendorType, c);
      } else if peek == 'F' {
        c := FunctionTypeOf();
      } else if peek == 'A' {
        c := ArrayTypeOf();
      } else if peek == 'M' {
        c := PointerToMember();
      } else if peek == 'T' {
        c := TemplateParamOf();
        c := TemplateOf(old(St()), c, true);
      } else if peek == 'U' {
        c := VendorQualified();
      } else if G.IsIndirect(peek) {
        AdvanceBy(1);
        c := Type();
        c := MakeSingle(G.IndirectKind(peek), c);
      } else {
        c := None;
      }
    }

    method VendorQualified() returns (c: Option<Comp>)
      requires Valid() && Room(0) && PeekChar() == 'U'
      modifies this, subs
      ensures Valid() && Parse(c, St()) == G.VendorQualified(x, old(St()))
      decreases |x.text| - n, 0
    {
      hide G.SourceName, G.Type;
      AdvanceBy(1);
      var name := SourceName();
      var t := Type();
      c := MakePair(VendorTypeQual, t, name);
    }

    method SubstitutedType() returns (c: Option<Comp>, canSubst: bool)
      requires Valid() && Room(0)
      modifies this, subs
      ensures Valid() && G.Unrecorded(Parse(c, St()), canSubst) == G.SubstitutedType(x, old(St()))
      decreases |x.text| - n, 3
    {
      hide G.Substitution, G.TemplateOf, G.NameOf;
      var k := PeekNextChar();
      if IsDigit(k) || k == '_' || IsUpper(k) {
        c := Substitution(false);
        canSubst := PeekChar() == 'I';
        c := TemplateOf(old(St()), c, false);
      } else {
        c := NameOf();
        canSubst := !(c.Some? && c.value.SubStd?);
      }
    }

    method ExtendedType() returns (c: Option<Comp>)
      requires Valid() && Room(0) && PeekChar() == 'D'
      modifies this, subs
      ensures Valid() && Parse(c, St()) == G.ExtendedType(x, old(St()))
      decreases |x.text| - n, 0
    {
      hide G.DecltypeOf, G.Type, G.FixedTypeOf, G.VectorTypeOf;
      AdvanceBy(1);
      var ch := NextChar();
      match ch
      case 'T' => c := DecltypeOf();
      case 't' => c := DecltypeOf();
      case 'p' =>
        c := Type();
        c := MakeSingle(PackExpansion, c);
      case 'f' => c := MakeLeaf(BuiltinType(26));
      case 'd' => c := MakeLeaf(BuiltinType(27));
      case 'e' => c := MakeLeaf(BuiltinType(28));
      case 'h' => c := MakeLeaf(BuiltinType(29));
      case 's' => c := MakeLeaf(BuiltinType(30));
      case 'i' => c := MakeLeaf(BuiltinType(31));
      case 'n' => c := MakeLeaf(BuiltinType(32));
      case 'F' =>
        var ok := MakeEmpty();
        assert ok;
        c := FixedTypeOf();
      case 'v' => c := VectorTypeOf();
      case _ => c := None;
    }

    method DecltypeOf() returns (c: Option<Comp>)
      requires Valid() && Room(0)
      modifies this, subs
      ensures Valid() && Parse(c, St()) == G.DecltypeOf(x, old(St()))
      decreases |x.text| - n, 4
    {
      hide G.Expression;
      c := Expression();
      c := MakeSingle(Decltype, c);
      if c.Some? {
        var ch := NextChar();
        if ch != 'E' {
          c := None;
        }
      }
    }

    method FixedTypeOf() returns (c: Option<Comp>)
      requires Valid() && Room(0)
      modifies this, subs
      ensures Valid() && Parse(c, St()) == G.FixedTypeOf(x, old(St()))
      decreases |x.text| - n, 6
    {
      hide G.Type, ScanNumber;
      var accum := IsDigit(PeekChar());
      if accum {
        var _ := ReadNumber();
      }
      var t := Type();
      if t.None? {
        return None;
      }
      var _ := ReadNumber();
      var ch := NextChar();
      c := Some(FixedType(accum, t.value, ch == 's'));
    }

    // ----- expressions -----

    method Expression() returns (c: Option<Comp>)
      requires Valid() && Room(0)
      modifies this, subs
      ensures Valid() && Parse(c, St()) == G.Expression(x, old(St()))
      decreases |x.text| - n, 3
    {
      hide G.ExprPrimary, G.TemplateParamOf, G.ScopedName, CompactInt, G.DependentName, G.OperatorExpression;
      var peek := PeekChar();
      if peek == 'L' {
        c := ExprPrimary();
      } else if peek == 'T' {
        c := TemplateParamOf();
      } else if peek == 's' && PeekNextChar() == 'r' {
        AdvanceBy(2);
        c := ScopedName();
      } else if peek == 's' && PeekNextChar() == 'p' {
        AdvanceBy(2);
        c := Expression();
        c := MakeSingle(PackExpansion, c);
      } else if peek == 'f' && PeekNextChar() == 'p' {
        AdvanceBy(2);
        var num := ReadCompactInt();
        if num < 0 {
          return None;
        }
        c := MakeLeaf(FunctionParam(num));
      } else if IsDigit(peek) {
        c := DependentName();
      } else if peek == 'o' && PeekNextChar() == 'n' {
        AdvanceBy(2);
        c := DependentName();
      } else {
        c := OperatorExpression();
      }
    }

    method ScopedName() returns (c: Option<Comp>)
      requires Valid() && Room(0)
      modifies this, subs
      ensures Valid() && Parse(c, St()) == G.ScopedName(x, old(St()))
      decreases |x.text| - n, 6
    {
      hide G.Type, G.UnqualifiedName, G.MaybeTemplate;
      var t := Type();
      ghost var mid := St();
      var name := UnqualifiedName();
      name := MaybeTemplate(mid, name);
      c := MakePair(QualName, t, name);
    }

    method MaybeTemplate(ghost from: State, name: Option<Comp>) returns (c: Option<Comp>)
      requires Valid() && In(x, from) && Within(x, from, Parse(name, St()), 2, 2)
      requires from.made <= 2 * from.n && |from.subs| <= from.n
      modifies this, subs
      ensures Valid() && Parse(c, St()) == G.MaybeTemplate(x, Parse(name, old(St())))
      decreases |x.text| - n, 1
    {
      hide G.TemplateArgs;
      if PeekChar() != 'I' {
        return name;
      }
      var args := TemplateArgs();
      c := MakePair(Template, name, args);
    }

    method DependentName() returns (c: Option<Comp>)
      requires Valid() && Room(0)
      modifies this, subs
      ensures Valid() && Parse(c, St()) == G.DependentName(x, old(St()))
      decreases |x.text| - n, 2
    {
      hide G.UnqualifiedName, G.MaybeTemplate;
      var name := UnqualifiedName();
      if name.None? {
        return None;
      }
      c := MaybeTemplate(old(St()), name);
    }

    method OperatorExpression() returns (c: Option<Comp>)
      requires Valid() && Room(0)
      modifies this, subs
      ensures Valid() && Parse(c, St()) == G.OperatorExpression(x, old(St()))
      decreases |x.text| - n, 1
    {
      hide G.OperatorName, G.Type, G.UnaryOperand, G.BinaryOperands, G.TrinaryOperands, G.Operands;
      var at := n;
      var op := OperatorName();
      if op.None? {
        return None;
      }
      if op.value == Operator(G.OP_ST) {
        var t := Type();
        c := MakePair(UnaryExpr, op, t);
        return;
      }
      match G.Operands(op.value)
      case 1 => c := UnaryOperand(op.value);
      case 2 =>
        if op.value.ExtendedOperator? {
          lost := if lost.None? then Some(at) else lost;
          return None;
        }
        c := BinaryOperands(op.value);
      case 3 => c := TrinaryOperands(op.value);
      case _ => c := None;
    }

    method UnaryOperand(op: Comp) returns (c: Option<Comp>)
      requires Valid() && Room(0)
      modifies this, subs
      ensures Valid() && Parse(c, St()) == G.UnaryOperand(x, op, old(St()))
      decreases |x.text| - n, 6
    {
      hide G.ExprList, G.Expression;
      if op.Single? && PeekChar() == '_' {
        AdvanceBy(1);
        c := ExprList();
      } else {
        c := Expression();
      }
      c := MakePair(UnaryExpr, Some(op), c);
    }

    method BinaryOperands(op: Comp) returns (c: Option<Comp>)
      requires Valid() && Room(0)
      modifies this, subs
      ensures Valid() && Parse(c, St()) == G.BinaryOperands(x, op, old(St()))
      decreases |x.text| - n, 7
    {
      hide Stray, CString, G.Expression, G.RightOperand;
      var left := Expression();
      var right := RightOperand(op);
      var args := MakePair(BinaryArgs, left, right);
      c := MakePair(BinaryExpr, Some(op), args);
    }

    method RightOperand(op: Comp) returns (c: Option<Comp>)
      requires Valid() && Room(0)
      modifies this, subs
      ensures Valid() && Parse(c, St()) == G.RightOperand(x, op, old(St()))
      decreases |x.text| - n, 6
    {
      hide Stray, CString, G.ExprList, G.Expression, G.UnqualifiedName, G.MaybeTemplate;
      ghost var before := St();
      if op == Operator(G.OP_CL) {
        c := ExprList();
      } else if op == Operator(G.OP_DT) || op == Operator(G.OP_PT) {
        c := UnqualifiedName();
        c := MaybeTemplate(before, c);
      } else {
        c := Expression();
      }
    }

    method TrinaryOperands(op: Comp) returns (c: Option<Comp>)
      requires Valid() && Room(0)
      modifies this, subs
      ensures Valid() && Parse(c, St()) == G.TrinaryOperands(x, op, old(St()))
      decreases |x.text| - n, 6
    {
      hide Stray, CString, G.Expression;
      var first := Expression();
      var second := Expression();
      var third := Expression();
      var arg2 := MakePair(TrinaryArg2, second, third);
      var arg1 := MakePair(TrinaryArg1, first, arg2);
      c := MakePair(TrinaryExpr, Some(op), arg1);
    }

    method ExprList() returns (c: Option<Comp>)
      requires Valid() && Room(0)
      modifies this, subs
      ensures Valid() && Parse(c, St()) == G.ExprList(x, old(St()))
      decreases |x.text| - n, 5
    {
      hide G.ExprItems;
      if PeekChar() == 'E' {
        AdvanceBy(1);
        c := MakeLeaf(Arglist([]));
        return;
      }
      var items := ExprItems();
      c := if items.None? then None else Some(Arglist(items.value));
    }

    method ExprItems() returns (items: Option<seq<Comp>>)
      requires Valid() && Room(0)
      modifies this, subs
      ensures Valid() && Parse(items, St()) == G.ExprItems(x, old(St()), [])
      decreases |x.text| - n, 4
    {
      hide G.Expression;
      var list: seq<Comp> := [];
      while true
        invariant Valid() && Room(0) && n >= old(n)
        invariant G.ExprItems(x, St(), list) == G.ExprItems(x, old(St()), [])
        decreases |x.text| - n
      {
        var e := Expression();
        if e.None? {
          return None;
        }
        var ok := MakeEmpty();
        assert ok;
        list := list + [e.value];
        if PeekChar() == 'E' {
          AdvanceBy(1);
          return Some(list);
        }
      }
    }

    method ExprPrimary() returns (c: Option<Comp>)
      requires Valid() && Room(0)
      modifies this, subs
      ensures Valid() && Parse(c, St()) == G.ExprPrimary(x, old(St()))
      decreases |x.text| - n, 0
    {
      hide G.MangledName, G.Type, G.LiteralOf;
      var yes := CheckChar('L');
      if !yes {
        return None;
      }
      if PeekChar() == '_' || PeekChar() == 'Z' {
        c := MangledName(false);
      } else {
        c := Type();
        if c.None? {
          return;
        }
        c := LiteralOf(c.value);
      }
      c := Closed(c);
    }

    method LiteralOf(t: Comp) returns (c: Option<Comp>)
      requires Valid() && Room(1)
      modifies this
      ensures Valid() && Parse(c, St()) == G.LiteralOf(x, t, old(St()))
    {
      hide LiteralEnd;
      var kind := Literal;
      if PeekChar() == 'n' {
        kind := LiteralNeg;
        AdvanceBy(1);
      }
      var from := n;
      var yes := SkipLiteral();
      if !yes {
        return None;
      }
      var text := MakeName(x.text[from..n]);
      c := MakePair(kind, Some(t), text);
    }

    method SkipLiteral() returns (yes: bool)
      requires Valid()
      modifies this`n
      ensures Valid() && Answer(yes, St()) == LiteralEnd(x, old(St()))
    {
      while PeekChar() != 'E'
        invariant Valid() && unchanged(`nextComp, `nextSub, `lastName, `lost, subs)
        invariant LiteralEnd(x, St()) == LiteralEnd(x, old(St()))
        decreases |x.text| - n
      {
        if PeekChar() == '\0' {
          return false;
        }
        n := n + 1;
      }
      yes := true;
    }
  }
}
