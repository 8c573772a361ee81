/** The parser reads whole symbols as what they stand for. */
module SymbolTrip {
  import opened Decimals
  import opened Wrappers
  import opened Components
  import opened Scanner
  import opened Numerals
  import opened Operators
  import opened Mangling
  import opened Symbols
  import opened RoundTrip
  import G = Grammar
  import D = Demangling

  // ----- the last part of a name -----

  lemma OneDigit(k: nat)
    requires k < 10
    ensures Decimal(k) == [DecimalDigit(k)] && Decimal(k)[0] == (k + '0' as int) as char
  {
  }

  /** An operator is looked up by its two letters. */
  lemma OperatorRead(x: Input, st: State, k: nat)
    requires k < 50 && At(x, st, Code(k))
    ensures G.OperatorName(x, st) == Parse(Some(Operator(k)), Made(Advance(st, 2)))
    ensures IsLower(Peek(x, st))
  {
    hide Code, FindOperator, G.Type, G.VendorOperator;
    var c := Code(k);
    AtFirst(x, st, c);
    CodeLetters(k);
    OperatorFound(c[0], c[1], k);
    assert c == [c[0], c[1]];
    assert Peek(x, Advance(st, 1)) == c[1];
  }

  /** No code of the table is that of a conversion or of a vendor's operator. */
  lemma CodeLetters(k: nat)
    requires k < 50
    ensures var c := Code(k); IsLower(c[0]) && !(c[0] == 'v' && IsDigit(c[1])) && c != "cv"
  {
  }

  /** The class a constructor is for is the name read last. */
  lemma CtorRead(x: Input, st: State, e: Entity)
    requires GoodEntity(e) && (e.last.Constructor? || e.last.Destructor?)
    requires At(x, st, SpellLast(e.last)) && st.last == Some(Name(e.scope[|e.scope| - 1]))
    ensures G.CtorDtorName(x, st) == Parse(Some(LastTree(e)), Made(Advance(st, |SpellLast(e.last)|)))
    ensures Peek(x, st) == 'C' || Peek(x, st) == 'D'
  {
    hide Decimal;
    var k := if e.last.Constructor? then e.last.variant else e.last.variant;
    OneDigit(k);
    AtFirst(x, st, SpellLast(e.last));
  }

  lemma LastRead(x: Input, st: State, e: Entity) returns (p: Parse<Comp>)
    requires GoodEntity(e) && At(x, st, SpellLast(e.last)) && !x.options.java
    requires e.scope != [] ==> st.last == Some(Name(e.scope[|e.scope| - 1]))
    ensures p == G.UnqualifiedName(x, st) && In(x, p.st)
    ensures p.value == Some(LastTree(e)) && p.st.subs == st.subs && p.st.lost == st.lost
    ensures p.st.n == st.n + |SpellLast(e.last)| > st.n
    ensures var c := Peek(x, st);
      IsDigit(c) || IsLower(c) || (e.scope != [] && (c == 'C' || c == 'D'))
  {
    hide G.SourceName, G.OperatorName, G.CtorDtorName, Code, GoodId, SpellId, Decimal;
    p := G.UnqualifiedName(x, st);
    match e.last
    case Ident(id) =>
      IdOpens(x, st, id);
      SourceNameRoundTrip(x, st, id);
    case OperatorAt(k) => OperatorRead(x, st, k);
    case _ => CtorRead(x, st, e);
  }

  // ----- scopes -----

  /** The classes and namespaces in front, each recorded. */
  lemma {:induction false} ScopeRead(x: Input, st: State, scope: seq<string>) returns (p: Parse<Comp>)
    requires scope != [] && GoodScope(scope) && !x.options.java
    requires At(x, st, SpellIds(scope)) && Peek(x, Advance(st, |SpellIds(scope)|)) != 'E'
    ensures In(x, p.st) && p.value == Some(PathTree(scope)) && p.st.n == st.n + |SpellIds(scope)|
    ensures p.st.subs == st.subs + Prefixes(scope) && p.st.lost == st.lost
    ensures p.st.last == Some(Name(scope[|scope| - 1]))
    ensures G.Prefix(x, st, None) == G.Prefix(x, p.st, p.value)
    ensures IsDigit(Peek(x, st))
    decreases |scope|
  {
    hide SpellId, GoodId, G.Prefix, At, Stray;
    var front, id := scope[..|scope| - 1], scope[|scope| - 1];
    AtSplit(x, st, SpellIds(front), SpellId(id));
    var there := Advance(st, |SpellIds(front)|);
    if front == [] {
      var q := IdInPrefix(x, st, None, id);
      IdOpens(x, st, id);
      p := G.Record(q);
      assert PathTree(scope) == Name(id);
      assert Prefixes(scope) == [] + [Name(id)];
    } else {
      IdOpens(x, there, id);
      var f := ScopeRead(x, st, front);
      AtSame(x, there, f.st, SpellId(id));
      var q := IdInPrefix(x, f.st, f.value, id);
      p := G.Record(q);
      assert st.subs + Prefixes(front) + [PathTree(scope)] == st.subs + Prefixes(scope);
    }
  }

  /** The last part inside a nested name, up to template arguments or the E. */
  lemma LastInPrefix(x: Input, st: State, e: Entity) returns (p: Parse<Comp>)
    requires GoodEntity(e) && e.scope != [] && At(x, st, SpellLast(e.last)) && !x.options.java
    requires st.last == Some(Name(e.scope[|e.scope| - 1]))
    ensures In(x, p.st) && p.value == Some(NamedTree(e)) && p.st.n == st.n + |SpellLast(e.last)|
    ensures p.st.subs == st.subs && p.st.lost == st.lost
    ensures G.Prefix(x, st, Some(PathTree(e.scope)))
         == G.Prefix(x, if Peek(x, p.st) == 'E' then p.st else G.Record(p).st, p.value)
  {
    hide G.UnqualifiedName, G.Prefix, SpellLast, LastTree, PathTree;
    var acc := Some(PathTree(e.scope));
    var u := LastRead(x, st, e);
    assert G.PrefixItem(x, st) == u;
    p := G.NextPrefix(x, st, acc);
    ItemTurn(x, st, acc);
  }

  lemma ItemTurn(x: Input, st: State, acc: Option<Comp>)
    requires In(x, st)
    requires var c := Peek(x, st); IsDigit(c) || IsLower(c) || c == 'C' || c == 'D'
    ensures G.StartsItem(Peek(x, st), acc)
    ensures var p := G.NextPrefix(x, st, acc);
      p.value.Some? ==>
        G.Prefix(x, st, acc) == G.Prefix(x, if Peek(x, p.st) == 'E' then p.st else G.Record(p).st, p.value)
  {
    hide G.NextPrefix;
  }

  /** Template arguments inside a nested name, which end it. */
  lemma ArgsInPrefix(x: Input, st: State, acc: Comp, ts: Tys) returns (p: Parse<Comp>)
    requires AllWellFormed(ts) && !x.options.java && |SpellAll(ts, st.subs).table| < WORD
    requires var s := "I" + (SpellAll(ts, st.subs).text + "E");
      At(x, st, s) && Peek(x, Advance(st, |s|)) == 'E'
    ensures var s := SpellAll(ts, st.subs);
      && In(x, p.st) && p.value == Some(Pair(Template, acc, TemplateArglist(Trees(ts))))
      && p.st.n == st.n + |s.text| + 2 && p.st.subs == s.table && p.st.lost == st.lost
    ensures G.Prefix(x, st, Some(acc)) == G.Prefix(x, p.st, p.value)
  {
    hide G.TemplateArgs, SpellAll, Trees, G.Prefix;
    AtFirst(x, st, "I" + (SpellAll(ts, st.subs).text + "E"));
    ArgsOfInstance(x, st, ts);
    assert G.PrefixItem(x, st) == G.TemplateArgs(x, st);
    p := G.NextPrefix(x, st, Some(acc));
    ArgsTurn(x, st, acc);
  }

  lemma ArgsTurn(x: Input, st: State, acc: Comp)
    requires In(x, st) && Peek(x, st) == 'I'
    ensures G.StartsItem('I', Some(acc))
    ensures var p := G.NextPrefix(x, st, Some(acc));
      Peek(x, p.st) == 'E' ==> G.Prefix(x, st, Some(acc)) == G.Prefix(x, p.st, p.value)
  {
    hide G.NextPrefix;
  }

  // ----- names -----

  lemma {:induction false} SameOnThis(qs: seq<Qualifier>, of: Comp)
    ensures Qualify(qs, true, of) == OnThis(qs, of)
    decreases |qs|
  {
    if qs != [] {
      SameOnThis(qs[1..], of);
    }
  }

  lemma NestedEnds(x: Input, st: State, qs: seq<Qualifier>, v: Comp, end: State)
    requires In(x, st) && Peek(x, st) == 'N' && In(x, end) && Peek(x, end) == 'E'
    requires var cv := G.CvQualifiers(x, Advance(st, 1), []);
      cv.qualifiers == qs && G.Prefix(x, cv.st, None) == G.Prefix(x, end, Some(v))
    ensures G.NestedName(x, st) == Parse(Some(OnThis(qs, v)), Advance(end, 1))
  {
    hide Qualify, OnThis, G.CvQualifiers;
    SameOnThis(qs, v);
  }

  /** The characters a name can start with, besides qualifiers and an N. */
  predicate StartsLast(c: char) {
    IsDigit(c) || IsLower(c) || c == 'C' || c == 'D'
  }

  lemma LastStarts(e: Entity)
    requires GoodEntity(e)
    ensures |SpellLast(e.last)| > 0 && StartsLast(SpellLast(e.last)[0])
  {
    hide Decimal, Code;
    match e.last
    case Ident(id) => assert SpellId(id)[0] == Decimal(|id|)[0];
    case OperatorAt(k) => CodeLetters(k);
    case _ =>
  }

  /** What is inside N and E behind the qualifiers. */
  lemma PathOfEntity(x: Input, st: State, e: Entity) returns (end: State, v: Comp)
    requires GoodEntity(e) && e.scope != [] && !x.options.java && st.subs == []
    requires At(x, st, SpellIds(e.scope) + (SpellLast(e.last) + (SpellArgs(e).text + "E")))
    requires |SpellArgs(e).table| < WORD
    ensures In(x, end) && Peek(x, end) == 'E' && end.subs == SpellArgs(e).table && end.lost == st.lost
    ensures end.n == st.n + |SpellIds(e.scope)| + |SpellLast(e.last)| + |SpellArgs(e).text|
    ensures v == WithArgs(e)
    ensures G.Prefix(x, st, None) == G.Prefix(x, end, Some(v))
    ensures IsDigit(Peek(x, st))
  {
    hide G.Prefix, SpellIds, SpellLast, GoodId, NamedTree, Prefixes, SpellAll, Trees, At, Peek, Stray, PathTree;
    PathPlaces(x, st, e);
    var p := ScopeRead(x, st, e.scope);
    assert [] + Prefixes(e.scope) == Prefixes(e.scope);
    AtSame(x, Advance(st, |SpellIds(e.scope)|), p.st, SpellLast(e.last));
    var q := LastInPrefix(x, p.st, e);
    if e.args.None? {
      end, v := q.st, NamedTree(e);
      PeekSame(x, Advance(st, |SpellIds(e.scope)| + |SpellLast(e.last)|), q.st);
    } else {
      var a := ArgsOfEntity(x, st, e, q);
      end, v := a.st, a.value.value;
    }
  }

  lemma PeekSame(x: Input, st: State, st': State)
    requires st'.n == st.n
    ensures Peek(x, st') == Peek(x, st)
  {
  }

  /** Where the parts of a nested name stand, and what they start with. */
  lemma PathPlaces(x: Input, st: State, e: Entity)
    requires GoodEntity(e) && At(x, st, SpellIds(e.scope) + (SpellLast(e.last) + (SpellArgs(e).text + "E")))
    ensures var ids, last, args := SpellIds(e.scope), SpellLast(e.last), SpellArgs(e).text;
      && At(x, st, ids) && Peek(x, Advance(st, |ids|)) != 'E'
      && At(x, Advance(st, |ids|), last)
      && At(x, Advance(st, |ids| + |last|), args)
      && Peek(x, Advance(st, |ids| + |last| + |args|)) == 'E'
      && Peek(x, Advance(st, |ids| + |last|)) == (if e.args.None? then 'E' else 'I')
  {
    hide SpellIds, SpellLast, SpellArgs, GoodEntity, StartsLast, At, Peek;
    var ids, last, args := SpellIds(e.scope), SpellLast(e.last), SpellArgs(e).text;
    AtSplit(x, st, ids, last + (args + "E"));
    AtSplit(x, Advance(st, |ids|), last, args + "E");
    LastStarts(e);
    StartsNoEnd(last[0]);
    AtFirst(x, Advance(st, |ids|), last);
    var st2, st3 := Advance(st, |ids| + |last|), Advance(st, |ids| + |last| + |args|);
    assert st2 == Advance(Advance(st, |ids|), |last|) && st3 == Advance(st2, |args|);
    AtSplit(x, st2, args, "E");
    AtFirst(x, st3, "E");
    ArgsStart(e);
    if e.args.Some? {
      AtFirst(x, st2, args);
    }
  }

  lemma ArgsStart(e: Entity)
    ensures var args := SpellArgs(e).text;
      if e.args.None? then args == "" else |args| > 0 && args[0] == 'I'
  {
    hide SpellAll, NamedTree, Prefixes;
  }

  /** Its template arguments, behind the name q. */
  lemma ArgsOfEntity(x: Input, st: State, e: Entity, q: Parse<Comp>) returns (a: Parse<Comp>)
    requires GoodEntity(e) && e.args.Some? && !x.options.java
    requires At(x, st, SpellIds(e.scope) + (SpellLast(e.last) + (SpellArgs(e).text + "E")))
    requires |SpellArgs(e).table| < WORD
    requires In(x, q.st) && q.value == Some(NamedTree(e)) && q.st.subs == Prefixes(e.scope)
    requires q.st.n == st.n + |SpellIds(e.scope)| + |SpellLast(e.last)|
    ensures var s := SpellArgs(e);
      && In(x, a.st) && a.value == Some(Pair(Template, NamedTree(e), TemplateArglist(Trees(e.args.value))))
      && a.st.n == q.st.n + |s.text| && a.st.subs == s.table && a.st.lost == q.st.lost && Peek(x, a.st) == 'E'
    ensures Peek(x, q.st) != 'E' && G.Prefix(x, G.Record(q).st, q.value) == G.Prefix(x, a.st, a.value)
  {
    hide G.Prefix, SpellIds, SpellLast, GoodId, NamedTree, Prefixes, SpellAll, Trees, At, Stray;
    PathPlaces(x, st, e);
    var r := G.Record(q).st;
    AtSame(x, Advance(st, |SpellIds(e.scope)| + |SpellLast(e.last)|), r, SpellArgs(e).text);
    a := ArgsInPrefix(x, r, NamedTree(e), e.args.value);
  }

  lemma StartsNoEnd(c: char)
    requires StartsLast(c)
    ensures c != 'E' && c != 'I' && c != 'G' && c != 'T' && c != 'N' && c != 'S' && c != 'Z' && c != 'L' && c != 'U'
    ensures c != '\0'
  {
  }

  lemma NestedEntity(x: Input, st: State, e: Entity)
    requires GoodEntity(e) && e.scope != [] && !x.options.java && st.subs == []
    requires At(x, st, SpellEntity(e).text) && |SpellEntity(e).table| < WORD
    ensures Peek(x, st) == 'N' && Reads(x, st, G.NameOf(x, st), EntityTree(e), SpellEntity(e))
  {
    hide SpellIds, SpellLast, SpellArgs, SpellQualifiers, NamedTree, Trees, G.NestedName, GoodId, G.CvQualifiers,
      G.IsQualifier, OnThis, G.Prefix;
    var q := SpellQualifiers(e.qualifiers);
    var inner := SpellIds(e.scope) + (SpellLast(e.last) + (SpellArgs(e).text + "E"));
    AtFirst(x, st, "N" + (q + inner));
    AtSplit(x, st, "N", q + inner);
    var st1 := Advance(st, 1);
    AtSplit(x, st1, q, inner);
    var st2 := Advance(st1, |q|);
    var _, _ := PathOfEntity(x, st2, e);
    DigitNoQualifier(Peek(x, st2));
    QualifiersRead(x, st1, e.qualifiers, []);
    assert [] + e.qualifiers == e.qualifiers;
    var cv := G.CvQualifiers(x, st1, []).st;
    AtSame(x, st2, cv, inner);
    var end, v := PathOfEntity(x, cv, e);
    NestedEnds(x, st, e.qualifiers, v, end);
  }

  lemma DigitNoQualifier(c: char)
    requires IsDigit(c)
    ensures !G.IsQualifier(c)
  {
  }

  lemma AtIn(x: Input, st: State, s: string)
    requires At(x, st, s)
    ensures In(x, Advance(st, |s|))
  {
  }

  lemma AtSame(x: Input, st: State, st': State, s: string)
    requires At(x, st, s) && In(x, st') && st'.n == st.n
    ensures At(x, st', s)
  {
  }

  lemma PlainName(x: Input, st: State)
    requires In(x, st) && (IsDigit(Peek(x, st)) || IsLower(Peek(x, st)))
    ensures G.NameOf(x, st) == G.TemplateOf(x, st, G.UnqualifiedName(x, st), true)
  {
    hide G.UnqualifiedName, G.TemplateArgs;
  }

  lemma PlainEntity(x: Input, st: State, e: Entity)
    requires GoodEntity(e) && e.scope == [] && !x.options.java && st.subs == []
    requires At(x, st, SpellEntity(e).text) && |SpellEntity(e).table| < WORD
    requires Peek(x, Advance(st, |SpellEntity(e).text|)) != 'I'
    ensures IsDigit(Peek(x, st)) || IsLower(Peek(x, st))
    ensures Reads(x, st, G.NameOf(x, st), EntityTree(e), SpellEntity(e))
  {
    hide SpellLast, Trees, G.UnqualifiedName, GoodId, LastTree, SpellAll, G.TemplateArgs, PathTree, At, Stray, G.NameOf;
    var last, args := SpellLast(e.last), SpellArgs(e).text;
    AtSplit(x, st, last, args);
    var u := LastRead(x, st, e);
    PlainName(x, st);
    AtSame(x, Advance(st, |last|), u.st, args);
    if e.args.Some? {
      AtFirst(x, u.st, args);
      assert Prefixes(e.scope) + [NamedTree(e)] == u.st.subs + [LastTree(e)];
      AtSame(x, u.st, G.Record(u).st, args);
      ArgsOfInstance(x, G.Record(u).st, e.args.value);
    }
  }

  /** A name is read as what it stands for. */
  lemma EntityRead(x: Input, st: State, e: Entity)
    requires GoodEntity(e) && !x.options.java && st.subs == []
    requires At(x, st, SpellEntity(e).text) && |SpellEntity(e).table| < WORD
    requires Peek(x, Advance(st, |SpellEntity(e).text|)) != 'I'
    ensures Reads(x, st, G.NameOf(x, st), EntityTree(e), SpellEntity(e))
    ensures Peek(x, st) != 'G' && Peek(x, st) != 'T'
  {
    hide GoodEntity, G.NameOf, EntityTree, SpellEntity;
    if e.scope == [] {
      PlainEntity(x, st, e);
    } else {
      NestedEntity(x, st, e);
    }
  }

  lemma {:induction false} ResultNamed(e: Entity)
    requires GoodEntity(e)
    ensures HasReturnType(EntityTree(e)) <==> NamesResult(e)
  {
    hide OnThis;
    assert IsCtorDtorOrConversion(LastTree(e)) <==> e.last.Constructor? || e.last.Destructor?;
    assert IsCtorDtorOrConversion(NamedTree(e)) <==> e.last.Constructor? || e.last.Destructor?;
    ThisReturns(e.qualifiers, WithArgs(e));
  }

  lemma {:induction false} ThisReturns(qs: seq<Qualifier>, c: Comp)
    ensures HasReturnType(OnThis(qs, c)) <==> HasReturnType(c)
    decreases |qs|
  {
    if qs != [] {
      ThisReturns(qs[1..], c);
    }
  }

  // ----- functions -----

  /** The parameters of a function up to the end of the text. */
  lemma ParametersRead(x: Input, st: State, ts: Tys)
    requires ts.Cons? && AllWellFormed(ts) && !x.options.java && ListSpelled(x, st, ts, st.subs)
    ensures var s := SpellAll(ts, st.subs);
      Reads(x, st, G.ParmList(x, st), Parameters(ts), s) && Opens(Peek(x, st))
  {
    hide G.ParmTypes, G.Type, SpellAll, Trees, At, Stray, Spell, WellFormed, G.DropVoid, ListSpelled;
    ParmsRoundTrip(x, st, ts, []);
    assert [] + Trees(ts) == Trees(ts);
    SameParameters(ts);
    HeadRoundTrip(x, st, ts);
    SomeTrees(ts);
  }

  lemma SomeTrees(ts: Tys)
    requires ts.Cons?
    ensures Trees(ts) != []
  {
  }

  lemma PlainFunction(x: Input, st: State, ts: Tys)
    requires ts.Cons? && AllWellFormed(ts) && !x.options.java && ListSpelled(x, st, ts, st.subs)
    ensures var s := SpellAll(ts, st.subs);
      Reads(x, st, G.BareFunctionType(x, st, false), FunctionType(None, Parameters(ts)), s) && Opens(Peek(x, st))
  {
    hide G.ParmList, SpellAll, Parameters, ListSpelled, Stray;
    ParametersRead(x, st, ts);
    NoResultMark(Peek(x, st));
  }

  lemma NoResultMark(c: char)
    requires Opens(c)
    ensures c != 'J' && c != 'I' && c != 'E' && c != '\0'
  {
  }

  lemma ResultFunction(x: Input, st: State, result: Ty, ts: Tys)
    requires ts.Cons? && AllWellFormed(ts) && WellFormed(result) && !x.options.java
    requires var r := Spell(result, st.subs);
      At(x, st, r.text) && ListSpelled(x, Advance(st, |r.text|), ts, r.table)
    ensures var r := Spell(result, st.subs);
      var s := SpellAll(ts, r.table);
      && Reads(x, st, G.BareFunctionType(x, st, true), FunctionType(Some(Tree(result)), Parameters(ts)),
               Spelling(r.text + s.text, s.table))
      && Opens(Peek(x, st))
  {
    hide G.ParmList, SpellAll, Parameters, Stray, Spell, G.Type, Tree;
    var r := Spell(result, st.subs);
    TableGrows(ts, r.table);
    SpellingOpens(result, st.subs);
    AtFirst(x, st, r.text);
    NoResultMark(Peek(x, st));
    ListOpens(x, Advance(st, |r.text|), ts, r.table);
    TypeRoundTrip(x, st, result);
    var t := G.Type(x, st);
    ListSame(x, Advance(st, |r.text|), t.st, ts, r.table);
    ParametersRead(x, t.st, ts);
  }

  lemma TableGrows(ts: Tys, table: seq<Comp>)
    ensures |SpellAll(ts, table).table| >= |table|
  {
  }

  lemma ListSame(x: Input, st: State, st': State, ts: Tys, table: seq<Comp>)
    requires ListSpelled(x, st, ts, table) && In(x, st') && st'.n == st.n
    ensures ListSpelled(x, st', ts, table)
  {
    hide SpellAll;
  }

  lemma ListOpens(x: Input, st: State, ts: Tys, table: seq<Comp>)
    requires ts.Cons? && AllWellFormed(ts) && ListSpelled(x, st, ts, table)
    ensures Opens(Peek(x, st)) && Peek(x, st) != 'I'
  {
    hide Spell, WellFormed;
    SpellingOpens(ts.head, table);
    AtFirst(x, st, SpellAll(ts, table).text);
  }

  // ----- offsets -----

  /** A number up to the underscore, whatever its sign. */
  lemma NumberRead(x: Input, st: State, v: int)
    requires At(x, st, SpellNumber(v) + "_")
    ensures Underscore(x, ScanNumber(x, st).st) == Answer(true, Advance(st, |SpellNumber(v)| + 1))
  {
    hide Decimal, At;
    AtSplit(x, st, SpellNumber(v), "_");
    AtFirst(x, Advance(st, |SpellNumber(v)|), "_");
    if v < 0 {
      AtSplit(x, st, "n", Decimal(-v));
      AtFirst(x, st, "n");
      var st' := Advance(st, 1);
      DecimalRoundTrip(x, st', -v);
      AtFirst(x, st', Decimal(-v));
    } else {
      DecimalRoundTrip(x, st, v);
    }
  }

  lemma OffsetRead(x: Input, st: State, o: Offset)
    requires At(x, st, SpellOffset(o))
    ensures var n := |SpellOffset(o)|;
      && Peek(x, st) == (if o.Fixed? then 'h' else 'v')
      && CallOffset(x, Advance(st, 1), Peek(x, st)) == Answer(true, Advance(st, n))
      && CallOffset(x, st, '\0') == Answer(true, Advance(st, n))
  {
    hide SpellNumber, At, ScanNumber, Underscore;
    AtFirst(x, st, SpellOffset(o));
    var st' := Advance(st, 1);
    match o
    case Fixed(v) =>
      AtSplit(x, st, "h", SpellNumber(v) + "_");
      NumberRead(x, st', v);
    case Virtual(v, w) =>
      var first, second := SpellNumber(v), SpellNumber(w);
      AtSplit(x, st, "v", first + ("_" + (second + "_")));
      assert first + ("_" + (second + "_")) == (first + "_") + (second + "_");
      AtSplit(x, st', first + "_", second + "_");
      NumberRead(x, st', v);
      NumberRead(x, Advance(st', |first| + 1), w);
  }

  // ----- special names -----

  lemma TypeTableRead(x: Input, st: State, c: char)
    requires c in {'V', 'T', 'I', 'S', 'F', 'J'} && At(x, st, ['T', c])
    ensures var t := G.Type(x, Advance(st, 2));
      t.value.Some? ==> G.SpecialName(x, st) == Parse(Some(OfType(c, t.value.value)), Made(t.st))
  {
    hide G.Type;
    AtFirst(x, st, ['T', c]);
    assert Peek(x, Advance(st, 1)) == c;
  }

  lemma ConstructionRead(x: Input, st: State)
    requires At(x, st, "TC")
    ensures G.SpecialName(x, st) == G.ConstructionVtableOf(x, Advance(st, 2))
  {
    hide G.ConstructionVtableOf;
    AtFirst(x, st, "TC");
    assert Peek(x, Advance(st, 1)) == 'C';
  }

  lemma ThunkRead(x: Input, st: State, o: Offset)
    requires At(x, st, "T" + SpellOffset(o))
    ensures G.SpecialName(x, st) ==
      G.MakeSingle(if o.Fixed? then Thunk else VirtualThunk, G.Encoding(x, Advance(st, 1 + |SpellOffset(o)|), false))
  {
    hide G.Encoding, CallOffset, SpellOffset;
    AtFirst(x, st, "T" + SpellOffset(o));
    AtSplit(x, st, "T", SpellOffset(o));
    var st', st2 := Advance(st, 1), Advance(st, 2);
    OffsetRead(x, st', o);
    var c := Peek(x, st');
    assert Next(x, st') == st2 == Advance(st', 1);
    assert Advance(st', |SpellOffset(o)|) == Advance(st, 1 + |SpellOffset(o)|);
    assert G.SpecialName(x, st) == G.TableName(x, st) == G.ThunkName(x, st2, c);
    assert G.ThunkName(x, st2, c) == G.ThunkOf(x, if o.Fixed? then Thunk else VirtualThunk, CallOffset(x, st2, c));
  }

  lemma CovariantRead(x: Input, st: State, first: Offset, second: Offset)
    requires At(x, st, "Tc" + (SpellOffset(first) + SpellOffset(second)))
    ensures var n := 2 + |SpellOffset(first)| + |SpellOffset(second)|;
      G.SpecialName(x, st) == G.MakeSingle(CovariantThunk, G.Encoding(x, Advance(st, n), false))
  {
    hide G.Encoding, CallOffset, SpellOffset;
    AtFirst(x, st, "Tc" + (SpellOffset(first) + SpellOffset(second)));
    AtSplit(x, st, "Tc", SpellOffset(first) + SpellOffset(second));
    var st' := Advance(st, 2);
    AtSplit(x, st', SpellOffset(first), SpellOffset(second));
    OffsetRead(x, st', first);
    var st2 := Advance(st', |SpellOffset(first)|);
    OffsetRead(x, st2, second);
    assert Peek(x, Advance(st, 1)) == 'c' && Next(x, Advance(st, 1)) == st';
    assert Advance(st2, |SpellOffset(second)|) == Advance(st, 2 + |SpellOffset(first)| + |SpellOffset(second)|);
    assert G.SpecialName(x, st) == G.TableName(x, st) == G.ThunkName(x, st', 'c');
    assert G.ThunkName(x, st', 'c') == G.ThunkOf(x, CovariantThunk, G.TwoOffsets(x, st'));
  }

  lemma ObjectRead(x: Input, st: State, c: char)
    requires c in {'V', 'R', 'A'} && At(x, st, ['G', c])
    ensures var st' := Advance(st, 2);
      G.SpecialName(x, st) ==
        if c == 'V' then G.MakeSingle(Guard, G.NameOf(x, st'))
        else if c == 'R' then G.MakeSingle(Reftemp, G.NameOf(x, st'))
        else G.MakeSingle(HiddenAlias, G.Encoding(x, st', false))
  {
    hide G.Encoding, G.NameOf;
    AtFirst(x, st, ['G', c]);
    assert Peek(x, Advance(st, 1)) == c;
  }

  lemma SpecialEncoding(x: Input, st: State, top: bool)
    requires In(x, st) && (Peek(x, st) == 'G' || Peek(x, st) == 'T')
    ensures G.Encoding(x, st, top) == G.SpecialName(x, st)
  {
    hide G.SpecialName;
  }

  // ----- symbols -----

  /** The spelling is all that is left of the text, and nothing was recorded before. */
  ghost predicate Whole(x: Input, st: State, s: Spelling) {
    At(x, st, s.text) && st.n + |s.text| == |x.text| && |s.table| < WORD && st.subs == [] && !x.options.java
  }

  lemma WholePart(x: Input, st: State, prefix: string, s: Spelling)
    requires Whole(x, st, Behind(prefix, s))
    ensures At(x, st, prefix) && Whole(x, Advance(st, |prefix|), s)
  {
    AtSplit(x, st, prefix, s.text);
  }

  lemma AtTheEnd(x: Input, st: State)
    requires In(x, st) && st.n == |x.text|
    ensures Peek(x, st) == '\0'
  {
  }

  lemma NameEncoding(x: Input, st: State, top: bool)
    requires In(x, st) && Peek(x, st) != 'G' && Peek(x, st) != 'T' && (top ==> x.options.params)
    requires G.NameOf(x, st).value.Some?
    ensures var name := G.NameOf(x, st);
      && (Peek(x, name.st) == '\0' ==> G.Encoding(x, st, top) == name)
      && (Opens(Peek(x, name.st)) ==>
            var f := G.BareFunctionType(x, name.st, HasReturnType(name.value.value));
            G.Encoding(x, st, top) == G.MakePair(TypedName, name.value, f.value, f.st))
  {
    hide G.NameOf, G.BareFunctionType, HasReturnType;
  }

  lemma ObjectReads(x: Input, st: State, e: Entity, top: bool)
    requires GoodEntity(e) && Whole(x, st, SpellEntity(e)) && (top ==> x.options.params)
    ensures Reads(x, st, G.NameOf(x, st), EntityTree(e), SpellEntity(e))
    ensures G.Encoding(x, st, top) == G.NameOf(x, st)
  {
    hide GoodEntity, SpellEntity, EntityTree, G.NameOf, G.Encoding;
    AtTheEnd(x, Advance(st, |SpellEntity(e).text|));
    EntityRead(x, st, e);
    AtTheEnd(x, G.NameOf(x, st).st);
    NameEncoding(x, st, top);
  }

  /** The name of a function, and where its signature starts. */
  lemma RoutineName(x: Input, st: State, s: Symbol)
    requires s.Routine? && GoodSymbol(s) && Whole(x, st, SpellSymbol(s))
    ensures var name := SpellEntity(s.entity);
      var result := if s.result.Some? then Spell(s.result.value, name.table) else Spelling("", name.table);
      && Reads(x, st, G.NameOf(x, st), EntityTree(s.entity), name)
      && Peek(x, st) != 'G' && Peek(x, st) != 'T'
      && At(x, Advance(st, |name.text|), result.text)
      && ListSpelled(x, Advance(st, |name.text| + |result.text|), s.params, result.table)
      && Opens(Peek(x, Advance(st, |name.text|)))
  {
    hide GoodEntity, SpellEntity, EntityTree, G.NameOf, Spell, SpellAll, At, Stray, WellFormed;
    var name := SpellEntity(s.entity);
    var result := if s.result.Some? then Spell(s.result.value, name.table) else Spelling("", name.table);
    var list := SpellAll(s.params, result.table);
    var st1, st2 := Advance(st, |name.text|), Advance(st, |name.text| + |result.text|);
    AtSplit(x, st, name.text, result.text + list.text);
    AtSplit(x, st1, result.text, list.text);
    assert st2 == Advance(st1, |result.text|);
    AtIn(x, st2, list.text);
    AtTheEnd(x, Advance(st2, |list.text|));
    ListOpens(x, st2, s.params, result.table);
    if s.result.Some? {
      SpellingOpens(s.result.value, name.table);
      AtFirst(x, st1, result.text);
    } else {
      assert st1 == st2;
    }
    TableGrows(s.params, result.table);
    EntityRead(x, st, s.entity);
  }

  lemma RoutineReads(x: Input, st: State, s: Symbol, top: bool)
    requires s.Routine? && GoodSymbol(s) && Whole(x, st, SpellSymbol(s)) && (top ==> x.options.params)
    ensures Reads(x, st, G.Encoding(x, st, top), SymbolTree(s), SpellSymbol(s))
  {
    hide GoodEntity, SpellEntity, EntityTree, G.NameOf, G.Encoding, G.BareFunctionType, Spell, SpellAll, At, Stray,
      WellFormed, HasReturnType, ListSpelled, Peek, Parameters;
    RoutineName(x, st, s);
    ResultNamed(s.entity);
    var name, at := G.NameOf(x, st), Advance(st, |SpellEntity(s.entity).text|);
    PeekSame(x, at, name.st);
    NameEncoding(x, st, top);
    if s.result.Some? {
      var r := Spell(s.result.value, name.st.subs);
      AtSame(x, at, name.st, r.text);
      ListSame(x, Advance(at, |r.text|), Advance(name.st, |r.text|), s.params, r.table);
      ResultFunction(x, name.st, s.result.value, s.params);
    } else {
      ListSame(x, at, name.st, s.params, name.st.subs);
      PlainFunction(x, name.st, s.params);
    }
  }

  lemma TypeTableReads(x: Input, st: State, s: Symbol)
    requires s.TypeTable? && GoodSymbol(s) && Whole(x, st, SpellSymbol(s))
    ensures Reads(x, st, G.SpecialName(x, st), SymbolTree(s), SpellSymbol(s)) && Peek(x, st) == 'T'
  {
    hide G.SpecialName, G.Type, Spell, At, Stray, WellFormed, Tree, OfType;
    var prefix, t := ['T', s.letter], Spell(s.of, []);
    WholePart(x, st, prefix, t);
    AtFirst(x, st, prefix);
    AtTheEnd(x, Advance(st, |prefix + t.text|));
    TypeRoundTrip(x, Advance(st, 2), s.of);
    TypeTableRead(x, st, s.letter);
  }

  lemma ConstructionParts(x: Input, st: State, s: Symbol)
    requires s.ConstructionTable? && GoodSymbol(s) && Whole(x, st, SpellSymbol(s))
    ensures var d := Spell(s.derived, []);
      var n, b := Decimal(s.offset), Spell(s.base, d.table);
      && At(x, st, "TC") && Spelled(x, Advance(st, 2), d)
      && At(x, Advance(st, 2 + |d.text|), n) && Peek(x, Advance(st, 2 + |d.text| + |n|)) == '_'
      && Spelled(x, Advance(st, 2 + |d.text| + |n| + 1), b)
      && |SpellSymbol(s).text| == 2 + |d.text| + |n| + 1 + |b.text|
  {
    hide Spell, At, WellFormed, Decimal, Peek;
    var d := Spell(s.derived, []);
    var n, b := Decimal(s.offset), Spell(s.base, d.table);
    AtSplit(x, st, "TC", d.text + (n + ("_" + b.text)));
    var st2 := Advance(st, 2);
    AtSplit(x, st2, d.text, n + ("_" + b.text));
    var st3 := Advance(st2, |d.text|);
    AtSplit(x, st3, n, "_" + b.text);
    AtFirst(x, st3, n);
    var st4 := Advance(st3, |n|);
    AtSplit(x, st4, "_", b.text);
    AtFirst(x, st4, "_");
    AtTheEnd(x, Advance(Advance(st4, 1), |b.text|));
  }

  lemma ConstructionReads(x: Input, st: State, s: Symbol)
    requires s.ConstructionTable? && GoodSymbol(s) && Whole(x, st, SpellSymbol(s))
    ensures Reads(x, st, G.SpecialName(x, st), SymbolTree(s), SpellSymbol(s)) && Peek(x, st) == 'T'
  {
    hide G.SpecialName, G.Type, Spell, At, Stray, WellFormed, Tree, ScanNumber, Decimal;
    ConstructionParts(x, st, s);
    AtFirst(x, st, "TC");
    ConstructionRead(x, st);
    var st' := Advance(st, 2);
    TypeRoundTrip(x, st', s.derived);
    var d := G.Type(x, st');
    AtSame(x, Advance(st', |Spell(s.derived, []).text|), d.st, Decimal(s.offset));
    DecimalRoundTrip(x, d.st, s.offset);
    var base := Advance(d.st, |Decimal(s.offset)| + 1);
    SpelledSame(x, Advance(st', |Spell(s.derived, []).text| + |Decimal(s.offset)| + 1), base,
                Spell(s.base, d.st.subs));
    TypeRoundTrip(x, base, s.base);
  }

  lemma SpelledSame(x: Input, st: State, st': State, s: Spelling)
    requires Spelled(x, st, s) && In(x, st') && st'.n == st.n
    ensures Spelled(x, st', s)
  {
  }

  /** Every symbol is read as what it stands for, to the end of the text. */
  lemma {:induction false} SymbolRoundTrip(x: Input, st: State, s: Symbol, top: bool)
    requires GoodSymbol(s) && Whole(x, st, SpellSymbol(s)) && (top ==> x.options.params)
    ensures Reads(x, st, G.Encoding(x, st, top), SymbolTree(s), SpellSymbol(s))
    decreases s
  {
    hide GoodEntity, SpellEntity, EntityTree, G.NameOf, G.Encoding, G.SpecialName, Spell, SpellAll, At, Stray, Tree,
      WellFormed, SpellOffset, OfType, Peek;
    match s
    case Object(e) => ObjectReads(x, st, e, top);
    case Routine(_, _, _) => RoutineReads(x, st, s, top);
    case TypeTable(_, _) =>
      TypeTableReads(x, st, s);
      SpecialEncoding(x, st, top);
    case ConstructionTable(_, _, _) =>
      ConstructionReads(x, st, s);
      SpecialEncoding(x, st, top);
    case Adjusted(first, second, target) =>
      var prefix := if second.Some? then "Tc" + (SpellOffset(first) + SpellOffset(second.value))
                    else "T" + SpellOffset(first);
      WholePart(x, st, prefix, SpellSymbol(target));
      AtFirst(x, st, prefix);
      SymbolRoundTrip(x, Advance(st, |prefix|), target, false);
      if second.Some? {
        CovariantRead(x, st, first, second.value);
      } else {
        ThunkRead(x, st, first);
      }
      SpecialEncoding(x, st, top);
    case GuardOf(e) => ObjectNamed(x, st, 'V', e, top);
    case TemporaryOf(e) => ObjectNamed(x, st, 'R', e, top);
    case AliasOf(target) =>
      WholePart(x, st, "GA", SpellSymbol(target));
      AtFirst(x, st, "GA");
      SymbolRoundTrip(x, Advance(st, 2), target, false);
      ObjectRead(x, st, 'A');
      SpecialEncoding(x, st, top);
  }

  lemma ObjectNamed(x: Input, st: State, c: char, e: Entity, top: bool)
    requires c in {'V', 'R'} && GoodEntity(e) && Whole(x, st, Behind(['G', c], SpellEntity(e)))
    ensures Reads(x, st, G.Encoding(x, st, top), Single(if c == 'V' then Guard else Reftemp, EntityTree(e)),
                  Behind(['G', c], SpellEntity(e)))
  {
    hide GoodEntity, SpellEntity, EntityTree, G.NameOf, G.Encoding, G.SpecialName, At, Stray, Peek;
    WholePart(x, st, ['G', c], SpellEntity(e));
    AtFirst(x, st, ['G', c]);
    AtTheEnd(x, Advance(Advance(st, 2), |SpellEntity(e).text|));
    EntityRead(x, Advance(st, 2), e);
    ObjectRead(x, st, c);
    SpecialEncoding(x, st, top);
  }

  /** A mangled symbol is demangled, parameters and all, to the component it stands for: the
      bounded parser reads it to the end. */
  lemma DemanglesSymbols(s: Symbol, options: Options)
    requires GoodSymbol(s) && options.params && !options.java
    requires CString(SpellSymbol(s).text) && |SpellSymbol(s).table| < WORD
    ensures var r := D.Reference("_Z" + SpellSymbol(s).text, options);
      r.value == Some(SymbolTree(s)) && r.st.lost.None?
  {
    hide G.Encoding, SpellSymbol, SymbolTree;
    var text := SpellSymbol(s).text;
    var x, st := Input("_Z" + text, options), State(0, 0, [], None, None);
    assert x.text[2..2 + |text|] == text;
    SymbolRoundTrip(x, Advance(st, 2), s, true);
    assert D.ReadingOf(x.text, options) == D.AsMangled;
    assert Peek(x, Advance(st, 1)) == 'Z';
    assert G.MangledName(x, st, true) == G.Encoding(x, Advance(st, 2), true);
  }

  lemma {:induction false} ThisStripped(qs: seq<Qualifier>, c: Comp)
    requires !c.Qualified?
    ensures StripThis(OnThis(qs, c)) == c
    decreases |qs|
  {
    if qs != [] {
      ThisStripped(qs[1..], c);
    }
  }

  /** Without parameters only the name of a function is shown, without the qualifiers of the
      object it is called for, whatever follows. */
  lemma DemanglesNames(e: Entity, rest: string, options: Options)
    requires GoodEntity(e) && !options.params && !options.java && (rest == "" || rest[0] != 'I')
    requires CString(SpellEntity(e).text + rest) && |SpellEntity(e).table| < WORD
    ensures D.Reference("_Z" + (SpellEntity(e).text + rest), options).value == Some(WithArgs(e))
  {
    hide G.NameOf, SpellEntity, GoodEntity, OnThis, StripThis, G.Encoding;
    var text := SpellEntity(e).text;
    var x, st := Input("_Z" + (text + rest), options), State(0, 0, [], None, None);
    var st' := Advance(st, 2);
    assert x.text[2..2 + |text|] == text;
    if rest != "" {
      assert x.text[2 + |text|] == rest[0];
    }
    EntityRead(x, st', e);
    ThisStripped(e.qualifiers, WithArgs(e));
    assert D.ReadingOf(x.text, options) == D.AsMangled;
    assert Peek(x, Advance(st, 1)) == 'Z';
    NameOnly(x, st');
    assert G.MangledName(x, st, true) == G.Encoding(x, st', true);
  }

  lemma NameOnly(x: Input, st: State)
    requires In(x, st) && Peek(x, st) != 'G' && Peek(x, st) != 'T' && !x.options.params
    requires G.NameOf(x, st).value.Some?
    ensures G.Encoding(x, st, true).value == Some(StripTop(G.NameOf(x, st).value.value))
  {
    hide G.NameOf, StripTop;
  }
}
