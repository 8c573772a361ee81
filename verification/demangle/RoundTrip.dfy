/** The parser reads what the mangler writes, compression included: the same component, the
    whole spelling, and the same table of substitutions. */
module RoundTrip {
  import opened Decimals
  import opened Wrappers
  import opened Components
  import opened Scanner
  import opened Numerals
  import opened Mangling
  import G = Grammar
  import D = Demangling

  /** A result that is component c, read from the spelling s. */
  ghost predicate Reads(x: Input, st: State, r: Parse<Comp>, c: Comp, s: Spelling) {
    && In(x, r.st) && r.value == Some(c)
    && r.st.n == st.n + |s.text| && r.st.subs == s.table && r.st.lost == st.lost
  }

  /** The setting of the lemmas: the spelling of t is next, no template arguments follow, the
      options are not Java's, and the table stays within an unsigned int. */
  ghost predicate Spelled(x: Input, st: State, s: Spelling) {
    && At(x, st, s.text) && |s.table| < WORD && !x.options.java
    && Peek(x, Advance(st, |s.text|)) != 'I'
  }

  // ----- names and references -----

  // ----- the parser's tables and those of the mangler -----

  lemma SameAnonymous(id: string)
    ensures SpellsAnonymous(id) <==> G.IsAnonymous(id)
  {
  }

  lemma SameLetters(c: char, of: Comp)
    ensures IsBuiltinLetter(c) ==> G.IsBuiltin(c)
    ensures c in {'P', 'R', 'O', 'C', 'G'} ==> G.IsIndirect(c) && Single(G.IndirectKind(c), of) == Around(c, of)
  {
  }

  lemma {:induction false} SameQualifiers(qs: seq<Qualifier>, of: Comp)
    ensures Qualify(qs, false, of) == AroundAll(qs, of)
    decreases |qs|
  {
    if qs != [] {
      SameQualifiers(qs[1..], of);
    }
  }

  lemma SameParameters(ts: Tys)
    requires AllWellFormed(ts)
    ensures G.DropVoid(Trees(ts)) == if ts == Cons(Basic('v'), Nil) then [] else Trees(ts)
  {
    if ts.Cons? && ts.tail.Nil? {
      assert Trees(ts) == [Tree(ts.head)];
      assert Tree(ts.head) == BuiltinType(VOID) ==> ts.head == Basic('v');
    } else if ts.Cons? {
      assert |Trees(ts)| == 1 + |Trees(ts.tail)| && |Trees(ts.tail)| > 0;
    }
  }

  // ----- identifiers -----

  lemma SourceNameRoundTrip(x: Input, st: State, id: string)
    requires At(x, st, SpellId(id)) && GoodId(id) && !x.options.java
    ensures G.SourceName(x, st) ==
      Parse(Some(Name(id)), Made(Advance(st, |SpellId(id)|)).(last := Some(Name(id))))
  {
    hide Decimal, ScanNumber, G.IsAnonymous, SpellsAnonymous;
    SameAnonymous(id);
    AtSplit(x, st, Decimal(|id|), id);
    var st' := Advance(st, |Decimal(|id|)|);
    AtFirst(x, st', id);
    DecimalRoundTrip(x, st, |id|);
    assert x.text[st'.n..st'.n + |id|] == id;
  }

  lemma ReferenceRoundTrip(x: Input, st: State, i: nat, prefix: bool)
    requires At(x, st, BackReference(i)) && i < |st.subs| < WORD
    ensures G.Substitution(x, st, prefix) == Parse(Some(st.subs[i]), Advance(st, |BackReference(i)|))
    ensures Peek(x, st) == 'S' && (IsDigit(PeekNext(x, st)) || IsUpper(PeekNext(x, st)) || PeekNext(x, st) == '_')
  {
    hide SeqId, Base36;
    var rest := (if i == 0 then "" else Base36(i - 1)) + "_";
    AtFirst(x, st, BackReference(i));
    AtSplit(x, st, "S", rest);
    var st' := Advance(st, 1);
    AtFirst(x, st', rest);
    if i > 0 {
      assert rest[0] == Base36(i - 1)[0];
      SeqIdRoundTrip(x, st', i - 1);
    }
  }

  // ----- first characters -----

  predicate Opens(c: char) {
    c !in {'E', 'I', 'X', 'L', 'J', 'Y', '\0', '_'}
  }

  lemma SpellingOpens(t: Ty, table: seq<Comp>)
    requires WellFormed(t)
    ensures |Spell(t, table).text| > 0 && Opens(Spell(t, table).text[0])
    ensures !t.Cv? ==> !G.IsQualifier(Spell(t, table).text[0])
  {
    hide Decimal, Tree, Find;
    match t
    case Cv(qs, of) =>
      assert SpellQualifiers(qs)[0] == QualifierLetter(qs[0]);
    case Class(id) =>
      assert SpellId(id)[0] == Decimal(|id|)[0];
    case Instance(id, args) =>
      assert SpellId(id)[0] == Decimal(|id|)[0];
    case _ =>
  }

  // ----- the parser on one kind of type -----

  lemma BuiltinTypeRead(x: Input, st: State)
    requires In(x, st) && G.IsBuiltin(Peek(x, st))
    ensures G.Type(x, st) == Parse(Some(BuiltinType(BuiltinIndex(Peek(x, st)))), Made(Advance(st, 1)))
  {
  }

  lemma CompoundTypeRead(x: Input, st: State)
    requires In(x, st)
    requires IsDigit(Peek(x, st)) || Peek(x, st) in {'N', 'F', 'A', 'O', 'P', 'R', 'C', 'G'}
    ensures G.Type(x, st) == G.Record(G.CompoundType(x, st))
  {
    hide G.CompoundType;
  }

  lemma ReferenceTypeRead(x: Input, st: State, i: nat)
    requires At(x, st, BackReference(i)) && i < |st.subs| < WORD
    requires Peek(x, Advance(st, |BackReference(i)|)) != 'I'
    ensures G.Type(x, st) == Parse(Some(st.subs[i]), Advance(st, |BackReference(i)|))
  {
    hide G.Substitution, BackReference;
    ReferenceRoundTrip(x, st, i, false);
    var sub := G.Substitution(x, st, false);
    assert G.SubstitutedType(x, st) == G.Unrecorded(sub, false);
  }

  /** A class name, recorded by the type that it is. */
  lemma ClassRead(x: Input, st: State, id: string)
    requires Spelled(x, st, Spelling(SpellId(id), st.subs + [Name(id)])) && GoodId(id)
    ensures Reads(x, st, G.Type(x, st), Name(id), Spelling(SpellId(id), st.subs + [Name(id)]))
  {
    hide G.SourceName, SpellId, GoodId;
    IdOpens(x, st, id);
    SourceNameRoundTrip(x, st, id);
    CompoundTypeRead(x, st);
    assert G.NameOf(x, st) == G.UnqualifiedName(x, st);
  }

  lemma IdOpens(x: Input, st: State, id: string)
    requires At(x, st, SpellId(id))
    ensures |SpellId(id)| > 0 && IsDigit(Peek(x, st))
  {
    hide Decimal;
    AtFirst(x, st, SpellId(id));
    assert SpellId(id)[0] == Decimal(|id|)[0];
  }

  /** Peeling off the letter of a pointer, reference, complex or imaginary type. */
  lemma IndirectRead(x: Input, st: State)
    requires In(x, st) && G.IsIndirect(Peek(x, st))
    ensures G.Type(x, st)
         == G.Record(G.MakeSingle(G.IndirectKind(Peek(x, st)), G.Type(x, Advance(st, 1))))
  {
    hide G.IndirectKind, G.Type, G.CompoundType, G.IsIndirect;
    IndirectLetters(Peek(x, st));
    CompoundTypeRead(x, st);
    CompoundIndirect(x, st);
  }

  lemma IndirectLetters(c: char)
    ensures G.IsIndirect(c) <==> c in {'O', 'P', 'R', 'C', 'G'}
  {
  }

  lemma CompoundIndirect(x: Input, st: State)
    requires In(x, st) && G.IsIndirect(Peek(x, st))
    ensures G.CompoundType(x, st) == G.MakeSingle(G.IndirectKind(Peek(x, st)), G.Type(x, Advance(st, 1)))
  {
    hide G.IndirectKind, G.Type;
  }

  lemma LetterOfQualifier(q: Qualifier)
    ensures G.IsQualifier(QualifierLetter(q)) && G.QualifierOf(QualifierLetter(q)) == q
  {
  }

  /** One qualifier, and what is left to read. */
  lemma QualifierRead(x: Input, st: State, qs: seq<Qualifier>, acc: seq<Qualifier>)
    requires qs != [] && At(x, st, SpellQualifiers(qs))
    ensures |SpellQualifiers(qs)| == 1 + |SpellQualifiers(qs[1..])|
    ensures G.CvQualifiers(x, st, acc) == G.CvQualifiers(x, Made(Advance(st, 1)), acc + [qs[0]])
    ensures At(x, Made(Advance(st, 1)), SpellQualifiers(qs[1..]))
    ensures Peek(x, Advance(st, |SpellQualifiers(qs)|))
         == Peek(x, Advance(Made(Advance(st, 1)), |SpellQualifiers(qs[1..])|))
  {
    hide QualifierLetter, G.IsQualifier, G.QualifierOf;
    AtFirst(x, st, SpellQualifiers(qs));
    AtSplit(x, st, [QualifierLetter(qs[0])], SpellQualifiers(qs[1..]));
    LetterOfQualifier(qs[0]);
  }

  /** Reading the qualifiers in front of something that is none. */
  lemma {:induction false} QualifiersRead(x: Input, st: State, qs: seq<Qualifier>, acc: seq<Qualifier>)
    requires At(x, st, SpellQualifiers(qs)) && !G.IsQualifier(Peek(x, Advance(st, |SpellQualifiers(qs)|)))
    ensures G.CvQualifiers(x, st, acc).qualifiers == acc + qs && |SpellQualifiers(qs)| == |qs|
    decreases |qs|
  {
    if qs == [] {
      assert acc + qs == acc;
    } else {
      hide At, Peek, SpellQualifiers, G.CvQualifiers, G.IsQualifier;
      QualifierRead(x, st, qs, acc);
      QualifiersRead(x, Made(Advance(st, 1)), qs[1..], acc + [qs[0]]);
      assert acc + [qs[0]] + qs[1..] == acc + qs;
    }
  }

  lemma CvRead(x: Input, st: State)
    requires In(x, st) && G.IsQualifier(Peek(x, st))
    ensures var qs := G.CvQualifiers(x, st, []);
            var t := G.Type(x, qs.st);
            t.value.Some? ==>
              G.Type(x, st) == G.Record(Parse(Some(Qualify(qs.qualifiers, false, t.value.value)), t.st))
  {
  }

  lemma ArrayTypeRead(x: Input, st: State)
    requires In(x, st) && Peek(x, st) == 'A'
    ensures G.Type(x, st) == G.Record(G.ArrayTypeOf(x, st))
  {
    hide G.ArrayTypeOf;
    CompoundTypeRead(x, st);
  }

  lemma DimensionRead(x: Input, st: State, size: nat)
    requires At(x, st, Decimal(size) + "_")
    ensures var d := Decimal(size);
      IsDigit(Peek(x, st)) && Peek(x, Advance(st, |d|)) == '_'
      && G.Dimension(x, st) == Parse(Some(Name(d)), Made(Advance(st, |d|)))
  {
    hide Decimal, G.Expression;
    var d := Decimal(size);
    AtSplit(x, st, d, "_");
    AtFirst(x, st, d);
    AtFirst(x, Advance(st, |d|), "_");
    SkipsDecimal(x, st, d);
  }

  /** The dimension of an array, up to the element type. */
  lemma ArrayRead(x: Input, st: State, size: nat)
    requires At(x, st, "A" + (Decimal(size) + "_"))
    ensures var st' := Made(Advance(st, |Decimal(size)| + 2));
            In(x, st') && G.Type(x, st) == G.Record(G.ArrayElement(x, Some(Name(Decimal(size))), st'))
  {
    hide G.ArrayElement, G.Dimension, Decimal, G.Type;
    var d := Decimal(size);
    AtFirst(x, st, "A" + (d + "_"));
    AtSplit(x, st, "A", d + "_");
    DimensionRead(x, Advance(st, 1), size);
    ArrayTypeRead(x, st);
  }

  // ----- qualified names -----

  /** An identifier inside a nested name. It is recorded unless the name ends here. */
  lemma IdInPrefix(x: Input, st: State, acc: Option<Comp>, id: string) returns (p: Parse<Comp>)
    requires At(x, st, SpellId(id)) && GoodId(id) && !x.options.java
    ensures In(x, p.st) && p.st.n == st.n + |SpellId(id)| && p.st.subs == st.subs && p.st.lost == st.lost
    ensures p.st.last == Some(Name(id))
    ensures p.value == Some(if acc.None? then Name(id) else Pair(QualName, acc.value, Name(id)))
    ensures G.Prefix(x, st, acc)
         == G.Prefix(x, if Peek(x, p.st) == 'E' then p.st else G.Record(p).st, p.value)
  {
    hide SpellId, GoodId, G.SourceName, G.Prefix;
    IdOpens(x, st, id);
    SourceNameRoundTrip(x, st, id);
    p := G.NextPrefix(x, st, acc);
    assert G.PrefixItem(x, st) == G.UnqualifiedName(x, st) == G.SourceName(x, st);
    PrefixTurn(x, st, acc);
  }

  lemma PrefixTurn(x: Input, st: State, acc: Option<Comp>)
    requires In(x, st) && (IsDigit(Peek(x, st)) || Peek(x, st) == 'S')
    ensures G.StartsItem(Peek(x, st), acc)
    ensures var p := G.NextPrefix(x, st, acc);
      p.value.Some? ==>
        G.Prefix(x, st, acc)
        == G.Prefix(x, if Peek(x, st) == 'S' || Peek(x, p.st) == 'E' then p.st else G.Record(p).st, p.value)
  {
    hide G.NextPrefix;
  }

  lemma {:induction false} PathRead(x: Input, st: State, path: seq<string>) returns (p: Parse<Comp>)
    requires path != [] && (forall i :: 0 <= i < |path| ==> GoodId(path[i])) && !x.options.java
    requires At(x, st, SpellPath(path, st.subs).text) && |SpellPath(path, st.subs).table| < WORD
    ensures Reads(x, st, p, PathTree(path), SpellPath(path, st.subs))
    ensures G.Prefix(x, st, None)
         == G.Prefix(x, if Peek(x, p.st) == 'E' then p.st else G.Record(p).st, p.value)
    decreases |path|, 0
  {
    hide G.Prefix, G.Record, SpellId, GoodId;
    if |path| == 1 {
      p := IdInPrefix(x, st, None, path[0]);
    } else {
      var front, last := path[..|path| - 1], path[|path| - 1];
      var f := SpellPrefix(front, st.subs);
      AtSplit(x, st, f.text, SpellId(last));
      assert In(x, Advance(st, |f.text|));
      IdOpens(x, Advance(st, |f.text|), last);
      var q := PrefixRead(x, st, front);
      p := IdInPrefix(x, q.st, q.value, last);
    }
  }

  /** A proper prefix of a qualified name, recorded or referred to. */
  lemma {:induction false} PrefixRead(x: Input, st: State, path: seq<string>) returns (p: Parse<Comp>)
    requires path != [] && (forall i :: 0 <= i < |path| ==> GoodId(path[i])) && !x.options.java
    requires At(x, st, SpellPrefix(path, st.subs).text) && |SpellPrefix(path, st.subs).table| < WORD
    requires Peek(x, Advance(st, |SpellPrefix(path, st.subs).text|)) != 'E'
    ensures Reads(x, st, p, PathTree(path), SpellPrefix(path, st.subs))
    ensures G.Prefix(x, st, None) == G.Prefix(x, p.st, p.value)
    decreases |path|, 1
  {
    hide G.Prefix, SpellPath, GoodId, PathTree, BackReference, G.Substitution;
    match Find(st.subs, PathTree(path))
    case Some(i) =>
      ReferenceRoundTrip(x, st, i, true);
      p := G.Substitution(x, st, true);
      assert G.PrefixItem(x, st) == p;
      PrefixTurn(x, st, None);
    case None =>
      var q := PathRead(x, st, path);
      p := G.Record(q);
  }

  lemma NestedRead(x: Input, st: State, path: seq<string>)
    requires |path| >= 2 && (forall i :: 0 <= i < |path| ==> GoodId(path[i])) && !x.options.java
    requires At(x, st, "N" + (SpellPath(path, st.subs).text + "E"))
    requires |SpellPath(path, st.subs).table| < WORD
    ensures var s := SpellPath(path, st.subs);
      Reads(x, st, G.Type(x, st), PathTree(path), Spelling("N" + (s.text + "E"), s.table + [PathTree(path)]))
  {
    hide SpellPath, PathTree, GoodId, G.NestedName, G.Type;
    var s := SpellPath(path, st.subs);
    AtFirst(x, st, "N" + (s.text + "E"));
    AtSplit(x, st, "N", s.text + "E");
    var st' := Advance(st, 1);
    AtSplit(x, st', s.text, "E");
    AtFirst(x, Advance(st', |s.text|), "E");
    PathOpens(x, st', path);
    var p := PathRead(x, st', path);
    NestedClosed(x, st, p);
    CompoundTypeRead(x, st);
    assert G.CompoundType(x, st) == G.NestedName(x, st);
  }

  lemma NestedClosed(x: Input, st: State, p: Parse<Comp>)
    requires In(x, st) && Peek(x, st) == 'N' && !G.IsQualifier(Peek(x, Advance(st, 1)))
    requires In(x, p.st) && Peek(x, p.st) == 'E' && p.value.Some?
    requires G.Prefix(x, Advance(st, 1), None) == G.Prefix(x, p.st, p.value)
    ensures G.NestedName(x, st) == Parse(p.value, Advance(p.st, 1))
  {
  }

  lemma {:induction false} PathOpens(x: Input, st: State, path: seq<string>)
    requires path != [] && At(x, st, SpellPath(path, st.subs).text)
    ensures |SpellPath(path, st.subs).text| > 0
    ensures IsDigit(Peek(x, st)) || Peek(x, st) == 'S'
    decreases |path|
  {
    hide SpellId;
    if |path| == 1 {
      IdOpens(x, st, path[0]);
    } else {
      var front := path[..|path| - 1];
      var f := SpellPrefix(front, st.subs);
      AtSplit(x, st, f.text, SpellId(path[|path| - 1]));
      match Find(st.subs, PathTree(front))
      case Some(i) => AtFirst(x, st, f.text);
      case None => PathOpens(x, st, front);
    }
  }

  // ----- templates and functions -----

  /** The name of a template before its arguments. */
  lemma TemplateNameRead(x: Input, st: State, id: string) returns (st': State)
    requires At(x, st, SpellTemplate(id, st.subs).text) && GoodId(id) && !x.options.java
    requires |SpellTemplate(id, st.subs).table| < WORD
    requires Peek(x, Advance(st, |SpellTemplate(id, st.subs).text|)) == 'I'
    ensures In(x, st') && st'.n == st.n + |SpellTemplate(id, st.subs).text|
    ensures st'.subs == SpellTemplate(id, st.subs).table && st'.lost == st.lost
    ensures var args := G.TemplateArgs(x, st');
      G.Type(x, st) == G.Record(G.MakePair(Template, Some(Name(id)), args.value, args.st))
  {
    hide SpellId, GoodId, G.SourceName, G.TemplateArgs, G.Substitution, BackReference;
    match Find(st.subs, Name(id))
    case Some(i) =>
      ReferenceRoundTrip(x, st, i, false);
      st' := G.Substitution(x, st, false).st;
      SubstitutedTemplate(x, st);
    case None =>
      IdOpens(x, st, id);
      SourceNameRoundTrip(x, st, id);
      st' := G.Record(G.SourceName(x, st)).st;
      NamedTemplate(x, st);
  }

  lemma SubstitutedTemplate(x: Input, st: State)
    requires In(x, st) && Peek(x, st) == 'S'
    requires IsDigit(PeekNext(x, st)) || IsUpper(PeekNext(x, st)) || PeekNext(x, st) == '_'
    requires Peek(x, G.Substitution(x, st, false).st) == 'I'
    ensures var sub := G.Substitution(x, st, false);
      var args := G.TemplateArgs(x, sub.st);
      G.Type(x, st) == G.Record(G.MakePair(Template, sub.value, args.value, args.st))
  {
    hide G.Substitution, G.TemplateArgs;
    var sub := G.Substitution(x, st, false);
    assert G.SubstitutedType(x, st) == G.Unrecorded(G.TemplateOf(x, st, sub, false), true);
  }

  lemma NamedTemplate(x: Input, st: State)
    requires In(x, st) && IsDigit(Peek(x, st))
    requires G.SourceName(x, st).value.Some? && Peek(x, G.SourceName(x, st).st) == 'I'
    ensures var name := G.SourceName(x, st);
      var args := G.TemplateArgs(x, G.Record(name).st);
      G.Type(x, st) == G.Record(G.MakePair(Template, name.value, args.value, args.st))
  {
    hide G.SourceName, G.TemplateArgs, G.Type;
    CompoundTypeRead(x, st);
    var name := G.SourceName(x, st);
    assert G.UnqualifiedName(x, st) == name;
    assert G.NameOf(x, st) == G.TemplateOf(x, st, name, true);
    assert G.CompoundType(x, st) == G.NameOf(x, st);
  }

  /** A result type and parameters, once they are known to parse. */
  lemma SignatureRead(x: Input, st: State, r: Parse<Comp>, types: Parse<seq<Comp>>)
    requires In(x, st) && Peek(x, st) != 'J' && G.Type(x, st) == r && r.value.Some?
    requires G.ParmTypes(x, r.st, []) == types && types.value.Some? && types.value.value != []
    ensures G.BareFunctionType(x, st, true)
         == Parse(Some(FunctionType(r.value, Arglist(G.DropVoid(types.value.value)))), Made(types.st))
  {
    hide G.Type, G.ParmTypes, G.DropVoid;
    assert G.ParmList(x, r.st) == Parse(Some(Arglist(G.DropVoid(types.value.value))), types.st);
  }

  lemma FunctionRead(x: Input, st: State, r: Parse<Comp>, types: Parse<seq<Comp>>)
    requires In(x, st) && Peek(x, st) == 'F' && Opens(Peek(x, Advance(st, 1)))
    requires G.Type(x, Advance(st, 1)) == r && r.value.Some?
    requires G.ParmTypes(x, r.st, []) == types && types.value.Some? && types.value.value != []
    requires Peek(x, types.st) == 'E'
    ensures G.Type(x, st) == G.Record(Parse(
      Some(FunctionType(r.value, Arglist(G.DropVoid(types.value.value)))), Advance(Made(types.st), 1)))
  {
    hide G.Type, G.ParmTypes, G.DropVoid, G.BareFunctionType;
    SignatureRead(x, Advance(st, 1), r, types);
    CompoundTypeRead(x, st);
    assert G.CompoundType(x, st) == G.FunctionTypeOf(x, st);
  }

  // ----- the round trip -----

  /** Reading back a list of parameter types. */
  lemma {:induction false} ParmsRoundTrip(x: Input, st: State, ts: Tys, acc: seq<Comp>)
    requires AllWellFormed(ts) && !x.options.java
    requires ListSpelled(x, st, ts, st.subs)
    ensures var r := G.ParmTypes(x, st, acc);
      && In(x, r.st) && r.value == Some(acc + Trees(ts))
      && r.st.n == st.n + |SpellAll(ts, st.subs).text| && r.st.subs == SpellAll(ts, st.subs).table
      && r.st.lost == st.lost
      && AtEnd(Peek(x, r.st))
    decreases ts, 2
  {
    hide G.Type, Spell, Tree, WellFormed;
    if ts.Nil? {
      assert acc + Trees(ts) == acc;
    } else {
      HeadRoundTrip(x, st, ts);
      var t := G.Type(x, st);
      ParmsRoundTrip(x, Made(t.st), ts.tail, acc + [Tree(ts.head)]);
      assert acc + [Tree(ts.head)] + Trees(ts.tail) == acc + Trees(ts);
    }
  }

  /** What ends a list of types: an E or the end of the text. */
  predicate AtEnd(c: char) {
    c == 'E' || c == '\0'
  }

  /** A list of types is next, given what was spelled before, and ends. */
  ghost predicate ListSpelled(x: Input, st: State, ts: Tys, table: seq<Comp>) {
    var s := SpellAll(ts, table);
    At(x, st, s.text) && |s.table| < WORD && AtEnd(Peek(x, Advance(st, |s.text|)))
  }

  lemma ListBefore(x: Input, st: State, ts: Tys, table: seq<Comp>)
    requires At(x, st, SpellAll(ts, table).text + "E") && |SpellAll(ts, table).table| < WORD
    ensures ListSpelled(x, st, ts, table) && Peek(x, Advance(st, |SpellAll(ts, table).text|)) == 'E'
  {
    hide SpellAll;
    var s := SpellAll(ts, table).text;
    AtSplit(x, st, s, "E");
    AtFirst(x, Advance(st, |s|), "E");
  }

  /** The first of a list of types, and what comes after it. */
  lemma {:induction false} HeadRoundTrip(x: Input, st: State, ts: Tys)
    requires ts.Cons? && AllWellFormed(ts) && !x.options.java
    requires ListSpelled(x, st, ts, st.subs)
    ensures Opens(Peek(x, st))
    ensures var h := Spell(ts.head, st.subs);
      var r := G.Type(x, st);
      && Reads(x, st, r, Tree(ts.head), h)
      && SpellAll(ts, st.subs) == Behind(h.text, SpellAll(ts.tail, h.table))
      && ListSpelled(x, r.st, ts.tail, h.table)
      && (ts.tail.Nil? <==> AtEnd(Peek(x, r.st)))
    decreases ts, 1
  {
    hide G.Type, Spell, Tree, WellFormed;
    var h := Spell(ts.head, st.subs);
    var rest := SpellAll(ts.tail, h.table);
    AtSplit(x, st, h.text, rest.text);
    SpellingOpens(ts.head, st.subs);
    AtFirst(x, st, h.text);
    if ts.tail.Cons? {
      SpellingOpens(ts.tail.head, h.table);
      AtFirst(x, Advance(st, |h.text|), rest.text);
    }
    TypeRoundTrip(x, st, ts.head);
  }

  /** Reading back a list of template arguments, with the closing E. */
  lemma {:induction false} ArgsRoundTrip(x: Input, st: State, ts: Tys, acc: seq<Comp>)
    requires ts.Cons? && AllWellFormed(ts) && !x.options.java
    requires ListSpelled(x, st, ts, st.subs) && Peek(x, Advance(st, |SpellAll(ts, st.subs).text|)) == 'E'
    ensures var r := G.TemplateArgList(x, st, acc);
      && In(x, r.st) && r.value == Some(acc + Trees(ts))
      && r.st.n == st.n + |SpellAll(ts, st.subs).text| + 1 && r.st.subs == SpellAll(ts, st.subs).table
      && r.st.lost == st.lost
    decreases ts, 2
  {
    hide G.Type, Spell, Tree, WellFormed;
    HeadRoundTrip(x, st, ts);
    var t := G.Type(x, st);
    assert G.TemplateArg(x, st) == t;
    if ts.tail.Nil? {
      assert acc + [Tree(ts.head)] == acc + Trees(ts);
    } else {
      ArgsRoundTrip(x, Made(t.st), ts.tail, acc + [Tree(ts.head)]);
      assert acc + [Tree(ts.head)] + Trees(ts.tail) == acc + Trees(ts);
    }
  }

  /** Whatever was spelled before, the spelling of a type is read back as that type's
      component, to its last character, and leaves the parser with the mangler's table. */
  lemma {:induction false} TypeRoundTrip(x: Input, st: State, t: Ty)
    requires WellFormed(t) && Spelled(x, st, Spell(t, st.subs))
    ensures Reads(x, st, G.Type(x, st), Tree(t), Spell(t, st.subs))
    decreases t, 2
  {
    hide G.Type, Tree, WellFormed, SpellOut, BackReference;
    if t.Basic? {
      BasicRoundTrip(x, st, t);
    } else {
      match Find(st.subs, Tree(t))
      case Some(i) => ReferenceTypeRead(x, st, i);
      case None => SpelledOutRoundTrip(x, st, t);
    }
  }

  lemma BasicRoundTrip(x: Input, st: State, t: Ty)
    requires t.Basic? && WellFormed(t) && At(x, st, [t.letter])
    ensures Reads(x, st, G.Type(x, st), Tree(t), Spelling([t.letter], st.subs))
  {
    hide G.Type;
    AtFirst(x, st, [t.letter]);
    BuiltinTypeRead(x, st);
  }

  lemma {:induction false} SpelledOutRoundTrip(x: Input, st: State, t: Ty)
    requires WellFormed(t) && !t.Basic? && Find(st.subs, Tree(t)).None?
    requires Spelled(x, st, Spell(t, st.subs))
    ensures Reads(x, st, G.Type(x, st), Tree(t), Spell(t, st.subs))
    decreases t, 1
  {
    hide G.Type;
    match t
    case Indirect(c, of) => IndirectRoundTrip(x, st, t);
    case Cv(qs, of) => CvRoundTrip(x, st, t);
    case Array(size, of) => ArrayRoundTrip(x, st, t);
    case Class(id) => ClassRead(x, st, id);
    case Instance(id, args) => InstanceRoundTrip(x, st, t);
    case Nested(path) => NestedRead(x, st, path);
    case Function(result, params) => FunctionRoundTrip(x, st, t);
  }

  /** Shared by the lemmas on one kind: t is written out in full. */
  ghost predicate WrittenOut(x: Input, st: State, t: Ty) {
    && WellFormed(t) && !t.Basic?
    && Spelled(x, st, Spell(t, st.subs))
    && Spell(t, st.subs) == Spelling(SpellOut(t, st.subs).text, SpellOut(t, st.subs).table + [Tree(t)])
  }

  lemma SpellsOut(x: Input, st: State, t: Ty)
    requires WrittenOut(x, st, t)
    ensures var s := SpellOut(t, st.subs);
      && Spell(t, st.subs) == Spelling(s.text, s.table + [Tree(t)])
      && At(x, st, s.text) && |s.table| < WORD && !x.options.java && Peek(x, Advance(st, |s.text|)) != 'I'
  {
    hide SpellOut, Spell, At, Peek, WellFormed;
  }

  /** What is behind some characters is spelled there, too. */
  lemma PartSpelled(x: Input, st: State, prefix: string, s: Spelling, st': State)
    requires At(x, st, prefix + s.text) && |s.table| < WORD && !x.options.java
    requires Peek(x, Advance(st, |prefix + s.text|)) != 'I' && st'.n == st.n + |prefix|
    ensures At(x, st, prefix) && In(x, st') && Spelled(x, st', s)
  {
    AtSplit(x, st, prefix, s.text);
  }

  lemma {:induction false} IndirectRoundTrip(x: Input, st: State, t: Ty)
    requires t.Indirect? && WrittenOut(x, st, t)
    ensures Reads(x, st, G.Type(x, st), Tree(t), Spell(t, st.subs))
    decreases t, 0
  {
    hide Stray, G.Type, G.IndirectKind, Around, G.IsIndirect;
    SameLetters(t.letter, Tree(t.of));
    var s := Spell(t.of, st.subs);
    AtSplit(x, st, [t.letter], s.text);
    AtFirst(x, st, [t.letter]);
    TypeRoundTrip(x, Advance(st, 1), t.of);
    IndirectRead(x, st);
  }

  lemma {:induction false} CvRoundTrip(x: Input, st: State, t: Ty)
    requires t.Cv? && WrittenOut(x, st, t)
    ensures Reads(x, st, G.Type(x, st), Tree(t), Spell(t, st.subs))
    decreases t, 0
  {
    hide G.Type, G.CvQualifiers, SpellQualifiers, Qualify, AroundAll, QualifierLetter, G.IsQualifier, Opens, Peek, At,
      Stray, Spell;
    SpellsOut(x, st, t);
    SameQualifiers(t.qualifiers, Tree(t.of));
    var s := Spell(t.of, st.subs);
    var q := SpellQualifiers(t.qualifiers);
    PartSpelled(x, st, q, s, Advance(st, |q|));
    SpellingOpens(t.of, st.subs);
    AtFirst(x, Advance(st, |q|), s.text);
    QualifiersRead(x, st, t.qualifiers, []);
    assert [] + t.qualifiers == t.qualifiers;
    CvOpens(x, st, t.qualifiers);
    var st' := G.CvQualifiers(x, st, []).st;
    PartSpelled(x, st, q, s, st');
    TypeRoundTrip(x, st', t.of);
    CvRead(x, st);
  }

  lemma CvOpens(x: Input, st: State, qs: seq<Qualifier>)
    requires qs != [] && At(x, st, SpellQualifiers(qs))
    ensures G.IsQualifier(Peek(x, st))
  {
    AtFirst(x, st, SpellQualifiers(qs));
    LetterOfQualifier(qs[0]);
  }

  lemma {:induction false} ArrayRoundTrip(x: Input, st: State, t: Ty)
    requires t.Array? && WrittenOut(x, st, t)
    ensures Reads(x, st, G.Type(x, st), Tree(t), Spell(t, st.subs))
    decreases t, 0
  {
    hide G.Type, Decimal, Peek, At, Stray, Spell;
    SpellsOut(x, st, t);
    var s := Spell(t.of, st.subs);
    var d := "A" + (Decimal(t.size) + "_");
    PartSpelled(x, st, d, s, Made(Advance(st, |d|)));
    ArrayRead(x, st, t.size);
    TypeRoundTrip(x, Made(Advance(st, |d|)), t.of);
  }

  lemma {:induction false} InstanceRoundTrip(x: Input, st: State, t: Ty)
    requires t.Instance? && WrittenOut(x, st, t)
    ensures Reads(x, st, G.Type(x, st), Tree(t), Spell(t, st.subs))
    decreases t, 0
  {
    hide G.Type, G.TemplateArgs, SpellTemplate, SpellAll, GoodId;
    var name := SpellTemplate(t.id, st.subs);
    var list := SpellAll(t.args, name.table);
    AtSplit(x, st, name.text, "I" + (list.text + "E"));
    AtFirst(x, Advance(st, |name.text|), "I" + (list.text + "E"));
    var st' := TemplateNameRead(x, st, t.id);
    ArgsOfInstance(x, st', t.args);
  }

  /** Template arguments with their I and E; there may be none. */
  lemma {:induction false} ArgsOfInstance(x: Input, st: State, ts: Tys)
    requires AllWellFormed(ts) && !x.options.java && |SpellAll(ts, st.subs).table| < WORD
    requires At(x, st, "I" + (SpellAll(ts, st.subs).text + "E"))
    ensures var s := SpellAll(ts, st.subs);
      Reads(x, st, G.TemplateArgs(x, st), TemplateArglist(Trees(ts)), Spelling("I" + (s.text + "E"), s.table))
    decreases ts, 3
  {
    hide G.TemplateArgList, Spell, WellFormed;
    var s := SpellAll(ts, st.subs);
    AtFirst(x, st, "I" + (s.text + "E"));
    AtSplit(x, st, "I", s.text + "E");
    var st' := Advance(st, 1);
    ListBefore(x, st', ts, st'.subs);
    if ts.Cons? {
      HeadRoundTrip(x, st', ts);
      ArgsRoundTrip(x, st', ts, []);
      assert [] + Trees(ts) == Trees(ts);
    }
  }

  lemma {:induction false} FunctionRoundTrip(x: Input, st: State, t: Ty)
    requires t.Function? && WrittenOut(x, st, t)
    ensures Reads(x, st, G.Type(x, st), Tree(t), Spell(t, st.subs))
    decreases t, 0
  {
    hide G.Type, G.ParmTypes, Spell, SpellAll, G.DropVoid, Stray, Peek, ListSpelled;
    SameParameters(t.params);
    var r := Spell(t.result, st.subs);
    var list := SpellAll(t.params, r.table);
    AtFirst(x, st, "F" + (r.text + (list.text + "E")));
    AtSplit(x, st, "F", r.text + (list.text + "E"));
    var st' := Advance(st, 1);
    AtSplit(x, st', r.text, list.text + "E");
    SpellingOpens(t.result, st.subs);
    AtFirst(x, st', r.text);
    ParmsOpen(x, Advance(st', |r.text|), t.params, r.table);
    TypeRoundTrip(x, st', t.result);
    ListBefore(x, G.Type(x, st').st, t.params, r.table);
    ParmsRoundTrip(x, G.Type(x, st').st, t.params, []);
    assert [] + Trees(t.params) == Trees(t.params);
    var result := G.Type(x, st');
    FunctionRead(x, st, result, G.ParmTypes(x, result.st, []));
  }

  lemma ParmsOpen(x: Input, st: State, ts: Tys, table: seq<Comp>)
    requires AllWellFormed(ts) && At(x, st, SpellAll(ts, table).text + "E")
    ensures Peek(x, st) != 'I'
  {
    hide Spell, WellFormed;
    AtFirst(x, st, SpellAll(ts, table).text + "E");
    if ts.Cons? {
      SpellingOpens(ts.head, table);
    }
  }

  /** A mangled type is demangled to its component when types are asked for: the bounded
      parser reads all of it. */
  lemma DemanglesTypes(t: Ty, options: Options)
    requires WellFormed(t) && options.types && !options.java
    requires CString(Spell(t, []).text) && |Spell(t, []).table| < WORD
    ensures var r := D.Reference(Spell(t, []).text, options);
      r.value == Some(Tree(t)) && r.st.lost.None?
  {
    hide G.Type, Spell, Tree;
    var s := Spell(t, []).text;
    var x, st := Input(s, options), State(0, 0, [], None, None);
    assert x.text[0..|s|] == s;
    SpellingOpens(t, []);
    TypeRoundTrip(x, st, t);
    assert D.ReadingOf(s, options) == D.AsType;
  }
}
