/** The grammar of section 5.1 of the Itanium C++ ABI as the demangler reads it, with room
    for any number of components and substitutions. Every production's contract says how many
    of each it can use for the characters it reads; on a failure the state is where the
    source's functions leave it. */
module Grammar {
  import opened Decimals
  import opened Wrappers
  import opened Components
  import opened Scanner
  import opened Operators

  // ----- d_make_* : None in, None out, and no entry made -----

  function MakeSingle(kind: SingleKind, p: Parse<Comp>): Parse<Comp> {
    if p.value.None? then p else Parse(Some(Single(kind, p.value.value)), Made(p.st))
  }

  function MakePair(kind: PairKind, left: Option<Comp>, right: Option<Comp>, st: State): Parse<Comp> {
    if left.None? || right.None? then Parse(None, st)
    else Parse(Some(Pair(kind, left.value, right.value)), Made(st))
  }

  /** d_make_name takes the entry before it refuses an empty name. */
  function MakeName(text: string, st: State): Parse<Comp> {
    Parse(if text == "" then None else Some(Name(text)), Made(st))
  }

  /** A leaf that cannot fail. */
  function MakeLeaf(c: Comp, st: State): Parse<Comp> {
    Parse(Some(c), Made(st))
  }

  /** d_add_substitution, and NULL when there is nothing to add. */
  function Record(p: Parse<Comp>): Parse<Comp> {
    if p.value.None? then p else Parse(p.value, p.st.(subs := p.st.subs + [p.value.value]))
  }

  // ----- names -----

  /** No characters are as good as no name, but an entry is taken for it. */
  function Identifier(x: Input, st: State, len: nat): (r: Parse<Comp>)
    requires In(x, st)
    ensures st.n <= r.st.n <= |x.text|
    ensures r.st.made <= st.made + 1 && r.st.subs == st.subs && r.st.lost == st.lost
    ensures r.value.Some? ==> r.st.n > st.n
  {
    if |x.text| - st.n < len then Parse(None, st)
    else
      var name := x.text[st.n..st.n + len];
      var s := Advance(st, len);
      var s' := if x.options.java && Peek(x, s) == '$' then Advance(s, 1) else s;
      MakeName(if IsAnonymous(name) then "(anonymous namespace)" else name, s')
  }

  predicate IsAnonymous(name: string) {
    && |name| >= 10 && name[..8] == "_GLOBAL_"
    && (name[8] == '.' || name[8] == '_' || name[8] == '$') && name[9] == 'N'
  }

  function Lost(st: State, at: nat): State {
    if st.lost.None? then st.(lost := Some(at)) else st
  }

  /** The length is read as a long and used as an int. */
  function SourceName(x: Input, st: State): (r: Parse<Comp>)
    requires In(x, st)
    ensures Within(x, st, r, 3, 2)
    ensures r.value.Some? ==> r.st.lost == st.lost
  {
    var len := ScanNumber(x, st);
    if len.num <= 0 then Parse(None, len.st)
    else if ToInt(len.num) < 0 then Parse(None, Lost(len.st, st.n).(last := None))
    else var id := Identifier(x, len.st, ToInt(len.num)); Parse(id.value, id.st.(last := id.value))
  }

  function OperatorName(x: Input, st: State): (r: Parse<Comp>)
    requires In(x, st)
    ensures Within(x, st, r, 3, 2)
    ensures r.value.Some? ==> r.value.value.Operator? || r.value.value.ExtendedOperator?
                              || (r.value.value.Single? && r.value.value.single == Cast)
    ensures r.value.Some? && r.value.value.Operator? ==> r.value.value.operator < OPERATORS
    ensures r.value.Some? && r.value.value.ExtendedOperator? && r.value.value.arity == 2 ==>
      VendorBinary(x.text, st.n)
    decreases |x.text| - st.n, 0
  {
    var c1, s1 := Peek(x, st), Next(x, st);
    var c2, s2 := Peek(x, s1), Next(x, s1);
    if c1 == 'v' && IsDigit(c2) then VendorOperator(x, s2, c2 as int - '0' as int)
    else if c1 == 'c' && c2 == 'v' then MakeSingle(Cast, Type(x, s2))
    else TableOperator(s2, c1, c2)
  }

  function VendorOperator(x: Input, st: State, arity: int): (r: Parse<Comp>)
    requires In(x, st)
    ensures Within(x, st, r, -1, 2)
    ensures r.value.Some? ==> r.value.value.ExtendedOperator? && r.value.value.arity == arity
  {
    var name := SourceName(x, st);
    Parse(if name.value.None? then None else Some(ExtendedOperator(arity, name.value.value)), Made(name.st))
  }

  function TableOperator(st: State, c1: char, c2: char): (r: Parse<Comp>)
    ensures r.value.None? ==> r.st == st
    ensures r.value.Some? ==>
      r.st == Made(st) && r.value.value.Operator? && r.value.value.operator < OPERATORS && c1 != '\0' && c2 != '\0'
  {
    var op := FindOperator(c1, c2, 0, OPERATORS);
    if op.None? then Parse(None, st) else
      assert Code(op.value)[0] == c1 && Code(op.value)[1] == c2;
      MakeLeaf(Operator(op.value), st)
  }

  function CtorDtorName(x: Input, st: State): (r: Parse<Comp>)
    requires In(x, st)
    ensures Within(x, st, r, 3, 2)
    ensures r.value.Some? ==> r.value.value.Ctor? || r.value.value.Dtor?
  {
    var c, k := Peek(x, st), PeekNext(x, st);
    if c == 'C' && '1' <= k <= '3' then
      Parse(if st.last.None? then None else Some(Ctor(k as int - '0' as int, st.last.value)), Made(Advance(st, 2)))
    else if c == 'D' && '0' <= k <= '2' then
      Parse(if st.last.None? then None else Some(Dtor(k as int - '0' as int, st.last.value)), Made(Advance(st, 2)))
    else Parse(None, st)
  }

  /** A closure type: Ul <signature> E [<number>] _ . */
  function LambdaName(x: Input, st: State): (r: Parse<Comp>)
    requires In(x, st)
    ensures Within(x, st, r, 3, 2)
    decreases |x.text| - st.n, 0
  {
    if Peek(x, st) != 'U' then Parse(None, st) else
    var s1 := Advance(st, 1);
    if Peek(x, s1) != 'l' then Parse(None, s1) else
    var args := ParmList(x, Advance(s1, 1));
    if args.value.None? then args else
    if Peek(x, args.st) != 'E' then Parse(None, args.st) else
    var num := CompactInt(x, Advance(args.st, 1));
    if num.num < 0 then Parse(None, num.st) else
    Record(MakeLeaf(Lambda(num.num, args.value.value), num.st))
  }

  function UnnamedTypeName(x: Input, st: State): (r: Parse<Comp>)
    requires In(x, st)
    ensures Within(x, st, r, 3, 2)
  {
    if Peek(x, st) != 'U' then Parse(None, st) else
    var s1 := Advance(st, 1);
    if Peek(x, s1) != 't' then Parse(None, s1) else
    var num := CompactNumber(x, Advance(s1, 1));
    if num.num < 0 then Parse(None, num.st) else
    Record(MakeLeaf(UnnamedType(num.num), num.st))
  }

  function UnqualifiedName(x: Input, st: State): (r: Parse<Comp>)
    requires In(x, st)
    ensures Within(x, st, r, 3, 2)
    decreases |x.text| - st.n, 1
  {
    var c := Peek(x, st);
    if IsDigit(c) then SourceName(x, st)
    else if IsLower(c) then OperatorName(x, st)
    else if c == 'C' || c == 'D' then CtorDtorName(x, st)
    else if c == 'L' then
      var name := SourceName(x, Advance(st, 1));
      if name.value.None? then name else
      var d := Discriminator(x, name.st);
      Parse(if d.yes then name.value else None, d.st)
    else if c == 'U' then
      if PeekNext(x, st) == 'l' then LambdaName(x, st)
      else if PeekNext(x, st) == 't' then UnnamedTypeName(x, st)
      else Parse(None, st)
    else Parse(None, st)
  }

  /** d_name. */
  function NameOf(x: Input, st: State): (r: Parse<Comp>)
    requires In(x, st)
    ensures Within(x, st, r, 2, 2)
    decreases |x.text| - st.n, 2
  {
    var c := Peek(x, st);
    if c == 'N' then NestedName(x, st)
    else if c == 'Z' then LocalNameOf(x, st)
    else if c == 'L' || c == 'U' then UnqualifiedName(x, st)
    else if c == 'S' then
      if PeekNext(x, st) == 't' then TemplateOf(x, st, StdName(x, st), true)
      else TemplateOf(x, st, Substitution(x, st, false), false)
    else TemplateOf(x, st, UnqualifiedName(x, st), true)
  }

  /** St <unqualified-name>. */
  function StdName(x: Input, st: State): (r: Parse<Comp>)
    requires In(x, st) && Peek(x, st) == 'S' && PeekNext(x, st) == 't'
    ensures Within(x, st, r, 5, 4)
    decreases |x.text| - st.n, 1
  {
    var std := MakeName("std", Advance(st, 2));
    var name := UnqualifiedName(x, std.st);
    MakePair(QualName, std.value, name.value, name.st)
  }

  /** A name followed by template arguments is a template. Its name becomes a substitution
      unless it was one. */
  function TemplateOf(x: Input, ghost from: State, p: Parse<Comp>, record: bool): (r: Parse<Comp>)
    requires In(x, from) && Within(x, from, p, 2, 2)
    ensures Within(x, from, r, 2, 2)
    decreases |x.text| - p.st.n, 1
  {
    if Peek(x, p.st) != 'I' || (record && p.value.None?) then p
    else
      var args := TemplateArgs(x, if record then Record(p).st else p.st);
      MakePair(Template, p.value, args.value, args.st)
  }

  /** N [<CV-qualifiers>] <prefix> E. */
  function NestedName(x: Input, st: State): (r: Parse<Comp>)
    requires In(x, st)
    ensures Within(x, st, r, 6, 3)
    decreases |x.text| - st.n, 0
  {
    if Peek(x, st) != 'N' then Parse(None, st) else
    var qs := CvQualifiers(x, Advance(st, 1), []);
    var p := Prefix(x, qs.st, None);
    if p.value.None? then p else
    if Peek(x, p.st) != 'E' then Parse(None, p.st) else
    Parse(Some(Qualify(qs.qualifiers, true, p.value.value)), Advance(p.st, 1))
  }

  datatype Qualifiers = Qualifiers(qualifiers: seq<Qualifier>, st: State)

  predicate IsQualifier(c: char) {
    c == 'r' || c == 'V' || c == 'K'
  }

  function QualifierOf(c: char): Qualifier {
    if c == 'r' then Restrict else if c == 'V' then Volatile else Const
  }

  /** One entry for each qualifier. */
  function CvQualifiers(x: Input, st: State, acc: seq<Qualifier>): (r: Qualifiers)
    requires In(x, st)
    ensures In(x, r.st) && r.st.n - st.n == r.st.made - st.made == |r.qualifiers| - |acc| >= 0
    ensures r.st.subs == st.subs && r.st.last == st.last && r.st.lost == st.lost
    decreases |x.text| - st.n
  {
    if IsQualifier(Peek(x, st)) then
      CvQualifiers(x, Made(Advance(st, 1)), acc + [QualifierOf(Peek(x, st))])
    else Qualifiers(acc, st)
  }

  /** The characters that start an unqualified name inside a prefix. */
  predicate StartsUnqualified(c: char) {
    IsDigit(c) || IsLower(c) || c == 'C' || c == 'D' || c == 'U' || c == 'L'
  }

  /** The loop of d_prefix, before the item at st, with what was read so far. */
  function Prefix(x: Input, st: State, acc: Option<Comp>): (r: Parse<Comp>)
    requires In(x, st)
    ensures Within(x, st, r, if acc.None? then 2 else 0, if acc.None? then 1 else 0)
    decreases |x.text| - st.n, 4
  {
    hide NextPrefix, StartsItem;
    var c := Peek(x, st);
    if c == 'E' then Parse(acc, st)
    else if c == 'M' then
      if acc.None? then Parse(None, st) else Prefix(x, Advance(st, 1), acc)
    else if !StartsItem(c, acc) then Parse(None, st)
    else
      var p := NextPrefix(x, st, acc);
      if c == 'S' || Peek(x, p.st) == 'E' then Prefix(x, p.st, p.value)
      else if p.value.None? then p
      else Prefix(x, Record(p).st, p.value)
  }

  /** What a prefix can go on with. Template arguments need a name before them. */
  predicate StartsItem(c: char, acc: Option<Comp>) {
    StartsUnqualified(c) || c == 'S' || c == 'T' || (c == 'I' && acc.Some?)
  }

  /** The next item, joined to what was read before. */
  function NextPrefix(x: Input, st: State, acc: Option<Comp>): (r: Parse<Comp>)
    requires In(x, st) && StartsItem(Peek(x, st), acc)
    ensures Within(x, st, r, if acc.None? then 2 else 1, 2)
    ensures Peek(x, st) == 'S' ==> r.st.n > st.n
    decreases |x.text| - st.n, 3
  {
    hide StartsUnqualified;
    var item := PrefixItem(x, st);
    if acc.None? then item
    else MakePair(if Peek(x, st) == 'I' then Template else QualName, acc, item.value, item.st)
  }

  function PrefixItem(x: Input, st: State): (r: Parse<Comp>)
    requires In(x, st)
    requires StartsUnqualified(Peek(x, st)) || Peek(x, st) == 'S' || Peek(x, st) == 'T' || Peek(x, st) == 'I'
    ensures Within(x, st, r, 2, 2)
    ensures Peek(x, st) == 'S' ==> r.st.n > st.n
    decreases |x.text| - st.n, 2
  {
    var c := Peek(x, st);
    if StartsUnqualified(c) then UnqualifiedName(x, st)
    else if c == 'S' then Substitution(x, st, true)
    else if c == 'I' then TemplateArgs(x, st)
    else TemplateParamOf(x, st)
  }

  /** Z <encoding> E <name> [<discriminator>], Z <encoding> E d <number> _ <name>, or
      Z <encoding> E s [<discriminator>]. */
  function LocalNameOf(x: Input, st: State): (r: Parse<Comp>)
    requires In(x, st)
    ensures Within(x, st, r, 4, 4)
    decreases |x.text| - st.n, 0
  {
    if Peek(x, st) != 'Z' then Parse(None, st) else
    var f := Encoding(x, Advance(st, 1), false);
    if Peek(x, f.st) != 'E' then Parse(None, f.st) else
    LocalEntity(x, f.value, Advance(f.st, 1))
  }

  /** The part after the E. */
  function LocalEntity(x: Input, f: Option<Comp>, st: State): (r: Parse<Comp>)
    requires In(x, st)
    ensures Within(x, st, r, 0, 1)
    ensures f.None? ==> r.value.None?
    decreases |x.text| - st.n, 4
  {
    if Peek(x, st) == 's' then
      var d := Discriminator(x, Advance(st, 1));
      if !d.yes then Parse(None, d.st) else
      var lit := MakeName("string literal", d.st);
      MakePair(LocalName, f, lit.value, lit.st)
    else if Peek(x, st) == 'd' then DefaultArgEntity(x, f, Advance(st, 1))
    else
      var name := DiscriminatedName(x, st);
      if name.value.Some? && !name.value.value.yes then Parse(None, name.st) else
      MakePair(LocalName, f, if name.value.None? then None else Some(name.value.value.name), name.st)
  }

  /** What follows the d of a default argument's scope. */
  function DefaultArgEntity(x: Input, f: Option<Comp>, st: State): (r: Parse<Comp>)
    requires In(x, st)
    ensures Within(x, st, r, 0, 0)
    ensures f.None? ==> r.value.None?
    decreases |x.text| - st.n, 4
  {
    var num := CompactInt(x, st);
    if num.num < 0 then Parse(None, num.st) else
    var name := DiscriminatedName(x, num.st);
    if name.value.Some? && !name.value.value.yes then Parse(None, name.st) else
    var sub := if name.value.None? then None else Some(name.value.value.name);
    MakePair(LocalName, f, Some(DefaultArg(num.num, sub)), Made(name.st))
  }

  /** A name, and whether the discriminator after it is well formed. */
  datatype Discriminated = Discriminated(name: Comp, yes: bool)

  /** Lambdas and unnamed types carry their discriminator inside. */
  function DiscriminatedName(x: Input, st: State): (r: Parse<Discriminated>)
    requires In(x, st)
    ensures Within(x, st, r, 2, 2)
    decreases |x.text| - st.n, 3
  {
    var name := NameOf(x, st);
    if name.value.None? then Parse(None, name.st)
    else if name.value.value.Lambda? || name.value.value.UnnamedType? then
      Parse(Some(Discriminated(name.value.value, true)), name.st)
    else
      var d := Discriminator(x, name.st);
      Parse(Some(Discriminated(name.value.value, d.yes)), d.st)
  }

  // ----- substitutions and template parameters -----

  function Substitution(x: Input, st: State, prefix: bool): (r: Parse<Comp>)
    requires In(x, st)
    ensures Within(x, st, r, 2, 2)
    ensures Peek(x, st) == 'S' ==> r.st.n > st.n
  {
    if Peek(x, st) != 'S' then Parse(None, st) else
    var s := Advance(st, 1);
    var c, s' := Peek(x, s), Next(x, s);
    if c == '_' then Recorded(s', 0)
    else if IsDigit(c) || IsUpper(c) then
      var id := SeqId(x, s', c, 0);
      if id.num < 0 then Parse(None, id.st) else Recorded(id.st, id.num)
    else StandardSub(x, s', c, prefix)
  }

  function Recorded(st: State, id: nat): Parse<Comp> {
    Parse(if id >= |st.subs| then None else Some(st.subs[id]), st)
  }

  /** The simple expansion of a standard substitution, or the full one. */
  function Expansion(c: char, full: bool): string {
    match c
    case 't' => "std"
    case 'a' => "std::allocator"
    case 'b' => "std::basic_string"
    case 's' => if full then "std::basic_string<char, std::char_traits<char>, std::allocator<char> >" else "std::string"
    case 'i' => if full then "std::basic_istream<char, std::char_traits<char> >" else "std::istream"
    case 'o' => if full then "std::basic_ostream<char, std::char_traits<char> >" else "std::ostream"
    case 'd' => if full then "std::basic_iostream<char, std::char_traits<char> >" else "std::iostream"
    case _ => ""
  }

  /** The class name a constructor or destructor after a standard substitution gets. */
  function ClassName(c: char): string {
    match c
    case 'a' => "allocator"
    case 'b' => "basic_string"
    case 's' => "basic_string"
    case 'i' => "basic_istream"
    case 'o' => "basic_ostream"
    case 'd' => "basic_iostream"
    case _ => ""
  }

  /** St, Sa, Sb, Ss, Si, So and Sd; all but St also set the last name. */
  function StandardSub(x: Input, st: State, c: char, prefix: bool): (r: Parse<Comp>)
    requires In(x, st)
    ensures In(x, r.st) && r.st.n == st.n && r.st.subs == st.subs && r.st.lost == st.lost
    ensures st.made <= r.st.made <= st.made + 2
    ensures r.value.None? ==> r.st == st
  {
    if c !in {'t', 'a', 'b', 's', 'i', 'o', 'd'} then Parse(None, st) else
    var full := x.options.verbose || (prefix && (Peek(x, st) == 'C' || Peek(x, st) == 'D'));
    var s := if c == 't' then st else Made(st.(last := Some(SubStd(ClassName(c)))));
    MakeLeaf(SubStd(Expansion(c, full)), s)
  }

  function TemplateParamOf(x: Input, st: State): (r: Parse<Comp>)
    requires In(x, st)
    ensures Within(x, st, r, 3, 2)
  {
    if Peek(x, st) != 'T' then Parse(None, st) else
    var num := CompactNumber(x, Advance(st, 1));
    if num.num < 0 then Parse(None, num.st) else MakeLeaf(TemplateParam(num.num), num.st)
  }

  /** The last name is kept across well formed template arguments. */
  function TemplateArgs(x: Input, st: State): (r: Parse<Comp>)
    requires In(x, st)
    ensures Within(x, st, r, 3, 2)
    decreases |x.text| - st.n, 0
  {
    if Peek(x, st) != 'I' then Parse(None, st) else
    var s := Advance(st, 1);
    if Peek(x, s) == 'E' then MakeLeaf(TemplateArglist([]), Advance(s, 1)) else
    var args := TemplateArgList(x, s, []);
    if args.value.None? then Parse(None, args.st)
    else Parse(Some(TemplateArglist(args.value.value)), args.st.(last := st.last))
  }

  function TemplateArgList(x: Input, st: State, acc: seq<Comp>): (r: Parse<seq<Comp>>)
    requires In(x, st)
    ensures Within(x, st, r, 2, 2)
    decreases |x.text| - st.n, 7
  {
    var a := TemplateArg(x, st);
    if a.value.None? then Parse(None, a.st) else
    var s := Made(a.st);
    if Peek(x, s) == 'E' then Parse(Some(acc + [a.value.value]), Advance(s, 1))
    else TemplateArgList(x, s, acc + [a.value.value])
  }

  function TemplateArg(x: Input, st: State): (r: Parse<Comp>)
    requires In(x, st)
    ensures Within(x, st, r, 1, 1)
    decreases |x.text| - st.n, 6
  {
    var c := Peek(x, st);
    if c == 'X' then Closed(x, Expression(x, Advance(st, 1)))
    else if c == 'L' then ExprPrimary(x, st)
    else if c == 'I' then TemplateArgs(x, st)
    else Type(x, st)
  }

  // ----- encodings -----

  /** _Z <encoding>; below the top level the underscore may be missing. */
  function MangledName(x: Input, st: State, top: bool): (r: Parse<Comp>)
    requires In(x, st)
    ensures Within(x, st, r, 2, 3)
    decreases |x.text| - st.n, 4
  {
    if Peek(x, st) != '_' && top then Parse(None, st) else
    var s := if Peek(x, st) == '_' then Advance(st, 1) else st;
    if Peek(x, s) != 'Z' then Parse(None, s) else Encoding(x, Advance(s, 1), top)
  }

  function Encoding(x: Input, st: State, top: bool): (r: Parse<Comp>)
    requires In(x, st)
    ensures Within(x, st, r, 0, 2)
    decreases |x.text| - st.n, 3
  {
    if Peek(x, st) == 'G' || Peek(x, st) == 'T' then SpecialName(x, st) else
    var name := NameOf(x, st);
    if name.value.None? then name
    else if top && !x.options.params then Parse(Some(StripTop(name.value.value)), name.st)
    else if Peek(x, name.st) == '\0' || Peek(x, name.st) == 'E' then name
    else
      var f := BareFunctionType(x, name.st, HasReturnType(name.value.value));
      MakePair(TypedName, name.value, f.value, f.st)
  }

  function SpecialName(x: Input, st: State): (r: Parse<Comp>)
    requires In(x, st)
    ensures Within(x, st, r, 3, 3)
    decreases |x.text| - st.n, 1
  {
    if Peek(x, st) == 'T' then TableName(x, st)
    else if Peek(x, st) == 'G' then ObjectName(x, st)
    else Parse(None, st)
  }

  /** The special names of one type. */
  function TableKind(c: char): Option<SingleKind> {
    match c
    case 'V' => Some(Vtable)
    case 'T' => Some(Vtt)
    case 'I' => Some(Typeinfo)
    case 'S' => Some(TypeinfoName)
    case 'F' => Some(TypeinfoFn)
    case 'J' => Some(JavaClass)
    case _ => None
  }

  function TwoOffsets(x: Input, st: State): (r: Answer)
    requires In(x, st)
    ensures Moved(x, st, r.st)
  {
    var a := CallOffset(x, st, '\0');
    if !a.yes then a else CallOffset(x, a.st, '\0')
  }

  function TableName(x: Input, st: State): (r: Parse<Comp>)
    requires In(x, st) && Peek(x, st) == 'T'
    ensures Within(x, st, r, 3, 3)
    decreases |x.text| - st.n, 0
  {
    hide TableKind;
    var s := Advance(st, 1);
    var c, s' := Peek(x, s), Next(x, s);
    var kind := TableKind(c);
    if c == '\0' then Parse(None, s')
    else if kind.Some? then MakeSingle(kind.value, Type(x, s'))
    else if c == 'C' then ConstructionVtableOf(x, s')
    else ThunkName(x, s', c)
  }

  /** The thunks: one call offset, or two for a covariant one. */
  function ThunkName(x: Input, st: State, c: char): (r: Parse<Comp>)
    requires In(x, st)
    ensures Within(x, st, r, -1, 1)
    decreases |x.text| - st.n, 5
  {
    hide CallOffset, TwoOffsets;
    if c == 'h' then ThunkOf(x, Thunk, CallOffset(x, st, 'h'))
    else if c == 'v' then ThunkOf(x, VirtualThunk, CallOffset(x, st, 'v'))
    else if c == 'c' then ThunkOf(x, CovariantThunk, TwoOffsets(x, st))
    else Parse(None, st)
  }

  function ObjectName(x: Input, st: State): (r: Parse<Comp>)
    requires In(x, st) && Peek(x, st) == 'G'
    ensures Within(x, st, r, 3, 3)
    decreases |x.text| - st.n, 0
  {
    var s := Advance(st, 1);
    var c, s' := Peek(x, s), Next(x, s);
    if c == 'V' then MakeSingle(Guard, NameOf(x, s'))
    else if c == 'R' then MakeSingle(Reftemp, NameOf(x, s'))
    else if c == 'A' then MakeSingle(HiddenAlias, Encoding(x, s', false))
    else if c == 'r' then JavaResourceOf(x, s')
    else Parse(None, s')
  }

  function ThunkOf(x: Input, kind: SingleKind, offset: Answer): (r: Parse<Comp>)
    requires In(x, offset.st)
    ensures Within(x, offset.st, r, -1, 1)
    decreases |x.text| - offset.st.n, 4
  {
    if !offset.yes then Parse(None, offset.st) else MakeSingle(kind, Encoding(x, offset.st, false))
  }

  /** <type> <number> _ <type>, the derived class first. */
  function ConstructionVtableOf(x: Input, st: State): (r: Parse<Comp>)
    requires In(x, st)
    ensures Within(x, st, r, 2, 2)
    decreases |x.text| - st.n, 6
  {
    var derived := Type(x, st);
    var offset := ScanNumber(x, derived.st);
    if offset.num < 0 then Parse(None, offset.st) else
    if Peek(x, offset.st) != '_' then Parse(None, offset.st) else
    var base := Type(x, Advance(offset.st, 1));
    MakePair(ConstructionVtable, base.value, derived.value, base.st)
  }

  /** Gr <number> _ <chunks>: the number counts the underscore too. */
  function JavaResourceOf(x: Input, st: State): (r: Parse<Comp>)
    requires In(x, st)
    ensures Within(x, st, r, 2, 2)
  {
    var len := ScanNumber(x, st);
    if len.num <= 1 then Parse(None, len.st) else
    if Peek(x, len.st) != '_' then Parse(None, Next(x, len.st)) else
    MakeSingle(JavaResource, JavaChunks(x, Advance(len.st, 1), len.num - 1, None))
  }

  /** The chunks of a resource name: an escape, which may run one past the end, or a run of
      other characters. */
  function JavaChunks(x: Input, st: State, len: int, acc: Option<Comp>): (r: Parse<Comp>)
    requires In(x, st)
    requires acc.None? ==> len > 0
    ensures acc.None? ==> Within(x, st, r, 1, 1)
    ensures acc.Some? ==> Within(x, st, r, 0, 0)
    ensures r.st.subs == st.subs
    decreases |x.text| - st.n
  {
    hide NextChunk;
    if len <= 0 then Parse(acc, st) else
    if Peek(x, st) == '\0' then Parse(None, st) else
    var p := NextChunk(x, st, len, acc);
    if p.value.None? then p else JavaChunks(x, p.st, len - (p.st.n - st.n), p.value)
  }

  /** One more chunk, joined to those before it. */
  function NextChunk(x: Input, st: State, len: int, acc: Option<Comp>): (r: Parse<Comp>)
    requires In(x, st) && st.n < |x.text| && len > 0
    ensures Within(x, st, r, if acc.None? then 1 else 0, 1) && r.st.subs == st.subs
    ensures r.value.None? ==> r.st == st
  {
    hide JavaChunk;
    var (chunk, k) := JavaChunk(x, st, len);
    if chunk.None? then Parse(None, st) else
    var next := MakeLeaf(chunk.value, st);
    if acc.None? then next.(st := Advance(next.st, k))
    else MakePair(CompoundName, acc, next.value, Advance(next.st, k))
  }

  function JavaChunk(x: Input, st: State, len: int): (r: (Option<Comp>, nat))
    requires In(x, st) && st.n < |x.text| && len > 0
    ensures r.0.Some? ==> r.1 > 0 && st.n + r.1 <= |x.text|
  {
    if Peek(x, st) == '$' then
      var e := JavaEscape(PeekNext(x, st));
      (if e == '\0' then None else Some(Character(e)), 2)
    else
      var k := JavaRun(x, st, len);
      (Some(Name(x.text[st.n..st.n + k])), k)
  }

  function JavaEscape(c: char): char {
    if c == 'S' then '/' else if c == '_' then '.' else if c == '$' then '$' else '\0'
  }

  /** Length of the run of ordinary characters, at most len. */
  function JavaRun(x: Input, st: State, len: int): (k: nat)
    requires In(x, st)
    ensures st.n + k <= |x.text|
    ensures len > 0 && Peek(x, st) != '\0' && Peek(x, st) != '$' ==> k > 0
    decreases |x.text| - st.n
  {
    if len <= 0 || Peek(x, st) == '\0' || Peek(x, st) == '$' then 0
    else 1 + JavaRun(x, Advance(st, 1), len - 1)
  }

  // ----- types -----

  /** <type>+ up to E or the end. A single void means no argument. */
  function ParmList(x: Input, st: State): (r: Parse<Comp>)
    requires In(x, st)
    ensures Within(x, st, r, 0, 1)
    decreases |x.text| - st.n, 7
  {
    var types := ParmTypes(x, st, []);
    if types.value.None? || types.value.value == [] then Parse(None, types.st)
    else Parse(Some(Arglist(DropVoid(types.value.value))), types.st)
  }

  function DropVoid(types: seq<Comp>): seq<Comp> {
    if types == [BuiltinType(VOID)] then [] else types
  }

  function ParmTypes(x: Input, st: State, acc: seq<Comp>): (r: Parse<seq<Comp>>)
    requires In(x, st)
    ensures Within(x, st, r, 0, 0)
    ensures r.value.Some? && |r.value.value| > |acc| ==> |r.st.subs| - |st.subs| < r.st.n - st.n
    ensures r.value.Some? ==> |r.value.value| >= |acc|
    decreases |x.text| - st.n, 6
  {
    if Peek(x, st) == '\0' || Peek(x, st) == 'E' then Parse(Some(acc), st) else
    var t := Type(x, st);
    if t.value.None? then Parse(None, t.st)
    else ParmTypes(x, Made(t.st), acc + [t.value.value])
  }

  function BareFunctionType(x: Input, st: State, hasReturn: bool): (r: Parse<Comp>)
    requires In(x, st)
    ensures Within(x, st, r, if hasReturn then 0 else -1, 1)
    decreases |x.text| - st.n, 8
  {
    var s, has := if Peek(x, st) == 'J' then Advance(st, 1) else st, hasReturn || Peek(x, st) == 'J';
    if has then
      var result := Type(x, s);
      if result.value.None? then result else MakeFunction(result.value, ParmList(x, result.st))
    else MakeFunction(None, ParmList(x, s))
  }

  function MakeFunction(result: Option<Comp>, args: Parse<Comp>): Parse<Comp> {
    if args.value.None? then args else Parse(Some(FunctionType(result, args.value.value)), Made(args.st))
  }

  /** F [Y] <bare-function-type> E. */
  function FunctionTypeOf(x: Input, st: State): (r: Parse<Comp>)
    requires In(x, st)
    ensures Within(x, st, r, 4, 3)
    decreases |x.text| - st.n, 0
  {
    if Peek(x, st) != 'F' then Parse(None, st) else
    var s := Advance(st, 1);
    var f := BareFunctionType(x, if Peek(x, s) == 'Y' then Advance(s, 1) else s, true);
    Closed(x, f)
  }

  /** A [<dimension>] _ <type>. */
  function ArrayTypeOf(x: Input, st: State): (r: Parse<Comp>)
    requires In(x, st)
    ensures Within(x, st, r, 4, 3)
    decreases |x.text| - st.n, 0
  {
    if Peek(x, st) != 'A' then Parse(None, st) else
    var s := Advance(st, 1);
    if Peek(x, s) == '_' then ArrayElement(x, None, Advance(s, 1)) else
    var dim := Dimension(x, s);
    if dim.value.None? then dim else
    if Peek(x, dim.st) != '_' then Parse(None, dim.st) else ArrayElement(x, dim.value, Advance(dim.st, 1))
  }

  function Dimension(x: Input, st: State): (r: Parse<Comp>)
    requires In(x, st)
    ensures Within(x, st, r, 1, 1)
    decreases |x.text| - st.n, 4
  {
    if IsDigit(Peek(x, st)) then
      var s := DigitRun(x, st);
      MakeName(x.text[st.n..s.n], s)
    else Expression(x, st)
  }

  function ArrayElement(x: Input, dim: Option<Comp>, st: State): (r: Parse<Comp>)
    requires In(x, st)
    ensures Within(x, st, r, 0, 1)
    decreases |x.text| - st.n, 6
  {
    var t := Type(x, st);
    if t.value.None? then t else Parse(Some(ArrayType(dim, t.value.value)), Made(t.st))
  }

  /** Dv <number> _ <type> or Dv _ <expression> _ <type>, after the Dv. The number's entry
      is made before the number is read. */
  function VectorTypeOf(x: Input, st: State): (r: Parse<Comp>)
    requires In(x, st)
    ensures Within(x, st, r, -1, 2)
    decreases |x.text| - st.n, 6
  {
    var dim := VectorDimension(x, st);
    if dim.value.None? || Peek(x, dim.st) != '_' then Parse(None, dim.st) else
    var t := Type(x, Advance(dim.st, 1));
    MakePair(VectorType, dim.value, t.value, t.st)
  }

  function VectorDimension(x: Input, st: State): (r: Parse<Comp>)
    requires In(x, st)
    ensures Within(x, st, r, -1, 0)
    decreases |x.text| - st.n, 4
  {
    if Peek(x, st) == '_' then Expression(x, Advance(st, 1))
    else var num := ScanNumber(x, Made(st)); Parse(Some(Number(num.num)), num.st)
  }

  /** M <class type> <member type>. A qualified member that is no function is recorded with
      its qualifiers. */
  function PointerToMember(x: Input, st: State): (r: Parse<Comp>)
    requires In(x, st)
    ensures Within(x, st, r, 3, 2)
    decreases |x.text| - st.n, 0
  {
    if Peek(x, st) != 'M' then Parse(None, st) else
    var cl := Type(x, Advance(st, 1));
    var member := MemberType(x, cl.st);
    MakePair(PtrmemType, cl.value, member.value, member.st)
  }

  function MemberType(x: Input, st: State): (r: Parse<Comp>)
    requires In(x, st)
    ensures Within(x, st, r, 1, 1)
    decreases |x.text| - st.n, 6
  {
    var qs := CvQualifiers(x, st, []);
    var t := Type(x, qs.st);
    if t.value.None? then t else
    var member := Parse(Some(Qualify(qs.qualifiers, true, t.value.value)), t.st);
    if qs.qualifiers != [] && !t.value.value.FunctionType? then Record(member) else member
  }

  /** A type before it is recorded, and whether it is to be recorded. */
  datatype Unrecorded = Unrecorded(p: Parse<Comp>, canSubst: bool)

  /** cplus_demangle_type. */
  function Type(x: Input, st: State): (r: Parse<Comp>)
    requires In(x, st)
    ensures Within(x, st, r, 1, 1)
    decreases |x.text| - st.n, 5
  {
    if IsQualifier(Peek(x, st)) then
      var qs := CvQualifiers(x, st, []);
      assert |qs.qualifiers| > 0;
      var t := Type(x, qs.st);
      if t.value.None? then t
      else Record(Parse(Some(Qualify(qs.qualifiers, false, t.value.value)), t.st))
    else
      var u := Unqualified(x, st);
      if u.canSubst then Record(u.p) else u.p
  }

  predicate IsBuiltin(c: char) {
    IsLower(c) && c !in {'k', 'p', 'q', 'r', 'u'}
  }

  function Unqualified(x: Input, st: State): (r: Unrecorded)
    requires In(x, st) && !IsQualifier(Peek(x, st))
    ensures Within(x, st, r.p, 1, 1)
    ensures r.canSubst ==> Within(x, st, r.p, 1, 2)
    decreases |x.text| - st.n, 4
  {
    var c := Peek(x, st);
    if IsBuiltin(c) then Unrecorded(MakeLeaf(BuiltinType(BuiltinIndex(c)), Advance(st, 1)), false)
    else if c == 'S' then SubstitutedType(x, st)
    else if c == 'D' then Unrecorded(ExtendedType(x, st), false)
    else Unrecorded(CompoundType(x, st), true)
  }

  /** The types that are recorded whenever they parse. */
  function CompoundType(x: Input, st: State): (r: Parse<Comp>)
    requires In(x, st)
    ensures Within(x, st, r, 1, 2)
    decreases |x.text| - st.n, 3
  {
    var c := Peek(x, st);
    if IsDigit(c) || c == 'N' || c == 'Z' then NameOf(x, st)
    else if c == 'u' then MakeSingle(VendorType, SourceName(x, Advance(st, 1)))
    else if c == 'F' then FunctionTypeOf(x, st)
    else if c == 'A' then ArrayTypeOf(x, st)
    else if c == 'M' then PointerToMember(x, st)
    else if c == 'T' then TemplateOf(x, st, TemplateParamOf(x, st), true)
    else if c == 'U' then VendorQualified(x, st)
    else if IsIndirect(c) then MakeSingle(IndirectKind(c), Type(x, Advance(st, 1)))
    else Parse(None, st)
  }

  predicate IsIndirect(c: char) {
    c in {'O', 'P', 'R', 'C', 'G'}
  }

  function IndirectKind(c: char): SingleKind {
    if c == 'O' then RvalueReference
    else if c == 'P' then Pointer
    else if c == 'R' then Reference
    else if c == 'C' then Complex
    else Imaginary
  }

  /** U <source-name> <type>. */
  function VendorQualified(x: Input, st: State): (r: Parse<Comp>)
    requires In(x, st) && Peek(x, st) == 'U'
    ensures Within(x, st, r, 4, 3)
    decreases |x.text| - st.n, 0
  {
    var name := SourceName(x, Advance(st, 1));
    var t := Type(x, name.st);
    MakePair(VendorTypeQual, t.value, name.value, t.st)
  }

  /** A substitution, possibly a template's name, or a class name that starts with one. */
  function SubstitutedType(x: Input, st: State): (r: Unrecorded)
    requires In(x, st)
    ensures Within(x, st, r.p, 1, 2)
    decreases |x.text| - st.n, 3
  {
    var k := PeekNext(x, st);
    if IsDigit(k) || k == '_' || IsUpper(k) then
      var sub := Substitution(x, st, false);
      Unrecorded(TemplateOf(x, st, sub, false), Peek(x, sub.st) == 'I')
    else
      var name := NameOf(x, st);
      Unrecorded(name, !(name.value.Some? && name.value.value.SubStd?))
  }

  /** The types that start with D. */
  function ExtendedType(x: Input, st: State): (r: Parse<Comp>)
    requires In(x, st) && Peek(x, st) == 'D'
    ensures Within(x, st, r, 1, 1)
    decreases |x.text| - st.n, 0
  {
    var s := Advance(st, 1);
    var c, s' := Peek(x, s), Next(x, s);
    match c
    case 'T' => DecltypeOf(x, s')
    case 't' => DecltypeOf(x, s')
    case 'p' => MakeSingle(PackExpansion, Type(x, s'))
    case 'f' => MakeLeaf(BuiltinType(26), s')
    case 'd' => MakeLeaf(BuiltinType(27), s')
    case 'e' => MakeLeaf(BuiltinType(28), s')
    case 'h' => MakeLeaf(BuiltinType(29), s')
    case 's' => MakeLeaf(BuiltinType(30), s')
    case 'i' => MakeLeaf(BuiltinType(31), s')
    case 'n' => MakeLeaf(BuiltinType(32), s')
    case 'F' => FixedTypeOf(x, Made(s'))
    case 'v' => VectorTypeOf(x, s')
    case _ => Parse(None, s')
  }

  /** <expression> E. A failed expression leaves the E unread. */
  function DecltypeOf(x: Input, st: State): (r: Parse<Comp>)
    requires In(x, st)
    ensures Within(x, st, r, 1, 1)
    decreases |x.text| - st.n, 4
  {
    var e := MakeSingle(Decltype, Expression(x, st));
    if e.value.None? then e
    else Parse(if Peek(x, e.st) == 'E' then e.value else None, Next(x, e.st))
  }

  /** DF [<bits>] <type> <bits> <sat>, the entry already made. */
  function FixedTypeOf(x: Input, st: State): (r: Parse<Comp>)
    requires In(x, st)
    ensures Within(x, st, r, 1, 1)
    decreases |x.text| - st.n, 6
  {
    var accum := IsDigit(Peek(x, st));
    var t := Type(x, if accum then ScanNumber(x, st).st else st);
    if t.value.None? then t else
    var s := ScanNumber(x, t.st).st;
    Parse(Some(FixedType(accum, t.value.value, Peek(x, s) == 's')), Next(x, s))
  }

  // ----- expressions -----

  function Expression(x: Input, st: State): (r: Parse<Comp>)
    requires In(x, st)
    ensures Within(x, st, r, 3, 2)
    decreases |x.text| - st.n, 3
  {
    var c := Peek(x, st);
    if c == 'L' then ExprPrimary(x, st)
    else if c == 'T' then TemplateParamOf(x, st)
    else if c == 's' && PeekNext(x, st) == 'r' then ScopedName(x, Advance(st, 2))
    else if c == 's' && PeekNext(x, st) == 'p' then MakeSingle(PackExpansion, Expression(x, Advance(st, 2)))
    else if c == 'f' && PeekNext(x, st) == 'p' then
      var num := CompactInt(x, Advance(st, 2));
      if num.num < 0 then Parse(None, num.st) else MakeLeaf(FunctionParam(num.num), num.st)
    else if IsDigit(c) then DependentName(x, st)
    else if c == 'o' && PeekNext(x, st) == 'n' then DependentName(x, Advance(st, 2))
    else OperatorExpression(x, st)
  }

  /** <type> <unqualified-name> [<template-args>], after sr. */
  function ScopedName(x: Input, st: State): (r: Parse<Comp>)
    requires In(x, st)
    ensures Within(x, st, r, 1, 2)
    decreases |x.text| - st.n, 6
  {
    var t := Type(x, st);
    var name := MaybeTemplate(x, UnqualifiedName(x, t.st));
    MakePair(QualName, t.value, name.value, name.st)
  }

  /** A name, made a template when template arguments follow. Not recorded. */
  function MaybeTemplate(x: Input, name: Parse<Comp>): (r: Parse<Comp>)
    requires In(x, name.st)
    ensures r.value.Some? ==> name.value.Some?
    ensures Within(x, name.st, r, 0, 0)
    decreases |x.text| - name.st.n, 1
  {
    if Peek(x, name.st) != 'I' then name else
    var args := TemplateArgs(x, name.st);
    MakePair(Template, name.value, args.value, args.st)
  }

  /** A dependent call's name: nothing more is read when it is malformed. */
  function DependentName(x: Input, st: State): (r: Parse<Comp>)
    requires In(x, st)
    ensures Within(x, st, r, 3, 2)
    decreases |x.text| - st.n, 2
  {
    var name := UnqualifiedName(x, st);
    if name.value.None? then name else MaybeTemplate(x, name)
  }

  function OperatorExpression(x: Input, st: State): (r: Parse<Comp>)
    requires In(x, st)
    ensures Within(x, st, r, 3, 2)
    decreases |x.text| - st.n, 1
  {
    var op := OperatorName(x, st);
    if op.value.None? then op
    else if op.value.value == Operator(OP_ST) then
      var t := Type(x, op.st);
      MakePair(UnaryExpr, op.value, t.value, t.st)
    else
      match Operands(op.value.value)
      case 1 => UnaryOperand(x, op.value.value, op.st)
      case 2 =>
        if op.value.value.ExtendedOperator? then Parse(None, Lost(op.st, st.n))
        else BinaryOperands(x, op.value.value, op.st)
      case 3 => TrinaryOperands(x, op.value.value, op.st)
      case _ => Parse(None, op.st)
  }

  /** Entries of the operator table the parser treats specially. */
  const OP_CL: nat := 5
  const OP_DT: nat := 12
  const OP_PT: nat := 42
  const OP_ST: nat := 48

  function Operands(op: Comp): int {
    match op
    case Operator(i) => Arity(i)
    case ExtendedOperator(n, _) => n
    case _ => 1
  }

  function UnaryOperand(x: Input, op: Comp, st: State): (r: Parse<Comp>)
    requires In(x, st)
    ensures Within(x, st, r, 0, 1)
    decreases |x.text| - st.n, 6
  {
    var e := if op.Single? && Peek(x, st) == '_' then ExprList(x, Advance(st, 1)) else Expression(x, st);
    MakePair(UnaryExpr, Some(op), e.value, e.st)
  }

  function BinaryOperands(x: Input, op: Comp, st: State): (r: Parse<Comp>)
    requires In(x, st)
    ensures Within(x, st, r, 0, 1)
    decreases |x.text| - st.n, 7
  {
    var left := Expression(x, st);
    var right := RightOperand(x, op, left.st);
    var args := MakePair(BinaryArgs, left.value, right.value, right.st);
    MakePair(BinaryExpr, Some(op), args.value, args.st)
  }

  /** A call has a list of arguments, a member access a name. */
  function RightOperand(x: Input, op: Comp, st: State): (r: Parse<Comp>)
    requires In(x, st)
    ensures Within(x, st, r, 1, 1)
    decreases |x.text| - st.n, 6
  {
    if op == Operator(OP_CL) then ExprList(x, st)
    else if op == Operator(OP_DT) || op == Operator(OP_PT) then MaybeTemplate(x, UnqualifiedName(x, st))
    else Expression(x, st)
  }

  function TrinaryOperands(x: Input, op: Comp, st: State): (r: Parse<Comp>)
    requires In(x, st)
    ensures Within(x, st, r, 0, 1)
    decreases |x.text| - st.n, 6
  {
    var first := Expression(x, st);
    var second := Expression(x, first.st);
    var third := Expression(x, second.st);
    var arg2 := MakePair(TrinaryArg2, second.value, third.value, third.st);
    var arg1 := MakePair(TrinaryArg1, first.value, arg2.value, arg2.st);
    MakePair(TrinaryExpr, Some(op), arg1.value, arg1.st)
  }

  /** <expression>* E. */
  function ExprList(x: Input, st: State): (r: Parse<Comp>)
    requires In(x, st)
    ensures Within(x, st, r, 1, 1)
    decreases |x.text| - st.n, 5
  {
    if Peek(x, st) == 'E' then MakeLeaf(Arglist([]), Advance(st, 1)) else
    var items := ExprItems(x, st, []);
    if items.value.None? then Parse(None, items.st)
    else Parse(Some(Arglist(items.value.value)), items.st)
  }

  function ExprItems(x: Input, st: State, acc: seq<Comp>): (r: Parse<seq<Comp>>)
    requires In(x, st)
    ensures Within(x, st, r, 1, 1)
    decreases |x.text| - st.n, 4
  {
    var e := Expression(x, st);
    if e.value.None? then Parse(None, e.st) else
    var s := Made(e.st);
    if Peek(x, s) == 'E' then Parse(Some(acc + [e.value.value]), Advance(s, 1))
    else ExprItems(x, s, acc + [e.value.value])
  }

  /** L <type> <literal> E or L <mangled-name> E. */
  function ExprPrimary(x: Input, st: State): (r: Parse<Comp>)
    requires In(x, st)
    ensures Within(x, st, r, 5, 4)
    decreases |x.text| - st.n, 0
  {
    if Peek(x, st) != 'L' then Parse(None, st) else
    var s := Advance(st, 1);
    if Peek(x, s) == '_' || Peek(x, s) == 'Z' then Closed(x, MangledName(x, s, false)) else TypedLiteral(x, s)
  }

  function TypedLiteral(x: Input, st: State): (r: Parse<Comp>)
    requires In(x, st)
    ensures Within(x, st, r, 3, 3)
    decreases |x.text| - st.n, 6
  {
    var t := Type(x, st);
    if t.value.None? then t else Closed(x, LiteralOf(x, t.value.value, t.st))
  }

  /** The closing E, read whether or not what it closes was well formed. */
  function Closed(x: Input, p: Parse<Comp>): Parse<Comp> {
    if Peek(x, p.st) != 'E' then Parse(None, p.st) else Parse(p.value, Advance(p.st, 1))
  }

  /** The literal is kept as text. An empty one is refused only after its entry is made. */
  function LiteralOf(x: Input, t: Comp, st: State): (r: Parse<Comp>)
    requires In(x, st)
    ensures In(x, r.st) && st.n <= r.st.n && r.st.subs == st.subs
    ensures r.value.Some? ==> r.st.n > st.n && r.st.made == st.made + 2
    ensures r.value.None? ==> st.made <= r.st.made <= st.made + 1
  {
    var neg := Peek(x, st) == 'n';
    var s := if neg then Advance(st, 1) else st;
    var end := LiteralEnd(x, s);
    if !end.yes then Parse(None, end.st) else
    var text := MakeName(x.text[s.n..end.st.n], end.st);
    MakePair(if neg then LiteralNeg else Literal, Some(t), text.value, text.st)
  }
}
