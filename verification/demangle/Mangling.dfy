/** A mangler for part of the C++ types, with the ABI's compression: a component that was
    spelled before is written as a reference to it. It is written from section 5.1 of the
    Itanium C++ ABI and not from the parser, to say what the parser's answers mean. */
module Mangling {
  import opened Decimals
  import opened Wrappers
  import opened Components
  import opened Scanner
  import opened Numerals

  datatype Ty =
    | Basic(letter: char)
    | Indirect(letter: char, of: Ty)
    | Cv(qualifiers: seq<Qualifier>, of: Ty)
    | Array(size: nat, of: Ty)
    | Class(id: string)
    | Instance(id: string, args: Tys)
    | Nested(path: seq<string>)
    | Function(result: Ty, params: Tys)

  datatype Tys = Nil | Cons(head: Ty, tail: Tys)

  /** Identifiers as they occur in C++; the spelling of an anonymous namespace is apart. */
  predicate GoodId(id: string) {
    0 < |id| <= INT_MAX && !IsDigit(id[0]) && !SpellsAnonymous(id)
  }

  /** As gcc spells an anonymous namespace. */
  predicate SpellsAnonymous(id: string) {
    |id| >= 10 && id[..8] == "_GLOBAL_" && id[8] in {'.', '_', '$'} && id[9] == 'N'
  }

  /** The one letter builtin types of the ABI. */
  predicate IsBuiltinLetter(c: char) {
    c in {'a', 'b', 'c', 'd', 'e', 'f', 'g', 'h', 'i', 'j', 'l', 'm', 'n', 'o', 's', 't', 'v', 'w', 'x', 'y', 'z'}
  }

  predicate WellFormed(t: Ty) {
    match t
    case Basic(c) => IsBuiltinLetter(c)
    case Indirect(c, of) => c in {'P', 'R', 'O', 'C', 'G'} && WellFormed(of)
    case Cv(qs, of) => qs != [] && !of.Cv? && WellFormed(of)
    case Array(_, of) => WellFormed(of)
    case Class(id) => GoodId(id)
    case Instance(id, args) => GoodId(id) && AllWellFormed(args)
    case Nested(path) => |path| >= 2 && forall i :: 0 <= i < |path| ==> GoodId(path[i])
    case Function(result, params) => params.Cons? && WellFormed(result) && AllWellFormed(params)
  }

  predicate AllWellFormed(ts: Tys) {
    ts.Cons? ==> WellFormed(ts.head) && AllWellFormed(ts.tail)
  }

  /** What the letters before a type make of it. */
  function Around(letter: char, of: Comp): Comp {
    match letter
    case 'P' => Single(Pointer, of)
    case 'R' => Single(Reference, of)
    case 'O' => Single(RvalueReference, of)
    case 'C' => Single(Complex, of)
    case _ => Single(Imaginary, of)
  }

  /** The first qualifier is outermost. */
  function AroundAll(qs: seq<Qualifier>, of: Comp): Comp {
    if qs == [] then of else Qualified(qs[0], false, AroundAll(qs[1..], of))
  }

  /** The component a type stands for. A builtin type is known by the place of its letter. */
  function Tree(t: Ty): Comp {
    match t
    case Basic(c) => BuiltinType(if 'a' <= c then c as int - 'a' as int else 0)
    case Indirect(c, of) => Around(c, Tree(of))
    case Cv(qs, of) => AroundAll(qs, Tree(of))
    case Array(size, of) => ArrayType(Some(Name(Decimal(size))), Tree(of))
    case Class(id) => Name(id)
    case Instance(id, args) => Pair(Template, Name(id), TemplateArglist(Trees(args)))
    case Nested(path) => if path == [] then Name("") else PathTree(path)
    case Function(result, params) =>
      FunctionType(Some(Tree(result)), Arglist(if params == Cons(Basic('v'), Nil) then [] else Trees(params)))
  }

  function Trees(ts: Tys): seq<Comp> {
    if ts.Nil? then [] else [Tree(ts.head)] + Trees(ts.tail)
  }

  function PathTree(path: seq<string>): Comp
    requires path != []
  {
    if |path| == 1 then Name(path[0]) else Pair(QualName, PathTree(path[..|path| - 1]), Name(path[|path| - 1]))
  }

  // ----- spelling -----

  datatype Spelling = Spelling(text: string, table: seq<Comp>)

  function Find(table: seq<Comp>, c: Comp): (r: Option<nat>)
    ensures r.Some? ==> r.value < |table| && table[r.value] == c
    ensures r.None? ==> c !in table
  {
    if table == [] then None
    else if table[|table| - 1] == c then Some(|table| - 1)
    else Find(table[..|table| - 1], c)
  }

  function BackReference(i: nat): string {
    "S" + ((if i == 0 then "" else Base36(i - 1)) + "_")
  }

  function SpellId(id: string): string {
    Decimal(|id|) + id
  }

  function QualifierLetter(q: Qualifier): char {
    match q case Restrict => 'r' case Volatile => 'V' case Const => 'K'
  }

  function SpellQualifiers(qs: seq<Qualifier>): string {
    if qs == [] then "" else [QualifierLetter(qs[0])] + SpellQualifiers(qs[1..])
  }

  /** A type given what was spelled before it. Builtin types are never referred to. */
  function Spell(t: Ty, table: seq<Comp>): (s: Spelling)
    ensures |s.table| >= |table|
    decreases t, 1
  {
    if t.Basic? then Spelling([t.letter], table) else
    match Find(table, Tree(t))
    case Some(i) => Spelling(BackReference(i), table)
    case None => var s := SpellOut(t, table); Spelling(s.text, s.table + [Tree(t)])
  }

  function SpellOut(t: Ty, table: seq<Comp>): (s: Spelling)
    ensures |s.table| >= |table|
    decreases t, 0
  {
    match t
    case Basic(c) => Spelling([c], table)
    case Indirect(c, of) => Behind([c], Spell(of, table))
    case Cv(qs, of) => Behind(SpellQualifiers(qs), Spell(of, table))
    case Array(size, of) => Behind("A" + (Decimal(size) + "_"), Spell(of, table))
    case Class(id) => Spelling(SpellId(id), table)
    case Instance(id, args) =>
      var name := SpellTemplate(id, table);
      var list := SpellAll(args, name.table);
      Spelling(name.text + ("I" + (list.text + "E")), list.table)
    case Nested(path) =>
      if path == [] then Spelling("", table) else
      var p := SpellPath(path, table);
      Spelling("N" + (p.text + "E"), p.table)
    case Function(result, params) =>
      var r := Spell(result, table);
      var list := SpellAll(params, r.table);
      Spelling("F" + (r.text + (list.text + "E")), list.table)
  }

  function Behind(prefix: string, s: Spelling): Spelling {
    Spelling(prefix + s.text, s.table)
  }

  function SpellAll(ts: Tys, table: seq<Comp>): (s: Spelling)
    ensures |s.table| >= |table|
    decreases ts, 0
  {
    if ts.Nil? then Spelling("", table)
    else var s := Spell(ts.head, table); Behind(s.text, SpellAll(ts.tail, s.table))
  }

  /** The name of a template, which can be referred to itself. */
  function SpellTemplate(id: string, table: seq<Comp>): (s: Spelling)
    ensures |s.table| >= |table|
  {
    match Find(table, Name(id))
    case Some(i) => Spelling(BackReference(i), table)
    case None => Spelling(SpellId(id), table + [Name(id)])
  }

  /** A qualified name inside N and E: every proper prefix can be referred to; the whole is
      recorded by whoever spells the type. */
  function SpellPath(path: seq<string>, table: seq<Comp>): (s: Spelling)
    requires path != []
    ensures |s.table| >= |table|
    decreases |path|, 0
  {
    if |path| == 1 then Spelling(SpellId(path[0]), table) else
    var p := SpellPrefix(path[..|path| - 1], table);
    Spelling(p.text + SpellId(path[|path| - 1]), p.table)
  }

  function SpellPrefix(path: seq<string>, table: seq<Comp>): (s: Spelling)
    requires path != []
    ensures |s.table| >= |table|
    decreases |path|, 1
  {
    match Find(table, PathTree(path))
    case Some(i) => Spelling(BackReference(i), table)
    case None => var s := SpellPath(path, table); Spelling(s.text, s.table + [PathTree(path)])
  }
}
