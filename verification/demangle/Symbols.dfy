/** A mangler for whole symbols: functions and objects with their qualified names, and the special
    names of the Itanium C++ ABI (section 5.1). */
module Symbols {
  import opened Decimals
  import opened Wrappers
  import opened Components
  import opened Scanner
  import opened Operators
  import opened Mangling

  /** The last part of a name. An operator is given by its place in the table. */
  datatype Last =
    | Ident(id: string)
    | Constructor(variant: nat)
    | Destructor(variant: nat)
    | OperatorAt(place: nat)

  /** A name in a scope, with the qualifiers of the object it is called for, and with template
      arguments. */
  datatype Entity = Entity(scope: seq<string>, last: Last, qualifiers: seq<Qualifier>, args: Option<Tys>)

  datatype Offset = Fixed(delta: int) | Virtual(delta: int, at: int)

  datatype Symbol =
    | Object(entity: Entity)
    | Routine(entity: Entity, result: Option<Ty>, params: Tys)
    | TypeTable(letter: char, of: Ty)
    | ConstructionTable(derived: Ty, offset: nat, base: Ty)
    | Adjusted(first: Offset, second: Option<Offset>, target: Symbol)
    | GuardOf(entity: Entity)
    | TemporaryOf(entity: Entity)
    | AliasOf(target: Symbol)

  // ----- which ones there are -----

  predicate GoodScope(scope: seq<string>) {
    forall i :: 0 <= i < |scope| ==> GoodId(scope[i])
  }

  predicate GoodEntity(e: Entity) {
    && GoodScope(e.scope) && (e.args.Some? ==> AllWellFormed(e.args.value))
    && (e.scope == [] ==> e.qualifiers == [])
    && match e.last
       case Ident(id) => GoodId(id)
       case Constructor(k) => 1 <= k <= 3 && e.scope != []
       case Destructor(k) => k <= 2 && e.scope != []
       case OperatorAt(k) => k < 50
  }

  /** A function template's result is part of its name, unless it makes or ends an object. */
  predicate NamesResult(e: Entity) {
    e.args.Some? && !e.last.Constructor? && !e.last.Destructor?
  }

  predicate GoodSymbol(s: Symbol) {
    match s
    case Object(e) => GoodEntity(e)
    case Routine(e, result, params) =>
      && GoodEntity(e) && params.Cons? && AllWellFormed(params)
      && (result.Some? <==> NamesResult(e)) && (result.Some? ==> WellFormed(result.value))
    case TypeTable(c, of) => c in {'V', 'T', 'I', 'S', 'F', 'J'} && WellFormed(of)
    case ConstructionTable(derived, _, base) => WellFormed(derived) && WellFormed(base)
    case Adjusted(_, _, target) => GoodSymbol(target)
    case GuardOf(e) => GoodEntity(e)
    case TemporaryOf(e) => GoodEntity(e)
    case AliasOf(target) => GoodSymbol(target)
  }

  // ----- what they stand for -----

  /** A constructor or destructor is that of the class it is in. */
  function LastTree(e: Entity): Comp {
    var owner := Name(if e.scope == [] then "" else e.scope[|e.scope| - 1]);
    match e.last
    case Ident(id) => Name(id)
    case Constructor(k) => Ctor(k, owner)
    case Destructor(k) => Dtor(k, owner)
    case OperatorAt(k) => Operator(k)
  }

  function NamedTree(e: Entity): Comp {
    if e.scope == [] then LastTree(e) else Pair(QualName, PathTree(e.scope), LastTree(e))
  }

  function OnThis(qs: seq<Qualifier>, of: Comp): Comp {
    if qs == [] then of else Qualified(qs[0], true, OnThis(qs[1..], of))
  }

  function WithArgs(e: Entity): Comp {
    if e.args.None? then NamedTree(e) else Pair(Template, NamedTree(e), TemplateArglist(Trees(e.args.value)))
  }

  function EntityTree(e: Entity): Comp {
    OnThis(e.qualifiers, WithArgs(e))
  }

  /** A single void stands for no parameters. */
  function Parameters(ts: Tys): Comp {
    Arglist(if ts == Cons(Basic('v'), Nil) then [] else Trees(ts))
  }

  /** What a compiler makes for a type, by its letter. */
  function OfType(letter: char, of: Comp): Comp {
    match letter
    case 'V' => Single(Vtable, of)
    case 'T' => Single(Vtt, of)
    case 'I' => Single(Typeinfo, of)
    case 'S' => Single(TypeinfoName, of)
    case 'F' => Single(TypeinfoFn, of)
    case _ => Single(JavaClass, of)
  }

  function SymbolTree(s: Symbol): Comp {
    match s
    case Object(e) => EntityTree(e)
    case Routine(e, result, params) =>
      Pair(TypedName, EntityTree(e),
           FunctionType(if result.Some? then Some(Tree(result.value)) else None, Parameters(params)))
    case TypeTable(c, of) => OfType(c, Tree(of))
    case ConstructionTable(derived, _, base) => Pair(ConstructionVtable, Tree(base), Tree(derived))
    case Adjusted(first, second, target) =>
      Single(if second.Some? then CovariantThunk else if first.Fixed? then Thunk else VirtualThunk, SymbolTree(target))
    case GuardOf(e) => Single(Guard, EntityTree(e))
    case TemporaryOf(e) => Single(Reftemp, EntityTree(e))
    case AliasOf(target) => Single(HiddenAlias, SymbolTree(target))
  }

  // ----- how they are spelled -----

  /** The classes and namespaces of a scope, one behind the other. */
  function SpellIds(scope: seq<string>): string {
    if scope == [] then "" else SpellIds(scope[..|scope| - 1]) + SpellId(scope[|scope| - 1])
  }

  /** Each of them can be referred to. */
  function Prefixes(scope: seq<string>): seq<Comp> {
    if scope == [] then [] else Prefixes(scope[..|scope| - 1]) + [PathTree(scope)]
  }

  function SpellLast(l: Last): string {
    match l
    case Ident(id) => SpellId(id)
    case Constructor(k) => "C" + Decimal(k)
    case Destructor(k) => "D" + Decimal(k)
    case OperatorAt(k) => if k < OPERATORS then Code(k) else ""
  }

  /** A template's name can be referred to, and what its arguments consist of. */
  function SpellArgs(e: Entity): Spelling {
    if e.args.None? then Spelling("", Prefixes(e.scope)) else
    var list := SpellAll(e.args.value, Prefixes(e.scope) + [NamedTree(e)]);
    Spelling("I" + (list.text + "E"), list.table)
  }

  function SpellEntity(e: Entity): Spelling {
    var args := SpellArgs(e);
    if e.scope == [] then Spelling(SpellLast(e.last) + args.text, args.table)
    else Spelling("N" + (SpellQualifiers(e.qualifiers)
                         + (SpellIds(e.scope) + (SpellLast(e.last) + (args.text + "E")))), args.table)
  }

  function SpellNumber(v: int): string {
    if v < 0 then "n" + Decimal(-v) else Decimal(v)
  }

  function SpellOffset(o: Offset): string {
    match o
    case Fixed(delta) => "h" + (SpellNumber(delta) + "_")
    case Virtual(delta, at) => "v" + (SpellNumber(delta) + ("_" + (SpellNumber(at) + "_")))
  }

  function SpellSymbol(s: Symbol): Spelling {
    match s
    case Object(e) => SpellEntity(e)
    case Routine(e, result, params) =>
      var name := SpellEntity(e);
      var r := if result.Some? then Spell(result.value, name.table) else Spelling("", name.table);
      var list := SpellAll(params, r.table);
      Spelling(name.text + (r.text + list.text), list.table)
    case TypeTable(c, of) => Behind(['T', c], Spell(of, []))
    case ConstructionTable(derived, offset, base) =>
      var d := Spell(derived, []);
      var b := Spell(base, d.table);
      Spelling("TC" + (d.text + (Decimal(offset) + ("_" + b.text))), b.table)
    case Adjusted(first, second, target) =>
      Behind(if second.Some? then "Tc" + (SpellOffset(first) + SpellOffset(second.value)) else "T" + SpellOffset(first),
             SpellSymbol(target))
    case GuardOf(e) => Behind("GV", SpellEntity(e))
    case TemporaryOf(e) => Behind("GR", SpellEntity(e))
    case AliasOf(target) => Behind("GA", SpellSymbol(target))
  }
}
