/** The components a mangled name is parsed into, as values. The source keeps them in an
    arena of 2 * len entries and patches list cells after creating them; here a component is
    the tree it stands for once it is complete, and the parser's state counts the entries. */
module Components {
  import opened Wrappers

  /** Kinds that need both a left and a right part. */
  datatype PairKind =
    | QualName | LocalName | TypedName | Template | ConstructionVtable | VendorTypeQual
    | PtrmemType | UnaryExpr | BinaryExpr | BinaryArgs | TrinaryExpr | TrinaryArg1
    | TrinaryArg2 | Literal | LiteralNeg | CompoundName | VectorType

  /** Kinds that need a left part only. */
  datatype SingleKind =
    | Vtable | Vtt | Typeinfo | TypeinfoName | TypeinfoFn | Thunk | VirtualThunk
    | CovariantThunk | JavaClass | Guard | Reftemp | HiddenAlias | Pointer | Reference
    | RvalueReference | Complex | Imaginary | VendorType | Cast | JavaResource | Decltype
    | PackExpansion | GlobalConstructors | GlobalDestructors

  datatype Qualifier = Restrict | Volatile | Const

  /** An argument list is the sequence of its cells' left parts; the list whose only cell has
      no left part, which stands for no argument at all, is the empty sequence. */
  datatype Comp =
    | Name(text: string)
    | Pair(pair: PairKind, left: Comp, right: Comp)
    | Single(single: SingleKind, of: Comp)
    | Qualified(qualifier: Qualifier, onThis: bool, base: Comp)
    | ArrayType(dimension: Option<Comp>, element: Comp)
    | FunctionType(result: Option<Comp>, arguments: Comp)
    | Arglist(items: seq<Comp>)
    | TemplateArglist(parameters: seq<Comp>)
    | BuiltinType(builtin: nat)
    | Operator(operator: nat)
    | ExtendedOperator(arity: int, name: Comp)
    | Ctor(ctor: nat, owner: Comp)
    | Dtor(dtor: nat, owner: Comp)
    | TemplateParam(param: int)
    | FunctionParam(param: int)
    | SubStd(expansion: string)
    | DefaultArg(num: int, scope: Option<Comp>)
    | Lambda(num: int, signature: Comp)
    | UnnamedType(num: int)
    | Number(num: int)
    | Character(letter: char)
    | FixedType(accum: bool, length: Comp, sat: bool)

  /** The options the parser looks at (DMGL_PARAMS, DMGL_JAVA, DMGL_VERBOSE, DMGL_TYPES). */
  datatype Options = Options(params: bool, java: bool, verbose: bool, types: bool)

  /** Put the qualifiers around a component, the first one read outermost. */
  function Qualify(qs: seq<Qualifier>, onThis: bool, c: Comp): Comp {
    if qs == [] then c else Qualified(qs[0], onThis, Qualify(qs[1..], onThis, c))
  }

  /** has_return_type: template functions have one, except constructors, destructors and
      conversions. */
  predicate HasReturnType(c: Comp) {
    match c
    case Pair(Template, l, _) => !IsCtorDtorOrConversion(l)
    case Qualified(_, true, base) => HasReturnType(base)
    case _ => false
  }

  predicate IsCtorDtorOrConversion(c: Comp) {
    match c
    case Pair(QualName, _, r) => IsCtorDtorOrConversion(r)
    case Pair(LocalName, _, r) => IsCtorDtorOrConversion(r)
    case Ctor(_, _) => true
    case Dtor(_, _) => true
    case Single(Cast, _) => true
    case _ => false
  }

  /** Strip the qualifiers that apply to `this'. */
  function StripThis(c: Comp): Comp {
    match c
    case Qualified(_, true, base) => StripThis(base)
    case _ => c
  }

  /** What the top level shows of a function name when parameters are not wanted: the name
      without the qualifiers of `this', also inside a local name. */
  function StripTop(c: Comp): Comp {
    match StripThis(c)
    case Pair(LocalName, l, r) => Pair(LocalName, l, StripThis(r))
    case d => d
  }

  /** Index of a one letter builtin type in the table; `void' is 21. */
  function BuiltinIndex(c: char): (i: int) {
    c as int - 'a' as int
  }

  const VOID: nat := 21
}
