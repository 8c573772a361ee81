/** One demangling up to the printing pass: choosing what the string is, reading it, and the
    check that all of it was read. */
module Demangling {
  import opened Wrappers
  import opened Components
  import opened Scanner
  import G = Grammar
  import opened Parser

  datatype Reading = NotMangled | AsType | AsMangled | AsGlobal(kind: SingleKind)

  function ReadingOf(s: string, options: Options): Reading {
    if |s| >= 2 && s[0] == '_' && s[1] == 'Z' then AsMangled
    else if |s| >= 11 && s[..8] == "_GLOBAL_" && (s[8] == '.' || s[8] == '_' || s[8] == '$')
            && (s[9] == 'D' || s[9] == 'I') && s[10] == '_'
    then AsGlobal(if s[9] == 'I' then GlobalConstructors else GlobalDestructors)
    else if options.types then AsType
    else NotMangled
  }

  /** The reading with room for any number of components and substitutions. */
  function Reference(s: string, options: Options): (r: Parse<Comp>)
    requires CString(s)
    ensures Within(Input(s, options), State(0, 0, [], None, None), r, 0, 0)
  {
    hide Started;
    var p := Started(s, options);
    if p.value.Some? && options.params && p.st.n < |s| then Parse(None, p.st) else p
  }

  function Started(s: string, options: Options): (r: Parse<Comp>)
    requires CString(s)
    ensures Within(Input(s, options), State(0, 0, [], None, None), r, 0, 0)
  {
    hide G.Type, G.MangledName, GlobalName;
    var x, st := Input(s, options), State(0, 0, [], None, None);
    match ReadingOf(s, options)
    case NotMangled => Parse(None, st)
    case AsType => G.Type(x, st)
    case AsMangled => G.MangledName(x, st, true)
    case AsGlobal(kind) => GlobalName(x, kind, Advance(st, 11))
  }

  /** What follows the prefix of a global constructor or destructor: a mangled name or
      anything else, taken whole. */
  function GlobalName(x: Input, kind: SingleKind, st: State): (r: Parse<Comp>)
    requires In(x, st)
    ensures Within(x, st, r, -2, 0)
  {
    hide G.Encoding;
    var p := if Peek(x, st) == '_' && PeekNext(x, st) == 'Z' then G.Encoding(x, Advance(st, 2), false)
             else G.MakeName(x.text[st.n..], st);
    var q := G.MakeSingle(kind, p);
    q.(st := q.st.(n := |x.text|))
  }

  /** d_demangle_callback before printing. The arena of 2 * len entries and the table of len
      substitutions never turn a name down: the result is that of the unbounded reading. */
  method ReadName(s: string, options: Options)
    returns (c: Option<Comp>, used: nat, recorded: nat, lost: Option<nat>)
    requires CString(s)
    ensures c == Reference(s, options).value
    ensures used == Reference(s, options).st.made <= 2 * |s|
    ensures recorded == |Reference(s, options).st.subs| <= |s|
    ensures lost == Reference(s, options).st.lost
    ensures lost.Some? ==> Stray(s, lost.value)
  {
    hide G.Type, G.MangledName, GlobalName, ReadingOf;
    var d := new Demangler(Input(s, options));
    match ReadingOf(s, options) {
      case NotMangled => return None, 0, 0, None;
      case AsType => c := d.Type();
      case AsMangled => c := d.MangledName(true);
      case AsGlobal(kind) =>
        AtLeastEleven(s, options);
        c := ReadGlobal(d, kind);
    }
    if c.Some? && options.params && d.PeekChar() != '\0' {
      c := None;
    }
    used, recorded, lost := d.nextComp, d.nextSub, d.lost;
    assert recorded == |d.St().subs|;
  }

  lemma AtLeastEleven(s: string, options: Options)
    requires ReadingOf(s, options).AsGlobal?
    ensures |s| >= 11
  {
  }

  method ReadGlobal(d: Demangler, kind: SingleKind) returns (c: Option<Comp>)
    requires d.Valid() && d.St() == State(0, 0, [], None, None) && |d.x.text| >= 11
    modifies d, d.subs
    ensures d.Valid() && Parse(c, d.St()) == GlobalName(d.x, kind, Advance(old(d.St()), 11))
  {
    hide G.Encoding;
    d.AdvanceBy(11);
    if d.PeekChar() == '_' && d.PeekNextChar() == 'Z' {
      d.AdvanceBy(2);
      c := d.Encoding(false);
    } else {
      c := d.MakeName(d.x.text[d.n..]);
    }
    c := d.MakeSingle(kind, c);
    d.AdvanceBy(|d.x.text| - d.n);
  }
}
