/** Where the source goes astray. The length of a name is read as a long and used as an int:
    what comes of every length, and texts on which the conversion changes what is read. A vendor
    operator for two operands stops the model wherever an expression starts with one. */
module Lengths {
  import opened Decimals
  import opened Wrappers
  import opened Components
  import opened Scanner
  import opened Numerals
  import opened Operators
  import opened Mangling
  import opened RoundTrip
  import D = Demangling
  import G = Grammar

  /** Where d_identifier leaves the position, apart from a `$' of Java: it goes on by the
      length, unless that is more than is left. */
  function Landing(text: string, n: int, len: int): int {
    if |text| - n < len then n else n + len
  }

  /** A name is read inside the characters not yet read exactly if its length is no negative
      int; otherwise the position goes back, and there the model stops following the source. */
  lemma GoesBackExactly(x: Input, st: State)
    requires In(x, st) && st.lost.None? && ScanNumber(x, st).num > 0
    ensures var len := ScanNumber(x, st);
      var landing := Landing(x.text, len.st.n, ToInt(len.num));
      var r := G.SourceName(x, st);
      && (ToInt(len.num) < 0 <==> landing < len.st.n)
      && (ToInt(len.num) < 0 <==> r.st.lost.Some?)
      && (r.st.lost.None? ==> landing <= r.st.n <= landing + 1 && r.st.n <= |x.text|)
      && (r.value.Some? ==> 0 < ToInt(len.num) && landing == len.st.n + ToInt(len.num))
  {
  }

  /** The text of a global name with a length that need not be its own. */
  function Labelled(len: nat, rest: string): string {
    "_Z" + Decimal(len) + rest
  }

  lemma LabelledReads(len: nat, rest: string, options: Options)
    requires CString(rest) && (rest == "" || !IsDigit(rest[0]))
    ensures var s := Labelled(len, rest);
      var x, st := Input(s, options), State(2, 0, [], None, None);
      && CString(s) && In(x, st) && ScanNumber(x, st) == Count(len, Advance(st, |Decimal(len)|))
      && IsDigit(Peek(x, st))
      && var p := G.Encoding(x, st, true);
      && (p.value.None? || p.st.n == |s| ==> D.Reference(s, options) == p)
  {
    hide G.Encoding, Decimal;
    var s := Labelled(len, rest);
    var x, st := Input(s, options), State(2, 0, [], None, None);
    assert s[2..2 + |Decimal(len)|] == Decimal(len);
    assert s[2 + |Decimal(len)|..] == rest;
    DecimalRoundTrip(x, st, len);
    assert Peek(x, st) == Decimal(len)[0];
    assert G.MangledName(x, State(0, 0, [], None, None), true) == G.Encoding(x, st, true);
  }

  /** An encoding that starts with a digit starts with a name; when that is missing, or is all
      there is, nothing else is read. */
  lemma FirstName(x: Input, st: State)
    requires In(x, st) && IsDigit(Peek(x, st))
    requires var r := G.SourceName(x, st); r.value.None? || (r.value.value.Name? && r.st.n == |x.text|)
    ensures G.Encoding(x, st, true) == G.SourceName(x, st)
  {
    hide G.SourceName;
    assert G.UnqualifiedName(x, st) == G.SourceName(x, st);
    assert G.NameOf(x, st) == G.SourceName(x, st);
  }

  lemma SourceIsLost(x: Input, st: State, len: nat)
    requires In(x, st) && st.lost.None? && ScanNumber(x, st).num == len && ToInt(len) < 0
    ensures G.SourceName(x, st).value.None? && G.SourceName(x, st).st.lost == Some(st.n)
  {
    hide ScanNumber;
  }

  lemma SourceIsRead(x: Input, st: State, len: nat, id: string)
    requires In(x, st) && st.n <= |x.text| - |id| && x.text[|x.text| - |id|..] == id
    requires ScanNumber(x, st) == Count(len, Advance(st, |x.text| - |id| - st.n))
    requires len > 0 && ToInt(len) == |id| && GoodId(id) && !x.options.java
    ensures var r := G.SourceName(x, st);
      r.value == Some(Name(id)) && r.st.lost == st.lost && r.st.n == |x.text|
  {
    SameAnonymous(id);
    hide ScanNumber, ToInt, G.IsAnonymous, SpellsAnonymous;
    assert x.text[|x.text| - |id|..|x.text|] == id;
  }

  /** The whole text is given up at its first name when the length is negative as an int. */
  lemma NegativeIsLost(len: nat, rest: string, options: Options)
    requires CString(rest) && (rest == "" || !IsDigit(rest[0])) && ToInt(len) < 0
    ensures CString(Labelled(len, rest)) && D.Reference(Labelled(len, rest), options).st.lost == Some(2)
  {
    hide Decimal, ScanNumber, D.Reference, ToInt;
    LabelledReads(len, rest, options);
    var x, st := Input(Labelled(len, rest), options), State(2, 0, [], None, None);
    SourceIsLost(x, st, len);
    FirstName(x, st);
  }

  /** A length too large for an int can turn into the length of what follows: the text is then
      read like the well formed one. */
  lemma WrappedIsRead(len: nat, id: string, options: Options)
    requires GoodId(id) && CString(id) && len > 0 && ToInt(len) == |id| && !options.java
    ensures CString(Labelled(len, id))
    ensures var r := D.Reference(Labelled(len, id), options);
      r.value == Some(Name(id)) && r.st.lost.None? && r.st.n == |Labelled(len, id)|
  {
    hide Decimal, ScanNumber, D.Reference, ToInt, G.IsAnonymous;
    LabelledReads(len, id, options);
    var x, st := Input(Labelled(len, id), options), State(2, 0, [], None, None);
    assert x.text[2 + |Decimal(len)|..] == id;
    SourceIsRead(x, st, len, id);
    FirstName(x, st);
  }

  /** One text of either kind. */
  lemma TooLongForAnInt(options: Options)
    requires !options.java
    ensures CString("_Z2147483648a") && CString("_Z4294967297a")
    ensures D.Reference("_Z2147483648a", options).st.lost == Some(2)
    ensures Landing("_Z2147483648a", 12, ToInt(2147483648)) == 12 - 2147483648
    ensures D.Reference("_Z4294967297a", options).value == Some(Name("a"))
  {
    hide Decimal, D.Reference;
    Spelled2147483648();
    assert Labelled(2147483648, "a") == "_Z2147483648a";
    NegativeIsLost(2147483648, "a", options);
    Spelled4294967297();
    assert Labelled(4294967297, "a") == "_Z4294967297a";
    WrappedIsRead(4294967297, "a", options);
  }

  /** An expression of operators is lost at its first character exactly if that starts a vendor
      operator for two operands whose name can be read; what stands further on is lost there. */
  lemma VendorIsLost(x: Input, st: State)
    requires In(x, st) && st.lost.None?
    ensures G.OperatorExpression(x, st).st.lost == Some(st.n) <==>
      VendorBinary(x.text, st.n) && G.SourceName(x, Advance(st, 2)).value.Some?
    ensures G.OperatorExpression(x, st).st.lost == Some(st.n) ==> G.OperatorExpression(x, st).value.None?
  {
    hide G.SourceName, G.OperatorExpression, CString;
    if VendorBinary(x.text, st.n) && G.SourceName(x, Advance(st, 2)).value.Some? {
      VendorStops(x, st);
    } else {
      OthersGoOn(x, st);
    }
  }

  lemma VendorStops(x: Input, st: State)
    requires In(x, st) && st.lost.None? && VendorBinary(x.text, st.n)
    requires G.SourceName(x, Advance(st, 2)).value.Some?
    ensures G.OperatorExpression(x, st).value.None? && G.OperatorExpression(x, st).st.lost == Some(st.n)
  {
    hide G.SourceName, G.BinaryOperands, FindOperator;
    assert Peek(x, st) == 'v' && PeekNext(x, st) == '2';
    var name := G.SourceName(x, Advance(st, 2));
    assert G.OperatorName(x, st) == Parse(Some(ExtendedOperator(2, name.value.value)), Made(name.st));
  }

  lemma OthersGoOn(x: Input, st: State)
    requires In(x, st) && st.lost.None?
    requires VendorBinary(x.text, st.n) ==> G.SourceName(x, Advance(st, 2)).value.None?
    ensures G.OperatorExpression(x, st).st.lost != Some(st.n)
  {
    hide G.SourceName, G.OperatorName, G.BinaryOperands, G.UnaryOperand, G.TrinaryOperands, G.Type, Stray, CString;
    var op := G.OperatorName(x, st);
    OperatorGoesOn(x, st);
    if VendorBinary(x.text, st.n) {
      NamelessOperator(x, st);
    } else if op.value.Some? && op.value.value.ExtendedOperator? {
      assert op.value.value.arity != 2;
    }
  }

  lemma NamelessOperator(x: Input, st: State)
    requires In(x, st) && VendorBinary(x.text, st.n) && G.SourceName(x, Advance(st, 2)).value.None?
    ensures G.OperatorName(x, st).value.None?
  {
    hide G.SourceName, CString;
    assert Peek(x, st) == 'v' && PeekNext(x, st) == '2';
    assert G.OperatorName(x, st) == G.VendorOperator(x, Advance(st, 2), 2);
  }

  /** What an operator's name loses stands behind its first character. */
  lemma OperatorGoesOn(x: Input, st: State)
    requires In(x, st) && st.lost.None?
    ensures var op := G.OperatorName(x, st);
      op.st.lost.Some? ==> op.st.lost.value > st.n
  {
    hide G.SourceName, FindOperator, G.Type, Stray, CString;
  }

  /** A type that names an expression with such an operator. */
  lemma VendorText(options: Options)
    requires options.types && !options.java
    ensures CString("Dtv21a") && D.Reference("Dtv21a", options).st.lost == Some(2)
  {
    hide G.OperatorExpression, D.Reference, G.SourceName;
    var x, st := Input("Dtv21a", options), State(2, 0, [], None, None);
    assert x.text[2] == 'v' && x.text[3] == '2';
    OneLetter(x, Advance(st, 2));
    VendorIsLost(x, st);
    DecltypeFirst(x, st, options);
  }

  lemma OneLetter(x: Input, st: State)
    requires In(x, st) && x.text[st.n..] == "1a" && !x.options.java
    ensures G.SourceName(x, st).value == Some(Name("a"))
  {
    assert x.text[st.n] == x.text[st.n..][0] && x.text[st.n + 1] == x.text[st.n..][1];
    assert Digits(x, Advance(st, 1), 1) == Count(1, Advance(st, 1));
    assert x.text[st.n + 1..st.n + 2] == "a";
  }

  lemma DecltypeFirst(x: Input, st: State, options: Options)
    requires x == Input("Dtv21a", options) && st == State(2, 0, [], None, None) && options.types && In(x, st)
    requires G.OperatorExpression(x, st).st.lost == Some(2) && G.OperatorExpression(x, st).value.None?
    ensures D.Reference(x.text, options).st.lost == Some(2)
  {
    hide G.OperatorExpression;
    assert G.Expression(x, st) == G.OperatorExpression(x, st);
    assert G.ExtendedType(x, State(0, 0, [], None, None)) == G.DecltypeOf(x, st);
    assert G.Type(x, State(0, 0, [], None, None)).st.lost == Some(2);
  }

  lemma DecimalMore(k: nat, d: nat)
    requires k > 0 && d < 10
    ensures Decimal(k * 10 + d) == Decimal(k) + [DecimalDigit(d)]
  {
  }

  lemma Spelled2147483648()
    ensures Decimal(2147483648) == "2147483648"
  {
    hide Decimal;
    DecimalFirst(2);
    DecimalMore(2, 1);
    DecimalMore(21, 4);
    DecimalMore(214, 7);
    DecimalMore(2147, 4);
    DecimalMore(21474, 8);
    DecimalMore(214748, 3);
    DecimalMore(2147483, 6);
    DecimalMore(21474836, 4);
    DecimalMore(214748364, 8);
  }

  lemma Spelled4294967297()
    ensures Decimal(4294967297) == "4294967297"
  {
    hide Decimal;
    DecimalFirst(4);
    DecimalMore(4, 2);
    DecimalMore(42, 9);
    DecimalMore(429, 4);
    DecimalMore(4294, 9);
    DecimalMore(42949, 6);
    DecimalMore(429496, 7);
    DecimalMore(4294967, 2);
    DecimalMore(42949672, 9);
    DecimalMore(429496729, 7);
  }

  lemma DecimalFirst(d: nat)
    requires d < 10
    ensures Decimal(d) == [DecimalDigit(d)]
  {
  }
}
