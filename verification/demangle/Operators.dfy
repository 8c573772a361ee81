/** The operator table of the demangler and its binary search. */
module Operators {
  import opened Wrappers
  import opened Components

  const OPERATORS: nat := 52

  /** Entry i of the table: its two letter code and its number of operands. */
  function Code(i: nat): (code: string)
    ensures |code| == 2 && '\0' !in code
  {
    if i < 26 then
      if i < 13 then
        if i < 6 then
          if i < 3 then (if i == 0 then "aN" else if i == 1 then "aS" else "aa")
          else (if i == 3 then "ad" else if i == 4 then "an" else "cl")
        else if i < 9 then (if i == 6 then "cm" else if i == 7 then "co" else "dV")
        else (if i == 9 then "da" else if i == 10 then "de" else if i == 11 then "dl" else "dt")
      else if i < 19 then
        if i < 16 then (if i == 13 then "dv" else if i == 14 then "eO" else "eo")
        else (if i == 16 then "eq" else if i == 17 then "ge" else "gt")
      else if i < 22 then (if i == 19 then "ix" else if i == 20 then "lS" else "le")
      else (if i == 22 then "ls" else if i == 23 then "lt" else if i == 24 then "mI" else "mL")
    else if i < 39 then
      if i < 32 then
        if i < 29 then (if i == 26 then "mi" else if i == 27 then "ml" else "mm")
        else (if i == 29 then "na" else if i == 30 then "ne" else "ng")
      else if i < 35 then (if i == 32 then "nt" else if i == 33 then "nw" else "oR")
      else (if i == 35 then "oo" else if i == 36 then "or" else if i == 37 then "pL" else "pl")
    else if i < 46 then
      if i < 42 then (if i == 39 then "pm" else if i == 40 then "pp" else "ps")
      else (if i == 42 then "pt" else if i == 43 then "qu" else if i == 44 then "rM" else "rS")
    else if i < 49 then (if i == 46 then "rm" else if i == 47 then "rs" else "st")
    else (if i == 49 then "sz" else if i == 50 then "at" else "az")
  }

  function Arity(i: nat): nat {
    if i in {3, 7, 9, 10, 11, 28, 29, 31, 32, 33, 40, 41, 48, 49, 50, 51} then 1
    else if i == 43 then 3
    else 2
  }

  /** Code c1 c2 comes before code d in the search's order. */
  predicate Before(c1: char, c2: char, d: string)
    requires |d| == 2
  {
    c1 < d[0] || (c1 == d[0] && c2 < d[1])
  }

  function FindOperator(c1: char, c2: char, low: nat, high: nat): (r: Option<nat>)
    requires low < high <= OPERATORS
    ensures r.Some? ==> r.value < OPERATORS && Code(r.value) == [c1, c2]
    decreases high - low
  {
    hide Code;
    var i := low + (high - low) / 2;
    if c1 == Code(i)[0] && c2 == Code(i)[1] then Some(i)
    else
      var low', high' := if Before(c1, c2, Code(i)) then low else i + 1, if Before(c1, c2, Code(i)) then i else high;
      if low' == high' then None else FindOperator(c1, c2, low', high')
  }

  // ----- what the search finds -----

  /** Entries before this one are in order; the two after it are not. */
  const SORTED: nat := 50

  predicate Less(c: string, d: string)
    requires |c| == |d| == 2
  {
    Before(c[0], c[1], d)
  }

  lemma Adjacent(i: nat)
    requires i + 1 < SORTED
    ensures Less(Code(i), Code(i + 1))
  {
  }

  lemma {:induction false} Ordered(i: nat, j: nat)
    requires i < j < SORTED
    ensures Less(Code(i), Code(j))
    decreases j
  {
    hide Code;
    Adjacent(j - 1);
    if i < j - 1 {
      Ordered(i, j - 1);
    }
  }

  /** The ranges the search can reach that still contain the unsorted end. */
  predicate Reached(low: nat, high: nat) {
    low < high && (high <= SORTED || (high == OPERATORS && low in {0, 27, 40, 47}))
  }

  lemma {:induction false} SearchFinds(k: nat, low: nat, high: nat)
    requires Reached(low, high) && low <= k < high && k < SORTED
    ensures FindOperator(Code(k)[0], Code(k)[1], low, high) == Some(k)
    decreases high - low
  {
    hide Code;
    var i := low + (high - low) / 2;
    if k < i {
      Ordered(k, i);
      SearchFinds(k, low, i);
    } else if i < k {
      Ordered(i, k);
      SearchFinds(k, i + 1, high);
    } else {
      assert Code(i) == [Code(k)[0], Code(k)[1]];
    }
  }

  lemma {:induction false} FoundIsSorted(c1: char, c2: char, low: nat, high: nat)
    requires low < high <= SORTED
    ensures FindOperator(c1, c2, low, high).Some? ==> FindOperator(c1, c2, low, high).value < SORTED
    decreases high - low
  {
    hide Code, Before;
    var i := low + (high - low) / 2;
    if low < i {
      FoundIsSorted(c1, c2, low, i);
    }
    if i + 1 < high {
      FoundIsSorted(c1, c2, i + 1, high);
    }
  }

  /** The search finds exactly the first 50 operators. The two spellings of alignof, which
      come last, are never found, although they are in the table. */
  lemma OperatorFound(c1: char, c2: char, k: nat)
    requires k < OPERATORS
    ensures FindOperator(c1, c2, 0, OPERATORS) == Some(k) <==> k < SORTED && Code(k) == [c1, c2]
  {
    if k < SORTED && Code(k) == [c1, c2] {
      SearchFinds(k, 0, OPERATORS);
    } else if SORTED <= k && Code(k) == [c1, c2] {
      assert Code(26) == "mi";
      FoundIsSorted(c1, c2, 0, 26);
      hide Code;
      assert FindOperator(c1, c2, 0, OPERATORS) == FindOperator(c1, c2, 0, 26);
    }
  }
}
