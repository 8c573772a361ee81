/** Searching a range of addresses once around, from a hashed start. */
module Ring {
  import opened Wrappers

  /** A range of addresses of a machine word of the given size, smaller than the word. */
  datatype Range = Range(first: nat, last: nat, word: nat)

  predicate Proper(r: Range) {
    r.first <= r.last < r.word && r.last - r.first + 1 < r.word
  }

  function Size(r: Range): nat
    requires Proper(r)
  {
    r.last - r.first + 1
  }

  predicate Inside(r: Range, a: nat) {
    r.first <= a <= r.last
  }

  /** The start for a hash value; the remainder is by the size of the range. */
  function Start(r: Range, hash: nat): (a: nat)
    requires Proper(r)
    ensures Inside(r, a)
  {
    r.first + hash % Size(r)
  }

  /** One more, in arithmetic of the word. */
  function Up(a: nat, word: nat): nat
    requires a < word
  {
    if a + 1 == word then 0 else a + 1
  }

  /** The address tried after a. */
  function Next(r: Range, a: nat): (b: nat)
    requires Proper(r) && Inside(r, a)
    ensures Inside(r, b)
  {
    if Up(a, r.word) == Up(r.last, r.word) then r.first else Up(a, r.word)
  }

  /** The k-th address tried. */
  function Nth(r: Range, start: nat, k: nat): (a: nat)
    requires Proper(r) && Inside(r, start)
    ensures Inside(r, a)
  {
    var i := start - r.first + k;
    r.first + i % Size(r)
  }

  lemma NthNext(r: Range, start: nat, k: nat)
    requires Proper(r) && Inside(r, start)
    ensures Nth(r, start, 0) == start
    ensures Nth(r, start, k + 1) == Next(r, Nth(r, start, k))
  {
    var n, i := Size(r), start - r.first + k;
    ModUnique(start - r.first, n, 0, start - r.first);
    ModStep(i, n);
  }

  lemma ModStep(i: nat, n: nat)
    requires n > 0
    ensures (i + 1) % n == if i % n == n - 1 then 0 else i % n + 1
  {
    var q, m := i / n, i % n;
    assert i == q * n + m;
    if m == n - 1 {
      assert i + 1 == (q + 1) * n;
      ModUnique(i + 1, n, q + 1, 0);
    } else {
      ModUnique(i + 1, n, q, m + 1);
    }
  }

  lemma AtLeast(d: nat, n: nat)
    requires d >= 1
    ensures d * n >= n
  {
  }

  lemma AtMost(d: int, n: int)
    requires d <= -1 && n >= 0
    ensures d * n <= -n
  {
  }

  lemma NoMultiple(d: int, n: int, e: int)
    requires d * n == e && -n < e < n
    ensures d == 0
  {
    if d >= 1 {
      AtLeast(d, n);
    } else if d <= -1 {
      AtMost(d, n);
    }
  }

  lemma ModUnique(x: nat, n: nat, q: nat, m: nat)
    requires x == q * n + m && m < n
    ensures x % n == m
  {
    assert x == x / n * n + x % n;
    assert (x / n - q) * n == m - x % n;
    NoMultiple(x / n - q, n, m - x % n);
  }

  /** Once around: the addresses of the first Size tries are all different and are all the
      addresses of the range; the try after them is the first again. */
  lemma OnceAround(r: Range, start: nat)
    requires Proper(r) && Inside(r, start)
    ensures forall i, j :: 0 <= i < j < Size(r) ==> Nth(r, start, i) != Nth(r, start, j)
    ensures forall a: nat :: Inside(r, a) ==> exists k :: 0 <= k < Size(r) && Nth(r, start, k) == a
    ensures Nth(r, start, Size(r)) == start
    ensures forall k :: 0 < k < Size(r) ==> Nth(r, start, k) != start
  {
    var n, o := Size(r), start - r.first;
    forall k | 0 <= k <= n
      ensures Nth(r, start, k) == r.first + (if o + k < n then o + k else o + k - n)
    {
      if o + k < n {
        ModUnique(o + k, n, 0, o + k);
      } else {
        ModUnique(o + k, n, 1, o + k - n);
      }
    }
    forall a: nat | Inside(r, a)
      ensures exists k :: 0 <= k < n && Nth(r, start, k) == a
    {
      var k: nat := if a >= start then a - start else a - start + n;
      assert Nth(r, start, k) == a;
    }
  }

  // ----- the search -----

  /** What becomes of an address that is tried. */
  datatype Verdict = Blocked | Busy | Free

  /** The first free address from the k-th try on, and how many were found busy before. */
  datatype Search = Search(found: Option<nat>, busy: nat)

  function SearchFrom(r: Range, start: nat, k: nat, judge: nat -> Verdict): (s: Search)
    requires Proper(r) && Inside(r, start) && k <= Size(r)
    decreases Size(r) - k
  {
    if k == Size(r) then Search(None, 0) else
    match judge(Nth(r, start, k))
    case Free => Search(Some(Nth(r, start, k)), 0)
    case Busy => (var s := SearchFrom(r, start, k + 1, judge); Search(s.found, s.busy + 1))
    case Blocked => SearchFrom(r, start, k + 1, judge)
  }

  lemma {:induction false} SearchIs(r: Range, start: nat, k: nat, judge: nat -> Verdict)
    requires Proper(r) && Inside(r, start) && k <= Size(r)
    ensures var s := SearchFrom(r, start, k, judge);
      && (s.found.None? ==> forall i :: k <= i < Size(r) ==> judge(Nth(r, start, i)) != Free)
      && (s.found.Some? ==>
            exists i :: k <= i < Size(r) && s.found.value == Nth(r, start, i) && judge(s.found.value) == Free
                        && forall j :: k <= j < i ==> judge(Nth(r, start, j)) != Free)
    decreases Size(r) - k
  {
    hide Nth;
    if k < Size(r) && judge(Nth(r, start, k)) != Free {
      SearchIs(r, start, k + 1, judge);
    }
  }

  /** The search finds a free address of the range exactly if there is one. */
  lemma SearchComplete(r: Range, start: nat, judge: nat -> Verdict)
    requires Proper(r) && Inside(r, start)
    ensures var s := SearchFrom(r, start, 0, judge);
      && (s.found.Some? ==> Inside(r, s.found.value) && judge(s.found.value) == Free)
      && (s.found.None? <==> forall a: nat :: Inside(r, a) ==> judge(a) != Free)
  {
    hide Nth;
    SearchIs(r, start, 0, judge);
    OnceAround(r, start);
  }
}
