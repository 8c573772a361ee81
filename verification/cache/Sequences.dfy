/** Sequences without repetition, as used for the lists that thread through the cache records. */
module Sequences {

  ghost predicate Distinct<T>(q: seq<T>) {
    forall i, j :: 0 <= i < j < |q| ==> q[i] != q[j]
  }

  /** Takes out the element at position `k`. */
  function RemoveAt<T>(q: seq<T>, k: nat): (r: seq<T>)
    requires k < |q|
    ensures |r| == |q| - 1
    ensures forall i :: 0 <= i < k ==> r[i] == q[i]
    ensures forall i :: k <= i < |r| ==> r[i] == q[i + 1]
  {
    q[..k] + q[k + 1..]
  }

  /** Puts `x` in front of the element at position `k`. */
  function InsertAt<T>(q: seq<T>, k: nat, x: T): (r: seq<T>)
    requires k <= |q|
    ensures |r| == |q| + 1
    ensures r[k] == x
    ensures forall i :: 0 <= i < k ==> r[i] == q[i]
    ensures forall i :: k < i < |r| ==> r[i] == q[i - 1]
  {
    q[..k] + [x] + q[k..]
  }

  function IndexOf<T(==)>(q: seq<T>, x: T): (k: nat)
    requires x in q
    ensures k < |q| && q[k] == x
    ensures x !in q[..k]
  {
    if q[0] == x then 0 else 1 + IndexOf(q[1..], x)
  }

  /** Takes out the first `x`, if there is one. */
  function Without<T(==)>(q: seq<T>, x: T): seq<T> {
    if x in q then RemoveAt(q, IndexOf(q, x)) else q
  }

  function Reversed<T>(q: seq<T>): (r: seq<T>)
    ensures |r| == |q|
  {
    if q == [] then [] else Reversed(q[1..]) + [q[0]]
  }

  lemma RemoveAtElements<T>(q: seq<T>, k: nat)
    requires k < |q| && Distinct(q)
    ensures Distinct(RemoveAt(q, k))
    ensures forall y :: y in RemoveAt(q, k) <==> y in q && y != q[k]
  {
    var r := RemoveAt(q, k);
    forall y | y in q && y != q[k]
      ensures y in r
    {
      var i :| 0 <= i < |q| && q[i] == y;
      assert r[if i < k then i else i - 1] == y;
    }
    forall y | y in r
      ensures y in q && y != q[k]
    {
      var i :| 0 <= i < |r| && r[i] == y;
      assert q[if i < k then i else i + 1] == y;
    }
  }

  lemma InsertAtElements<T>(q: seq<T>, k: nat, x: T)
    requires k <= |q| && Distinct(q) && x !in q
    ensures Distinct(InsertAt(q, k, x))
    ensures forall y :: y in InsertAt(q, k, x) <==> y in q || y == x
  {
    var r := InsertAt(q, k, x);
    forall y | y in q
      ensures y in r
    {
      var i :| 0 <= i < |q| && q[i] == y;
      assert r[if i < k then i else i + 1] == y;
    }
    forall y | y in r
      ensures y in q || y == x
    {
      var i :| 0 <= i < |r| && r[i] == y;
      assert i == k || q[if i < k then i else i - 1] == y;
    }
  }

  lemma WithoutElements<T>(q: seq<T>, x: T)
    requires Distinct(q)
    ensures Distinct(Without(q, x))
    ensures forall y :: y in Without(q, x) <==> y in q && y != x
  {
    if x in q {
      RemoveAtElements(q, IndexOf(q, x));
    }
  }

  lemma ConsElements<T>(q: seq<T>, x: T)
    requires Distinct(q) && x !in q
    ensures Distinct([x] + q)
    ensures forall y :: y in [x] + q <==> y in q || y == x
  {
  }

  lemma SnocElements<T>(q: seq<T>, x: T)
    requires Distinct(q) && x !in q
    ensures Distinct(q + [x])
    ensures forall y :: y in q + [x] <==> y in q || y == x
  {
  }
}
