/** SQL value semantics the warehouse models rely on: NULL, NULL-propagating
 *  addition, COALESCE, the aggregates SUM, AVG, MIN and MAX (which skip NULLs
 *  and yield NULL when every input is NULL), and the null-extended side of a
 *  LEFT JOIN. */
module Sql {

  /** A nullable column value. */
  datatype Option<+T> = None | Some(value: T)

  /** `COALESCE(x, d)`. */
  function Coalesce<T>(x: Option<T>, d: T): (r: T)
    ensures x.Some? ==> r == x.value
    ensures x.None? ==> r == d
  {
    if x.Some? then x.value else d
  }

  /** `a + b` over nullable numbers: NULL as soon as one operand is NULL. */
  function Add(a: Option<int>, b: Option<int>): (r: Option<int>)
    ensures r.None? <==> a.None? || b.None?
    ensures r.Some? ==> r.value == a.value + b.value
  {
    if a.Some? && b.Some? then Some(a.value + b.value) else None
  }

  /** The non-NULL values of a column, in row order. */
  function Values(xs: seq<Option<int>>): (vs: seq<int>)
    ensures |vs| <= |xs|
    ensures vs == [] <==> forall i | 0 <= i < |xs| :: xs[i].None?
  {
    if xs == [] then []
    else (if xs[0].Some? then [xs[0].value] else []) + Values(xs[1..])
  }

  /** Arithmetic sum of a list of numbers. */
  function Total(vs: seq<int>): int {
    if vs == [] then 0 else vs[0] + Total(vs[1..])
  }

  lemma {:induction false} ValuesAppend(a: seq<Option<int>>, b: seq<Option<int>>)
    ensures Values(a + b) == Values(a) + Values(b)
  {
    if a == [] {
      assert a + b == b;
    } else {
      assert (a + b)[0] == a[0];
      assert (a + b)[1..] == a[1..] + b;
      ValuesAppend(a[1..], b);
    }
  }

  lemma {:induction false} TotalAppend(a: seq<int>, b: seq<int>)
    ensures Total(a + b) == Total(a) + Total(b)
  {
    if a == [] {
      assert a + b == b;
    } else {
      assert (a + b)[0] == a[0];
      assert (a + b)[1..] == a[1..] + b;
      TotalAppend(a[1..], b);
    }
  }

  /** `SUM(x)`: the total of the non-NULL values, NULL when there are none. */
  function Sum(xs: seq<Option<int>>): (r: Option<int>)
    ensures r.None? <==> forall i | 0 <= i < |xs| :: xs[i].None?
    ensures Coalesce(r, 0) == Total(Values(xs))
  {
    var vs := Values(xs);
    if vs == [] then None else Some(Total(vs))
  }

  /** `AVG(x)`: the mean of the non-NULL values, NULL when there are none. */
  function Avg(xs: seq<Option<int>>): (r: Option<real>)
    ensures r.None? <==> Sum(xs).None?
    ensures r.Some? ==> r.value * (|Values(xs)| as real) == Total(Values(xs)) as real
  {
    var vs := Values(xs);
    if vs == [] then None else Some(Total(vs) as real / |vs| as real)
  }

  /** `MIN(x)`: the least non-NULL value, NULL when there is none. */
  function Min(xs: seq<Option<int>>): (r: Option<int>)
    ensures r.None? <==> forall i | 0 <= i < |xs| :: xs[i].None?
    ensures r.Some? ==> exists i | 0 <= i < |xs| :: xs[i] == r
    ensures r.Some? ==> forall i | 0 <= i < |xs| && xs[i].Some? :: r.value <= xs[i].value
  {
    if xs == [] then None
    else
      var m := Min(xs[1..]);
      assert forall i | 1 <= i < |xs| :: xs[i] == xs[1..][i - 1];
      if xs[0].None? then m
      else if m.None? || xs[0].value <= m.value then xs[0]
      else m
  }

  /** `MAX(x)`: the greatest non-NULL value, NULL when there is none. */
  function Max(xs: seq<Option<int>>): (r: Option<int>)
    ensures r.None? <==> forall i | 0 <= i < |xs| :: xs[i].None?
    ensures r.Some? ==> exists i | 0 <= i < |xs| :: xs[i] == r
    ensures r.Some? ==> forall i | 0 <= i < |xs| && xs[i].Some? :: xs[i].value <= r.value
  {
    if xs == [] then None
    else
      var m := Max(xs[1..]);
      assert forall i | 1 <= i < |xs| :: xs[i] == xs[1..][i - 1];
      if xs[0].None? then m
      else if m.None? || m.value <= xs[0].value then xs[0]
      else m
  }

  /** Over the same column, MIN never exceeds MAX, and both are NULL together. */
  lemma MinAtMostMax(xs: seq<Option<int>>)
    ensures Min(xs).Some? <==> Max(xs).Some?
    ensures Min(xs).Some? ==> Min(xs).value <= Max(xs).value
  {
  }

  /** Wraps every row as a present (non-NULL) row. */
  function Somes<T>(xs: seq<T>): (r: seq<Option<T>>)
    ensures |r| == |xs|
    ensures forall k | 0 <= k < |xs| :: r[k] == Some(xs[k])
  {
    if xs == [] then [] else [Some(xs[0])] + Somes(xs[1..])
  }

  /** The right-hand side of a LEFT JOIN for one left row: every matching row,
   *  or a single all-NULL row when nothing matches. */
  function NullExtended<T>(matches: seq<T>): (r: seq<Option<T>>)
    ensures |r| == if matches == [] then 1 else |matches|
    ensures r[0].None? <==> matches == []
    ensures forall k | 0 <= k < |matches| :: r[k] == Some(matches[k])
  {
    if matches == [] then [None] else Somes(matches)
  }
}
