/** Value-level stand-ins for the Java types the plugin works with. */
module JavaTypes {

  /** A Java reference that may be null: `None` is `null`. */
  datatype Option<+T> = None | Some(value: T)

  const INT32_MIN: int := -0x8000_0000
  const INT32_MAX: int := 0x7fff_ffff

  /** Java's 32-bit `int`. */
  type int32 = x: int | INT32_MIN <= x <= INT32_MAX

  /** Java's `x + 1` on an `int`: wraps from Integer.MAX_VALUE to Integer.MIN_VALUE. */
  function AddOne(x: int32): (r: int32)
    ensures x < INT32_MAX ==> r == x + 1
    ensures x == INT32_MAX ==> r == INT32_MIN
    ensures r != x
  {
    if x == INT32_MAX then INT32_MIN else x + 1
  }

  /** True when `order` lists every element of `s` exactly once (a HashSet's iteration order). */
  ghost predicate Enumerates<T>(order: seq<T>, s: set<T>) {
    && (forall i, j :: 0 <= i < j < |order| ==> order[i] != order[j])
    && (forall i :: 0 <= i < |order| ==> order[i] in s)
    && (forall x :: x in s ==> x in order)
  }

  /** An enumeration of a set has exactly as many entries as the set. */
  lemma {:induction false} EnumerationLength<T>(order: seq<T>, s: set<T>)
    requires Enumerates(order, s)
    ensures |order| == |s|
  {
    if |order| > 0 {
      var x := order[|order| - 1];
      var rest := order[..|order| - 1];
      assert Enumerates(rest, s - {x}) by {
        forall y | y in s - {x} ensures y in rest {
          var k :| 0 <= k < |order| && order[k] == y;
          assert k != |order| - 1;
          assert rest[k] == y;
        }
      }
      EnumerationLength(rest, s - {x});
    }
  }

  /** Picks the elements of a set one at a time, as iterating a Java HashSet does. */
  method SetToSequence<T>(s: set<T>) returns (order: seq<T>)
    ensures Enumerates(order, s)
  {
    order := [];
    var rest := s;
    while rest != {}
      invariant rest <= s
      invariant forall i, j :: 0 <= i < j < |order| ==> order[i] != order[j]
      invariant forall x :: x in s <==> x in order || x in rest
      invariant forall x :: x in order ==> x !in rest
      decreases rest
    {
      var x :| x in rest;
      order := order + [x];
      rest := rest - {x};
    }
  }
}
