/** The pieces of the Java platform that Solution relies on: 32-bit `int`
    arithmetic and `java.util.Arrays.deepEquals` / `deepHashCode` applied to
    an array of non-null, non-array elements. */
module JavaRuntime {

  /** The values of a Java `int`. */
  type Int32 = x: int | -0x8000_0000 <= x < 0x8000_0000

  /** Two's-complement wrap-around of Java `int` addition and multiplication:
      the unique `int` congruent to `x` modulo 2^32. */
  function Wrap(x: int): (r: Int32)
    ensures (x - r) % 0x1_0000_0000 == 0
    ensures -0x8000_0000 <= x < 0x8000_0000 ==> r == x
  {
    var m := x % 0x1_0000_0000;
    if m < 0x8000_0000 then m else m - 0x1_0000_0000
  }

  /** `Arrays.deepEquals(a, b)`: the lengths agree, then the elements are
      compared front to back with the elements' own `equals`. */
  function DeepEquals<E>(a: seq<E>, b: seq<E>, eq: (E, E) -> bool): (r: bool)
    ensures r <==> |a| == |b| && forall i :: 0 <= i < |a| ==> eq(a[i], b[i])
    decreases |a|
  {
    if |a| != |b| then false
    else if |a| == 0 then true
    else eq(a[0], b[0]) && DeepEquals(a[1..], b[1..], eq)
  }

  /** `Arrays.deepHashCode(a)`: starting from 1, each element folds in as
      `31 * result + element.hashCode()`, in `int` arithmetic. */
  function DeepHashCode<E>(a: seq<E>, hash: E -> Int32): Int32
    decreases |a|
  {
    if |a| == 0 then 1
    else Wrap(31 * DeepHashCode(a[..|a| - 1], hash) + hash(a[|a| - 1]))
  }

  /** The Java contract between `equals` and `hashCode` for one element type. */
  ghost predicate HashRespects<E(!new)>(eq: (E, E) -> bool, hash: E -> Int32)
  {
    forall x, y :: eq(x, y) ==> hash(x) == hash(y)
  }

  /** Arrays that `deepEquals` calls equal have the same `deepHashCode`,
      provided the elements' `hashCode` agrees with their `equals`. */
  lemma {:induction false} DeepHashCodeRespectsDeepEquals<E(!new)>(
    a: seq<E>, b: seq<E>, eq: (E, E) -> bool, hash: E -> Int32)
    requires HashRespects(eq, hash)
    requires DeepEquals(a, b, eq)
    ensures DeepHashCode(a, hash) == DeepHashCode(b, hash)
    decreases |a|
  {
    if |a| > 0 {
      var n := |a| - 1;
      assert DeepEquals(a[..n], b[..n], eq) by {
        forall i | 0 <= i < n ensures eq(a[..n][i], b[..n][i]) {
          assert eq(a[i], b[i]);
        }
      }
      DeepHashCodeRespectsDeepEquals(a[..n], b[..n], eq, hash);
      assert eq(a[n], b[n]);
    }
  }
}
