/** The one property of `java.util.HashMap` iteration the model relies on: `keySet()`
    visits every key exactly once, in an order nothing else determines. */
module JavaUtil {

  /** `xs` lists the elements of `s`, each exactly once. */
  predicate Enumerates<T(==)>(xs: seq<T>, s: set<T>) {
    && (forall i, j | 0 <= i < j < |xs| :: xs[i] != xs[j])
    && (forall i | 0 <= i < |xs| :: xs[i] in s)
    && (forall x | x in s :: x in xs)
  }
}
