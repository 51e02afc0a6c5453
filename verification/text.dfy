/** Strings compared the way pandas orders text keys: by code point, shorter prefix first. */
module Text {
  predicate LexLess(a: string, b: string)
    decreases |a|
  {
    if a == [] then b != []
    else if b == [] then false
    else if a[0] != b[0] then a[0] < b[0]
    else LexLess(a[1..], b[1..])
  }

  lemma LexLessIrreflexive(a: string)
    ensures !LexLess(a, a)
  {
    if a != [] {
      LexLessIrreflexive(a[1..]);
    }
  }

  lemma LexLessAsymmetric(a: string, b: string)
    requires LexLess(a, b)
    ensures !LexLess(b, a)
  {
    if a != [] && b != [] && a[0] == b[0] {
      LexLessAsymmetric(a[1..], b[1..]);
    }
  }

  lemma LexLessTransitive(a: string, b: string, c: string)
    requires LexLess(a, b) && LexLess(b, c)
    ensures LexLess(a, c)
  {
    if a != [] && a[0] == b[0] && b[0] == c[0] {
      LexLessTransitive(a[1..], b[1..], c[1..]);
    }
  }

  /** Names listed in increasing order, neighbour by neighbour. */
  predicate Ascending(ns: seq<string>) {
    forall k :: 0 <= k < |ns| - 1 ==> LexLess(ns[k], ns[k + 1])
  }

  /**
   * In a list ascending neighbour by neighbour, position order is string
   * order: the earlier name is smaller, and it differs from every later one.
   */
  lemma {:induction false} AscendingOrder(ns: seq<string>, i: int, j: int)
    requires Ascending(ns)
    requires 0 <= i < |ns| && 0 <= j < |ns|
    ensures i < j <==> LexLess(ns[i], ns[j])
    ensures i == j <==> ns[i] == ns[j]
    decreases if i < j then j - i else i - j
  {
    if i + 1 < j {
      AscendingOrder(ns, i, j - 1);
      LexLessTransitive(ns[i], ns[j - 1], ns[j]);
    } else if j + 1 < i {
      AscendingOrder(ns, j, i - 1);
      LexLessTransitive(ns[j], ns[i - 1], ns[i]);
    }
    if i < j {
      LexLessAsymmetric(ns[i], ns[j]);
      assert ns[i] != ns[j] by { LexLessIrreflexive(ns[i]); }
    } else if j < i {
      assert LexLess(ns[j], ns[i]);
      LexLessAsymmetric(ns[j], ns[i]);
      assert ns[i] != ns[j] by { LexLessIrreflexive(ns[j]); }
    } else {
      LexLessIrreflexive(ns[i]);
    }
  }
}
