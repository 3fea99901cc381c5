/** Code-point order on strings, the order sorted() gives file names. */
module Lexicographic {

  predicate LexLeq(a: string, b: string) {
    a == [] || (b != [] && (a[0] < b[0] || (a[0] == b[0] && LexLeq(a[1..], b[1..]))))
  }

  predicate LexLess(a: string, b: string) {
    LexLeq(a, b) && a != b
  }

  lemma {:induction false} LexTotal(a: string, b: string)
    ensures LexLeq(a, b) || LexLeq(b, a)
  {
    if a != [] && b != [] {
      LexTotal(a[1..], b[1..]);
    }
  }

  lemma {:induction false} LexAntisymmetric(a: string, b: string)
    requires LexLeq(a, b) && LexLeq(b, a)
    ensures a == b
  {
    if a != [] {
      LexAntisymmetric(a[1..], b[1..]);
      assert a == [a[0]] + a[1..] && b == [b[0]] + b[1..];
    }
  }

  lemma {:induction false} LexTransitive(a: string, b: string, c: string)
    requires LexLeq(a, b) && LexLeq(b, c)
    ensures LexLeq(a, c)
  {
    if a != [] && a[0] == b[0] == c[0] {
      LexTransitive(a[1..], b[1..], c[1..]);
    }
  }

  lemma LexLessTransitive(a: string, b: string, c: string)
    requires LexLess(a, b) && LexLess(b, c)
    ensures LexLess(a, c)
  {
    LexTransitive(a, b, c);
    if a == c {
      LexAntisymmetric(a, b);
    }
  }

  /** The strings agree up to k, where a ends or has the smaller character. */
  predicate LessAt(a: string, b: string, k: int) {
    && 0 <= k <= |a| && k < |b| && a[..k] == b[..k]
    && (k == |a| || a[k] < b[k])
  }

  lemma SameFirst(a: string, b: string, k: int)
    requires LessAt(a, b, k) && k > 0
    ensures a != [] && b != [] && a[0] == b[0]
  {
    assert a[0] == a[..k][0] == b[..k][0] == b[0];
  }

  /** A string comes before another exactly when it does at the first place where they differ. */
  lemma {:induction false} LexMeaning(a: string, b: string)
    ensures LexLess(a, b) <==> exists k :: LessAt(a, b, k)
  {
    if a == [] || b == [] || a[0] != b[0] {
      if LexLess(a, b) {
        assert LessAt(a, b, 0);
      }
      if k :| LessAt(a, b, k) {
        if k > 0 {
          SameFirst(a, b, k);
        }
      }
    } else {
      LexMeaning(a[1..], b[1..]);
      assert a == [a[0]] + a[1..] && b == [b[0]] + b[1..];
      if k :| LessAt(a[1..], b[1..], k) {
        assert a[..k + 1] == [a[0]] + a[1..][..k] && b[..k + 1] == [b[0]] + b[1..][..k];
        assert LessAt(a, b, k + 1);
      }
      if k :| LessAt(a, b, k) {
        if k > 0 {
          assert a[1..][..k - 1] == a[..k][1..] && b[1..][..k - 1] == b[..k][1..];
          assert LessAt(a[1..], b[1..], k - 1);
        }
      }
    }
  }
}
