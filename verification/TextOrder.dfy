/** The code-point order in which strings are sorted and compared. */
module TextOrder {

  predicate Less(a: string, b: string)
  {
    b != [] && (a == [] || a[0] < b[0] || (a[0] == b[0] && Less(a[1..], b[1..])))
  }

  /** The texts agree up to `n`, where `a` ends or has the smaller character. */
  predicate DiffersAt(a: string, b: string, n: nat)
  {
    n <= |a| && n < |b| && a[..n] == b[..n] && (n == |a| || a[n] < b[n])
  }

  lemma StartsAgree(a: string, b: string, n: nat)
    ensures DiffersAt(a, b, n) && n > 0 ==> a[0] == b[0]
  {
    if DiffersAt(a, b, n) && n > 0 {
      assert a[..n][0] == b[..n][0];
    }
  }

  lemma DiffersBehind(a: string, b: string, n: nat)
    requires a != "" && b != "" && a[0] == b[0]
    ensures DiffersAt(a, b, n + 1) <==> DiffersAt(a[1..], b[1..], n)
  {
    if n < |a| && n < |b| {
      assert a[..n + 1] == [a[0]] + a[1..][..n] && b[..n + 1] == [b[0]] + b[1..][..n];
      assert a[..n + 1][1..] == a[1..][..n] && b[..n + 1][1..] == b[1..][..n];
    }
  }

  /** The first difference decides, and a text comes before its extensions. */
  lemma {:induction false} LessMeaning(a: string, b: string)
    ensures Less(a, b) <==> exists n: nat :: DiffersAt(a, b, n)
  {
    assert Less(a, b) && (a == "" || a[0] != b[0]) ==> DiffersAt(a, b, 0);
    if n: nat :| DiffersAt(a, b, n) {
      StartsAgree(a, b, n);
      if a != "" && a[0] == b[0] {
        DiffersBehind(a, b, n - 1);
      }
    }
    if a != "" && b != "" && a[0] == b[0] {
      LessMeaning(a[1..], b[1..]);
      if n: nat :| DiffersAt(a[1..], b[1..], n) {
        DiffersBehind(a, b, n);
      }
    }
  }

  lemma {:induction false} LessIrreflexive(a: string)
    ensures !Less(a, a)
  {
    if a != [] {
      LessIrreflexive(a[1..]);
    }
  }

  lemma {:induction false} LessTransitive(a: string, b: string, c: string)
    requires Less(a, b) && Less(b, c)
    ensures Less(a, c)
  {
    if a != [] && a[0] == b[0] == c[0] {
      LessTransitive(a[1..], b[1..], c[1..]);
    }
  }

  /** Exactly one of `a < b`, `a == b` and `b < a` holds. */
  lemma {:induction false} LessTotal(a: string, b: string)
    ensures Less(a, b) || a == b || Less(b, a)
    ensures !(Less(a, b) && Less(b, a))
  {
    if a != [] && b != [] && a[0] == b[0] {
      LessTotal(a[1..], b[1..]);
      assert a == [a[0]] + a[1..] && b == [b[0]] + b[1..];
    }
  }
}
