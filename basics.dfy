/** Option and Result datatypes used throughout the model. */
module Wrappers {

  /** A value that may be absent: a numeric cutoff that pandas coerced to NaN,
      a branch that did not resolve, a rank bound the user did not supply. */
  datatype Option<+T> = None | Some(value: T)

  /** A computation that either succeeds or raises. */
  datatype Result<+T, +E> = Ok(value: T) | Err(error: E)
}

/** Facts about sequences without repeated elements. */
module Collections {

  predicate NoDuplicates<T(==)>(s: seq<T>) {
    forall i, j :: 0 <= i < j < |s| ==> s[i] != s[j]
  }

  /** The two sequences have no element in common. */
  predicate Disjoint<T(==)>(a: seq<T>, b: seq<T>) {
    forall x :: x in a ==> x !in b
  }

  /** Concatenating two duplicate-free sequences with no common element
      yields a duplicate-free sequence, and only then. */
  lemma NoDuplicatesConcat<T>(a: seq<T>, b: seq<T>)
    ensures NoDuplicates(a + b) <==> NoDuplicates(a) && NoDuplicates(b) && Disjoint(a, b)
  {
    if NoDuplicates(a) && NoDuplicates(b) && Disjoint(a, b) {
      forall i, j | 0 <= i < j < |a + b| ensures (a + b)[i] != (a + b)[j] {
        if j >= |a| && i < |a| {
          assert (a + b)[i] in a;
          assert (a + b)[j] == b[j - |a|];
        }
      }
    }
    if NoDuplicates(a + b) {
      forall i, j | 0 <= i < j < |a| ensures a[i] != a[j] {
        assert a[i] == (a + b)[i] && a[j] == (a + b)[j];
      }
      forall i, j | 0 <= i < j < |b| ensures b[i] != b[j] {
        assert b[i] == (a + b)[|a| + i] && b[j] == (a + b)[|a| + j];
      }
      forall i, j | 0 <= i < |a| && 0 <= j < |b| ensures a[i] != b[j] {
        assert a[i] == (a + b)[i] && b[j] == (a + b)[|a| + j];
      }
    }
  }
}
