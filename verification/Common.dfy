/** Definitions shared by the models. */
module Common {

  datatype Option<+T> = None | Some(value: T)

  /** The sequence without the first occurrence of x. */
  function Without<T(==)>(q: seq<T>, x: T): seq<T> {
    if q == [] then []
    else if q[0] == x then q[1..]
    else [q[0]] + Without(q[1..], x)
  }

  lemma {:induction false} WithoutAt<T>(q: seq<T>, x: T, k: nat)
    requires k < |q| && q[k] == x && x !in q[..k]
    ensures Without(q, x) == q[..k] + q[k + 1..]
  {
    if k > 0 {
      assert q[0] in q[..k];
      assert q[..k][1..] == q[1..][..k - 1];
      WithoutAt(q[1..], x, k - 1);
      assert q[..k] == [q[0]] + q[1..][..k - 1];
    }
  }

  lemma {:induction false} FirstIndex<T>(q: seq<T>, x: T) returns (k: nat)
    requires x in q
    ensures k < |q| && q[k] == x && Without(q, x) == q[..k] + q[k + 1..]
  {
    if q[0] == x {
      k := 0;
    } else {
      var j := FirstIndex(q[1..], x);
      k := j + 1;
      assert q[..k] == [q[0]] + q[1..][..j];
      assert q[k + 1..] == q[1..][j + 1..];
    }
  }

  lemma {:induction false} WithoutSubset<T>(q: seq<T>, x: T)
    ensures forall y :: y in Without(q, x) ==> y in q
    ensures x !in q ==> Without(q, x) == q
  {
    if q != [] { WithoutSubset(q[1..], x); }
  }

  lemma {:induction false} SubsetSize<T>(a: set<T>, b: set<T>)
    requires a <= b
    ensures |a| <= |b|
  {
    if a != {} {
      var x :| x in a;
      SubsetSize(a - {x}, b - {x});
    }
  }
}
