/** Small datatypes shared by every module of the model. */
module Common {

  /** An optional value. */
  datatype Option<+T> = None | Some(value: T)

  /** The result of an operation that can fail with an error of type E. */
  datatype Result<+T, +E> = Ok(value: T) | Err(error: E)

  /** The values that are there, in order. */
  function Somes<T>(options: seq<Option<T>>): seq<T> {
    if options == [] then []
    else if options[0].Some? then [options[0].value] + Somes(options[1..])
    else Somes(options[1..])
  }

  lemma {:induction false} SomesAreThere<T>(options: seq<Option<T>>, x: T)
    ensures x in Somes(options) <==> Some(x) in options
    decreases |options|
  {
    if options != [] {
      assert options == [options[0]] + options[1..];
      SomesAreThere(options[1..], x);
    }
  }

  /** Concatenation is associative. */
  lemma Regroup<T>(a: seq<T>, b: seq<T>, c: seq<T>)
    ensures a + (b + c) == (a + b) + c
  {
  }

  /** A prefix of a concatenation. */
  lemma PrefixOfJoin<T>(a: seq<T>, b: seq<T>, n: nat)
    requires n <= |a| + |b|
    ensures (a + b)[..n] == if n <= |a| then a[..n] else a + b[..n - |a|]
  {
  }

  /** Every finite set of numbers has a bound. */
  lemma {:induction false} UpperBound(xs: set<nat>) returns (bound: nat)
    ensures forall x :: x in xs ==> x < bound
    decreases |xs|
  {
    if xs == {} {
      bound := 0;
    } else {
      var x :| x in xs;
      var rest := UpperBound(xs - {x});
      bound := if x < rest then rest else x + 1;
      assert forall y :: y in xs ==> y == x || y in xs - {x};
    }
  }
}
