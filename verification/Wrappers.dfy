/** What several modules share: failure-carrying datatypes, byte streams and facts about finite sets. */
module Wrappers {

  type Byte = b: int | 0 <= b < 256

  datatype Option<+T> = None | Some(value: T)

  datatype Result<+T, +E> = Ok(value: T) | Err(error: E) {
    predicate IsFailure() { Err? }

    function PropagateFailure<U>(): Result<U, E>
      requires Err?
    {
      Err(error)
    }

    function Extract(): T
      requires Ok?
    {
      value
    }
  }

  /** A stream is read in chunks. */
  ghost function Concat(chunks: seq<seq<Byte>>): seq<Byte> {
    if chunks == [] then [] else chunks[0] + Concat(chunks[1..])
  }

  /** An element of S on which f is smallest. */
  ghost function LeastBy<T(!new)>(f: T -> int, S: set<T>): (m: T)
    requires S != {}
    ensures m in S
    ensures forall x :: x in S ==> f(m) <= f(x)
    decreases |S|
  {
    var x :| x in S;
    if S == {x} then x
    else
      assert S - {x} != {};
      var y := LeastBy(f, S - {x});
      assert forall z :: z in S ==> z == x || z in S - {x};
      if f(x) <= f(y) then x else y
  }

  /** A subset is no larger. */
  lemma SubsetSize<T>(A: set<T>, B: set<T>)
    requires A <= B
    ensures |A| <= |B|
    ensures A != B ==> |A| < |B|
  {
    assert B == A + (B - A);
    if A != B {
      var x :| x in B - A;
    }
  }

  /** The elements of a sequence without repeats, as a set, number its length. */
  lemma {:induction false} DistinctSize<T>(s: seq<T>)
    requires forall i, j :: 0 <= i < j < |s| ==> s[i] != s[j]
    ensures |set x | x in s| == |s|
  {
    if s != [] {
      var last := |s| - 1;
      DistinctSize(s[..last]);
      assert (set x | x in s) == (set x | x in s[..last]) + {s[last]};
    }
  }
}
