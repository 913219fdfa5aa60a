/** Values shared by every module: optional values, results, Go errors, and the
    "convert each element, stop at the first failure" fold that the read/write-set
    and orderer code both perform. */
module Common {

  datatype Option<+T> = None | Some(value: T)

  /** A Go `error` value. `Multi` is the SDK's list of errors. */
  datatype Error =
    | Plain(msg: string)
    | Wrapped(msg: string, cause: Error)
    | Status(code: string, msg: string)
    | Multi(errors: seq<Error>)

  /** A value or an error; `:-` passes the error on, as Go's `if err != nil { return err }` does. */
  datatype Result<+T> = Ok(value: T) | Err(error: Error) {
    predicate IsFailure() {
      Err?
    }

    function PropagateFailure<U>(): Result<U>
      requires Err?
    {
      Err(error)
    }

    function Extract(): T
      requires Ok?
    {
      value
    }
  }

  newtype Byte = x: int | 0 <= x < 256
  type Bytes = seq<Byte>

  ghost predicate Distinct<T>(xs: seq<T>) {
    forall i, j :: 0 <= i < j < |xs| ==> xs[i] != xs[j]
  }

  ghost predicate Ascending(positions: seq<nat>) {
    forall j, k :: 0 <= j < k < |positions| ==> positions[j] < positions[k]
  }

  predicate InRange(order: seq<nat>, n: nat) {
    forall k :: 0 <= k < |order| ==> order[k] < n
  }

  /** An arrangement of 0..n-1. */
  ghost predicate Permutation(order: seq<nat>, n: nat) {
    InRange(order, n) && Distinct(order) && forall i :: 0 <= i < n ==> i in order
  }

  /** Taking the largest index out of an arrangement leaves an arrangement. */
  lemma WithoutLargest(order: seq<nat>, n: nat) returns (k: nat)
    requires Permutation(order, n) && n > 0
    ensures k < |order| && order[k] == n - 1
    ensures Permutation(order[..k] + order[k + 1..], n - 1)
  {
    assert n - 1 in order;
    k :| 0 <= k < |order| && order[k] == n - 1;
    var rest := order[..k] + order[k + 1..];
    assert forall i :: 0 <= i < |rest| ==> rest[i] == order[if i < k then i else i + 1];
    forall i: nat | i < n - 1
      ensures i in rest
    {
      assert i in order;
      var j :| 0 <= j < |order| && order[j] == i;
      assert rest[if j < k then j else j - 1] == i;
    }
  }

  lemma {:induction false} PermutationLength(order: seq<nat>, n: nat)
    requires Permutation(order, n)
    ensures |order| == n
  {
    assert n > 0 ==> 0 in order;
    if order != [] {
      assert order[0] < n;
      var k := WithoutLargest(order, n);
      PermutationLength(order[..k] + order[k + 1..], n - 1);
    }
  }

  function Arranged<T>(xs: seq<T>, order: seq<nat>): seq<T>
    requires InRange(order, |xs|)
  {
    seq(|order|, k requires 0 <= k < |order| => xs[order[k]])
  }

  /** Rearranging keeps every element as often as it was there. */
  lemma {:induction false} Rearranged<T>(xs: seq<T>, order: seq<nat>)
    requires Permutation(order, |xs|)
    ensures multiset(Arranged(xs, order)) == multiset(xs)
  {
    if xs == [] {
      assert Arranged(xs, order) == [] by {
        PermutationLength(order, 0);
      }
    } else {
      var n := |xs| - 1;
      var k := WithoutLargest(order, n + 1);
      var a, b := order[..k], order[k + 1..];
      Rearranged(xs[..n], a + b);
      assert Arranged(xs, order) == Arranged(xs, a) + [xs[n]] + Arranged(xs, b);
      assert Arranged(xs[..n], a + b) == Arranged(xs, a) + Arranged(xs, b);
      assert xs == xs[..n] + [xs[n]];
    }
  }

  /** The positions below `n` that `p` accepts, in order. */
  function Positions(p: nat -> bool, n: nat): (positions: seq<nat>)
    ensures InRange(positions, n)
  {
    if n == 0 then []
    else
      var front := Positions(p, n - 1);
      if p(n - 1) then front + [n - 1] else front
  }

  lemma {:induction false} PositionsExact(p: nat -> bool, n: nat)
    ensures Ascending(Positions(p, n))
    ensures forall i: nat :: i in Positions(p, n) <==> i < n && p(i)
  {
    if n > 0 {
      PositionsExact(p, n - 1);
    }
  }

  /** `picked` are the elements of `xs` at exactly the positions that `p` accepts, in order. */
  ghost predicate Picks<T>(xs: seq<T>, p: nat -> bool, picked: seq<T>) {
    picked == Arranged(xs, Positions(p, |xs|))
  }

  lemma {:induction false} PicksStep<T>(xs: seq<T>, p: nat -> bool, picked: seq<T>, x: T)
    requires Picks(xs, p, picked)
    ensures Picks(xs + [x], p, if p(|xs|) then picked + [x] else picked)
  {
    var positions := Positions(p, |xs|);
    assert Arranged(xs + [x], positions) == picked;
    assert Arranged(xs + [x], positions + [|xs|]) == picked + [x];
  }

  /** What `Picks` means, position by position. */
  lemma PickedExactly<T>(xs: seq<T>, p: nat -> bool, picked: seq<T>) returns (positions: seq<nat>)
    requires Picks(xs, p, picked)
    ensures Ascending(positions) && |positions| == |picked|
    ensures forall i: nat :: i in positions <==> i < |xs| && p(i)
    ensures forall k :: 0 <= k < |picked| ==> positions[k] < |xs| && picked[k] == xs[positions[k]]
  {
    positions := Positions(p, |xs|);
    PositionsExact(p, |xs|);
  }

  lemma PickedMembers<T>(xs: seq<T>, p: nat -> bool, picked: seq<T>, x: T)
    requires Picks(xs, p, picked)
    ensures x in picked <==> exists i: nat :: i < |xs| && p(i) && xs[i] == x
  {
    var positions := PickedExactly(xs, p, picked);
    if x in picked {
      var k :| 0 <= k < |picked| && picked[k] == x;
      assert positions[k] in positions;
    }
    if i: nat :| i < |xs| && p(i) && xs[i] == x {
      assert i in positions;
      var k :| 0 <= k < |positions| && positions[k] == i;
      assert picked[k] == x;
    }
  }

  /** What a loop that converts elements in order and returns at the first error computes. */
  function Traverse<A, B>(f: A -> Result<B>, xs: seq<A>): Result<seq<B>> {
    if xs == [] then Ok([])
    else
      var ys :- Traverse(f, xs[..|xs| - 1]);
      var y :- f(xs[|xs| - 1]);
      Ok(ys + [y])
  }

  /** A failed prefix fails the whole, with the same error. */
  lemma {:induction false} TraverseStops<A, B>(f: A -> Result<B>, xs: seq<A>, n: nat)
    requires n <= |xs| && Traverse(f, xs[..n]).Err?
    ensures Traverse(f, xs) == Traverse(f, xs[..n])
  {
    if n < |xs| {
      var front := xs[..|xs| - 1];
      assert front[..n] == xs[..n];
      TraverseStops(f, front, n);
    } else {
      assert xs[..n] == xs;
    }
  }

  /** One more element of the loop. */
  lemma TraverseStep<A, B>(f: A -> Result<B>, xs: seq<A>, n: nat)
    requires n < |xs| && Traverse(f, xs[..n]).Ok?
    ensures f(xs[n]).Ok? ==> Traverse(f, xs[..n + 1]) == Ok(Traverse(f, xs[..n]).value + [f(xs[n]).value])
    ensures f(xs[n]).Err? ==> Traverse(f, xs) == Err(f(xs[n]).error)
  {
    assert xs[..n + 1][..n] == xs[..n];
    if f(xs[n]).Err? {
      TraverseStops(f, xs, n + 1);
    }
  }

  /** The fold succeeds exactly when every element does, element by element and in order. */
  lemma {:induction false} TraverseElements<A, B>(f: A -> Result<B>, xs: seq<A>)
    ensures Traverse(f, xs).Ok? <==> forall i :: 0 <= i < |xs| ==> f(xs[i]).Ok?
    ensures Traverse(f, xs).Ok? ==>
              && |Traverse(f, xs).value| == |xs|
              && forall i :: 0 <= i < |xs| ==> f(xs[i]) == Ok(Traverse(f, xs).value[i])
  {
    if xs != [] {
      var front := xs[..|xs| - 1];
      TraverseElements(f, front);
      assert forall i :: 0 <= i < |front| ==> front[i] == xs[i];
    }
  }

  /** The fold fails with the error of the first element that does. */
  lemma {:induction false} TraverseError<A, B>(f: A -> Result<B>, xs: seq<A>, i: nat)
    requires i < |xs| && f(xs[i]).Err? && forall j :: 0 <= j < i ==> f(xs[j]).Ok?
    ensures Traverse(f, xs) == Err(f(xs[i]).error)
  {
    TraverseElements(f, xs[..i]);
    TraverseStep(f, xs, i);
  }

  /** The folded `g` undoes the folded `f` exactly when `g` undoes `f` on every element. */
  lemma {:induction false} TraverseInverse<A, B>(f: A -> Result<B>, g: B -> Result<A>, xs: seq<A>)
    requires Traverse(f, xs).Ok?
    ensures Traverse(g, Traverse(f, xs).value) == Ok(xs)
            <==> forall i :: 0 <= i < |xs| && f(xs[i]).Ok? ==> g(f(xs[i]).value) == Ok(xs[i])
  {
    var ys := Traverse(f, xs).value;
    TraverseElements(f, xs);
    TraverseElements(g, ys);
    if forall i :: 0 <= i < |xs| && f(xs[i]).Ok? ==> g(f(xs[i]).value) == Ok(xs[i]) {
      assert Traverse(g, ys).value == xs;
    }
  }
}
