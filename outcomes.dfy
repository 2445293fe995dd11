/** Success/failure wrappers standing in for Rust's `Option` and `Result`. */
module Outcomes {

  datatype Option<+T> = None | Some(value: T)

  datatype Result<+T, +E> = Ok(value: T) | Err(error: E)

  /**
   * `Iterator::collect` into a `Result`: every element converted in order,
   * or the error of the first element whose conversion fails.
   */
  function CollectAll<T, U, E>(xs: seq<T>, f: T -> Result<U, E>): (r: Result<seq<U>, E>)
    ensures r.Ok? ==> |r.value| == |xs|
  {
    if xs == [] then Ok([])
    else
      match f(xs[0])
      case Err(e) => Err(e)
      case Ok(first) =>
        match CollectAll(xs[1..], f)
        case Err(e) => Err(e)
        case Ok(rest) => Ok([first] + rest)
  }

  /** The collection succeeds exactly when every conversion does. */
  lemma {:induction false} CollectAllOkIff<T, U, E>(xs: seq<T>, f: T -> Result<U, E>)
    ensures CollectAll(xs, f).Ok? <==> forall i :: 0 <= i < |xs| ==> f(xs[i]).Ok?
  {
    if xs != [] {
      CollectAllOkIff(xs[1..], f);
      assert forall i :: 1 <= i < |xs| ==> xs[1..][i - 1] == xs[i];
    }
  }

  /** Each collected value is the conversion of the element at the same position. */
  lemma {:induction false} CollectAllValues<T, U, E>(xs: seq<T>, f: T -> Result<U, E>, i: nat)
    requires CollectAll(xs, f).Ok? && i < |xs|
    ensures f(xs[i]) == Ok(CollectAll(xs, f).value[i])
  {
    if i > 0 {
      assert xs[1..][i - 1] == xs[i];
      CollectAllValues(xs[1..], f, i - 1);
    }
  }

  /** A successful collection holds, at every position, the conversion of the element there. */
  lemma CollectAllEvery<T, U, E>(xs: seq<T>, f: T -> Result<U, E>)
    ensures CollectAll(xs, f).Ok? ==> forall i :: 0 <= i < |xs| ==> f(xs[i]) == Ok(CollectAll(xs, f).value[i])
  {
    if CollectAll(xs, f).Ok? {
      forall i | 0 <= i < |xs| ensures f(xs[i]) == Ok(CollectAll(xs, f).value[i]) {
        CollectAllValues(xs, f, i);
      }
    }
  }

  /** A failed collection reports the error of the first element that fails. */
  lemma {:induction false} CollectAllFirstError<T, U, E>(xs: seq<T>, f: T -> Result<U, E>, k: nat)
    requires k < |xs| && f(xs[k]).Err?
    requires forall i :: 0 <= i < k ==> f(xs[i]).Ok?
    ensures CollectAll(xs, f) == Err(f(xs[k]).error)
  {
    if k > 0 {
      assert xs[1..][k - 1] == xs[k];
      assert forall i :: 0 <= i < k - 1 ==> xs[1..][i] == xs[i + 1];
      CollectAllFirstError(xs[1..], f, k - 1);
    }
  }

  /** The error of a failed collection is the error of one of the conversions. */
  lemma {:induction false} CollectAllErrorOrigin<T, U, E>(xs: seq<T>, f: T -> Result<U, E>)
    ensures CollectAll(xs, f).Err? ==> exists k :: 0 <= k < |xs| && f(xs[k]) == Err(CollectAll(xs, f).error)
  {
    if xs != [] && f(xs[0]).Ok? {
      CollectAllErrorOrigin(xs[1..], f);
      if CollectAll(xs, f).Err? {
        var k :| 0 <= k < |xs[1..]| && f(xs[1..][k]) == Err(CollectAll(xs[1..], f).error);
        assert xs[1..][k] == xs[k + 1];
      }
    }
  }

  /** Collecting a concatenation of two successful inputs concatenates their results. */
  lemma {:induction false} CollectAllAppend<T, U, E>(a: seq<T>, b: seq<T>, f: T -> Result<U, E>)
    requires CollectAll(a, f).Ok? && CollectAll(b, f).Ok?
    ensures CollectAll(a + b, f) == Ok(CollectAll(a, f).value + CollectAll(b, f).value)
  {
    if a == [] {
      assert a + b == b;
      assert CollectAll(a, f).value + CollectAll(b, f).value == CollectAll(b, f).value;
    } else {
      var first := f(a[0]).value;
      assert (a + b)[0] == a[0] && (a + b)[1..] == a[1..] + b;
      CollectAllAppend(a[1..], b, f);
      assert CollectAll(a, f).value == [first] + CollectAll(a[1..], f).value;
      assert CollectAll(a + b, f).value == [first] + CollectAll(a[1..] + b, f).value;
      var x, y := CollectAll(a[1..], f).value, CollectAll(b, f).value;
      assert [first] + (x + y) == ([first] + x) + y;
    }
  }
}
