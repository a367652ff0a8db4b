/** The two wrappers the pipeline needs: an optional value (a cell or a result
    that may be null) and a result that is either a value or an error. `Result`
    works with Dafny's `:-` operator, so a failing stage ends the pipeline the way
    a raised exception ends the Python program. */
module Results {

  /** A value that may be missing: `None` models Python's `None` / pandas' NaN. */
  datatype Option<+T> = None | Some(value: T)

  /** Either the value a stage produced or the error it raised. */
  datatype Result<+T, +E> = Ok(value: T) | Err(error: E) {

    predicate IsFailure() {
      Err?
    }

    function PropagateFailure<U>(): Result<U, E>
      requires Err?
    {
      Err(error)
    }

    function Extract(): T
      requires Ok?
    {
      value
    }
  }

  /** Applies `f` to every element in order and collects the values; the first
      element `f` fails on ends the walk with that failure, as the first raised
      exception ends a column-wide conversion. */
  function TryMap<A, B, E>(s: seq<A>, f: A -> Result<B, E>): (r: Result<seq<B>, E>)
    ensures r.Ok? ==> |r.value| == |s|
  {
    if s == [] then Ok([])
    else
      var b :- f(s[0]);
      var rest :- TryMap(s[1..], f);
      Ok([b] + rest)
  }

  /** `TryMap` succeeds exactly when `f` succeeds on every element. */
  lemma {:induction false} TryMapOk<A, B, E>(s: seq<A>, f: A -> Result<B, E>)
    ensures TryMap(s, f).Ok? <==> forall k :: 0 <= k < |s| ==> f(s[k]).Ok?
  {
    if s != [] {
      TryMapOk(s[1..], f);
      assert forall k :: 1 <= k < |s| ==> s[k] == s[1..][k - 1];
    }
  }

  /** On success, the `k`-th value is what `f` gives for the `k`-th element. */
  lemma {:induction false} TryMapAt<A, B, E>(s: seq<A>, f: A -> Result<B, E>, k: nat)
    requires TryMap(s, f).Ok? && k < |s|
    ensures f(s[k]) == Ok(TryMap(s, f).value[k])
  {
    if k > 0 {
      TryMapAt(s[1..], f, k - 1);
    }
  }

  /** `s[k]` is the first element `f` fails on. */
  ghost predicate FirstFailure<A, B, E>(s: seq<A>, f: A -> Result<B, E>, k: nat) {
    && k < |s|
    && f(s[k]).Err?
    && forall m :: 0 <= m < k ==> f(s[m]).Ok?
  }

  /** On failure, the error is the one `f` gives for the first element it fails on. */
  lemma {:induction false} TryMapFirstError<A, B, E>(s: seq<A>, f: A -> Result<B, E>)
    requires TryMap(s, f).Err?
    ensures exists k: nat :: FirstFailure(s, f, k) && f(s[k]) == Err(TryMap(s, f).error)
  {
    if f(s[0]).Err? {
      assert FirstFailure(s, f, 0);
    } else {
      TryMapFirstError(s[1..], f);
      var k: nat :| FirstFailure(s[1..], f, k) && f(s[1..][k]) == Err(TryMap(s[1..], f).error);
      assert forall m :: 1 <= m <= k + 1 ==> s[m] == s[1..][m - 1];
      assert FirstFailure(s, f, k + 1);
    }
  }
}
