/** Small failure-compatible wrappers shared by every module of the model. */
module Base {

  /** A value that may be absent (Python's `None`). */
  datatype Option<+T> = None | Some(value: T)

  /** The outcome of an operation that can raise: `Err` stands for the exception. */
  datatype Result<+T, +E> = Ok(value: T) | Err(error: E) {

    predicate IsFailure() {
      Err?
    }

    function PropagateFailure<U>(): Result<U, E>
      requires Err?
    {
      Err(error)
    }

    function Extract(): T
      requires Ok?
    {
      value
    }
  }

  /** Python's `str.endswith`. */
  predicate EndsWith(s: string, suffix: string) {
    |suffix| <= |s| && s[|s| - |suffix|..] == suffix
  }

  /** The lists of `xss` joined end to end. */
  function Concat<T>(xss: seq<seq<T>>): seq<T> {
    if |xss| == 0 then [] else xss[0] + Concat(xss[1..])
  }

  /** `f` succeeds on every element of `xs`. */
  ghost predicate AllOk<A, B, E>(f: A -> Result<B, E>, xs: seq<A>) {
    forall k | 0 <= k < |xs| :: f(xs[k]).Ok?
  }

  /** `ys` holds, position by position, what `f` makes of each element of `xs`. */
  ghost predicate Yields<A, B, E>(f: A -> Result<B, E>, xs: seq<A>, ys: seq<B>) {
    && |ys| == |xs|
    && forall k | 0 <= k < |xs| :: f(xs[k]) == Ok(ys[k])
  }

  lemma AllOkCons<A, B, E>(f: A -> Result<B, E>, x: A, xs: seq<A>)
    ensures AllOk(f, [x] + xs) <==> f(x).Ok? && AllOk(f, xs)
  {
    if f(x).Ok? && AllOk(f, xs) {
      forall k | 0 <= k < |[x] + xs| ensures f(([x] + xs)[k]).Ok? {
        if k > 0 { assert ([x] + xs)[k] == xs[k - 1]; }
      }
    }
    if AllOk(f, [x] + xs) {
      assert ([x] + xs)[0] == x;
      forall k | 0 <= k < |xs| ensures f(xs[k]).Ok? {
        assert ([x] + xs)[k + 1] == xs[k];
      }
    }
  }

  lemma YieldsCons<A, B, E>(f: A -> Result<B, E>, x: A, xs: seq<A>, y: B, ys: seq<B>)
    requires f(x) == Ok(y)
    requires Yields(f, xs, ys)
    ensures Yields(f, [x] + xs, [y] + ys)
  {
    forall k | 0 <= k < |[x] + xs| ensures f(([x] + xs)[k]) == Ok(([y] + ys)[k]) {
      if k > 0 { assert ([x] + xs)[k] == xs[k - 1] && ([y] + ys)[k] == ys[k - 1]; }
    }
  }
}
