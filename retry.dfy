/**
 * `callApiWithRetry`: up to `retries` attempts at a request; the parsed body
 * of the first successful attempt is returned, and after every failed attempt
 * the helper sleeps `delay * 2^i` (also after the last one) before it finally
 * throws.
 */
module Retry {
  import opened Wrappers

  /** What one attempt yields: an `ok` response whose body parsed as JSON,
      a response that is not `ok`, or a rejection (of `fetch` or of
      `response.json()`), which the loop catches. */
  datatype Attempt<T> = Ok(body: T) | NotOk | Throws

  /** How a call ends: with the parsed body, or by throwing an Error. */
  datatype CallResult<T> = Returned(body: T) | Thrown(reason: string)

  const ExhaustedReason := "All retries failed to connect to the API."

  /** The number of attempts a `for (let i = 0; i < retries; i++)` loop can make. */
  function AttemptBound(retries: int): nat
  {
    if retries <= 0 then 0 else retries
  }

  function Pow2(n: nat): (r: nat)
    ensures r >= 1
  {
    if n == 0 then 1 else 2 * Pow2(n - 1)
  }

  /** The sleeps taken after failed attempts 0, 1, ..., n-1, in order. */
  function Backoff(delay: int, n: nat): (s: seq<int>)
    ensures |s| == n
  {
    if n == 0 then [] else Backoff(delay, n - 1) + [delay * Pow2(n - 1)]
  }

  /** The sleep after failed attempt `i` is `delay * 2^i`. */
  lemma {:induction false} BackoffAt(delay: int, n: nat, i: nat)
    requires i < n
    ensures Backoff(delay, n)[i] == delay * Pow2(i)
  {
    if i < n - 1 {
      BackoffAt(delay, n - 1, i);
    }
  }

  function Sum(s: seq<int>): int
  {
    if s == [] then 0 else Sum(s[..|s| - 1]) + s[|s| - 1]
  }

  /** Index of the first successful attempt, if any. */
  function FirstOk<T>(attempts: seq<Attempt<T>>): (r: Option<nat>)
    ensures r.Some? ==> r.value < |attempts| && attempts[r.value].Ok?
    ensures r.Some? ==> forall j :: 0 <= j < r.value ==> !attempts[j].Ok?
    ensures r.None? <==> forall j :: 0 <= j < |attempts| ==> !attempts[j].Ok?
  {
    if attempts == [] then None
    else if attempts[0].Ok? then Some(0)
    else match FirstOk(attempts[1..])
      case None => None
      case Some(k) => Some(k + 1)
  }

  /**
   * The retry loop. `attempts[i]` is what attempt `i` would yield; `tried`
   * counts the attempts made and `sleeps` logs every backoff delay in order.
   */
  method CallApiWithRetry<T>(attempts: seq<Attempt<T>>, retries: int, delay: int)
    returns (r: CallResult<T>, ghost tried: nat, ghost sleeps: seq<int>)
    requires AttemptBound(retries) <= |attempts|
    ensures r.Thrown? <==> forall j :: 0 <= j < AttemptBound(retries) ==> !attempts[j].Ok?
    ensures r.Thrown? ==> r.reason == ExhaustedReason
    ensures r.Thrown? ==> tried == AttemptBound(retries) && sleeps == Backoff(delay, tried)
    ensures r.Thrown? ==> Sum(sleeps) == delay * (Pow2(AttemptBound(retries)) - 1)
    ensures r.Returned? ==>
      var k := FirstOk(attempts[..AttemptBound(retries)]).value;
      r.body == attempts[k].body && tried == k + 1 && sleeps == Backoff(delay, k)
      && Sum(sleeps) == delay * (Pow2(k) - 1)
  {
    ghost var n := AttemptBound(retries);
    tried, sleeps := 0, [];
    var i := 0;
    while i < retries
      invariant 0 <= i <= n
      invariant forall j :: 0 <= j < i ==> !attempts[j].Ok?
      invariant tried == i && sleeps == Backoff(delay, i)
    {
      tried := tried + 1;
      if attempts[i].Ok? {
        r := Returned(attempts[i].body);
        assert attempts[..n][i] == attempts[i];
        assert forall j :: 0 <= j < i ==> !attempts[..n][j].Ok?;
        BackoffTotal(delay, i);
        return;
      }
      sleeps := sleeps + [delay * Pow2(i)];
      i := i + 1;
    }
    r := Thrown(ExhaustedReason);
    BackoffTotal(delay, n);
  }

  /** Extending the schedule by one sleep adds that sleep to the total. */
  lemma BackoffStep(delay: int, n: nat)
    requires n > 0
    ensures Sum(Backoff(delay, n)) == Sum(Backoff(delay, n - 1)) + delay * Pow2(n - 1)
  {
  }

  /** One doubling step of the geometric sum: if the first n-1 sleeps total
      a*(2^(n-1) - 1), adding the sleep a*2^(n-1) gives a*(2^n - 1). */
  lemma DoublingStep(a: int, n: nat, prev: int, total: int)
    requires n > 0
    requires prev == a * (Pow2(n - 1) - 1)
    requires total == prev + a * Pow2(n - 1)
    ensures total == a * (Pow2(n) - 1)
  {
  }

  /** The whole backoff schedule is a geometric sum: delay * (2^n - 1). */
  lemma {:induction false} BackoffTotal(delay: int, n: nat)
    ensures Sum(Backoff(delay, n)) == delay * (Pow2(n) - 1)
  {
    if n == 0 {
      assert Backoff(delay, 0) == [];
    } else {
      BackoffTotal(delay, n - 1);
      BackoffStep(delay, n);
      DoublingStep(delay, n, Sum(Backoff(delay, n - 1)), Sum(Backoff(delay, n)));
    }
  }

  /** Three failing attempts with base delay 100 sleep 100 + 200 + 400 = 700. */
  lemma {:induction false} ThreeFailuresSleep700()
    ensures Sum(Backoff(100, 3)) == 700
  {
    BackoffTotal(100, 3);
    assert Pow2(3) == 8;
  }
}
