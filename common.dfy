/**
 * The errno normalisation and the run-once wrapper of common/common.go.
 *
 * A Go error is an Option<RteError>: None is nil. The four RTE error
 * numbers are those of DPDK's rte_errno.h (RTE_MIN_ERRNO = 1000 and the
 * three that follow it); that header is not part of this model.
 */
module Common {
  import opened Types

  type i64 = x: int | -0x8000_0000_0000_0000 <= x < 0x8000_0000_0000_0000

  const MinInt64: i64 := -0x8000_0000_0000_0000

  const RteMinErrno: int := 1000
  const ERteSecondary: int := 1001
  const ERteNoConfig: int := 1002
  const RteMaxErrno: int := 1003

  /** ErrNoConfig, ErrSecondary, ErrMaxErrno, ErrMinErrno, or the formatted error carrying the number. */
  datatype RteError = ErrNoConfig | ErrSecondary | ErrMaxErrno | ErrMinErrno | Errno(n: int)

  /** Go's -n on an int64: the most negative value is its own negation. */
  function Neg64(n: i64): (r: i64)
    ensures n != MinInt64 ==> r == -n
    ensures n == MinInt64 ==> r == n
  {
    if n == MinInt64 then n else -n
  }

  /** errno (common/common.go:37-56). */
  function ErrnoOf(n: i64): (r: Option<RteError>)
    ensures r.None? <==> n == 0
  {
    if n == 0 then None
    else
      var m := if n < 0 then Neg64(n) else n;
      if m == ERteNoConfig then Some(ErrNoConfig)
      else if m == ERteSecondary then Some(ErrSecondary)
      else if m == RteMaxErrno then Some(ErrMaxErrno)
      else if m == RteMinErrno then Some(ErrMinErrno)
      else Some(Errno(m))
  }

  /**
   * The sign of the argument does not matter; every nonzero number is an
   * error: the four RTE numbers their sentinels, any other the generic
   * error carrying the number made positive (the most negative int64
   * stays negative, as Go's negation leaves it).
   */
  lemma ErrnoMeaning(n: i64)
    ensures n != MinInt64 ==> ErrnoOf(n) == ErrnoOf(-n)
    ensures n != 0 ==> ErrnoOf(n).Some?
    ensures (n == ERteNoConfig || n == -ERteNoConfig) <==> ErrnoOf(n) == Some(ErrNoConfig)
    ensures (n == ERteSecondary || n == -ERteSecondary) <==> ErrnoOf(n) == Some(ErrSecondary)
    ensures (n == RteMaxErrno || n == -RteMaxErrno) <==> ErrnoOf(n) == Some(ErrMaxErrno)
    ensures (n == RteMinErrno || n == -RteMinErrno) <==> ErrnoOf(n) == Some(ErrMinErrno)
    ensures n != 0 && n != MinInt64 && !(RteMinErrno <= n <= RteMaxErrno) && !(-RteMaxErrno <= n <= -RteMinErrno)
            ==> ErrnoOf(n) == Some(Errno(if n < 0 then -n else n))
    ensures ErrnoOf(MinInt64) == Some(Errno(MinInt64))
  {
  }

  /** The generic error always carries a number outside the four RTE numbers. */
  lemma ErrnoGenericOutsideRte(n: i64)
    requires ErrnoOf(n).Some? && ErrnoOf(n).value.Errno?
    ensures var m := ErrnoOf(n).value.n; m != 0 && !(RteMinErrno <= m <= RteMaxErrno)
  {
  }

  /** IntErr (common/common.go:33-35): the error for an errno value. */
  function IntErr(n: i64): (r: Option<RteError>)
    ensures r.None? <==> n == 0
    ensures n != MinInt64 ==> r == ErrnoOf(-n)
  {
    ErrnoMeaning(n);
    ErrnoOf(n)
  }

  /**
   * IntOrErr (common/common.go:68-74): a non-negative value comes back with
   * no error, a negative one as 0 with its errno error, which is never nil.
   */
  function IntOrErr(x: i64): (r: (int, Option<RteError>))
    ensures x >= 0 ==> r == (x, None)
    ensures x < 0 ==> r.0 == 0 && r.1.Some? && (x != MinInt64 ==> r.1 == ErrnoOf(-x))
  {
    ErrnoMeaning(x);
    if x >= 0 then (x, None) else (0, ErrnoOf(x))
  }

  /** IntToErr (common/common.go:78-81): the error for any signed value, nil only for zero. */
  function IntToErr(x: i64): (r: Option<RteError>)
    ensures r.None? <==> x == 0
    ensures x < 0 ==> r == IntOrErr(x).1
  {
    ErrnoOf(x)
  }

  // ---------------------------------------------------------------------------
  // DoOnce
  // ---------------------------------------------------------------------------

  /** The two variables the DoOnce closure captures: whether once.Do ran, and err. */
  datatype OnceState = OnceState(done: bool, err: Option<RteError>)

  /**
   * One call of the returned closure, given what fn would return if it ran
   * now: the new state, the returned error, and whether fn ran.
   */
  function OnceCall(s: OnceState, outcome: Option<RteError>): (OnceState, Option<RteError>, bool)
  {
    if s.done then (s, s.err, false) else (OnceState(true, outcome), outcome, true)
  }

  /** A sequence of calls: the errors returned and how many times fn ran. */
  function OnceCalls(s: OnceState, outcomes: seq<Option<RteError>>): (seq<Option<RteError>>, nat)
    decreases |outcomes|
  {
    if |outcomes| == 0 then ([], 0)
    else
      var (s1, r, ran) := OnceCall(s, outcomes[0]);
      var (rs, runs) := OnceCalls(s1, outcomes[1..]);
      ([r] + rs, runs + if ran then 1 else 0)
  }

  /** After the first call, every call returns the stored error and fn never runs again. */
  lemma {:induction false} OnceCallsAfterDone(s: OnceState, outcomes: seq<Option<RteError>>)
    requires s.done
    ensures OnceCalls(s, outcomes).1 == 0
    ensures |OnceCalls(s, outcomes).0| == |outcomes|
    ensures forall i | 0 <= i < |outcomes| :: OnceCalls(s, outcomes).0[i] == s.err
    decreases |outcomes|
  {
    if |outcomes| > 0 {
      OnceCallsAfterDone(s, outcomes[1..]);
      var rest := OnceCalls(s, outcomes[1..]);
      assert OnceCalls(s, outcomes) == ([s.err] + rest.0, rest.1);
    }
  }

  /**
   * Over any sequence of calls of a fresh DoOnce closure, fn runs at most
   * once (exactly once if there is a call) and every call returns the
   * error of the first.
   */
  lemma OnceCallsReturnFirst(outcomes: seq<Option<RteError>>)
    ensures var (rs, runs) := OnceCalls(OnceState(false, None), outcomes);
      |rs| == |outcomes| && runs == (if |outcomes| == 0 then 0 else 1)
      && forall i | 0 <= i < |rs| :: rs[i] == outcomes[0]
  {
    if |outcomes| > 0 {
      OnceCallsAfterDone(OnceState(true, outcomes[0]), outcomes[1..]);
    }
  }

  /** The closure DoOnce returns (common/common.go:87-94), with its captured state as fields. */
  class Once {
    var done: bool
    var err: Option<RteError>
    ghost var runs: nat

    ghost predicate Valid()
      reads this
    {
      runs == if done then 1 else 0
    }

    function State(): OnceState
      reads this
    {
      OnceState(done, err)
    }

    /** DoOnce(fn): nothing has run yet and err is nil. */
    constructor ()
      ensures Valid() && State() == OnceState(false, None) && runs == 0
    {
      done := false;
      err := None;
      runs := 0;
    }

    /** Calling the closure; outcome is what fn returns should it run. */
    method Call(outcome: Option<RteError>) returns (r: Option<RteError>)
      requires Valid()
      modifies this
      ensures Valid() && runs <= 1
      ensures (State(), r, runs == old(runs) + 1) == OnceCall(old(State()), outcome)
    {
      if !done {
        done := true;
        err := outcome;
        runs := runs + 1;
      }
      r := err;
    }
  }
}
