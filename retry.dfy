/**
 * `retry_operation` and the wrapper built by the `retry_with_delay` decorator:
 * call an operation up to `attempts` times, return the first value it returns,
 * sleep `delay` seconds after each failure except the last, and raise
 * "All N attempts failed." once every attempt has failed.
 *
 * The operation may behave differently from call to call, so it is given as the
 * outcome of its i-th call (0-based). Sleeping and logging are not performed;
 * the number of calls and of sleeps is recorded in ghost counters. `time.sleep`
 * raises on a negative length, and the model keeps that exception.
 */
module Retry {
  import opened Wrappers
  import opened Decimal

  /** What one call of the operation does: return a value or raise an exception. */
  datatype Attempt<T> = Returned(value: T) | Raised(message: string)

  /** How the whole retry ends. */
  datatype Outcome<T> = Value(value: T) | Exception(message: string)

  // ---------------------------------------------------------------------------
  // Decimal text of an integer, as an f-string prints it

  /** The decimal digits of a natural number, without leading zeros. */
  function NatText(n: nat): (s: string)
    ensures CanonicalDigits(s)
    ensures s[0] == '0' ==> n == 0
  {
    if n < 10 then [DigitChar(n)] else NatText(n / 10) + [DigitChar(n % 10)]
  }

  /** `str(n)`: a minus sign before the digits of a negative number. */
  function IntText(n: int): (s: string)
    ensures CanonicalInt(s)
    ensures s[0] == '-' <==> n < 0
  {
    if n < 0 then "-" + NatText(-n) else NatText(n)
  }

  /** The form `str` gives an int: canonical digits, after a minus sign that is never followed by 0. */
  predicate CanonicalInt(s: string) {
    CanonicalDigits(s) || (1 < |s| && s[0] == '-' && s[1] != '0' && CanonicalDigits(s[1..]))
  }

  /** Round trip: the digits NatText prints denote the number printed. */
  lemma {:induction false} NatTextValue(n: nat)
    ensures NumberText(NatText(n)) == Some(n)
  {
    var s := NatText(n);
    if n < 10 {
      DigitRoundTrip(n);
      assert s[..|s| - 1] == [];
    } else {
      NatTextValue(n / 10);
      DigitRoundTrip(n % 10);
      assert s[..|s| - 1] == NatText(n / 10);
    }
  }

  /** The integer an optional minus sign and decimal digits denote. */
  function IntValue(s: string): Option<int> {
    if 0 < |s| && s[0] == '-' then
      match NumberText(s[1..])
      case Some(v) => Some(-v)
      case None => None
    else NumberText(s)
  }

  /** Round trip: the text `str(n)` reads back as n. */
  lemma {:induction false} IntTextValue(n: int)
    ensures IntValue(IntText(n)) == Some(n)
  {
    if n < 0 {
      NatTextValue(-n);
      assert IntText(n)[1..] == NatText(-n);
    } else {
      NatTextValue(n);
      assert DigitValue(IntText(n)[0]).Some?;
    }
  }

  /** Canonical digits are the digits NatText prints for the number they denote. */
  lemma {:induction false} CanonicalNatText(s: string)
    requires CanonicalDigits(s)
    ensures NumberText(s).Some? && s == NatText(NumberText(s).value)
    decreases |s|
  {
    var c := s[|s| - 1];
    var d := DigitValue(c).value;
    assert DigitChar(d) == c;
    if |s| == 1 {
      assert s[..0] == [];
    } else {
      var high := s[..|s| - 1];
      assert high[0] == s[0];
      CanonicalNatText(high);
      var h := NumberText(high).value;
      assert NatText(0) == "0";
      assert NatText(h * 10 + d) == NatText(h) + [DigitChar(d)];
      assert s == high + [c];
    }
  }

  /** Canonical text is `str` of the number it denotes, so at most one text denotes each number. */
  lemma CanonicalIntText(s: string)
    requires CanonicalInt(s)
    ensures IntValue(s).Some? && s == IntText(IntValue(s).value)
  {
    if CanonicalDigits(s) {
      CanonicalNatText(s);
    } else {
      CanonicalNatText(s[1..]);
      var v := NumberText(s[1..]).value;
      assert NatText(0) == "0";
      assert s == "-" + s[1..];
    }
  }

  /** Different numbers are printed differently, so the message names the attempt count unambiguously. */
  lemma {:induction false} IntTextInjective(a: int, b: int)
    requires IntText(a) == IntText(b)
    ensures a == b
  {
    IntTextValue(a);
    IntTextValue(b);
  }

  /** The exception raised after the last failed attempt. */
  function AllFailed(attempts: int): (message: string)
    ensures 21 < |message| && message[..4] == "All " && message[|message| - 17..] == " attempts failed."
    ensures IntValue(message[4..|message| - 17]) == Some(attempts)
    ensures CanonicalInt(message[4..|message| - 17])
  {
    IntTextValue(attempts);
    var message := "All " + IntText(attempts) + " attempts failed.";
    assert message[4..|message| - 17] == IntText(attempts);
    message
  }

  /** The exception `time.sleep` raises on a negative length. */
  const NegativeSleep: string := "sleep length must be non-negative"

  // ---------------------------------------------------------------------------
  // Specification

  /** The first attempt in [from, attempts) whose call returns, if any. */
  function FirstSuccess<T>(op: nat -> Attempt<T>, attempts: int, from: nat): (r: Option<nat>)
    ensures r.Some? ==> from <= r.value < attempts && op(r.value).Returned?
    ensures r.Some? ==> forall i :: from <= i < r.value ==> op(i).Raised?
    ensures r.None? ==> forall i :: from <= i < attempts ==> op(i).Raised?
    decreases attempts - from
  {
    if attempts <= from then None
    else if op(from).Returned? then Some(from)
    else FirstSuccess(op, attempts, from + 1)
  }

  /** How a retry ends. */
  function RetryResult<T>(op: nat -> Attempt<T>, attempts: int, delay: int): Outcome<T> {
    match FirstSuccess(op, attempts, 0)
    case Some(k) => if 0 < k && delay < 0 then Exception(NegativeSleep) else Value(op(k).value)
    case None => if 1 < attempts && delay < 0 then Exception(NegativeSleep) else Exception(AllFailed(attempts))
  }

  /** How many times a retry calls the operation. */
  function CallCount<T>(op: nat -> Attempt<T>, attempts: int, delay: int): nat {
    match FirstSuccess(op, attempts, 0)
    case Some(k) => if 0 < k && delay < 0 then 1 else k + 1
    case None => if attempts <= 0 then 0 else if delay < 0 then 1 else attempts
  }

  /** How many times a retry sleeps. */
  function SleepCount<T>(op: nat -> Attempt<T>, attempts: int, delay: int): nat {
    if delay < 0 then 0
    else
      match FirstSuccess(op, attempts, 0)
      case Some(k) => k
      case None => if attempts <= 0 then 0 else attempts - 1
  }

  // ---------------------------------------------------------------------------
  // The loop

  /** `retry_operation(operation, attempts, delay)`. */
  method RetryOperation<T>(op: nat -> Attempt<T>, attempts: int, delay: int)
    returns (r: Outcome<T>, ghost calls: nat, ghost sleeps: nat)
    ensures r == RetryResult(op, attempts, delay)
    ensures calls == CallCount(op, attempts, delay)
    ensures sleeps == SleepCount(op, attempts, delay)
  {
    calls, sleeps := 0, 0;
    var attempt := 0;
    while attempt < attempts
      invariant 0 <= attempt && (attempt == 0 || attempt <= attempts)
      invariant forall i :: 0 <= i < attempt ==> op(i).Raised?
      invariant calls == attempt
      invariant sleeps == (if 0 < attempt && attempt == attempts then attempt - 1 else attempt)
      invariant delay < 0 ==> attempt == 0 || attempts == 1
      decreases attempts - attempt
    {
      calls := calls + 1;
      var outcome := op(attempt);
      if outcome.Returned? {
        return Value(outcome.value), calls, sleeps;
      }
      if attempt < attempts - 1 {
        if delay < 0 {
          return Exception(NegativeSleep), calls, sleeps;
        }
        sleeps := sleeps + 1;
      }
      attempt := attempt + 1;
    }
    assert FirstSuccess(op, attempts, 0).None?;
    r := Exception(AllFailed(attempts));
  }

  // ---------------------------------------------------------------------------
  // What a retry promises

  /** A call that returns on attempt k, after k failures, ends the retry with its value after exactly k sleeps. */
  lemma {:induction false} SuccessAfterSleeps<T>(op: nat -> Attempt<T>, attempts: int, delay: int, k: nat)
    requires 0 <= delay && k < attempts && op(k).Returned?
    requires forall i :: 0 <= i < k ==> op(i).Raised?
    ensures RetryResult(op, attempts, delay) == Value(op(k).value)
    ensures CallCount(op, attempts, delay) == k + 1
    ensures SleepCount(op, attempts, delay) == k
  {
    assert FirstSuccess(op, attempts, 0) == Some(k);
  }

  /**
   * When every attempt fails, the retry calls the operation `attempts` times,
   * sleeps one time fewer, and raises "All N attempts failed.".
   */
  lemma {:induction false} AllAttemptsFail<T>(op: nat -> Attempt<T>, attempts: int, delay: int)
    requires 0 <= delay
    requires forall i :: 0 <= i < attempts ==> op(i).Raised?
    ensures RetryResult(op, attempts, delay) == Exception(AllFailed(attempts))
    ensures CallCount(op, attempts, delay) == if attempts < 0 then 0 else attempts
    ensures SleepCount(op, attempts, delay) == if attempts < 1 then 0 else attempts - 1
  {
    assert FirstSuccess(op, attempts, 0).None?;
  }

  /** A retry never calls the operation more than `attempts` times, nor sleeps after the last attempt. */
  lemma {:induction false} RetryBounds<T>(op: nat -> Attempt<T>, attempts: int, delay: int)
    ensures CallCount(op, attempts, delay) <= if attempts < 0 then 0 else attempts
    ensures SleepCount(op, attempts, delay) < CallCount(op, attempts, delay) || CallCount(op, attempts, delay) == 0
  {
    var first := FirstSuccess(op, attempts, 0);
    if first.Some? {
      assert first.value < attempts;
    }
  }

  /** A retry ends with a value exactly when some attempt returns and no earlier sleep was refused. */
  lemma {:induction false} ValueMeansSuccess<T>(op: nat -> Attempt<T>, attempts: int, delay: int)
    ensures RetryResult(op, attempts, delay).Value? <==>
      exists k :: 0 <= k < attempts && op(k).Returned? && (k == 0 || 0 <= delay)
        && forall i :: 0 <= i < k ==> op(i).Raised?
    ensures RetryResult(op, attempts, delay).Value? ==>
      op(CallCount(op, attempts, delay) - 1) == Returned(RetryResult(op, attempts, delay).value)
  {
    var first := FirstSuccess(op, attempts, 0);
    if first.Some? {
      var k := first.value;
      assert 0 <= k < attempts && op(k).Returned?;
    }
  }

  // ---------------------------------------------------------------------------
  // The decorator

  /**
   * The wrapper `retry_with_delay(attempts, delay)` puts around `func`: the same
   * loop, stated here by what it guarantees to the caller of the decorated function.
   */
  method RetryWithDelay<T>(attempts: int, delay: int, func: nat -> Attempt<T>)
    returns (r: Outcome<T>, ghost calls: nat, ghost sleeps: nat)
    ensures r == RetryResult(func, attempts, delay)
    ensures calls == CallCount(func, attempts, delay) && sleeps == SleepCount(func, attempts, delay)
    ensures r.Value? ==>
      exists k :: 0 <= k < attempts && func(k) == Returned(r.value) && sleeps == k && calls == k + 1
        && forall i :: 0 <= i < k ==> func(i).Raised?
    ensures 0 <= delay ==>
      (r == Exception(AllFailed(attempts)) <==> forall i :: 0 <= i < attempts ==> func(i).Raised?)
    ensures calls <= (if attempts < 0 then 0 else attempts) && sleeps <= (if attempts < 1 then 0 else attempts - 1)
  {
    r, calls, sleeps := RetryOperation(func, attempts, delay);
    RetryBounds(func, attempts, delay);
    ValueMeansSuccess(func, attempts, delay);
    if 0 <= delay && forall i :: 0 <= i < attempts ==> func(i).Raised? {
      AllAttemptsFail(func, attempts, delay);
    }
    var first := FirstSuccess(func, attempts, 0);
    if first.Some? && 0 <= delay {
      SuccessAfterSleeps(func, attempts, delay, first.value);
      assert r != Exception(AllFailed(attempts));
    }
  }

  /** With the decorator's defaults (5 attempts, 60 seconds), a call waits at most four minutes in all. */
  lemma {:induction false} DefaultWaitBound<T>(func: nat -> Attempt<T>)
    ensures CallCount(func, 5, 60) <= 5
    ensures SleepCount(func, 5, 60) * 60 <= 240
  {
    RetryBounds(func, 5, 60);
  }
}
