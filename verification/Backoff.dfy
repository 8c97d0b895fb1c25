/** `create_connection`: attempts to connect, sleeping between them for a delay that doubles
    in a 64-bit unsigned variable. */
module Backoff {
  import opened Powers

  const WORD: nat := 0x1_0000_0000_0000_0000
  const HALF: nat := 0x8000_0000_0000_0000

  /** The value of `delay` before sleep number j (from 0). */
  function DelayAt(delay: nat, j: nat): nat { delay * Pow2(j) % WORD }

  /** The count is converted to a signed 64-bit number of milliseconds; sleeping for a negative
      duration returns at once. */
  function SleepFor(delay: nat): nat { if delay < HALF then delay else 0 }

  /** The time slept in the first k sleeps. */
  function TotalSleep(delay: nat, k: nat): nat {
    if k == 0 then 0 else TotalSleep(delay, k - 1) + SleepFor(DelayAt(delay, k - 1))
  }

  lemma DelayDoubles(delay: nat, j: nat)
    ensures DelayAt(delay, j + 1) == DelayAt(delay, j) * 2 % WORD
  {
    var x := delay * Pow2(j);
    assert delay * Pow2(j + 1) == x * 2;
    assert x == x / WORD * WORD + x % WORD;
    ModTimes(x / WORD * 2, x % WORD * 2);
    assert x * 2 == (x / WORD * 2) * WORD + x % WORD * 2;
  }

  lemma ModTimes(q: nat, r: nat)
    ensures (q * WORD + r) % WORD == r % WORD
  {
    var d := r / WORD;
    assert q * WORD + r == (q + d) * WORD + r % WORD;
  }

  /** One sleep is as long as the unbounded doubling would make it, exactly below 2^63. */
  lemma SleepExact(x: nat)
    ensures SleepFor(x % WORD) <= x
    ensures SleepFor(x % WORD) == x <==> x < HALF
    ensures x % WORD >= HALF ==> SleepFor(x % WORD) == 0
  {
  }

  lemma {:induction false} SleepAtMost(delay: nat, k: nat)
    ensures TotalSleep(delay, k) <= delay * (Pow2(k) - 1)
  {
    if k > 0 {
      SleepAtMost(delay, k - 1);
      SleepExact(delay * Pow2(k - 1));
      Geometric(delay, k);
    }
  }

  lemma Geometric(delay: nat, k: nat)
    requires k > 0
    ensures delay * (Pow2(k) - 1) == delay * (Pow2(k - 1) - 1) + delay * Pow2(k - 1)
  {
  }

  /** The sum of k sleeps is retry_delay * (2^k - 1) exactly if the last of them stays below
      2^63 milliseconds; otherwise it is smaller. */
  lemma {:induction false} BackoffSum(delay: nat, k: nat)
    ensures TotalSleep(delay, k) == delay * (Pow2(k) - 1) <==> k == 0 || delay * Pow2(k - 1) < 0x8000_0000_0000_0000
  {
    if k > 0 {
      var last := delay * Pow2(k - 1);
      var before := delay * (Pow2(k - 1) - 1);
      SleepAtMost(delay, k - 1);
      SleepExact(last);
      Geometric(delay, k);
      BackoffSum(delay, k - 1);
      if last < HALF {
        EarlierIsSmaller(delay, k);
      }
      assert delay * (Pow2(k) - 1) == before + last;
      assert TotalSleep(delay, k) == TotalSleep(delay, k - 1) + SleepFor(last % WORD);
    }
  }

  lemma EarlierIsSmaller(delay: nat, k: nat)
    requires k > 0 && delay * Pow2(k - 1) < HALF
    ensures k == 1 || delay * Pow2(k - 2) < HALF
  {
    if k > 1 {
      assert delay * Pow2(k - 1) == 2 * (delay * Pow2(k - 2));
    }
  }

  /** With enough retries the doubled delay becomes zero and the pauses vanish: the default
      delay of 1000 ms is a multiple of 8, so 61 doublings suffice. */
  lemma DelayVanishes(j: nat)
    requires j >= 61
    ensures DelayAt(1000, j) == 0
  {
    if j == 61 {
      PowSixtyOne();
    } else {
      DelayVanishes(j - 1);
      DelayDoubles(1000, j - 1);
    }
  }

  lemma PowSixtyOne()
    ensures 1000 * Pow2(61) == 125 * WORD
  {
    assert Pow2(8) == 256 && Pow2(5) == 32;
    PowAdd(8, 8);
    assert Pow2(16) == 0x1_0000;
    PowAdd(16, 8);
    assert Pow2(24) == 0x100_0000;
    PowAdd(24, 5);
    assert Pow2(29) == 0x2000_0000;
    PowAdd(16, 16);
    assert Pow2(32) == 0x1_0000_0000;
    PowAdd(32, 29);
  }

  /** The loop counter after n increments. */
  function Counter(n: nat): nat { n % WORD }

  /** Without a success the loop condition `attempt <= m_max_retries` fails at some time exactly if
      max_retries is not the largest value of its type. */
  lemma LoopEndsIff(maxRetries: nat)
    requires maxRetries <= 0xFFFF_FFFF_FFFF_FFFF
    ensures (exists n: nat :: Counter(n) > maxRetries) <==> maxRetries < 0xFFFF_FFFF_FFFF_FFFF
  {
    if maxRetries < WORD - 1 {
      assert Counter(maxRetries + 1) == maxRetries + 1;
    }
  }

  lemma CounterAdvances(n: nat)
    ensures Counter(n + 1) == if Counter(n) < WORD - 1 then Counter(n) + 1 else 0
    ensures (n + 1) / WORD == n / WORD + if Counter(n) < WORD - 1 then 0 else 1
  {
  }

  lemma NoPause(delay: nat)
    requires delay < WORD
    ensures TotalSleep(delay, 0) == 0 && DelayAt(delay, 0) == delay
  {
  }

  lemma OnePause(delay: nat, k: nat)
    ensures TotalSleep(delay, k + 1) == TotalSleep(delay, k) + SleepFor(DelayAt(delay, k))
    ensures DelayAt(delay, k + 1) == DelayAt(delay, k) * 2 % WORD
  {
    DelayDoubles(delay, k);
  }

  /** The loop ends: by its condition or by a success. */
  ghost predicate Ends(maxRetries: nat, answers: nat -> bool) {
    maxRetries < WORD - 1 || exists i: nat :: answers(i)
  }

  /** Some attempt that is made succeeds. */
  ghost predicate Connects(maxRetries: nat, answers: nat -> bool) {
    exists i: nat :: answers(i) && (i <= maxRetries || maxRetries >= WORD - 1)
  }

  /** The retry loop. `answers(i)` says whether attempt i yields an open connection. One
      pause falls out each time the counter wraps around. */
  method CreateConnection(maxRetries: nat, retryDelay: nat, answers: nat -> bool)
    returns (connected: bool, attempts: nat, slept: nat)
    requires maxRetries < WORD && retryDelay < WORD && Ends(maxRetries, answers)
    ensures attempts >= 1
    ensures forall i | 0 <= i < attempts - 1 :: !answers(i)
    ensures connected == answers(attempts - 1)
    ensures maxRetries < WORD - 1 ==> attempts <= maxRetries + 1
    ensures !connected ==> attempts == maxRetries + 1 && maxRetries < WORD - 1
    ensures slept == TotalSleep(retryDelay, attempts - 1 - (attempts - 1) / WORD)
  {
    hide TotalSleep;
    hide DelayAt;
    NoPause(retryDelay);
    ghost var end: nat := maxRetries;
    if maxRetries >= WORD - 1 {
      end :| answers(end);
    }
    var delay := retryDelay;
    var attempt := 0;
    attempts := 0;
    slept := 0;
    ghost var pauses := 0;
    while attempt <= maxRetries
      invariant attempt == Counter(attempts)
      invariant attempts <= end + 1
      invariant forall i | 0 <= i < attempts :: !answers(i)
      invariant slept == TotalSleep(retryDelay, pauses) && delay == DelayAt(retryDelay, pauses)
      invariant pauses == if attempt <= maxRetries then attempts - attempts / WORD else maxRetries
      invariant attempt > maxRetries ==> attempts == maxRetries + 1
      decreases end + 1 - attempts
    {
      CounterAdvances(attempts);
      attempts := attempts + 1;
      if answers(attempts - 1) {
        return true, attempts, slept;
      }
      if attempt < maxRetries {
        slept := slept + SleepFor(delay);
        OnePause(retryDelay, pauses);
        delay := delay * 2 % WORD;
        pauses := pauses + 1;
      }
      attempt := (attempt + 1) % WORD;
    }
    return false, attempts, slept;
  }

  /** What the loop reports is whether any attempt that can be made succeeds. */
  lemma ReportsWhetherConnects(maxRetries: nat, answers: nat -> bool, connected: bool, attempts: nat)
    requires attempts >= 1 && connected == answers(attempts - 1)
    requires forall i | 0 <= i < attempts - 1 :: !answers(i)
    requires maxRetries < WORD - 1 ==> attempts <= maxRetries + 1
    requires !connected ==> attempts == maxRetries + 1 && maxRetries < WORD - 1
    ensures connected <==> Connects(maxRetries, answers)
  {
    if connected {
      var last: nat := attempts - 1;
      assert answers(last);
    }
  }
}
