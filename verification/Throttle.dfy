/**
 The token-bucket throttle (src/net/impairments.cpp, `throttle_delay`) in exact
 arithmetic: when each datagram is released, and how much can be.
 */
module Throttle {
  import opened Basics

  type Rate = r: real | r > 0.0 witness 1.0

  datatype Bucket = Bucket(tokens: real, lastRefill: real)
  datatype Arrival = Arrival(size: nat, time: real)

  function Capped(tokens: real, rate: Rate): real {
    if tokens <= rate then tokens else rate
  }

  /** Refill for the time passed, at most one second's worth, and charge the datagram. */
  function Charge(b: Bucket, rate: Rate, a: Arrival): Bucket {
    Bucket(Capped(b.tokens + (a.time - b.lastRefill) * rate, rate) - a.size as real, a.time)
  }

  /** Seconds until the bucket has earned back what it owes. */
  function Delay(b: Bucket, rate: Rate): (d: real)
    ensures d >= 0.0
  {
    if b.tokens >= 0.0 then 0.0 else -b.tokens / rate
  }

  /** The delay as scheduled, in whole milliseconds. */
  function DelayMilliseconds(b: Bucket, rate: Rate): int {
    (Delay(b, rate) * 1000.0).Floor
  }

  lemma TruncationCostsLessThanAMillisecond(b: Bucket, rate: Rate)
    ensures var scheduled := DelayMilliseconds(b, rate) as real / 1000.0;
      scheduled <= Delay(b, rate) < scheduled + 0.001
  {
  }

  // -------------------------------------------------------------- Whole runs

  /** Arrivals in order, none before the bucket was made. */
  ghost predicate Timely(start: real, arrivals: seq<Arrival>) {
    && (forall i :: 0 <= i < |arrivals| ==> start <= arrivals[i].time)
    && (forall i, j :: 0 <= i < j < |arrivals| ==> arrivals[i].time <= arrivals[j].time)
  }

  function BucketAfter(rate: Rate, start: real, arrivals: seq<Arrival>, k: nat): Bucket
    requires k <= |arrivals|
  {
    if k == 0 then Bucket(0.0, start)
    else Charge(BucketAfter(rate, start, arrivals, k - 1), rate, arrivals[k - 1])
  }

  /** When the k-th datagram is released, counting from 1; the start for none. */
  function Deadline(rate: Rate, start: real, arrivals: seq<Arrival>, k: nat): real
    requires k <= |arrivals|
  {
    var b := BucketAfter(rate, start, arrivals, k);
    b.lastRefill + Delay(b, rate)
  }

  function Bytes(arrivals: seq<Arrival>, k: nat): nat
    requires k <= |arrivals|
  {
    if k == 0 then 0 else Bytes(arrivals, k - 1) + arrivals[k - 1].size
  }

  /** What the rate earns in `seconds`. */
  function Earned(rate: Rate, seconds: real): real {
    rate * seconds
  }

  lemma PositiveProduct(rate: Rate, x: real)
    ensures x >= 0.0 ==> rate * x >= 0.0
    ensures x > 0.0 ==> rate * x > 0.0
  {
  }

  lemma ProductOfDifference(rate: Rate, x: real, y: real)
    ensures rate * (y - x) == rate * y - rate * x
  {
  }

  lemma EarnedIsLinear(rate: Rate, x: real, y: real)
    ensures Earned(rate, y - x) == Earned(rate, y) - Earned(rate, x)
    ensures x <= y <==> Earned(rate, x) <= Earned(rate, y)
  {
    ProductOfDifference(rate, x, y);
    ProductOfDifference(rate, y, x);
    PositiveProduct(rate, y - x);
    PositiveProduct(rate, x - y);
  }

  lemma ChargeEarns(b: Bucket, rate: Rate, a: Arrival)
    ensures var c := Charge(b, rate, a);
      && c.lastRefill == a.time && c.tokens <= rate
      && c.tokens <= b.tokens + Earned(rate, a.time) - Earned(rate, b.lastRefill) - a.size as real
  {
    EarnedIsLinear(rate, b.lastRefill, a.time);
  }

  lemma EarnedByDeadline(rate: Rate, b: Bucket)
    ensures Earned(rate, b.lastRefill + Delay(b, rate))
            == Earned(rate, b.lastRefill) + (if b.tokens >= 0.0 then 0.0 else -b.tokens)
  {
    var d := Delay(b, rate);
    assert Earned(rate, d) == if b.tokens >= 0.0 then 0.0 else -b.tokens;
    EarnedIsLinear(rate, b.lastRefill, b.lastRefill + d);
    assert b.lastRefill + d - b.lastRefill == d;
  }

  /** Tokens never exceed a second's worth, and never what time has earned since `i`. */
  lemma {:induction false} TokensEarned(rate: Rate, start: real, arrivals: seq<Arrival>, i: nat, k: nat)
    requires i <= k <= |arrivals| && Timely(start, arrivals)
    ensures var b, c := BucketAfter(rate, start, arrivals, i), BucketAfter(rate, start, arrivals, k);
      && c.tokens <= rate && b.lastRefill <= c.lastRefill && start <= c.lastRefill
      && c.tokens <= b.tokens + Earned(rate, c.lastRefill) - Earned(rate, b.lastRefill)
                     - (Bytes(arrivals, k) - Bytes(arrivals, i)) as real
      && (k > 0 ==> c.lastRefill == arrivals[k - 1].time)
    decreases k
  {
    hide Charge, Earned;
    if k > 0 {
      TokensEarned(rate, start, arrivals, if i == k then k - 1 else i, k - 1);
      ChargeEarns(BucketAfter(rate, start, arrivals, k - 1), rate, arrivals[k - 1]);
    }
  }

  lemma {:induction false} BytesGrow(arrivals: seq<Arrival>, i: nat, j: nat)
    requires i <= j <= |arrivals|
    ensures Bytes(arrivals, i) <= Bytes(arrivals, j)
  {
    if i < j {
      BytesGrow(arrivals, i, j - 1);
    }
  }

  /** Datagrams are released in the order they arrived. */
  lemma DeadlinesNondecreasing(rate: Rate, start: real, arrivals: seq<Arrival>, i: nat, j: nat)
    requires i <= j <= |arrivals| && Timely(start, arrivals)
    ensures Deadline(rate, start, arrivals, i) <= Deadline(rate, start, arrivals, j)
  {
    hide Earned, Delay;
    var b, c := BucketAfter(rate, start, arrivals, i), BucketAfter(rate, start, arrivals, j);
    TokensEarned(rate, start, arrivals, i, j);
    BytesGrow(arrivals, i, j);
    EarnedByDeadline(rate, b);
    EarnedByDeadline(rate, c);
    EarnedIsLinear(rate, b.lastRefill, c.lastRefill);
    EarnedIsLinear(rate, Deadline(rate, start, arrivals, i), Deadline(rate, start, arrivals, j));
  }

  /**
   Between any two releases no more passes than the rate allows plus one second
   of traffic, and from the start no more than the rate allows.
   */
  lemma ThrottleBound(rate: Rate, start: real, arrivals: seq<Arrival>, i: nat, j: nat)
    requires i <= j <= |arrivals| && Timely(start, arrivals)
    ensures (Bytes(arrivals, j) - Bytes(arrivals, i)) as real
            <= Earned(rate, Deadline(rate, start, arrivals, j) - Deadline(rate, start, arrivals, i)) + rate
    ensures Bytes(arrivals, j) as real <= Earned(rate, Deadline(rate, start, arrivals, j) - start)
  {
    hide Earned, Delay;
    TokensEarned(rate, start, arrivals, i, j);
    TokensEarned(rate, start, arrivals, 0, j);
    TokensEarned(rate, start, arrivals, i, i);
    EarnedByDeadline(rate, BucketAfter(rate, start, arrivals, i));
    EarnedByDeadline(rate, BucketAfter(rate, start, arrivals, j));
    EarnedIsLinear(rate, Deadline(rate, start, arrivals, i), Deadline(rate, start, arrivals, j));
    EarnedIsLinear(rate, start, Deadline(rate, start, arrivals, j));
  }

  /** Bytes among the first k datagrams released no later than `moment`. */
  function ReleasedBy(rate: Rate, start: real, arrivals: seq<Arrival>, k: nat, moment: real): nat
    requires k <= |arrivals|
  {
    if k == 0 then 0
    else ReleasedBy(rate, start, arrivals, k - 1, moment)
         + if Deadline(rate, start, arrivals, k) <= moment then arrivals[k - 1].size else 0
  }

  lemma {:induction false} AllReleased(rate: Rate, start: real, arrivals: seq<Arrival>, k: nat, moment: real)
    requires k <= |arrivals| && Timely(start, arrivals)
    requires k == 0 || Deadline(rate, start, arrivals, k) <= moment
    ensures ReleasedBy(rate, start, arrivals, k, moment) == Bytes(arrivals, k)
  {
    hide Deadline;
    if k > 0 {
      if k > 1 {
        DeadlinesNondecreasing(rate, start, arrivals, k - 1, k);
      }
      AllReleased(rate, start, arrivals, k - 1, moment);
    }
  }

  /** At no moment has more been released than the rate allows since the start. */
  lemma {:induction false} ReleasedWithinRate(rate: Rate, start: real, arrivals: seq<Arrival>, k: nat, moment: real)
    requires k <= |arrivals| && Timely(start, arrivals) && start <= moment
    ensures ReleasedBy(rate, start, arrivals, k, moment) as real <= Earned(rate, moment - start)
  {
    hide Earned, Deadline;
    EarnedIsLinear(rate, start, moment);
    if k > 0 {
      var d := Deadline(rate, start, arrivals, k);
      if d <= moment {
        AllReleased(rate, start, arrivals, k, moment);
        ThrottleBound(rate, start, arrivals, 0, k);
        EarnedIsLinear(rate, start, d);
        EarnedIsLinear(rate, d, moment);
      } else {
        ReleasedWithinRate(rate, start, arrivals, k - 1, moment);
      }
    }
  }

  // ----------------------------------------------------- No longer than owed

  /**
   What the bucket would hold after the k-th datagram had it last been full just
   before the i-th: a second's worth and what was earned since, less what was
   charged; counted from the empty bucket at the start for i == 0.
   */
  function Balance(rate: Rate, start: real, arrivals: seq<Arrival>, i: nat, k: nat): real
    requires i <= k <= |arrivals|
  {
    var now := if k == 0 then start else arrivals[k - 1].time;
    if i == 0 then Earned(rate, now - start) - Bytes(arrivals, k) as real
    else rate + Earned(rate, now - arrivals[i - 1].time) - (Bytes(arrivals, k) - Bytes(arrivals, i - 1)) as real
  }

  lemma ChargeExactly(b: Bucket, rate: Rate, a: Arrival)
    ensures var c := Charge(b, rate, a);
      && c.tokens <= rate - a.size as real
      && c.tokens <= b.tokens + Earned(rate, a.time) - Earned(rate, b.lastRefill) - a.size as real
      && (c.tokens == rate - a.size as real
          || c.tokens == b.tokens + Earned(rate, a.time) - Earned(rate, b.lastRefill) - a.size as real)
  {
    EarnedIsLinear(rate, b.lastRefill, a.time);
  }

  lemma OneMoreCharge(rate: Rate, start: real, arrivals: seq<Arrival>, i: nat, k: nat)
    requires i < k <= |arrivals|
    ensures Balance(rate, start, arrivals, k, k) == rate - arrivals[k - 1].size as real
    ensures var before := if k == 1 then start else arrivals[k - 2].time;
      Balance(rate, start, arrivals, i, k)
      == Balance(rate, start, arrivals, i, k - 1) + Earned(rate, arrivals[k - 1].time) - Earned(rate, before)
         - arrivals[k - 1].size as real
  {
    var now, before := arrivals[k - 1].time, if k == 1 then start else arrivals[k - 2].time;
    EarnedIsLinear(rate, now, now);
    var since := if i == 0 then start else arrivals[i - 1].time;
    EarnedIsLinear(rate, since, now);
    EarnedIsLinear(rate, since, before);
    hide Earned;
  }

  /** The bucket holds exactly the least of these balances. */
  lemma {:induction false} TokensAreTheLeast(rate: Rate, start: real, arrivals: seq<Arrival>, k: nat) returns (i: nat)
    requires k <= |arrivals|
    ensures i <= k && BucketAfter(rate, start, arrivals, k).tokens == Balance(rate, start, arrivals, i, k)
    ensures forall j :: 0 <= j <= k ==> BucketAfter(rate, start, arrivals, k).tokens <= Balance(rate, start, arrivals, j, k)
    ensures BucketAfter(rate, start, arrivals, k).lastRefill == if k == 0 then start else arrivals[k - 1].time
  {
    if k == 0 {
      EarnedIsLinear(rate, start, start);
      i := 0;
    } else {
      i := TokensAreTheLeast(rate, start, arrivals, k - 1);
      var b, a := BucketAfter(rate, start, arrivals, k - 1), arrivals[k - 1];
      ChargeExactly(b, rate, a);
      hide Charge, Earned, Balance;
      forall j | 0 <= j <= k
        ensures Charge(b, rate, a).tokens <= Balance(rate, start, arrivals, j, k)
      {
        OneMoreCharge(rate, start, arrivals, if j < k then j else 0, k);
      }
      OneMoreCharge(rate, start, arrivals, i, k);
      if Charge(b, rate, a).tokens == rate - a.size as real {
        i := k;
      }
    }
  }

  /**
   No datagram waits longer than the debt requires: it goes at once if none of the
   balances is negative, and otherwise the moment the rate has earned the worst of
   them back.
   */
  lemma WaitsExactlyForItsDebt(rate: Rate, start: real, arrivals: seq<Arrival>, k: nat) returns (i: nat)
    requires 0 < k <= |arrivals|
    ensures i <= k && forall j :: 0 <= j <= k ==> Balance(rate, start, arrivals, i, k) <= Balance(rate, start, arrivals, j, k)
    ensures Earned(rate, Deadline(rate, start, arrivals, k) - arrivals[k - 1].time)
            == if Balance(rate, start, arrivals, i, k) >= 0.0 then 0.0 else -Balance(rate, start, arrivals, i, k)
    ensures Deadline(rate, start, arrivals, k) == arrivals[k - 1].time <==> Balance(rate, start, arrivals, i, k) >= 0.0
  {
    i := TokensAreTheLeast(rate, start, arrivals, k);
    var b := BucketAfter(rate, start, arrivals, k);
    EarnedByDeadline(rate, b);
    EarnedIsLinear(rate, b.lastRefill, b.lastRefill + Delay(b, rate));
    EarnedIsLinear(rate, b.lastRefill + Delay(b, rate), b.lastRefill);
    hide Earned, Balance, Delay;
  }
}
