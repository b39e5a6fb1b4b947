/** Per-pair reduction of batch durations to one reported latency. */
module Latency {

  /** `std::chrono::nanoseconds` holds a signed 64-bit count. */
  const MinNanos: int := -0x8000_0000_0000_0000
  const MaxNanos: int := 0x7FFF_FFFF_FFFF_FFFF

  type Nanos = x: int | MinNanos <= x <= MaxNanos

  /** Number of handshake steps timed together in one batch. */
  const StepsPerBatch: nat := 100

  /** The measured wall-clock duration of batch `m` of the handshake between a
      responder pinned to CPU `responder` and an initiator pinned to CPU `initiator`.
      The two-thread handshake and the clock are not modelled; this is their outcome. */
  type BatchTimer = (int, int, nat) -> Nanos

  /** `std::min(a, b)`: `b` only when it is strictly smaller. */
  function Min(a: Nanos, b: Nanos): (r: Nanos)
    ensures r <= a && r <= b
    ensures r == a || r == b
  {
    if b < a then b else a
  }

  /** The round-trip figure left in `rtt` once the first `n` batches of a pair are
      reduced: the minimum of their durations, `MaxNanos` when there are none. */
  function BatchMin(timer: BatchTimer, responder: int, initiator: int, n: int): (r: Nanos)
    ensures forall m: nat :: m < n ==> r <= timer(responder, initiator, m)
    ensures n >= 1 ==> exists m: nat :: m < n && r == timer(responder, initiator, m)
    ensures n <= 0 ==> r == MaxNanos
    decreases if n < 0 then 0 else n
  {
    if n <= 0 then MaxNanos
    else Min(BatchMin(timer, responder, initiator, n - 1), timer(responder, initiator, n - 1))
  }

  /** The batch loop run by the initiator thread for one pair: `rtt` starts at the
      largest duration and is lowered to each batch's duration in turn. */
  method MeasurePair(timer: BatchTimer, responder: int, initiator: int, nsamples: int)
    returns (rtt: Nanos)
    ensures rtt == BatchMin(timer, responder, initiator, nsamples)
  {
    rtt := MaxNanos;
    var m := 0;
    while m < nsamples
      invariant 0 <= m && (m <= nsamples || m == 0)
      invariant rtt == BatchMin(timer, responder, initiator, m)
    {
      rtt := Min(rtt, timer(responder, initiator, m));
      m := m + 1;
    }
  }

  /** More batches never raise the reported round trip. */
  lemma BatchMinNonIncreasing(timer: BatchTimer, responder: int, initiator: int, n: int, n': int)
    requires n <= n'
    ensures BatchMin(timer, responder, initiator, n') <= BatchMin(timer, responder, initiator, n)
  {
  }

  /** C++ integer division: the quotient is truncated toward zero. */
  function TruncDiv(a: int, b: int): (q: int)
    requires b > 0
    ensures a >= 0 ==> 0 <= q && q * b <= a < q * b + b
    ensures a < 0 ==> q <= 0 && q * b - b < a <= q * b
  {
    assert (a / b) * b + a % b == a && ((-a) / b) * b + (-a) % b == -a;
    if a >= 0 then a / b else -((-a) / b)
  }

  /** `rtt / 2 / StepsPerBatch`: half a round trip, per step, truncated twice.
      The result is the round trip divided by 200 and truncated toward zero. */
  function OneWay(rtt: Nanos): (r: Nanos)
    ensures rtt >= 0 ==> 0 <= r && 200 * r <= rtt < 200 * r + 200
    ensures rtt < 0 ==> r <= 0 && 200 * r - 200 < rtt <= 200 * r
  {
    TruncDiv(TruncDiv(rtt, 2), StepsPerBatch)
  }

  /** A pair probed with no batches at all reports `nanoseconds::max() / 200`. */
  lemma NoBatchesReportsMaxOverTwoHundred(timer: BatchTimer, responder: int, initiator: int, n: int)
    requires n <= 0
    ensures OneWay(BatchMin(timer, responder, initiator, n)) == 46_116_860_184_273_879
  {
  }

  /** With non-negative batch durations the reported figure is non-negative and
      at most every batch's duration divided by 200. */
  lemma {:induction false} OneWayOfMinBounds(timer: BatchTimer, responder: int, initiator: int, n: int)
    requires forall m: nat :: m < n ==> timer(responder, initiator, m) >= 0
    ensures var r := OneWay(BatchMin(timer, responder, initiator, n));
      0 <= r && forall m: nat :: m < n ==> 200 * r <= timer(responder, initiator, m)
  {
    var rtt := BatchMin(timer, responder, initiator, n);
    if n >= 1 {
      var m0: nat :| m0 < n && rtt == timer(responder, initiator, m0);
      assert rtt >= 0;
    }
  }
}
