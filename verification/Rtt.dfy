// The clock (rdt_time.cpp) and the round-trip estimator (ReliableSocket::update_rtt).

module Rtt {
  datatype Estimator = Estimator(estimated: int, dev: int)

  const INITIAL := Estimator(200, 10)

  function Timeout(r: Estimator): int { r.estimated + 4 * r.dev }

  function Abs(x: int): nat { if x < 0 then -x else x }

  // The estimator over the integers. Unlike section 2 of RFC 6298, the deviation is taken from the estimate
  // just computed, not from the previous one.
  function Update(r: Estimator, sample: int): Estimator {
    var estimated := (7 * r.estimated + sample) / 8;
    Estimator(estimated, (3 * r.dev + Abs(sample - estimated)) / 4)
  }

  // ----- machine arithmetic

  const TWO31 := 0x8000_0000
  const TWO32 := 0x1_0000_0000

  function ToUint32(x: int): int { x % TWO32 }

  function ToInt32(x: int): int { (x + TWO31) % TWO32 - TWO31 }

  predicate IsInt32(x: int) { -TWO31 <= x < TWO31 }

  // C's integer division and remainder round toward zero.
  function CDiv(x: int, d: int): int
    requires 0 < d
  { if 0 <= x then x / d else -((-x) / d) }

  function CMod(x: int, d: int): int
    requires 0 < d
  { x - d * CDiv(x, d) }

  datatype Timeval = Timeval(sec: int, usec: int)

  function TimevalToMsec(t: Timeval): int { ToInt32(t.sec * 1000 + CDiv(t.usec, 1000)) }

  function MsecToTimeval(millis: int): Timeval { Timeval(CDiv(millis, 1000), CMod(millis, 1000) * 1000) }

  // Whole milliseconds since the epoch, before any truncation to an int.
  function TrueMsec(t: Timeval): int { t.sec * 1000 + CDiv(t.usec, 1000) }

  // rtt_sample in send_until_acked: two int clock readings, subtracted, stored in a uint32_t.
  function Sample(sent: Timeval, received: Timeval): int {
    ToUint32(TimevalToMsec(received) - TimevalToMsec(sent))
  }

  // double to int conversion
  function Truncate(x: real): int { if 0.0 <= x then x.Floor else -((-x).Floor) }

  // update_rtt as the machine computes it. alpha, beta and every product and sum below are multiples of 1/8
  // far below 2^53, so the doubles hold them exactly and reals model them.
  function MachineUpdate(r: Estimator, sample: int): Estimator {
    var estimated := Truncate((1.0 - 0.125) * (r.estimated as real) + 0.125 * (sample as real));
    var difference := ToUint32(sample - estimated);           // int promoted to unsigned
    var deviation := Abs(ToInt32(difference));                // abs takes an int again
    Estimator(estimated, Truncate((1.0 - 0.25) * (r.dev as real) + 0.25 * (deviation as real)))
  }

  predicate InRange(r: Estimator) { 0 <= r.estimated < TWO31 && 0 <= r.dev < TWO31 }

  lemma Wrapped(x: int) returns (k: int)
    ensures ToInt32(x) == x - TWO32 * k
  {
    k := (x + TWO31) / TWO32;
  }

  lemma RemainderIs(x: int, k: int, r: int)
    requires x == TWO32 * k + r && 0 <= r < TWO32
    ensures x % TWO32 == r
  {
  }

  lemma ClockDifference(sent: Timeval, received: Timeval)
    requires 0 <= TrueMsec(received) - TrueMsec(sent) < TWO32
    ensures Sample(sent, received) == TrueMsec(received) - TrueMsec(sent)
  {
    var a, b := TrueMsec(sent), TrueMsec(received);
    var i := Wrapped(a);
    var j := Wrapped(b);
    RemainderIs(ToInt32(b) - ToInt32(a), i - j, b - a);
  }

  lemma EighthOf(x: int, y: int)
    ensures (0.875 * (x as real) + 0.125 * (y as real)).Floor == (7 * x + y) / 8
  {
    var q := (7 * x + y) / 8;
    assert 0.875 * (x as real) + 0.125 * (y as real) == ((7 * x + y) as real) / 8.0;
    assert q as real <= ((7 * x + y) as real) / 8.0 < (q + 1) as real;
  }

  lemma QuarterOf(x: int, y: int)
    ensures (0.75 * (x as real) + 0.25 * (y as real)).Floor == (3 * x + y) / 4
  {
    var q := (3 * x + y) / 4;
    assert 0.75 * (x as real) + 0.25 * (y as real) == ((3 * x + y) as real) / 4.0;
    assert q as real <= ((3 * x + y) as real) / 4.0 < (q + 1) as real;
  }

  lemma UnsignedDifference(x: int, y: int)
    requires 0 <= x < TWO31 && 0 <= y < TWO31
    ensures ToInt32(ToUint32(x - y)) == x - y
  {
  }

  lemma MachineEstimate(r: Estimator, sample: int)
    requires InRange(r) && 0 <= sample < TWO31
    ensures MachineUpdate(r, sample).estimated == Update(r, sample).estimated && InRange(Update(r, sample))
  {
    EighthOf(r.estimated, sample);
  }

  lemma MachineDeviation(r: Estimator, sample: int)
    requires InRange(r) && 0 <= sample < TWO31
    ensures MachineUpdate(r, sample).dev == Update(r, sample).dev
  {
    MachineEstimate(r, sample);
    var estimated := Update(r, sample).estimated;
    UnsignedDifference(sample, estimated);
    QuarterOf(r.dev, Abs(sample - estimated));
  }

  // Wrapping clocks, the unsigned difference and the double truncations together compute the integer update
  // of the true elapsed time.
  lemma MachineRefinesIntegers(r: Estimator, sent: Timeval, received: Timeval)
    requires InRange(r)
    requires 0 <= TrueMsec(received) - TrueMsec(sent) < TWO31
    ensures var elapsed := TrueMsec(received) - TrueMsec(sent);
            MachineUpdate(r, Sample(sent, received)) == Update(r, elapsed) && InRange(Update(r, elapsed))
  {
    ClockDifference(sent, received);
    MachineEstimate(r, TrueMsec(received) - TrueMsec(sent));
    MachineDeviation(r, TrueMsec(received) - TrueMsec(sent));
  }

  // set_timeout_length receives an int as uint32_t, passes it on as an int and splits it into a timeval. The
  // split loses nothing, and only 0 gives the zero timeval, which SO_RCVTIMEO reads as "wait forever".
  lemma TimevalRoundTrip(millis: int)
    requires IsInt32(millis)
    ensures ToInt32(ToUint32(millis)) == millis
    ensures TimevalToMsec(MsecToTimeval(millis)) == millis
    ensures MsecToTimeval(millis) == Timeval(0, 0) <==> millis == 0
    ensures var t := MsecToTimeval(millis);
            if 0 <= millis then 0 <= t.usec < 1_000_000 else t.sec <= 0 && -1_000_000 < t.usec <= 0
  {
    var r := CMod(millis, 1000);
    assert CDiv(r * 1000, 1000) == r;
  }

  // ----- every sequence of samples

  function UpdateAll(r: Estimator, samples: seq<int>): Estimator
    decreases |samples|
  {
    if samples == [] then r else UpdateAll(Update(r, samples[0]), samples[1..])
  }

  ghost predicate AllWithin(samples: seq<int>, lo: int, hi: int) {
    forall i :: 0 <= i < |samples| ==> lo <= samples[i] <= hi
  }

  lemma UpdateInHull(r: Estimator, sample: int, lo: int, hi: int, width: int)
    requires lo <= r.estimated <= hi && lo <= sample <= hi
    requires 0 <= r.dev <= width && hi - lo <= width
    ensures var r' := Update(r, sample); lo <= r'.estimated <= hi && 0 <= r'.dev <= width
  {
  }

  lemma {:induction false} HullFrom(r: Estimator, samples: seq<int>, lo: int, hi: int, width: int)
    requires lo <= r.estimated <= hi && AllWithin(samples, lo, hi)
    requires 0 <= r.dev <= width && hi - lo <= width
    ensures var r' := UpdateAll(r, samples); lo <= r'.estimated <= hi && 0 <= r'.dev <= width
    decreases |samples|
  {
    if samples != [] {
      UpdateInHull(r, samples[0], lo, hi, width);
      HullFrom(Update(r, samples[0]), samples[1..], lo, hi, width);
    }
  }

  // The estimate never leaves the hull of 200 and the samples, the deviation never exceeds 10 or the hull's
  // width, and if no sample is 0 the timeout is never 0, so retransmission is never switched off.
  lemma HullBound(samples: seq<int>, lo: int, hi: int)
    requires lo <= 200 <= hi && AllWithin(samples, lo, hi)
    ensures var r := UpdateAll(INITIAL, samples);
            && lo <= r.estimated <= hi
            && 0 <= r.dev <= (if hi - lo < 10 then 10 else hi - lo)
            && (1 <= lo ==> 1 <= Timeout(r))
  {
    HullFrom(INITIAL, samples, lo, hi, if hi - lo < 10 then 10 else hi - lo);
  }

  // A fifth of the range of an int (almost five days): up to here the sum of the estimate and four deviations
  // does not overflow.
  const MAX_SAMPLE := (TWO31 - 1) / 5

  predicate Bounded(r: Estimator) { 0 <= r.estimated <= MAX_SAMPLE && 0 <= r.dev <= MAX_SAMPLE }

  lemma UpdateStaysBounded(r: Estimator, sample: int)
    requires Bounded(r) && 0 <= sample <= MAX_SAMPLE
    ensures Bounded(Update(r, sample)) && 0 <= Timeout(Update(r, sample)) < TWO31
  {
    UpdateInHull(r, sample, 0, MAX_SAMPLE, MAX_SAMPLE);
  }

  // For all such samples every timeout is an int; without the bound even the first one need not be.
  lemma TimeoutFits(samples: seq<int>)
    requires AllWithin(samples, 0, MAX_SAMPLE)
    ensures Bounded(UpdateAll(INITIAL, samples)) && 0 <= Timeout(UpdateAll(INITIAL, samples)) < TWO31
    ensures !IsInt32(Timeout(Update(INITIAL, TWO31 - 1)))
  {
    HullBound(samples, 0, MAX_SAMPLE);
  }

  // ----- a constant sample

  function Iterate(r: Estimator, sample: int, k: nat): Estimator
    decreases k
  {
    if k == 0 then r else Iterate(Update(r, sample), sample, k - 1)
  }

  predicate Settled(r: Estimator, sample: int) {
    && Update(r, sample) == r
    && sample - 7 <= r.estimated <= sample
    && sample - 3 <= Timeout(r) <= sample + 21
  }

  // One update either leaves the estimator alone, or brings the estimate closer to the sample, or keeps the
  // estimate and brings the deviation closer to its distance from the sample.
  lemma UpdateApproaches(r: Estimator, sample: int)
    requires 0 <= r.dev && Update(r, sample) != r
    ensures var r' := Update(r, sample);
            || Abs(sample - r'.estimated) < Abs(sample - r.estimated)
            || (r'.estimated == r.estimated
                && Abs(r'.dev - Abs(sample - r.estimated)) < Abs(r.dev - Abs(sample - r.estimated)))
  {
  }

  // Under a constant sample the estimator stops after finitely many updates.
  lemma {:induction false} Converges(r: Estimator, sample: int) returns (n: nat)
    requires 0 <= r.estimated && 0 <= r.dev && 0 <= sample
    ensures Settled(Iterate(r, sample, n), sample)
    ensures forall m :: n <= m ==> Iterate(r, sample, m) == Iterate(r, sample, n)
    ensures sample <= r.estimated ==> Iterate(r, sample, n) == Estimator(sample, 0)
    decreases Abs(sample - r.estimated), Abs(r.dev - Abs(sample - r.estimated))
  {
    if Update(r, sample) == r {
      n := 0;
      forall m: nat ensures Iterate(r, sample, m) == r { IterateFixed(r, sample, m); }
    } else {
      UpdateApproaches(r, sample);
      var n' := Converges(Update(r, sample), sample);
      n := n' + 1;
      forall m | n <= m ensures Iterate(r, sample, m) == Iterate(r, sample, n) {
        assert Iterate(Update(r, sample), sample, m - 1) == Iterate(Update(r, sample), sample, n');
      }
    }
  }

  lemma {:induction false} IterateFixed(r: Estimator, sample: int, m: nat)
    requires Update(r, sample) == r
    ensures Iterate(r, sample, m) == r
    decreases m
  {
    if m != 0 { IterateFixed(r, sample, m - 1); }
  }

  // From a fresh socket the timeout under a constant sample settles, and it settles at 0 (wait forever)
  // exactly for the sample 0.
  lemma FreshSocketSettles(sample: nat) returns (n: nat)
    ensures Settled(Iterate(INITIAL, sample, n), sample)
    ensures forall m :: n <= m ==> Timeout(Iterate(INITIAL, sample, m)) == Timeout(Iterate(INITIAL, sample, n))
    ensures sample <= 200 ==> Timeout(Iterate(INITIAL, sample, n)) == sample
    ensures Timeout(Iterate(INITIAL, sample, n)) == 0 <==> sample == 0
  {
    n := Converges(INITIAL, sample);
  }

  // The values in a recorded run: the first data segment was acknowledged in under a millisecond.
  lemma RecordedTimeout()
    ensures Update(INITIAL, 0) == Estimator(175, 51) && Timeout(Update(INITIAL, 0)) == 379
  {
  }
}
