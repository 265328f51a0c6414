/**
 * The encoder statistics record of the video stats plugin and its arrival-stamp
 * FIFO: `buffer_in` stamps a buffer entering the encoder, `buffer_out` pops the
 * oldest stamp when a buffer leaves and adds its latency to the running total.
 *
 * Instants and durations are naturals counting nanoseconds; "now" is a parameter.
 */
module VideoEncoderStats {
  import opened Common

  /** `num_buffers as u32` keeps the low 32 bits. */
  const U32_MODULUS: nat := 0x1_0000_0000

  datatype Fraction = Fraction(numer: int, denom: int)

  /** The statistics record; a value that is cloned and compared as a whole. */
  datatype VideoEncoderStats = VideoEncoderStats(
    name: string,
    numBuffers: nat,
    numBytes: nat,
    timeLastBuffers: seq<nat>,
    maxBuffersInside: nat,
    totalProcessingTime: nat,
    threadsUtime: nat,
    threadsStime: nat,
    framerate: Option<Fraction>,
    vmafScore: real)

  /** `VideoEncoderStats::default()`. */
  function Default(): VideoEncoderStats
  {
    VideoEncoderStats("", 0, 0, [], 0, 0, 0, 0, None, 0.0)
  }

  /** `arrive.elapsed()` observed at `now`; a monotonic instant saturates at zero. */
  function Elapsed(arrive: nat, now: nat): nat
  {
    if now >= arrive then now - arrive else 0
  }

  /** Sum of the latencies of the buffers that arrived at `arrivals[k]` and left at `departures[k]`. */
  function TotalLatency(arrivals: seq<nat>, departures: seq<nat>): nat
    requires |arrivals| == |departures|
  {
    if |arrivals| == 0 then 0
    else TotalLatency(arrivals[..|arrivals| - 1], departures[..|departures| - 1])
         + Elapsed(arrivals[|arrivals| - 1], departures[|departures| - 1])
  }

  function Sum(s: seq<nat>): nat
  {
    if |s| == 0 then 0 else Sum(s[..|s| - 1]) + s[|s| - 1]
  }

  /** When no buffer leaves before it arrived, the total latency is the sum of the
      departure stamps minus the sum of the arrival stamps. */
  lemma {:induction false} TotalLatencyClosedForm(arrivals: seq<nat>, departures: seq<nat>)
    requires |arrivals| == |departures|
    requires forall k :: 0 <= k < |arrivals| ==> arrivals[k] <= departures[k]
    ensures TotalLatency(arrivals, departures) + Sum(arrivals) == Sum(departures)
  {
    if |arrivals| > 0 {
      var n := |arrivals| - 1;
      TotalLatencyClosedForm(arrivals[..n], departures[..n]);
    }
  }

  /** The failure `buffer_out` reports with a panic: "output buffer w/o input". */
  datatype StatsError = OutputWithoutInput | DivideByZero

  /**
   * A mutable place holding one statistics record (`&mut VideoEncoderStats`).
   * The ghost history records every arrival stamp and every departure stamp, in order.
   */
  class StatsRef {
    var stats: VideoEncoderStats
    ghost var arrived: seq<nat>
    ghost var departed: seq<nat>

    /** The queue holds exactly the stamps of the buffers that have not left yet,
        the total is the sum of the latencies of those that have, and the
        high-water mark bounds the queue. */
    ghost predicate Valid()
      reads this
    {
      && |departed| <= |arrived|
      && stats.timeLastBuffers == arrived[|departed|..]
      && stats.totalProcessingTime == TotalLatency(arrived[..|departed|], departed)
      && |stats.timeLastBuffers| <= stats.maxBuffersInside
    }

    constructor (name: string)
      ensures Valid()
      ensures stats == Default().(name := name)
      ensures arrived == [] && departed == []
    {
      stats := Default().(name := name);
      arrived, departed := [], [];
    }

    /** `buffer_in`: stamp one more buffer at the back and raise the high-water mark. */
    method BufferIn(now: nat)
      requires Valid()
      modifies this
      ensures Valid()
      ensures stats == old(stats).(
                timeLastBuffers := old(stats.timeLastBuffers) + [now],
                maxBuffersInside := Max(old(stats.maxBuffersInside), |old(stats.timeLastBuffers)| + 1))
      ensures arrived == old(arrived) + [now] && departed == old(departed)
      ensures |stats.timeLastBuffers| == |arrived| - |departed|
    {
      stats := stats.(timeLastBuffers := stats.timeLastBuffers + [now]);
      if |stats.timeLastBuffers| > stats.maxBuffersInside {
        stats := stats.(maxBuffersInside := |stats.timeLastBuffers|);
      }
      arrived := arrived + [now];
      assert arrived[..|departed|] == old(arrived)[..|departed|];
    }

    /** `buffer_out`: pop the oldest stamp and add its latency to the total; with
        no stamp queued the source panics, here it is an error and nothing changes. */
    method BufferOut(now: nat) returns (r: Result<nat, StatsError>)
      requires Valid()
      modifies this
      ensures Valid()
      ensures old(stats.timeLastBuffers) == [] ==>
                r == Err(OutputWithoutInput) && stats == old(stats)
                && arrived == old(arrived) && departed == old(departed)
      ensures old(stats.timeLastBuffers) != [] ==>
                var arrive := old(stats.timeLastBuffers)[0];
                && r == Ok(arrive)
                && stats == old(stats).(
                     timeLastBuffers := old(stats.timeLastBuffers)[1..],
                     totalProcessingTime := old(stats.totalProcessingTime) + Elapsed(arrive, now))
                && arrived == old(arrived) && departed == old(departed) + [now]
      ensures |stats.timeLastBuffers| == |arrived| - |departed|
    {
      if |stats.timeLastBuffers| == 0 {
        return Err(OutputWithoutInput);
      }
      var arrive := stats.timeLastBuffers[0];
      stats := stats.(timeLastBuffers := stats.timeLastBuffers[1..],
                      totalProcessingTime := stats.totalProcessingTime + Elapsed(arrive, now));
      ghost var k := |departed|;
      assert arrived[k] == arrive;
      departed := departed + [now];
      assert arrived[..k + 1][..k] == arrived[..k];
      assert departed[..k] == old(departed);
      r := Ok(arrive);
    }
  }

  /** `avg_processing_time` as written: the divisor is `num_buffers` truncated to
      32 bits, and a zero divisor panics. */
  function AvgProcessingTime(s: VideoEncoderStats): (r: Result<nat, StatsError>)
    ensures s.numBuffers == 0 ==> r == Ok(0)
    ensures s.numBuffers != 0 ==> (r.Err? <==> s.numBuffers % U32_MODULUS == 0)
    ensures r.Ok? && s.numBuffers != 0 ==>
              var d := s.numBuffers % U32_MODULUS;
              r.value * d <= s.totalProcessingTime < (r.value + 1) * d
  {
    if s.numBuffers != 0 then
      var d := s.numBuffers % U32_MODULUS;
      if d == 0 then Err(DivideByZero) else Ok(s.totalProcessingTime / d)
    else Ok(0)
  }

  /** The mean latency the function is evidently meant to give: total over the full count. */
  function AvgProcessingTimeFixed(s: VideoEncoderStats): (r: nat)
    ensures s.numBuffers == 0 ==> r == 0
    ensures s.numBuffers != 0 ==>
              r * s.numBuffers <= s.totalProcessingTime < (r + 1) * s.numBuffers
  {
    if s.numBuffers != 0 then s.totalProcessingTime / s.numBuffers else 0
  }

  /** Below 2^32 buffers the two agree. */
  lemma AvgAgreesBelowU32(s: VideoEncoderStats)
    requires s.numBuffers < U32_MODULUS
    ensures AvgProcessingTime(s) == Ok(AvgProcessingTimeFixed(s))
  {
  }

  /** With exactly 2^32 buffers counted, the as-written division panics. */
  lemma AvgPanicsAtU32(s: VideoEncoderStats)
    requires s.numBuffers == U32_MODULUS
    ensures AvgProcessingTime(s) == Err(DivideByZero)
    ensures AvgProcessingTimeFixed(s) == s.totalProcessingTime / U32_MODULUS
  {
  }
}
