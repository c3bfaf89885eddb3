/** The rate limiter of src/Transmitter.cpp:788-803. */
module Pacing {
  import opened Arithmetic

  /** The time to the next packet, in microseconds: `bytes` at `rate` kbit/s, rounded up. */
  function Delay(bytes: nat, rate: nat): nat
    requires rate > 0
  {
    CeilDiv(8000 * bytes, rate)
  }

  /** A packet handed to the socket. */
  datatype Departure = Departure(time: nat, bytes: nat)

  /** The timer never fires early. */
  ghost predicate Paced(run: seq<Departure>, rate: nat)
    requires rate > 0
  {
    forall i :: 0 <= i < |run| - 1 ==> run[i].time + Delay(run[i].bytes, rate) <= run[i + 1].time
  }

  function BytesSent(run: seq<Departure>): nat {
    if run == [] then 0 else run[0].bytes + BytesSent(run[1..])
  }

  /** All packets but the last are paid for by the time that passed. */
  lemma {:induction false} PaidByTime(run: seq<Departure>, rate: nat)
    requires rate > 0 && run != [] && Paced(run, rate)
    ensures run[0].time <= run[|run| - 1].time
    ensures 8000 * (BytesSent(run) - run[|run| - 1].bytes) <= rate * (run[|run| - 1].time - run[0].time)
  {
    if |run| == 1 {
      assert BytesSent(run[1..]) == 0;
    } else {
      var rest := run[1..];
      forall i | 0 <= i < |rest| - 1
        ensures rest[i].time + Delay(rest[i].bytes, rate) <= rest[i + 1].time
      {
        assert run[i + 1].time + Delay(run[i + 1].bytes, rate) <= run[i + 1 + 1].time;
      }
      PaidByTime(rest, rate);
      CeilDivBounds(8000 * run[0].bytes, rate);
      Distribute(rate, run[0].time, Delay(run[0].bytes, rate), run[1].time, run[|run| - 1].time);
    }
  }

  lemma Distribute(rate: nat, t0: nat, delay: nat, t1: nat, t2: nat)
    requires t0 + delay <= t1 <= t2
    ensures rate * delay + rate * (t2 - t1) <= rate * (t2 - t0)
  {
    MulMonotone(rate, delay + (t2 - t1), t2 - t0);
  }

  /** In any window of `w` microseconds at most rate * w / 1000 bits are sent, plus one packet. */
  lemma RateIsKept(run: seq<Departure>, rate: nat, w: nat)
    requires rate > 0 && run != [] && Paced(run, rate)
    requires run[|run| - 1].time - run[0].time <= w
    ensures 1000 * (8 * BytesSent(run)) <= rate * w + 1000 * (8 * run[|run| - 1].bytes)
  {
    PaidByTime(run, rate);
    MulMonotone(rate, run[|run| - 1].time - run[0].time, w);
  }

  /** Rounding up costs less than a microsecond a packet, and the delay fits a 32-bit int. */
  lemma DelayIsTight(bytes: nat, rate: nat)
    requires rate > 0
    ensures 8000 * bytes <= rate * Delay(bytes, rate) < 8000 * bytes + rate
    ensures bytes <= 65535 ==> Delay(bytes, rate) < 0x8000_0000
  {
    CeilDivBounds(8000 * bytes, rate);
    var d := Delay(bytes, rate);
    if d >= 1 {
      assert rate * d == rate * (d - 1) + rate;
      MulMonotone(d - 1, 1, rate);
    }
  }
}
