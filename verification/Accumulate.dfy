/** Step accumulation: an integral of irregular samples, cut at multiples of the step size
    (landscape/client/accumulate.py). Timestamps are whole seconds. */
module Accumulate {

  import opened Common

  /** A data point for the time `at`, a multiple of the step size. */
  datatype Point = Point(at: int, value: real)

  datatype Sample = Sample(time: int, value: real)

  /** What `Accumulator` keeps for a key. */
  datatype Stored = Stored(time: int, acc: real)

  /** The start of the step `time` is in. */
  function Boundary(time: int, step: int): int
    requires step > 0
  {
    time / step * step
  }

  /** `accumulate`. */
  function Accumulate(prev: Stored, now: Sample, step: int): (Stored, Option<Point>)
    requires step > 0
  {
    var boundary := Boundary(now.time, step);
    var stepDiff := now.time / step - prev.time / step;
    if stepDiff == 0 then
      (Stored(now.time, prev.acc + (now.time - prev.time) as real * now.value), None)
    else if stepDiff == 1 then
      var total := prev.acc + (boundary - prev.time) as real * now.value;
      (Stored(now.time, (now.time - boundary) as real * now.value), Some(Point(boundary, total / step as real)))
    else
      (Stored(now.time, (now.time - boundary) as real * now.value), None)
  }

  /** `Accumulator`: one stored pair per key, zero at first. */
  class Accumulator {
    const stepSize: int
    var persist: map<string, Stored>

    constructor (stepSize: int)
      requires stepSize > 0
      ensures this.stepSize == stepSize && persist == map[]
    {
      this.stepSize := stepSize;
      persist := map[];
    }

    method Call(newTimestamp: int, newValue: real, key: string) returns (stepData: Option<Point>)
      requires stepSize > 0
      modifies this
      ensures var (s, p) := Accumulate(Before(old(persist), key), Sample(newTimestamp, newValue), stepSize);
              persist == old(persist)[key := s] && stepData == p
    {
      var previous := if key in persist then persist[key] else Stored(0, 0.0);
      var (next, point) := Accumulate(previous, Sample(newTimestamp, newValue), stepSize);
      persist := persist[key := next];
      stepData := point;
    }
  }

  function Before(persist: map<string, Stored>, key: string): Stored {
    if key in persist then persist[key] else Stored(0, 0.0)
  }

  // ---------------------------------------------------------------------------------
  // The integral
  // ---------------------------------------------------------------------------------

  function LastTime(samples: seq<Sample>): int {
    if samples == [] then 0 else samples[|samples| - 1].time
  }

  function Init(samples: seq<Sample>): seq<Sample>
    requires samples != []
  {
    samples[..|samples| - 1]
  }

  /** Samples of one key come in order of time, from time zero on. */
  ghost predicate InOrder(samples: seq<Sample>)
    decreases |samples|
  {
    samples != [] ==> InOrder(Init(samples)) && LastTime(Init(samples)) <= LastTime(samples)
  }

  /** The length of the part of `a..b` that lies in `lo..hi`. */
  function Overlap(a: int, b: int, lo: int, hi: int): int {
    Max(0, Min(b, hi) - Max(a, lo))
  }

  /** The integral from `lo` to `hi` of the function whose value from each sample's predecessor
      (or time zero) up to the sample is the sample's. */
  ghost function Area(samples: seq<Sample>, lo: int, hi: int): real
    decreases |samples|
  {
    if samples == [] then 0.0
    else
      var init, last := Init(samples), samples[|samples| - 1];
      Area(init, lo, hi) + Overlap(LastTime(init), last.time, lo, hi) as real * last.value
  }

  lemma {:induction false} NonNegative(samples: seq<Sample>)
    requires InOrder(samples)
    ensures LastTime(samples) >= 0
    decreases |samples|
  {
    if samples != [] {
      NonNegative(Init(samples));
    }
  }

  /** Beyond the last sample there is no area. */
  lemma {:induction false} AreaEnds(samples: seq<Sample>, lo: int, hi: int, hi': int)
    requires InOrder(samples) && LastTime(samples) <= hi && LastTime(samples) <= hi'
    ensures Area(samples, lo, hi) == Area(samples, lo, hi')
    decreases |samples|
  {
    if samples != [] {
      AreaEnds(Init(samples), lo, hi, hi');
    }
  }

  lemma {:induction false} AreaAfter(samples: seq<Sample>, lo: int, hi: int)
    requires InOrder(samples) && LastTime(samples) <= lo
    ensures Area(samples, lo, hi) == 0.0
    decreases |samples|
  {
    if samples != [] {
      AreaAfter(Init(samples), lo, hi);
    }
  }

  /** The state and the point after the last sample. */
  ghost function After(samples: seq<Sample>, step: int): Stored
    requires step > 0
    decreases |samples|
  {
    if samples == [] then Stored(0, 0.0)
    else Accumulate(After(Init(samples), step), samples[|samples| - 1], step).0
  }

  ghost function Emitted(samples: seq<Sample>, step: int): Option<Point>
    requires step > 0 && samples != []
  {
    Accumulate(After(Init(samples), step), samples[|samples| - 1], step).1
  }

  // ---------------------------------------------------------------------------------
  // Samples of many keys
  // ---------------------------------------------------------------------------------

  datatype Call = Call(key: string, sample: Sample)

  /** What an accumulator's calls leave stored. */
  ghost function Ran(calls: seq<Call>, step: int): map<string, Stored>
    requires step > 0
    decreases |calls|
  {
    if calls == [] then map[]
    else
      var before, last := Ran(calls[..|calls| - 1], step), calls[|calls| - 1];
      before[last.key := Accumulate(Before(before, last.key), last.sample, step).0]
  }

  /** The samples of one key. */
  ghost function Of(calls: seq<Call>, key: string): seq<Sample>
    decreases |calls|
  {
    if calls == [] then []
    else
      var before, last := Of(calls[..|calls| - 1], key), calls[|calls| - 1];
      if last.key == key then before + [last.sample] else before
  }

  /** Each key's stored pair is that of its own samples, however the keys' calls are mixed. */
  lemma {:induction false} KeysIndependent(calls: seq<Call>, step: int, key: string)
    requires step > 0
    ensures Before(Ran(calls, step), key) == After(Of(calls, key), step)
    decreases |calls|
  {
    hide Accumulate;
    if calls != [] {
      var init, last := calls[..|calls| - 1], calls[|calls| - 1];
      KeysIndependent(init, step, key);
      if last.key == key {
        assert Init(Of(calls, key)) == Of(init, key);
      }
    }
  }

  /** Steps, told by their boundaries. */
  lemma StepFacts(prev: int, now: int, step: int)
    requires step > 0 && prev <= now
    ensures var a, b, d := Boundary(prev, step), Boundary(now, step), now / step - prev / step;
            && a <= prev < a + step && b <= now < b + step && d >= 0
            && (d == 0 <==> b == a) && (d == 1 <==> b == a + step)
            && (d >= 1 ==> prev < b)
  {
    Steps(prev, now, step, prev / step, prev % step, now / step, now % step);
  }

  /** The same for quotients and remainders. */
  lemma Steps(prev: int, now: int, step: int, m: int, r: int, n: int, q: int)
    requires step > 0 && prev <= now && 0 <= r < step && 0 <= q < step
    requires prev == m * step + r && now == n * step + q
    ensures n >= m && (n == m <==> n * step == m * step) && (n == m + 1 <==> n * step == m * step + step)
    ensures n >= m + 1 ==> prev < n * step
  {
    assert (m + 1) * step == m * step + step && (n + 1) * step == n * step + step;
    if n < m {
      Grows(n + 1, m, step);
    } else if n >= m + 1 {
      Grows(m + 1, n, step);
      if n >= m + 2 {
        Grows(m + 2, n, step);
        assert (m + 2) * step == m * step + step + step;
      }
    }
  }

  /** `accumulate`, told by boundaries. */
  lemma AccumulateCases(prev: Stored, now: Sample, step: int)
    requires step > 0 && prev.time <= now.time
    ensures var a, b := Boundary(prev.time, step), Boundary(now.time, step);
            var (s, p) := Accumulate(prev, now, step);
            && a <= prev.time < a + step && b <= now.time < b + step && s.time == now.time
            && (b == a || prev.time < b)
            && s.acc == (if b == a then prev.acc + (now.time - prev.time) as real * now.value
                         else (now.time - b) as real * now.value)
            && (p.Some? <==> b == a + step)
            && (p.Some? ==> p.value == Point(b, (prev.acc + (b - prev.time) as real * now.value) / step as real))
  {
    StepFacts(prev.time, now.time, step);
  }

  lemma AreaNone(lo: int, hi: int)
    ensures Area([], lo, hi) == 0.0
  {
  }

  /** The area up to and including a sample's interval. */
  lemma AreaLast(samples: seq<Sample>, lo: int, hi: int, k: int)
    requires samples != []
    requires Overlap(LastTime(Init(samples)), LastTime(samples), lo, hi) == k
    ensures Area(samples, lo, hi) == Area(Init(samples), lo, hi) + k as real * samples[|samples| - 1].value
  {
  }

  /** What is stored is the time of the last sample and the area since its step began. */
  lemma {:induction false} StoredIsArea(samples: seq<Sample>, step: int)
    requires InOrder(samples) && step > 0
    ensures After(samples, step)
         == Stored(LastTime(samples), Area(samples, Boundary(LastTime(samples), step), LastTime(samples)))
    decreases |samples|
  {
    hide Boundary, Accumulate, Area;
    if samples == [] {
      AreaNone(Boundary(0, step), 0);
    } else {
      var init, now := Init(samples), samples[|samples| - 1];
      var prev, lo := LastTime(init), Boundary(now.time, step);
      StoredIsArea(init, step);
      AccumulateCases(After(init, step), now, step);
      if lo == Boundary(prev, step) {
        AreaEnds(init, lo, prev, now.time);
        AreaLast(samples, lo, now.time, now.time - prev);
      } else {
        AreaAfter(init, lo, now.time);
        AreaLast(samples, lo, now.time, now.time - lo);
      }
    }
  }

  /** A point is emitted exactly when the last sample enters the step after its predecessor's.
      It is for the boundary just crossed, and its value times the step size is the area over
      the whole step that ends there. */
  lemma EmittedIsMean(samples: seq<Sample>, step: int)
    requires InOrder(samples) && step > 0 && samples != []
    ensures var prev, now := LastTime(Init(samples)), LastTime(samples);
            var at := Boundary(now, step);
            && (Emitted(samples, step).Some? <==> at == Boundary(prev, step) + step)
            && (Emitted(samples, step).Some? ==>
                  && Emitted(samples, step).value.at == at && prev < at <= now && at % step == 0
                  && Emitted(samples, step).value.value * step as real == Area(samples, at - step, at))
  {
    hide Boundary, Accumulate, Area;
    var init, now := Init(samples), samples[|samples| - 1];
    var prev, at := LastTime(init), Boundary(now.time, step);
    StoredIsArea(init, step);
    AccumulateCases(After(init, step), now, step);
    BoundaryMultiple(now.time, step);
    if at == Boundary(prev, step) + step {
      AreaEnds(init, at - step, prev, at);
      AreaLast(samples, at - step, at, at - prev);
      Divided(Area(samples, at - step, at), step as real);
    }
  }

  lemma BoundaryMultiple(time: int, step: int)
    requires step > 0
    ensures Boundary(time, step) % step == 0
  {
    Multiple(time / step, step, time / step * step / step, time / step * step % step);
  }

  lemma Multiple(q: int, step: int, p: int, r: int)
    requires q * step == p * step + r && 0 <= r < step
    ensures r == 0
  {
    if p < q {
      Grows(p + 1, q, step);
    }
    if q < p {
      Grows(q + 1, p, step);
    }
  }

  lemma Divided(x: real, k: real)
    requires k > 0.0
    ensures x / k * k == x
  {
  }

  /** Points come at strictly later times: a later one is past every earlier sample. */
  lemma PointsAdvance(samples: seq<Sample>, step: int, k: nat)
    requires InOrder(samples) && step > 0 && 0 < k < |samples|
    requires Emitted(samples, step).Some?
    ensures InOrder(samples[..k])
    ensures Emitted(samples[..k], step).Some? ==>
              Emitted(samples[..k], step).value.at < Emitted(samples, step).value.at
  {
    hide Boundary, Accumulate, Emitted;
    EmittedIsMean(samples, step);
    TimesRise(Init(samples), k);
    assert Init(samples)[..k] == samples[..k];
    EmittedIsMean(samples[..k], step);
  }

  lemma {:induction false} TimesRise(samples: seq<Sample>, k: nat)
    requires InOrder(samples) && k <= |samples|
    ensures InOrder(samples[..k]) && LastTime(samples[..k]) <= LastTime(samples)
    decreases |samples|
  {
    if k < |samples| {
      TimesRise(Init(samples), k);
      assert Init(samples)[..k] == samples[..k];
    } else {
      assert samples[..k] == samples;
    }
  }

  /** The area lies between those of the least and the most over `length`. */
  ghost predicate Bounded(area: real, length: int, least: real, most: real) {
    least * length as real <= area <= most * length as real
  }

  /** The covered part of `lo..hi` bounds the area. */
  lemma {:induction false} AreaBounds(samples: seq<Sample>, lo: int, hi: int, least: real, most: real)
    requires InOrder(samples) && 0 <= lo <= hi
    requires forall i :: 0 <= i < |samples| ==> least <= samples[i].value <= most
    ensures Bounded(Area(samples, lo, hi), Overlap(0, LastTime(samples), lo, hi), least, most)
    decreases |samples|
  {
    hide Area, Overlap, Max, Min, Bounded;
    if samples != [] {
      var init, last := Init(samples), samples[|samples| - 1];
      NonNegative(init);
      AreaBounds(init, lo, hi, least, most);
      var a, b := Overlap(0, LastTime(init), lo, hi), Overlap(LastTime(init), last.time, lo, hi);
      OverlapSplit(0, LastTime(init), last.time, lo, hi);
      AreaLast(samples, lo, hi, b);
      Widen(Area(init, lo, hi), Area(samples, lo, hi), a, b, least, last.value, most);
    } else {
      AreaNone(lo, hi);
      NothingBounded(lo, hi, least, most);
    }
  }

  lemma NothingBounded(lo: int, hi: int, least: real, most: real)
    requires 0 <= lo <= hi
    ensures Bounded(0.0, Overlap(0, 0, lo, hi), least, most)
  {
  }

  lemma OverlapSplit(a: int, b: int, c: int, lo: int, hi: int)
    requires a <= b <= c && lo <= hi
    ensures Overlap(b, c, lo, hi) >= 0
    ensures Overlap(a, b, lo, hi) + Overlap(b, c, lo, hi) == Overlap(a, c, lo, hi)
  {
  }

  lemma Widen(area: real, wider: real, a: int, b: int, least: real, v: real, most: real)
    requires b >= 0 && least <= v <= most
    requires Bounded(area, a, least, most)
    requires wider == area + b as real * v
    ensures Bounded(wider, a + b, least, most)
  {
    var x, y := a as real, b as real;
    assert (a + b) as real == x + y;
    Scale(least, v, y);
    Scale(v, most, y);
    Distribute(least, x, y);
    Distribute(most, x, y);
    Commute(y, v);
  }

  lemma Commute(x: real, y: real)
    ensures x * y == y * x
  {
  }

  lemma Scale(x: real, y: real, k: real)
    requires x <= y && k >= 0.0
    ensures x * k <= y * k
  {
    assert (y - x) * k >= 0.0;
  }

  lemma Distribute(x: real, a: real, b: real)
    ensures x * (a + b) == x * a + x * b
  {
  }

  /** A point lies between the least and the greatest sample. */
  lemma PointBetweenSamples(samples: seq<Sample>, step: int, least: real, most: real)
    requires InOrder(samples) && step > 0 && samples != [] && Emitted(samples, step).Some?
    requires forall i :: 0 <= i < |samples| ==> least <= samples[i].value <= most
    ensures least <= Emitted(samples, step).value.value <= most
  {
    hide Boundary, Accumulate, Emitted, Area;
    var prev, now := LastTime(Init(samples)), LastTime(samples);
    var at, v := Boundary(now, step), Emitted(samples, step).value.value;
    EmittedIsMean(samples, step);
    NonNegative(Init(samples));
    BoundaryNotNegative(prev, step);
    AreaBounds(samples, at - step, at, least, most);
    assert Overlap(0, now, at - step, at) == step;
    Divide(least, v, step as real);
    Divide(v, most, step as real);
  }

  lemma BoundaryNotNegative(time: int, step: int)
    requires step > 0 && time >= 0
    ensures Boundary(time, step) >= 0
  {
    Grows(0, time / step, step);
  }

  lemma Divide(x: real, y: real, k: real)
    requires k > 0.0 && x * k <= y * k
    ensures x <= y
  {
    Divided(x, k);
    Quotient(x, k);
    Quotient(y, k);
    Shrink(x * k, y * k, k);
  }

  lemma Quotient(x: real, k: real)
    requires k > 0.0
    ensures x * k / k == x
  {
  }

  lemma Shrink(x: real, y: real, k: real)
    requires x <= y && k > 0.0
    ensures x / k <= y / k
  {
  }
}
