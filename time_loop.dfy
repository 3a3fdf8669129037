/**
 * The time-integration loop of `joule_solve`: a step counter `ti`, the
 * flag `last_step` and the time `t`, with diagnostics and VisIt output at
 * the configured cadence. Time is a mathematical real, and the scheme's
 * `Step` is abstracted to its effect on `t`.
 */
module TimeLoop {

  /** One diagnostics/output event: the cycle `ti` and the time after that step. */
  datatype Report = Report(cycle: nat, time: real)

  /** The effect of `ODESolver::Step(F, t, dt)` on `t`: it advances by `dt`. */
  function Step(t: real, dt: real): (r: real)
    ensures r > t <==> dt > 0.0
  {
    t + dt
  }

  /** The test at the head of every iteration, on the time `t` before the step. */
  predicate LastStepTest(t: real, dt: real, tFinal: real)
    ensures dt > 0.0 && t >= tFinal ==> LastStepTest(t, dt, tFinal)
  {
    t + dt >= tFinal - dt / 2.0
  }

  /**
   * Whether step `ti` reports: on the last step or every `visSteps`-th
   * step. For `ti >= 0` the truncating `%` of the source and Dafny's
   * Euclidean `%` agree on whether the remainder is zero, whatever the
   * sign of `visSteps`.
   */
  predicate Reported(ti: nat, lastStep: bool, visSteps: int)
    requires visSteps != 0
    ensures lastStep ==> Reported(ti, lastStep, visSteps)
    ensures visSteps == 1 ==> Reported(ti, lastStep, visSteps)
  {
    lastStep || ti % visSteps == 0
  }

  /** The least integer not below `x`. */
  function Ceil(x: real): (c: int)
    ensures c as real - 1.0 < x <= c as real
  {
    if x.Floor as real == x then x.Floor else x.Floor + 1
  }

  /** The test of step `k`, made on the time `(k-1)*dt` the step starts from. */
  predicate TestAtStep(k: int, dt: real, tFinal: real)
  {
    LastStepTest((k - 1) as real * dt, dt, tFinal)
  }

  /** The number of steps the loop takes, in closed form. */
  function StepCount(dt: real, tFinal: real): (n: nat)
    requires dt > 0.0
    ensures n >= 1
  {
    var c := Ceil((tFinal - dt / 2.0) / dt);
    if c < 1 then 1 else c
  }

  lemma ScaleCompare(k: real, dt: real, b: real)
    requires dt > 0.0
    ensures k * dt >= b <==> k >= b / dt
  {
    assert (b / dt) * dt == b;
    if k >= b / dt {
      assert k * dt >= (b / dt) * dt;
    } else {
      assert k * dt < (b / dt) * dt;
    }
  }

  /**
   * The loop test holds at step `k` (time `(k-1)*dt` before the step)
   * exactly from step StepCount on: every earlier step continues the
   * loop and StepCount is the first step flagged last.
   */
  lemma StepCountThreshold(dt: real, tFinal: real, k: int)
    requires dt > 0.0 && k >= 1
    ensures TestAtStep(k, dt, tFinal) <==> k >= StepCount(dt, tFinal)
  {
    var x := (tFinal - dt / 2.0) / dt;
    assert (k - 1) as real * dt + dt == k as real * dt;
    ScaleCompare(k as real, dt, tFinal - dt / 2.0);
    var c := Ceil(x);
    assert k as real >= x <==> k >= c;
  }

  /**
   * The reports of steps `1..k` of a run whose last step is `n`, in the
   * order they are made.
   */
  function Reports(k: nat, n: nat, dt: real, visSteps: int): (r: seq<Report>)
    requires visSteps != 0
    ensures |r| <= k
    ensures 1 <= k == n ==> r != [] && r[|r| - 1] == Report(n, n as real * dt)
  {
    if k == 0 then []
    else
      Reports(k - 1, n, dt, visSteps)
      + (if Reported(k, k == n, visSteps) then [Report(k, k as real * dt)] else [])
  }

  /**
   * The loop: each iteration first decides whether this step is the last,
   * then steps, then reports when due. It does not shorten the final step
   * to end on `tFinal`.
   */
  method Run(dt: real, tFinal: real, visSteps: int) returns (t: real, steps: nat, reports: seq<Report>)
    requires dt > 0.0
    requires visSteps != 0
    ensures steps == StepCount(dt, tFinal)
    ensures TestAtStep(steps, dt, tFinal)
    ensures forall k :: 1 <= k < steps ==> !TestAtStep(k, dt, tFinal)
    ensures t == steps as real * dt
    ensures reports == Reports(steps, steps, dt, visSteps)
    ensures reports != [] && reports[|reports| - 1] == Report(steps, t)
  {
    ghost var n := StepCount(dt, tFinal);
    t := 0.0;
    var lastStep := false;
    var ti: nat := 1;
    reports := [];
    while !lastStep
      invariant 1 <= ti <= n + 1
      invariant lastStep <==> ti == n + 1
      invariant t == (ti - 1) as real * dt
      invariant reports == Reports(ti - 1, n, dt, visSteps)
      decreases n + 1 - ti
    {
      StepCountThreshold(dt, tFinal, ti);
      if t + dt >= tFinal - dt / 2.0 {
        lastStep := true;
      }
      t := Step(t, dt);
      assert t == ti as real * dt;
      if lastStep || ti % visSteps == 0 {
        reports := reports + [Report(ti, t)];
      }
      ti := ti + 1;
    }
    steps := ti - 1;
    forall k | 1 <= k < steps
      ensures !TestAtStep(k, dt, tFinal)
    {
      StepCountThreshold(dt, tFinal, k);
    }
    StepCountThreshold(dt, tFinal, steps);
  }

  /**
   * A report is made at cycle `c` exactly when `c` is one of the steps
   * and it is the last step or a multiple of the cadence; it carries the
   * time after that step.
   */
  lemma {:induction false} ReportsMembership(k: nat, n: nat, dt: real, visSteps: int, r: Report)
    requires visSteps != 0
    ensures r in Reports(k, n, dt, visSteps) <==>
            1 <= r.cycle <= k && r.time == r.cycle as real * dt && Reported(r.cycle, r.cycle == n, visSteps)
  {
    if k > 0 {
      ReportsMembership(k - 1, n, dt, visSteps, r);
      var prev := Reports(k - 1, n, dt, visSteps);
      var here := Report(k, k as real * dt);
      if Reported(k, k == n, visSteps) {
        assert Reports(k, n, dt, visSteps) == prev + [here];
        assert r in prev + [here] <==> r in prev || r == here;
      } else {
        assert Reports(k, n, dt, visSteps) == prev;
        assert r.cycle == k ==> r !in prev;
      }
    }
  }

  /** Reports come in strictly increasing cycle order, so no step reports twice. */
  lemma {:induction false} ReportsIncreasing(k: nat, n: nat, dt: real, visSteps: int)
    requires visSteps != 0
    ensures forall i, j :: 0 <= i < j < |Reports(k, n, dt, visSteps)| ==>
              Reports(k, n, dt, visSteps)[i].cycle < Reports(k, n, dt, visSteps)[j].cycle
  {
    if k > 0 {
      ReportsIncreasing(k - 1, n, dt, visSteps);
      var prev := Reports(k - 1, n, dt, visSteps);
      forall i | 0 <= i < |prev|
        ensures prev[i].cycle < k
      {
        ReportsMembership(k - 1, n, dt, visSteps, prev[i]);
      }
    }
  }

  lemma DivUnique(a: int, b: int, q: int, s: int)
    requires b > 0 && 0 <= s < b && a == q * b + s
    ensures a / b == q && a % b == s
  {
    var d := q - a / b;
    assert d * b == a % b - s;
  }

  /** Stepping the counter from `k - 1` to `k` reaches one more multiple of `vs` exactly when `vs` divides `k`. */
  lemma DivStep(k: int, vs: int)
    requires vs > 0 && k >= 1
    ensures k / vs == (k - 1) / vs + (if k % vs == 0 then 1 else 0)
  {
    var q, r := (k - 1) / vs, (k - 1) % vs;
    if r + 1 < vs {
      DivUnique(k, vs, q, r + 1);
    } else {
      assert k == (q + 1) * vs + 0;
      DivUnique(k, vs, q + 1, 0);
    }
  }

  /** Before the last step, a positive cadence has reported once per multiple of `visSteps`. */
  lemma {:induction false} ReportCountPrefix(k: nat, n: nat, dt: real, visSteps: int)
    requires visSteps > 0 && k < n
    ensures |Reports(k, n, dt, visSteps)| == k / visSteps
  {
    if k > 0 {
      ReportCountPrefix(k - 1, n, dt, visSteps);
      DivStep(k, visSteps);
    }
  }

  /**
   * A run of `n` steps with a positive cadence reports once for each
   * multiple of `visSteps` before the last step, and once for the last step.
   */
  lemma ReportCount(n: nat, dt: real, visSteps: int)
    requires visSteps > 0 && n >= 1
    ensures |Reports(n, n, dt, visSteps)| == (n - 1) / visSteps + 1
  {
    ReportCountPrefix(n - 1, n, dt, visSteps);
  }

  /** A negative cadence reports on the same steps as its absolute value. */
  lemma {:induction false} NegativeCadence(k: nat, n: nat, dt: real, visSteps: int)
    requires visSteps != 0
    ensures Reports(k, n, dt, visSteps) == Reports(k, n, dt, -visSteps)
  {
    if k > 0 {
      NegativeCadence(k - 1, n, dt, visSteps);
      assert (k % visSteps == 0) <==> (k % -visSteps == 0);
    }
  }

  /**
   * Without clamping, the run ends within half a step of `tFinal` (when
   * `tFinal` exceeds half a step), on either side.
   */
  lemma FinalTimeBounds(dt: real, tFinal: real)
    requires dt > 0.0 && tFinal > dt / 2.0
    ensures tFinal - dt / 2.0 <= StepCount(dt, tFinal) as real * dt < tFinal + dt / 2.0
  {
    var n := StepCount(dt, tFinal);
    StepCountThreshold(dt, tFinal, n);
    assert (n - 1) as real * dt + dt == n as real * dt;
    if n > 1 {
      StepCountThreshold(dt, tFinal, n - 1);
      assert (n - 2) as real * dt + dt == (n - 1) as real * dt;
    }
  }

  /** When `tFinal` is `m` whole steps, the loop takes exactly `m` steps and ends on `tFinal`. */
  lemma ExactMultiple(dt: real, m: nat)
    requires dt > 0.0 && m >= 1
    ensures StepCount(dt, m as real * dt) == m
  {
    var tFinal := m as real * dt;
    StepCountThreshold(dt, tFinal, m);
    assert (m - 1) as real * dt + dt == m as real * dt;
    if m > 1 {
      StepCountThreshold(dt, tFinal, m - 1);
      assert (m - 2) as real * dt + dt == (m - 1) as real * dt;
      assert (m - 1) as real * dt < tFinal - dt / 2.0;
    }
  }

  /**
   * With `dt = 0.4` and `tFinal = 1.0` the loop stops after two steps at
   * `t = 0.8`: the final time is not `tFinal`.
   */
  lemma NotClamped()
    ensures StepCount(0.4, 1.0) == 2
    ensures StepCount(0.4, 1.0) as real * 0.4 != 1.0
  {
    StepCountThreshold(0.4, 1.0, 2);
    StepCountThreshold(0.4, 1.0, 1);
  }
}
