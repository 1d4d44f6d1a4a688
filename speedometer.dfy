/**
 * tool/speedometer.go: a progress counter. It counts processed items, writes
 * a progress report whenever the count or the time since the last report
 * reaches its interval (zero switches either trigger off), and writes a
 * summary on Close. The clock is the `now` parameter, in Unix seconds; the
 * reports are kept as values in `reports` instead of being sent to a logger.
 */
module Tool {
  import opened Wrappers
  import opened GoInt
  import opened Arith
  import opened Strconv

  datatype SpeedometerConfig = SpeedometerConfig(
    total: int, processedBefore: int, outputTimeIntervalSecond: int, outputNumInterval: int)

  /** What processingStatics reports: the count, and once time has passed the speed and the time left. */
  datatype Progress = Progress(processed: int, speed: Option<int>, leftTime: Option<string>)

  /** What overallStatics reports when the speedometer is closed. */
  datatype Summary = Summary(
    total: int, processedThis: int, processedBefore: int, useTime: string, speed: Option<int>)

  /** The units humanTime steps through, and the ratio that leads to each. */
  const Names: seq<string> := ["m", "h", "d"]
  const Ratios: seq<int> := [60, 60, 24]

  /** Seconds per unit of "s", "m", "h" and "d". */
  const Scale: seq<int> := [1, 60, 3600, 86400]
  const Units: seq<string> := ["s", "m", "h", "d"]

  /** A duration in seconds as humanTime writes it, in the largest unit it reaches, truncated. */
  function HumanTimeOf(t: int): string {
    Sign(t) + Magnitude(if t < 0 then -t else t)
  }

  /** The sign humanTime writes: '-' for a negative duration, nothing otherwise. */
  function Sign(t: int): string {
    if t < 0 then "-" else ""
  }

  function Magnitude(t: nat): string {
    if t < 60 then FormatInt(t, 10) + "s"
    else if t < 3600 then FormatInt(t / 60, 10) + "m"
    else if t < 86400 then FormatInt(t / 3600, 10) + "h"
    else FormatInt(t / 86400, 10) + "d"
  }

  /** humanTime: divide by 60, 60 and 24 for as long as the value reaches the next ratio. */
  method HumanTime(t0: int) returns (s: string)
    ensures s == HumanTimeOf(t0)
  {
    var t := t0;
    var head := "";
    if t < 0 {
      t := -t;
      head := "-";
    }
    ghost var a: nat := t;
    var name := "s";
    var i := 0;
    while i < |Ratios|
      invariant 0 <= i <= 3
      invariant t == a / Scale[i] && name == Units[i]
      invariant i > 0 ==> a >= Scale[i]
    {
      ScaleStep(a, i);
      if t < Ratios[i] {
        break;
      }
      t := t / Ratios[i];
      name := Names[i];
      i := i + 1;
    }
    MagnitudeAt(a, i, t, name);
    s := head + (FormatInt(t, 10) + name);
  }

  /** One step of humanTime's loop, for the duration `a`. */
  lemma ScaleStep(a: nat, i: nat)
    requires i < 3
    ensures a / Scale[i] / Ratios[i] == a / Scale[i + 1]
    ensures a / Scale[i] < Ratios[i] <==> a < Scale[i + 1]
  {
    DivDiv(a, Scale[i], Ratios[i]);
    assert Scale[i] * Ratios[i] == Scale[i + 1];
  }

  lemma MagnitudeAt(a: nat, i: nat, t: int, name: string)
    requires i <= 3 && t == a / Scale[i] && name == Units[i]
    requires i > 0 ==> a >= Scale[i]
    requires i < 3 ==> a < Scale[i + 1]
    ensures FormatInt(t, 10) + name == Magnitude(a)
  {
    if i == 0 {
      assert a < 60 && t == a;
    } else if i == 1 {
      assert 60 <= a < 3600 && t == a / 60;
    } else if i == 2 {
      assert 3600 <= a < 86400 && t == a / 3600;
    } else {
      assert 86400 <= a && t == a / 86400;
    }
  }

  /** Dividing by `p`, then by `r`, is dividing by `p * r`; and the first quotient is below `r` iff `a` is below `p * r`. */
  lemma DivDiv(a: nat, p: nat, r: nat)
    requires p > 0 && r > 0
    ensures a / p / r == a / (p * r)
    ensures a / p < r <==> a < p * r
  {
    var q, r1 := a / p, a % p;
    var q2, r2 := q / r, q % r;
    DivDivSum(p, r, q, q2, r1, r2);
    DivModOfSum(q2, p * r2 + r1, p * r);
    QuotientBelow(a, p, r, q, r1);
  }

  lemma DivDivSum(p: nat, r: nat, q: nat, q2: nat, r1: nat, r2: nat)
    requires p > 0 && r > 0 && r1 < p && r2 < r && q == r * q2 + r2
    ensures p * q + r1 == (p * r) * q2 + (p * r2 + r1)
    ensures p * r2 + r1 < p * r
  {
    assert p * q == p * (r * q2) + p * r2;
    assert p * (r * q2) == (p * r) * q2;
    MulNonNegative(p, r - 1 - r2);
    assert p * (r - 1 - r2) == p * r - p - p * r2;
  }

  lemma QuotientBelow(a: nat, p: nat, r: nat, q: nat, r1: nat)
    requires p > 0 && r > 0 && r1 < p && a == p * q + r1
    ensures q < r <==> a < p * r
  {
    if q < r {
      MulNonNegative(p, r - 1 - q);
      assert p * (r - 1 - q) == p * r - p - p * q;
    } else {
      MulNonNegative(p, q - r);
      assert p * (q - r) == p * q - p * r;
    }
  }

  /** Rendering a negative duration puts a '-' before the rendering of its magnitude. */
  lemma HumanTimeNegative(t: int)
    requires t < 0
    ensures HumanTimeOf(t) == "-" + HumanTimeOf(-t)
  {
    assert Sign(-t) + Magnitude(-t) == Magnitude(-t);
  }

  /** One day is written "1d" (tool/speedometer_test.go). */
  lemma HumanTimeOneDay()
    ensures HumanTimeOf(60 * 60 * 24) == "1d"
  {
    assert FormatInt(1, 10) == "1";
  }

  /** join: one "key: value, " field of a report line. */
  function Join(key: string, val: string): (s: string)
    ensures |s| == |key| + |val| + 4
    ensures s[..|key|] == key && s[|key|..|key| + 2] == ": "
    ensures s[|key| + 2..|s| - 2] == val && s[|s| - 2..] == ", "
  {
    key + ": " + val + ", "
  }

  /** With a key free of ':', the first ':' of a joined field ends the key, so the key can be read back. */
  lemma {:induction false} JoinKeyRecoverable(key: string, val: string, k: int)
    requires forall i :: 0 <= i < |key| ==> key[i] != ':'
    requires 0 <= k < |Join(key, val)| && Join(key, val)[k] == ':'
    ensures k >= |key| && (forall i :: 0 <= i < |key| ==> Join(key, val)[i] != ':')
  {
    var s := Join(key, val);
    assert forall i :: 0 <= i < |key| ==> s[i] == key[i] by {
      forall i | 0 <= i < |key| ensures s[i] == key[i] {
        assert s[..|key|][i] == s[i];
      }
    }
  }

  /**
   * The report processingStatics writes after `processed` entries in
   * `usedTime` seconds, out of `total` with `processedBefore` done earlier:
   * the speed and the time left need elapsed time, the time left a known total.
   */
  function Report(processed: int, usedTime: int, total: int, processedBefore: int): (r: Progress)
    requires usedTime == 0 || total == 0 || processed != 0
    ensures r.processed == processed
    ensures r.speed.Some? <==> usedTime != 0
    ensures r.speed.Some? ==> r.speed.value == Quo(processed, usedTime)
    ensures r.leftTime.Some? <==> usedTime != 0 && total != 0
    ensures r.leftTime.Some? ==>
      r.leftTime.value == HumanTimeOf(Quo((total - processed - processedBefore) * usedTime, processed))
  {
    if usedTime == 0 then Progress(processed, None, None)
    else
      var speed := Some(Quo(processed, usedTime));
      if total == 0 then Progress(processed, speed, None)
      else
        var leftNum := total - processed - processedBefore;
        Progress(processed, speed, Some(HumanTimeOf(Quo(leftNum * usedTime, processed))))
  }

  /** The body of processingStatics on its inputs: it computes `Report`. */
  method ComputeReport(processed: int, usedTime: int, total: int, processedBefore: int) returns (p: Progress)
    requires usedTime == 0 || total == 0 || processed != 0
    ensures p == Report(processed, usedTime, total, processedBefore)
  {
    p := Progress(processed, None, None);
    if usedTime != 0 {
      var speed := Quo(processed, usedTime);
      p := Progress(processed, Some(speed), None);
      if total != 0 {
        // leftNum * usedTime / processed, with leftNum written out
        var leftTime := Quo((total - processed - processedBefore) * usedTime, processed);
        var leftHumanTime := HumanTime(leftTime);
        p := Progress(processed, Some(speed), Some(leftHumanTime));
      }
    }
  }

  class Speedometer {
    var startTime: int
    var outputTimeIntervalSecond: int
    var lastOutputTime: int
    var outputNumInterval: int
    var lastOutputNum: int
    var total: int
    var processed: int
    var processedBefore: int
    /** The progress reports written so far, oldest first. */
    var reports: seq<Progress>

    /** NewSpeedometer: the configuration's numbers, nothing processed, both clocks at `now`. */
    constructor (cfg: SpeedometerConfig, now: int)
      ensures total == cfg.total && processedBefore == cfg.processedBefore
      ensures outputTimeIntervalSecond == cfg.outputTimeIntervalSecond
      ensures outputNumInterval == cfg.outputNumInterval
      ensures processed == 0 && lastOutputNum == 0
      ensures startTime == now && lastOutputTime == now
      ensures reports == []
    {
      startTime, lastOutputTime := now, now;
      total, processedBefore := cfg.total, cfg.processedBefore;
      outputTimeIntervalSecond, outputNumInterval := cfg.outputTimeIntervalSecond, cfg.outputNumInterval;
      processed, lastOutputNum := 0, 0;
      reports := [];
    }

    /** NewSimpleSpeedometer: only the time trigger, no total. */
    constructor Simple(timeIntervalSecond: int, now: int)
      ensures total == 0 && processedBefore == 0
      ensures outputTimeIntervalSecond == timeIntervalSecond && outputNumInterval == 0
      ensures processed == 0 && lastOutputNum == 0
      ensures startTime == now && lastOutputTime == now
      ensures reports == []
    {
      startTime, lastOutputTime := now, now;
      total, processedBefore := 0, 0;
      outputTimeIntervalSecond, outputNumInterval := timeIntervalSecond, 0;
      processed, lastOutputNum := 0, 0;
      reports := [];
    }

    /**
     * A report at `now` with `count` processed is defined: the estimate of the
     * time left divides by the count, which Go would do even when it is zero.
     */
    predicate CanReport(count: int, now: int)
      reads this`startTime, this`total
    {
      now - startTime == 0 || total == 0 || count != 0
    }

    /** The count trigger, for a count of `count`. */
    predicate CountDue(count: int)
      reads this`outputNumInterval, this`lastOutputNum
    {
      outputNumInterval != 0 && count - lastOutputNum >= outputNumInterval
    }

    /** The time trigger at `now`. */
    predicate TimeDue(now: int)
      reads this`outputTimeIntervalSecond, this`lastOutputTime
    {
      outputTimeIntervalSecond != 0 && now - lastOutputTime >= outputTimeIntervalSecond
    }

    /** The report processingStatics writes at `now`. */
    function ProgressAt(now: int): Progress
      reads this`startTime, this`total, this`processed, this`processedBefore
      requires CanReport(processed, now)
    {
      Report(processed, now - startTime, total, processedBefore)
    }

    /** processingStatics: append the current report. */
    method ProcessingStatics(now: int)
      requires CanReport(processed, now)
      modifies this`reports
      ensures reports == old(reports) + [ProgressAt(now)]
    {
      var p := ComputeReport(processed, now - startTime, total, processedBefore);
      reports := reports + [p];
    }

    /**
     * outputCheck: the count trigger and the time trigger, each checked on
     * its own; each that fires moves its own mark and writes one report.
     */
    method OutputCheck(now: int)
      requires CountDue(processed) || TimeDue(now) ==> CanReport(processed, now)
      modifies this`lastOutputNum, this`lastOutputTime, this`reports
      ensures lastOutputNum == if old(CountDue(processed)) then processed else old(lastOutputNum)
      ensures lastOutputTime == if old(TimeDue(now)) then now else old(lastOutputTime)
      ensures reports == old(reports)
        + (if old(CountDue(processed)) then [ProgressAt(now)] else [])
        + (if old(TimeDue(now)) then [ProgressAt(now)] else [])
    {
      var timeDue := TimeDue(now);
      if outputNumInterval != 0 && processed - lastOutputNum >= outputNumInterval {
        lastOutputNum := processed;
        ProcessingStatics(now);
      }
      if timeDue {
        lastOutputTime := now;
        ProcessingStatics(now);
      }
    }

    /** Start: restart the clock; nothing else changes. */
    method Start(now: int)
      modifies this`startTime
      ensures startTime == now
    {
      startTime := now;
    }

    /** Increase: one more item processed, then the trigger checks. */
    method Increase(now: int)
      requires CountDue(processed + 1) || TimeDue(now) ==> CanReport(processed + 1, now)
      modifies this`processed, this`lastOutputNum, this`lastOutputTime, this`reports
      ensures processed == old(processed) + 1
      ensures lastOutputNum == if old(CountDue(processed + 1)) then processed else old(lastOutputNum)
      ensures lastOutputTime == if old(TimeDue(now)) then now else old(lastOutputTime)
      ensures reports == old(reports)
        + (if old(CountDue(processed + 1)) then [ProgressAt(now)] else [])
        + (if old(TimeDue(now)) then [ProgressAt(now)] else [])
      ensures old(lastOutputNum <= processed) ==> lastOutputNum <= processed
    {
      processed := processed + 1;
      OutputCheck(now);
    }

    /** IncreaseN: `n` more items processed, then the trigger checks. */
    method IncreaseN(n: int, now: int)
      requires CountDue(processed + n) || TimeDue(now) ==> CanReport(processed + n, now)
      modifies this`processed, this`lastOutputNum, this`lastOutputTime, this`reports
      ensures processed == old(processed) + n
      ensures lastOutputNum == if old(CountDue(processed + n)) then processed else old(lastOutputNum)
      ensures lastOutputTime == if old(TimeDue(now)) then now else old(lastOutputTime)
      ensures reports == old(reports)
        + (if old(CountDue(processed + n)) then [ProgressAt(now)] else [])
        + (if old(TimeDue(now)) then [ProgressAt(now)] else [])
      ensures old(lastOutputNum <= processed) && n >= 0 ==> lastOutputNum <= processed
    {
      processed := processed + n;
      OutputCheck(now);
    }

    /**
     * Close (overallStatics): the summary of the run at `now`. The total adds
     * the items processed before; the speed is given only when time has passed.
     */
    method Close(now: int) returns (s: Summary)
      ensures s.total == processed + processedBefore
      ensures s.processedThis == processed && s.processedBefore == processedBefore
      ensures s.useTime == HumanTimeOf(now - startTime)
      ensures s.speed.Some? <==> now != startTime
      ensures s.speed.Some? ==> s.speed.value == Quo(processed, now - startTime)
    {
      var t := now - startTime;
      var useTime := HumanTime(t);
      s := Summary(processed + processedBefore, processed, processedBefore, useTime, None);
      if t != 0 {
        s := s.(speed := Some(Quo(processed, t)));
      }
    }
  }

  /**
   * The count-trigger scenario of tool/speedometer_test.go: an interval of
   * 100 and 1000 increments, at any one instant, write ten reports.
   */
  method CountTriggerScenario(now: int) returns (reportCount: nat, processed: int)
    ensures reportCount == 10 && processed == 1000
  {
    var counter := new Speedometer(SpeedometerConfig(0, 0, 0, 100), now);
    var i := 0;
    while i < 1000
      invariant 0 <= i <= 1000
      invariant counter.processed == i && counter.lastOutputNum == (i / 100) * 100
      invariant |counter.reports| == i / 100
      invariant counter.outputNumInterval == 100 && counter.outputTimeIntervalSecond == 0
      invariant counter.total == 0
    {
      counter.Increase(now);
      i := i + 1;
    }
    reportCount, processed := |counter.reports|, counter.processed;
  }
}
