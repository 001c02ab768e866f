/** The monitor client of application_client.cpp: the sample record and its
    JSON form, the application's run/stop lifecycle around a loop of ticks
    and interruptible waits, and the rolling CPU statistics kept by the
    report-sent callback. */
module Client {
  import opened Wrappers

  // ----------------------------------------------------------------------
  // Data and its JSON form

  /** One sample of the host's health: the `data` record. The CPU and memory
      percentages are floats in the source and reals here. */
  datatype Data = Data(cpuPercent: real, memoryPercent: real, processCount: nat)

  /** The JSON values data_to_json builds: numbers and one object. */
  datatype Json = JDouble(d: real) | JInteger(i: int) | JObject(fields: map<string, Json>)

  const CpuKey: string := "cpu_percent"
  const MemoryKey: string := "memory_percent"
  const ProcessCountKey: string := "process_count"

  /** data_to_json: an object with exactly the three keys, each holding the
      record's matching value. */
  function DataToJson(d: Data): (j: Json)
    ensures j.JObject? && j.fields.Keys == {CpuKey, MemoryKey, ProcessCountKey}
  {
    JObject(map[CpuKey := JDouble(d.cpuPercent),
                MemoryKey := JDouble(d.memoryPercent),
                ProcessCountKey := JInteger(d.processCount)])
  }

  /** Reads a record back from a JSON value: it must be an object with
      exactly the three keys holding numbers of the right kinds, and a
      non-negative process count. */
  function JsonToData(j: Json): Option<Data>
  {
    match j
    case JObject(f) =>
      if f.Keys == {CpuKey, MemoryKey, ProcessCountKey}
         && f[CpuKey].JDouble? && f[MemoryKey].JDouble?
         && f[ProcessCountKey].JInteger? && f[ProcessCountKey].i >= 0
      then Some(Data(f[CpuKey].d, f[MemoryKey].d, f[ProcessCountKey].i))
      else None
    case _ => None
  }

  /** data_to_json loses nothing: reading its result back gives the record. */
  lemma DataToJsonRoundTrip(d: Data)
    ensures JsonToData(DataToJson(d)) == Some(d)
  {
  }

  /** And every JSON value that reads back as a record is that record's
      data_to_json form, so the JSON form is exactly the three-key object. */
  lemma JsonToDataRoundTrip(j: Json)
    ensures JsonToData(j).Some? ==> DataToJson(JsonToData(j).value) == j
  {
  }

  // ----------------------------------------------------------------------
  // The application's run loop

  /** Smallest period, in minutes, the constructor accepts. */
  const MinPeriodMinutes: int := 1

  /** The invalid_argument thrown by the constructor. */
  datatype ConfigError = InvalidArgument(message: string)

  /** What one tick's body does: it collects a record (and converts it to
      JSON and logs it), or it throws a std::exception with a message. */
  datatype TickOutcome = Collected(data: Data) | Threw(what: string)

  /** What utils::interruptible_sleep reports. */
  datatype WaitResult = TimedOut | Interrupted

  /** One iteration of the do-while loop as the environment plays it: the
      tick's outcome, then the wait's result. */
  datatype Round = Round(tick: TickOutcome, wait: WaitResult)

  /** What a tick leaves in the log: the JSON it built, or the caught
      exception's message. */
  datatype LogEntry = Logged(json: Json) | Failed(what: string)

  function TickEntry(t: TickOutcome): LogEntry
  {
    match t
    case Collected(d) => Logged(DataToJson(d))
    case Threw(w) => Failed(w)
  }

  /** Some wait in the script is interrupted, so a run over it ends. */
  predicate Ends(rounds: seq<Round>)
  {
    exists i :: 0 <= i < |rounds| && rounds[i].wait == Interrupted
  }

  /** The rounds a run executes: every round up to and including the first
      whose wait is interrupted, so at least one tick, and the loop goes on
      after each timed-out wait whatever the tick before it did. */
  function Executed(rounds: seq<Round>): (done: seq<Round>)
    requires Ends(rounds)
    ensures 1 <= |done| <= |rounds| && done == rounds[..|done|]
    ensures done[|done| - 1].wait == Interrupted
    ensures forall i :: 0 <= i < |done| - 1 ==> done[i].wait == TimedOut
  {
    if rounds[0].wait == Interrupted then [rounds[0]]
    else
      assert forall i :: 0 <= i < |rounds| && rounds[i].wait == Interrupted ==>
               1 <= i && rounds[1..][i - 1].wait == Interrupted;
      [rounds[0]] + Executed(rounds[1..])
  }

  /** The log a run leaves: one entry per executed tick, in order. */
  function RunLog(rounds: seq<Round>): (log: seq<LogEntry>)
    requires Ends(rounds)
  {
    var done := Executed(rounds);
    seq(|done|, i requires 0 <= i < |done| => TickEntry(done[i].tick))
  }

  /** A run's log has exactly as many entries as there are ticks up to the
      first interrupted wait, the k-th being the k-th tick's JSON or caught
      error: a tick that throws still leaves an entry and the loop goes on. */
  lemma RunLogShape(rounds: seq<Round>, n: nat)
    requires n < |rounds| && rounds[n].wait == Interrupted
    requires forall i :: 0 <= i < n ==> rounds[i].wait == TimedOut
    ensures Ends(rounds)
    ensures |RunLog(rounds)| == n + 1
    ensures forall k :: 0 <= k <= n ==> RunLog(rounds)[k] == TickEntry(rounds[k].tick)
  {
  }

  class Application {
    /** The reporting period in minutes. */
    const period: int
    /** Set by Stop to end the loop at its next wait. */
    var stop: bool
    /** True while Run's loop is active. */
    var running: bool

    /** A stop is only ever pending while the loop runs. */
    ghost predicate Valid()
      reads this
    {
      period >= MinPeriodMinutes && (stop ==> running)
    }

    /** The object with both flags clear; NewApplication calls it once the
      period has been checked. */
    constructor (period: int)
      requires period >= MinPeriodMinutes
      ensures Valid() && this.period == period && !running && !stop
    {
      this.period := period;
      stop, running := false, false;
    }

    /** application::run. When already running it returns at once and
        changes nothing. Otherwise it sets running, performs the loop's
        rounds up to the first interrupted wait, logging each tick's JSON or
        its caught error, and on the way out clears both flags. */
    method Run(rounds: seq<Round>) returns (log: seq<LogEntry>)
      requires Valid() && Ends(rounds)
      modifies this
      ensures Valid()
      ensures old(running) ==> log == [] && running && stop == old(stop)
      ensures !old(running) ==> log == RunLog(rounds) && !running && !stop
    {
      log := [];
      if running {
        return;
      }
      running := true;
      ghost var done := Executed(rounds);
      var i := 0;
      while true
        invariant 0 <= i < |done|
        invariant running && Valid()
        invariant log == RunLog(rounds)[..i]
        decreases |done| - i
      {
        log := log + [TickEntry(rounds[i].tick)];
        if rounds[i].wait == Interrupted {
          break;
        }
        i := i + 1;
      }
      assert i == |done| - 1;
      running, stop := false, false;
    }

    /** application::stop. While running it requests the loop to end and
        leaves running as it is; otherwise it changes nothing. It cannot
        fail. */
    method Stop()
      requires Valid()
      modifies this
      ensures Valid() && running == old(running)
      ensures old(running) ==> stop
      ensures !old(running) ==> stop == old(stop)
    {
      if running {
        stop := true;
      }
    }
  }

  /** The application constructor: a period below one minute is rejected
      with invalid_argument; any other period gives an idle application. */
  method NewApplication(period: int) returns (r: Result<Application, ConfigError>)
    ensures r.Failure? <==> period < MinPeriodMinutes
    ensures r.Success? ==> fresh(r.value) && r.value.Valid() && r.value.period == period
                           && !r.value.running && !r.value.stop
  {
    if period < MinPeriodMinutes {
      return Failure(InvalidArgument("Invalid arguments to application constructor"));
    }
    var app := new Application(period);
    return Success(app);
  }

  // ----------------------------------------------------------------------
  // Rolling CPU statistics

  /** Number of CPU values the callback keeps, and how often it reports. */
  const WindowSize: nat := 10

  function Sum(s: seq<real>): real
  {
    if s == [] then 0.0 else Sum(s[..|s| - 1]) + s[|s| - 1]
  }

  /** The buffer's contents after the CPU values `h` have been reported in
      turn from an all-zero start: report number n writes slot n % 10. */
  function Window(h: seq<real>): (w: seq<real>)
    ensures |w| == WindowSize
  {
    if h == [] then seq(WindowSize, _ => 0.0)
    else Window(h[..|h| - 1])[(|h| - 1) % WindowSize := h[|h| - 1]]
  }

  /** Each of the last ten reports is still in the buffer, in the slot its
      position modulo ten names. */
  lemma {:induction false} WindowHoldsRecent(h: seq<real>, j: nat)
    requires j < |h| && |h| - WindowSize <= j
    ensures Window(h)[j % WindowSize] == h[j]
  {
    if j < |h| - 1 {
      var n := |h| - 1;
      assert h[..n][j] == h[j];
      WindowHoldsRecent(h[..n], j);
      assert j % WindowSize != n % WindowSize by {
        assert 0 < n - j < WindowSize;
      }
    }
  }

  /** A slot no report has reached yet still holds its initial zero. */
  lemma {:induction false} WindowUnwritten(h: seq<real>, i: nat)
    requires |h| <= i < WindowSize
    ensures Window(h)[i] == 0.0
  {
    if h != [] {
      WindowUnwritten(h[..|h| - 1], i);
    }
  }

  /** When the count of reports is a nonzero multiple of ten, the buffer
      holds exactly the last ten values, in the order they came. */
  lemma WindowAtReport(h: seq<real>)
    requires |h| > 0 && |h| % WindowSize == 0
    ensures Window(h) == h[|h| - WindowSize..]
  {
    var m := |h| / WindowSize;
    assert |h| == WindowSize * m && m >= 1;
    WindowAtMultiple(h, m);
  }

  /** WindowAtReport with the count written as ten times m, the form in
      which the slot of each of the last ten reports is found without
      reasoning about `%` over the whole history. */
  lemma WindowAtMultiple(h: seq<real>, m: nat)
    requires m >= 1 && |h| == WindowSize * m
    ensures Window(h) == h[|h| - WindowSize..]
  {
    var w, last := Window(h), h[|h| - WindowSize..];
    forall k | 0 <= k < WindowSize ensures w[k] == last[k] {
      var j := |h| - WindowSize + k;
      assert j == WindowSize * (m - 1) + k;
      WindowHoldsRecent(h, j);
    }
  }

  /** The sum of `n` copies of one value. */
  lemma {:induction false} SumConstant(s: seq<real>, c: real)
    requires forall k :: 0 <= k < |s| ==> s[k] == c
    ensures Sum(s) == |s| as real * c
  {
    if s != [] {
      SumConstant(s[..|s| - 1], c);
    }
  }

  /** std::accumulate over the buffer, from 0. */
  method Accumulate(a: array<real>) returns (sum: real)
    ensures sum == Sum(a[..])
  {
    sum := 0.0;
    for i := 0 to a.Length
      invariant sum == Sum(a[..i])
    {
      assert a[..i + 1][..i] == a[..i];
      sum := sum + a[i];
    }
    assert a[..a.Length] == a[..];
  }

  /** The function-local statics of report_sent_callback, held by an object:
      the count of reports and the ring of the latest CPU values. */
  class ReportStats {
    var reportsSent: nat
    const latestCpuValues: array<real>
    /** Every CPU value reported so far, oldest first. */
    ghost var history: seq<real>

    ghost predicate Valid()
      reads this, latestCpuValues
    {
      latestCpuValues.Length == WindowSize
      && reportsSent == |history|
      && latestCpuValues[..] == Window(history)
    }

    constructor ()
      ensures Valid() && fresh(latestCpuValues) && history == []
      ensures reportsSent == 0 && latestCpuValues[..] == seq(WindowSize, _ => 0.0)
    {
      reportsSent := 0;
      latestCpuValues := new real[WindowSize](_ => 0.0);
      history := [];
    }

    /** report_sent_callback. The new CPU value goes into slot
        reportsSent % 10 (the count before this call), the count goes up by
        one, and the other nine slots keep their values. On every tenth call
        it reports the mean of the ten slots, which are then the last ten
        values reported. */
    method ReportSent(sent: Data) returns (mean: Option<real>)
      requires Valid()
      modifies this, latestCpuValues
      ensures Valid()
      ensures history == old(history) + [sent.cpuPercent]
      ensures reportsSent == old(reportsSent) + 1
      ensures latestCpuValues[..] == old(latestCpuValues[..])[old(reportsSent) % WindowSize := sent.cpuPercent]
      ensures mean.Some? <==> reportsSent % WindowSize == 0
      ensures mean.Some? ==> mean.value == Sum(latestCpuValues[..]) / WindowSize as real
      ensures mean.Some? ==> mean.value == Sum(history[|history| - WindowSize..]) / WindowSize as real
    {
      latestCpuValues[reportsSent % WindowSize] := sent.cpuPercent;
      reportsSent := reportsSent + 1;
      history := history + [sent.cpuPercent];
      assert history[..|history| - 1] == old(history);
      if reportsSent % WindowSize == 0 && reportsSent != 0 {
        var sum := Accumulate(latestCpuValues);
        mean := Some(sum / 10.0);
        WindowAtReport(history);
      } else {
        mean := None;
      }
    }
  }

  /** The end-to-end case: ten ticks that each collect the same record, the
      wait interrupted after the tenth, and those ten CPU values fed to the
      statistics. The log holds the record's JSON ten times and the mean
      reported with the tenth value is the record's CPU percentage. */
  lemma TenTicksScenario(d: Data, rounds: seq<Round>, h: seq<real>)
    requires |rounds| == 10 && rounds[9] == Round(Collected(d), Interrupted)
    requires forall i :: 0 <= i < 9 ==> rounds[i] == Round(Collected(d), TimedOut)
    requires |h| == 10 && forall i :: 0 <= i < 10 ==> h[i] == d.cpuPercent
    ensures Ends(rounds)
    ensures RunLog(rounds) == seq(10, _ => Logged(DataToJson(d)))
    ensures Sum(Window(h)) / WindowSize as real == d.cpuPercent
  {
    RunLogShape(rounds, 9);
    WindowAtReport(h);
    SumConstant(Window(h), d.cpuPercent);
  }

  /** Ten reports of one record to fresh statistics: the first nine emit no
      mean, the tenth emits the record's CPU percentage. */
  method ReportTenTimes(d: Data) returns (means: seq<Option<real>>)
    ensures means == seq(9, _ => None) + [Some(d.cpuPercent)]
  {
    var stats := new ReportStats();
    means := [];
    while |means| < 9
      invariant |means| <= 9 && means == seq(|means|, _ => None)
      invariant stats.Valid() && stats.history == seq(|means|, _ => d.cpuPercent)
    {
      var m := stats.ReportSent(d);
      means := means + [m];
    }
    var m := stats.ReportSent(d);
    assert stats.history == seq(10, _ => d.cpuPercent);
    SumConstant(stats.history, d.cpuPercent);
    means := means + [m];
  }
}
