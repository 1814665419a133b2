/** The ERA5-Land download script: one CDS request per month of the target
    year, each tried at most three times with a growing pause between
    attempts, and kept only when its header looks like NetCDF. */
module Downloader {
  import opened Wrappers
  import opened Text
  import MagicBytes
  import Calendar

  const TargetYear: int := 2022

  /** The area of Mexico as [North, West, South, East]. */
  const MexicoBbox: seq<int> := [33, -119, 14, -86]

  const Dataset: string := "reanalysis-era5-land"
  const Variables: seq<string> := ["2m_temperature", "10m_u_component_of_wind", "10m_v_component_of_wind"]
  const Hours: seq<string> := [
    "00:00", "01:00", "02:00", "03:00", "04:00", "05:00",
    "06:00", "07:00", "08:00", "09:00", "10:00", "11:00",
    "12:00", "13:00", "14:00", "15:00", "16:00", "17:00",
    "18:00", "19:00", "20:00", "21:00", "22:00", "23:00"]

  const MaxAttempts: nat := 3
  /** The pause after failed attempt `n` is `BackoffStep * n` seconds. */
  const BackoffStep: nat := 5

  /** The downloader's own copy of `_is_probably_netcdf`: any exception while
      reading gives false (without logging); it agrees with the ETL's check on
      every file. */
  function HeaderCheck(file: Option<seq<bv8>>): (r: bool)
    ensures r == MagicBytes.IsProbablyNetcdf(file)
  {
    if file.None? then false
    else
      var contents := file.value;
      var head := if |contents| <= 8 then contents else contents[..8];
      if [0x43, 0x44, 0x46] <= head then true
      else if head == [0x89, 0x48, 0x44, 0x46, 0x0D, 0x0A, 0x1A, 0x0A] then true
      else false
  }

  /** The request dictionary passed to `client.retrieve`. */
  datatype Request = Request(productType: string, variables: seq<string>, year: string, month: string,
                             days: seq<string>, times: seq<string>, area: seq<int>, format: string)

  /** The request for a month with the given day list. */
  function RequestFor(year: int, month: string, days: seq<string>): Request {
    Request("reanalysis", Variables, IntDecimal(year), month, days, Hours, MexicoBbox, "netcdf")
  }

  /** The request for a month; `None` where `_days_for_month` raises, which
      happens inside the `try` before `retrieve` is called. */
  function MonthRequest(year: int, month: string): (r: Option<Request>)
    ensures r.Some? <==> Calendar.DaysForMonth(year, month).Some?
    ensures r.Some? ==> r.value.days == Calendar.DaysForMonth(year, month).value
                        && r.value.month == month && r.value.year == IntDecimal(year)
  {
    match Calendar.DaysForMonth(year, month)
    case None => None
    case Some(days) => Some(RequestFor(year, month, days))
  }

  /** POSIX `os.path.join(dir, name)`. */
  function PathJoin(dir: string, name: string): (path: string)
    ensures EndsWith(path, name)
  {
    if |name| > 0 && name[0] == '/' then name
    else if dir == [] || dir[|dir| - 1] == '/' then dir + name
    else dir + "/" + name
  }

  function BaseName(year: int, month: string): string {
    "era5-land-mexico-" + IntDecimal(year) + "-" + month + ".nc"
  }

  /** `output_filename` for a month. */
  function OutputFilename(dir: string, year: int, month: string): (path: string)
    ensures EndsWith(path, BaseName(year, month))
  {
    PathJoin(dir, BaseName(year, month))
  }

  /** Two suffixes of one string with the same length are equal. */
  lemma SameLengthSuffixes(path: string, a: string, b: string)
    requires EndsWith(path, a) && EndsWith(path, b) && |a| == |b|
    ensures a == b
  {
  }

  /** Month strings of equal length give equal file names only when equal. */
  lemma BaseNamesDistinct(year: int, a: string, b: string)
    requires |a| == |b| && a != b
    ensures BaseName(year, a) != BaseName(year, b)
  {
    var prefix := "era5-land-mexico-" + IntDecimal(year) + "-";
    var ba, bb := BaseName(year, a), BaseName(year, b);
    assert ba == prefix + a + ".nc" && bb == prefix + b + ".nc";
    assert ba[|prefix|..|prefix| + |a|] == a;
    assert bb[|prefix|..|prefix| + |b|] == b;
  }

  /** Different months of one run are saved under different names, so no
      month overwrites another. */
  lemma OutputFilenamesDistinct(dir: string, year: int, i: nat, j: nat)
    requires i < j < |Calendar.Months|
    ensures OutputFilename(dir, year, Calendar.Months[i]) != OutputFilename(dir, year, Calendar.Months[j])
  {
    var mi, mj := Calendar.Months[i], Calendar.Months[j];
    if mi == mj {
      Pad2Injective(i + 1, j + 1);
    }
    BaseNamesDistinct(year, mi, mj);
    if OutputFilename(dir, year, mi) == OutputFilename(dir, year, mj) {
      SameLengthSuffixes(OutputFilename(dir, year, mi), BaseName(year, mi), BaseName(year, mj));
    }
  }

  /** What one call of `client.retrieve` did: it raised, or it wrote the
      target file, whose content the header check then reads (`None`: the
      read failed). */
  datatype AttemptOutcome = RetrieveFailed | Retrieved(file: Option<seq<bv8>>)

  /** The externally visible steps of the script, in order. */
  datatype Action =
    | Retrieve(dataset: string, request: Request, target: string)
    | Sleep(seconds: nat)
    | Replace(source: string, target: string)

  /** How a month ended: saved at the given attempt, or given up after three
      attempts, the last of which wrote an invalid file or raised. */
  datatype MonthResult = Saved(attempt: nat) | GaveUpInvalid | GaveUpFailed

  /** An attempt succeeds when the download completed and the header passes. */
  predicate Succeeds(o: AttemptOutcome) {
    o.Retrieved? && HeaderCheck(o.file)
  }

  /** What attempt `k` amounts to: a request that cannot be built fails before
      anything is retrieved. */
  function OutcomeOf(request: Option<Request>, outcome: nat -> AttemptOutcome, k: nat): AttemptOutcome {
    if request.Some? then outcome(k) else RetrieveFailed
  }

  /** Attempt `k` of the loop body: the actions it performs, and how the
      month ends if the loop stops with it (at the first success, or after
      the third attempt). */
  function AttemptStep(k: nat, request: Option<Request>, target: string, outcome: nat -> AttemptOutcome)
    : (step: (seq<Action>, Option<MonthResult>))
    requires 1 <= k <= MaxAttempts
    ensures k == MaxAttempts ==> step.1.Some?
  {
    var o := OutcomeOf(request, outcome, k);
    var fetched := if request.Some? then [Retrieve(Dataset, request.value, target)] else [];
    if Succeeds(o) then (fetched, Some(Saved(k)))
    else if k < MaxAttempts then (fetched + [Sleep(BackoffStep * k)], None)
    else if o.Retrieved? then (fetched + [Replace(target, target + ".invalid")], Some(GaveUpInvalid))
    else (fetched, Some(GaveUpFailed))
  }

  /** The retry loop from attempt `k` on: its actions and how the month ends. */
  function RetryFrom(k: nat, request: Option<Request>, target: string, outcome: nat -> AttemptOutcome)
    : (seq<Action>, MonthResult)
    requires 1 <= k <= MaxAttempts
    decreases MaxAttempts - k
  {
    var step := AttemptStep(k, request, target, outcome);
    if step.1.Some? then (step.0, step.1.value)
    else
      var rest := RetryFrom(k + 1, request, target, outcome);
      (step.0 + rest.0, rest.1)
  }

  /** One pass of the `while attempts < 3` body, as attempt `k`. */
  method RunAttempt(k: nat, year: int, month: string, target: string, outcome: nat -> AttemptOutcome)
    returns (actions: seq<Action>, ended: Option<MonthResult>)
    requires 1 <= k <= MaxAttempts
    ensures (actions, ended) == AttemptStep(k, MonthRequest(year, month), target, outcome)
  {
    var days := Calendar.DaysForMonth(year, month);
    if days.None? {
      // `_days_for_month` raised inside the `try`: handled like a failed download.
      if k < MaxAttempts {
        assert [] + [Sleep(BackoffStep * k)] == [Sleep(BackoffStep * k)];
        return [Sleep(BackoffStep * k)], None;
      }
      return [], Some(GaveUpFailed);
    }
    var request := RequestFor(year, month, days.value);
    actions := [Retrieve(Dataset, request, target)];
    var o := outcome(k);
    if o.RetrieveFailed? {
      if k < MaxAttempts {
        return actions + [Sleep(BackoffStep * k)], None;
      }
      return actions, Some(GaveUpFailed);
    }
    if HeaderCheck(o.file) {
      return actions, Some(Saved(k));
    }
    if k < MaxAttempts {
      return actions + [Sleep(BackoffStep * k)], None;
    }
    // A failing rename is swallowed: the action is recorded either way.
    return actions + [Replace(target, target + ".invalid")], Some(GaveUpInvalid);
  }

  /** One attempt of the retry loop, seen from the actions already taken:
      either it ends the month, or the rest follows from attempt `k + 1`. */
  lemma RetryStep(k: nat, request: Option<Request>, target: string, outcome: nat -> AttemptOutcome,
                  before: seq<Action>)
    requires 1 <= k <= MaxAttempts
    ensures var step, run := AttemptStep(k, request, target, outcome), RetryFrom(k, request, target, outcome);
            if step.1.Some? then before + run.0 == before + step.0 && run.1 == step.1.value
            else
              && k < MaxAttempts
              && before + run.0 == (before + step.0) + RetryFrom(k + 1, request, target, outcome).0
              && run.1 == RetryFrom(k + 1, request, target, outcome).1
  {
    var step := AttemptStep(k, request, target, outcome);
    if step.1.None? {
      var rest := RetryFrom(k + 1, request, target, outcome).0;
      assert before + (step.0 + rest) == (before + step.0) + rest;
    }
  }

  /** The whole retry loop of month `month`: its actions and how it ends. */
  function MonthRetry(dir: string, year: int, month: string, outcome: nat -> AttemptOutcome)
    : (seq<Action>, MonthResult)
  {
    RetryFrom(1, MonthRequest(year, month), OutputFilename(dir, year, month), outcome)
  }

  /** The per-month retry loop. `outcome(n)` is what the n-th `retrieve` call
      did. */
  method DownloadMonth(dir: string, year: int, month: string, outcome: nat -> AttemptOutcome)
    returns (trace: seq<Action>, result: MonthResult)
    ensures (trace, result) == MonthRetry(dir, year, month, outcome)
  {
    var target := OutputFilename(dir, year, month);
    ghost var request := MonthRequest(year, month);
    ghost var run := RetryFrom(1, request, target, outcome);
    trace, result := [], GaveUpFailed;
    var attempts := 0;
    while attempts < MaxAttempts
      invariant 0 <= attempts <= MaxAttempts
      invariant attempts < MaxAttempts ==>
                  && run.0 == trace + RetryFrom(attempts + 1, request, target, outcome).0
                  && run.1 == RetryFrom(attempts + 1, request, target, outcome).1
      invariant attempts == MaxAttempts ==> run.0 == trace && run.1 == result
      decreases MaxAttempts - attempts
    {
      attempts := attempts + 1;
      var actions, ended := RunAttempt(attempts, year, month, target, outcome);
      RetryStep(attempts, request, target, outcome, trace);
      trace := trace + actions;
      if ended.Some? {
        result := ended.value;
        break;
      }
    }
  }

  // ----- What the retry loop guarantees -----

  /** How many attempts a month took. */
  function AttemptsMade(r: MonthResult): nat {
    if r.Saved? then r.attempt else MaxAttempts
  }

  /** The number of `retrieve` calls in a trace. */
  function Retrieves(trace: seq<Action>): nat {
    if trace == [] then 0 else (if trace[0].Retrieve? then 1 else 0) + Retrieves(trace[1..])
  }

  /** The seconds slept in a trace. */
  function SleepTotal(trace: seq<Action>): nat {
    if trace == [] then 0 else (if trace[0].Sleep? then trace[0].seconds else 0) + SleepTotal(trace[1..])
  }

  /** The length of the pause an action makes, if it is one. */
  function PauseOf(a: Action): seq<nat> {
    if a.Sleep? then [a.seconds] else []
  }

  /** The lengths of the pauses in a trace, in order. */
  function Pauses(trace: seq<Action>): seq<nat> {
    if trace == [] then [] else PauseOf(trace[0]) + Pauses(trace[1..])
  }

  lemma {:induction false} CountsAppend(a: seq<Action>, b: seq<Action>)
    ensures Retrieves(a + b) == Retrieves(a) + Retrieves(b)
    ensures SleepTotal(a + b) == SleepTotal(a) + SleepTotal(b)
    decreases |a|
  {
    if a == [] {
      assert a + b == b;
    } else {
      assert (a + b)[1..] == a[1..] + b;
      CountsAppend(a[1..], b);
    }
  }

  lemma {:induction false} PausesAppend(a: seq<Action>, b: seq<Action>)
    ensures Pauses(a + b) == Pauses(a) + Pauses(b)
    decreases |a|
  {
    if a == [] {
      assert a + b == b;
    } else {
      assert (a + b)[0] == a[0];
      assert (a + b)[1..] == a[1..] + b;
      PausesAppend(a[1..], b);
      calc {
        Pauses(a + b);
        PauseOf(a[0]) + Pauses(a[1..] + b);
        PauseOf(a[0]) + (Pauses(a[1..]) + Pauses(b));
        (PauseOf(a[0]) + Pauses(a[1..])) + Pauses(b);
      }
    }
  }

  /** The loop stops at the first attempt that succeeds: the month is saved
      exactly when some attempt from `k` to 3 succeeds, and then at the first
      such attempt. Otherwise it gives up with an invalid file exactly when
      the third attempt downloaded something. */
  lemma {:induction false} RetryStopsAtFirstSuccess(k: nat, request: Option<Request>, target: string,
                                                    outcome: nat -> AttemptOutcome)
    requires 1 <= k <= MaxAttempts
    ensures var r := RetryFrom(k, request, target, outcome).1;
            && (r.Saved? <==> exists j :: k <= j <= MaxAttempts && Succeeds(OutcomeOf(request, outcome, j)))
            && (r.Saved? ==> k <= r.attempt <= MaxAttempts && Succeeds(OutcomeOf(request, outcome, r.attempt))
                             && forall j :: k <= j < r.attempt ==> !Succeeds(OutcomeOf(request, outcome, j)))
            && (r == GaveUpInvalid <==> !r.Saved? && OutcomeOf(request, outcome, MaxAttempts).Retrieved?)
    decreases MaxAttempts - k
  {
    if k < MaxAttempts && !Succeeds(OutcomeOf(request, outcome, k)) {
      RetryStopsAtFirstSuccess(k + 1, request, target, outcome);
    }
  }

  /** The actions of attempt `k` that the loop goes on from: the `retrieve`
      call (if the request could be built) and the pause. */
  lemma ContinuingStep(k: nat, request: Option<Request>, target: string, outcome: nat -> AttemptOutcome)
    requires 1 <= k <= MaxAttempts
    requires AttemptStep(k, request, target, outcome).1.None?
    ensures k < MaxAttempts
    ensures var fetched := if request.Some? then [Retrieve(Dataset, request.value, target)] else [];
            AttemptStep(k, request, target, outcome).0 == fetched + [Sleep(BackoffStep * k)]
            && Retrieves(fetched + [Sleep(BackoffStep * k)]) == (if request.Some? then 1 else 0)
            && SleepTotal(fetched + [Sleep(BackoffStep * k)]) == BackoffStep * k
            && Pauses(fetched + [Sleep(BackoffStep * k)]) == [BackoffStep * k]
  {
    var fetched := if request.Some? then [Retrieve(Dataset, request.value, target)] else [];
    var pause := [Sleep(BackoffStep * k)];
    assert pause[1..] == [];
    if request.Some? {
      assert fetched[1..] == [];
    }
    CountsAppend(fetched, pause);
    PausesAppend(fetched, pause);
  }

  /** The actions of the attempt the loop stops with: the `retrieve` call (if
      the request could be built) and, after a third invalid file, the rename. */
  lemma FinalStep(k: nat, request: Option<Request>, target: string, outcome: nat -> AttemptOutcome)
    requires 1 <= k <= MaxAttempts
    requires AttemptStep(k, request, target, outcome).1.Some?
    ensures var step := AttemptStep(k, request, target, outcome);
            Retrieves(step.0) == (if request.Some? then 1 else 0) && SleepTotal(step.0) == 0
            && Pauses(step.0) == [] && AttemptsMade(step.1.value) == k
  {
    var fetched := if request.Some? then [Retrieve(Dataset, request.value, target)] else [];
    var rename := [Replace(target, target + ".invalid")];
    assert rename[1..] == [];
    if request.Some? {
      assert fetched[1..] == [];
    }
    CountsAppend(fetched, rename);
    PausesAppend(fetched, rename);
  }

  /** The pauses after attempts `k` to `n - 1` sum to the pause after `k`
      plus those after `k + 1` to `n - 1`. */
  lemma PauseSumStep(k: nat, n: nat)
    ensures (n * (n - 1) - k * (k - 1)) / 2 == k + (n * (n - 1) - (k + 1) * k) / 2
  {
    var rest := n * (n - 1) - (k + 1) * k;
    assert n * (n - 1) - k * (k - 1) == rest + 2 * k;
  }

  /** The trace from attempt `k` holds one `retrieve` per attempt made (none
      when the request cannot be built), and its pauses add up to
      `5k + 5(k + 1) + ... + 5(n - 1)` seconds for `n` attempts made. */
  lemma {:induction false} RetryCounts(k: nat, request: Option<Request>, target: string,
                                       outcome: nat -> AttemptOutcome)
    requires 1 <= k <= MaxAttempts
    ensures var (trace, r) := RetryFrom(k, request, target, outcome);
            var n := AttemptsMade(r);
            && k <= n <= MaxAttempts
            && Retrieves(trace) == (if request.Some? then n - k + 1 else 0)
            && SleepTotal(trace) == BackoffStep * ((n * (n - 1) - k * (k - 1)) / 2)
    decreases MaxAttempts - k
  {
    var step := AttemptStep(k, request, target, outcome);
    if step.1.None? {
      ContinuingStep(k, request, target, outcome);
      RetryCounts(k + 1, request, target, outcome);
      var rest := RetryFrom(k + 1, request, target, outcome);
      CountsAppend(step.0, rest.0);
      PauseSumStep(k, AttemptsMade(rest.1));
    } else {
      FinalStep(k, request, target, outcome);
    }
  }

  /** The backoff schedule from attempt `k` is the pause after `k` followed
      by the schedule from `k + 1`. */
  lemma BackoffsCons(k: nat, n: nat)
    requires k < n
    ensures [BackoffStep * k] + seq(n - (k + 1), i => BackoffStep * (k + 1 + i))
            == seq(n - k, i => BackoffStep * (k + i))
  {
  }

  /** The pauses of the trace from attempt `k`, in order: `5 * j` seconds
      after each attempt `j` from `k` up to, but not including, the last one
      made; none after the last. */
  lemma {:induction false} RetryPauses(k: nat, request: Option<Request>, target: string,
                                       outcome: nat -> AttemptOutcome)
    requires 1 <= k <= MaxAttempts
    ensures var (trace, r) := RetryFrom(k, request, target, outcome);
            var n := AttemptsMade(r);
            && k <= n
            && Pauses(trace) == seq(n - k, i => BackoffStep * (k + i))
    decreases MaxAttempts - k
  {
    var step := AttemptStep(k, request, target, outcome);
    if step.1.None? {
      ContinuingStep(k, request, target, outcome);
      RetryPauses(k + 1, request, target, outcome);
      var rest := RetryFrom(k + 1, request, target, outcome);
      assert RetryFrom(k, request, target, outcome) == (step.0 + rest.0, rest.1);
      PausesAppend(step.0, rest.0);
      BackoffsCons(k, AttemptsMade(rest.1));
    } else {
      FinalStep(k, request, target, outcome);
    }
  }

  /** When the request can be built, the trace from attempt `k` never ends
      with a pause (every pause is followed by another `retrieve`), and a
      rename to `<name>.invalid` is only ever its final action, present
      exactly when the month is given up with an invalid file. */
  lemma {:induction false} RetryTraceShape(k: nat, request: Option<Request>, target: string,
                                           outcome: nat -> AttemptOutcome)
    requires 1 <= k <= MaxAttempts
    ensures var (trace, r) := RetryFrom(k, request, target, outcome);
            && (request.Some? ==> trace != [] && !trace[|trace| - 1].Sleep?)
            && (forall i :: 0 <= i < |trace| && trace[i].Replace? ==>
                  i == |trace| - 1 && trace[i] == Replace(target, target + ".invalid"))
            && (r == GaveUpInvalid <==> trace != [] && trace[|trace| - 1].Replace?)
    decreases MaxAttempts - k
  {
    var step := AttemptStep(k, request, target, outcome);
    if step.1.None? {
      RetryTraceShape(k + 1, request, target, outcome);
      RetryStopsAtFirstSuccess(k + 1, request, target, outcome);
      var rest := RetryFrom(k + 1, request, target, outcome);
      var trace := step.0 + rest.0;
      assert forall i :: 0 <= i < |step.0| ==> !step.0[i].Replace?;
      forall i | 0 <= i < |trace| && trace[i].Replace?
        ensures i == |trace| - 1 && trace[i] == Replace(target, target + ".invalid")
      {
        assert i >= |step.0| && trace[i] == rest.0[i - |step.0|];
      }
      if rest.0 != [] {
        assert trace[|trace| - 1] == rest.0[|rest.0| - 1];
      }
    }
  }

  /** A month makes at most three `retrieve` calls and pauses at most 15
      seconds in all. */
  lemma MonthBounds(request: Option<Request>, target: string, outcome: nat -> AttemptOutcome)
    ensures var trace := RetryFrom(1, request, target, outcome).0;
            Retrieves(trace) <= MaxAttempts && SleepTotal(trace) <= 15
  {
    RetryCounts(1, request, target, outcome);
    var n := AttemptsMade(RetryFrom(1, request, target, outcome).1);
    assert n == 1 || n == 2 || n == 3;
  }

  /** Every `retrieve` call of a month sends that month's request and writes
      to that month's file. */
  lemma {:induction false} RetrievesSendRequest(k: nat, request: Option<Request>, target: string,
                                                outcome: nat -> AttemptOutcome)
    requires 1 <= k <= MaxAttempts
    ensures forall a :: a in RetryFrom(k, request, target, outcome).0 && a.Retrieve? ==>
              request.Some? && a == Retrieve(Dataset, request.value, target)
    decreases MaxAttempts - k
  {
    var step := AttemptStep(k, request, target, outcome);
    if step.1.None? {
      ContinuingStep(k, request, target, outcome);
      RetrievesSendRequest(k + 1, request, target, outcome);
    }
  }

  // ----- The whole script -----

  /** What the `retrieve` calls for one month do, by attempt number. */
  function MonthOutcome(outcome: (string, nat) -> AttemptOutcome, month: string): nat -> AttemptOutcome {
    (n: nat) => outcome(month, n)
  }

  /** The trace and result of month `month`. */
  function MonthRun(dir: string, year: int, month: string, outcome: (string, nat) -> AttemptOutcome)
    : (seq<Action>, MonthResult)
  {
    MonthRetry(dir, year, month, MonthOutcome(outcome, month))
  }

  /** The actions of the retry loops for `months`, in order. */
  function YearTrace(dir: string, year: int, months: seq<string>, outcome: (string, nat) -> AttemptOutcome)
    : seq<Action>
  {
    if months == [] then []
    else
      var last := months[|months| - 1];
      YearTrace(dir, year, months[..|months| - 1], outcome) + MonthRun(dir, year, last, outcome).0
  }

  /** One pass of the `for month in months` body. */
  method RunMonth(dir: string, year: int, month: string, outcome: (string, nat) -> AttemptOutcome)
    returns (trace: seq<Action>, result: MonthResult)
    ensures (trace, result) == MonthRun(dir, year, month, outcome)
  {
    trace, result := DownloadMonth(dir, year, month, MonthOutcome(outcome, month));
  }

  lemma YearTraceStep(dir: string, year: int, months: seq<string>, outcome: (string, nat) -> AttemptOutcome, i: nat)
    requires i < |months|
    ensures YearTrace(dir, year, months[..i + 1], outcome)
            == YearTrace(dir, year, months[..i], outcome) + MonthRun(dir, year, months[i], outcome).0
  {
    assert months[..i + 1][..i] == months[..i];
  }

  /** The script's `for month in months` loop; `outcome(month, n)` is what
      the n-th `retrieve` call for that month did. The script runs it on
      `Calendar.Months` and `TargetYear`. */
  method DownloadYear(dir: string, year: int, months: seq<string>, outcome: (string, nat) -> AttemptOutcome)
    returns (trace: seq<Action>)
    ensures trace == YearTrace(dir, year, months, outcome)
  {
    trace := [];
    for i := 0 to |months|
      invariant trace == YearTrace(dir, year, months[..i], outcome)
    {
      var monthTrace, _ := RunMonth(dir, year, months[i], outcome);
      YearTraceStep(dir, year, months, outcome, i);
      trace := trace + monthTrace;
    }
    assert months[..|months|] == months;
  }

  /** A `retrieve` call that asks for `month`, with that month's day list,
      and writes to that month's file. */
  predicate FetchesMonth(a: Action, dir: string, year: int, month: string)
    requires a.Retrieve?
  {
    && a.request.month == month
    && Calendar.DaysForMonth(year, month) == Some(a.request.days)
    && a.target == OutputFilename(dir, year, month)
    && a.dataset == Dataset
  }

  /** Every `retrieve` call made for `month` fetches that month. */
  lemma MonthRetrievesWellFormed(dir: string, year: int, month: string,
                                 outcome: (string, nat) -> AttemptOutcome)
    ensures forall a :: a in MonthRun(dir, year, month, outcome).0 && a.Retrieve? ==>
              FetchesMonth(a, dir, year, month)
  {
    RetrievesSendRequest(1, MonthRequest(year, month), OutputFilename(dir, year, month),
                         MonthOutcome(outcome, month));
  }

  /** Every `retrieve` call of the run asks for one of `months`, with that
      month's day list, and writes to that month's file; a month whose name
      does not parse as 1 to 12 makes no `retrieve` call. */
  lemma {:induction false} YearRetrievesWellFormed(dir: string, year: int, months: seq<string>,
                                                   outcome: (string, nat) -> AttemptOutcome)
    ensures forall a :: a in YearTrace(dir, year, months, outcome) && a.Retrieve? ==>
              exists i :: 0 <= i < |months| && FetchesMonth(a, dir, year, months[i])
    decreases |months|
  {
    if months != [] {
      var init, last := months[..|months| - 1], months[|months| - 1];
      YearRetrievesWellFormed(dir, year, init, outcome);
      MonthRetrievesWellFormed(dir, year, last, outcome);
      assert YearTrace(dir, year, months, outcome)
             == YearTrace(dir, year, init, outcome) + MonthRun(dir, year, last, outcome).0;
      forall a | a in YearTrace(dir, year, months, outcome) && a.Retrieve?
        ensures exists i :: 0 <= i < |months| && FetchesMonth(a, dir, year, months[i])
      {
        if a in YearTrace(dir, year, init, outcome) {
          var i :| 0 <= i < |init| && FetchesMonth(a, dir, year, init[i]);
          assert months[i] == init[i];
        } else {
          assert FetchesMonth(a, dir, year, months[|months| - 1]);
        }
      }
    }
  }

  /** A run over `months` makes at most three `retrieve` calls and pauses at
      most fifteen seconds per month. */
  lemma {:induction false} YearBounds(dir: string, year: int, months: seq<string>,
                                      outcome: (string, nat) -> AttemptOutcome)
    ensures Retrieves(YearTrace(dir, year, months, outcome)) <= MaxAttempts * |months|
    ensures SleepTotal(YearTrace(dir, year, months, outcome)) <= 15 * |months|
    decreases |months|
  {
    if months != [] {
      var init, last := months[..|months| - 1], months[|months| - 1];
      YearBounds(dir, year, init, outcome);
      MonthBounds(MonthRequest(year, last), OutputFilename(dir, year, last), MonthOutcome(outcome, last));
      CountsAppend(YearTrace(dir, year, init, outcome), MonthRun(dir, year, last, outcome).0);
    }
  }
}
