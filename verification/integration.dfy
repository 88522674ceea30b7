/** The generators of the time-integrated variables in src/: a running sum over the forecast steps, emitted
    at every step. */
module Integration {
  import opened GribScan
  import opened Wrappers
  import Calendar
  import FileNames

  /** One output file: its name, the end of its time interval, and its field. */
  datatype Emission = Emission(name: string, end: Calendar.Date, field: Field)

  /** Records of at least k + 1 steps, each with n points. */
  predicate Series(records: seq<Field>, k: int, n: nat) {
    k < |records| && forall j :: 0 <= j < |records| ==> |records[j]| == n
  }

  /** The sum at point i over steps 1 to k; step 0 does not count. */
  function Sum(records: seq<Field>, k: nat, n: nat, i: nat): real
    requires Series(records, k, n) && i < n
  {
    if k == 0 then 0.0 else Sum(records, k - 1, n, i) + records[k][i]
  }

  function Emitted(records: seq<Field>, k: nat, n: nat, c: real): (f: Field)
    requires Series(records, k, n)
    ensures |f| == n && forall i :: 0 <= i < n ==> f[i] == Sum(records, k, n, i) * c
  {
    seq(n, i requires 0 <= i < n => Sum(records, k, n, i) * c)
  }

  const SIX_HOURS := 21600.0

  /** What each generator multiplies its running sum by. The outgoing and heat fluxes turn their sign; snow
      and precipitation are amounts already. */
  function Factor(id: int): real {
    if id == 7 || id == 8 then SIX_HOURS
    else if id == 5 || id == 6 || id == 9 then -SIX_HOURS
    else 1.0
  }

  const TOTAL_PRECIPITATION := 11

  /** The end of the interval; total precipitation keeps the run's own date. */
  function IntervalEnd(id: int, start: Calendar.Date, k: nat): Calendar.Date
    requires Calendar.Valid(start)
  {
    if id == TOTAL_PRECIPITATION then start else Calendar.AddTime(start, Calendar.Hours(6 * k))
  }

  function Output(id: int, start: Calendar.Date, em: nat, records: seq<Field>, n: nat, k: nat): Emission
    requires FileNames.IsVariable(id) && FileNames.IsCycle(start) && Series(records, k, n)
  {
    Emission(FileNames.OutputName(id, start, 6 * k, em), IntervalEnd(id, start, k), Emitted(records, k, n, Factor(id)))
  }

  /** Total precipitation (11) ends where the run starts; any other interval ends six hours a step later. */
  lemma IntervalEnds(id: int, start: Calendar.Date, k: nat)
    requires Calendar.Valid(start)
    ensures var end := IntervalEnd(id, start, k);
            if id == 11 then end == start
            else Calendar.Valid(end) && Calendar.Minutes(end) == Calendar.Minutes(start) + 360 * k
  {
    Calendar.AddHoursIsExact(start, 6 * k);
  }

  /** `tmInit` plus the forecast hour, in a fresh `tmEnd`. */
  method EndOfInterval(id: int, start: Calendar.Date, k: nat) returns (end: Calendar.Date)
    requires Calendar.Valid(start)
    ensures end == IntervalEnd(id, start, k)
  {
    if id == TOTAL_PRECIPITATION { return start; }
    var tmInit := new Calendar.Dt(start);
    var tmEnd := new Calendar.Dt(Calendar.Hours(6 * k));
    Calendar.TimeAdd(tmInit, tmEnd);
    end := tmEnd.Value();
  }

  /** One turn of a generator's loop over the forecast hours. */
  method GenerateStep(id: int, start: Calendar.Date, em: nat, records: seq<Field>, n: nat, k: nat,
                      runningSum: array<real>)
    returns (e: Emission)
    requires FileNames.IsVariable(id) && FileNames.IsCycle(start) && Series(records, k, n) && runningSum.Length == n
    requires k > 0 ==> HoldsSums(runningSum, records, k - 1, n)
    modifies runningSum
    ensures HoldsSums(runningSum, records, k, n) && e == Output(id, start, em, records, n, k)
  {
    var end := EndOfInterval(id, start, k);
    var values := AccumulateStep(runningSum, records, k, n, Factor(id));
    e := Emission(FileNames.OutputName(id, start, 6 * k, em), end, values);
  }

  /** The outputs of the first k steps. */
  predicate AreOutputs(out: seq<Emission>, id: int, start: Calendar.Date, em: nat, records: seq<Field>, n: nat, k: nat)
    requires FileNames.IsVariable(id) && FileNames.IsCycle(start) && Series(records, STEPS - 1, n) && k <= STEPS
  {
    |out| == k && forall j :: 0 <= j < k ==> out[j] == Output(id, start, em, records, n, j)
  }

  lemma OneMoreOutput(out: seq<Emission>, e: Emission, id: int, start: Calendar.Date, em: nat, records: seq<Field>,
                      n: nat, k: nat)
    requires FileNames.IsVariable(id) && FileNames.IsCycle(start) && Series(records, STEPS - 1, n) && k < STEPS
    requires AreOutputs(out, id, start, em, records, n, k) && e == Output(id, start, em, records, n, k)
    ensures AreOutputs(out + [e], id, start, em, records, n, k + 1)
  {
  }

  /** The generators of the seven time-integrated variables. */
  method Generate(id: int, start: Calendar.Date, em: nat, records: seq<Field>, n: nat) returns (out: seq<Emission>)
    requires FileNames.IsVariable(id) && FileNames.IsCycle(start) && Series(records, STEPS - 1, n)
    ensures AreOutputs(out, id, start, em, records, n, STEPS)
  {
    out := [];
    var runningSum := new real[n](_ => 0.0);
    for k := 0 to STEPS
      invariant runningSum.Length == n && AreOutputs(out, id, start, em, records, n, k)
      invariant k > 0 ==> HoldsSums(runningSum, records, k - 1, n)
    {
      var e := GenerateStep(id, start, em, records, n, k, runningSum);
      OneMoreOutput(out, e, id, start, em, records, n, k);
      out := out + [e];
    }
  }

  predicate HoldsSums(runningSum: array<real>, records: seq<Field>, k: nat, n: nat)
    requires Series(records, k, n)
    reads runningSum
  {
    runningSum.Length == n && forall i :: 0 <= i < n ==> runningSum[i] == Sum(records, k, n, i)
  }

  /** Step k of a generator. */
  method AccumulateStep(runningSum: array<real>, records: seq<Field>, k: nat, n: nat, c: real) returns (values: Field)
    requires Series(records, k, n) && runningSum.Length == n
    requires k > 0 ==> HoldsSums(runningSum, records, k - 1, n)
    modifies runningSum
    ensures HoldsSums(runningSum, records, k, n) && values == Emitted(records, k, n, c)
  {
    values := Accumulate(runningSum, records[k], c, k == 0);
    assert forall i :: 0 <= i < n ==> values[i] == Emitted(records, k, n, c)[i];
  }

  /** The loop over the grid: at the first step the sum starts at zero whatever the record. */
  method Accumulate(runningSum: array<real>, ncepValues: Field, c: real, first: bool) returns (values: Field)
    requires |ncepValues| == runningSum.Length
    modifies runningSum
    ensures |values| == runningSum.Length
    ensures forall i :: 0 <= i < runningSum.Length ==>
              runningSum[i] == (if first then 0.0 else old(runningSum[i]) + ncepValues[i])
              && values[i] == (if first then 0.0 else runningSum[i] * c)
  {
    var tiggeValues := new real[runningSum.Length];
    for i := 0 to runningSum.Length
      invariant forall j :: i <= j < runningSum.Length ==> runningSum[j] == old(runningSum[j])
      invariant forall j :: 0 <= j < i ==>
                  runningSum[j] == (if first then 0.0 else old(runningSum[j]) + ncepValues[j])
                  && tiggeValues[j] == (if first then 0.0 else runningSum[j] * c)
    {
      if first {
        runningSum[i] := 0.0;
        tiggeValues[i] := 0.0;
      } else {
        runningSum[i] := runningSum[i] + ncepValues[i];
        tiggeValues[i] := runningSum[i] * c;
      }
    }
    values := tiggeValues[..];
  }

  // ----- What is emitted -----

  /** The explanation in the source: the mean flux over k intervals times the seconds elapsed. */
  lemma EmittedIsMeanTimesElapsed(records: seq<Field>, k: nat, n: nat, i: nat)
    requires Series(records, k, n) && k >= 1 && i < n
    ensures var mean := Sum(records, k, n, i) / (k as real);
            Emitted(records, k, n, SIX_HOURS)[i] == mean * (3600.0 * 6.0 * (k as real))
  {
    var s, r := Sum(records, k, n, i), k as real;
    assert s / r * r == s;
    assert s / r * (21600.0 * r) == s / r * r * 21600.0;
  }

  /** Each output adds its own record; the first adds nothing. */
  lemma EmittedStep(records: seq<Field>, k: nat, n: nat, c: real, i: nat)
    requires Series(records, k, n) && i < n
    ensures Emitted(records, k, n, c)[i]
         == if k == 0 then 0.0 else Emitted(records, k - 1, n, c)[i] + records[k][i] * c
  {
    if k > 0 { Distribute(Sum(records, k - 1, n, i), records[k][i], c); }
  }

  lemma Distribute(a: real, b: real, c: real)
    ensures (a + b) * c == a * c + b * c
  {
  }

  /** Consecutive outputs give back the input between them. */
  lemma DifferencesRecoverInputs(records: seq<Field>, k: nat, n: nat, c: real, i: nat)
    requires Series(records, k + 1, n) && c != 0.0 && i < n
    ensures (Emitted(records, k + 1, n, c)[i] - Emitted(records, k, n, c)[i]) / c == records[k + 1][i]
  {
    EmittedStep(records, k + 1, n, c, i);
    assert records[k + 1][i] * c / c == records[k + 1][i];
  }

  /** Two series with the same outputs have the same records from step 1 on. */
  lemma OutputsDetermineInputs(a: seq<Field>, b: seq<Field>, k: nat, n: nat, c: real)
    requires Series(a, k, n) && Series(b, k, n) && c != 0.0
    requires forall j :: 0 <= j <= k ==> Emitted(a, j, n, c) == Emitted(b, j, n, c)
    ensures forall j :: 1 <= j <= k ==> a[j] == b[j]
  {
    forall j | 1 <= j <= k ensures a[j] == b[j] {
      forall i | 0 <= i < n ensures a[j][i] == b[j][i] {
        DifferencesRecoverInputs(a, j - 1, n, c, i);
        DifferencesRecoverInputs(b, j - 1, n, c, i);
      }
    }
  }

  /** The intervals of consecutive outputs end six hours apart, for every variable but total precipitation. */
  lemma IntervalsAreSixHours(id: int, start: Calendar.Date, k: nat)
    requires Calendar.Valid(start)
    ensures Calendar.Valid(IntervalEnd(id, start, k)) && Calendar.Valid(IntervalEnd(id, start, k + 1))
    ensures Calendar.Minutes(IntervalEnd(id, start, k + 1)) == Calendar.Minutes(IntervalEnd(id, start, k)) + 360
       <==> id != TOTAL_PRECIPITATION
  {
    if id != TOTAL_PRECIPITATION {
      EndIsLater(id, start, k);
      EndIsLater(id, start, k + 1);
      Calendar.LaterByTheDifference(start, 6 * k, IntervalEnd(id, start, k), 6, IntervalEnd(id, start, k + 1));
    }
  }

  lemma EndIsLater(id: int, start: Calendar.Date, k: nat)
    requires Calendar.Valid(start) && id != TOTAL_PRECIPITATION
    ensures Calendar.HoursLater(start, 6 * k, IntervalEnd(id, start, k))
  {
    Calendar.AddHoursIsExact(start, 6 * k);
  }

  lemma {:induction false} SumsCompare(a: seq<Field>, b: seq<Field>, k: nat, n: nat, i: nat)
    requires Series(a, k, n) && Series(b, k, n) && i < n
    requires forall j :: 1 <= j <= k ==> a[j][i] <= b[j][i]
    ensures Sum(a, k, n, i) <= Sum(b, k, n, i)
  {
    if k > 0 { SumsCompare(a, b, k - 1, n, i); }
  }

  lemma {:induction false} SumOfNonNegative(a: seq<Field>, k: nat, n: nat, i: nat)
    requires Series(a, k, n) && i < n
    requires forall j :: 1 <= j <= k ==> a[j][i] >= 0.0
    ensures Sum(a, k, n, i) >= 0.0
  {
    if k > 0 { SumOfNonNegative(a, k - 1, n, i); }
  }

  /** If one series lies between zero and another at a point, so do its accumulations, and neither of them
      ever goes down. */
  lemma AccumulationsCompare(a: seq<Field>, b: seq<Field>, k: nat, n: nat, i: nat)
    requires Series(a, k, n) && Series(b, k, n) && i < n
    requires forall j :: 1 <= j <= k ==> 0.0 <= a[j][i] <= b[j][i]
    ensures 0.0 <= Emitted(a, k, n, 1.0)[i] <= Emitted(b, k, n, 1.0)[i]
    ensures k > 0 ==> Emitted(a, k - 1, n, 1.0)[i] <= Emitted(a, k, n, 1.0)[i]
                      && Emitted(b, k - 1, n, 1.0)[i] <= Emitted(b, k, n, 1.0)[i]
  {
    SumsCompare(a, b, k, n, i);
    SumOfNonNegative(a, k, n, i);
  }
}
