/** The run over the selected endpoints (`main`): selection by name, then
    per endpoint extraction, CSV archival and the optional table load, each
    endpoint isolated from the failures of the others. */
module Orchestration {
  import opened Records
  import opened Config
  import opened Extraction
  import opened Csv
  import opened BulkLoad

  /** `process.env.ENDPOINT || 'all'`: an unset or empty variable selects
      every endpoint. */
  function SelectedName(endpointVar: string): (name: string)
  {
    if endpointVar == "" then "all" else endpointVar
  }

  /** `config.filter(e => e.name === name)`. */
  function FilterByName(config: seq<Endpoint>, name: string): (r: seq<Endpoint>)
    ensures |r| <= |config|
    ensures forall e :: e in r <==> e in config && e.name == name
  {
    if config == [] then []
    else (if config[0].name == name then [config[0]] else []) + FilterByName(config[1..], name)
  }

  /** The endpoints to run for a selection. */
  function SelectEndpoints(config: seq<Endpoint>, selected: string): (r: seq<Endpoint>)
  {
    if selected == "all" then config else FilterByName(config, selected)
  }

  /** The collaborators of one run, as inputs: the `ENDPOINT` variable, the
      date window, the scripted API replies of the `j`-th endpoint run, the
      CSV parser's output, and whether chunk `c` of the `j`-th endpoint run
      is accepted by the table. */
  datatype Env = Env(
    endpointVar: string,
    window: Window,
    api: nat -> seq<Reply>,
    parse: seq<Record> -> Option<string>,
    insertOk: nat -> nat -> bool)

  /** One call to an external service, in the order the run makes them. */
  datatype Call =
    | ApiRequest(url: string, body: RequestBody)
    | StorageUpload(bucket: string, csv: string)
    | TableInsert(table: string, rows: seq<Record>)

  /** Whether the table load ran and, if so, how it ended. A `ChunkFailed`
      result is the error that the per-endpoint handler catches. */
  datatype TableStep = NotConfigured | Ran(result: LoadResult)

  /** What happened to one endpoint: the page loop would have asked for a
      page beyond the scripted replies (the source keeps requesting and never
      reaches the uploads nor any later endpoint), nothing extracted (both
      uploads skipped), or processed, with whether a CSV upload was issued
      and what the table step did. */
  datatype EndpointOutcome =
    | Unfinished
    | NoData
    | Processed(csvUploaded: bool, table: TableStep)

  datatype Step = Step(outcome: EndpointOutcome, calls: seq<Call>)

  /** `process.exit(1)` on an empty selection, or the outcomes of the
      selected endpoints that were reached, in order; a last `Unfinished`
      outcome is the endpoint whose page loop the run is still in. */
  datatype RunResult = InvalidEndpoint(selected: string) | Completed(outcomes: seq<EndpointOutcome>)

  function ApiCalls(url: string, bodies: seq<RequestBody>): (calls: seq<Call>)
  {
    seq(|bodies|, k requires 0 <= k < |bodies| => ApiRequest(url, bodies[k]))
  }

  function InsertCalls(table: string, chunks: seq<seq<Record>>): (calls: seq<Call>)
  {
    seq(|chunks|, k requires 0 <= k < |chunks| => TableInsert(table, chunks[k]))
  }

  /** The upload step: a CSV text is uploaded only when it is present and
      not empty (`if (csv)`). */
  predicate Uploadable(csv: Option<string>)
  {
    csv.Some? && csv.value != ""
  }

  /** What processing the `j`-th selected endpoint does and calls. */
  function EndpointSpec(e: Endpoint, j: nat, env: Env): (step: Step)
  {
    var script := env.api(j);
    var data := Extracted(script, e.dataField);
    var fetch := ApiCalls(e.url, Requests(e, env.window, script));
    if !Finished(script, e.dataField) then Step(Unfinished, fetch)
    else if data == [] then Step(NoData, fetch)
    else
      var csv := ConvertJsonToCsv(data, env.parse);
      var upload := if Uploadable(csv) then [StorageUpload(e.bucket, csv.value)] else [];
      if HasTable(e) then
        var table := e.sqlTable.value;
        var ok := env.insertOk(j);
        Step(Processed(Uploadable(csv), Ran(LoadOutcome(table, |data|, ok))),
             fetch + upload + InsertCalls(table, Chunks(data, Attempts(|data|, ok))))
      else
        Step(Processed(Uploadable(csv), NotConfigured), fetch + upload)
  }

  /** What processing each selected endpoint does, in selection order. */
  function Steps(sel: seq<Endpoint>, env: Env): (steps: seq<Step>)
  {
    StepsUpTo(sel, EndpointStep(env), |sel|)
  }

  /** `EndpointSpec` under one environment, as a function of the endpoint
      and its position. */
  function EndpointStep(env: Env): (spec: (Endpoint, nat) -> Step)
  {
    (e: Endpoint, j: nat) => EndpointSpec(e, j, env)
  }

  /** The steps of the first `n` selected endpoints, in order. */
  function StepsUpTo(sel: seq<Endpoint>, spec: (Endpoint, nat) -> Step, n: nat): (steps: seq<Step>)
    requires n <= |sel|
    ensures |steps| == n
  {
    if n == 0 then [] else StepsUpTo(sel, spec, n - 1) + [spec(sel[n - 1], n - 1)]
  }

  /** Step `k` of the list is the processing of the `k`-th endpoint. */
  lemma {:induction false} StepAt(sel: seq<Endpoint>, spec: (Endpoint, nat) -> Step, n: nat, k: nat)
    requires k < n <= |sel|
    ensures StepsUpTo(sel, spec, n)[k] == spec(sel[k], k)
  {
    if k < n - 1 {
      StepAt(sel, spec, n - 1, k);
    }
  }

  /** The steps of a shorter prefix of the selection are a prefix of the
      steps of a longer one. */
  lemma {:induction false} StepsUpToPrefix(sel: seq<Endpoint>, spec: (Endpoint, nat) -> Step, n: nat, m: nat)
    requires m <= n <= |sel|
    ensures StepsUpTo(sel, spec, n)[..m] == StepsUpTo(sel, spec, m)
  {
    if m < n {
      StepsUpToPrefix(sel, spec, n - 1, m);
      TakeOfAppend(StepsUpTo(sel, spec, n - 1), [spec(sel[n - 1], n - 1)], m);
    } else {
      TakeAll(StepsUpTo(sel, spec, n));
    }
  }

  lemma TakeOfAppend<T>(a: seq<T>, b: seq<T>, m: nat)
    requires m <= |a|
    ensures (a + b)[..m] == a[..m]
  {
  }

  lemma TakeAll<T>(a: seq<T>)
    ensures a[..|a|] == a
  {
  }

  lemma TakeOneMore<T>(a: seq<T>, m: nat)
    requires m < |a|
    ensures a[..m + 1] == a[..m] + [a[m]]
    ensures a[..m + 1][..m] == a[..m]
  {
  }

  /** The calls of a list of endpoint steps, in order. */
  function TraceOf(steps: seq<Step>): (trace: seq<Call>)
  {
    if steps == [] then [] else TraceOf(steps[..|steps| - 1]) + steps[|steps| - 1].calls
  }

  /** The outcomes of a list of endpoint steps, in order. */
  function OutcomesOf(steps: seq<Step>): (outcomes: seq<EndpointOutcome>)
  {
    seq(|steps|, k requires 0 <= k < |steps| => steps[k].outcome)
  }

  /** How many endpoint steps the run reaches: every step up to and
      including the first `Unfinished` one, or all of them. */
  function Reach(steps: seq<Step>): (n: nat)
    ensures n <= |steps|
    ensures steps != [] ==> 1 <= n
    ensures forall k :: 0 <= k < n - 1 ==> !steps[k].outcome.Unfinished?
    ensures 0 < n < |steps| ==> steps[n - 1].outcome.Unfinished?
  {
    if steps == [] then 0
    else if steps[0].outcome.Unfinished? then 1
    else 1 + Reach(steps[1..])
  }

  /** The body of the `try` block for one endpoint. */
  method ProcessEndpoint(e: Endpoint, j: nat, env: Env) returns (step: Step)
    ensures step == EndpointSpec(e, j, env)
  {
    var data, requests, finished := FetchPaginatedData(e, env.window, env.api(j));
    var calls := ApiCalls(e.url, requests);
    if !finished {
      step := Step(Unfinished, calls);
    } else if |data| > 0 {
      var csv := ConvertJsonToCsv(data, env.parse);
      var uploaded := false;
      if csv.Some? && csv.value != "" {
        calls := calls + [StorageUpload(e.bucket, csv.value)];
        uploaded := true;
      }
      if e.sqlTable.Some? && e.sqlTable.value != "" {
        var result, attempted := UploadJsonToTable(e.sqlTable.value, data, env.insertOk(j));
        calls := calls + InsertCalls(e.sqlTable.value, attempted);
        step := Step(Processed(uploaded, Ran(result)), calls);
      } else {
        step := Step(Processed(uploaded, NotConfigured), calls);
      }
    } else {
      step := Step(NoData, calls);
    }
  }

  /** `main`: select the endpoints, abort on an empty selection, otherwise
      process the selected endpoints in order, up to the first one whose
      page loop does not stop. `trace` is every external call made. */
  method Run(config: seq<Endpoint>, env: Env) returns (result: RunResult, trace: seq<Call>)
    ensures SelectEndpoints(config, SelectedName(env.endpointVar)) == [] ==>
      result == InvalidEndpoint(SelectedName(env.endpointVar)) && trace == []
    ensures SelectEndpoints(config, SelectedName(env.endpointVar)) != [] ==>
      var all := Steps(SelectEndpoints(config, SelectedName(env.endpointVar)), env);
      result == Completed(OutcomesOf(all[..Reach(all)])) && trace == TraceOf(all[..Reach(all)])
  {
    var selected := SelectedName(env.endpointVar);
    var endpointsToRun := SelectEndpoints(config, selected);
    if |endpointsToRun| == 0 {
      return InvalidEndpoint(selected), [];
    }
    var steps;
    steps, trace := RunSelected(endpointsToRun, env);
    result := Completed(OutcomesOf(steps));
  }

  /** The `for … of` loop over the selected endpoints: `steps` are the
      endpoint steps reached, `trace` their calls in order. */
  method RunSelected(sel: seq<Endpoint>, env: Env) returns (steps: seq<Step>, trace: seq<Call>)
    ensures steps == Steps(sel, env)[..Reach(Steps(sel, env))]
    ensures trace == TraceOf(steps)
  {
    steps := [];
    trace := [];
    var j := 0;
    var stalled := false;
    while j < |sel| && !stalled
      invariant j <= |sel|
      invariant steps == StepsUpTo(sel, EndpointStep(env), j)
      invariant forall k :: 0 <= k < j - 1 ==> !steps[k].outcome.Unfinished?
      invariant stalled <==> 0 < j && steps[j - 1].outcome.Unfinished?
      invariant trace == TraceOf(steps)
    {
      var step := ProcessEndpoint(sel[j], j, env);
      assert step == EndpointStep(env)(sel[j], j);
      assert (steps + [step])[..j] == steps;
      steps := steps + [step];
      trace := trace + step.calls;
      stalled := step.outcome.Unfinished?;
      j := j + 1;
    }
    StepsUpToPrefix(sel, EndpointStep(env), |sel|, j);
    ReachAtFirstStall(Steps(sel, env), j, steps);
  }

  /** `Reach` is where the first `Unfinished` step is, or the end: `done`
      holds the first `m` steps. */
  lemma ReachAtFirstStall(steps: seq<Step>, m: nat, done: seq<Step>)
    requires m <= |steps| && done == steps[..m]
    requires forall k :: 0 <= k < m - 1 ==> !done[k].outcome.Unfinished?
    requires (0 < m && done[m - 1].outcome.Unfinished?) || (m == |steps| && (m == 0 || !done[m - 1].outcome.Unfinished?))
    ensures Reach(steps) == m
  {
    assert forall k :: 0 <= k < m ==> steps[k] == done[k];
  }

  // ---- Selection ----

  /** `'all'` runs every configured endpoint, in configured order. */
  lemma SelectAll(config: seq<Endpoint>)
    ensures SelectEndpoints(config, SelectedName("")) == config
    ensures SelectEndpoints(config, SelectedName("all")) == config
  {
  }

  /** A name selects exactly the endpoints with that name. */
  lemma SelectByName(config: seq<Endpoint>, name: string, e: Endpoint)
    requires name != "all"
    ensures e in SelectEndpoints(config, name) <==> e in config && e.name == name
  {
  }

  /** Filtering keeps the configured order: the selection from two lists
      put together is the selection from the first followed by that from
      the second. */
  lemma {:induction false} FilterKeepsOrder(a: seq<Endpoint>, b: seq<Endpoint>, name: string)
    ensures FilterByName(a + b, name) == FilterByName(a, name) + FilterByName(b, name)
  {
    if a == [] {
      assert a + b == b;
    } else {
      assert (a + b)[0] == a[0];
      assert (a + b)[1..] == a[1..] + b;
      FilterKeepsOrder(a[1..], b, name);
    }
  }

  /** With the configured endpoints: no variable runs both, each name runs
      its own endpoint, and an unknown name runs nothing. */
  lemma ConfiguredSelections()
    ensures SelectEndpoints(EndpointsConfig, SelectedName("")) == EndpointsConfig
    ensures SelectEndpoints(EndpointsConfig, SelectedName("tabulacoesdetalhadas")) == [EndpointsConfig[0]]
    ensures SelectEndpoints(EndpointsConfig, SelectedName("ligacoesdetalhadas")) == [EndpointsConfig[1]]
    ensures SelectEndpoints(EndpointsConfig, SelectedName("chamadas")) == []
    ensures HasTable(EndpointsConfig[0]) && !HasTable(EndpointsConfig[1])
  {
  }

  // ---- One endpoint ----

  /** Empty extraction: neither the CSV upload nor the table insert is made,
      only the page requests. */
  lemma EmptyExtractionSkipsUploads(e: Endpoint, j: nat, env: Env)
    requires Extracted(env.api(j), e.dataField) == []
    ensures EndpointSpec(e, j, env).outcome == if Finished(env.api(j), e.dataField) then NoData else Unfinished
    ensures forall c :: c in EndpointSpec(e, j, env).calls ==> c.ApiRequest?
  {
  }

  /** A page loop that does not stop never reaches the uploads: only page
      requests are made, whatever was extracted so far. */
  lemma UnfinishedMakesOnlyRequests(e: Endpoint, j: nat, env: Env)
    requires !Finished(env.api(j), e.dataField)
    ensures EndpointSpec(e, j, env).outcome == Unfinished
    ensures forall c :: c in EndpointSpec(e, j, env).calls ==> c.ApiRequest?
  {
  }

  /** An endpoint without a table never makes an insert call. */
  lemma NoTableNoInsert(e: Endpoint, j: nat, env: Env)
    requires !HasTable(e)
    ensures forall c :: c in EndpointSpec(e, j, env).calls ==> !c.TableInsert?
  {
  }

  /** A CSV upload is made exactly when extraction returned records and the
      conversion produced a non-empty text; then it is that text, sent to
      the endpoint's bucket. */
  lemma UploadOnlyWithCsv(e: Endpoint, j: nat, env: Env)
    ensures (exists c :: c in EndpointSpec(e, j, env).calls && c.StorageUpload?) <==>
      Finished(env.api(j), e.dataField) &&
      Uploadable(ConvertJsonToCsv(Extracted(env.api(j), e.dataField), env.parse))
    ensures forall c :: c in EndpointSpec(e, j, env).calls && c.StorageUpload? ==>
      c == StorageUpload(e.bucket, env.parse(Extracted(env.api(j), e.dataField)).value)
  {
    var data := Extracted(env.api(j), e.dataField);
    if Finished(env.api(j), e.dataField) && Uploadable(ConvertJsonToCsv(data, env.parse)) {
      var calls := EndpointSpec(e, j, env).calls;
      var fetch := ApiCalls(e.url, Requests(e, env.window, env.api(j)));
      assert calls[|fetch|] == StorageUpload(e.bucket, env.parse(data).value);
    }
  }

  /** Once extraction has stopped with records, the table load runs
      whether or not the CSV conversion produced output: its result does not
      depend on the parser. */
  lemma LoadIndependentOfCsv(e: Endpoint, j: nat, env: Env, otherParse: seq<Record> -> Option<string>)
    requires Finished(env.api(j), e.dataField) && Extracted(env.api(j), e.dataField) != []
    ensures EndpointSpec(e, j, env).outcome.Processed?
    ensures EndpointSpec(e, j, env).outcome.table == EndpointSpec(e, j, env.(parse := otherParse)).outcome.table
    ensures HasTable(e) <==> EndpointSpec(e, j, env).outcome.table.Ran?
  {
  }

  /** Rank of a call within one endpoint's processing. */
  function Phase(c: Call): (rank: nat)
  {
    match c
    case ApiRequest(_, _) => 0
    case StorageUpload(_, _) => 1
    case TableInsert(_, _) => 2
  }

  /** Within one endpoint, every page request comes before the CSV upload,
      which comes before every table insert. */
  lemma CallsInPhaseOrder(e: Endpoint, j: nat, env: Env)
    ensures forall a, b :: 0 <= a < b < |EndpointSpec(e, j, env).calls| ==>
      Phase(EndpointSpec(e, j, env).calls[a]) <= Phase(EndpointSpec(e, j, env).calls[b])
  {
  }

  // ---- The whole run ----

  lemma {:induction false} TracePrefix(steps: seq<Step>, n: nat)
    requires n <= |steps|
    ensures TraceOf(steps[..n]) <= TraceOf(steps)
    decreases |steps|
  {
    if n < |steps| {
      var init := steps[..|steps| - 1];
      assert init[..n] == steps[..n];
      TracePrefix(init, n);
    } else {
      assert steps[..n] == steps;
    }
  }

  /** Failure isolation: whatever happened to the earlier endpoints — a
      failed chunk included — provided their page loops stopped, the run
      reaches endpoint `j` and its calls follow theirs in the trace. */
  lemma EveryEndpointRuns(sel: seq<Endpoint>, env: Env, j: nat)
    requires j < |sel|
    requires forall k :: 0 <= k < j ==> Finished(env.api(k), sel[k].dataField)
    ensures j < Reach(Steps(sel, env))
    ensures TraceOf(Steps(sel, env)[..j]) + EndpointSpec(sel[j], j, env).calls
         <= TraceOf(Steps(sel, env)[..Reach(Steps(sel, env))])
  {
    var steps := Steps(sel, env);
    forall k | 0 <= k < j
      ensures !steps[k].outcome.Unfinished?
    {
      StepAt(sel, EndpointStep(env), |sel|, k);
      FinishedIsNotUnfinished(sel[k], k, env);
    }
    ReachBeyond(steps, j);
    StepAt(sel, EndpointStep(env), |sel|, j);
    TraceThrough(steps, j, Reach(steps));
  }

  /** The run gets past every step before the first stall. */
  lemma ReachBeyond(steps: seq<Step>, j: nat)
    requires j < |steps|
    requires forall k :: 0 <= k < j ==> !steps[k].outcome.Unfinished?
    ensures j < Reach(steps)
  {
  }

  /** The calls of step `j` follow those of the earlier steps in the calls
      of any longer prefix. */
  lemma TraceThrough(steps: seq<Step>, j: nat, n: nat)
    requires j < n <= |steps|
    ensures TraceOf(steps[..j]) + steps[j].calls <= TraceOf(steps[..n])
  {
    var reached := steps[..n];
    TakeOneMore(steps, j);
    assert reached[..j + 1] == steps[..j + 1];
    TracePrefix(reached, j + 1);
  }

  lemma FinishedIsNotUnfinished(e: Endpoint, j: nat, env: Env)
    requires Finished(env.api(j), e.dataField)
    ensures !EndpointSpec(e, j, env).outcome.Unfinished?
  {
  }

  /** A page loop that does not stop holds the run: no endpoint after it is
      reached. */
  lemma StallStopsRun(sel: seq<Endpoint>, env: Env, j: nat)
    requires j < |sel|
    requires !Finished(env.api(j), sel[j].dataField)
    ensures Reach(Steps(sel, env)) <= j + 1
  {
    StepAt(sel, EndpointStep(env), |sel|, j);
  }

  /** Failure isolation: there is one step per selected endpoint, and the
      run records those up to `Reach`. How the inserts of endpoint `j` turn
      out changes neither how far the run gets nor the outcome of any other
      endpoint. */
  lemma OutcomesIsolated(sel: seq<Endpoint>, env: Env, j: nat, insertOk: nat -> nat -> bool)
    requires forall k :: k != j ==> insertOk(k) == env.insertOk(k)
    ensures |OutcomesOf(Steps(sel, env))| == |sel|
    ensures Reach(Steps(sel, env)) == Reach(Steps(sel, env.(insertOk := insertOk)))
    ensures forall k :: 0 <= k < |sel| && k != j ==>
      OutcomesOf(Steps(sel, env))[k] == OutcomesOf(Steps(sel, env.(insertOk := insertOk)))[k]
  {
    var other := env.(insertOk := insertOk);
    forall k | 0 <= k < |sel|
      ensures Steps(sel, env)[k].outcome.Unfinished? == Steps(sel, other)[k].outcome.Unfinished?
      ensures k != j ==> OutcomesOf(Steps(sel, env))[k] == OutcomesOf(Steps(sel, other))[k]
    {
      StepAt(sel, EndpointStep(env), |sel|, k);
      StepAt(sel, EndpointStep(other), |sel|, k);
    }
    ReachSame(Steps(sel, env), Steps(sel, other));
  }

  /** Two step lists that stall at the same positions are reached equally far. */
  lemma {:induction false} ReachSame(a: seq<Step>, b: seq<Step>)
    requires |a| == |b|
    requires forall k :: 0 <= k < |a| ==> a[k].outcome.Unfinished? == b[k].outcome.Unfinished?
    ensures Reach(a) == Reach(b)
  {
    if a != [] && !a[0].outcome.Unfinished? {
      ReachSame(a[1..], b[1..]);
    }
  }
}
