/** The endpoints of `backend/api/router/agent_router.py`: `POST /api/agent/decide`
    returns the planner's plan, and `POST /api/agent/execute` plans and then
    runs the chosen tool on the uploaded file. */
module AgentRouter {
  import opened Wrappers
  import opened JsonValues
  import opened Planner
  import opened EdaService
  import opened Http

  /** The language-model call for a prompt: its reply, or the message of
      the exception it raised. */
  type Llm = string -> Result<string, string>
  /** `json.loads`: the decoded object, or the message of its error. */
  type Loads = string -> Result<PlanMap, string>

  /** The tools the planner is offered; no other `tool_name` is executed. */
  const Tools: set<string> := {"describe", "correlation-heatmap", "histogram"}

  predicate IsTool(tool: Json) {
    tool.JString? && tool.s in Tools
  }

  const EmptyPrompt: string := "Prompt tidak boleh kosong."
  const BadFormat: string := "Format file tidak valid."
  const PlanFailedPrefix: string := "Agent gagal membuat rencana: "
  const NoColumn: string := "Agent tidak bisa menentukan nama kolom untuk histogram."
  const DescribeFailed: string := "Gagal menjalankan tool 'describe'."
  const HeatmapFailed: string := "Gagal menjalankan tool 'correlation-heatmap'."
  const HistogramToolFailed: string := "Gagal menjalankan tool 'histogram'."

  /** `decide_action`: only the empty prompt is refused (a prompt of
      whitespace passes), and before the planner runs; a plan carrying an
      `"error"` key becomes a 500 whose detail is that value, and any other
      plan is returned as it is. */
  function DecideAction(prompt: string, llm: Llm, loads: Loads): (r: Response)
    ensures prompt == "" ==> r == Err(400, Text(EmptyPrompt))
    ensures prompt != "" ==>
      var plan := GetAgentPlan(llm(prompt), loads);
      (r.Ok? <==> "error" !in plan)
      && ("error" in plan ==> r == Err(500, Value(plan["error"])))
      && ("error" !in plan ==> r == Ok(PlanBody(plan)))
  {
    if prompt == "" then Err(400, Text(EmptyPrompt))
    else
      var plan := GetAgentPlan(llm(prompt), loads);
      if "error" in plan then Err(500, Value(plan["error"]))
      else Ok(PlanBody(plan))
  }

  /** `execute_action` on an upload named `filename` with bytes `contents`. */
  function ExecuteAction(filename: string, contents: Bytes, prompt: string,
                         llm: Llm, loads: Loads, e: Engine): (r: Response)
    // the extension is checked before anything else
    ensures !IsCsvName(filename) ==> r == Err(400, Text(BadFormat))
    // a planning failure ends the request
    ensures var plan := GetAgentPlan(llm(prompt), loads);
      IsCsvName(filename) && "error" in plan ==>
        r == Err(500, Formatted(PlanFailedPrefix, Get(plan, "detail"), ""))
    // only a registered tool is ever run
    ensures var plan := GetAgentPlan(llm(prompt), loads);
      IsCsvName(filename) && "error" !in plan && !IsTool(Get(plan, "tool_name")) ==>
        r == Err(400, Formatted("Tool '", Get(plan, "tool_name"), "' tidak dikenali."))
    ensures r.Ok? ==>
      var plan := GetAgentPlan(llm(prompt), loads);
      IsCsvName(filename) && "error" !in plan && IsTool(Get(plan, "tool_name"))
    // describe
    ensures var plan := GetAgentPlan(llm(prompt), loads);
      IsCsvName(filename) && "error" !in plan && Get(plan, "tool_name") == JString("describe") ==>
        r == match GetCsvDescription(e, contents)
             case None => Err(500, Text(DescribeFailed))
             case Some(stats) => Ok(AnalysisResult(filename, stats))
    // correlation-heatmap
    ensures var plan := GetAgentPlan(llm(prompt), loads);
      IsCsvName(filename) && "error" !in plan && Get(plan, "tool_name") == JString("correlation-heatmap") ==>
        r == match GenerateCorrelationHeatmap(e, contents)
             case None => Err(500, Text(HeatmapFailed))
             case Some(png) => Ok(Png(png))
    // histogram: a falsy column name is refused before the service is called
    ensures var plan := GetAgentPlan(llm(prompt), loads);
      IsCsvName(filename) && "error" !in plan && Get(plan, "tool_name") == JString("histogram")
      && !Truthy(Get(plan, "column_name")) ==>
        r == Err(400, Text(NoColumn))
    // histogram: each service outcome has its own status
    ensures var plan := GetAgentPlan(llm(prompt), loads);
      var column := Get(plan, "column_name");
      IsCsvName(filename) && "error" !in plan && Get(plan, "tool_name") == JString("histogram")
      && Truthy(column) ==>
        r == match GenerateHistogram(e, contents, column)
             case ColumnNotFound => Err(404, Formatted("Kolom '", column, "' tidak ditemukan."))
             case ColumnNotNumeric => Err(400, Formatted("Kolom '", column, "' bukan numerik."))
             case HistogramFailed => Err(500, Text(HistogramToolFailed))
             case HistogramImage(png) => Ok(Png(png))
    ensures r.Err? ==> r.status in {400, 404, 500}
  {
    if !IsCsvName(filename) then Err(400, Text(BadFormat))
    else
      var plan := GetAgentPlan(llm(prompt), loads);
      if "error" in plan then Err(500, Formatted(PlanFailedPrefix, Get(plan, "detail"), ""))
      else
        var tool := Get(plan, "tool_name");
        if tool == JString("describe") then
          match GetCsvDescription(e, contents)
          case None => Err(500, Text(DescribeFailed))
          case Some(stats) => Ok(AnalysisResult(filename, stats))
        else if tool == JString("correlation-heatmap") then
          match GenerateCorrelationHeatmap(e, contents)
          case None => Err(500, Text(HeatmapFailed))
          case Some(png) => Ok(Png(png))
        else if tool == JString("histogram") then
          var column := Get(plan, "column_name");
          if !Truthy(column) then Err(400, Text(NoColumn))
          else
            match GenerateHistogram(e, contents, column)
            case ColumnNotFound => Err(404, Formatted("Kolom '", column, "' tidak ditemukan."))
            case ColumnNotNumeric => Err(400, Formatted("Kolom '", column, "' bukan numerik."))
            case HistogramFailed => Err(500, Text(HistogramToolFailed))
            case HistogramImage(png) => Ok(Png(png))
        else
          Err(400, Formatted("Tool '", tool, "' tidak dikenali."))
  }

  // ---------------------------------------------------------------------
  // The endpoints' promises, stated against the planner and the dataset

  /** An empty prompt is answered before the planner is consulted: the
      answer is the same whatever the model or the parser would do. */
  lemma DecideEmptyPromptFirst(llm1: Llm, loads1: Loads, llm2: Llm, loads2: Loads)
    ensures DecideAction("", llm1, loads1) == DecideAction("", llm2, loads2) == Err(400, Text(EmptyPrompt))
  {
  }

  /** When the model call fails, `decide` answers 500 with the planner's
      fixed failure text. */
  lemma DecideModelFailure(prompt: string, llm: Llm, loads: Loads)
    requires prompt != "" && llm(prompt).Failure?
    ensures DecideAction(prompt, llm, loads) == Err(500, Value(JString(PlanFailureText)))
  {
  }

  /** A file whose name does not end in `.csv` is refused before it is read
      or the planner is called: the answer does not depend on the bytes,
      the prompt, the model, the parser or the engine. */
  lemma ExecuteChecksExtensionFirst(filename: string, c1: Bytes, p1: string, llm1: Llm, loads1: Loads, e1: Engine,
                                    c2: Bytes, p2: string, llm2: Llm, loads2: Loads, e2: Engine)
    requires !IsCsvName(filename)
    ensures ExecuteAction(filename, c1, p1, llm1, loads1, e1) == ExecuteAction(filename, c2, p2, llm2, loads2, e2)
  {
  }

  /** A failed model call gives 500 carrying the failure's message, and no
      tool runs: the answer does not depend on the upload or the engine. */
  lemma ExecuteModelFailure(filename: string, c1: Bytes, c2: Bytes, prompt: string, llm: Llm, loads: Loads,
                            e1: Engine, e2: Engine)
    requires IsCsvName(filename) && llm(prompt).Failure?
    ensures ExecuteAction(filename, c1, prompt, llm, loads, e1)
         == ExecuteAction(filename, c2, prompt, llm, loads, e2)
         == Err(500, Formatted(PlanFailedPrefix, JString(llm(prompt).error), ""))
  {
  }

  /** A histogram plan without a usable column name is refused without
      calling the service: the answer does not depend on the upload or the
      engine. */
  lemma ExecuteHistogramNeedsColumn(filename: string, c1: Bytes, c2: Bytes, prompt: string, llm: Llm, loads: Loads,
                                    e1: Engine, e2: Engine)
    requires IsCsvName(filename)
    requires var plan := GetAgentPlan(llm(prompt), loads);
      "error" !in plan && Get(plan, "tool_name") == JString("histogram") && !Truthy(Get(plan, "column_name"))
    ensures ExecuteAction(filename, c1, prompt, llm, loads, e1)
         == ExecuteAction(filename, c2, prompt, llm, loads, e2)
         == Err(400, Text(NoColumn))
  {
  }

  /** 404 is answered exactly when a histogram is planned for a column name
      that the parsed upload does not have. */
  lemma ExecuteNotFoundIff(filename: string, contents: Bytes, prompt: string, llm: Llm, loads: Loads, e: Engine)
    ensures var r := ExecuteAction(filename, contents, prompt, llm, loads, e);
      var plan := GetAgentPlan(llm(prompt), loads);
      var column := Get(plan, "column_name");
      (r.Err? && r.status == 404) <==>
        IsCsvName(filename) && "error" !in plan && Get(plan, "tool_name") == JString("histogram")
        && Truthy(column) && Load(e, contents).Some? && Hashable(column)
        && forall c :: c in Load(e, contents).value ==> column != JString(c.name)
  {
  }

  /** A chart is returned only for the two chart tools, and it is the chart
      the engine drew from the numeric columns, or from the one numeric
      column the plan names. */
  lemma ExecuteImageOrigin(filename: string, contents: Bytes, prompt: string, llm: Llm, loads: Loads, e: Engine,
                           png: Bytes)
    requires ExecuteAction(filename, contents, prompt, llm, loads, e) == Ok(Png(png))
    ensures var plan := GetAgentPlan(llm(prompt), loads);
      Load(e, contents).Some? &&
      ((Get(plan, "tool_name") == JString("correlation-heatmap")
        && e.renderHeatmap(NumericColumns(Load(e, contents).value)) == Some(png))
       || (Get(plan, "tool_name") == JString("histogram")
           && exists c :: c in Load(e, contents).value && c.numeric
                          && Get(plan, "column_name") == JString(c.name)
                          && e.renderHistogram(c) == Some(png)))
  {
  }
}
