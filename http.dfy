/** What the HTTP endpoints answer: a payload, or an `HTTPException` with a
    status code and a detail. */
module Http {
  import opened JsonValues
  import opened PyStr
  import opened EdaService

  /** The `detail` of an `HTTPException`. `Formatted(before, v, after)` is the
      f-string `f"{before}{v}{after}"` of a value taken from the plan; how
      Python renders a value that is not a string is left abstract. */
  datatype Detail =
    | Text(text: string)
    | Value(value: Json)
    | Formatted(before: string, arg: Json, after: string)

  /** A successful answer. */
  datatype Payload =
    | PlanBody(plan: PlanMap)                                // the plan itself, as JSON
    | AnalysisResult(filename: string, analysis: Stats)      // {"filename", "analysis_result"}
    | Statistics(filename: string, statistics: Stats)        // {"filename", "statistics"}
    | Png(image: Bytes)                                      // StreamingResponse, image/png

  datatype Response = Ok(payload: Payload) | Err(status: nat, detail: Detail)

  /** `filename.endswith('.csv')`, the upload check of every endpoint that takes a file. */
  function IsCsvName(filename: string): (r: bool)
    ensures r <==> |filename| >= 4 && filename[..|filename| - 4] + ".csv" == filename
  {
    EndsWith(filename, ".csv")
  }

  /** The check is on the exact lower-case suffix: `name.csv` passes and
      `name.CSV` does not. */
  lemma CsvNameIsCaseSensitive(stem: string)
    ensures IsCsvName(stem + ".csv")
    ensures !IsCsvName(stem + ".CSV")
  {
    var a := stem + ".CSV";
    assert a[|a| - 1] == 'V';
  }
}
