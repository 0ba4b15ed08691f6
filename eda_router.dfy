/** The direct endpoints of `backend/api/router/eda_router.py`
    (`POST /api/eda/describe`, `/correlation-heatmap` and `/histogram`),
    which run one tool without the planner. */
module EdaRouter {
  import opened JsonValues
  import opened EdaService
  import opened Http

  const BadCsv: string := "Format file tidak valid. Harap unggah file CSV."
  const BadFormat: string := "Format file tidak valid."
  const CsvFailed: string := "Gagal memproses file CSV."
  const HeatmapFailed: string := "Gagal membuat heatmap."
  const HistogramFailedText: string := "Gagal membuat histogram."

  /** `describe_data`. */
  function DescribeData(filename: string, contents: Bytes, e: Engine): (r: Response)
    ensures !IsCsvName(filename) ==> r == Err(400, Text(BadCsv))
    ensures IsCsvName(filename) ==>
      r == match GetCsvDescription(e, contents)
           case None => Err(500, Text(CsvFailed))
           case Some(stats) => Ok(Statistics(filename, stats))
  {
    if !IsCsvName(filename) then Err(400, Text(BadCsv))
    else
      match GetCsvDescription(e, contents)
      case None => Err(500, Text(CsvFailed))
      case Some(stats) => Ok(Statistics(filename, stats))
  }

  /** `get_correlation_heatmap`. */
  function GetCorrelationHeatmap(filename: string, contents: Bytes, e: Engine): (r: Response)
    ensures !IsCsvName(filename) ==> r == Err(400, Text(BadCsv))
    ensures IsCsvName(filename) ==>
      r == match GenerateCorrelationHeatmap(e, contents)
           case None => Err(500, Text(HeatmapFailed))
           case Some(png) => Ok(Png(png))
  {
    if !IsCsvName(filename) then Err(400, Text(BadCsv))
    else
      match GenerateCorrelationHeatmap(e, contents)
      case None => Err(500, Text(HeatmapFailed))
      case Some(png) => Ok(Png(png))
  }

  /** `get_histogram`. The column name comes from a form field and the
      handler never checks it for emptiness: a `""` that reaches the handler
      goes to the service like any name. */
  function GetHistogram(filename: string, contents: Bytes, columnName: string, e: Engine): (r: Response)
    ensures !IsCsvName(filename) ==> r == Err(400, Text(BadFormat))
    ensures IsCsvName(filename) ==>
      r == match GenerateHistogram(e, contents, JString(columnName))
           case ColumnNotFound =>
             Err(404, Text("Kolom '" + columnName + "' tidak ditemukan di dalam file."))
           case ColumnNotNumeric =>
             Err(400, Text("Kolom '" + columnName + "' bukan numerik dan tidak bisa dibuatkan histogram."))
           case HistogramFailed => Err(500, Text(HistogramFailedText))
           case HistogramImage(png) => Ok(Png(png))
  {
    if !IsCsvName(filename) then Err(400, Text(BadFormat))
    else
      match GenerateHistogram(e, contents, JString(columnName))
      case ColumnNotFound =>
        Err(404, Text("Kolom '" + columnName + "' tidak ditemukan di dalam file."))
      case ColumnNotNumeric =>
        Err(400, Text("Kolom '" + columnName + "' bukan numerik dan tidak bisa dibuatkan histogram."))
      case HistogramFailed => Err(500, Text(HistogramFailedText))
      case HistogramImage(png) => Ok(Png(png))
  }

  // ---------------------------------------------------------------------
  // The endpoints' promises, stated against the dataset

  /** Every endpoint refuses a name not ending in `.csv` with 400, whatever
      the upload holds and whatever the engine would do. */
  lemma ExtensionCheckedFirst(filename: string, c1: Bytes, c2: Bytes, column1: string, column2: string,
                              e1: Engine, e2: Engine)
    requires !IsCsvName(filename)
    ensures DescribeData(filename, c1, e1) == DescribeData(filename, c2, e2)
    ensures GetCorrelationHeatmap(filename, c1, e1) == GetCorrelationHeatmap(filename, c2, e2)
    ensures GetHistogram(filename, c1, column1, e1) == GetHistogram(filename, c2, column2, e2)
    ensures DescribeData(filename, c1, e1).Err? && DescribeData(filename, c1, e1).status == 400
    ensures GetCorrelationHeatmap(filename, c1, e1).Err? && GetCorrelationHeatmap(filename, c1, e1).status == 400
    ensures GetHistogram(filename, c1, column1, e1).Err? && GetHistogram(filename, c1, column1, e1).status == 400
  {
  }

  /** An upload that cannot be decoded or parsed is a 500 on every endpoint. */
  lemma UnreadableUploadIs500(filename: string, contents: Bytes, column: string, e: Engine)
    requires IsCsvName(filename) && Load(e, contents).None?
    ensures DescribeData(filename, contents, e) == Err(500, Text(CsvFailed))
    ensures GetCorrelationHeatmap(filename, contents, e) == Err(500, Text(HeatmapFailed))
    ensures GetHistogram(filename, contents, column, e) == Err(500, Text(HistogramFailedText))
  {
    LoadFailureGivesNone(e, contents, JString(column));
  }

  /** The histogram endpoint answers 404 exactly for a name the parsed
      upload has no column for; the empty name is such a name unless a column
      is labelled `""`. */
  lemma HistogramNotFoundIff(filename: string, contents: Bytes, column: string, e: Engine)
    ensures var r := GetHistogram(filename, contents, column, e);
      (r.Err? && r.status == 404) <==>
        IsCsvName(filename) && Load(e, contents).Some?
        && forall c :: c in Load(e, contents).value ==> c.name != column
  {
  }

  /** The histogram endpoint answers 400 for a `.csv` upload exactly when the
      named column exists and is not numeric. */
  lemma HistogramNotNumericIff(filename: string, contents: Bytes, column: string, e: Engine)
    requires IsCsvName(filename)
    ensures var r := GetHistogram(filename, contents, column, e);
      (r.Err? && r.status == 400) <==>
        Load(e, contents).Some?
        && exists c :: c in Load(e, contents).value && c.name == column && !c.numeric
  {
  }
}
