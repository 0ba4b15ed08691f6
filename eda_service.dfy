/** The analysis services of `backend/services/eda/main.py`. UTF-8 decoding,
    pandas and the charting calls are the fields of an `Engine`; what is
    modelled is the order of the steps, which columns reach the charting
    call, and how every failure becomes a return value instead of an
    exception. */
module EdaService {
  import opened Wrappers
  import opened JsonValues

  newtype Byte = b: int | 0 <= b < 256
  type Bytes = seq<Byte>

  /** One column of a parsed CSV table: its label, whether
      `pd.api.types.is_numeric_dtype` holds for it (true for integer, float
      and bool columns), whether its dtype is bool, and its cells as text. */
  datatype Column = Column(name: string, numeric: bool, boolean: bool, cells: seq<string>)

  /** `select_dtypes(include=['number'])` keeps a column: a numeric dtype
      other than bool. */
  predicate IsNumber(c: Column) {
    c.numeric && !c.boolean
  }

  /** pandas makes the labels of the columns it reads distinct. */
  predicate DistinctNames(cols: seq<Column>) {
    forall i, j :: 0 <= i < j < |cols| ==> cols[i].name != cols[j].name
  }

  /** What pandas guarantees of the columns it reads: distinct labels, and a
      bool dtype is a numeric dtype for `is_numeric_dtype`. */
  predicate WellFormedColumns(cols: seq<Column>) {
    DistinctNames(cols) && forall c :: c in cols ==> (c.boolean ==> c.numeric)
  }

  /** A parsed CSV table (a pandas DataFrame): its columns, in file order. */
  type Table = cols: seq<Column> | WellFormedColumns(cols) witness []

  /** One entry of `df.describe()`: a number, `NaN` (say the `std` of a
      one-row column), or text (the `top` of a text column). */
  datatype Stat = Number(x: real) | NaN | Label(s: string)

  /** `df.describe().to_dict()`: for each column, its statistics by name. */
  type Stats = map<string, map<string, Stat>>

  /** The collaborators behind the services; each returns `None` where the
      library call raises. */
  datatype Engine = Engine(
    decode: Bytes -> Option<string>,         // file_contents.decode('utf-8')
    readCsv: string -> Option<Table>,        // pd.read_csv
    describe: Table -> Option<Stats>,        // df.describe().to_dict()
    renderHeatmap: Table -> Option<Bytes>,   // heatmap of df.corr(), saved as PNG
    renderHistogram: Column -> Option<Bytes> // histplot of one column, saved as PNG
  )

  /** What `generate_histogram` gives back: the PNG bytes, one of the two
      sentinel strings, or `None`. */
  datatype HistogramResult =
    | HistogramImage(png: Bytes)
    | ColumnNotFound      // "column_not_found"
    | ColumnNotNumeric    // "column_not_numeric"
    | HistogramFailed     // None

  /** Decoding the upload and parsing it as CSV, the first two steps of all
      three services. */
  function Load(e: Engine, contents: Bytes): (t: Option<Table>)
    ensures t.Some? <==> e.decode(contents).Some? && e.readCsv(e.decode(contents).value).Some?
    ensures t.Some? ==> t == e.readCsv(e.decode(contents).value)
  {
    match e.decode(contents)
    case None => None
    case Some(text) => e.readCsv(text)
  }

  /** `b` keeps some of the elements of `a`, in their order. */
  ghost predicate Subsequence<T>(b: seq<T>, a: seq<T>)
    decreases |a|
  {
    if b == [] then true
    else if a == [] then false
    else (b[0] == a[0] && Subsequence(b[1..], a[1..])) || Subsequence(b, a[1..])
  }

  /** `df.select_dtypes(include=['number'])`: the numeric columns other than
      bool columns, and only those, in their original order. */
  function NumericColumns(t: Table): (r: Table)
    ensures forall c :: c in r <==> c in t && IsNumber(c)
    ensures Subsequence(r, t)
    decreases |t|
  {
    if t == [] then []
    else
      var rest := NumericColumns(t[1..]);
      if IsNumber(t[0]) then
        assert forall c :: c in rest ==> c.name != t[0].name by {
          forall c | c in rest ensures c.name != t[0].name {
            var i :| 0 <= i < |t[1..]| && t[1..][i] == c;
            assert t[i + 1] == c;
          }
        }
        [t[0]] + rest
      else rest
  }

  /** The column labelled `name`, if there is one. */
  function FindColumn(t: seq<Column>, name: string): (r: Option<Column>)
    ensures r.Some? ==> r.value in t && r.value.name == name
    ensures r.None? ==> forall c :: c in t ==> c.name != name
  {
    if t == [] then None
    else if t[0].name == name then Some(t[0])
    else FindColumn(t[1..], name)
  }

  /** With distinct labels, the column found is the only one with that label. */
  lemma {:induction false} FindColumnUnique(t: Table, c: Column)
    requires c in t
    ensures FindColumn(t, c.name) == Some(c)
  {
    if t[0] != c {
      assert t[0].name != c.name by {
        var i :| 0 <= i < |t| && t[i] == c;
        assert i != 0;
      }
      assert c in t[1..] by {
        var i :| 0 <= i < |t| && t[i] == c;
        assert t[1..][i - 1] == c;
      }
      FindColumnUnique(t[1..], c);
    }
  }

  /** `get_csv_description`: the statistics of the parsed table, or `None`
      when decoding, parsing or `describe` fails; it never raises. */
  function GetCsvDescription(e: Engine, contents: Bytes): (r: Option<Stats>)
    ensures Load(e, contents).None? ==> r.None?
    ensures Load(e, contents).Some? ==> r == e.describe(Load(e, contents).value)
  {
    match Load(e, contents)
    case None => None
    case Some(df) => e.describe(df)
  }

  /** `generate_correlation_heatmap`: the chart drawn from the numeric columns
      alone, or `None` when decoding, parsing or drawing fails; it never
      raises. */
  function GenerateCorrelationHeatmap(e: Engine, contents: Bytes): (r: Option<Bytes>)
    ensures Load(e, contents).None? ==> r.None?
    ensures Load(e, contents).Some? ==> r == e.renderHeatmap(NumericColumns(Load(e, contents).value))
  {
    match Load(e, contents)
    case None => None
    case Some(df) => e.renderHeatmap(NumericColumns(df))
  }

  /** `generate_histogram`. `key` is the column name as the caller passed it;
      a list or dict cannot be hashed, so the membership test raises and the
      service returns `None`. The checks run in a fixed order: decode and
      parse, then existence, then type, then drawing. */
  function GenerateHistogram(e: Engine, contents: Bytes, key: Json): (r: HistogramResult)
    ensures r == ColumnNotFound <==>
      Load(e, contents).Some? && Hashable(key)
      && forall c :: c in Load(e, contents).value ==> key != JString(c.name)
    ensures r == ColumnNotNumeric <==>
      Load(e, contents).Some?
      && exists c :: c in Load(e, contents).value && key == JString(c.name) && !c.numeric
    ensures r.HistogramImage? <==>
      Load(e, contents).Some?
      && exists c :: c in Load(e, contents).value && key == JString(c.name) && c.numeric
                     && e.renderHistogram(c).Some?
    ensures r.HistogramImage? ==>
      exists c :: c in Load(e, contents).value && key == JString(c.name) && c.numeric
                  && e.renderHistogram(c) == Some(r.png)
  {
    match Load(e, contents)
    case None => HistogramFailed
    case Some(df) =>
      if !Hashable(key) then HistogramFailed
      else
        var found := if key.JString? then FindColumn(df, key.s) else None;
        if found.None? then ColumnNotFound
        else
          var column := found.value;
          FindColumnsAgree(df, key, column);
          if !column.numeric then ColumnNotNumeric
          else
            match e.renderHistogram(column)
            case None => HistogramFailed
            case Some(png) => HistogramImage(png)
  }

  /** Every column carrying the label `key` is the one `FindColumn` found. */
  lemma FindColumnsAgree(t: Table, key: Json, found: Column)
    requires key.JString? && FindColumn(t, key.s) == Some(found)
    ensures forall c :: c in t && key == JString(c.name) ==> c == found
  {
    forall c | c in t && key == JString(c.name) ensures c == found {
      FindColumnUnique(t, c);
    }
  }

  /** The two type tests differ on bool columns: a bool column passes the
      histogram's type check yet is left out of the heatmap. */
  lemma BoolColumnTests(e: Engine, contents: Bytes, c: Column)
    requires Load(e, contents).Some? && c in Load(e, contents).value
    requires c.numeric && c.boolean
    ensures GenerateHistogram(e, contents, JString(c.name)) != ColumnNotNumeric
    ensures GenerateHistogram(e, contents, JString(c.name)) != ColumnNotFound
    ensures c !in NumericColumns(Load(e, contents).value)
  {
    FindColumnUnique(Load(e, contents).value, c);
  }

  /** An upload that cannot be decoded or parsed gives `None` from all three
      services, never a sentinel string. */
  lemma LoadFailureGivesNone(e: Engine, contents: Bytes, key: Json)
    requires Load(e, contents).None?
    ensures GetCsvDescription(e, contents).None?
    ensures GenerateCorrelationHeatmap(e, contents).None?
    ensures GenerateHistogram(e, contents, key) == HistogramFailed
  {
  }
}
