# AI Data Analyst Agent — planner and dispatcher model

This project models the decision logic of a small web service that takes an
uploaded CSV file and either runs one analysis tool on it directly
(`describe`, `correlation-heatmap`, `histogram`), or asks a language model to
choose the tool from a free-text prompt and then runs it. The model covers:

- the planner (`get_agent_plan`): the model's raw reply is cleaned of a
  Markdown code fence (the `"```json"` branch, then the generic `"```"`
  branch, else untouched) with Python's `in`, `split` and `strip` modelled
  exactly, then parsed; every failure becomes the error map
  `{"error", "detail"}`;
- the analysis services: decode and parse, then the existence check, then
  the type check, then drawing, each with its own result (`None`, the
  sentinels `"column_not_found"` / `"column_not_numeric"`, or PNG bytes), and
  the restriction of the correlation chart to the numeric, non-bool columns in their
  original order;
- the two routers as total functions from the file name, the prompt, the
  plan and the service results to a payload or an HTTP status with a detail.

The language model, `json.loads`, UTF-8 decoding, pandas and the charting
library are parameters: the model call is a function from the prompt to a
reply or an exception message, `json.loads` a function from text to a
decoded object or an error message, and the tabular and chart engines an
`Engine` record of functions that return `None` where the library raises.
Every modelled operation is a total function, which is how "never raises" is
stated: each Python `try`/`except` becomes a case of the result.

Files: `wrappers.dfy` (Option, Result), `json_values.dfy` (decoded JSON
values, Python truthiness and hashability, `dict.get`), `pystr.dfy` (Python
string operations), `planner.dfy` (`backend/services/agent/main.py`),
`eda_service.dfy` (`backend/services/eda/main.py`), `http.dfy` (responses),
`agent_router.dfy` and `eda_router.dfy` (the two routers).

Behaviour of the code that is easy to misread:

- `decide_action` refuses only the empty prompt; a prompt made of whitespace
  reaches the planner.
- `execute_action` refuses every falsy `column_name` (`null`, missing, `""`,
  `0`, `false`, `[]`, `{}`) with 400, before the service runs.
- A `column_name` that is a JSON list or object cannot be hashed, so pandas'
  membership test raises inside `generate_histogram`, which returns `None`:
  the answer is 500, not 404.
- The `"```json"` branch splits on `"```json"` before it splits on `"```"`,
  so the text is cut at the next `"```json"` first and only then at the
  first `"```"`. When a `"```"` overlaps that next marker, the cut is not at
  that `"```"`: `"```json" + x + "`````json"` gives `strip(x + "``")`, not
  `strip(x)` (`Planner.CleanJsonBranchOverlap`). Without four backticks in a
  row the cut is at the first `"```"` after the marker
  (`Planner.CleanJsonBranchToFence`).
- The fence round trip loses a trailing backtick of the wrapped text when no
  whitespace follows it: `"```json" + k + "`" + "```"` comes back as
  `strip(k)` (`Planner.CleanLosesTrailingBacktick`). No JSON text ends in a
  backtick.
- The two type tests of the analysis services differ on bool columns:
  `is_numeric_dtype` accepts them, so `generate_histogram` draws them, while
  `select_dtypes(include=['number'])` leaves them out of the heatmap
  (`EdaService.BoolColumnTests`).

## Model

| member | source | states |
|---|---|---|
| `JsonValues.Truthy` | backend/api/router/agent_router.py:66 | (definition) Python truthiness of a decoded JSON value: exactly `None`, `False`, `0`, `""`, `[]` and `{}` are false |
| `JsonValues.Hashable` | backend/services/eda/main.py:40 | (definition) the `hash` that `in df.columns` runs first succeeds exactly for `None`, booleans, integers and strings; lists and dicts raise |
| `JsonValues.Get` | backend/api/router/agent_router.py:47-65 | (definition) `plan.get(key)`: the stored value, or `None` when the key is missing |
| `PyStr.EndsWith` | backend/api/router/eda_router.py:15 | (definition) `s.endswith(suffix)`: `s` is some text followed by `suffix` |
| `Http.IsCsvName` | backend/api/router/agent_router.py:38 | (definition) `filename.endswith('.csv')`: the name is some text followed by `.csv`; the same check opens every upload endpoint (eda_router.py lines 15, 31 and 47) |
| `Http.CsvNameIsCaseSensitive` | backend/api/router/eda_router.py:15 | any `stem + ".csv"` passes the upload check and `stem + ".CSV"` does not |
| `PyStr.IndexOf` | backend/services/agent/main.py:57-60 | the first index where the separator occurs, and `None` exactly when it occurs nowhere; this gives `sep in s` |
| `PyStr.ContainsIff` | backend/services/agent/main.py:57-59 | `sep in s` holds exactly when the separator occurs at some index |
| `PyStr.Split` | backend/services/agent/main.py:58-60 | `s.split(sep)` has at least one piece, and at least two exactly when the separator occurs, so the code's `[1]` never goes out of range |
| `PyStr.SplitFirst` | backend/services/agent/main.py:58 | piece 0 of `split` is the text before the first separator, or the whole string |
| `PyStr.SplitSecond` | backend/services/agent/main.py:58-60 | piece 1 of `split` is the text after the first separator, up to the next one or the end |
| `PyStr.BeforeHasNone` | backend/services/agent/main.py:58-60 | the text before the first separator contains no separator |
| `PyStr.SkipSpace` | backend/services/agent/main.py:58-60 | (helper) the leading-whitespace scan of `strip()`: every character skipped is whitespace and the one it stops at is not |
| `PyStr.SkipSpaceBack` | backend/services/agent/main.py:58-60 | (helper) the trailing-whitespace scan of `strip()`: every character dropped is whitespace and the one before the cut is not |
| `PyStr.Strip` | backend/services/agent/main.py:58-60 | `strip()` yields the slice of the input that starts at its first non-whitespace character, with whitespace only outside it and no whitespace at either end |
| `PyStr.StripHasNone` | backend/services/agent/main.py:58-60 | stripping a text without a separator leaves none |
| `PyStr.StripPadded` | backend/services/agent/main.py:58 | surrounding whitespace is exactly what `strip()` removes from a text with no whitespace at its ends |
| `Planner.JsonFenceHasFence` | backend/services/agent/main.py:57-59 | (helper) a reply containing `"```json"` contains `"```"` |
| `Planner.CleanResponse` | backend/services/agent/main.py:55-63 | a reply without `"```"` is passed on unchanged, not even stripped; the cleaned text of a fenced reply contains no `"```"` |
| `Planner.CleanJsonBranch` | backend/services/agent/main.py:57-58 | whenever `"```json"` occurs (so also when both markers occur) the result is the text after the first `"```json"`, cut at the next `"```json"`, then before its first `"```"`, stripped |
| `Planner.BeforeJsonFenceThenFence` | backend/services/agent/main.py:58 | without four backticks in a row, cutting at `"```json"` before `"```"` is the same as cutting at `"```"` |
| `Planner.CleanJsonBranchToFence` | backend/services/agent/main.py:57-58 | with no four backticks after the marker, the result is the text after the first `"```json"` up to the next `"```"` or the end, stripped |
| `Planner.CleanJsonBranchOverlap` | backend/services/agent/main.py:57-58 | `"```json" + x + "`````json"` (x without backticks) is cleaned to `strip(x + "``")`, while the text up to the next `"```"` is `x` |
| `Planner.CleanFenceBranch` | backend/services/agent/main.py:59-60 | a reply with `"```"` but no `"```json"` becomes the text between its first and second `"```"` (or to the end), stripped |
| `Planner.CleanIdempotent` | backend/services/agent/main.py:57-60 | cleaning twice gives what cleaning once gives |
| `Planner.FenceChars` | backend/services/agent/main.py:57-60 | (helper) an occurrence of `"```"` is three backticks |
| `Planner.FourBackticks` | backend/services/agent/main.py:57-60 | (helper) two overlapping occurrences of `"```"` make four backticks in a row |
| `Planner.OnlyClosingFence` | backend/services/agent/main.py:56-58 | (helper) in whitespace + text + whitespace + a tail starting with `"```"`, the first `"```"` starts the tail when the text has no `"```"` and, with no whitespace after it, does not end in a backtick |
| `Planner.CleanRoundTrip` | backend/services/agent/main.py:56-58 | `"```json" + ws + j + ws + "```"` is cleaned back to exactly `j` when `j` has no `"```"`, no whitespace at its ends and, when no whitespace follows it, no trailing backtick |
| `Planner.CleanLosesTrailingBacktick` | backend/services/agent/main.py:57-58 | `"```json" + k + "`" + "```"` comes back as `strip(k)`, losing the backtick |
| `Planner.GetAgentPlan` | backend/services/agent/main.py:44-67 | a failed model call or a failed parse gives a map with exactly the keys `error` (the fixed text) and `detail` (the failure's message); otherwise the plan is the object parsed from the cleaned reply |
| `Planner.PlanIgnoresFence` | backend/services/agent/main.py:56-63 | a fenced reply yields the same plan as the bare JSON text it wraps |
| `EdaService.Load` | backend/services/eda/main.py:38-39 | (definition) decode, then `read_csv`: a table exactly when both steps succeed, and then the parsed table; the same two steps open all three services (lines 8-9 and 18-19) |
| `EdaService.NumericColumns` | backend/services/eda/main.py:20-22 | the columns passed to the correlation step are exactly the numeric non-bool ones, in their original order, with labels still distinct |
| `EdaService.BoolColumnTests` | backend/services/eda/main.py:20-43 | a bool column of the upload passes the histogram's existence and type checks but is not among the heatmap's columns |
| `EdaService.FindColumn` | backend/services/eda/main.py:40-42 | `column_name in df.columns`: a column with that label if there is one, `None` only when no column has it |
| `EdaService.FindColumnUnique` | backend/services/eda/main.py:42-46 | with distinct labels, `df[column_name]` is the one column carrying that label |
| `EdaService.FindColumnsAgree` | backend/services/eda/main.py:42-46 | every column with the looked-up label is the column found |
| `EdaService.GetCsvDescription` | backend/services/eda/main.py:6-14 | the statistics of the parsed upload, or `None` when decoding, parsing or `describe` fails |
| `EdaService.GenerateCorrelationHeatmap` | backend/services/eda/main.py:16-30 | the chart drawn from the numeric columns only, or `None` when decoding, parsing or drawing fails |
| `EdaService.GenerateHistogram` | backend/services/eda/main.py:32-60 | `column_not_found` exactly for a parsed upload and a hashable name that no column carries, whatever the types; `column_not_numeric` exactly for an existing non-numeric column; an image only for an existing numeric column, drawn from that column; every other case, including an unhashable name and a failed drawing, `None` |
| `EdaService.LoadFailureGivesNone` | backend/services/eda/main.py:6-60 | an upload that cannot be decoded or parsed gives `None` from all three services, never a sentinel |
| `AgentRouter.DecideAction` | backend/api/router/agent_router.py:12-26 | the empty prompt gives 400; a plan with an `"error"` key gives 500 with that value as detail; any other plan is returned unchanged |
| `AgentRouter.DecideEmptyPromptFirst` | backend/api/router/agent_router.py:18-21 | the empty prompt is answered without the planner: the answer does not depend on the model or the parser |
| `AgentRouter.DecideModelFailure` | backend/api/router/agent_router.py:21-24 | a failed model call gives 500 with the planner's fixed failure text |
| `AgentRouter.ExecuteAction` | backend/api/router/agent_router.py:28-81 | the dispatch table: non-`.csv` name 400; planning error 500; unknown or missing tool 400; describe 500 or `{filename, analysis_result}`; heatmap 500 or PNG; histogram with a falsy column 400, else 404 / 400 / 500 / PNG by the service's result; only registered tools succeed; statuses are 400, 404 or 500 |
| `AgentRouter.ExecuteChecksExtensionFirst` | backend/api/router/agent_router.py:38-45 | a non-`.csv` name is refused before the file is read or the planner runs: the answer depends on nothing else |
| `AgentRouter.ExecuteModelFailure` | backend/api/router/agent_router.py:45-47 | a failed model call gives 500 carrying its message and runs no tool: the answer does not depend on the upload or the engine |
| `AgentRouter.ExecuteHistogramNeedsColumn` | backend/api/router/agent_router.py:64-69 | a histogram plan with a missing, null or empty column name gives 400 without calling the service |
| `AgentRouter.ExecuteNotFoundIff` | backend/api/router/agent_router.py:64-72 | 404 exactly when a histogram is planned for a usable column name that the parsed upload does not have |
| `AgentRouter.ExecuteImageOrigin` | backend/api/router/agent_router.py:58-78 | a PNG comes only from the heatmap of the numeric columns or from the histogram of the one numeric column the plan names |
| `EdaRouter.DescribeData` | backend/api/router/eda_router.py:13-24 | non-`.csv` name 400; `None` from the service 500; otherwise `{filename, statistics}` |
| `EdaRouter.GetCorrelationHeatmap` | backend/api/router/eda_router.py:26-39 | non-`.csv` name 400; `None` 500; otherwise the PNG bytes |
| `EdaRouter.GetHistogram` | backend/api/router/eda_router.py:41-61 | non-`.csv` name 400; `column_not_found` 404; `column_not_numeric` 400; `None` 500; otherwise PNG; no check of an empty name |
| `EdaRouter.ExtensionCheckedFirst` | backend/api/router/eda_router.py:13-52 | every endpoint refuses a non-`.csv` name with 400, independently of the upload, the column and the engine |
| `EdaRouter.UnreadableUploadIs500` | backend/api/router/eda_router.py:17-59 | an upload that cannot be decoded or parsed is a 500 on every endpoint |
| `EdaRouter.HistogramNotFoundIff` | backend/api/router/eda_router.py:41-55 | 404 exactly when the parsed upload has no column with the given name; so `""` is classified by the existence check |
| `EdaRouter.HistogramNotNumericIff` | backend/api/router/eda_router.py:52-57 | for a `.csv` name, 400 exactly when the named column exists and is not numeric |

## Left out

- The language-model client, the prompt template, `load_dotenv` and the
  global `llm`: the call is a parameter giving a reply or an exception
  message, so the model's non-determinism is not modelled.
- The JSON grammar behind `json.loads`: it is a parameter. A reply that
  decodes to something other than an object is not modelled; the plan is
  always a map. JSON numbers are integers only, so the falsy value `0.0`
  and non-integer column names are not covered.
- How Python renders a non-string value inside an f-string (`Detail.Formatted`
  keeps the value itself).
- pandas: CSV parsing, dtype inference, `describe()` and `corr()` are
  Engine functions; which columns `describe()` summarises and which
  statistics it reports are not modelled (a `Stat` records only that an
  entry is a number, `NaN` or text). The degenerate heatmap (fewer than two numeric
  columns) is whatever the engine's `renderHeatmap` does.
- matplotlib/seaborn drawing, `savefig` and the `BytesIO` buffers, with the
  global figure state they change: image bytes are opaque.
- UTF-8 decoding: the `decode` function of the Engine.
- FastAPI routing, request validation, `UploadFile.read`, `async`,
  `StreamingResponse` and the `print` logging: responses are a plain
  datatype and the uploaded bytes a parameter. The handlers are modelled,
  not the framework in front of them: FastAPI's form parsing may answer 422
  to an empty value of a required `Form(...)` field (`column_name` of the
  histogram endpoint, `prompt` of `execute`) before the handler runs, so
  what the model says about `""` there is a statement about the handler.
- A string result of `generate_histogram` other than the two sentinels cannot
  arise, so the router's fall-through for it is not modelled.
