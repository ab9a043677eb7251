# Luno trade history export, modelled in Dafny

`luno_trades.py` is a command-line script that exports a Luno account's trade
history to a CSV file. It reads `KEY=VALUE` settings from a `.env` file into the
process environment and refuses to go on when a required setting is blank. It
then parses the token list and the two dates of the range, and for every token,
in list order, walks the range in windows of at most one week. For each window
it calls the `listtrades` endpoint once and appends the returned trades as rows
to one output file per run, `luno_trades_<seconds>.csv`, writing a header row
only when that file did not exist yet.

The model follows the script function by function:

| module | file | models |
|---|---|---|
| `Outcomes` | `outcomes.dfy` | `Option`, `Result`, the lookup of a key in a map (`dict.get`, `os.getenv`), and the ways a run ends early (`Failure`) |
| `Text` | `text.dfy` | Python's `str.strip()`, `str.split(sep)`, `sep.join`, and the decimal form of an integer |
| `EnvFile` | `env_file.dfy` | `load_env_file`: line parsing, binding into the environment (class `Environ`), validation |
| `DateRange` | `date_range.dfy` | `parse_date_to_timestamp`: the range check around a parsed date |
| `Weekly` | `weekly.dfy` | the weekly window walk of `fetch_trades` |
| `LunoApi` | `luno_api.dfy` | `request_trades`: the query of one call and the shape check of its reply |
| `CsvOutput` | `csv_output.dfy` | `append_to_csv`: header and trade rows, files as a map (class `FileSystem`) |
| `Fetch` | `fetch.dfy` | `parse_tokens`, `fetch_trades` and the script's entry point |

The state the script changes in place is modelled as classes whose methods
update their fields: the process environment (`EnvFile.Environ`, one `vars`
map) and the working directory (`CsvOutput.FileSystem`, one `files` map from
file name to rows). The loops of `load_env_file` and `fetch_trades` are `while`
loops over that state. Each loop is proved against a pure specification
function, and the properties the script promises are proved as lemmas about
those functions.

The remote API, the clock, date parsing and the file contents enter as
parameters:
- `api: Params -> Result<Response, string>` stands for `make_luno_api_call`. It returns the decoded JSON body, or the text of the exception that function raised.
- `parse`, `now` and `earliest` stand for `strptime(...).timestamp() * 1000`, the current time and the floor date "2009-01-09", all in milliseconds.
- `runId` stands for `int(datetime.now().timestamp())`.
- `file: Option<seq<string>>` is the `.env` file's lines, or `None` when the file does not exist.

Behaviour worth knowing, as the code has it:
- A missing `.env` file makes `load_env_file` return at once (`luno_trades.py:18-19`), so no variable is validated in that case, although the comment at `luno_trades.py:3-4` promises to halt when a setting is missing. The model follows the code (`EnvFile.NoFileNoValidation`). An unset variable is then only noticed inside `fetch_trades`:
  - an unset `TOKENS` raises `AttributeError`;
  - an unset date raises `TypeError` in `strptime`;
  - an unset `CURRENCY` is formatted as the text `None` in every pair.
- The last window of a walk ends at `end`, except when `end - start` is a multiple of one week plus one millisecond. In that case it ends at `end - 1`, because the loop stops once the next window start reaches `end` (`Weekly.LastWindowEnd`).
- Opening the output file in append mode creates it, so an empty batch for a new file still writes the header row.
- Windows meet without gap or overlap as closed ranges: each starts one millisecond after the previous one ends. Whether the remote API treats `before` as inclusive is outside the model.

## Model

| member | source | states |
|---|---|---|
| `Text.Strip` | luno_trades.py:23 | `str.strip()`: cut the longest whitespace prefix, then the longest whitespace suffix of what is left; its promise is stated by `Text.StripSpec` |
| `Text.StripSpec` | luno_trades.py:23 | `strip()` removes exactly the leading and trailing whitespace: the result is a slice of the input, has no whitespace at either end, and only whitespace was cut off |
| `Text.StripIdempotent` | luno_trades.py:31-32 | stripping an already stripped value changes nothing |
| `Text.StripEmptyIffAllSpace` | luno_trades.py:56 | a value strips to the empty string exactly when it is all whitespace |
| `Text.Split` | luno_trades.py:158 | `str.split(",")`: the pieces between successive commas, empty ones kept; there is always at least one piece and none holds a comma |
| `Outcomes.Lookup` | luno_trades.py:211-214 | `os.getenv(name)` (and `os.path.exists` on the output file): the bound value, or `None` exactly when the name is unbound |
| `Text.SplitCount` | luno_trades.py:158 | `split(",")` yields one more piece than there are commas, empty pieces included |
| `Text.JoinSplit` | luno_trades.py:158 | joining the pieces of a split with the separator gives back the original text |
| `Text.SplitJoin` | luno_trades.py:158 | splitting the join of a non-empty list of separator-free pieces gives back the pieces |
| `Text.Decimal` | luno_trades.py:226 | `str(current_time)`: a non-empty string of decimal digits, whose value is stated by `Text.DecimalRoundTrip` |
| `Text.DecimalRoundTrip` | luno_trades.py:226 | the decimal digits written for a run identifier read back as that number |
| `EnvFile.ParseLine` | luno_trades.py:23-39 | a line binds nothing exactly when, once stripped, it is empty, starts with `#` or has no `=`; a bound key never contains `=` |
| `EnvFile.Unquote` | luno_trades.py:33-37 | `value[1:-1]` when the value starts and ends with `"`, else when it starts and ends with `'`, otherwise the value unchanged; stated by the three `Unquote…` lemmas below |
| `EnvFile.SplitBinding` | luno_trades.py:29-37 | `line.split("=", 1)`, both halves stripped and the value unquoted; the key is stripped and holds no `=` |
| `EnvFile.UnquoteQuoted` | luno_trades.py:33-37 | a value wrapped in a matching pair of `"` or `'` loses exactly that pair |
| `EnvFile.UnquoteLoneQuote` | luno_trades.py:34-37 | a value that is a single `"` or a single `'` both starts and ends with that quote, and so becomes empty |
| `EnvFile.ParseRender` | luno_trades.py:28-39 | a line `key=value` reads back as that binding (split on the first `=` only, so the value may hold `=`), for writable keys and unquoted values |
| `EnvFile.ParsePadded` | luno_trades.py:23-37 | whitespace around the line, the key, the `=` and the value is dropped and one pair of quotes removed: `a + key + b + "=" + c + value + d`, with `a`..`d` whitespace, binds `key` to `Unquote(value)`, for any key that could be written (stripped, no `=`, not starting with `#`, possibly empty) and any stripped value, the empty value included |
| `EnvFile.PaddedQuotedExample` | luno_trades.py:23-37 | the line `  A = "x=y"  ` binds `A` to `x=y` |
| `EnvFile.Bind` | luno_trades.py:21-39 | the environment after the `for line in f` loop: each line's binding applied in file order over the old environment; stated by `EnvFile.LastBindingWins` and `EnvFile.UnboundKeyKept` |
| `EnvFile.PaddedBlankExample` | luno_trades.py:23-39 | the line `  A =  ` binds `A` to the empty value |
| `EnvFile.ParsedAt` | luno_trades.py:22-39 | each line's binding depends on that line alone |
| `EnvFile.LastBindingWins` | luno_trades.py:22-39 | after loading, a key holds the value of the last line that binds it |
| `EnvFile.UnboundKeyKept` | luno_trades.py:22-39 | a key no line binds keeps its previous value, or stays unset |
| `EnvFile.IsUnset` | luno_trades.py:54-56 | `not env_value or not env_value.strip()`: the name is unbound, or bound to an empty or all-whitespace value |
| `EnvFile.Missing` | luno_trades.py:53-57 | the report holds exactly the checked names that are unset or blank |
| `EnvFile.MissingInDeclaredOrder` | luno_trades.py:42-57 | the report lists every unset required name, not just the first, in the declared order |
| `EnvFile.LoadEnv` | luno_trades.py:16-63 | no file: success with the environment untouched; otherwise success exactly when every required name is set after binding, and failure with the list `Missing` gives: the unset required names, each once, in declared order (`EnvFile.MissingInDeclaredOrder`) |
| `EnvFile.NoFileNoValidation` | luno_trades.py:18-19 | without a file even an empty environment passes |
| `EnvFile.Environ.Set` | luno_trades.py:39 | `os.environ[key] = value` changes that key only |
| `EnvFile.Environ.EmptyRequired` | luno_trades.py:51-57 | the `empty_vars` loop computes `Missing` of the required names |
| `EnvFile.Environ.BindLines` | luno_trades.py:21-39 | the `for line in f` loop leaves the environment bound as `Bind` specifies |
| `EnvFile.Environ.LoadEnvFile` | luno_trades.py:16-63 | the whole function: no file changes nothing; otherwise the lines are bound, and it halts exactly when `LoadEnv` fails, with the same list |
| `DateRange.CheckRange` | luno_trades.py:78-84 | a parsed date is accepted exactly when `earliest < parsed <= now`, and is then returned unchanged; otherwise the error names the date |
| `DateRange.RangeEndpoints` | luno_trades.py:78 | the floor itself and anything after `now` are rejected; `now` itself is accepted |
| `DateRange.ParseDate` | luno_trades.py:66-84 | success exactly when the date is set, parses and is in range, with the parsed value; an unset date fails with the `strptime` `TypeError` text, an unparsable text with `UnparsableDate`, and an out-of-range date with `DateOutOfRange` naming it |
| `LunoApi.TradeParams` | luno_trades.py:139-144 | the `params` of one call: `pair` is the token followed by the currency, `since` and `before` are the window bounds, `limit` is 1000 |
| `LunoApi.TradesOf` | luno_trades.py:147-154 | a reply yields trades exactly when the call succeeded and its body has `trades`; a missing `trades` is an error, never an empty batch; a failed call's error is passed on |
| `LunoApi.RequestTrades` | luno_trades.py:138-154 | one call with `pair = token + currency`, the window bounds as `since` and `before`, and `limit = 1000` |
| `CsvOutput.HeaderColumns` | luno_trades.py:171-187 | the header row has 13 columns, from `base` to `volume`, and names no column twice |
| `CsvOutput.Cell` | luno_trades.py:193-205 | `trade.get(field)`: the field's text, or an empty cell when the trade lacks it |
| `CsvOutput.TradeRow` | luno_trades.py:190-207 | a trade's row has as many cells as the header |
| `CsvOutput.TradeRowCells` | luno_trades.py:170-207 | cell `i` of a trade's row is the trade's field named by header column `i`, or empty when the field is missing |
| `CsvOutput.TradeRowRoundTrip` | luno_trades.py:190-207 | a trade whose fields are header columns with non-empty values is recovered exactly from its row |
| `CsvOutput.Rows` | luno_trades.py:190-207 | the `for trade in trades` loop writes one row per trade; it has as many rows as trades, each given by `CsvOutput.RowsAt` |
| `CsvOutput.RowsAt` | luno_trades.py:190-207 | row `k` of a batch is the row of trade `k` |
| `CsvOutput.Appended` | luno_trades.py:162-207 | a file's rows after one `append_to_csv`: the header first when the file did not exist, then the batch's rows after whatever it held; stated by the two lemmas below |
| `CsvOutput.AppendedToExisting` | luno_trades.py:162-207 | appending to an existing file keeps its rows as a prefix and adds one row per trade, in order, and no header |
| `CsvOutput.AppendedToNew` | luno_trades.py:162-207 | appending to a file that does not exist writes the header first, then one row per trade |
| `CsvOutput.AppendAllToExisting` | luno_trades.py:162-207 | successive appends to an existing file add only data rows, after the old ones |
| `CsvOutput.AppendAllFromNothing` | luno_trades.py:162-207 | successive appends starting from no file leave exactly one header, at the top |
| `CsvOutput.FileSystem.Append` | luno_trades.py:162-207 | only the named file changes, and it ends up with its old rows, the header if it was new, and the batch's rows |
| `Weekly.Windows` | luno_trades.py:220-227 | the windows the `while` loop requests: `(since, min(since + week, end))` while `since < end`, the next one starting one millisecond after the last; its shape is stated by the `Weekly` lemmas below |
| `Weekly.WindowsChained` | luno_trades.py:220-227 | no window when `start >= end`; otherwise the first starts at `start`, each is non-empty, at most one week wide and ends by `end`, the next starts one millisecond later, and the walk stops once that start reaches `end` |
| `Weekly.WalkWindows` | luno_trades.py:220-227 | the `while` loop visits exactly the windows `Windows` describes |
| `Weekly.WindowsAscending` | luno_trades.py:221-227 | windows come in strictly increasing order and do not overlap |
| `Weekly.WindowCount` | luno_trades.py:221-227 | the walk makes `(end - start + week) / (week + 1)` requests |
| `Weekly.LastWindowEnd` | luno_trades.py:221-227 | the last window ends at `end`, or at `end - 1` when `end - start` is a multiple of one week plus one millisecond |
| `Weekly.WindowsCover` | luno_trades.py:220-227 | every millisecond from `start` up to `end` lies in some window |
| `Weekly.TwoWindowExample` | luno_trades.py:220-227 | a range of 1 000 000 000 ms is fetched as `(0, 604800000)` and `(604800001, 1000000000)` |
| `Fetch.ParseTokens` | luno_trades.py:157-159 | one token per comma-separated piece, empty pieces kept, each the stripped piece |
| `Fetch.TokensStripped` | luno_trades.py:159 | no token has whitespace at either end |
| `Fetch.ParseTokensJoin` | luno_trades.py:157-159 | tokens written comma-separated are read back as the same list in the same order |
| `Fetch.EmptyTokenKept` | luno_trades.py:158-159 | `"A,,B"` gives `["A", "", "B"]` |
| `Fetch.Configure` | luno_trades.py:210-214 | succeeds exactly when `TOKENS` is set and both dates pass the parse and range check; then the tokens are `parse_tokens(TOKENS)` and the currency is `CURRENCY` or the text `None` when unset. Otherwise it fails with the first error in source order: an unset `TOKENS` raises the `'NoneType' object has no attribute 'split'` error, then the start date's error, then the end date's |
| `Fetch.FileName` | luno_trades.py:226 | `f"luno_trades_{current_time}.csv"`; different run identifiers give different names (`Fetch.FileNamesDistinct`) |
| `Fetch.FileNamesDistinct` | luno_trades.py:215-226 | runs started at different seconds write different files |
| `Fetch.TokenRequests` | luno_trades.py:220-225 | the calls of one token's `while` loop: one per window, in window order, each for the token's pair |
| `Fetch.Requests` | luno_trades.py:218-225 | every call of the nested loops: the tokens in list order, each making its calls over the same windows; the reference the `Request…`, `WalkIsRun` and `WalkTokensIsRun` lemmas are about |
| `Fetch.TokenRequestAt` | luno_trades.py:220-225 | call `j` of a token asks for window `j` |
| `Fetch.RequestAt` | luno_trades.py:218-225 | the run makes one call per token and window; call `i * windows + j` asks for token `i`'s pair over window `j` with limit 1000 |
| `Fetch.NoWindowsNoRequests` | luno_trades.py:218-221 | an empty range makes no call for any token |
| `Fetch.Run` | luno_trades.py:218-227 | the calls of a run made in order, each batch appended to the file, the first failing call ending the run; stated by the `Run…` lemmas below |
| `Fetch.RunAfterFailure` | luno_trades.py:223-226 | once a call has failed, no later call is made and nothing more is written |
| `Fetch.RunAllSucceed` | luno_trades.py:218-227 | when every call succeeds, the file receives every batch, in call order |
| `Fetch.RunStopsAtFirstFailure` | luno_trades.py:218-227 | the first failing call ends the run with its error, and the file holds exactly the batches before it |
| `Fetch.Walk` | luno_trades.py:220-227 | one token's `while` loop: request `(since, min(since + week, end))`, stop on an error, otherwise append and go on one millisecond past the window |
| `Fetch.WalkTokens` | luno_trades.py:218-227 | the `for token in tokens` loop: each token walked from the configured start, in list order, a failed walk ending the run |
| `Fetch.WalkIsRun` | luno_trades.py:220-227 | the window loop of one token is the run of that token's calls, one per window, in window order |
| `Fetch.WalkTokensIsRun` | luno_trades.py:218-227 | walking the tokens in list order, each from the same start, is the run of all the calls in order |
| `Fetch.RunOutcome` | luno_trades.py:218-227 | the files after the loops with output file `name`, and the failure that ended them: the run of every call of `Requests`, the output file stored back only when it exists |
| `Fetch.FetchOutcome` | luno_trades.py:210-227 | the whole of `fetch_trades` on values: a configuration error leaves the files as they were, otherwise `RunOutcome` with the file named after the run |
| `Fetch.FetchToken` | luno_trades.py:220-227 | the window loop changes only the output file, and ends as `Walk` describes |
| `Fetch.FetchAll` | luno_trades.py:218-227 | the two loops leave the files and the failure as the run of all calls leaves them |
| `Fetch.FetchTrades` | luno_trades.py:210-227 | the whole function: a configuration error changes nothing; otherwise the files and failure are those of the run |
| `Fetch.OnlyOwnFileChanges` | luno_trades.py:226 | a run changes no file but its own |
| `Fetch.EmptyRangeChangesNothing` | luno_trades.py:221 | `start >= end` makes no call and creates or changes no file |
| `Fetch.FreshRunOneHeader` | luno_trades.py:215-227 | a successful run into a new file leaves one header followed by every batch's rows, in call order |
| `Fetch.RunScript` | luno_trades.py:231-233 | a validation failure stops the script before any file changes; otherwise `fetch_trades` runs on the loaded environment |

## Left out

- `make_luno_api_call` (`luno_trades.py:87-135`) is the parameter `api`: URL encoding, the Basic authentication header, base64, the HTTP exchange, JSON decoding and the debug output are outside the model. Its credential check raises before any call; it appears only as an error text `api` may return.
- `api` is a function of the call's parameters, so two identical calls in one run get the same reply. A token listed twice (`TOKENS="XBT,XBT"`) therefore repeats its first walk's replies: a run where the first of two identical calls succeeds and the second fails cannot be represented.
- `strptime`, `timestamp()`, the local timezone and `datetime.now()` are the parameters `parse`, `now`, `earliest` and `runId`. `Fetch.Configure` uses one `now` for both dates, which the script reads a few instants apart.
- `print` and `exit(1)` are modelled as `Failure` values that end the run. The wording of the messages is not modelled, apart from the texts of the exceptions the model raises itself.
- CSV serialisation (quoting, escaping, line endings) is left out. A file is its sequence of rows of cells.
- `CsvOutput.Cell`: a trade is a map from field names to the text the CSV writer prints for them. Number and boolean values are taken as already converted to that text, and a missing field as the empty cell.
- A `trades` value that is not a list, and an `api` reply that is not a JSON object, are not modelled.
- `EnvFile.Environ.Set`: CPython's `os.environ` refuses some bindings with a `ValueError`: an empty key, from a line `=value`, and a key or value that holds a NUL character (`embedded null byte`). The model binds any key to any value.
- A `.env` file that exists but cannot be read or decoded is not modelled. The file is its sequence of lines.
- Concurrency and other processes touching the files are not modelled. The script has none of its own.
