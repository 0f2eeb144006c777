# BLIK reconciliation router and origins validator, in Dafny

This project models the decision logic of a small FastAPI service. The service
reconciles a bank's CSV export of BLIK payments with the transactions of a
Firefly III ledger. Two parts of it are modelled.

- **The `blik_files` router** (`src/api/routers/blik_files.py`):
  - the identifier check, and the paths it guards;
  - the preview endpoint, with its catch-all error handler;
  - the match endpoint, with its three-way summary of the match report and
    its write into the in-memory session cache `MEM_MATCHES`;
  - the apply endpoint. It validates the whole request against the cached
    session before it makes any ledger mutation. After that it applies one
    mutation per item, best-effort, and collects the errors;
  - the month grouping helper `group_by_month`;
  - the "not processed" count of the statistics endpoint.
- **`Settings.parse_allowed_origins`** (`src/settings.py`): the validator that
  turns a loosely typed configuration value into a list of CORS origins. The
  settings' field defaults are modelled with it.

Files:

- `results.dfy`: `Option` and `Result`.
- `records.dfy`: the data the router passes around. These are dates, a CSV
  record, the ledger's simplified transaction, and a match result that pairs
  the two.
- `text.dfy` (module `PyText`): the Python string operations the code relies
  on:
  - `str.strip()` over Python's whitespace set;
  - `str.split(",")` and `",".join`;
  - substring `in`;
  - `str(int)`.
- `settings.dfy`: the `Settings` field defaults, the "ledger configured" guard,
  and `ParseAllowedOrigins` with its branch lemmas.
- `ledger.dfy`: class `Ledger`. It stands in for the ledger mutation
  `TransactionProcessor.apply_match`. Each call is one attempt, which either
  takes effect or raises `RuntimeError`. Which calls fail is given by a failure
  oracle indexed by the attempt's position, so any failure pattern is covered.
- `blik_files.dfy`: the router:
  - pure functions for the summary, the filters, the checks and the
    validation plan;
  - the method `GroupByMonth`, written as a loop as in the source;
  - class `BlikFilesRouter`, holding `memMatches` (the service's `MEM_MATCHES`)
    with the `DoMatch`, `Validate` and `ApplyMatches` methods;
  - the method `RunUpdates`, the execution loop of `apply_matches`.

The following are parameters, not code:

- the base64url decoder;
- `os.path.exists`;
- `BankCSVReader.parse`;
- `TransactionProcessor.match`;
- `json.loads`.

Each is an uninterpreted function (record `Env`, type `JsonLoads`). A decoder or
parser that raises is `None`. An exception that a handler does not catch becomes
FastAPI's 500 "Internal Server Error".

## Model

| member | source | states |
|---|---|---|
| Settings.DefaultsNotConfigured | src/settings.py:16-26 | With every field at its default, the ledger guard fails (no URL, no token). The origins default is `["*"]` and the done tag is `"blik_done"`. |
| Settings.ParseAllowedOrigins | src/settings.py:29-56 | The validator fails in exactly two cases. (1) The value is of another type, giving the "Invalid ALLOWED_ORIGINS format" error. (2) The value is a comma-free, non-wildcard string whose stripped form starts with `[`, and `json.loads` rejects it, giving the "must be valid JSON list" error. |
| Settings.NoneIsWildcard | src/settings.py:30-31 | `None` yields `["*"]`, the same list as the field default. |
| Settings.WildcardString | src/settings.py:34-35 | A string whose stripped form is `*` yields `["*"]`, surrounding whitespace included. |
| Settings.CommaIsNotWildcard | src/settings.py:34-38 | A string holding a comma never passes the wildcard test, so every such string reaches the CSV branch. |
| Settings.CsvOrigins | src/settings.py:39 | The CSV branch gives one origin per piece of `v.split(",")`. |
| Settings.CsvBranch | src/settings.py:38-39 | A string with a comma yields the stripped pieces. There is one more origin than there are commas, and no origin holds a comma or surrounding whitespace. |
| Settings.TwoPieceCsv | src/settings.py:38-39 | Two comma-free, already stripped origins joined by one comma come back as exactly those two origins. |
| Settings.JsonListWithCommaIsSplit | src/settings.py:38-46 | `'["a","b"]'` is split at its comma into `'["a"'` and `'"b"]'`; `json.loads` is never consulted. |
| Settings.JsonBranch | src/settings.py:42-46 | A comma-free string whose stripped form starts with `[` yields what `json.loads` returns for the unstripped string, or the JSON-list error when it raises. |
| Settings.SingleString | src/settings.py:49-50 | Any other string yields the one-element list holding the string unstripped. |
| Settings.ListPassThrough | src/settings.py:53-54 | A list passes through unchanged, so any result of the validator is a fixed point of it. |
| Settings.StringOutsideJsonIsNonEmpty | src/settings.py:34-50 | Every string outside the JSON branch yields at least one origin. |
| Settings.ParseAllowedOriginsJsonFirst | src/settings.py:41-46 | Corrected order: a bracketed string is handed to `json.loads` whether or not it holds a comma. Errors are exactly another type, or a bracketed string that `json.loads` rejects. |
| Settings.JsonFirstAgreesElsewhere | src/settings.py:29-56 | The corrected order and the source's order give the same answer on every value except a bracketed string holding a comma. |
| Settings.JsonFirstParsesList | src/settings.py:41-44 | With the JSON test first, `'["a","b"]'` yields what `json.loads` makes of it. |
| PyText.LeadingSpacesAreSpaces | src/settings.py:34 | `lstrip` removes a maximal run of whitespace: every removed character is whitespace and the next one is not. |
| PyText.TrailingSpacesAreSpaces | src/settings.py:34 | `rstrip` removes a maximal run of whitespace from the end. |
| PyText.StripEnds | src/settings.py:34 | A stripped string is empty, or begins and ends with a non-whitespace character. |
| PyText.StripMembers | src/settings.py:34 | `strip` keeps every non-whitespace character and adds none. |
| PyText.AlreadyStripped | src/settings.py:39 | A non-empty string with non-whitespace ends is its own `strip`. |
| PyText.StripIdempotent | src/settings.py:39 | Stripping twice is stripping once. |
| PyText.ContainsIff | src/api/routers/blik_files.py:131 | Substring `in` holds exactly when the substring occurs at some position. |
| PyText.Split | src/settings.py:39 | `split(",")` gives one more piece than there are commas; no piece holds a comma, and joining the pieces with commas restores the string. |
| PyText.SplitNoSeparator | src/settings.py:39 | A comma-free string splits into itself alone. |
| PyText.SplitAfterPiece | src/settings.py:39 | Splitting a comma-free piece followed by a comma and a tail gives the piece, then the tail's pieces. |
| PyText.SplitJoin | src/settings.py:39 | Joining comma-free pieces and splitting again gives the pieces back. |
| PyText.NatToString | src/api/routers/blik_files.py:240 | `str(n)` of a natural number is a non-empty digit string without a leading zero. |
| PyText.ParseNatToString | src/api/routers/blik_files.py:240 | Reading back `str(n)` gives `n`. |
| PyText.ParseIntToString | src/api/routers/blik_files.py:263 | `str(n)` of any integer reads back as `n`, sign included. |
| PyText.IntToStringInjective | src/api/routers/blik_files.py:240 | Different record ids give different texts in the error details. |
| BlikFiles.ByMonth | src/api/routers/blik_files.py:44-50 | A month's group holds only input transactions of that month, and no more of them than the input has. |
| BlikFiles.ByMonthAppend | src/api/routers/blik_files.py:46-48 | Grouping distributes over concatenation, so each group keeps the input order. |
| BlikFiles.ByMonthHasOwnMonth | src/api/routers/blik_files.py:47-48 | Every transaction is in the group of its own year and month. |
| BlikFiles.MonthsInOrder | src/api/routers/blik_files.py:45-50 | The dict's keys are distinct, and a month is a key exactly when some transaction falls in it. |
| BlikFiles.SumOfGroupsStep | src/api/routers/blik_files.py:46-48 | Appending one transaction adds one to the total of the groups exactly when its month is already a key. |
| BlikFiles.GroupSizesSum | src/api/routers/blik_files.py:44-50 | The group sizes add up to the number of transactions. |
| BlikFiles.SumOfSizesIsSumOfGroups | src/api/routers/blik_files.py:50 | The sizes of the returned lists are the sizes of the month groups. |
| BlikFiles.GroupByMonth | src/api/routers/blik_files.py:44-50 | The loop returns months in first-appearance order, with exactly those months as keys. Each key maps to that month's transactions in input order, none empty. Every transaction is in its month's list, and the sizes sum to the input length. |
| BlikFiles.NotProcessed | src/api/routers/blik_files.py:67-69 | The not-processed list is no longer than the input and holds only input transactions without the done tag. |
| BlikFiles.NotProcessedIsUntagged | src/api/routers/blik_files.py:68 | `not tx.tags or TAG not in tx.tags` is the same test as `TAG not in tx.tags`. |
| BlikFiles.NotProcessedComplete | src/api/routers/blik_files.py:67-69 | Every transaction without the done tag is counted. |
| BlikFiles.NotProcessedAppend | src/api/routers/blik_files.py:67-69 | The filter distributes over concatenation, so it keeps input order. |
| BlikFiles.ClassifyIsExclusive | src/api/routers/blik_files.py:194-196 | Each report entry passes exactly one of the three summary tests. |
| BlikFiles.BucketsCoverReport | src/api/routers/blik_files.py:194-196 | The three counts add up to the report's length. |
| BlikFiles.Summarize | src/api/routers/blik_files.py:194-196 | Not matched + one match + many matches = number of report entries. |
| BlikFiles.SafeFileIdIff | src/api/routers/blik_files.py:131-132 | An identifier is accepted exactly when it has no `/` and no two adjacent dots. |
| BlikFiles.SafeIdStaysInTempDir | src/api/routers/blik_files.py:134-135 | For an accepted identifier, the joined path is the temporary directory followed by one component (`<id>.csv`). That component holds no separator and is neither `.` nor `..`. |
| BlikFiles.GetTempfile | src/api/routers/blik_files.py:127-150 | The preview succeeds exactly when decoding, the check, the existence test and parsing all succeed. Every failure is 500 "Invalid or corrupted id", and `size` is the number of parsed records. |
| BlikFiles.MatchReport | src/api/routers/blik_files.py:168-209 | An identifier that fails the check is answered 400 "Invalid file id". "Config error" is answered only when the ledger is unconfigured. On success the summary counts add up to `transactions_found`, the report's length. |
| BlikFiles.UnsafeIdAnsweredBeforeFilesystem | src/api/routers/blik_files.py:131-132 | A rejected identifier's answer depends on neither the filesystem nor the CSV reader: 400 on the match path, 500 on the preview path. |
| BlikFiles.PreviewMasksRejections | src/api/routers/blik_files.py:131-150 | The preview answers the 400 and 404 cases with 500 "Invalid or corrupted id", while the match endpoint answers them 400 and 404. |
| BlikFiles.GetTempfileReraising | src/api/routers/blik_files.py:127-150 | Corrected preview: it succeeds on the same inputs with the same response. A rejected identifier is 400, a missing file is 404, and anything else is 500. |
| BlikFiles.PreviewAgreesWithMatchOnRejections | src/api/routers/blik_files.py:131-138 | The corrected preview and the match endpoint give the same answer for a rejected identifier and for a missing file. |
| BlikFiles.CacheWrite | src/api/routers/blik_files.py:198 | After the write the key holds the new report; every other key is kept with its old report. |
| BlikFiles.IndexCovers | src/api/routers/blik_files.py:232 | Every record id of the session is a key of the index. |
| BlikFiles.IndexEntryHasItsId | src/api/routers/blik_files.py:232 | An index entry is a session item carrying that very record id. |
| BlikFiles.IndexLastWins | src/api/routers/blik_files.py:232 | When several session items share a record id, the last one is the one indexed. |
| BlikFiles.FirstMissing | src/api/routers/blik_files.py:236-241 | Gives no position exactly when every requested id is known. Otherwise the position is that of the first unknown id. |
| BlikFiles.FirstAmbiguous | src/api/routers/blik_files.py:244-249 | Gives no position exactly when every selected result has one candidate. Otherwise the position is that of the first result that does not. |
| BlikFiles.Plan | src/api/routers/blik_files.py:228-253 | A request that passes validation gives one item per requested id, each with exactly one candidate. |
| BlikFiles.PlanUnknownSession | src/api/routers/blik_files.py:228-229 | An id missing from the cache fails with "No match data found" whatever is requested. |
| BlikFiles.PlanUnknownRecord | src/api/routers/blik_files.py:236-241 | An unknown record id fails the request and names the first unknown id. This holds even when an ambiguous result was requested before it. |
| BlikFiles.PlanAmbiguous | src/api/routers/blik_files.py:244-249 | When all ids are known, the first selected result without exactly one candidate fails the request. The message names that result's record id. |
| BlikFiles.PlanOk | src/api/routers/blik_files.py:228-253 | Validation passes exactly when four things hold: the session exists, every id is known, every selected result has one candidate, and the ledger is configured. The items are then the index entries in request order, duplicates kept, each carrying the requested id. |
| BlikFiles.PlanConfigErrorComesLast | src/api/routers/blik_files.py:250-252 | "Config error" is reported only for a request that is otherwise valid. |
| BlikFiles.ErrorMessages | src/api/routers/blik_files.py:263 | One error message per failed item. |
| BlikFiles.ItemErrorMessageInjective | src/api/routers/blik_files.py:263 | An error message determines the record id and the ledger's message it was made from. |
| BlikFiles.IntTextBeforeColon | src/api/routers/blik_files.py:263 | The text of an id followed by `": "` and a reason determines both the id and the reason. |
| BlikFiles.IntTextHasNoColon | src/api/routers/blik_files.py:263 | The text of an integer never holds a colon. |
| BlikFiles.Execute | src/api/routers/blik_files.py:256-263 | Updated + number of errors = number of items. |
| BlikFiles.FailedPositions | src/api/routers/blik_files.py:258-263 | The failed positions, strictly increasing, are exactly the items whose mutation raised. |
| BlikFiles.ExecuteErrorsInOrder | src/api/routers/blik_files.py:258-263 | The errors are one per failed item, in request order. Each carries that item's record id and the ledger's message, and `updated` counts the rest. |
| BlikFiles.SucceededCountsUpdated | src/api/routers/blik_files.py:260-261 | `updated` equals the number of mutations that took effect. |
| BlikFiles.ExecuteAllSucceed | src/api/routers/blik_files.py:258-261 | With no failure, every item is counted and `errors` is empty. |
| BlikFiles.StepAttempts | src/api/routers/blik_files.py:258-260 | One pass of the loop extends the attempted prefix by that item's attempt. |
| BlikFiles.StepSucceeded | src/api/routers/blik_files.py:259-261 | One pass extends the applied prefix by the attempt exactly when it succeeded. |
| BlikFiles.StepExecute | src/api/routers/blik_files.py:259-263 | One pass updates the counter or the error list as the loop body does. |
| BlikFiles.RunUpdates | src/api/routers/blik_files.py:256-263 | The loop makes exactly one attempt per item, with its single candidate, in order. It records the applied ones, and its result is the execution computed from the outcomes. |
| BlikFiles.ThreeRowSession | src/api/routers/blik_files.py:194-249 | Take a session of three rows with one, two and no candidates. The summary is 1/1/1; applying the first row plans exactly that row; applying the second fails for its two candidates. |
| BlikFiles.BlikFilesRouter.constructor | src/api/routers/blik_files.py:33 | The session cache starts empty. |
| BlikFiles.BlikFilesRouter.DoMatch | src/api/routers/blik_files.py:168-209 | On success the cache entry for this id is replaced wholesale by the new report, and no other id changes. On any failure the cache is untouched. |
| BlikFiles.BlikFilesRouter.Validate | src/api/routers/blik_files.py:228-253 | The validation loops compute exactly the validation plan, without touching the cache or the ledger. |
| BlikFiles.BlikFilesRouter.ApplyMatches | src/api/routers/blik_files.py:217-264 | A rejected request answers its HTTP error and leaves the ledger exactly as it was. An accepted one makes one attempt per requested id, in request order, with the single candidate. Only successful attempts take effect. The response carries `updated` and the errors of that execution, and `updated` + errors = number of requested ids. |
| FireflyLedger.Ledger.constructor | src/api/routers/blik_files.py:254-255 | A fresh ledger client has attempted and applied nothing. |
| FireflyLedger.Ledger.ApplyMatch | src/api/routers/blik_files.py:259-262 | Each call is recorded as one attempt. It takes effect exactly when the failure oracle does not raise for it. |

## Left out

- `upload_csv` (src/api/routers/blik_files.py:84-110): it writes a temporary file and runs the CSV reader and the encoder. Both are filesystem I/O, and their code is not part of this model.
- `get_statistics` beyond `not_processed` (src/api/routers/blik_files.py:53-78): `fetch_transactions` is a network call, and the Firefly filter functions come from an external package whose code is not part of this model. The other five counters are lengths of those functions' results.
- `firefly_dep` (src/api/routers/blik_files.py:36-41): only its guard is modelled, as `FireflyConfigured`; building the client is network wiring.
- The base64url codec, `BankCSVReader.parse`, `TransactionProcessor.match` and `json.loads` are uninterpreted parameters. A decoder or parser that raises is modelled as `None`.
- BlikFiles.MatchReport: an exception that the matcher raises (a network failure) is not modelled; the matcher always returns a report.
- BlikFiles.RunUpdates: an exception other than `RuntimeError` from `apply_match` is not modelled; such an exception would escape the loop as a 500.
- `os.path.join` on Windows, `tempfile.gettempdir()` (a parameter here) and real file existence (an oracle) are left out. So is `strftime("%Y-%m")`: the month key is the pair (year, month), not its text.
- `print` and `logging` calls are side effects with no bearing on the results.
- Concurrent requests touching `MEM_MATCHES` are out of scope; the model is sequential.
- Settings.ParseAllowedOrigins: `json.loads` is modelled as returning a list of strings. Other JSON results (objects, numbers, lists of other values) are not modelled. Nor is the rendering of `v` inside the "Invalid ALLOWED_ORIGINS format" message.
- BlikFiles.NotProcessed: a `tags` value of `None` is not modelled; tags are a list, and `not tags` is the empty list.
- BlikFiles.BlikFilesRouter.ApplyMatches: the `errors` strings are built after the loop from the recorded failures (record id and ledger message), not inside it. The list has the same content and order.
- Pydantic's loading of settings from the environment and the `.env` file is left out. The defaults are modelled as `Settings.Defaults`.

## Findings

| source | as written | input that shows it | evidently intended | confidence | as-written member | corrected member |
|---|---|---|---|---|---|---|
| src/settings.py:38-46 | The comma test runs before the JSON test, so a bracketed list of two or more origins is split as CSV. | `'["a","b"]'` yields `['["a"', '"b"]']` | The comment above the JSON branch gives `'["a","b"]'` as the JSON-list example, so that string should be parsed by `json.loads` | medium, not executed | Settings.JsonListWithCommaIsSplit | Settings.ParseAllowedOriginsJsonFirst |
| src/api/routers/blik_files.py:131-150 | The preview's `except Exception` also catches the `HTTPException`s it raises itself, so a rejected id and a missing file are both answered 500. | decoded id `../x` gives 500 "Invalid or corrupted id", not 400 | 400 "Invalid file id" and 404 "File not found" reach the client, as on the match endpoint | medium, not executed | BlikFiles.PreviewMasksRejections | BlikFiles.GetTempfileReraising |
