# BioModels validation survey, modelled in Dafny

The repository surveys the curated models of the BioModels repository.
For each model id it:

- fetches the model's record;
- keeps only models with a single SBML main file and exactly one SED-ML file among the additional files;
- downloads both files and repairs a generic `source="model.xml"` reference in the SED-ML file;
- runs the SBML and SED-ML validators;
- appends one row to a markdown table.

At the end, the table gets a summary row: the row count, and a failure count for each validity column. The boolean columns are then turned into `pass`/`FAIL`, and the table is written out.

Every request to the server can go through a response cache: `"store"` wipes it and records, `"reuse"` replays it, and `"off"` leaves it alone.

The model has one module per concern:

- `Strings` (`strings.dfy`): the Python `str` operations the code relies on, namely `in`, `split`, `join`, `replace`, `strip`, `upper` and `str(n)`. `replace` is proved equal to joining the split pieces with the replacement. `StartsWith` is not a call of the code: it states what a `^`-anchored pattern matches.
- `Patterns` (`patterns.dfy`): the small regular-expression syntax of the patterns passed to `re.search` (`^`, `.`, `[c]?` and literal characters), compiled into atoms. What `^`-anchored, `.`-ending and unanchored plain patterns match is proved, and `SED[-]?ML` is proved to match exactly `SEDML` or `SED-ML`.
- `Cells` (`cells.dfy`): table cells, which hold strings or booleans, with Python's `str`, truth value and `== False`.
- `ErrorClassifier` (`error_classifier.dfy`): `error_categories`, `make_md_error_string` and `process_error`. The running counts are the field of a class whose method changes them. What each of the seven tellurium rules matches is proved, so classifying with the table is the same as a chain of `startswith`/`in` tests (`ClassifyTellurium`).
- `MarkdownTables` (`markdown_tables.dfy`): the class `MarkdownTable`. Its fields are the labels, keys, columns and optional summary; its methods update them in place. `write` is specified by a pure rendering of the table's lines.
- `RequestCaches` (`request_caches.dfy`): the class `RequestCache` over a `Disk` object whose `files` map stands for the file system. The SHA-256 digest is a function the cache is given.
- `BioModels` (`biomodels.dfy`): the three request functions with their cache read-through, `replace_model_xml`, the selection filters, and the survey loop of `main()` with its `max_count` bound. Also the end-of-run summary and the written report.

In `BioModels`, each request function and the whole run is a method on the cache, proved equal to a pure specification:

- `Respond`, `ModelIdentifiersOf`, `ModelInfoOf` and `DownloadOf` for the requests;
- `Step` for one pass of the loop;
- `Survey`, a left fold of `Step` over the examined ids, for the loop;
- `Report` for the whole run.

The specification threads the cache files through every request. The server (`requests.get` with its status check and JSON decoding), `urllib.parse.quote_plus` and the two validators are fields of an `Env` value.

The column declaration strings of `main()` appear as `ColumnLabels` and `ColumnKeys`. They are the same strings as in the source, written as the `|`-join of their fields (`LabelFields`, `KeyList`), so that their splits can be computed.

Behaviour of the code worth knowing:

- **Space runs are shortened by fixed amounts.** `make_md_error_string` replaces runs of three spaces with one, then runs of two with one, each in a single left-to-right pass. Five spaces become two (`MdErrorStringKeepsDoubleSpace`).
- **Blank summary cells are empty strings.** `add_summary` fills the summary with `""` under every key, so a cell that is never set renders as an empty field (`||`).
- **Errors end the whole run.** No request in the loop of `main()` is inside a `try`, so a cache miss, an HTTP error status or an unexpected response propagates out of `main()`. In the model, the error is returned by `SurveyBioModels`, and `FoldStopsAtFailure` states that later ids change nothing.
- **Engine failures are not classified during the survey.** `main()` never calls `process_error`, and it sets the tellurium column to the constant `"stub"`.
- **`broken_ref` counts the intact references.** The column is counted with `x == False` like the validity columns. So its `n_fail` count is the number of models whose reference did not need the repair, and a repaired model shows `pass` (`FinishedCounts`).

## Model

| member | source | states |
|---|---|---|
| ErrorClassifier.MdErrorStringIsSafe | utils/__init__.py:26-32 | the normalised error text has no newline, carriage return or tab, is never longer than the input, and keeps every non-blank character in order |
| ErrorClassifier.MdErrorStringKeepsDoubleSpace | utils/__init__.py:32 | space runs are shortened, not collapsed: five spaces come out as two |
| ErrorClassifier.ClassifyFirstMatch | utils/__init__.py:42-51 | the tag is that of the first rule whose pattern is found, later matching rules are ignored, `other` when no rule matches, and otherwise always the tag of some matching rule |
| ErrorClassifier.CellTextShows | utils/__init__.py:46-51 | the cell shows the tag in parentheses and the whole normalised error text |
| ErrorClassifier.BumpChangesOneCount | utils/__init__.py:45-50 | counting a failure raises exactly the one (engine, tag) count by one and keeps every engine and tag |
| ErrorClassifier.ErrorTally.ProcessError | utils/__init__.py:34-54 | normalises, classifies (first match wins, `other` otherwise), bumps that count and returns the cell; an unknown engine or a missing counter is an error that changes no count |
| Patterns.AnchoredWildcardSearch | utils/__init__.py:16-17 | a `^`-anchored pattern ending in `.` matches exactly the texts that start with its literal and have one more character that is not a newline |
| Patterns.AnchoredPlainSearch | utils/__init__.py:18-20 | a `^`-anchored plain pattern matches exactly the texts starting with it |
| Patterns.UnanchoredPlainSearch | utils/__init__.py:21-22 | an unanchored plain pattern matches exactly the texts containing it |
| ErrorClassifier.AlgebraicRuleMeaning | utils/__init__.py:16 | the `algebraic` rule matches exactly the texts starting with `Unable to support algebraic rules` and one more character that is not a newline |
| ErrorClassifier.DelayRuleMeaning | utils/__init__.py:17 | the `delay` rule matches exactly the texts starting with `Unable to support delay differential equations` and one more character that is not a newline |
| ErrorClassifier.AstNodeRuleMeaning | utils/__init__.py:18 | the `ASTNode` rule matches exactly the texts starting with `Unknown ASTNode type of` |
| ErrorClassifier.StochiometryRuleMeaning | utils/__init__.py:19 | the `stochiometry` rule matches exactly the texts starting with its message |
| ErrorClassifier.FloatRuleMeaning | utils/__init__.py:20 | the `float` rule matches exactly the texts starting with `'float' object is not callable` |
| ErrorClassifier.SpeciesRefRuleMeaning | utils/__init__.py:21 | the `SpeciesRef` rule matches exactly the texts containing `is not a named SpeciesReference` |
| ErrorClassifier.ResetRuleMeaning | utils/__init__.py:22 | the `reset` rule matches exactly the texts containing `reset` |
| ErrorClassifier.ClassifyTelluriumRules | utils/__init__.py:12-24 | the tellurium table is tried rule by rule in its declared order, `other` when no rule matches |
| ErrorClassifier.ClassifyTellurium | utils/__init__.py:42-51 | the tag a tellurium failure gets is that of the first of the seven string tests that holds, in the table's order, or `other` |
| MarkdownTables.MarkdownTable.constructor | utils/__init__.py:107-113 | labels and keys are the stripped fields of the two strings, of equal number; every key has an empty column and there is no summary |
| MarkdownTables.MarkdownTable.AppendRow | utils/__init__.py:115-118 | every column grows by the row's cell under its key, so there is one more row; labels, keys and summary are unchanged |
| MarkdownTables.AppendCells | utils/__init__.py:117-118 | the key-by-key loop leaves each column extended by its key's cell |
| MarkdownTables.MarkdownTable.GetColumn | utils/__init__.py:120-126 | a declared key gives its column, an undeclared key gives nothing |
| MarkdownTables.MarkdownTable.NRows | utils/__init__.py:128-130 | the row count is the length shared by every column |
| MarkdownTables.MarkdownTable.NCols | utils/__init__.py:132-134 | the column count is the number of distinct keys, the number of keys when they are distinct |
| MarkdownTables.MarkdownTable.AddSummary | utils/__init__.py:136-141 | the first call creates a blank cell under every key, each call then sets exactly the named cell; the columns are unchanged |
| MarkdownTables.MarkdownTable.AddCount | utils/__init__.py:143-147 | the named summary cell becomes the format with `{count}` replaced by the number of the column's cells satisfying the predicate; an undeclared key changes nothing |
| MarkdownTables.CountWhereCountsPositions | utils/__init__.py:145 | the count is the number of positions whose cell satisfies the predicate |
| MarkdownTables.FormatCountSuffix | utils/__init__.py:147 | a format ending in `{count}` with no brace before it gives its prefix followed by the decimal count |
| MarkdownTables.MarkdownTable.TransformColumn | utils/__init__.py:149-152 | each cell of the named column becomes `f` of its old value; other columns and the summary are unchanged; an undeclared key changes nothing |
| MarkdownTables.TransformCells | utils/__init__.py:151-152 | the index loop leaves cell `i` replaced by `f` of its old value for every `i` |
| MarkdownTables.MarkdownTable.Write | utils/__init__.py:154-162 | the text written is the rendering of the header, separator, summary if any, and every row in order, each line followed by `end` |
| MarkdownTables.WriteHead | utils/__init__.py:156-159 | the first lines written are the header, the separator and the summary line when there is one |
| MarkdownTables.WriteRows | utils/__init__.py:161-162 | the row loop writes the row lines in order |
| MarkdownTables.LinesLayout | utils/__init__.py:154-162 | the table has 2 lines, plus 1 with a summary, plus one per row; header, separator and summary come first; row `i` sits at a fixed offset with its cells in key order |
| MarkdownTables.SplitLine | utils/__init__.py:162 | a rendered line whose cells do not contain the one-character separator splits back into its cells between two empty fields |
| RequestCaches.RequestCache.constructor | utils/__init__.py:170-181 | the cache keeps its mode and directory; `"store"` wipes the directory when the cache is made, other modes leave the files alone |
| RequestCaches.RequestCache.Wipe | utils/__init__.py:184-188 | afterwards no file lies under the cache directory and no request has an entry |
| RequestCaches.WipedContents | utils/__init__.py:184-188 | a wipe leaves no response behind, keeps every file outside the cache directory, and wiping twice equals wiping once |
| RequestCaches.RequestCache.GetPath | utils/__init__.py:191-196 | the path lies in the cache directory and is named by the request's digest |
| RequestCaches.PathsApart | utils/__init__.py:191-196 | requests with different digests are kept in different files |
| RequestCaches.RequestCache.GetEntry | utils/__init__.py:199-208 | the stored response of the request's path; a request never stored is a cache miss |
| RequestCaches.RequestCache.SetEntry | utils/__init__.py:211-217 | the request's file is written (or overwritten), nothing else changes, and reading the entry back gives the response |
| RequestCaches.StoreThenLoad | utils/__init__.py:199-217 | after storing a response, loading the request's path gives it back |
| RequestCaches.StoreKeepsOthers | utils/__init__.py:211-217 | storing one request leaves the entry of a request with another digest as it was |
| BioModels.InfoRequestsApart | BioModels/parse_biomodels.py:52 | different model ids give different request strings |
| BioModels.InfoEntriesApart | BioModels/parse_biomodels.py:52-59 | with a digest that tells request strings apart, different model ids are kept in different cache files, and storing one model's record leaves every other model's entry as it was |
| BioModels.ReuseReadsCache | BioModels/parse_biomodels.py:53 | in `"reuse"` mode the answer is the cached entry or a cache miss, whatever the server says, and the cache is not written |
| BioModels.StoreThenReuse | BioModels/parse_biomodels.py:55-60 | in `"store"` mode an answer that decodes is written under the request, and a later `"reuse"` read gives it back |
| BioModels.OffLeavesCache | BioModels/parse_biomodels.py:55-60 | in any other mode the server's answer, its error status or its decoding failure is returned, and the cache is left alone |
| BioModels.FailureLeavesCache | BioModels/parse_biomodels.py:40-46 | a failed read-through (a cache miss, an error status, or an answer the decoding rejects) never writes the cache |
| BioModels.ReadThrough | BioModels/parse_biomodels.py:53-59 | the shared cache branch of the three request functions: the answer and the cache files afterwards are those of `Respond`, which reads the cache in `"reuse"` mode, asks the server otherwise, rejects an answer that does not decode before anything is stored, and records the answer in `"store"` mode |
| BioModels.GetModelIdentifiers | BioModels/parse_biomodels.py:34-47 | the id list and the cache files afterwards are those of the read-through of the identifiers request, whose `['models']` decoding comes before the store |
| BioModels.IdentifiersFailureLeavesCache | BioModels/parse_biomodels.py:40-47 | a failed `get_model_identifiers` leaves the cache as it was, and in `"store"` mode a successful one has stored exactly the id list under its request |
| BioModels.GetModelInfo | BioModels/parse_biomodels.py:50-60 | the record and the cache files afterwards are those of the read-through of the model's request |
| BioModels.DownloadFile | BioModels/parse_biomodels.py:63-78 | the file content and the cache files afterwards are those of the read-through of the download request with the quoted file name |
| BioModels.ReplaceModelXmlCases | BioModels/parse_biomodels.py:80-105 | the SED-ML text is repaired exactly when the SBML file has another name and the generic reference occurs; an unrepaired text is unchanged; a repaired one keeps the pieces between the references and joins them with the new reference |
| BioModels.SedmlCandidateMeaning | BioModels/parse_biomodels.py:143-147 | a file is a SED-ML candidate exactly when its upper-cased name or description contains `SEDML` or `SED-ML` |
| Patterns.SedmlSearch | BioModels/parse_biomodels.py:144-146 | the pattern `SED[-]?ML` matches exactly the texts containing `SEDML` or `SED-ML` |
| Patterns.SedmlAcrossJoiner | BioModels/parse_biomodels.py:145 | no `SEDML`/`SED-ML` match runs across the `|` between name and description |
| BioModels.SedmlCandidatesAppend | BioModels/parse_biomodels.py:142-147 | candidates keep the order of the file list |
| BioModels.SedmlCandidatesFrom | BioModels/parse_biomodels.py:142-147 | every listed name is the name of a candidate file, and there are no more names than files |
| BioModels.FindSedmlFiles | BioModels/parse_biomodels.py:142-147 | the loop collects exactly the candidate names, in order |
| BioModels.Select | BioModels/parse_biomodels.py:128-151 | a model is kept exactly when its id contains `BIOMD`, its format is SBML, it has one main file, it has additional files and exactly one of them is a SED-ML candidate; the files chosen are that main file and that candidate |
| BioModels.LabelsParsed | BioModels/parse_biomodels.py:111-113 | the table's labels are the eight declared labels without their padding |
| BioModels.ColumnDeclaration | BioModels/parse_biomodels.py:111-113 | both declarations have eight fields, and the table's keys are the eight declared keys |
| BioModels.MakeRow | BioModels/parse_biomodels.py:169-171 | a row has a cell under every key and a boolean under every counted key |
| BioModels.StepRowOnlyIfSelected | BioModels/parse_biomodels.py:128-171 | a row is produced only for a model that passes every filter, and it shows the model, its SBML file, its one SED-ML candidate and `stub` |
| BioModels.ProcessModel | BioModels/parse_biomodels.py:128-171 | one pass of the loop body yields exactly the outcome and the cache files of the pass's specification |
| BioModels.Examined | BioModels/parse_biomodels.py:121-125 | `count` goes up before any filter, so exactly the first `max_count` ids (all of them when it is not positive) are looked at |
| BioModels.FoldStopsAtFailure | BioModels/parse_biomodels.py:122-171 | an error ends the loop: later ids change neither the outcome nor the cache |
| BioModels.FoldRowsExtend | BioModels/parse_biomodels.py:122-171 | rows are only ever appended: the rows after a prefix of the ids are a prefix of the final rows |
| BioModels.StepReuse | BioModels/parse_biomodels.py:40-75 | in `"reuse"` mode one pass neither depends on the server nor writes the cache |
| BioModels.SurveyReuseIgnoresServer | BioModels/parse_biomodels.py:120-171 | with the `"reuse"` cache the whole survey is independent of the server and never writes the cache |
| BioModels.SurveyOffKeepsCache | BioModels/parse_biomodels.py:120-171 | with the cache off the survey leaves the cache files as they were |
| BioModels.SurveyRowsWellFormed | BioModels/parse_biomodels.py:171 | every surveyed row covers all the keys, with booleans under the counted keys |
| BioModels.RowsBounded | BioModels/parse_biomodels.py:121-125 | there are never more rows than ids, nor more than `max_count` when it is positive |
| BioModels.ColumnsSnoc | BioModels/parse_biomodels.py:171 | appending a row appends its cell to every column |
| BioModels.RunSurvey | BioModels/parse_biomodels.py:120-171 | the loop ends with the outcome and cache files of the survey of the examined ids, and on success the table holds the surveyed rows as its columns |
| BioModels.TallyCounts | BioModels/parse_biomodels.py:179-181 | each counted column becomes `pass`/`FAIL` of its cells with `n_fail=` and its number of `False` cells in the summary, equal to its number of `FAIL` cells; every other column and summary cell is unchanged |
| BioModels.FailsAreFalses | BioModels/parse_biomodels.py:180-181 | for a boolean column the `FAIL` cells after the transform are its `False` cells before |
| BioModels.FinishedCounts | BioModels/parse_biomodels.py:175-181 | after the end-of-run sequence the `model_desc` summary is `n=` and the row count, and each counted column has its failure count |
| BioModels.Summarise | BioModels/parse_biomodels.py:175-181 | the end-of-run sequence leaves the table's columns and summary as the specification of that sequence computes them |
| BioModels.SurveyBioModels | BioModels/parse_biomodels.py:108-185 | the run returns the report text, or the first error, with the cache files, exactly as the specification of the whole run computes them |
| Strings.ReplaceAllPieces | BioModels/parse_biomodels.py:100 | a string is the join of its split pieces by the pattern, none of which contains the pattern, and `replace` joins the same pieces with the replacement |
| Strings.NatToStringRoundTrip | BioModels/parse_biomodels.py:176 | the decimal text of `n` reads back as `n` |

## Left out

- `SuppressOutput` (redirecting stdout and stderr) and the progress `print` are output only, so they are not modelled.
- `test_engine` and the tellurium run are not called by the survey, whose outcome column is the constant `stub`.
- The network, the HTTP status check and the JSON decoding are the `fetch` function of `Env`. A response of the wrong kind is a `Malformed` failure rather than a Python exception. For the id list, the `['models']` lookup is made before the store, so a rejected answer is not cached. A record or file content of the wrong kind is stored first and rejected afterwards, as `get_model_info` stores what `response.json()` returns and `download_file` stores the raw content. A body that `response.json()` cannot decode raises before anything is stored; the model expresses it as `fetch` returning `None`, which it reports as `HttpError`, so the two are not told apart.
- `urllib.parse.quote_plus` is the `quote` function of `Env`.
- The SBML and SED-ML validators are the functions `validateSbml` and `validateSedml` of `Env`. They are applied to the text in the downloaded file, with the units flag.
- `pickle`, binary files and SHA-256 are not modelled. A stored payload is its own serialisation, and the digest is a function the cache is given.
- InfoEntriesApart: that two requests never share a cache file depends on SHA-256 not colliding on them; the lemma takes a collision-free digest as its premise (as `PathsApart` takes different digests).
- The temporary directory and `os.makedirs` are not modelled. The downloaded files of one model are modelled as two texts. When the two file names are equal, the SED-ML download overwrites the SBML file, and the SBML validators see the repaired SED-ML text.
- BioModels.ReplaceModelXml: the SED-ML text is the file's content after decoding and newline translation. `open` in text mode reads `\r\n` and `\r` as `\n`, and the repaired file is written back with those newlines; a file that is not valid UTF-8 raises `UnicodeDecodeError`, which is not modelled.
- ErrorClassifier.MakeMdErrorString: the `error` parameter is the text `str(error)` gives for the exception object; how `str` renders an exception, and the exception object itself, are not modelled. The same holds for the `error` of `ErrorClassifier.ErrorTally.ProcessError`.
- `re.search` is modelled for the pattern syntax the repository uses only: `^`, `.`, `[c]?` and literal characters.
- `str.upper` is modelled for ASCII letters only. Other characters are kept unchanged.
- `str.strip` uses Python's whitespace set without Unicode normalisation.
- `process_error` formats its cell with the name `fail`, which it declares `global` but which the module never assigns. In the source, unless a caller sets `utils.fail`, the cell formatting raises `NameError` after the count has already been raised. The model's `fail` parameter stands for the intended marker, and `ProcessError` returns the cell; the `NameError` path is not modelled.
- `RequestCache.get_entry` of a corrupt file is not modelled, because every stored file holds a payload.
- MarkdownTables.MarkdownTable.AppendRow: requires distinct keys and a cell for every key. With a repeated key Python appends twice to that column, and with a missing cell it raises `KeyError` after some columns have grown; both leave a table whose columns differ in length.
- MarkdownTables.MarkdownTable.AddCount: `format.format(count=...)` is modelled as replacing every `{count}`; other replacement fields and brace escapes are not modelled.
- MarkdownTables.MarkdownTable.Write: the file object is not modelled; the method returns the text it would write.
- BioModels.SurveyBioModels: `max_count` is a parameter instead of the module constant `0`. The cache mode and directory are those of the cache it is given instead of the constants `"reuse"` and `"cache"`. The text written to `README.md` is returned instead.
