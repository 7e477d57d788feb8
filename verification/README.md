# Field-operations reporting scripts, modelled in Dafny

This project models the computational core of four reporting scripts. It proves what their outputs contain.

- **Territory status summary** (`territory_status_summary.py`). It parses a plain-text feed of district blocks. Each block has a name line and then `Key: Value` counter lines. Keys are looked up in a synonym table, case-insensitively. Each district is normalised: every counter is filled in through `int(x or 0)`. One summary row is then derived per district, holding:
  - the total, completed and remaining counts;
  - the completion percentage;
  - the status label (Closed, Open or In Progress).

  The feed is first offered to `json.loads`; only text it rejects goes to the text parser. The run fails with "No district data found" when no district is left.
- **POI surveyor analyser** (`poi_dashboard_project/poi_analyzer_core.py`). It drops log rows with a missing id, surveyor, timestamp or quality score, and memoises the cleaned rows on the analyser object. It groups the rows by surveyor in key order. For each surveyor it computes:
  - submissions per hour over the surveyor's time span, absent when the span is zero;
  - the mean quality score and its sample spread;
  - a Bronze/Silver/Gold tier from `pd.cut`.
- **Feature preprocessor** (`preprocess.py`). It strips the header names and encodes the columns:
  - `Label` becomes `Good`→1 and `Bad`→0, and anything else becomes missing;
  - `Rating` becomes 1 when it reads as a number above 2, and 0 otherwise;
  - every other feature column becomes a 0/1 presence flag.

  Finally it zeroes every feature of a row whose `Name` has no ASCII letter, ASCII digit or Arabic character.
- **Slack activity report** (`generate_slack_report.py`). `compute_stats` counts messages per user and per calendar day. `render_html` orders the users by falling count (a stable sort) and shows each under its display name. It orders the days by their date key.

## Module layout

- `wrappers.dfy` (`Wrappers`): `Option` and `Result`.
- `text.dfy` (`Text`): the parts of Python's `str` behaviour the scripts use:
  - `isspace`, `strip` and ASCII `lower`;
  - `int()` on text and `str()` of an integer;
  - the decimal text that `to_numeric` reads.
- `str_order.dfy` (`StrOrder`): code-point order on strings, and sorting by key.
- `territory.dfy`, `poi_analyzer.dfy`, `preprocess.dfy` and `slack_report.dfy`: one module per script.
- `territory_example.dfy` (`TerritoryExample`): a worked run of the territory summariser on a two-block text feed, from the raw text to the summary rows.

Most operations are pure functions. `compute_stats` is a method with a loop, verified against a reference definition of the counts.

### Behaviour worth knowing

- **Tier bins.** `pd.cut` is called with default right-closed bins and `include_lowest=True`. So the tiers are [0, 0.7] Bronze, (0.7, 0.85] Silver and (0.85, 1] Gold: a score of exactly 0.7 is Bronze and exactly 0.85 is Silver.
- **Spread.** `std()` is the sample standard deviation (divisor n − 1). A single score gives `NaN`, which `fillna(0)` turns into 0.
- **Summary columns.** The analyser's summary has no submission-count column. The count only feeds the rate.
- **Empty districts.** A district whose total is 0 gets a percentage of 0, and it is Open exactly when its completed count is 0. The counters are not bounded below. So with a negative counter a total of 0 can come with a non-zero completed count, and then the status is In Progress; the percentage can also leave [0, 100]. `Territory.NegativeCountersBreakBounds` shows both, and also an Open district with total 0 and a negative counter.
- **Missing names.** A missing `Name` passes the name check. The check reads `str(nan)`, which is "nan" and contains letters. So such a row is not masked.

## Model

| member | source | states |
|---|---|---|
| Territory.ColumnNamesAreKeys | territory_status_summary.py:11-19 | every canonical counter name is a key of the synonym table and selects its own counter |
| Territory.KeyMatchIgnoresCase | territory_status_summary.py:48 | a key selects a counter exactly when it equals one of that counter's synonyms up to letter case; every other key selects nothing |
| Territory.SplitAtFirstColon | territory_status_summary.py:46-53 | only the first ':' splits key from value: later colons stay in the value, key and value are stripped, and a value that is not an integer sets the counter to 0 |
| Territory.LaterLinesOverwrite | territory_status_summary.py:44-53 | after a block's counter lines, each counter holds the value of the last line that assigns it, or its starting 0 when none does |
| Territory.SplitBlocksSpec | territory_status_summary.py:38 | the blocks of `split("\n\n")` rebuild the stripped text when joined by the separator, no block contains the separator, and no block but the last ends in a line feed, so each cut is at the leftmost separator |
| Territory.BlockLinesFollowContent | territory_status_summary.py:40-43 | a block yields lines exactly when it holds a non-whitespace character, and its first line is then its first non-blank line, stripped |
| Territory.DistrictRecord | territory_status_summary.py:54 | a parsed district has exactly the keys name and the five counters, with the name text and each counter's integer |
| Territory.ParseRawText | territory_status_summary.py:35-55 | every parsed district has a text name and all five counters as integers |
| Territory.ParsedDistrictsFollowBlocks | territory_status_summary.py:38-54 | the parser yields one district per block that holds a non-whitespace character, in order, each named by that block's first non-blank line |
| Territory.ParsedCountersFollowLines | territory_status_summary.py:40-54 | each counter of a parsed district holds the value of the last line after the block's name line that assigns it, or 0 when none does |
| Territory.Truncate | territory_status_summary.py:71 | `int()` on a float truncates toward zero |
| Territory.CounterValueSpec | territory_status_summary.py:71 | missing and falsy values read as 0, `True` as 1, integers as themselves and finite floats truncated; non-empty text reads as `int()` reads it, which skips Unicode whitespace other than U+001C..U+001F at both ends, gives the integer the stripped text spells, and raises ValueError iff the text is not one; NaN raises ValueError, an infinity OverflowError, a non-empty container TypeError; nothing else raises |
| Territory.CounterValueOfText | territory_status_summary.py:71 | a counter given as the text of an integer is read back as that integer |
| Territory.NormalizeDistrictSpec | territory_status_summary.py:67-72 | normalising keeps the name (default "") and reads every counter through `int(x or 0)`; it raises exactly when some counter raises, with the error of the first such counter in table order |
| Territory.TableOrderListsEveryCounter | territory_status_summary.py:11-19 | the order in which counters are read lists each of the five counters exactly once |
| Territory.NormalizeParsedDistrict | territory_status_summary.py:67-72 | normalising a district the text parser built keeps its name and counters and never raises |
| Territory.DeriveRow | territory_status_summary.py:78-91 | completed plus remaining is the total; the percentage is 0 for a zero total and in [0, 100] for non-negative counters; Closed iff total > 0 and all completed; Open iff nothing completed; In Progress otherwise |
| Territory.CompletionIsShareOfTotal | territory_status_summary.py:85 | for a non-zero total, the percentage times the total is 100 times the completed count |
| Territory.PartlyDoneExample | territory_status_summary.py:79-91 | counters closed 3, open 2 give total 5, completed 3, remaining 2, 60 percent, and the label "In Progress" |
| Territory.NothingDoneExample | territory_status_summary.py:79-91 | counters planned 5 give total 5, 0 percent, and the label "Open" |
| Territory.AllDoneExample | territory_status_summary.py:79-91 | counters closed 2, off plan 1 give 100 percent and the label "Closed" |
| Territory.NegativeCountersBreakBounds | territory_status_summary.py:85-91 | with a negative counter, a total of 0 can be In Progress, a total of 0 with nothing completed is Open, and the percentage can be -100 |
| Territory.MapResult | territory_status_summary.py:76 | a comprehension over a raising function succeeds exactly when every element succeeds, keeping order and length, and otherwise fails with the first element's error |
| Territory.NormalizeAll | territory_status_summary.py:76 | normalising all districts succeeds iff each one does, yielding them in order; otherwise it fails with the error of the first district that raises |
| Territory.ProcessDistricts | territory_status_summary.py:75-107 | one summary row per district, in order, each derived from the normalised district; any normalisation error propagates |
| Territory.Summarize | territory_status_summary.py:135-137 | no districts gives "No district data found"; otherwise the processed rows |
| Territory.ParsedRecordsProcess | territory_status_summary.py:67-107 | districts of the text parser's shape are processed without raising, one row each |
| Territory.RawTextFeedOutcome | territory_status_summary.py:135-137 | for a feed `json.loads` rejects, the run fails only when no block holds a non-blank line, and otherwise yields one row per such block |
| Territory.ProcessingRaisesConversionErrors | territory_status_summary.py:71-76 | processing raises only what `int()` raises on a counter: `ValueError`, `TypeError` or `OverflowError` |
| Territory.RunFeedFailures | territory_status_summary.py:61-76 | a run raises `AttributeError` exactly when the feed decodes to a JSON value that is not an object, ends in "No district data found" exactly when the loaded feed has no districts, and otherwise fails only with a conversion error of `int()` |
| Territory.EmptyObjectFeed | territory_status_summary.py:61-64 | the feed "{}" decodes to an object without districts and ends in "No district data found", while the text parser alone would have produced a row from it |
| Territory.SplitBlocksAtSeparator | territory_status_summary.py:38 | a block without a blank line that does not end in a line feed, followed by a blank line, splits off as the first block |
| Territory.SplitLinesAtBreak | territory_status_summary.py:40 | a line without a line break, followed by a line feed, splits off as the first line |
| TerritoryExample.ClosedAssignment | territory_status_summary.py:45-51 | the line "CLOSED: 3" sets closed to 3: the key is looked up in lower case |
| TerritoryExample.PlannedAssignment | territory_status_summary.py:45-53 | the line "planned: x" sets planned to 0, since `int("x")` raises `ValueError` |
| TerritoryExample.FeedSplits | territory_status_summary.py:38 | the feed "Alpha / CLOSED: 3 / Open: 2", a blank line, then "Beta / planned: x" splits into its two blocks |
| TerritoryExample.FeedRecords | territory_status_summary.py:35-55 | that feed parses to Alpha with closed 3 and open 2, and Beta with every counter 0 |
| TerritoryExample.FeedSummary | territory_status_summary.py:75-91 | the run on that feed yields two rows: Alpha with total 5, 60 percent and "In Progress", then Beta with total 0, 0 percent and "Open" |
| PoiAnalyzer.Clean | poi_dashboard_project/poi_analyzer_core.py:27-31 | the cleaned rows are the complete rows (an id, a surveyor, a readable timestamp and a numeric score), converted, in their original order and each as often as it occurs: the i-th cleaned row is the row at the i-th complete position; nothing is dropped when every row is complete |
| PoiAnalyzer.LoadData | poi_dashboard_project/poi_analyzer_core.py:16-33 | the first load cleans the file and stores the result; a later load returns the stored rows unchanged |
| PoiAnalyzer.LoadIsMemoised | poi_dashboard_project/poi_analyzer_core.py:18-19 | once loaded, loading again returns the same rows and analyser whatever the file holds then |
| PoiAnalyzer.GroupOfSpec | poi_dashboard_project/poi_analyzer_core.py:39 | a surveyor's group holds exactly that surveyor's rows, each as often as in the table |
| PoiAnalyzer.Surveyors | poi_dashboard_project/poi_analyzer_core.py:39 | each surveyor with a row is listed once, and nobody else |
| PoiAnalyzer.GroupKeys | poi_dashboard_project/poi_analyzer_core.py:39 | the group keys are strictly ascending and are exactly the surveyors with rows |
| PoiAnalyzer.Mean | poi_dashboard_project/poi_analyzer_core.py:46 | the mean times the count is the sum |
| PoiAnalyzer.MeanBounds | poi_dashboard_project/poi_analyzer_core.py:46 | the mean lies within any bounds on the scores |
| PoiAnalyzer.SampleVariance | poi_dashboard_project/poi_analyzer_core.py:47 | the spread is non-negative, 0 for a single score, and otherwise the squared deviations divided by n - 1 |
| PoiAnalyzer.ConstantScoresHaveNoSpread | poi_dashboard_project/poi_analyzer_core.py:46-47 | equal scores have that score as mean and no spread |
| PoiAnalyzer.SubmissionsPerHour | poi_dashboard_project/poi_analyzer_core.py:40-44 | the rate is absent exactly when the span is zero, and otherwise times the span in hours gives the count |
| PoiAnalyzer.Earliest | poi_dashboard_project/poi_analyzer_core.py:41 | the earliest timestamp is one of the group's and no later than any |
| PoiAnalyzer.Latest | poi_dashboard_project/poi_analyzer_core.py:41 | the latest timestamp is one of the group's and no earlier than any |
| PoiAnalyzer.CutPicksBin | poi_dashboard_project/poi_analyzer_core.py:57-62 | with increasing bins, label k is chosen iff the value is in (bins[k], bins[k+1]], or equals bins[0] for the first label; no label iff the value is outside the bins |
| PoiAnalyzer.TierBoundaries | poi_dashboard_project/poi_analyzer_core.py:57-62 | [0, 0.7] is Bronze, (0.7, 0.85] Silver, (0.85, 1] Gold, and outside [0, 1] there is no tier |
| PoiAnalyzer.SummarizeGroup | poi_dashboard_project/poi_analyzer_core.py:40-62 | a group's row has the rate over its span (absent iff all its timestamps are equal), the mean and spread of its scores, and the tier of that mean |
| PoiAnalyzer.ValidScoresGetTier | poi_dashboard_project/poi_analyzer_core.py:57-62 | a surveyor whose scores all lie in [0, 1] always gets a tier |
| PoiAnalyzer.SurveyorSummary | poi_dashboard_project/poi_analyzer_core.py:49-55 | a surveyor with rows is summarised from a non-empty group of exactly their rows |
| PoiAnalyzer.Summarize | poi_dashboard_project/poi_analyzer_core.py:39-64 | one row per group key, in key order, each summarising exactly that surveyor's rows |
| PoiAnalyzer.SummaryCoversSurveyors | poi_dashboard_project/poi_analyzer_core.py:39-64 | the summary is strictly ordered by surveyor, names every surveyor with a row, and names nobody else |
| PoiAnalyzer.Analyze | poi_dashboard_project/poi_analyzer_core.py:35-37 | analysing summarises the stored rows when loaded, and otherwise the cleaned file |
| PoiAnalyzer.QualityExamples | poi_dashboard_project/poi_analyzer_core.py:46-62 | scores 0.9 and 0.95 average 0.925 and are Gold; a single 0.5 is Bronze with no spread |
| Preprocess.HasWordChar | preprocess.py:9-10 | the search succeeds iff some character is an ASCII letter, an ASCII digit or in U+0600..U+06FF |
| Preprocess.NameCheckFailsOnlyOnText | preprocess.py:5-10 | only a text cell with no such character fails the name check; a missing cell ("nan") and every number pass |
| Preprocess.LabelCodeSpec | preprocess.py:32-33 | exactly "Good" is coded 1 and exactly "Bad" 0; every other cell, missing, numeric or other text, becomes missing |
| Preprocess.RatingCodeSpec | preprocess.py:36-39 | the rating flag is 1 iff the cell reads as a number above 2 and 0 otherwise; text holding an integer is rated like the integer |
| Preprocess.TextPresenceSpec | preprocess.py:46-50 | text is flagged absent iff it is all whitespace or reads "missing" in any letter case once stripped |
| Preprocess.PresenceSpec | preprocess.py:46-50 | a feature flag is 0 or 1, and 0 exactly for a missing cell, blank text or "missing"; every number is present |
| Preprocess.StripColumns | preprocess.py:29 | every column name is stripped and the rows are unchanged |
| Preprocess.PreprocessFrame | preprocess.py:26-57 | the output keeps the row count and the column count, with stripped column names |
| Preprocess.PreprocessFollowsCellRule | preprocess.py:29-55 | every output cell follows one rule decided from the original cell and its row's name. Label is coded; Name and Category are kept; a feature of a masked row is 0; otherwise the rating or presence flag applies |
| Preprocess.OutputCodes | preprocess.py:32-55 | after preprocessing every feature cell is 0 or 1, every Label cell is 1, 0 or missing, and Name and Category are unchanged |
| Preprocess.MaskZeroesFeatures | preprocess.py:52-55 | a row whose name fails the check has every feature, Rating included, set to 0; otherwise its features are encoded from its own cells |
| Preprocess.HeaderIsStripped | preprocess.py:29-33 | a header such as " Label " is matched after stripping and encoded as the Label column |
| SlackReport.BumpSpec | generate_slack_report.py:88 | incrementing adds one to that key's count and to the total, leaves other counts alone, and appends the key only when it is new |
| SlackReport.BumpKeepsKeysDistinct | generate_slack_report.py:88 | incrementing keeps every key listed once |
| SlackReport.UserTallyCounts | generate_slack_report.py:84-88 | the user counter lists each user once with that user's number of messages, and its counts sum to the messages with a user |
| SlackReport.DayTallyCounts | generate_slack_report.py:89-91 | when every timestamp converts, the day counter lists each day once with its number of messages |
| SlackReport.ComputeStats | generate_slack_report.py:80-92 | the counting loop fails exactly when some non-empty timestamp does not convert, and otherwise returns the reference user and day counts |
| SlackReport.StatsCount | generate_slack_report.py:80-92 | each user and day is listed once with its message count; a key is listed iff counted; the user counts sum to the messages with a user and the day counts to those with a timestamp |
| SlackReport.CountsAreIndependent | generate_slack_report.py:85-91 | user counts ignore timestamps and day counts ignore users, so a message with no user still counts toward its day |
| SlackReport.InsertDesc | generate_slack_report.py:136 | inserting into a non-increasing list keeps it non-increasing and adds exactly that item |
| SlackReport.InsertDescKeepsTies | generate_slack_report.py:136 | the inserted item lands behind every item of equal count |
| SlackReport.SortDesc | generate_slack_report.py:136 | the descending sort yields the same items with non-increasing counts, and items of equal count keep their first-seen order |
| SlackReport.StableOrderExample | generate_slack_report.py:136 | U1:1, U2:2, U3:1 sort to U2:2, U1:1, U3:1 |
| SlackReport.DisplayName | generate_slack_report.py:122 | a known id shows its mapped name, and any other id shows itself |
| SlackReport.UserRows | generate_slack_report.py:136 | one user row per counted user, in non-increasing count order |
| SlackReport.RenderRows | generate_slack_report.py:135-138 | the user rows are ordered by falling count; the day rows are the day counts, strictly ascending by date key |
| SlackReport.UserRowsAreCountedUsers | generate_slack_report.py:121-136 | every counted user has a row showing its display name and count, and every row comes from a counted user |
| Text.Strip | territory_status_summary.py:38 | the stripped text is the infix left after cutting leading and trailing whitespace; it has no whitespace at either end and is empty iff the text is all whitespace |
| Text.StripSkipsSpace | territory_status_summary.py:40 | leading whitespace never changes the strip |
| Text.FirstIndexOf | territory_status_summary.py:46-47 | the position found holds the character and no earlier position does; none iff the character is absent |
| Text.Lower | territory_status_summary.py:48 | lowering keeps the length and folds each ASCII capital to its small letter |
| Text.ParseIntRoundTrip | territory_status_summary.py:51 | `int(str(n)) == n` |
| Text.IntOfTextRoundTrip | territory_status_summary.py:71 | `int()` on any integer's text, with its own whitespace rule, gives back that integer |
| Text.IntOfTextAgreesWithStrip | territory_status_summary.py:71 | whenever `int()` accepts text, its value is the integer that the text's `strip()` spells |
| Text.IntRejectsSeparator | territory_status_summary.py:71 | `int()` rejects text led by U+001C, although `strip()` removes that character and leaves the integer 5 |
| Text.IntSkipsUnicodeSpace | territory_status_summary.py:71 | `int()` skips a no-break space and a line feed around the digits |
| Text.IntTextShape | preprocess.py:8 | the text of an integer is an optional minus sign and then ASCII digits |
| Text.ParseDecimalOfInt | preprocess.py:38 | the numeric reading of an integer's text is that integer |
| StrOrder.LessIrreflexive | generate_slack_report.py:137 | no string sorts before itself |
| StrOrder.LessTotal | generate_slack_report.py:137 | any two distinct strings are ordered one way or the other |
| StrOrder.LessTransitive | generate_slack_report.py:137 | string order is transitive |
| StrOrder.SortByKey | generate_slack_report.py:137 | sorting items with distinct keys yields the same items with strictly ascending keys |

## Left out

- File, URL and Slack I/O. This covers `fetch_from_url`, `read_from_file`, `save_to_excel`, `fetch_messages`, `get_user_name` and the `main` functions. The rows come in as parameters, and the user-name map is a parameter.
- JSON decoding in the territory summariser. `load_data` tries `json.loads` first. Its result is the parameter `decoded` of `Territory.LoadFeed`: `None` when it raises `JSONDecodeError`, otherwise the decoded value. Only text that `json.loads` rejects reaches `parse_raw_text`. Text it accepts never does: "{}" gives "No district data found", and a bare number, string, list, boolean or null raises `AttributeError` at `data.get`. A "districts" entry that is not a list of objects is not modelled. The `Value` type stands for the JSON values a counter can hold, including the non-finite floats that `json.loads` reads from `NaN`, `Infinity`, `-Infinity` or an out-of-range literal. A finite float is an exact real, so the rounding of a float literal is not modelled.
- CSV reading and pandas type inference. Cells arrive already typed as missing, integer, real or text; the POI analyser's `created_by` column is always text. Boolean cells and date parsing are not modelled: timestamps are whole seconds, given as parameters.
- Floating point. Scores, means, rates and percentages are exact reals. `round(x, 2)` in the territory output is not applied. The analyser's standard deviation is kept as the variance, because there is no square root.
- PoiAnalyzer.GroupKeys: the `created_by` column is taken as text, so the surveyors are ordered by code point. Had pandas read the column as numbers, `groupby` would order them numerically (9 before 10, where text puts "10" before "9").
- Territory.CounterValueSpec: integers have no size limit. Python 3.11 and later make `int()` raise ValueError on text of more than 4300 digits, which the model reads as the integer. In the raw-text parser (territory_status_summary.py:50-53) such a value becomes 0 in Python.
- Text.ParseIntRoundTrip: holds for every integer here; in Python 3.11 and later `str(n)` raises ValueError once `n` has more than 4300 digits, and so does `int()` on such text.
- Text.IntOfTextRoundTrip: holds for every integer here, for the same reason; Python 3.11 and later raise ValueError on more than 4300 digits.
- PoiAnalyzer.SampleVariance: states the variance rather than the standard deviation `std()` returns, because square roots are not modelled.
- Local time zones. `datetime.fromtimestamp(float(ts)).strftime(...)` is the `dayOf` parameter of `ComputeStats`; it is `None` where the conversion raises.
- HTML rendering. The Jinja template, CSS and bar heights (`count * 10`px) are left out; the model stops at the rows the template is given.
- Text parsers. `int()` accepts only ASCII digits; Unicode decimal digits are left out. The decimal reader accepts no exponent, `inf` or `nan` text, and no surrounding whitespace. `lower()` is ASCII lowering, which decides the same matches here: every synonym and "missing" is ASCII and contains no letter that a non-ASCII capital lowers to.
- Duplicate column names after stripping. The Name column is taken to be the first one so named.
- The model-training, prediction, dashboard and `poi_analyzer_final.py` scripts. They are callers or consumers of the modelled core, not part of it.
