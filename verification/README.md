# stress-test summary: a Dafny model

This project models the decision logic of `postprocessing/summary.py`, the
report step of a node stress test. The script scans a directory of stress-ng logs
written on cluster nodes and reports, per log, the node, the scheduler job id
and the stress-ng outcome. Its logic has four parts, each a Dafny module:

- `Text` (`text.dfy`): the Python string operations the script uses. These are
  ASCII `str.lower`, substring membership `needle in hay`, `str.endswith`, and
  `str.split` on one character. `Join` is the partner of `Split`.
- `LogName` (`logname.dfy`): `jobID, nodename = filename.split("_")` followed
  by `nodename.split(".")[0]`. The result is `None` when the tuple unpack would
  raise.
- `Classifier` (`classifier.dfy`): the lower-cased text is searched for
  `run completed in`, then `unsuccessful run completed`, then `failed: 0`. The
  result is `Option<Status>`; `None` is the completed run that matches neither
  outcome marker, for which the script appends nothing.
- `DateFormat` (`dateformat.dfy`): the anchored regular expression
  `^\d{4}-\d{2}-\d{2}$`, as a small matcher over an expanded atom pattern.
- `Summary` (`summary.dfy`): the directory loop, as a fold over a given
  sequence of (file name, text) pairs that fills the three lists `node_list`,
  `jobID_list` and `stressng_status_list`. It also models the index-based
  pairing of those lists done by the printing loop, and a corrected
  record-per-file variant.

The directory listing, file reading and the table's text formatting are not
modelled. The listing arrives as a `seq<LogFile>` in `os.listdir` order. A
file's text is its contents after decoding. An uncaught `ValueError` from the
tuple unpack becomes `Err(UnpackError(name))`, which stops the fold just as
the exception ends the script.

Facts about `summary.py` that the model keeps:
- `summary.py` has no runtime, temperature or gpu-burn extraction, no pairing
  of secondary logs, and no skipping of empty files.
- A `.out` file name must split on `_` into exactly two fields. Extra fields
  make the script crash; they are not ignored. Other file names are never split.
- The job id is kept as text, not as a number.
- A completed run with neither outcome marker records no status. It is not
  classified as incomplete.
- Nothing in the loop absorbs errors: a bad `.out` name aborts the run.

## Model

| member | source | states |
|---|---|---|
| Text.Lower | postprocessing/summary.py:84 | `all_text.lower()` on ASCII letters; `Text.LowerIdempotent` and `Text.LowerAppend` state its laws, and `Classifier.ClassifyIgnoresCase` its effect on the status |
| Text.Contains | postprocessing/summary.py:84 | the `in` test on strings; `Text.Find` states that the scan for a first occurrence decides it |
| Text.EndsWith | postprocessing/summary.py:70 | `filename.endswith(".out")`; `Summary.OnlyStressNgLogsMatter` states that names failing it do not matter |
| Text.Find | postprocessing/summary.py:84 | the substring scan behind `in` reports a hit exactly when the needle occurs, at the first index where it starts |
| Text.Split | postprocessing/summary.py:76 | `str.split` on one character gives one more field than the string has separators |
| Text.SplitFields | postprocessing/summary.py:76-77 | no field of a split holds the separator, and joining the fields with it gives the original string back |
| Text.SplitJoin | postprocessing/summary.py:76 | splitting the join of separator-free fields gives those fields back |
| Text.SplitFirstField | postprocessing/summary.py:77 | `split(".")[0]` is a prefix of the string and is either all of it or stops just before its first `.` |
| Text.LowerIdempotent | postprocessing/summary.py:84 | lower-casing an already lower-cased text changes nothing |
| Text.LowerAppend | postprocessing/summary.py:84 | lower-casing distributes over concatenation |
| LogName.ParseLogName | postprocessing/summary.py:76-77 | the name splits into (job id, host) exactly when it contains exactly one `_` |
| LogName.ParseLogNameShape | postprocessing/summary.py:76-77 | on success the name is job id + `_` + tail, the job id has no `_`, and the host is the tail up to its first `.` and holds no `.` |
| LogName.ParseLogNameOf | postprocessing/summary.py:76-77 | a name built as job id, `_`, host, then empty or `.`-led suffix (e.g. `12345_node01.rc.fas.harvard.edu.out`) parses back to that job id and host |
| Classifier.Classify | postprocessing/summary.py:84-101 | the nested marker tests of the loop body, with `Classifier.Status.Label` giving the strings appended at lines 88, 97 and 101; `Classifier.ClassifyOutcomes` states each outcome as an if-and-only-if over the markers |
| Classifier.ClassifyOutcomes | postprocessing/summary.py:84-101 | incomplete iff no `run completed in`; failed iff completion and `unsuccessful run completed`; success iff completion, no failure marker and `failed: 0`; nothing iff completion and neither marker |
| Classifier.ClassifyIgnoresCase | postprocessing/summary.py:84-90 | a text and its lower-cased form get the same status |
| Classifier.UnsuccessfulLineMeansFailed | postprocessing/summary.py:84-88 | any text holding `unsuccessful run completed in`, in any case, is failed whatever else it contains, including `failed: 0` |
| Classifier.UnsuccessfulAloneIsIncomplete | postprocessing/summary.py:99-101 | `Unsuccessful run completed` without a following ` in` is not a completion marker, so the run is incomplete |
| Classifier.ClassifyStableUnderAppend | postprocessing/summary.py:84-88 | appending text to a log never turns a complete run back into an incomplete one, and never turns failed into anything else |
| Classifier.BareCompletionIsUnrecorded | postprocessing/summary.py:89-97 | `run completed in 60.00s` alone reaches the fall-through branch and yields no status |
| DateFormat.IsRunDate | postprocessing/summary.py:34 | `re.match(r"^\d{4}-\d{2}-\d{2}$", run_date)`; `DateFormat.IsRunDateShape` states exactly which strings it accepts |
| DateFormat.DatePatternShape | postprocessing/summary.py:34 | the expanded `\d{4}-\d{2}-\d{2}` matches exactly the ten-character strings with `-` at indices 4 and 7 and digits elsewhere |
| DateFormat.IsRunDateShape | postprocessing/summary.py:34 | the anchored check accepts that shape, and that shape followed by one newline as Python's `$` allows, and nothing else |
| DateFormat.AcceptsExampleDate | postprocessing/summary.py:35 | `2025-01-23`, the example in the error message, is accepted |
| DateFormat.RejectsUnpaddedMonth | postprocessing/summary.py:34-35 | `2025-1-23` is rejected |
| Summary.Scan | postprocessing/summary.py:70-101 | the loop body's tests on one file: skipped, unpack error, or parsed name with verdict; `Summary.SummarizeContents` and `Summary.SummarizeStops` state their effect on the whole loop |
| Summary.AddEntry | postprocessing/summary.py:76-101 | the loop body's appends for one scanned file; `Summary.CollectMeaning` states what the appends build up |
| Summary.Collect | postprocessing/summary.py:57-101 | the loop from three empty lists, stopping at the first unpack error; `Summary.CollectMeaning` states its result |
| Summary.Summarize | postprocessing/summary.py:57-101 | the whole directory pass; `Summary.SummarizeSucceeds`, `Summary.SummarizeContents`, `Summary.SummarizeStops` and `Summary.SummaryLengths` state its meaning in terms of the `.out` files |
| Summary.CollectMeaning | postprocessing/summary.py:69-101 | the fold succeeds iff no entry has a bad name; on success the lists describe the kept entries in order; on failure the error is the first bad name |
| Summary.OnlyStressNgLogsMatter | postprocessing/summary.py:69-70 | files whose names do not end in `.out` have no effect on the outcome |
| Summary.SummarizeSucceeds | postprocessing/summary.py:69-76 | the loop finishes iff every `.out` file name splits into exactly two fields |
| Summary.SummarizeContents | postprocessing/summary.py:69-101 | after the loop, `nodes[k]` and `jobIds[k]` are the host and job id parsed from the k-th `.out` file, and the statuses are those of the classified `.out` files, in order |
| Summary.SummarizeStops | postprocessing/summary.py:69-76 | when the loop aborts, the error names the first `.out` file whose name does not split |
| Summary.SummaryLengths | postprocessing/summary.py:69-101 | node and job lists both have one entry per `.out` file, the status list is no longer, and it is equally long iff no completed log fell through both markers |
| Summary.StatusTable | postprocessing/summary.py:121-122 | rows are printed while all three lists have an entry at index i, each row pairing the three lists' i-th entries, and the first index missing from a list is where `IndexError` stops the loop |
| Summary.StatusTableMeaning | postprocessing/summary.py:121-133 | the printing loop raises `IndexError` iff some `.out` log fell through, at the row equal to the number of statuses; each printed row k shows the k-th file's host and job id beside the k-th recorded status, which is the k-th file's own when nothing fell through |
| Summary.UnrecordedLogBreaksTable | postprocessing/summary.py:89-122 | one `.out` log that fell through yields one node, one job id, no status, and an `IndexError` at row 0 before any row is printed |
| Summary.FallThroughBreaksTable | postprocessing/summary.py:121-122 | the directory holding only `1_node01.out` with `run completed in 60.00s` gives lists `["node01"]`, `["1"]`, `[]` and a table that fails at row 0 |
| Summary.ShiftedStatusRow | postprocessing/summary.py:84-122 | a fall-through log listed before a classified one gives two nodes and one status; the one printed row shows the first file's node and job id beside the second file's status, and `IndexError` follows at row 1 |
| Summary.SummarizeRecords | postprocessing/summary.py:69-101 | the loop keeping one record per `.out` file with its own optional status; `Summary.SummarizeRecordsMeaning` states its meaning |
| Summary.CollectIsFlattenedRecords | postprocessing/summary.py:69-101 | the three-list fold equals the record fold with its records' hosts, job ids and present statuses read off, and both stop on the same bad name |
| Summary.SummarizeRecordsMeaning | postprocessing/summary.py:69-101 | the corrected loop stops exactly when the original does, with the same unpack error; otherwise record k carries the k-th `.out` file's host, job id and own verdict, and the original lists are these records flattened |

## Left out

- Argument parsing, the `-g` debug flag and `parser.error` exits (`summary.py:13-31`, 35, 41) are command-line plumbing. Only the shape test of the date is modelled, as `DateFormat.IsRunDate`.
- DateFormat.IsRunDate: accepts only ASCII digits for `\d`. Python's `\d` also matches other Unicode decimal digits.
- Calendar validity through `datetime.strptime` (`summary.py:38-41`) is a library call and is not modelled.
- Path composition, `os.listdir`, `open` and decoding with `errors="ignore"` (`summary.py:44-45`, 69-73, 81) are file-system I/O. The listing is an input sequence, in listing order, and each text is already decoded.
- Text.Lower: models Python's Unicode-aware `str.lower` as ASCII lower-casing. All markers are lower-case ASCII.
- Debug prints, the banner lines and the fixed-width `printf` formatting (`summary.py:47-49`, 72, 87, 96, 100, 103, 116-135) are output only. The index pairing of the three lists in the printing loop is modelled, as `Summary.StatusTable`.
- The gpu-burn part (`summary.py:60-61`, 105-109, 127-135) is only an empty list and an empty section. Its printing loop repeats the stress-ng columns, so it has no logic of its own.

## Findings

| source | as written | input that shows it | evidently intended | confidence | as-written member | corrected member |
|---|---|---|---|---|---|---|
| postprocessing/summary.py:89-97 | a completed log with neither `unsuccessful run completed` nor `failed: 0` appends its node and job id but no status, so the status list falls behind. The printing loop at lines 121-122 then always raises `IndexError` at row `len(stressng_status_list)`, after printing rows that can show a later file's status beside an earlier file's node (`Summary.ShiftedStatusRow`) | `1_node01.out` containing `run completed in 60.00s` (fails at row 0); that file listed before a classified one (row 0 shows the second file's status) | every `.out` file contributes exactly one status entry, so row k of the table shows the k-th file's own outcome | medium; not executed | Summary.FallThroughBreaksTable | Summary.SummarizeRecordsMeaning |
