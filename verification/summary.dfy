/** The pass over the output directory: every `.out` log contributes its host
    and job id to two parallel lists and, when its text is classified, a
    status to a third. */
module Summary {
  import opened Wrappers
  import opened Text
  import opened LogName
  import opened Classifier

  /** One directory entry: its file name and its decoded text. */
  datatype LogFile = LogFile(name: string, text: string)

  /** The three lists the script accumulates, in directory order. */
  datatype Lists = Lists(nodes: seq<string>, jobIds: seq<string>, statuses: seq<Status>)

  /** The `ValueError` raised when a `.out` file name does not split into
      exactly two fields; nothing catches it, so the whole run stops. */
  datatype SummaryError = UnpackError(name: string)

  /** Only file names ending in `.out` are read. */
  predicate IsStressNgLog(f: LogFile) {
    EndsWith(f.name, ".out")
  }

  /** What the loop body makes of one directory entry: a file that is not
      a `.out` log is skipped, a `.out` name that does not split stops the
      run, and otherwise the run's name and the text's verdict are kept. */
  datatype Entry = Skipped | BadName(name: string) | Parsed(run: RunName, verdict: Option<Status>)

  /** The tests of the loop body for one file. */
  function Scan(f: LogFile): Entry {
    if !IsStressNgLog(f) then Skipped
    else
      match ParseLogName(f.name)
      case None => BadName(f.name)
      case Some(run) => Parsed(run, Classify(f.text))
  }

  /** The appends of the loop body for one scanned file: host and job id
      always, the status only when there is one. */
  function AddEntry(acc: Lists, e: Entry): Result<Lists, SummaryError> {
    match e
    case Skipped => Ok(acc)
    case BadName(name) => Err(UnpackError(name))
    case Parsed(run, verdict) =>
      var acc' := acc.(nodes := acc.nodes + [run.host], jobIds := acc.jobIds + [run.jobId]);
      match verdict
      case None => Ok(acc')
      case Some(status) => Ok(acc'.(statuses := acc'.statuses + [status]))
  }

  /** The loop over scanned files, from three empty lists; the first unpack
      error ends it. */
  function Collect(entries: seq<Entry>): Result<Lists, SummaryError> {
    if |entries| == 0 then Ok(Lists([], [], []))
    else
      match Collect(entries[..|entries| - 1])
      case Err(e) => Err(e)
      case Ok(acc) => AddEntry(acc, entries[|entries| - 1])
  }

  /** Each file scanned, in order. */
  function Scans(files: seq<LogFile>): (entries: seq<Entry>)
    ensures |entries| == |files|
  {
    seq(|files|, i requires 0 <= i < |files| => Scan(files[i]))
  }

  /** The whole directory loop over the listed files. */
  function Summarize(files: seq<LogFile>): Result<Lists, SummaryError> {
    Collect(Scans(files))
  }

  // ---------------------------------------------------------------------
  // Reference description of the loop's outcome
  // ---------------------------------------------------------------------

  /** The `.out` files, in order. */
  function StressNgLogs(files: seq<LogFile>): (logs: seq<LogFile>)
    ensures |logs| <= |files|
  {
    if |files| == 0 then []
    else
      var last := files[|files| - 1];
      StressNgLogs(files[..|files| - 1]) + (if IsStressNgLog(last) then [last] else [])
  }

  /** The entries that are not skipped, in order. */
  function Kept(entries: seq<Entry>): (kept: seq<Entry>)
    ensures |kept| <= |entries|
    ensures forall k :: 0 <= k < |kept| ==> !kept[k].Skipped?
  {
    if |entries| == 0 then []
    else
      var last := entries[|entries| - 1];
      Kept(entries[..|entries| - 1]) + (if last.Skipped? then [] else [last])
  }

  /** The verdict of each entry, in order (`None` for an entry without one). */
  function VerdictsOf(entries: seq<Entry>): (v: seq<Option<Status>>)
    ensures |v| == |entries|
  {
    seq(|entries|, k requires 0 <= k < |entries| =>
      if entries[k].Parsed? then entries[k].verdict else None)
  }

  /** The statuses actually present among the verdicts, in order. */
  function Recorded(verdicts: seq<Option<Status>>): seq<Status> {
    if |verdicts| == 0 then []
    else
      var last := verdicts[|verdicts| - 1];
      Recorded(verdicts[..|verdicts| - 1]) + (if last.Some? then [last.value] else [])
  }

  /** No entry stops the loop. */
  predicate NoBadName(entries: seq<Entry>) {
    forall k :: 0 <= k < |entries| ==> !entries[k].BadName?
  }

  /** The lists hold, position by position, the host and job id of each
      parsed entry, and the present verdicts in order. */
  predicate Describes(s: Lists, parsed: seq<Entry>) {
    && |s.nodes| == |parsed|
    && |s.jobIds| == |parsed|
    && (forall k :: 0 <= k < |parsed| ==>
          parsed[k].Parsed? && parsed[k].run == RunName(s.jobIds[k], s.nodes[k]))
    && s.statuses == Recorded(VerdictsOf(parsed))
  }

  /** The loop succeeds exactly when no entry has a bad name; it then
      describes the entries that were not skipped, and otherwise it stops at
      the first bad name. */
  lemma {:induction false} CollectMeaning(entries: seq<Entry>)
    ensures Collect(entries).Ok? <==> NoBadName(entries)
    ensures Collect(entries).Ok? ==> Describes(Collect(entries).value, Kept(entries))
    ensures Collect(entries).Err? ==>
      exists k :: 0 <= k < |entries| && entries[k] == BadName(Collect(entries).error.name) && NoBadName(entries[..k])
  {
    if |entries| > 0 {
      var pre := entries[..|entries| - 1];
      var e := entries[|entries| - 1];
      CollectMeaning(pre);
      if Collect(pre).Err? {
        var k :| 0 <= k < |pre| && pre[k] == BadName(Collect(pre).error.name) && NoBadName(pre[..k]);
        assert entries[..k] == pre[..k];
      } else {
        var kept := Kept(pre);
        if e.BadName? {
          assert entries[..|pre|] == pre;
        } else if e.Parsed? {
          assert Kept(entries) == kept + [e];
          DescribesStep(Collect(pre).value, kept, e);
        } else {
          assert Kept(entries) == kept;
        }
      }
    }
  }

  /** Appending a parsed entry to lists that describe some entries gives
      lists that describe those entries followed by the new one. */
  lemma DescribesStep(acc: Lists, parsed: seq<Entry>, e: Entry)
    requires Describes(acc, parsed) && e.Parsed?
    ensures AddEntry(acc, e).Ok? && Describes(AddEntry(acc, e).value, parsed + [e])
  {
    var all := parsed + [e];
    var s := AddEntry(acc, e).value;
    assert s.nodes == acc.nodes + [e.run.host];
    assert s.jobIds == acc.jobIds + [e.run.jobId];
    assert VerdictsOf(all)[..|parsed|] == VerdictsOf(parsed);
    assert s.statuses == Recorded(VerdictsOf(all));
    forall k | 0 <= k < |all|
      ensures all[k].Parsed? && all[k].run == RunName(s.jobIds[k], s.nodes[k])
    {
      if k < |parsed| {
        assert all[k] == parsed[k];
      }
    }
  }

  /** Scanning keeps exactly the `.out` files. */
  lemma {:induction false} KeptScans(files: seq<LogFile>)
    ensures Kept(Scans(files)) == Scans(StressNgLogs(files))
  {
    if |files| > 0 {
      var pre := files[..|files| - 1];
      var f := files[|files| - 1];
      KeptScans(pre);
      assert pre + [f] == files;
      ScansAppend(pre, f);
      assert Kept(Scans(files)) == Kept(Scans(pre)) + (if Scan(f).Skipped? then [] else [Scan(f)]) by {
        assert Scans(files)[..|pre|] == Scans(pre);
      }
      ScansAppend(StressNgLogs(pre), f);
    }
  }

  /** Scanning one more file appends one more entry. */
  lemma ScansAppend(files: seq<LogFile>, f: LogFile)
    ensures Scans(files + [f]) == Scans(files) + [Scan(f)]
  {
  }

  /** Skipped entries leave the lists alone. */
  lemma {:induction false} CollectKept(entries: seq<Entry>)
    ensures Collect(entries) == Collect(Kept(entries))
  {
    if |entries| > 0 {
      var pre := entries[..|entries| - 1];
      var e := entries[|entries| - 1];
      CollectKept(pre);
      if !e.Skipped? {
        var kept := Kept(pre) + [e];
        assert Kept(entries) == kept;
        assert kept[..|kept| - 1] == Kept(pre);
      } else {
        assert Kept(entries) == Kept(pre);
      }
    }
  }

  /** Entries none of which is skipped are all kept. */
  lemma {:induction false} KeptNoneSkipped(entries: seq<Entry>)
    requires forall k :: 0 <= k < |entries| ==> !entries[k].Skipped?
    ensures Kept(entries) == entries
  {
    if |entries| > 0 {
      var pre := entries[..|entries| - 1];
      KeptNoneSkipped(pre);
      assert pre + [entries[|entries| - 1]] == entries;
    }
  }

  /** Every file `StressNgLogs` keeps is a `.out` file from the listing. */
  lemma {:induction false} StressNgLogsAreLogs(files: seq<LogFile>)
    ensures forall k :: 0 <= k < |StressNgLogs(files)| ==>
      IsStressNgLog(StressNgLogs(files)[k]) && StressNgLogs(files)[k] in files
  {
    if |files| > 0 {
      var pre := files[..|files| - 1];
      StressNgLogsAreLogs(pre);
      forall k | 0 <= k < |StressNgLogs(pre)|
        ensures StressNgLogs(pre)[k] in files
      {
        assert StressNgLogs(pre)[k] in pre;
      }
    }
  }

  /** Dropping the directory entries that are not `.out` files changes
      nothing: the loop's outcome depends on the `.out` files alone. */
  lemma OnlyStressNgLogsMatter(files: seq<LogFile>)
    ensures Summarize(files) == Summarize(StressNgLogs(files))
  {
    CollectKept(Scans(files));
    KeptScans(files);
  }

  /** At most one status per verdict, and one for each exactly when every
      verdict is present. */
  lemma {:induction false} RecordedLength(verdicts: seq<Option<Status>>)
    ensures |Recorded(verdicts)| <= |verdicts|
    ensures |Recorded(verdicts)| == |verdicts| <==> forall k :: 0 <= k < |verdicts| ==> verdicts[k].Some?
  {
    if |verdicts| > 0 {
      var pre := verdicts[..|verdicts| - 1];
      RecordedLength(pre);
      if |Recorded(verdicts)| == |verdicts| {
        forall k | 0 <= k < |verdicts|
          ensures verdicts[k].Some?
        {
          if k < |pre| {
            assert verdicts[k] == pre[k];
          }
        }
      }
    }
  }

  /** When every verdict is present, the recorded statuses are the verdicts'
      values position by position. */
  lemma {:induction false} RecordedAllPresent(verdicts: seq<Option<Status>>)
    requires forall k :: 0 <= k < |verdicts| ==> verdicts[k].Some?
    ensures |Recorded(verdicts)| == |verdicts|
    ensures forall k :: 0 <= k < |verdicts| ==> Recorded(verdicts)[k] == verdicts[k].value
  {
    RecordedLength(verdicts);
    if |verdicts| > 0 {
      var pre := verdicts[..|verdicts| - 1];
      RecordedAllPresent(pre);
    }
  }

  // ---------------------------------------------------------------------
  // The loop's outcome in terms of the `.out` files
  // ---------------------------------------------------------------------

  /** The verdict on each log's text, in order. */
  function Verdicts(logs: seq<LogFile>): (v: seq<Option<Status>>)
    ensures |v| == |logs|
  {
    seq(|logs|, k requires 0 <= k < |logs| => Classify(logs[k].text))
  }

  /** Every log's name splits into a job id and a host. */
  predicate NamesParse(logs: seq<LogFile>) {
    forall k :: 0 <= k < |logs| ==> ParseLogName(logs[k].name).Some?
  }

  /** `name` is the first log name, in order, that does not split. */
  predicate FirstBadName(logs: seq<LogFile>, name: string) {
    exists k ::
      && 0 <= k < |logs|
      && logs[k].name == name
      && ParseLogName(name).None?
      && NamesParse(logs[..k])
  }

  /** A `.out` file whose scan is the first bad one carries the first name
      that does not split. */
  lemma FirstBadScan(logs: seq<LogFile>, k: nat, name: string)
    requires forall j :: 0 <= j < |logs| ==> IsStressNgLog(logs[j])
    requires k < |logs| && Scans(logs)[k] == BadName(name)
    requires NoBadName(Scans(logs)[..k])
    ensures FirstBadName(logs, name)
  {
    var entries := Scans(logs);
    assert logs[k].name == name;
    forall j | 0 <= j < k
      ensures ParseLogName(logs[..k][j].name).Some?
    {
      assert entries[..k][j] == entries[j];
      assert logs[..k][j] == logs[j];
    }
  }

  /** The loop's outcome is the fold over the scans of the `.out` files
      alone, none of which is skipped. */
  lemma LogEntries(files: seq<LogFile>)
    ensures var logs := StressNgLogs(files);
      && Summarize(files) == Collect(Scans(logs))
      && Kept(Scans(logs)) == Scans(logs)
      && forall k :: 0 <= k < |logs| ==> IsStressNgLog(logs[k])
  {
    var logs := StressNgLogs(files);
    OnlyStressNgLogsMatter(files);
    StressNgLogsAreLogs(files);
    KeptNoneSkipped(Scans(logs));
  }

  /** The loop finishes exactly when every `.out` name splits into two
      fields. */
  lemma SummarizeSucceeds(files: seq<LogFile>)
    ensures Summarize(files).Ok? <==> NamesParse(StressNgLogs(files))
  {
    var logs := StressNgLogs(files);
    var entries := Scans(logs);
    LogEntries(files);
    CollectMeaning(entries);
    forall k | 0 <= k < |logs|
      ensures entries[k].BadName? <==> ParseLogName(logs[k].name).None?
    {
      assert entries[k] == Scan(logs[k]);
    }
  }

  /** A finished loop holds, for the `k`-th `.out` file, that file's host at
      `nodes[k]` and its job id at `jobIds[k]`, and the statuses of the
      classified `.out` files in order. */
  lemma SummarizeContents(files: seq<LogFile>)
    requires Summarize(files).Ok?
    ensures var logs := StressNgLogs(files);
      var s := Summarize(files).value;
      && |s.nodes| == |logs| && |s.jobIds| == |logs|
      && (forall k :: 0 <= k < |logs| ==>
            ParseLogName(logs[k].name) == Some(RunName(s.jobIds[k], s.nodes[k])))
      && s.statuses == Recorded(Verdicts(logs))
  {
    var logs := StressNgLogs(files);
    var entries := Scans(logs);
    LogEntries(files);
    CollectMeaning(entries);
    assert VerdictsOf(entries) == Verdicts(logs);
  }

  /** A loop that stops names the first `.out` file whose name does not
      split. */
  lemma SummarizeStops(files: seq<LogFile>)
    requires Summarize(files).Err?
    ensures FirstBadName(StressNgLogs(files), Summarize(files).error.name)
  {
    var logs := StressNgLogs(files);
    var entries := Scans(logs);
    LogEntries(files);
    CollectMeaning(entries);
    var name := Collect(entries).error.name;
    var k :| 0 <= k < |entries| && entries[k] == BadName(name) && NoBadName(entries[..k]);
    FirstBadScan(logs, k, name);
  }

  /** Each `.out` file adds exactly one node and one job id and at most one
      status, so the node and job lists have the same length and the status
      list is never longer; it is as long exactly when no completed log
      fell through both outcome markers. */
  lemma SummaryLengths(files: seq<LogFile>)
    requires Summarize(files).Ok?
    ensures var s := Summarize(files).value;
      var logs := StressNgLogs(files);
      && |s.nodes| == |s.jobIds| == |logs| >= |s.statuses|
      && (|s.statuses| == |s.nodes| <==>
            forall k :: 0 <= k < |logs| ==> Classify(logs[k].text).Some?)
  {
    var logs := StressNgLogs(files);
    var v := Verdicts(logs);
    SummarizeContents(files);
    RecordedLength(v);
    assert forall k :: 0 <= k < |logs| ==> v[k] == Classify(logs[k].text);
  }

  // ---------------------------------------------------------------------
  // The printed table, and the records that keep statuses aligned
  // ---------------------------------------------------------------------

  /** One printed line: node, job id and status label. */
  datatype Row = Row(node: string, jobId: string, status: string)

  /** What the printing loop leaves behind: the rows printed, in order, and
      the index at which `IndexError` stopped it, if one did. */
  datatype Printout = Printout(rows: seq<Row>, failedAt: Option<nat>)

  /** The printing loop `for i in range(len(node_list))`, which indexes the
      job and status lists by the same `i`: rows are printed while all three
      lists have an entry at `i`, and the first `i` missing from one of them
      raises `IndexError`. */
  function StatusTable(s: Lists): (p: Printout)
    ensures |p.rows| <= |s.nodes| && |p.rows| <= |s.jobIds| && |p.rows| <= |s.statuses|
    ensures |p.rows| == |s.nodes| || |p.rows| == |s.jobIds| || |p.rows| == |s.statuses|
    ensures p.failedAt.None? <==> |p.rows| == |s.nodes|
    ensures p.failedAt.Some? ==> p.failedAt.value == |p.rows|
    ensures forall i :: 0 <= i < |p.rows| ==>
      p.rows[i] == Row(s.nodes[i], s.jobIds[i], s.statuses[i].Label())
  {
    var n := |s.nodes|;
    var m := if |s.jobIds| < n then |s.jobIds| else n;
    var m := if |s.statuses| < m then |s.statuses| else m;
    Printout(
      seq(m, i requires 0 <= i < m => Row(s.nodes[i], s.jobIds[i], s.statuses[i].Label())),
      if m < n then Some(m) else None)
  }

  /** Printing the lists of a finished loop stops with `IndexError` exactly
      when some completed log fell through both outcome markers, at the row
      equal to the number of statuses recorded. Row `k` shows the host and
      job id of the `k`-th `.out` file beside the `k`-th recorded status, and
      when nothing stops the loop that status is the `k`-th file's own. */
  lemma StatusTableMeaning(files: seq<LogFile>)
    requires Summarize(files).Ok?
    ensures var logs := StressNgLogs(files);
      var s := Summarize(files).value;
      var table := StatusTable(s);
      && (table.failedAt.Some? <==> exists k :: 0 <= k < |logs| && Classify(logs[k].text).None?)
      && (table.failedAt.Some? ==> table.failedAt.value == |s.statuses|)
      && |table.rows| == |s.statuses| <= |logs|
      && (forall k :: 0 <= k < |table.rows| ==>
            && ParseLogName(logs[k].name) == Some(RunName(table.rows[k].jobId, table.rows[k].node))
            && table.rows[k].status == s.statuses[k].Label())
      && (table.failedAt.None? ==> |table.rows| == |logs| && forall k :: 0 <= k < |logs| ==>
            table.rows[k].status == Classify(logs[k].text).value.Label())
  {
    var logs := StressNgLogs(files);
    SummarizeContents(files);
    SummaryLengths(files);
    if forall k :: 0 <= k < |logs| ==> Classify(logs[k].text).Some? {
      RecordedAllPresent(Verdicts(logs));
    }
  }

  /** A single `.out` log of a completed run that names neither outcome:
      the loop records its node and job id but no status, and printing the
      table then raises `IndexError` on the very first row. */
  lemma UnrecordedLogBreaksTable(f: LogFile)
    requires IsStressNgLog(f) && ParseLogName(f.name).Some? && Classify(f.text).None?
    ensures var run := ParseLogName(f.name).value;
      Summarize([f]) == Ok(Lists([run.host], [run.jobId], []))
    ensures StatusTable(Summarize([f]).value) == Printout([], Some(0))
  {
    var run := ParseLogName(f.name).value;
    var entries := Scans([f]);
    assert entries == [Parsed(run, None)];
    assert entries[..0] == [];
    var empty := Lists([], [], []);
    assert Collect(entries[..0]) == Ok(empty);
    assert empty.nodes + [run.host] == [run.host];
    assert empty.jobIds + [run.jobId] == [run.jobId];
    assert AddEntry(empty, Parsed(run, None)) == Ok(Lists([run.host], [run.jobId], []));
  }

  /** The smallest such directory: `1_node01.out` holding only
      `run completed in 60.00s`. */
  lemma FallThroughBreaksTable(f: LogFile)
    requires f == LogFile("1_node01.out", "run completed in 60.00s")
    ensures Summarize([f]) == Ok(Lists(["node01"], ["1"], []))
    ensures StatusTable(Summarize([f]).value) == Printout([], Some(0))
  {
    var run := RunName("1", "node01");
    assert IsStressNgLog(f);
    assert ParseLogName(f.name) == Some(run) by {
      assert LogNameOf(run, ".out") == f.name;
      ParseLogNameOf(run, ".out");
    }
    BareCompletionIsUnrecorded(f.text);
    UnrecordedLogBreaksTable(f);
  }

  /** A log that fell through, listed before a classified one: the second
      file's status is recorded first, so the first printed row shows the
      first file's node and job id beside the second file's status, and the
      next row raises `IndexError`. */
  lemma ShiftedStatusRow(a: LogFile, b: LogFile)
    requires IsStressNgLog(a) && ParseLogName(a.name).Some? && Classify(a.text).None?
    requires IsStressNgLog(b) && ParseLogName(b.name).Some? && Classify(b.text).Some?
    ensures var ra := ParseLogName(a.name).value;
      var rb := ParseLogName(b.name).value;
      var st := Classify(b.text).value;
      && Summarize([a, b]) == Ok(Lists([ra.host, rb.host], [ra.jobId, rb.jobId], [st]))
      && StatusTable(Summarize([a, b]).value) == Printout([Row(ra.host, ra.jobId, st.Label())], Some(1))
  {
    var ra := ParseLogName(a.name).value;
    var rb := ParseLogName(b.name).value;
    var st := Classify(b.text).value;
    var entries := Scans([a, b]);
    assert entries == [Parsed(ra, None), Parsed(rb, Some(st))];
    UnrecordedLogBreaksTable(a);
    assert entries[..1] == Scans([a]);
    var one := Lists([ra.host], [ra.jobId], []);
    assert Collect(entries[..1]) == Ok(one);
    assert one.nodes + [rb.host] == [ra.host, rb.host];
    assert one.jobIds + [rb.jobId] == [ra.jobId, rb.jobId];
    assert one.statuses + [st] == [st];
    assert AddEntry(one, Parsed(rb, Some(st))) == Ok(Lists([ra.host, rb.host], [ra.jobId, rb.jobId], [st]));
  }

  /** What each `.out` file should contribute: its host and job id together
      with its own verdict, so that a missing status cannot shift the
      statuses of later files onto earlier nodes. */
  datatype RunRecord = RunRecord(host: string, jobId: string, status: Option<Status>)

  /** The loop body, keeping one record per `.out` file. */
  function AddRecord(acc: seq<RunRecord>, e: Entry): Result<seq<RunRecord>, SummaryError> {
    match e
    case Skipped => Ok(acc)
    case BadName(name) => Err(UnpackError(name))
    case Parsed(run, verdict) => Ok(acc + [RunRecord(run.host, run.jobId, verdict)])
  }

  /** The loop over scanned files, building records. */
  function CollectRecords(entries: seq<Entry>): Result<seq<RunRecord>, SummaryError> {
    if |entries| == 0 then Ok([])
    else
      match CollectRecords(entries[..|entries| - 1])
      case Err(e) => Err(e)
      case Ok(acc) => AddRecord(acc, entries[|entries| - 1])
  }

  /** The directory loop with one record per `.out` file. */
  function SummarizeRecords(files: seq<LogFile>): Result<seq<RunRecord>, SummaryError> {
    CollectRecords(Scans(files))
  }

  /** The three lists the script keeps, read off a sequence of records: the
      hosts, the job ids, and the statuses that are present. */
  function Flatten(records: seq<RunRecord>): (s: Lists)
    ensures |s.nodes| == |records| && |s.jobIds| == |records|
  {
    Lists(
      seq(|records|, k requires 0 <= k < |records| => records[k].host),
      seq(|records|, k requires 0 <= k < |records| => records[k].jobId),
      Recorded(seq(|records|, k requires 0 <= k < |records| => records[k].status)))
  }

  /** The list loop is the record loop with the records flattened: both
      stop at the same bad name, and otherwise the lists are exactly the
      records' hosts, job ids and present statuses. */
  lemma {:induction false} CollectIsFlattenedRecords(entries: seq<Entry>)
    ensures Collect(entries).Err? <==> CollectRecords(entries).Err?
    ensures Collect(entries).Err? ==> Collect(entries).error == CollectRecords(entries).error
    ensures Collect(entries).Ok? ==> Collect(entries).value == Flatten(CollectRecords(entries).value)
  {
    if |entries| > 0 {
      var pre := entries[..|entries| - 1];
      CollectIsFlattenedRecords(pre);
      if CollectRecords(pre).Ok? && entries[|entries| - 1].Parsed? {
        var records := CollectRecords(pre).value;
        var all := CollectRecords(entries).value;
        assert all[..|records|] == records;
        var statuses := seq(|all|, k requires 0 <= k < |all| => all[k].status);
        assert statuses[..|records|] == seq(|records|, k requires 0 <= k < |records| => records[k].status);
      }
    }
  }

  /** A finished record loop holds one record per kept entry, in order,
      carrying that entry's host, job id and verdict. */
  lemma {:induction false} CollectRecordsMeaning(entries: seq<Entry>)
    ensures CollectRecords(entries).Ok? ==>
      var records := CollectRecords(entries).value;
      var kept := Kept(entries);
      && |records| == |kept|
      && forall k :: 0 <= k < |kept| ==>
           kept[k].Parsed? && records[k] == RunRecord(kept[k].run.host, kept[k].run.jobId, kept[k].verdict)
  {
    if |entries| > 0 {
      var pre := entries[..|entries| - 1];
      CollectRecordsMeaning(pre);
    }
  }

  /** The record loop stops exactly where the list loop does; otherwise it
      yields one record per `.out` file, in order, whose host and job id
      come from that file's name and whose status is that file's own
      verdict, and the script's lists are these records flattened. */
  lemma SummarizeRecordsMeaning(files: seq<LogFile>)
    ensures SummarizeRecords(files).Ok? <==> Summarize(files).Ok?
    ensures SummarizeRecords(files).Err? ==>
      Summarize(files).Err? && SummarizeRecords(files).error == Summarize(files).error
    ensures SummarizeRecords(files).Ok? ==>
      var records := SummarizeRecords(files).value;
      var logs := StressNgLogs(files);
      && Summarize(files).value == Flatten(records)
      && |records| == |logs|
      && forall k :: 0 <= k < |logs| ==>
           && ParseLogName(logs[k].name) == Some(RunName(records[k].jobId, records[k].host))
           && records[k].status == Classify(logs[k].text)
  {
    var entries := Scans(files);
    CollectIsFlattenedRecords(entries);
    CollectRecordsMeaning(entries);
    KeptScans(files);
    if SummarizeRecords(files).Ok? {
      SummarizeSucceeds(files);
      var logs := StressNgLogs(files);
      StressNgLogsAreLogs(files);
      assert forall k :: 0 <= k < |logs| ==> Kept(entries)[k] == Scan(logs[k]);
    }
  }
}
