/** Job id and host name recovered from a stress-ng log file name such as
    `12345_node01.rc.fas.harvard.edu.out`. */
module LogName {
  import opened Wrappers
  import opened Text

  /** The scheduler job id (kept as text) and the short host name of a run. */
  datatype RunName = RunName(jobId: string, host: string)

  /** `jobID, nodename = filename.split("_")` followed by
      `nodename.split(".")[0]`: the tuple unpack fails unless the split gives
      exactly two fields, which is reported as `None`. */
  function ParseLogName(name: string): (r: Option<RunName>)
    ensures r.Some? <==> multiset(name)['_'] == 1
  {
    var fields := Split(name, '_');
    if |fields| != 2 then None
    else Some(RunName(fields[0], Split(fields[1], '.')[0]))
  }

  /** A parsed name is `jobId` + `_` + a tail whose first dot-free stretch is
      the host: the host is a prefix of the tail and ends at the tail's end or
      at its first `.`. */
  lemma ParseLogNameShape(name: string)
    requires ParseLogName(name).Some?
    ensures var run := ParseLogName(name).value;
      && '_' !in run.jobId && '.' !in run.host
      && |run.jobId| < |name|
      && var tail := name[|run.jobId| + 1..];
      && name == run.jobId + "_" + tail
      && '_' !in tail
      && run.host <= tail
      && (run.host == tail || tail[|run.host|] == '.')
  {
    var fields := Split(name, '_');
    SplitFields(name, '_');
    SplitFields(fields[1], '.');
    assert fields[1..] == [fields[1]];
    assert name == Join(fields, '_') == fields[0] + ['_'] + fields[1];
    assert name[|fields[0]| + 1..] == fields[1];
    SplitFirstField(fields[1], '.');
  }

  /** The file name a run writes: job id, `_`, host, then a suffix that is
      empty or starts with `.` (the domain and the `.out` extension). */
  function LogNameOf(run: RunName, suffix: string): string {
    run.jobId + "_" + run.host + suffix
  }

  /** Parsing recovers the job id and host of any well-formed log name. */
  lemma {:induction false} ParseLogNameOf(run: RunName, suffix: string)
    requires '_' !in run.jobId && '_' !in run.host && '_' !in suffix
    requires '.' !in run.host
    requires suffix == "" || suffix[0] == '.'
    ensures ParseLogName(LogNameOf(run, suffix)) == Some(run)
  {
    var tail := run.host + suffix;
    SplitTwoFields(run.jobId, tail);
    HostField(run.host, suffix);
    assert LogNameOf(run, suffix) == run.jobId + "_" + tail;
    ParseTwoFields(LogNameOf(run, suffix), run.jobId, tail);
  }

  /** The host is the first `.`-field of the host followed by an empty or
      `.`-led suffix. */
  lemma HostField(host: string, suffix: string)
    requires '.' !in host
    requires suffix == "" || suffix[0] == '.'
    ensures Split(host + suffix, '.')[0] == host
  {
    if suffix == "" {
      assert host + suffix == host;
      SplitFree(host, '.');
    } else {
      assert host + suffix == host + ['.'] + suffix[1..];
      SplitAround(host, suffix[1..], '.');
    }
  }

  /** A job id and a tail, both free of `_`, joined by one `_` split back
      into those two fields. */
  lemma SplitTwoFields(jobId: string, tail: string)
    requires '_' !in jobId && '_' !in tail
    ensures Split(jobId + "_" + tail, '_') == [jobId, tail]
  {
    JoinPrepend(jobId, [tail], '_');
    assert Join([jobId, tail], '_') == jobId + "_" + tail;
    SplitJoin([jobId, tail], '_');
  }

  /** A name whose `_` split gives two fields parses to the first field and
      the second field's first `.`-field. */
  lemma ParseTwoFields(name: string, jobId: string, tail: string)
    requires Split(name, '_') == [jobId, tail]
    ensures ParseLogName(name) == Some(RunName(jobId, Split(tail, '.')[0]))
  {
  }
}
