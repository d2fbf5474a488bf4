/** The stress-ng status of one log: a case-insensitive search of the whole
    text for three markers, tried in a fixed order. */
module Classifier {
  import opened Wrappers
  import opened Text

  /** The statuses the summary records, with the labels it prints. */
  datatype Status = Success | Failed | IncompleteRun {
    function Label(): string {
      match this
      case Success => "success"
      case Failed => "failed"
      case IncompleteRun => "incomplete run"
    }
  }

  /** Present once stress-ng has finished, whatever the outcome. */
  const CompletedMarker: string := "run completed in"
  /** Present when stress-ng reports failures. */
  const UnsuccessfulMarker: string := "unsuccessful run completed"
  /** Present when a stressor reports no failures. */
  const NoFailuresMarker: string := "failed: 0"

  /** The status recorded for a log text, or `None` when the text shows a
      completed run carrying neither the failure marker nor the no-failures
      marker: in that case nothing is recorded at all. */
  function Classify(text: string): Option<Status> {
    var t := Lower(text);
    if Contains(t, CompletedMarker) then
      if Contains(t, UnsuccessfulMarker) then Some(Failed)
      else if Contains(t, NoFailuresMarker) then Some(Success)
      else None
    else Some(IncompleteRun)
  }

  /** Each outcome together with the marker pattern that produces it: the
      failure marker wins over the no-failures marker, and both are ignored
      unless the completion marker is present. */
  lemma ClassifyOutcomes(text: string)
    ensures var t := Lower(text);
      && (Classify(text) == Some(IncompleteRun) <==> !Contains(t, CompletedMarker))
      && (Classify(text) == Some(Failed) <==>
            Contains(t, CompletedMarker) && Contains(t, UnsuccessfulMarker))
      && (Classify(text) == Some(Success) <==>
            Contains(t, CompletedMarker) && !Contains(t, UnsuccessfulMarker)
            && Contains(t, NoFailuresMarker))
      && (Classify(text).None? <==>
            Contains(t, CompletedMarker) && !Contains(t, UnsuccessfulMarker)
            && !Contains(t, NoFailuresMarker))
  {
  }

  /** Classification ignores ASCII case: a text and its lower-cased form get
      the same status. */
  lemma ClassifyIgnoresCase(text: string)
    ensures Classify(Lower(text)) == Classify(text)
  {
    LowerIdempotent(text);
  }

  /** stress-ng's failure line `unsuccessful run completed in ...` carries
      both the completion and the failure marker, so a log holding it is
      `failed` whatever else it says. */
  lemma UnsuccessfulLineMeansFailed(text: string)
    requires Contains(Lower(text), "unsuccessful run completed in")
    ensures Classify(text) == Some(Failed)
  {
    var line := "unsuccessful run completed in";
    assert OccursAt(line, CompletedMarker, 13);
    assert OccursAt(line, UnsuccessfulMarker, 0);
    ContainsTransitive(Lower(text), line, CompletedMarker);
    ContainsTransitive(Lower(text), line, UnsuccessfulMarker);
  }

  /** The failure marker alone, without ` in` after it, is not a completion
      marker: such a text is still an incomplete run. */
  lemma UnsuccessfulAloneIsIncomplete(text: string)
    requires text == "Unsuccessful run completed"
    ensures Classify(text) == Some(IncompleteRun)
  {
    assert Lower(text) == UnsuccessfulMarker;
    assert !Contains(UnsuccessfulMarker, CompletedMarker) by {
      forall i | 0 <= i <= |UnsuccessfulMarker| - |CompletedMarker|
        ensures !OccursAt(UnsuccessfulMarker, CompletedMarker, i)
      {
        assert UnsuccessfulMarker[i + 14] != CompletedMarker[14];
      }
    }
  }

  /** Logs are written append-only. Once a log is classified as complete it
      stays complete however much text is appended, and a `failed` log stays
      `failed`. */
  lemma {:induction false} ClassifyStableUnderAppend(text: string, more: string)
    ensures Classify(text) != Some(IncompleteRun) ==> Classify(text + more) != Some(IncompleteRun)
    ensures Classify(text) == Some(Failed) ==> Classify(text + more) == Some(Failed)
  {
    LowerAppend(text, more);
    var t := Lower(text);
    assert Lower(text + more) == "" + t + Lower(more);
    if Contains(t, CompletedMarker) {
      ContainsExtend("", t, Lower(more), CompletedMarker);
    }
    if Contains(t, UnsuccessfulMarker) {
      ContainsExtend("", t, Lower(more), UnsuccessfulMarker);
    }
  }

  /** A completion line with no outcome marker anywhere records nothing. */
  lemma BareCompletionIsUnrecorded(text: string)
    requires text == "run completed in 60.00s"
    ensures Classify(text) == None
  {
    var t := Lower(text);
    assert t == text;
    assert OccursAt(t, CompletedMarker, 0);
    assert !Contains(t, NoFailuresMarker) by {
      forall i | 0 <= i <= |t|
        ensures !OccursAt(t, NoFailuresMarker, i)
      {
        if i + |NoFailuresMarker| <= |t| {
          assert t[i] != NoFailuresMarker[0];
        }
      }
    }
  }
}
