/** Which documents a publisher holds, and what a new view makes of them, from what was published alone. */
module HotConfigDocuments {
  import opened Prelude
  import opened HotConfigModel

  /** Nothing is accepted any more once the publisher was finished. */
  predicate Finished<D>(actions: seq<Action<D>>) {
    exists j :: 0 <= j < |actions| && actions[j].FinishAction?
  }

  /** The document a listener published last, while the publisher was open. */
  ghost function LastPublished<D>(actions: seq<Action<D>>): Option<D> {
    if actions == [] then None
    else
      var before, last := actions[..|actions| - 1], actions[|actions| - 1];
      if last.PublishAction? && !Finished(before) then Some(last.document) else LastPublished(before)
  }

  /** The document fetched last, and the one fetched first, while the publisher was open. */
  ghost function LastFetched<D>(actions: seq<Action<D>>): Option<D> {
    if actions == [] then None
    else
      var before, last := actions[..|actions| - 1], actions[|actions| - 1];
      if last.InitialAction? && !Finished(before) then Some(last.document) else LastFetched(before)
  }

  ghost function FirstFetched<D>(actions: seq<Action<D>>): Option<D> {
    if actions == [] then None
    else
      var before, last := actions[..|actions| - 1], actions[|actions| - 1];
      if FirstFetched(before).Some? then FirstFetched(before)
      else if last.InitialAction? && !Finished(before) then Some(last.document) else None
  }

  /**
   * The baseline is the document fetched last. The current document is the listener's last one; before any listener
   * has published it is the one fetched first, and a fetch that comes later never replaces it.
   */
  lemma {:induction false} DocumentsFollowActions<D, T>(
      states: seq<System<D, T>>, actions: seq<Action<D>>, parse: D -> Result<T, ConfigError>, i: nat)
    requires IsRun(states, actions, parse) && i < |states|
    ensures var p, done := states[i].publisher, actions[..i];
            && p.closed == p.raw.closed == Finished(done)
            && p.baseline == LastFetched(done)
            && p.raw.document == if LastPublished(done).Some? then LastPublished(done) else FirstFetched(done)
  {
    if i > 0 {
      assert StepsAt(states, actions, parse, i - 1);
      RunKeepsInv(states, actions, parse, i - 1);
      DocumentsFollowActions(states, actions, parse, i - 1);
      var done := actions[..i];
      assert done[..i - 1] == actions[..i - 1] && done[i - 1] == actions[i - 1];
      FinishedStep(done);
    }
  }

  lemma FinishedStep<D>(actions: seq<Action<D>>)
    requires actions != []
    ensures Finished(actions) <==> Finished(actions[..|actions| - 1]) || actions[|actions| - 1].FinishAction?
  {
    var before := actions[..|actions| - 1];
    if Finished(before) {
      var j :| 0 <= j < |before| && before[j].FinishAction?;
      assert actions[j].FinishAction?;
    }
  }

  /**
   * A view is opened on the current document when it parses; otherwise on the baseline when that parses, with the
   * current document's error reported; and otherwise not at all, for that error.
   */
  lemma OpensOnBestDocument<D, T>(
      states: seq<System<D, T>>, actions: seq<Action<D>>, parse: D -> Result<T, ConfigError>, i: nat,
      activation: Option<bool>)
    requires IsRun(states, actions, parse) && i < |states|
    ensures var p := states[i].publisher;
            Typed(p, activation, parse)
            == if activation.None? then Err(NotActivated)
               else if activation == Some(false) then Err(ActivationFailed)
               else if Finished(actions[..i]) then Err(Cancelled)
               else if p.raw.document.None? then Err(NoInitialDocument)
               else match parse(p.raw.document.value)
                 case Ok(value) => Ok(View(value, 1, None, p.version, true))
                 case Err(error) =>
                   if p.baseline.Some? && parse(p.baseline.value).Ok?
                   then Ok(View(parse(p.baseline.value).value, 1, Some(error), p.version, true))
                   else Err(error)
  {
    RunKeepsInv(states, actions, parse, i);
    DocumentsFollowActions(states, actions, parse, i);
  }

  /** What is refused, and why: after the close everything, and before it nothing a run can reach. */
  lemma RefusedAfterCloseOnly<D, T>(
      states: seq<System<D, T>>, actions: seq<Action<D>>, parse: D -> Result<T, ConfigError>, i: nat, document: D)
    requires IsRun(states, actions, parse) && i < |states|
    ensures var refusal := if Finished(actions[..i]) then Some(Cancelled) else None;
            && Publish(states[i].publisher, document).1 == refusal
            && PublishInitial(states[i].publisher, document).1 == refusal
  {
    RunKeepsInv(states, actions, parse, i);
    DocumentsFollowActions(states, actions, parse, i);
  }

  /** A publisher whose revisions are used up refuses what would need another one, and a view stops with its value. */
  lemma ExhaustedCountersStop<D, T>(
      p: Publisher<D>, v: View<T>, parse: D -> Result<T, ConfigError>, document: D)
    requires PublisherInv(p) && !p.closed && p.revision == U64_MAX && v.revision == U64_MAX
    ensures Publish(p, document) == (p, Some(RevisionOverflow))
    ensures p.raw.document.None? ==>
              PublishInitial(p, document) == (p.(baseline := Some(document)), Some(RevisionOverflow))
    ensures p.raw.document.Some? ==> PublishInitial(p, document) == (p.(baseline := Some(document)), None)
    ensures p.raw.document.Some? && parse(p.raw.document.value).Ok? ==>
              Observe(p, v, parse) == v.(seen := p.version, lastError := Some(RevisionOverflow), running := false)
  {
  }
}
