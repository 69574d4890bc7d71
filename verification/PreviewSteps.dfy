/** What each step of the preview does, field by field. */
module PreviewSteps {
  import opened Options
  import opened Preview

  /** The restarts other than `t` are where they were. */
  ghost predicate OtherTasks(s: State, q: State, t: Task)
  {
    forall u | u != t :: (u in q.tasks <==> u in s.tasks) && (u in s.tasks ==> q.tasks[u] == s.tasks[u])
  }

  ghost predicate SameStreams(s: State, q: State)
  {
    q.epoch == s.epoch && q.stream == s.stream && q.started == s.started && q.handed == s.handed
  }

  /** A new epoch without a stream; the one that was held is handed to stop. */
  ghost predicate EpochEnded(s: State, q: State)
  {
    && q.epoch == s.epoch + 1 && q.stream == None && q.started == s.started
    && (forall u :: u in q.handed <==> u in s.handed || s.stream == Some(u))
  }

  ghost predicate NothingSelected(x: Selection)
  {
    x.filter == None && x.target == None && !x.isDisplayTarget && x.sourceRect == None && !x.isCropped
  }

  /** A pick that maps to a target selects it whole and queues a restart for it; one that
      does not is rejected and ends the epoch. */
  lemma PickDoes(s: State, t: Task, f: Filter)
    requires t !in s.tasks
    ensures var q := Do(s, Pick(t, f));
      if f.target.None? then
        && EpochEnded(s, q) && q.status == Idle && q.tasks == s.tasks
        && NothingSelected(q.selection) && q.selection.rejected && q.selection.displayId == s.selection.displayId
      else
        && SameStreams(s, q) && q.status == s.status && OtherTasks(s, q, t) && t in q.tasks && q.tasks[t] == Queued(f)
        && q.selection.filter == Some(f) && q.selection.target == f.target
        && q.selection.isDisplayTarget == f.target.value.Display?
        && q.selection.displayId == (if f.target.value.Display? then f.target.value.id else s.selection.displayId)
        && q.selection.sourceRect == None && !q.selection.isCropped && !q.selection.rejected
  {
  }

  lemma TeardownDoes(s: State)
    ensures var q := Do(s, Teardown);
      && EpochEnded(s, q) && q.status == Idle && q.tasks == s.tasks
      && NothingSelected(q.selection) && !q.selection.rejected && q.selection.displayId == s.selection.displayId
  {
  }

  lemma RetryDoes(s: State, t: Task)
    requires t !in s.tasks
    ensures var q := Do(s, Retry(t));
      && SameStreams(s, q) && q.status == s.status && q.selection == s.selection && OtherTasks(s, q, t)
      && (s.selection.filter.Some? ==> t in q.tasks && q.tasks[t] == Queued(s.selection.filter.value))
      && (s.selection.filter.None? ==> t !in q.tasks)
  {
  }

  /** Cropping is for displays only. */
  lemma CropDoes(s: State, rect: Rect)
    ensures var q := Do(s, Crop(rect));
      if !s.selection.isDisplayTarget then q == s
      else
        && SameStreams(s, q) && q.status == s.status && q.tasks == s.tasks
        && q.selection.sourceRect == Some(rect) && q.selection.isCropped
        && q.selection.target == Some(Region(s.selection.displayId, rect))
        && q.selection.filter == s.selection.filter && q.selection.isDisplayTarget
        && q.selection.displayId == s.selection.displayId && q.selection.rejected == s.selection.rejected
  {
  }

  lemma ClearCropDoes(s: State)
    ensures var q := Do(s, ClearCrop);
      && SameStreams(s, q) && q.status == s.status && q.tasks == s.tasks
      && q.selection.sourceRect == None && !q.selection.isCropped
      && q.selection.target == Some(Display(s.selection.displayId))
      && q.selection.filter == s.selection.filter && q.selection.isDisplayTarget == s.selection.isDisplayTarget
      && q.selection.displayId == s.selection.displayId && q.selection.rejected == s.selection.rejected
  {
  }

  /** Failures of the picker and of the configuration show, and that is all. */
  lemma FailuresShow(s: State, status: Status)
    ensures Do(s, PickerFailed(status)) == State(s.epoch, s.stream, status, s.selection, s.tasks, s.started, s.handed)
    ensures Do(s, ConfigFailed(status)) == State(s.epoch, s.stream, status, s.selection, s.tasks, s.started, s.handed)
  {
  }

  /** A queued restart begins: a new epoch, which is its own; it waits for the stream that
      was held to stop, or starts at once. */
  lemma BeginDoes(s: State, t: Task)
    requires t in s.tasks && s.tasks[t].Queued?
    ensures var q := Do(s, Begin(t));
      && EpochEnded(s, q) && q.selection == s.selection && OtherTasks(s, q, t) && t in q.tasks
      && (s.stream.Some? ==> q.tasks[t] == Stopping(s.epoch + 1) && q.status == s.status)
      && (s.stream.None? ==> q.tasks[t] == Launching(s.epoch + 1) && q.status == Starting)
  {
  }

  /** The stream has stopped: the restart goes on in its own epoch, and ends in any other. */
  lemma StoppedDoes(s: State, t: Task)
    requires t in s.tasks && s.tasks[t].Stopping?
    ensures var q := Do(s, Stopped(t));
      && SameStreams(s, q) && q.selection == s.selection && OtherTasks(s, q, t) && t in q.tasks
      && (s.tasks[t].epoch == s.epoch ==> q.tasks[t] == Launching(s.epoch) && q.status == Starting)
      && (s.tasks[t].epoch != s.epoch ==> q.tasks[t] == Done(s.tasks[t].epoch) && q.status == s.status)
  {
  }

  lemma StartedDoes(s: State, t: Task)
    requires t in s.tasks && s.tasks[t].Launching?
    ensures var q := Do(s, Started(t));
      && q.epoch == s.epoch && q.stream == s.stream && q.handed == s.handed && q.status == s.status
      && q.selection == s.selection && OtherTasks(s, q, t) && t in q.tasks && q.tasks[t] == Capturing(s.tasks[t].epoch)
      && (forall u :: u in q.started <==> u in s.started || u == t)
  {
  }

  /** The stream runs: in its own epoch it is the one that is held, in any other it is
      handed to stop. */
  lemma ResumeDoes(s: State, t: Task)
    requires t in s.tasks && s.tasks[t].Capturing?
    ensures var q := Do(s, Resume(t));
      && q.epoch == s.epoch && q.started == s.started && q.selection == s.selection
      && OtherTasks(s, q, t) && t in q.tasks
      && (s.tasks[t].epoch == s.epoch ==>
            q.stream == Some(t) && q.status == Live && q.tasks[t] == Done(s.epoch) && q.handed == s.handed)
      && (s.tasks[t].epoch != s.epoch ==>
            && q.stream == s.stream && q.status == s.status && q.tasks[t] == Discarding(s.tasks[t].epoch)
            && forall u :: u in q.handed <==> u in s.handed || u == t)
  {
  }

  /** A start that fails shows in its own epoch only. */
  lemma StartFailsDoes(s: State, t: Task, status: Status)
    requires t in s.tasks && s.tasks[t].Launching?
    ensures var q := Do(s, StartFails(t, status));
      && SameStreams(s, q) && q.selection == s.selection && OtherTasks(s, q, t)
      && t in q.tasks && q.tasks[t] == Done(s.tasks[t].epoch)
      && q.status == (if s.tasks[t].epoch == s.epoch then status else s.status)
  {
  }

  lemma DiscardedDoes(s: State, t: Task)
    requires t in s.tasks && s.tasks[t].Discarding?
    ensures var q := Do(s, Discarded(t));
      && SameStreams(s, q) && q.status == s.status && q.selection == s.selection && OtherTasks(s, q, t)
      && t in q.tasks && q.tasks[t] == Done(s.tasks[t].epoch)
  {
  }

  /** Steps out of turn do nothing. */
  lemma OutOfTurn(s: State, t: Task, f: Filter, status: Status)
    ensures t in s.tasks ==> Do(s, Pick(t, f)) == s && Do(s, Retry(t)) == s
    ensures t !in s.tasks || !s.tasks[t].Queued? ==> Do(s, Begin(t)) == s
    ensures t !in s.tasks || !s.tasks[t].Stopping? ==> Do(s, Stopped(t)) == s
    ensures t !in s.tasks || !s.tasks[t].Launching? ==> Do(s, Started(t)) == s && Do(s, StartFails(t, status)) == s
    ensures t !in s.tasks || !s.tasks[t].Capturing? ==> Do(s, Resume(t)) == s
    ensures t !in s.tasks || !s.tasks[t].Discarding? ==> Do(s, Discarded(t)) == s
  {
  }

  /** In every run: the restart of the newest pick, left alone from then on, shows what was
      picked. */
  lemma PickGoesLive(before: seq<Step>, t: Task, f: Filter)
    requires t !in RunFrom(INIT, before).tasks && f.target.Some? && RunFrom(INIT, before).stream.None?
    ensures var q := RunFrom(INIT, before + [Pick(t, f)] + [Begin(t), Started(t), Resume(t)]);
      q.stream == Some(t) && q.status == Live && q.selection.filter == Some(f) && q.selection.target == f.target
  {
    var s := Do(RunFrom(INIT, before), Pick(t, f));
    RunFromConcat(INIT, before + [Pick(t, f)], [Begin(t), Started(t), Resume(t)]);
    RunFromConcat(INIT, before, [Pick(t, f)]);
    assert [Pick(t, f)][1..] == [];
    RunThree(s, Begin(t), Started(t), Resume(t));
  }
}
