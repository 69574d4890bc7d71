/** Stream adoption in `CapturePreviewController.swift`. */
module Preview {
  import opened Options

  // Restarts of the preview interleave with picks, rejections and teardowns at every
  // suspension point.

  datatype Rect = Rect(x: nat, y: nat, w: nat, h: nat)
  datatype Target = Display(id: nat) | Window(id: nat) | App(bundle: string) | Region(id: nat, rect: Rect)

  /** A picker filter, with the target that can be read off it, if any. */
  datatype Filter = Filter(number: nat, target: Option<Target>)

  datatype Status = Idle | Starting | Live | PermissionDenied | Failed(message: string)

  /** One run of `restartPreview`; the stream it starts goes by the same name. */
  datatype Task = Task(number: nat)

  /** Where that run is suspended. */
  datatype Phase =
    | Queued(filter: Filter)     // created, has not run yet
    | Stopping(epoch: nat)       // awaiting stopCapture of the previous stream
    | Launching(epoch: nat)      // awaiting startCapture
    | Capturing(epoch: nat)      // startCapture has succeeded, the main actor has not resumed
    | Discarding(epoch: nat)     // lost the race, awaiting stopCapture of its own stream
    | Done(epoch: nat)

  /** The controller's fields about what is selected. */
  datatype Selection = Selection(
    filter: Option<Filter>,
    target: Option<Target>,
    isDisplayTarget: bool,
    displayId: nat,
    sourceRect: Option<Rect>,
    isCropped: bool,
    rejected: bool)

  datatype State = State(
    epoch: nat,
    stream: Option<Task>,
    status: Status,
    selection: Selection,
    tasks: map<Task, Phase>,
    started: set<Task>,   // streams whose startCapture succeeded
    handed: set<Task>)    // streams on which stopCapture was called

  const NOTHING_SELECTED: Selection := Selection(None, None, false, 0, None, false, false)
  const INIT: State := State(0, None, Idle, NOTHING_SELECTED, map[], {}, {})

  datatype Step =
    | Pick(t: Task, filter: Filter)
    | Retry(t: Task)
    | Teardown
    | PickerFailed(status: Status)
    | Crop(rect: Rect)
    | ClearCrop
    | ConfigFailed(status: Status)
    | Begin(t: Task)        // a queued restart runs to its first suspension
    | Stopped(t: Task)      // the previous stream has stopped
    | Started(t: Task)      // off the main actor, the capture starts
    | Resume(t: Task)       // the restart resumes with a started stream
    | StartFails(t: Task, status: Status)
    | Discarded(t: Task)

  // ------------------------------------------------------------ what each step does

  /** A new epoch with no stream; the old one is handed to stop. */
  function NewEpoch(s: State): (r: State)
  {
    s.(epoch := s.epoch + 1, stream := None, handed := HandOver(s.stream, s.handed))
  }

  function HandOver(stream: Option<Task>, handed: set<Task>): (r: set<Task>)
  {
    if stream.Some? then handed + {stream.value} else handed
  }

  /** Teardown and rejection: a new epoch with nothing selected. */
  function Reset(s: State, rejected: bool): (r: State)
  {
    State(s.epoch + 1, None, Idle, Cleared(s.selection, rejected), s.tasks, s.started, HandOver(s.stream, s.handed))
  }

  function Cleared(x: Selection, rejected: bool): (r: Selection)
  {
    Selection(None, None, false, x.displayId, None, false, rejected)
  }

  function Picked(x: Selection, filter: Filter, target: Target): (r: Selection)
  {
    Selection(Some(filter), Some(target), target.Display?, if target.Display? then target.id else x.displayId,
              None, false, false)
  }

  function DoPick(s: State, t: Task, filter: Filter): (r: State)
  {
    if t in s.tasks then s
    else if filter.target.None? then Reset(s, true)
    else s.(selection := Picked(s.selection, filter, filter.target.value), tasks := s.tasks[t := Queued(filter)])
  }

  function DoBegin(s: State, t: Task): (r: State)
  {
    if t !in s.tasks || !s.tasks[t].Queued? then s
    else
      var bumped := NewEpoch(s);
      if s.stream.Some? then bumped.(tasks := s.tasks[t := Stopping(bumped.epoch)])
      else bumped.(tasks := s.tasks[t := Launching(bumped.epoch)], status := Starting)
  }

  function DoStopped(s: State, t: Task): (r: State)
  {
    if t !in s.tasks || !s.tasks[t].Stopping? then s
    else if s.tasks[t].epoch != s.epoch then s.(tasks := s.tasks[t := Done(s.tasks[t].epoch)])
    else s.(tasks := s.tasks[t := Launching(s.epoch)], status := Starting)
  }

  function DoResume(s: State, t: Task): (r: State)
  {
    if t !in s.tasks || !s.tasks[t].Capturing? then s
    else if s.tasks[t].epoch != s.epoch then
      s.(tasks := s.tasks[t := Discarding(s.tasks[t].epoch)], handed := s.handed + {t})
    else s.(tasks := s.tasks[t := Done(s.epoch)], stream := Some(t), status := Live)
  }

  function DoStartFails(s: State, t: Task, status: Status): (r: State)
  {
    if t !in s.tasks || !s.tasks[t].Launching? then s
    else
      s.(tasks := s.tasks[t := Done(s.tasks[t].epoch)],
         status := if s.tasks[t].epoch == s.epoch then status else s.status)
  }

  function DoCrop(s: State, rect: Rect): (r: State)
  {
    if !s.selection.isDisplayTarget then s
    else
      s.(selection := s.selection.(
           sourceRect := Some(rect), isCropped := true, target := Some(Region(s.selection.displayId, rect))))
  }

  /** A step that is not enabled changes nothing. */
  function Do(s: State, step: Step): (r: State)
  {
    match step
    case Pick(t, filter) => DoPick(s, t, filter)
    case Retry(t) =>
      if t in s.tasks || s.selection.filter.None? then s
      else s.(tasks := s.tasks[t := Queued(s.selection.filter.value)])
    case Teardown => Reset(s, false)
    case PickerFailed(status) => s.(status := status)
    case Crop(rect) => DoCrop(s, rect)
    case ClearCrop =>
      s.(selection := s.selection.(
           sourceRect := None, isCropped := false, target := Some(Display(s.selection.displayId))))
    case ConfigFailed(status) => s.(status := status)
    case Begin(t) => DoBegin(s, t)
    case Stopped(t) => DoStopped(s, t)
    case Started(t) =>
      if t !in s.tasks || !s.tasks[t].Launching? then s
      else s.(tasks := s.tasks[t := Capturing(s.tasks[t].epoch)], started := s.started + {t})
    case Resume(t) => DoResume(s, t)
    case StartFails(t, status) => DoStartFails(s, t, status)
    case Discarded(t) =>
      if t !in s.tasks || !s.tasks[t].Discarding? then s
      else s.(tasks := s.tasks[t := Done(s.tasks[t].epoch)])
  }

  /** The controller. A method that ends at a suspension point says which step of the
      run it is; `tasks`, `started` and `handed` record what is under way around it. */
  class CapturePreviewController {
    var previewEpoch: nat
    var stream: Option<Task>
    var state: Status
    var selection: Selection
    var tasks: map<Task, Phase>
    var started: set<Task>
    var handed: set<Task>

    ghost function Now(): (s: State)
      reads this
    {
      State(previewEpoch, stream, state, selection, tasks, started, handed)
    }

    constructor ()
      ensures Now() == INIT
    {
      previewEpoch, stream, state := 0, None, Idle;
      selection := NOTHING_SELECTED;
      tasks, started, handed := map[], {}, {};
    }

    method TearDown()
      modifies this
      ensures Now() == Do(old(Now()), Teardown)
    {
      previewEpoch := previewEpoch + 1;
      handed := HandOver(stream, handed);
      stream, state := None, Idle;
      selection := selection.(
        filter := None, target := None, isDisplayTarget := false,
        isCropped := false, sourceRect := None, rejected := false);
    }

    method DidPick(t: Task, filter: Filter)
      requires t !in tasks
      modifies this
      ensures Now() == Do(old(Now()), Pick(t, filter))
    {
      if filter.target.None? {
        RejectUnsupportedSelection();
        return;
      }
      selection := selection.(filter := Some(filter), rejected := false, target := filter.target);
      if filter.target.value.Display? {
        selection := selection.(isDisplayTarget := true, displayId := filter.target.value.id);
      } else {
        selection := selection.(isDisplayTarget := false);
      }
      selection := selection.(sourceRect := None, isCropped := false);
      tasks := tasks[t := Queued(filter)];
    }

    method RejectUnsupportedSelection()
      modifies this
      ensures Now() == Reset(old(Now()), true)
    {
      previewEpoch := previewEpoch + 1;
      handed := HandOver(stream, handed);
      stream, state := None, Idle;
      selection := selection.(
        filter := None, target := None, isDisplayTarget := false,
        isCropped := false, sourceRect := None, rejected := true);
    }

    method RetryPreview(t: Task)
      requires t !in tasks
      modifies this
      ensures Now() == Do(old(Now()), Retry(t))
    {
      if selection.filter.Some? {
        tasks := tasks[t := Queued(selection.filter.value)];
      }
    }

    method ApplyCrop(rect: Rect)
      modifies this
      ensures Now() == Do(old(Now()), Crop(rect))
    {
      if !selection.isDisplayTarget {
        return;
      }
      selection := selection.(
        sourceRect := Some(rect), target := Some(Region(selection.displayId, rect)), isCropped := true);
    }

    method DropCrop()
      modifies this
      ensures Now() == Do(old(Now()), ClearCrop)
    {
      selection := selection.(
        sourceRect := None, isCropped := false, target := Some(Display(selection.displayId)));
    }

    /** `restartPreview` up to its first suspension. */
    method RestartPreview(t: Task)
      requires t in tasks && tasks[t].Queued?
      modifies this
      ensures Now() == Do(old(Now()), Begin(t))
    {
      previewEpoch := previewEpoch + 1;
      var epoch := previewEpoch;
      if stream.Some? {
        handed := handed + {stream.value};
        stream := None;
        tasks := tasks[t := Stopping(epoch)];
      } else {
        state := Starting;
        tasks := tasks[t := Launching(epoch)];
      }
    }

    /** `restartPreview` after `stopStream()` returned. */
    method AfterStop(t: Task)
      requires t in tasks && tasks[t].Stopping?
      modifies this
      ensures Now() == Do(old(Now()), Stopped(t))
    {
      var epoch := tasks[t].epoch;
      if epoch != previewEpoch {
        tasks := tasks[t := Done(epoch)];
        return;
      }
      state := Starting;
      tasks := tasks[t := Launching(epoch)];
    }

    /** `restartPreview` after `makeStartedStream` returned a stream. */
    method AfterStart(t: Task)
      requires t in tasks && tasks[t].Capturing?
      modifies this
      ensures Now() == Do(old(Now()), Resume(t))
    {
      var epoch := tasks[t].epoch;
      if epoch != previewEpoch {
        handed := handed + {t};
        tasks := tasks[t := Discarding(epoch)];
        return;
      }
      stream := Some(t);
      state := Live;
      tasks := tasks[t := Done(epoch)];
    }

    /** `restartPreview` after `makeStartedStream` threw. */
    method AfterStartError(t: Task, error: Status)
      requires t in tasks && tasks[t].Launching?
      modifies this
      ensures Now() == Do(old(Now()), StartFails(t, error))
    {
      var epoch := tasks[t].epoch;
      tasks := tasks[t := Done(epoch)];
      if epoch != previewEpoch {
        return;
      }
      state := error;
    }
  }

  // -------------------------------------------------------------- every reachable state

  function RunFrom(s: State, steps: seq<Step>): (r: State)
    decreases steps
  {
    if steps == [] then s else RunFrom(Do(s, steps[0]), steps[1..])
  }

  lemma {:induction false} RunFromConcat(s: State, a: seq<Step>, b: seq<Step>)
    ensures RunFrom(s, a + b) == RunFrom(RunFrom(s, a), b)
    decreases a
  {
    if a == [] {
      assert a + b == b;
    } else {
      assert (a + b)[1..] == a[1..] + b;
      RunFromConcat(Do(s, a[0]), a[1..], b);
    }
  }

  /** The epoch a restart holds once it is past its bump. */
  predicate Holds(s: State, t: Task, epoch: nat)
  {
    t in s.tasks && !s.tasks[t].Queued? && s.tasks[t].epoch == epoch
  }

  /** No two restarts hold the same epoch, and none holds a future one. */
  ghost predicate EpochsInv(s: State)
  {
    && (forall t | t in s.tasks && !s.tasks[t].Queued? :: s.tasks[t].epoch <= s.epoch)
    && forall t, u {:trigger s.tasks[t], s.tasks[u]} |
         t in s.tasks && u in s.tasks && !s.tasks[t].Queued? && !s.tasks[u].Queued?
         && s.tasks[t].epoch == s.tasks[u].epoch :: t == u
  }

  /** The started stream of a restart is in exactly one place. */
  predicate Accounted(s: State, t: Task)
  {
    && t in s.tasks
    && (s.tasks[t].Capturing? || s.tasks[t].Discarding? || s.tasks[t].Done?)
    && (s.tasks[t].Capturing? <==> !(s.stream == Some(t)) && t !in s.handed)
    && !(s.stream == Some(t) && t in s.handed)
    && (s.tasks[t].Discarding? ==> s.tasks[t].epoch < s.epoch)
    && (s.tasks[t] == Done(s.epoch) ==> s.stream == Some(t))
  }

  ghost predicate StreamsInv(s: State)
  {
    && (forall t | t in s.started :: Accounted(s, t))
    && s.handed <= s.started
    && (forall t | t in s.tasks && s.tasks[t].Capturing? :: t in s.started)
    && (s.stream.Some? ==> s.stream.value in s.started && Holds(s, s.stream.value, s.epoch))
  }

  /** What the sheet shows is what will be recorded: a display target is the display
      picked or the cropped part of it. */
  predicate SelectionInv(x: Selection)
  {
    && (x.isCropped <==> x.sourceRect.Some?)
    && (x.isDisplayTarget ==>
          x.filter.Some?
          && x.target == Some(if x.isCropped then Region(x.displayId, x.sourceRect.value) else Display(x.displayId)))
    && (x.isCropped ==> x.isDisplayTarget)
    && (x.rejected ==> x.filter.None?)
  }

  ghost predicate Inv(s: State)
  {
    EpochsInv(s) && StreamsInv(s) && SelectionInv(s.selection)
  }

  lemma EpochsMove(s: State, t: Task, phase: Phase)
    requires EpochsInv(s)
    requires phase.Queued? || (t in s.tasks && !s.tasks[t].Queued? && phase.epoch == s.tasks[t].epoch)
    ensures EpochsInv(s.(tasks := s.tasks[t := phase]))
  {
  }

  lemma EpochsBegin(s: State, t: Task)
    requires EpochsInv(s)
    ensures EpochsInv(DoBegin(s, t))
  {
  }

  lemma EpochsKept(s: State, step: Step)
    requires EpochsInv(s)
    ensures EpochsInv(Do(s, step))
  {
    match step
    case Pick(t, f) => EpochsMove(s, t, Queued(f));
    case Retry(t) =>
      if s.selection.filter.Some? {
        EpochsMove(s, t, Queued(s.selection.filter.value));
      }
    case Begin(t) => EpochsBegin(s, t);
    case Stopped(t) =>
      if t in s.tasks && s.tasks[t].Stopping? {
        EpochsMove(s, t, Done(s.tasks[t].epoch));
        EpochsMove(s, t, Launching(s.tasks[t].epoch));
      }
    case Started(t) =>
      if t in s.tasks && s.tasks[t].Launching? {
        EpochsMove(s, t, Capturing(s.tasks[t].epoch));
      }
    case Resume(t) =>
      if t in s.tasks && s.tasks[t].Capturing? {
        EpochsMove(s, t, Discarding(s.tasks[t].epoch));
        EpochsMove(s, t, Done(s.tasks[t].epoch));
      }
    case StartFails(t, status) =>
      if t in s.tasks && s.tasks[t].Launching? {
        EpochsMove(s, t, Done(s.tasks[t].epoch));
      }
    case Discarded(t) =>
      if t in s.tasks && s.tasks[t].Discarding? {
        EpochsMove(s, t, Done(s.tasks[t].epoch));
      }
    case _ =>
  }

  /** Ending an epoch hands its stream over and puts every restart behind. */
  lemma NewEpochStreams(s: State)
    requires EpochsInv(s) && StreamsInv(s)
    ensures StreamsInv(NewEpoch(s))
  {
    var r := NewEpoch(s);
    forall t | t in r.started
      ensures Accounted(r, t)
    {
      assert Accounted(s, t);
    }
  }

  /** A restart that has not started a stream may move anywhere before that. */
  lemma MovesWithoutStream(s: State, t: Task, phase: Phase)
    requires StreamsInv(s) && t !in s.started && !phase.Capturing?
    ensures StreamsInv(s.(tasks := s.tasks[t := phase]))
  {
    var r := s.(tasks := s.tasks[t := phase]);
    forall u | u in r.started
      ensures Accounted(r, u)
    {
      assert Accounted(s, u);
    }
  }

  lemma StartStreams(s: State, t: Task)
    requires EpochsInv(s) && StreamsInv(s) && t in s.tasks && s.tasks[t].Launching?
    ensures StreamsInv(Do(s, Started(t)))
  {
    var r := Do(s, Started(t));
    Unstarted(s, t);
    forall u | u in r.started
      ensures Accounted(r, u)
    {
      assert u != t ==> Accounted(s, u);
    }
  }

  /** Adoption never overwrites a stream: when a restart resumes in its own epoch,
      no stream is held. */
  lemma NothingToOverwrite(s: State, t: Task)
    requires EpochsInv(s) && StreamsInv(s)
    requires t in s.tasks && (s.tasks[t].Stopping? || s.tasks[t].Launching? || s.tasks[t].Capturing?)
    requires s.tasks[t].epoch == s.epoch
    ensures s.stream == None
  {
    assert s.stream.Some? ==> Accounted(s, s.stream.value);
  }

  lemma ResumeStreams(s: State, t: Task)
    requires EpochsInv(s) && StreamsInv(s)
    ensures StreamsInv(DoResume(s, t))
  {
    if t in s.tasks && s.tasks[t].Capturing? {
      assert Accounted(s, t);
      if s.tasks[t].epoch == s.epoch {
        NothingToOverwrite(s, t);
      }
      var r := DoResume(s, t);
      forall u | u in r.started
        ensures Accounted(r, u)
      {
        assert Accounted(s, u);
      }
    }
  }

  lemma DiscardedStreams(s: State, t: Task)
    requires StreamsInv(s)
    ensures StreamsInv(Do(s, Discarded(t)))
  {
    if t in s.tasks && s.tasks[t].Discarding? {
      var r := Do(s, Discarded(t));
      forall u | u in r.started
        ensures Accounted(r, u)
      {
        assert Accounted(s, u);
      }
    }
  }

  lemma Unstarted(s: State, t: Task)
    requires StreamsInv(s)
    requires t !in s.tasks || s.tasks[t].Queued? || s.tasks[t].Stopping? || s.tasks[t].Launching?
    ensures t !in s.started
  {
    assert t in s.started ==> Accounted(s, t);
  }

  lemma BeginStreams(s: State, t: Task)
    requires EpochsInv(s) && StreamsInv(s) && t in s.tasks && s.tasks[t].Queued?
    ensures StreamsInv(DoBegin(s, t))
  {
    NewEpochStreams(s);
    Unstarted(s, t);
    MovesWithoutStream(NewEpoch(s), t, if s.stream.Some? then Stopping(s.epoch + 1) else Launching(s.epoch + 1));
  }

  lemma StoppedStreams(s: State, t: Task)
    requires StreamsInv(s) && t in s.tasks && s.tasks[t].Stopping?
    ensures StreamsInv(DoStopped(s, t))
  {
    Unstarted(s, t);
    MovesWithoutStream(s, t, if s.tasks[t].epoch != s.epoch then Done(s.tasks[t].epoch) else Launching(s.epoch));
  }

  lemma FailureStreams(s: State, t: Task, status: Status)
    requires StreamsInv(s) && t in s.tasks && s.tasks[t].Launching?
    ensures StreamsInv(DoStartFails(s, t, status))
  {
    Unstarted(s, t);
    MovesWithoutStream(s, t, Done(s.tasks[t].epoch));
  }

  lemma QueueStreams(s: State, t: Task, filter: Filter)
    requires StreamsInv(s) && t !in s.tasks
    ensures StreamsInv(s.(tasks := s.tasks[t := Queued(filter)]))
  {
    Unstarted(s, t);
    MovesWithoutStream(s, t, Queued(filter));
  }

  lemma StreamsKept(s: State, step: Step)
    requires EpochsInv(s) && StreamsInv(s)
    ensures StreamsInv(Do(s, step))
  {
    match step
    case Pick(t, f) =>
      if t !in s.tasks {
        NewEpochStreams(s);
        QueueStreams(s, t, f);
      }
    case Retry(t) =>
      if t !in s.tasks && s.selection.filter.Some? {
        QueueStreams(s, t, s.selection.filter.value);
      }
    case Teardown => NewEpochStreams(s);
    case Begin(t) =>
      if t in s.tasks && s.tasks[t].Queued? {
        BeginStreams(s, t);
      }
    case Stopped(t) =>
      if t in s.tasks && s.tasks[t].Stopping? {
        StoppedStreams(s, t);
      }
    case Started(t) =>
      if t in s.tasks && s.tasks[t].Launching? {
        StartStreams(s, t);
      }
    case Resume(t) => ResumeStreams(s, t);
    case StartFails(t, status) =>
      if t in s.tasks && s.tasks[t].Launching? {
        FailureStreams(s, t, status);
      }
    case Discarded(t) => DiscardedStreams(s, t);
    case _ =>
  }

  lemma StepKeepsInv(s: State, step: Step)
    requires Inv(s)
    ensures Inv(Do(s, step))
  {
    EpochsKept(s, step);
    StreamsKept(s, step);
  }

  lemma {:induction false} Reachable(s: State, steps: seq<Step>)
    requires Inv(s)
    ensures Inv(RunFrom(s, steps))
    decreases steps
  {
    if steps != [] {
      StepKeepsInv(s, steps[0]);
      Reachable(Do(s, steps[0]), steps[1..]);
    }
  }

  // ------------------------------------------------------------------ what follows

  /** In every run: an adopted stream carries the current epoch, and every started
      stream is pending in its restart, adopted, or handed to stop, and only one of
      the three. */
  lemma StreamsAccountedFor(steps: seq<Step>, t: Task)
    ensures var s := RunFrom(INIT, steps);
      && (s.stream == Some(t) ==> t in s.started && Holds(s, t, s.epoch))
      && (t in s.started ==>
            t in s.tasks
            && (s.tasks[t].Capturing? <==> !(s.stream == Some(t)) && t !in s.handed)
            && !(s.stream == Some(t) && t in s.handed))
      && (t in s.handed ==> t in s.started)
  {
    Reachable(INIT, steps);
    var s := RunFrom(INIT, steps);
    assert t in s.started ==> Accounted(s, t);
  }

  /** In every run: a restart about to start or adopt a stream in the current epoch
      finds no other stream held. */
  lemma AdoptionOverwritesNothing(steps: seq<Step>, t: Task)
    requires var s := RunFrom(INIT, steps);
      && t in s.tasks && (s.tasks[t].Launching? || s.tasks[t].Capturing?) && s.tasks[t].epoch == s.epoch
    ensures RunFrom(INIT, steps).stream == None
  {
    Reachable(INIT, steps);
    NothingToOverwrite(RunFrom(INIT, steps), t);
  }

  /** The restart is past its epoch bump and a later bump has made it stale. */
  predicate Stale(s: State, t: Task)
  {
    t in s.tasks && !s.tasks[t].Queued? && s.tasks[t].epoch < s.epoch
  }

  lemma StaleStep(s: State, step: Step, t: Task)
    requires Inv(s) && Stale(s, t)
    ensures Stale(Do(s, step), t)
  {
  }

  lemma {:induction false} NeverAdopted(s: State, steps: seq<Step>, t: Task)
    requires Inv(s) && Stale(s, t)
    ensures RunFrom(s, steps).stream != Some(t)
    decreases steps
  {
    if steps == [] {
      assert s.stream == Some(t) ==> Holds(s, t, s.epoch);
    } else {
      StepKeepsInv(s, steps[0]);
      StaleStep(s, steps[0], t);
      NeverAdopted(Do(s, steps[0]), steps[1..], t);
    }
  }

  /** The step ends an epoch: a teardown, a rejected pick, or another restart. */
  predicate EndsEpoch(s: State, step: Step)
  {
    || step.Teardown?
    || (step.Pick? && step.t !in s.tasks && step.filter.target.None?)
    || (step.Begin? && step.t in s.tasks && s.tasks[step.t].Queued?)
  }

  /** Whatever happens later, a restart past its bump is not adopted after a teardown,
      a rejection or a newer restart. */
  lemma SupersededIsNeverAdopted(before: seq<Step>, step: Step, after: seq<Step>, t: Task)
    requires var s := RunFrom(INIT, before);
      t in s.tasks && !s.tasks[t].Queued? && EndsEpoch(s, step)
    ensures RunFrom(INIT, before + [step] + after).stream != Some(t)
  {
    var s := RunFrom(INIT, before);
    Reachable(INIT, before);
    StepKeepsInv(s, step);
    assert Stale(Do(s, step), t);
    NeverAdopted(Do(s, step), after, t);
    RunFromConcat(INIT, before + [step], after);
    RunFromConcat(INIT, before, [step]);
    assert [step][1..] == [];
  }

  /** Some continuation ends with the restart's stream held. */
  ghost predicate MayBeAdopted(s: State, t: Task)
  {
    exists after :: RunFrom(s, after).stream == Some(t)
  }

  lemma RunTwo(s: State, a: Step, b: Step)
    ensures RunFrom(s, [a, b]) == Do(Do(s, a), b)
  {
    assert [a, b][1..] == [b] && [b][1..] == [];
    assert RunFrom(Do(s, a), [b]) == Do(Do(s, a), b);
  }

  lemma RunThree(s: State, a: Step, b: Step, c: Step)
    ensures RunFrom(s, [a, b, c]) == Do(Do(Do(s, a), b), c)
  {
    assert [a, b, c][1..] == [b, c];
    RunTwo(Do(s, a), b, c);
  }

  /** After an epoch has ended, a queued restart may run through. */
  lemma QueuedIsAdopted(s: State, step: Step, t: Task)
    requires t in s.tasks && s.tasks[t].Queued? && EndsEpoch(s, step)
    ensures MayBeAdopted(Do(s, step), t)
  {
    var r := Do(s, step);
    if step.Begin? && step.t == t {
      if s.stream.Some? {
        RunThree(r, Stopped(t), Started(t), Resume(t));
        assert RunFrom(r, [Stopped(t), Started(t), Resume(t)]).stream == Some(t);
      } else {
        RunTwo(r, Started(t), Resume(t));
        assert RunFrom(r, [Started(t), Resume(t)]).stream == Some(t);
      }
    } else {
      RunThree(r, Begin(t), Started(t), Resume(t));
      assert RunFrom(r, [Begin(t), Started(t), Resume(t)]).stream == Some(t);
    }
  }

  /** After any run and any teardown, rejection or newer restart, exactly the restarts
      that were still queued can be adopted. */
  lemma AdoptedLaterIff(before: seq<Step>, step: Step, t: Task)
    requires var s := RunFrom(INIT, before); t in s.tasks && EndsEpoch(s, step)
    ensures MayBeAdopted(Do(RunFrom(INIT, before), step), t) <==> RunFrom(INIT, before).tasks[t].Queued?
  {
    var s := RunFrom(INIT, before);
    if s.tasks[t].Queued? {
      QueuedIsAdopted(s, step, t);
    } else {
      Reachable(INIT, before);
      StepKeepsInv(s, step);
      assert Stale(Do(s, step), t);
      forall after
        ensures RunFrom(Do(s, step), after).stream != Some(t)
      {
        NeverAdopted(Do(s, step), after, t);
      }
    }
  }

  /** The guarantee starts at the bump: after any run, a restart still queued at a
      teardown or a rejection goes live after it, with nothing selected. */
  lemma QueuedRestartRevives(before: seq<Step>, step: Step, t: Task)
    requires var s := RunFrom(INIT, before);
      t in s.tasks && s.tasks[t].Queued? && EndsEpoch(s, step) && !step.Begin?
    ensures var s := RunFrom(Do(RunFrom(INIT, before), step), [Begin(t), Started(t), Resume(t)]);
      s.stream == Some(t) && s.status == Live && s.selection.filter == None
  {
    RunThree(Do(RunFrom(INIT, before), step), Begin(t), Started(t), Resume(t));
  }

  /** In every run: once the restart of the current epoch has run to its end with a
      started stream, that stream is the one held. */
  lemma NewestWins(steps: seq<Step>, t: Task)
    requires var s := RunFrom(INIT, steps); t in s.started && t in s.tasks && s.tasks[t] == Done(s.epoch)
    ensures RunFrom(INIT, steps).stream == Some(t)
  {
    Reachable(INIT, steps);
    assert Accounted(RunFrom(INIT, steps), t);
  }

  /** In every run: while a display is selected, the target to be recorded is that
      display or exactly the cropped part the preview shows. */
  lemma TargetIsWhatIsShown(steps: seq<Step>)
    ensures var x := RunFrom(INIT, steps).selection;
      && (x.isDisplayTarget ==>
            x.target == Some(if x.sourceRect.Some? then Region(x.displayId, x.sourceRect.value)
                             else Display(x.displayId)))
      && (x.rejected ==> x.filter.None? && !x.isDisplayTarget)
  {
    Reachable(INIT, steps);
  }

  /** Steps that choose something else. */
  predicate Chooses(step: Step)
  {
    step.Pick? || step.Teardown?
  }

  lemma TargetStep(s: State, step: Step)
    requires !s.selection.isDisplayTarget && !Chooses(step)
    ensures var x := Do(s, step).selection;
      && !x.isDisplayTarget && x.displayId == s.selection.displayId
      && x.target == (if step == ClearCrop then Some(Display(s.selection.displayId)) else s.selection.target)
  {
  }

  lemma {:induction false} TargetAfter(s: State, steps: seq<Step>)
    requires !s.selection.isDisplayTarget && forall step | step in steps :: !Chooses(step)
    ensures var x := RunFrom(s, steps).selection;
      x.target == (if ClearCrop in steps then Some(Display(s.selection.displayId)) else s.selection.target)
    decreases steps
  {
    if steps != [] {
      assert steps[0] in steps && steps == [steps[0]] + steps[1..];
      TargetStep(s, steps[0]);
      TargetAfter(Do(s, steps[0]), steps[1..]);
    }
  }

  /** After any run: a window or application, once picked, stays the target until
      something else is chosen, unless a crop is cleared, which puts a display there. */
  lemma PickedTargetStaysIff(before: seq<Step>, t: Task, filter: Filter, after: seq<Step>)
    requires t !in RunFrom(INIT, before).tasks && filter.target.Some? && !filter.target.value.Display?
    requires forall step | step in after :: !Chooses(step)
    ensures var x := RunFrom(INIT, before + [Pick(t, filter)] + after).selection;
      x.target == filter.target <==> ClearCrop !in after
  {
    RunFromConcat(INIT, before + [Pick(t, filter)], after);
    RunFromConcat(INIT, before, [Pick(t, filter)]);
    assert [Pick(t, filter)][1..] == [];
    TargetAfter(Do(RunFrom(INIT, before), Pick(t, filter)), after);
  }
}
