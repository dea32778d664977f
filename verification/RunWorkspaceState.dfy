/**
  The run progress register.  Progress events arrive through notifications and polling, in any order and
  repeatedly; the highest sequence number above the run's own wins.
 */
module RunWorkspaceState {
  import opened Wrappers

  datatype RunState = Queued | Running | Cancelling | Cancelled | Completed | Failed | Interrupted

  datatype Run = Run(runId: string, state: RunState, stage: string, progressSequence: int, frozen: string)

  datatype RunEvent = RunEvent(
    runId: string,
    sequence: int,
    state: RunState,
    stage: string,
    completedUnits: int,
    totalUnits: int,
    message: string)

  datatype Workspace = Workspace(
    currentRun: Option<Run>,
    resultId: Option<string>,
    completedUnits: int,
    totalUnits: int,
    progressMessage: string)

  // The event belongs to the current run and is newer than what it shows.
  predicate Fresh(w: Workspace, e: RunEvent) {
    && w.currentRun.Some?
    && w.currentRun.value.runId == e.runId
    && e.sequence > w.currentRun.value.progressSequence
  }

  function Units(w: Workspace, e: RunEvent): Workspace {
    w.(completedUnits := e.completedUnits, totalUnits := e.totalUnits, progressMessage := e.message)
  }

  function Apply(w: Workspace, e: RunEvent): Workspace {
    if !Fresh(w, e) then w
    else
      Units(w, e).(currentRun :=
        Some(w.currentRun.value.(state := e.state, stage := e.stage, progressSequence := e.sequence)))
  }

  function Restore(w: Workspace, e: RunEvent): Workspace {
    if w.currentRun.Some? && w.currentRun.value.runId == e.runId && e.sequence == w.currentRun.value.progressSequence
    then Units(w, e)
    else w
  }

  // The workspace displays all that the event says, for a run that it does not otherwise change.
  predicate Displays(w: Workspace, run: Run, resultId: Option<string>, e: RunEvent) {
    && w.currentRun == Some(Run(run.runId, e.state, e.stage, e.sequence, run.frozen)) && w.resultId == resultId
    && w.completedUnits == e.completedUnits && w.totalUnits == e.totalUnits && w.progressMessage == e.message
  }

  // A fresh event is displayed, any other leaves no trace; one read back brings only units and message, and only to the
  // sequence it belongs to.
  lemma EventsAreDisplayed(w: Workspace, e: RunEvent)
    ensures if Fresh(w, e) then Displays(Apply(w, e), w.currentRun.value, w.resultId, e) else Apply(w, e) == w
    ensures if w.currentRun.Some? && w.currentRun.value.runId == e.runId
               && w.currentRun.value.progressSequence == e.sequence
            then
              var run := w.currentRun.value;
              Displays(Restore(w, e), run, w.resultId, e.(state := run.state, stage := run.stage))
            else Restore(w, e) == w
  {
  }

  function ApplyAll(w: Workspace, events: seq<RunEvent>): Workspace
    decreases |events|
  {
    if events == [] then w else ApplyAll(Apply(w, events[0]), events[1..])
  }

  // ----- Convergence -----

  // No fresh event of the list has a higher sequence than e.
  ghost predicate Highest(w: Workspace, events: seq<RunEvent>, e: RunEvent) {
    Fresh(w, e) && e in events && forall d :: d in events && Fresh(w, d) ==> d.sequence <= e.sequence
  }

  ghost predicate FirstHighest(w: Workspace, events: seq<RunEvent>, i: nat) {
    && i < |events|
    && Highest(w, events, events[i])
    && forall j :: 0 <= j < i && Fresh(w, events[j]) ==> events[j].sequence < events[i].sequence
  }

  /**
    Whatever the order, repeats and stale or foreign events in between, the register ends on the first
    delivery of the highest sequence, or unchanged when nothing fresh was delivered.
   */
  lemma {:induction false} HighestWins(w: Workspace, events: seq<RunEvent>)
    ensures (forall e :: e in events ==> !Fresh(w, e)) ==> ApplyAll(w, events) == w
    ensures forall i: nat :: FirstHighest(w, events, i) ==> ApplyAll(w, events) == Apply(w, events[i])
    decreases |events|
  {
    if events != [] {
      var v := Apply(w, events[0]);
      HighestWins(v, events[1..]);
      forall i: nat | FirstHighest(w, events, i) ensures ApplyAll(w, events) == Apply(w, events[i]) {
        if i > 0 {
          assert events[1..][i - 1] == events[i];
          assert forall j :: 0 <= j < i - 1 ==> events[1..][j] == events[j + 1];
          assert FirstHighest(v, events[1..], i - 1);
        } else {
          assert forall e :: e in events[1..] ==> !Fresh(v, e);
        }
      }
    }
  }

  // So in the end it is the winner that is displayed.
  lemma WinnerIsDisplayed(w: Workspace, events: seq<RunEvent>, i: nat)
    requires FirstHighest(w, events, i)
    ensures Displays(ApplyAll(w, events), w.currentRun.value, w.resultId, events[i])
  {
    HighestWins(w, events);
    EventsAreDisplayed(w, events[i]);
  }

  // Some event comes first among the highest, when any is fresh.
  lemma {:induction false} HighestExists(w: Workspace, events: seq<RunEvent>, k: nat) returns (i: nat)
    requires k < |events| && Fresh(w, events[k])
    ensures FirstHighest(w, events, i)
    decreases |events|
  {
    var last := events[|events| - 1];
    var init := events[..|events| - 1];
    if exists j :: 0 <= j < |init| && Fresh(w, init[j]) {
      var j :| 0 <= j < |init| && Fresh(w, init[j]);
      i := HighestExists(w, init, j);
      if Fresh(w, last) && last.sequence > init[i].sequence {
        assert forall d :: d in events ==> d in init || d == last;
        i := |events| - 1;
      }
    } else {
      i := |events| - 1;
      assert forall j :: 0 <= j < i ==> events[j] == init[j];
    }
  }

  // Fresh events that tie for the highest sequence are the same event.
  ghost predicate Agree(w: Workspace, events: seq<RunEvent>) {
    forall d, e :: Highest(w, events, d) && Highest(w, events, e) ==> d == e
  }

  // Two deliveries of the same events, in any order and with any repeats, end in the same state if ...
  lemma DeliveriesConverge(w: Workspace, one: seq<RunEvent>, other: seq<RunEvent>)
    requires forall e :: e in one <==> e in other
    requires Agree(w, one)
    ensures ApplyAll(w, one) == ApplyAll(w, other)
  {
    HighestWins(w, one);
    HighestWins(w, other);
    if k: nat :| k < |one| && Fresh(w, one[k]) {
      var i := HighestExists(w, one, k);
      assert one[k] in other;
      var l: nat :| l < |other| && other[l] == one[k];
      var j := HighestExists(w, other, l);
      assert Highest(w, one, other[j]);
    } else {
      assert forall e :: e in one ==> !Fresh(w, e);
    }
  }

  // ... and only if equal top sequences carry equal events.
  lemma DisagreementDiverges(w: Workspace, events: seq<RunEvent>, d: RunEvent, e: RunEvent)
    requires Highest(w, events, d) && Highest(w, events, e) && d != e
    ensures ApplyAll(w, [d] + events) != ApplyAll(w, [e] + events)
    ensures forall x :: x in [d] + events <==> x in [e] + events
  {
    HighestWins(w, [d] + events);
    HighestWins(w, [e] + events);
    assert FirstHighest(w, [d] + events, 0);
    assert FirstHighest(w, [e] + events, 0);
  }

  // ----- The register -----

  // Events arrive as deliveries, or are read back from the store and restored.
  datatype Command = Deliver(event: RunEvent) | Stored(event: RunEvent)

  function Execute(w: Workspace, commands: seq<Command>): Workspace
    decreases |commands|
  {
    if commands == [] then w
    else
      var e := commands[0].event;
      Execute(if commands[0].Deliver? then Apply(w, e) else Restore(w, e), commands[1..])
  }

  function Deliveries(commands: seq<Command>): seq<RunEvent> {
    if commands == [] then []
    else (if commands[0].Deliver? then [commands[0].event] else []) + Deliveries(commands[1..])
  }

  // The units and message on display are those of the event with the displayed sequence.
  predicate Shows(w: Workspace, e: RunEvent) {
    w.currentRun.Some? && w.currentRun.value.runId == e.runId && w.currentRun.value.progressSequence == e.sequence
    && Units(w, e) == w
  }

  ghost predicate SameIfSameSequence(events: set<RunEvent>) {
    forall d, e :: d in events && e in events && d.runId == e.runId && d.sequence == e.sequence ==> d == e
  }

  // Once some event is shown, restores, wherever they fall, change nothing: only the deliveries count.
  lemma {:induction false} RestoresChangeNothing(w: Workspace, shown: RunEvent, commands: seq<Command>,
                                                 all: set<RunEvent>)
    requires Shows(w, shown) && SameIfSameSequence(all)
    requires shown in all && forall c :: c in commands ==> c.event in all
    ensures Execute(w, commands) == ApplyAll(w, Deliveries(commands))
    decreases |commands|
  {
    if commands != [] {
      var e := commands[0].event;
      assert commands[0] in commands;
      if commands[0].Deliver? {
        assert Deliveries(commands) == [e] + Deliveries(commands[1..]);
        assert Deliveries(commands)[1..] == Deliveries(commands[1..]);
        RestoresChangeNothing(Apply(w, e), if Fresh(w, e) then e else shown, commands[1..], all);
      } else {
        assert Restore(w, e) == w;
        assert Deliveries(commands) == Deliveries(commands[1..]);
        RestoresChangeNothing(w, shown, commands[1..], all);
      }
    }
  }

  // ----- The register -----

  class RunWorkspaceState {
    var currentRun: Option<Run>
    var resultId: Option<string>
    var completedUnits: int
    var totalUnits: int
    var progressMessage: string

    function View(): Workspace
      reads this
    {
      Workspace(currentRun, resultId, completedUnits, totalUnits, progressMessage)
    }

    constructor ()
      ensures View() == Workspace(None, None, 0, 0, "")
    {
      currentRun, resultId, completedUnits, totalUnits, progressMessage := None, None, 0, 0, "";
    }

    method SetRun(run: Run, resultId: Option<string>)
      modifies this
      ensures View() == Workspace(Some(run), resultId, 0, 0, "")
    {
      currentRun := Some(run);
      this.resultId := resultId;
      completedUnits, totalUnits := 0, 0;
      progressMessage := "";
    }

    method RestoreProgress(e: RunEvent)
      modifies this
      ensures View() == Restore(old(View()), e) && currentRun == old(currentRun) && resultId == old(resultId)
      ensures if currentRun.Some? && currentRun.value.runId == e.runId
                 && currentRun.value.progressSequence == e.sequence
              then completedUnits == e.completedUnits && totalUnits == e.totalUnits && progressMessage == e.message
              else View() == old(View())
    {
      if currentRun.None? || currentRun.value.runId != e.runId || e.sequence != currentRun.value.progressSequence {
        return;
      }
      completedUnits := e.completedUnits;
      totalUnits := e.totalUnits;
      progressMessage := e.message;
    }

    // The displayed sequence never goes down, and goes up exactly when the event was taken.
    method TryApply(e: RunEvent) returns (applied: bool)
      modifies this
      ensures applied == Fresh(old(View()), e) && View() == Apply(old(View()), e)
      ensures if applied then Displays(View(), old(currentRun).value, old(resultId), e) else View() == old(View())
      ensures currentRun.Some? == old(currentRun).Some?
      ensures currentRun.Some? ==>
                && currentRun.value.progressSequence >= old(currentRun).value.progressSequence
                && (currentRun.value.progressSequence > old(currentRun).value.progressSequence <==> applied)
    {
      if currentRun.None? || currentRun.value.runId != e.runId || e.sequence <= currentRun.value.progressSequence {
        return false;
      }
      currentRun := Some(currentRun.value.(state := e.state, stage := e.stage, progressSequence := e.sequence));
      completedUnits := e.completedUnits;
      totalUnits := e.totalUnits;
      progressMessage := e.message;
      return true;
    }
  }
}
