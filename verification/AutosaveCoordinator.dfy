/**
  The coordinator object itself.  Each method is one critical section; View reads the fields as a
  Client, and every method is proved to act on View exactly as the machine of AutosaveModel does.
 */
module AutosaveCoordinator {
  import opened Wrappers
  import opened AutosaveModel

  class SaveAttempt<D> {
    const originalDraft: D
    const generation: nat
    const transactionId: Tx
    var preparedDraft: Option<D>

    constructor (originalDraft: D, generation: nat, transactionId: Tx)
      ensures this.originalDraft == originalDraft && this.generation == generation
      ensures this.transactionId == transactionId && preparedDraft == None
    {
      this.originalDraft, this.generation, this.transactionId := originalDraft, generation, transactionId;
      preparedDraft := None;
    }

    function View(): Attempt<D>
      reads this
    {
      Attempt(originalDraft, generation, transactionId, preparedDraft)
    }
  }

  function SlotView<D>(a: SaveAttempt?<D>): Option<Attempt<D>>
    reads a
  {
    if a == null then None else Some(a.View())
  }

  // What the environment does during one save of a drain: the edits queued while it is in flight, how a
  // rebase that throws would be classified, and how the save ends.
  datatype Outcome<C> = Saves(canonical: C) | Fails(kind: FailureKind) | Cancels

  datatype SaveScript<D, C> = SaveScript(tx: Tx, edits: seq<D>, rebaseFailure: FailureKind, outcome: Outcome<C>)

  datatype DrainEnd = Drained | Parked | Interrupted | StillSaving

  // The edits queued during a list of saves.
  function Edits<D, C>(saves: seq<SaveScript<D, C>>): seq<D> {
    if saves == [] then [] else Edits(saves[..|saves| - 1]) + saves[|saves| - 1].edits
  }

  // The edits taken in: none after disposal.
  function Accepted<D>(disposed: bool, edits: seq<D>): seq<D> {
    if disposed then [] else edits
  }

  // How many saves have begun when a drain ends so, with so many of them saved.
  function Begun(end: DrainEnd, saved: nat): nat {
    if end.Parked? || end.Interrupted? then saved + 1 else saved
  }

  // The newest draft after further edits.
  function Newest<D>(was: Option<D>, edits: seq<D>): Option<D> {
    if edits == [] then was else Some(edits[|edits| - 1])
  }

  // The draft of a generation, counting the edits on from a draft and its generation.
  function DraftOf<D>(was: Option<D>, generation: nat, edits: seq<D>, g: nat): Option<D> {
    if g <= generation then was
    else if g <= generation + |edits| then Some(edits[g - generation - 1])
    else None
  }

  // A commit of a generation above the one before, saving that generation's draft.
  predicate SavesOwn<D(==)>(was: Option<D>, generation: nat, edits: seq<D>, commits: seq<nat>, drafts: seq<D>, i: nat)
    requires i < |commits| == |drafts|
  {
    && (i > 0 ==> commits[i - 1] < commits[i])
    && generation <= commits[i] <= generation + |edits|
    && DraftOf(was, generation, edits, commits[i]) == Some(drafts[i])
  }

  // The commits have rising generations, and each saved the draft of its own.
  ghost predicate SavesItsOwn<D>(was: Option<D>, generation: nat, edits: seq<D>, commits: seq<nat>, drafts: seq<D>) {
    |drafts| == |commits| && forall i :: 0 <= i < |commits| ==> SavesOwn(was, generation, edits, commits, drafts, i)
  }

  lemma SavesThroughout<D>(was: Option<D>, generation: nat, edits: seq<D>, commits: seq<nat>, drafts: seq<D>,
                           more: seq<D>)
    requires SavesItsOwn(was, generation, edits, commits, drafts)
    ensures SavesItsOwn(was, generation, edits + more, commits, drafts)
  {
    forall i | 0 <= i < |commits| ensures SavesOwn(was, generation, edits + more, commits, drafts, i) {
      assert SavesOwn(was, generation, edits, commits, drafts, i);
    }
  }

  lemma SavesMore<D>(was: Option<D>, generation: nat, edits: seq<D>, commits: seq<nat>, drafts: seq<D>,
                     draft: D, more: seq<D>)
    requires SavesItsOwn(was, generation, edits, commits, drafts) && Newest(was, edits) == Some(draft)
    requires commits != [] ==> commits[|commits| - 1] < generation + |edits|
    ensures SavesItsOwn(was, generation, edits + more, commits + [generation + |edits|], drafts + [draft])
  {
    var all, allDrafts := commits + [generation + |edits|], drafts + [draft];
    forall i | 0 <= i < |all| ensures SavesOwn(was, generation, edits + more, all, allDrafts, i) {
      if i < |commits| {
        assert SavesOwn(was, generation, edits, commits, drafts, i);
      }
    }
  }

  lemma SavesAfter<D>(was: Option<D>, generation: nat, edits: seq<D>, more: seq<D>, commits: seq<nat>, drafts: seq<D>)
    requires SavesItsOwn(Newest(was, edits), generation + |edits|, more, commits, drafts)
    ensures SavesItsOwn(was, generation, edits + more, commits, drafts)
  {
    forall i | 0 <= i < |commits| ensures SavesOwn(was, generation, edits + more, commits, drafts, i) {
      assert SavesOwn(Newest(was, edits), generation + |edits|, more, commits, drafts, i);
    }
  }

  lemma NewestAfter<D>(was: Option<D>, edits: seq<D>, more: seq<D>)
    ensures Newest(was, edits + more) == Newest(Newest(was, edits), more)
  {
  }

  lemma {:induction false} EditsFrom<D, C>(first: SaveScript<D, C>, saves: seq<SaveScript<D, C>>)
    ensures Edits([first] + saves) == first.edits + Edits(saves)
  {
    var n := |saves|;
    if n == 0 {
      assert ([first] + saves)[..0] == [];
    } else {
      EditsFrom(first, saves[..n - 1]);
      assert ([first] + saves)[..n] == [first] + saves[..n - 1];
    }
  }

  // A retried attempt is saved first; the commits behind it save their own edits.
  ghost predicate SavesRetriedFirst<D>(retried: nat, draft: D, was: Option<D>, generation: nat, edits: seq<D>,
                                       commits: seq<nat>, drafts: seq<D>) {
    && commits != [] && drafts != [] && commits[0] == retried && drafts[0] == draft
    && SavesItsOwn(was, generation, edits, commits[1..], drafts[1..])
    && (|commits| > 1 ==> commits[0] < commits[1])
  }

  lemma EditsBegun<D, C>(first: SaveScript<D, C>, script: seq<SaveScript<D, C>>, k: nat)
    requires k <= |script|
    ensures Edits(([first] + script)[..k + 1]) == first.edits + Edits(script[..k])
  {
    EditsFrom(first, script[..k]);
    assert ([first] + script)[..k + 1] == [first] + script[..k];
  }

  lemma RetryThenDrain<D, C>(retried: nat, draft: D, was: Option<D>, generation: nat, first: SaveScript<D, C>,
                             script: seq<SaveScript<D, C>>, k: nat, commits: seq<nat>, drafts: seq<D>)
    requires k <= |script|
    requires SavesItsOwn(Newest(was, first.edits), generation + |first.edits|, Edits(script[..k]), commits, drafts)
    requires commits != [] ==> retried < generation + |first.edits|
    ensures var edits := Edits(([first] + script)[..k + 1]);
            && |edits| == |first.edits| + |Edits(script[..k])|
            && Newest(was, edits) == Newest(Newest(was, first.edits), Edits(script[..k]))
            && SavesRetriedFirst(retried, draft, was, generation, edits, [retried] + commits, [draft] + drafts)
  {
    var more := Edits(script[..k]);
    EditsBegun(first, script, k);
    NewestAfter(was, first.edits, more);
    SavesAfter(was, generation, first.edits, more, commits, drafts);
    assert commits != [] ==> SavesOwn(Newest(was, first.edits), generation + |first.edits|, more, commits, drafts, 0);
    assert ([retried] + commits)[1..] == commits && ([draft] + drafts)[1..] == drafts;
  }

  class Coordinator<!D, !C> {
    const rebase: (D, C) -> Option<D>
    var latestDraft: Option<D>
    var generation: nat
    var pending: bool
    var retryAttempt: SaveAttempt?<D>
    var conflictAttempt: SaveAttempt?<D>
    var disposed: bool
    var phase: Phase
    var canonical: Option<C>
    // The argument of the one ExecuteAttempt that is running.
    var inFlight: SaveAttempt?<D>

    constructor (rebase: (D, C) -> Option<D>, canonical: Option<C>)
      ensures Sound()
      ensures this.rebase == rebase && this.canonical == canonical
      ensures forall current: C :: View() == Initial<D, C>(current, canonical).client
    {
      this.rebase, this.canonical := rebase, canonical;
      latestDraft, generation, pending := None, 0, false;
      retryAttempt, conflictAttempt, inFlight := null, null, null;
      disposed, phase := false, Phase.Saved;
    }

    // The slots never hold two different attempts.
    ghost predicate Valid()
      reads this
    {
      && (inFlight != null && retryAttempt != null ==> inFlight == retryAttempt)
      && (inFlight != null && conflictAttempt != null ==> inFlight == conflictAttempt)
      && (retryAttempt != null && conflictAttempt != null ==> retryAttempt == conflictAttempt)
    }

    // A parked or running attempt carries the newest edit, or an older generation than a pending one.
    ghost predicate SlotCurrent(a: SaveAttempt?<D>)
      reads this
    {
      a != null ==>
        if pending then a.generation < generation
        else a.generation == generation && latestDraft == Some(a.originalDraft)
    }

    ghost predicate Sound()
      reads this
    {
      && Valid() && SlotCurrent(inFlight) && SlotCurrent(retryAttempt) && SlotCurrent(conflictAttempt)
      && (pending ==> latestDraft.Some?)
    }

    function View(): Client<D>
      reads this, retryAttempt, conflictAttempt, inFlight
    {
      Client(latestDraft, generation, pending, SlotView(retryAttempt), SlotView(conflictAttempt),
             phase, disposed, SlotView(inFlight))
    }

    method Queue(draft: D) returns (accepted: bool)
      requires Valid()
      modifies this`latestDraft, this`generation, this`pending, this`phase
      ensures Valid() && (old(Sound()) ==> Sound()) && accepted == !disposed
      ensures View() == if accepted then QueueDraft(old(View()), draft) else old(View())
      ensures phase == if accepted && retryAttempt == null && conflictAttempt == null then Phase.Pending else old(phase)
    {
      if disposed {
        return false;
      }
      latestDraft := Some(draft);
      generation := generation + 1;
      pending := true;
      if retryAttempt == null && conflictAttempt == null {
        phase := Phase.Pending;
      }
      return true;
    }

    method Dispose() returns (first: bool)
      requires Valid()
      modifies this`disposed
      ensures Valid() && (old(Sound()) ==> Sound()) && first == !old(disposed)
      ensures View() == old(View()).(disposed := true)
    {
      first := !disposed;
      disposed := true;
    }

    // What remains when the drain gate is free again.
    method Stop()
      requires Valid() && disposed
      modifies this`phase
      ensures Valid() && (old(Sound()) ==> Sound()) && View() == old(View()).(phase := Phase.Stopped)
    {
      phase := Phase.Stopped;
    }

    // The head of the drain loop, under the drain gate.
    method TakeAttempt(transactionId: Tx) returns (taken: bool)
      requires Valid() && inFlight == null
      modifies this`inFlight, this`pending
      ensures Valid() && taken == CanTake(old(View()))
      ensures View() == if taken then AutosaveModel.TakeAttempt(old(View()), transactionId) else old(View())
      ensures taken == old(Ready()) && if taken then fresh(inFlight) else unchanged(this)
    {
      if !pending || latestDraft.None? || retryAttempt != null || conflictAttempt != null {
        return false;
      }
      inFlight := new SaveAttempt(latestDraft.value, generation, transactionId);
      pending := false;
      return true;
    }

    // Something to save, and nothing parked.
    predicate Ready()
      reads this
    {
      pending && latestDraft.Some? && retryAttempt == null && conflictAttempt == null
    }

    method AnnounceSaving()
      requires Valid() && inFlight != null
      modifies this`phase
      ensures Valid() && View() == old(View()).(phase := Phase.Saving)
    {
      phase := Phase.Saving;
    }

    // The callback that runs under the store's write gate: prepare once, then send.  None: rebase threw.
    method PrepareAndSend() returns (request: Option<Request<D>>)
      requires Valid() && inFlight != null
      modifies inFlight
      ensures Valid() && (old(Sound()) ==> Sound())
      ensures var a := old(View()).inFlight.value;
              var payload := PreparedDraft(rebase, a, canonical);
              if payload.None? then request == None && View() == old(View())
              else request == Some(Request(a.tx, payload.value))
                   && View() == PrepareAttempt(old(View()), payload.value)
      ensures match old(inFlight.preparedDraft)
              case Some(draft) => request == Some(Request(inFlight.transactionId, draft))
              case None =>
                if canonical.None? then request == Some(Request(inFlight.transactionId, inFlight.originalDraft))
                else
                  var rebased := rebase(inFlight.originalDraft, canonical.value);
                  if rebased.None? then request == None
                  else request == Some(Request(inFlight.transactionId, rebased.value))
      ensures request.Some? ==> inFlight.preparedDraft == Some(request.value.payload)
    {
      if inFlight.preparedDraft.None? {
        if canonical.None? {
          inFlight.preparedDraft := Some(inFlight.originalDraft);
        } else {
          var rebased := rebase(inFlight.originalDraft, canonical.value);
          if rebased.None? {
            return None;
          }
          inFlight.preparedDraft := rebased;
        }
      }
      return Some(Request(inFlight.transactionId, inFlight.preparedDraft.value));
    }

    method OnFailed(kind: FailureKind)
      requires Valid() && inFlight != null
      modifies this`latestDraft, this`retryAttempt, this`conflictAttempt, this`phase, this`inFlight
      ensures Valid() && View() == AttemptFailed(old(View()), kind)
      ensures retryAttempt == (if kind.Offline? then old(inFlight) else old(retryAttempt))
      ensures conflictAttempt == (if kind.Conflict? then old(inFlight) else old(conflictAttempt))
      ensures latestDraft == if pending then old(latestDraft) else Some(old(inFlight.originalDraft))
      ensures inFlight == null && phase == (match kind
                                            case Offline => Phase.OfflineRetry
                                            case Conflict => Phase.Conflict
                                            case Blocked => Phase.Blocked)
      ensures old(Sound()) ==> Sound()
    {
      var attempt := inFlight;
      inFlight := null;
      if !pending {
        latestDraft := Some(attempt.originalDraft);
      }
      match kind {
        case Offline =>
          retryAttempt := attempt;
          phase := Phase.OfflineRetry;
        case Conflict =>
          conflictAttempt := attempt;
          phase := Phase.Conflict;
        case Blocked =>
          phase := Phase.Blocked;
      }
    }

    // The response arrived: the store keeps it, the slots are cleared, and either a newer edit is
    // rebased for the event or the draft slot is emptied.
    method OnSaved(response: C, kind: FailureKind)
      returns (commit: Option<Commit>, pendingDraft: Option<D>)
      requires Valid() && inFlight != null
      modifies this`canonical, this`latestDraft, this`retryAttempt, this`conflictAttempt, this`phase, this`inFlight
      ensures Valid() && canonical == Some(response)
      ensures View() == AttemptSaved(rebase, old(View()), response, kind)
      ensures commit == if RebaseThrows(rebase, old(View()), response) then None
                        else Some(Commit(old(inFlight.generation), old(inFlight.transactionId)))
      ensures pendingDraft == if old(pending) && old(latestDraft).Some? && commit.Some?
                              then rebase(old(latestDraft).value, response) else None
      ensures inFlight == null
      ensures old(Sound()) ==> Sound()
      ensures commit.Some? ==> retryAttempt == null && conflictAttempt == null
                               && (if pending then
                                     phase.Pending? && (old(latestDraft).Some? ==> latestDraft == old(latestDraft))
                                   else latestDraft.None? && phase.Saved?)
      ensures commit.None? ==> pending && latestDraft == old(latestDraft)
                               && (retryAttempt != null || conflictAttempt != null || phase.Blocked?)
    {
      canonical := Some(response);
      var attempt := inFlight;
      retryAttempt := null;
      conflictAttempt := null;
      pendingDraft := None;
      if pending && latestDraft.Some? {
        pendingDraft := rebase(latestDraft.value, response);
        if pendingDraft.None? {
          OnFailed(kind);
          return None, None;
        }
      } else {
        latestDraft := None;
      }
      phase := if pending then Phase.Pending else Phase.Saved;
      inFlight := null;
      return Some(Commit(attempt.generation, attempt.transactionId)), pendingDraft;
    }

    method OnCancelled()
      requires Valid() && inFlight != null
      modifies this`inFlight
      ensures Valid() && View() == AttemptCancelled(old(View()))
    {
      inFlight := null;
    }

    method BeginRetry() returns (begun: bool)
      requires Valid() && inFlight == null
      modifies this`inFlight
      ensures Valid() && begun == (!disposed && retryAttempt != null)
      ensures View() == if begun then RetryAttempt(old(View())) else old(View())
    {
      if disposed || retryAttempt == null {
        return false;
      }
      inFlight := retryAttempt;
      return true;
    }

    method ReloadConflict(current: C) returns (done: bool)
      requires Valid() && inFlight == null
      modifies this
      ensures Valid() && (old(Sound()) ==> Sound()) && done == !old(disposed) && canonical == Some(current)
      ensures View() == if done then Reloaded(old(View())) else old(View())
      ensures done ==> phase.Saved? && latestDraft.None? && !pending
    {
      canonical := Some(current);
      if disposed {
        return false;
      }
      latestDraft := None;
      pending := false;
      retryAttempt := null;
      conflictAttempt := null;
      phase := Phase.Saved;
      return true;
    }

    method ReapplyConflict(current: C) returns (done: bool)
      requires Valid() && inFlight == null
      modifies this
      ensures Valid() && (old(Sound()) ==> Sound()) && canonical == Some(current)
      ensures done == (!old(disposed) && DraftToReapply(old(View())).Some?)
      ensures View() == if done then Reapplied(old(View())) else old(View())
      ensures done ==> phase.Pending? && pending
      ensures done ==> latestDraft == if old(latestDraft).Some? then old(latestDraft)
                                      else Some(old(conflictAttempt).originalDraft)
    {
      canonical := Some(current);
      if disposed {
        return false;
      }
      var draft := latestDraft;
      if draft.None? && conflictAttempt != null {
        draft := Some(conflictAttempt.originalDraft);
      }
      if draft.None? {
        return false;
      }
      latestDraft := draft;
      pending := true;
      retryAttempt := null;
      conflictAttempt := null;
      phase := Phase.Pending;
      return true;
    }

    // The drain loop against a script of what happens to each save.  The commits it publishes carry strictly
    // increasing generations, each saving the edit of its generation.  A drain that ends Drained leaves nothing to
    // save: if there was anything, the last commit saved the newest edit.  Any other end keeps the newest edit.
    method Drain(script: seq<SaveScript<D, C>>)
      returns (end: DrainEnd, commits: seq<nat>, ghost drafts: seq<D>, ghost edits: seq<D>)
      requires Sound() && inFlight == null
      modifies this
      ensures Sound() && disposed == old(disposed)
      ensures Begun(end, |commits|) <= |script| && edits == Accepted(disposed, Edits(script[..Begun(end, |commits|)]))
      ensures generation == old(generation) + |edits|
      ensures SavesItsOwn(old(latestDraft), old(generation), edits, commits, drafts)
      ensures end.StillSaving? <==> inFlight != null
      ensures !old(Ready()) ==> end.Drained?
      ensures !end.Drained? ==> latestDraft.Some? && latestDraft == Newest(old(latestDraft), edits)
      ensures end.Parked? ==> retryAttempt != null || conflictAttempt != null || phase.Blocked?
      ensures end.Drained? ==>
                && !Ready()
                && (old(Ready()) ==>
                      && latestDraft.None? && !pending && phase.Saved?
                      && commits != [] && commits[|commits| - 1] == generation
                      && Some(drafts[|drafts| - 1]) == Newest(old(latestDraft), edits))
                && (!old(Ready()) ==> commits == [] && unchanged(this))
    {
      commits, drafts, edits := [], [], [];
      var i := 0;
      ghost var began := Ready();
      while true
        invariant 0 <= i <= |script| && i == |commits| == |drafts|
        invariant Sound() && inFlight == null && disposed == old(disposed)
        invariant edits == Accepted(disposed, Edits(script[..i])) && generation == old(generation) + |edits|
        invariant SavesItsOwn(old(latestDraft), old(generation), edits, commits, drafts)
        invariant commits != [] && pending ==> commits[|commits| - 1] < generation
        invariant i == 0 ==> unchanged(this)
        invariant pending ==> latestDraft == Newest(old(latestDraft), edits)
        invariant i > 0 ==> began && retryAttempt == null && conflictAttempt == null
        invariant i > 0 && !pending ==>
                    && latestDraft.None? && phase.Saved? && commits[i - 1] == generation
                    && Some(drafts[i - 1]) == Newest(old(latestDraft), edits)
        decreases |script| - i
      {
        if i == |script| {
          var taken := TakeAttempt("");
          end := if taken then StillSaving else Drained;
          return;
        }
        ghost var draft := latestDraft;
        var taken, saved;
        taken, end, saved := DrainOnce(script[i]);
        if !taken {
          return;
        }
        assert script[..i + 1][..i] == script[..i];
        ghost var before, more := edits, Accepted(disposed, script[i].edits);
        edits := before + more;
        NewestAfter(old(latestDraft), before, more);
        if !end.Drained? {
          SavesThroughout(old(latestDraft), old(generation), before, commits, drafts, more);
          return;
        }
        SavesMore(old(latestDraft), old(generation), before, commits, drafts, draft.value, more);
        commits, drafts := commits + [saved], drafts + [draft.value];
        i := i + 1;
      }
    }

    // One turn of the drain loop.
    method DrainOnce(save: SaveScript<D, C>) returns (taken: bool, end: DrainEnd, generationSaved: nat)
      requires Sound() && inFlight == null
      modifies this
      ensures Sound() && inFlight == null && disposed == old(disposed)
      ensures taken == old(Ready()) && !end.StillSaving? && (!taken ==> end.Drained? && unchanged(this))
      ensures taken ==>
                && generationSaved == old(generation)
                && generation == old(generation) + |Accepted(disposed, save.edits)|
      ensures end.Parked? ==> retryAttempt != null || conflictAttempt != null || phase.Blocked?
      ensures taken && (!end.Drained? || pending) ==>
                latestDraft.Some? && latestDraft == Newest(old(latestDraft), Accepted(disposed, save.edits))
      ensures taken && end.Drained? ==>
                && retryAttempt == null && conflictAttempt == null
                && (if pending then generationSaved < generation
                    else
                      && generation == generationSaved && latestDraft.None? && phase.Saved?
                      && Newest(old(latestDraft), Accepted(disposed, save.edits)) == old(latestDraft))
    {
      end, generationSaved := Drained, generation;
      taken := TakeAttempt(save.tx);
      if taken {
        generationSaved := inFlight.generation;
        end := ExecuteAttempt(save);
      }
    }

    // A retry: the parked attempt again and then, if it is saved, a drain.  It may start with newer edits pending
    // behind it, and one that meets a conflict fills the second slot beside the first.  Whatever happens, the newest
    // edit ends up saved by the last commit or kept in the draft slot.
    method Retry(first: SaveScript<D, C>, script: seq<SaveScript<D, C>>)
      returns (begun: bool, end: DrainEnd, commits: seq<nat>, ghost drafts: seq<D>, ghost edits: seq<D>)
      requires Sound() && inFlight == null
      modifies this, retryAttempt
      ensures Sound() && disposed == old(disposed)
      ensures begun == (!old(disposed) && old(retryAttempt) != null)
      ensures !begun ==> unchanged(this) && commits == [] && edits == []
      ensures begun ==>
                && Begun(end, |commits|) <= 1 + |script|
                && edits == Edits(([first] + script)[..Begun(end, |commits|)])
      ensures generation == old(generation) + |edits|
      ensures commits != [] ==>
                begun && SavesRetriedFirst(old(retryAttempt).generation, old(retryAttempt).originalDraft,
                                           old(latestDraft), old(generation), edits, commits, drafts)
      ensures begun && !end.Drained? ==> latestDraft.Some? && latestDraft == Newest(old(latestDraft), edits)
      ensures begun && end.Parked? ==> retryAttempt != null || conflictAttempt != null || phase.Blocked?
      ensures begun && end.Drained? ==>
                && latestDraft.None? && !pending && phase.Saved? && retryAttempt == null && conflictAttempt == null
                && commits != [] && commits[|commits| - 1] == generation
                && Some(drafts[|drafts| - 1]) == Newest(old(latestDraft), edits)
      ensures begun && first.outcome == Fails(FailureKind.Conflict)
              && PreparedDraft(rebase, old(retryAttempt.View()), old(canonical)).Some? ==>
                end.Parked? && retryAttempt == conflictAttempt == old(retryAttempt)
    {
      end, commits, drafts, edits := Drained, [], [], [];
      var retried := retryAttempt;
      begun, end := RetryOnce(first);
      if !begun {
        return;
      }
      edits := Edits(([first] + script)[..1]);
      EditsBegun(first, script, 0);
      if end.Drained? {
        end, commits, drafts, edits :=
          DrainBehind(retried, first, script, old(latestDraft), old(generation));
      }
    }

    // The drain behind a retried attempt that was saved; was and start are draft and generation before the retry.
    method DrainBehind(retried: SaveAttempt<D>, ghost first: SaveScript<D, C>, script: seq<SaveScript<D, C>>,
                       ghost was: Option<D>, ghost start: nat)
      returns (end: DrainEnd, commits: seq<nat>, ghost drafts: seq<D>, ghost edits: seq<D>)
      requires Sound() && inFlight == null && !disposed && retryAttempt == null && conflictAttempt == null
      requires generation == start + |first.edits|
      requires if pending then retried.generation < generation && latestDraft == Newest(was, first.edits)
               else
                 && retried.generation == generation && latestDraft.None? && phase.Saved?
                 && Newest(was, first.edits) == Some(retried.originalDraft)
      modifies this
      ensures Sound() && disposed == old(disposed)
      ensures 1 <= Begun(end, |commits|) <= 1 + |script|
      ensures edits == Edits(([first] + script)[..Begun(end, |commits|)]) && generation == start + |edits|
      ensures SavesRetriedFirst(retried.generation, retried.originalDraft, was, start, edits, commits, drafts)
      ensures !end.Drained? ==> latestDraft.Some? && latestDraft == Newest(was, edits)
      ensures end.Parked? ==> retryAttempt != null || conflictAttempt != null || phase.Blocked?
      ensures end.Drained? ==>
                && latestDraft.None? && !pending && phase.Saved? && retryAttempt == null && conflictAttempt == null
                && commits[|commits| - 1] == generation && Some(drafts[|drafts| - 1]) == Newest(was, edits)
    {
      end, commits, drafts, edits := Drain(script);
      ghost var k := Begun(end, |commits|);
      RetryThenDrain(retried.generation, retried.originalDraft, was, start, first, script, k, commits, drafts);
      commits, drafts := [retried.generation] + commits, [retried.originalDraft] + drafts;
      edits := Edits(([first] + script)[..k + 1]);
    }

    // The parked attempt again.
    method RetryOnce(save: SaveScript<D, C>) returns (begun: bool, end: DrainEnd)
      requires Sound() && inFlight == null
      modifies this, retryAttempt
      ensures Sound() && inFlight == null && disposed == old(disposed)
      ensures begun == (!disposed && old(retryAttempt) != null) && !end.StillSaving?
      ensures !begun ==> unchanged(this)
      ensures begun ==> generation == old(generation) + |save.edits|
      ensures end.Parked? ==> retryAttempt != null || conflictAttempt != null || phase.Blocked?
      ensures begun && (!end.Drained? || pending) ==>
                latestDraft.Some? && latestDraft == Newest(old(latestDraft), save.edits)
      ensures begun && end.Drained? ==>
                && retryAttempt == null && conflictAttempt == null
                && (if pending then old(retryAttempt).generation < generation
                    else
                      && generation == old(retryAttempt).generation && latestDraft.None? && phase.Saved?
                      && Newest(old(latestDraft), save.edits) == Some(old(retryAttempt).originalDraft))
      ensures begun && save.outcome == Fails(FailureKind.Conflict)
              && PreparedDraft(rebase, old(retryAttempt.View()), old(canonical)).Some? ==>
                end.Parked? && retryAttempt == conflictAttempt == old(retryAttempt)
    {
      end := Drained;
      begun := BeginRetry();
      if begun {
        end := ExecuteAttempt(save);
      }
    }

    // One attempt from its announcement to its end; Drained here means that it was saved.
    method ExecuteAttempt(script: SaveScript<D, C>) returns (end: DrainEnd)
      requires Sound() && inFlight != null
      modifies this, inFlight
      ensures Sound() && inFlight == null && !end.StillSaving? && disposed == old(disposed)
      ensures generation == old(generation) + |Accepted(disposed, script.edits)|
      ensures PreparedDraft(rebase, old(View()).inFlight.value, old(canonical)).Some? ==>
                && (script.outcome.Cancels? ==> end.Interrupted?)
                && (script.outcome.Fails? ==> end.Parked?)
                && (script.outcome.Saves? ==> !end.Interrupted?)
                && (script.outcome == Fails(Offline) ==> retryAttempt == old(inFlight))
                && (script.outcome == Fails(FailureKind.Conflict) ==>
                      conflictAttempt == old(inFlight) && retryAttempt == old(retryAttempt))
      ensures end.Parked? ==> retryAttempt != null || conflictAttempt != null || phase.Blocked?
      ensures end.Interrupted? ==> retryAttempt == old(retryAttempt) && conflictAttempt == old(conflictAttempt)
      ensures !end.Drained? || pending ==>
                latestDraft.Some? && latestDraft == Newest(old(latestDraft), Accepted(disposed, script.edits))
      ensures end.Drained? ==>
                && retryAttempt == null && conflictAttempt == null
                && (pending ==> old(inFlight.generation) < generation)
                && (!pending ==>
                      && generation == old(inFlight.generation) && latestDraft.None? && phase.Saved?
                      && Newest(old(latestDraft), Accepted(disposed, script.edits)) ==
                         Some(old(inFlight.originalDraft)))
    {
      var sent := Send(script.edits);
      if !sent {
        OnFailed(script.rebaseFailure);
        return Parked;
      }
      end := EndAttempt(script);
    }

    // The first half of an attempt, with the edits that arrive before its end.
    method Send(edits: seq<D>) returns (sent: bool)
      requires Sound() && inFlight != null
      modifies this, inFlight
      ensures Sound() && inFlight == old(inFlight) && disposed == old(disposed) && canonical == old(canonical)
      ensures retryAttempt == old(retryAttempt) && conflictAttempt == old(conflictAttempt)
      ensures sent == PreparedDraft(rebase, old(inFlight.View()), canonical).Some?
      ensures generation == old(generation) + |Accepted(disposed, edits)|
      ensures latestDraft == Newest(old(latestDraft), Accepted(disposed, edits))
    {
      AnnounceSaving();
      var request := PrepareAndSend();
      QueueDuring(edits);
      return request.Some?;
    }

    // How a request that was sent ends.
    method EndAttempt(script: SaveScript<D, C>) returns (end: DrainEnd)
      requires Sound() && inFlight != null
      modifies this
      ensures Sound() && inFlight == null && !end.StillSaving?
      ensures generation == old(generation) && pending == old(pending) && disposed == old(disposed)
      ensures !end.Drained? || pending ==> latestDraft.Some? && latestDraft == old(latestDraft)
      ensures match script.outcome
              case Cancels => end.Interrupted? && retryAttempt == old(retryAttempt)
                              && conflictAttempt == old(conflictAttempt)
              case Fails(kind) =>
                && end.Parked?
                && retryAttempt == (if kind.Offline? then old(inFlight) else old(retryAttempt))
                && conflictAttempt == (if kind.Conflict? then old(inFlight) else old(conflictAttempt))
              case Saves(_) => !end.Interrupted?
      ensures end.Parked? ==> retryAttempt != null || conflictAttempt != null || phase.Blocked?
      ensures end.Drained? ==>
                && retryAttempt == null && conflictAttempt == null
                && (pending ==> old(inFlight.generation) < generation)
                && (!pending ==> generation == old(inFlight.generation) && latestDraft.None? && phase.Saved?)
    {
      match script.outcome {
        case Cancels =>
          OnCancelled();
          return Interrupted;
        case Fails(kind) =>
          OnFailed(kind);
          return Parked;
        case Saves(response) =>
          var commit, pendingDraft := OnSaved(response, script.rebaseFailure);
          return if commit.None? then Parked else Drained;
      }
    }

    // Edits that arrive while a save is in flight.
    method QueueDuring(edits: seq<D>)
      requires Sound() && inFlight != null
      modifies this`latestDraft, this`generation, this`pending, this`phase
      ensures Sound() && generation == old(generation) + |Accepted(disposed, edits)|
      ensures latestDraft == Newest(old(latestDraft), Accepted(disposed, edits))
    {
      var i := 0;
      while i < |edits|
        invariant 0 <= i <= |edits|
        invariant Sound() && generation == old(generation) + |Accepted(disposed, edits[..i])|
        invariant latestDraft == Newest(old(latestDraft), Accepted(disposed, edits[..i]))
      {
        var accepted := Queue(edits[i]);
        i := i + 1;
      }
      assert edits[..i] == edits;
    }
  }
}
