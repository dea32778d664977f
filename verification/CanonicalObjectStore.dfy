/**
  The canonical objects shared by all windows, one entry and one write gate per object key.  Saves of one key
  take its gate; assignments do not.
 */
module CanonicalObjectStore {
  import opened Wrappers
  import opened Sequences
  import opened Texts

  // What was written to an entry, oldest first.  A save began when start writes had been made, and was handed
  // the canonical object seen.
  datatype Write<C> = Assigned(value: C) | Saved(value: C, seen: Option<C>, start: nat)

  datatype Gate<C> = Free | Held(seen: Option<C>, start: nat)

  datatype Entry<C> = Entry(canonical: Option<C>, gate: Gate<C>, writes: seq<Write<C>>)

  type Store<C> = map<string, Entry<C>>

  datatype Event<C> =
    | Assign(key: string, value: C)
    | Begin(key: string)
    | Finish(key: string, result: C)
    | Abandon(key: string)

  function NewEntry<C>(): Entry<C> {
    Entry(None, Free, [])
  }

  function EntryAt<C>(s: Store<C>, key: string): Entry<C> {
    if key in s then s[key] else NewEntry()
  }

  function Written<C>(e: Entry<C>, w: Write<C>): Entry<C> {
    e.(canonical := Some(w.value), writes := e.writes + [w])
  }

  function StepEntry<C>(e: Entry<C>, event: Event<C>): Option<Entry<C>> {
    match event
    case Assign(_, value) => Some(Written(e, Assigned(value)))
    case Begin(_) =>
      if e.gate.Held? then None else Some(e.(gate := Held(e.canonical, |e.writes|)))
    case Finish(_, result) =>
      if e.gate.Free? then None
      else Some(Written(e, Saved(result, e.gate.seen, e.gate.start)).(gate := Free))
    case Abandon(_) =>
      if e.gate.Free? then None else Some(e.(gate := Free))
  }

  // Blank keys are refused.
  function Step<C>(s: Store<C>, event: Event<C>): Option<Store<C>> {
    if Blank(event.key) then None
    else
      var next := StepEntry(EntryAt(s, event.key), event);
      if next.None? then None else Some(s[event.key := next.value])
  }

  function Run<C>(s: Store<C>, events: seq<Event<C>>): Option<Store<C>>
    decreases |events|
  {
    if events == [] then Some(s)
    else
      var next := Step(s, events[0]);
      if next.None? then None else Run(next.value, events[1..])
  }

  function RunEntry<C>(e: Entry<C>, events: seq<Event<C>>): Option<Entry<C>>
    decreases |events|
  {
    if events == [] then Some(e)
    else
      var next := StepEntry(e, events[0]);
      if next.None? then None else RunEntry(next.value, events[1..])
  }

  // ----- Keys are independent -----

  function On<C(!new)>(key: string): Event<C> -> bool {
    (event: Event<C>) => event.key == key
  }

  // An entry evolves by the events on its own key only: other keys neither block it nor write it.
  lemma {:induction false} KeysAreIndependent<C(!new)>(s: Store<C>, events: seq<Event<C>>, key: string)
    requires Run(s, events).Some?
    ensures RunEntry(EntryAt(s, key), Filter(On<C>(key), events)) == Some(EntryAt(Run(s, events).value, key))
    decreases |events|
  {
    if events != [] {
      var next := Step(s, events[0]).value;
      KeysAreIndependent(next, events[1..], key);
      if events[0].key == key {
        var mine := Filter(On<C>(key), events);
        assert mine[0] == events[0] && mine[1..] == Filter(On<C>(key), events[1..]);
      }
    }
  }

  // ----- Saves of one key do not interleave -----

  function Latest<C>(writes: seq<Write<C>>): Option<C> {
    if writes == [] then None else Some(writes[|writes| - 1].value)
  }

  ghost predicate OnlyAssigned<C>(writes: seq<Write<C>>, from: nat, to: nat)
    requires to <= |writes|
  {
    forall j :: from <= j < to ==> writes[j].Assigned?
  }

  // A save that began at start saw the latest write of that time, and no other save has written since.
  ghost predicate Serial<C>(writes: seq<Write<C>>, seen: Option<C>, start: nat, end: nat)
    requires end <= |writes|
  {
    start <= end && seen == Latest(writes[..start]) && OnlyAssigned(writes, start, end)
  }

  ghost predicate Serialized<C>(e: Entry<C>) {
    && e.canonical == Latest(e.writes)
    && (e.gate.Held? ==> Serial(e.writes, e.gate.seen, e.gate.start, |e.writes|))
    && (forall i :: 0 <= i < |e.writes| && e.writes[i].Saved? ==>
          Serial(e.writes, e.writes[i].seen, e.writes[i].start, i))
  }

  lemma SerialExtends<C>(writes: seq<Write<C>>, w: Write<C>, seen: Option<C>, start: nat, end: nat)
    requires end <= |writes| && Serial(writes, seen, start, end)
    ensures Serial(writes + [w], seen, start, end)
  {
    assert (writes + [w])[..start] == writes[..start];
  }

  lemma WrittenSerializes<C>(e: Entry<C>, w: Write<C>)
    requires Serialized(e)
    requires w.Saved? ==> Serial(e.writes, w.seen, w.start, |e.writes|)
    ensures Serialized(Written(e, w).(gate := Free))
  {
    var after := e.writes + [w];
    forall i | 0 <= i < |after| && after[i].Saved? ensures Serial(after, after[i].seen, after[i].start, i) {
      if i < |e.writes| {
        SerialExtends(e.writes, w, e.writes[i].seen, e.writes[i].start, i);
      } else {
        SerialExtends(e.writes, w, w.seen, w.start, i);
      }
    }
  }

  lemma StepSerializes<C>(e: Entry<C>, event: Event<C>)
    requires Serialized(e) && StepEntry(e, event).Some?
    ensures Serialized(StepEntry(e, event).value)
  {
    match event
    case Assign(_, value) =>
      WrittenSerializes(e, Assigned(value));
      if e.gate.Held? {
        SerialExtends(e.writes, Assigned(value), e.gate.seen, e.gate.start, |e.writes|);
      }
    case Finish(_, result) => WrittenSerializes(e, Saved(result, e.gate.seen, e.gate.start));
    case Begin(_) => assert e.writes[..|e.writes|] == e.writes;
    case Abandon(_) =>
  }

  lemma {:induction false} RunSerializes<C>(e: Entry<C>, events: seq<Event<C>>)
    requires Serialized(e) && RunEntry(e, events).Some?
    ensures Serialized(RunEntry(e, events).value)
    decreases |events|
  {
    if events != [] {
      StepSerializes(e, events[0]);
      RunSerializes(StepEntry(e, events[0]).value, events[1..]);
    }
  }

  /**
    In every run, over any keys, each save was handed the latest object of its key as of its start, and until its
    own write no other save of that key wrote: saves never overwrite each other unseen.
   */
  lemma SavesAreSerialized<C(!new)>(events: seq<Event<C>>, key: string)
    requires Run(map[], events).Some?
    ensures var e := EntryAt(Run(map[], events).value, key);
            && Serialized(e)
            && forall i :: 0 < i < |e.writes| && e.writes[i].Saved? && e.writes[i - 1].Saved? ==>
                 e.writes[i].seen == Some(e.writes[i - 1].value)
  {
    var start: Store<C> := map[];
    KeysAreIndependent(start, events, key);
    RunSerializes(NewEntry<C>(), Filter(On<C>(key), events));
    var e := EntryAt(Run(start, events).value, key);
    forall i | 0 < i < |e.writes| && e.writes[i].Saved? && e.writes[i - 1].Saved?
      ensures e.writes[i].seen == Some(e.writes[i - 1].value)
    {
      assert Serial(e.writes, e.writes[i].seen, e.writes[i].start, i);
      assert e.writes[i].start == i;
    }
  }

  // A save overwrites an object it was not handed exactly when another object was assigned while it ran.
  lemma OnlyAssignmentsAreOverwrittenUnseen<C>(e: Entry<C>, i: nat)
    requires Serialized(e) && i < |e.writes| && e.writes[i].Saved?
    ensures Latest(e.writes[..i]) != e.writes[i].seen <==>
            e.writes[i].start < i && e.writes[i - 1].Assigned? && Some(e.writes[i - 1].value) != e.writes[i].seen
  {
    assert Serial(e.writes, e.writes[i].seen, e.writes[i].start, i);
    assert i > 0 ==> Latest(e.writes[..i]) == Some(e.writes[i - 1].value);
  }

  // And that happens: assignments do not wait for the gate.
  lemma AssignmentDuringASaveIsLost<C>(key: string, newer: C, saved: C)
    requires !Blank(key)
    ensures var run := Run(map[], [Begin(key), Assign(key, newer), Finish(key, saved)]);
            && run.Some?
            && EntryAt(run.value, key) == Entry(Some(saved), Free, [Assigned(newer), Saved(saved, None, 0)])
  {
    var start: Store<C> := map[];
    var events := [Begin(key), Assign(key, newer), Finish(key, saved)];
    var one := Step(start, events[0]).value;
    var two := Step(one, events[1]).value;
    var three := Step(two, events[2]).value;
    assert events[1..] == [Assign(key, newer), Finish(key, saved)];
    assert events[1..][1..] == [Finish(key, saved)];
    assert Run(two, [Finish(key, saved)]) == Run(three, []);
    assert [Assigned(newer)] + [Saved(saved, None, 0)] == [Assigned(newer), Saved(saved, None, 0)];
  }

  // ----- The store -----

  class CanonicalObjectStore<C> {
    var entries: Store<C>

    // Every entry has come about by serial saves and assignments.
    ghost predicate Valid()
      reads this
    {
      forall key <- entries :: Serialized(entries[key])
    }

    constructor ()
      ensures Valid() && entries == map[]
    {
      entries := map[];
    }

    method Set(key: string, canonical: C) returns (ok: bool)
      requires Valid()
      modifies this
      ensures Valid() && ok == !Blank(key)
      ensures Some(entries) == if ok then Step(old(entries), Assign(key, canonical)) else Some(old(entries))
      ensures ok ==> Latest(EntryAt(entries, key).writes) == Some(canonical)
    {
      if Blank(key) {
        return false;
      }
      StepSerializes(EntryAt(entries, key), Assign(key, canonical));
      entries := entries[key := Written(EntryAt(entries, key), Assigned(canonical))];
      return true;
    }

    // The object last written under the key, by whoever wrote it; none exactly when nothing ever was.
    // A blank key is refused.
    method TryGet(key: string) returns (ok: bool, canonical: Option<C>)
      requires Valid()
      ensures ok == !Blank(key)
      ensures canonical == if ok then Latest(EntryAt(entries, key).writes) else None
      ensures canonical.None? <==> !ok || EntryAt(entries, key).writes == []
    {
      if Blank(key) {
        return false, None;
      }
      if key !in entries {
        return true, None;
      }
      return true, entries[key].canonical;
    }

    // The gate is taken, or the caller waits.
    method BeginSave(key: string) returns (seen: Option<Option<C>>)
      requires Valid()
      modifies this
      ensures Valid()
      ensures seen.Some? <==> Step(old(entries), Begin(key)).Some?
      ensures Some(entries) == if seen.Some? then Step(old(entries), Begin(key)) else Some(old(entries))
      ensures seen.Some? ==> seen.value == Latest(EntryAt(old(entries), key).writes)
    {
      if Blank(key) {
        return None;
      }
      var entry := EntryAt(entries, key);
      if entry.gate.Held? {
        return None;
      }
      StepSerializes(entry, Begin(key));
      entries := entries[key := entry.(gate := Held(entry.canonical, |entry.writes|))];
      return Some(entry.canonical);
    }

    // The save's end: its result is kept if it has one, and the gate is released either way.
    method EndSave(key: string, result: Option<C>)
      requires Valid() && key in entries && entries[key].gate.Held? && !Blank(key)
      modifies this
      ensures Valid()
      ensures Some(entries) ==
              Step(old(entries), if result.Some? then Finish(key, result.value) else Abandon(key))
      ensures entries[key].gate.Free?
      ensures Latest(entries[key].writes) == if result.Some? then result else Latest(old(entries)[key].writes)
    {
      var entry := entries[key];
      StepSerializes(entry, if result.Some? then Finish(key, result.value) else Abandon(key));
      if result.Some? {
        entry := Written(entry, Saved(result.value, entry.gate.seen, entry.gate.start));
      }
      entries := entries[key := entry.(gate := Free)];
    }
  }
}
