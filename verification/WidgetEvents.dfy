/**
 * The events that reach a widget. Each one that counts is stored, whether the widget can show it or not; after any
 * run a property holds what the last of them said, and a widget that can show it shows that.
 */
module WidgetEvents {
  import opened Common
  import opened PropertyStore
  import opened Widget

  /** A widget that is not detached hears what manages it; anything else only while it is active and tracked. */
  predicate IsHeard(w: State, t: Property, isTracked: bool) {
    !w.isDetached && (IsManagement(t) || (isTracked && IsActive(w)))
  }

  /** The event had a value, and the property takes it. */
  predicate IsTaken(st: Store, t: Property, v: Value) { !v.NoValue? && IsAccepted(st, t, v) }

  /**
   * What is heard and taken is stored, whether the widget is rendered and shown or not, and then waits or is applied
   * at once; anything else changes nothing.
   */
  lemma EventIsStored(w: State, t: Property, v: Value, isTracked: bool)
    requires IsKept(w)
    ensures var next := Received(w, t, v, isTracked);
            if IsHeard(w, t, isTracked) && IsTaken(w.store, t, v) then
              && Get(next.store, t) == v
              && (forall u :: u != t ==> Lookup(next.store, u) == Lookup(w.store, u))
              && Types(next.store) == Types(w.store)
              && (!IsManagement(t) ==> IsTracked(next, t))
            else next == w
  {
    hide IsLive, IsKeptBut, Notify, IsValid, Written, Types, IsTracked;
    if IsHeard(w, t, isTracked) && IsTaken(w.store, t, v) {
      var written := w.(store := Written(w.store, t, v));
      WrittenIsKept(w, t, v);
      NotifyKeeps(written, t);
      WrittenValue(w, t, v);
      if !IsManagement(t) {
        KeptTracks(Notify(written, t), t);
      }
    }
  }

  lemma WrittenValue(w: State, t: Property, v: Value)
    requires IsKept(w) && Lookup(w.store, t).Some?
    ensures var next := Written(w.store, t, v);
            && Get(next, t) == v
            && (forall u :: u != t ==> Lookup(next, u) == Lookup(w.store, u))
  {
    WrittenOne(w.store, t, v);
    hide Lookup, Written, Types;
  }

  lemma KeptTracks(w: State, t: Property)
    requires IsKept(w) && t in Types(w.store) && !IsManagement(t)
    ensures IsTracked(w, t)
  {
    hide IsTracked, Types;
    assert t in Visual(w.store);
  }

  /** What was written while the widget is live is shown, and what waited too; what manages it is applied at once. */
  lemma NotifyShows(w: State, t: Property)
    requires IsKeptBut(w, t) && t in Types(w.store)
    ensures IsLive(Notify(w, t)) ==> Notify(w, t).pending == {}
    ensures IsManagement(t) ==> Shows(Notify(w, t), t, Get(w.store, t))
  {
    hide IsLive, ApplyOne, ReplayPending, IsValid, Types, Lookup;
    if IsManagement(t) {
      AppliedOne(w, t);
      ReplayLeaves(ApplyOne(w, t), t);
    } else if !(w.pending == {} && IsLive(w)) {
      ReplayLeaves(w.(pending := w.pending + {t}), t);
    } else {
      AppliedOne(w, t);
    }
  }

  /** A replay leaves nothing waiting on a live widget, and what did not wait as it was. */
  lemma ReplayLeaves(w: State, t: Property)
    requires IsValid(w.store) && w.pending <= Visual(w.store)
    ensures IsLive(ReplayPending(w)) ==> ReplayPending(w).pending == {}
    ensures t !in w.pending && t in w.applied ==>
              && t !in ReplayPending(w).pending && t in ReplayPending(w).applied
              && ReplayPending(w).applied[t] == w.applied[t]
  {
    hide IsValid, Types, Lookup, InOrder, ApplyAll;
    if IsLive(w) {
      var cleared := w.(pending := {});
      SelectedOnce(w, w.pending);
      AppliedAll(cleared, InOrder(Types(w.store), w.pending));
    }
  }

  /** An event that counts is shown at once where the widget is live after it, and then nothing waits. */
  lemma EventIsShown(w: State, t: Property, v: Value, isTracked: bool)
    requires IsKept(w) && IsHeard(w, t, isTracked) && IsTaken(w.store, t, v)
    ensures var next := Received(w, t, v, isTracked);
            && (IsLive(next) ==> next.pending == {})
            && (IsLive(next) || IsManagement(t) ==> Shows(next, t, v))
  {
    hide IsLive, IsKeptBut, Notify, IsValid, Written, Types, Lookup;
    var written := w.(store := Written(w.store, t, v));
    EventIsStored(w, t, v, isTracked);
    WrittenIsKept(w, t, v);
    WrittenValue(w, t, v);
    NotifyShows(written, t);
  }

  /** The property was applied last with the value, and nothing newer waits. */
  ghost predicate Shows(w: State, t: Property, v: Value) {
    t !in w.pending && t in w.applied && w.applied[t].value == v
  }

  // What the events of a run said.

  /** The step is an event that counts, when `before` are the steps up to it. */
  ghost predicate Counts(w: State, before: seq<Step>, step: Step)
    decreases |before|, 1
  {
    && !w.isDetached && step.Receive?
    && IsTaken(w.store, step.property, step.value)
    && (IsManagement(step.property) || (step.isTracked && BoolOr(Said(w, before, IS_ACTIVE), true)))
  }

  /** The value of the last event of the property that counts, or what it held. */
  ghost function Said(w: State, steps: seq<Step>, t: Property): Value
    decreases |steps|, 0
  {
    if |steps| == 0 then Get(w.store, t)
    else
      var before, last := steps[..|steps| - 1], steps[|steps| - 1];
      if Counts(w, before, last) && last.property == t then last.value else Said(w, before, t)
  }

  /** The steps that bring no event leave the values. */
  lemma OtherStepsLeave(w: State, step: Step)
    requires IsKept(w) && !step.Receive?
    ensures var next := After(w, step);
            && next.isDetached == w.isDetached && Types(next.store) == Types(w.store)
            && forall u :: Lookup(next.store, u) == Lookup(w.store, u)
  {
    hide Replay, ReplayPending, Lookup, Types, IsValid;
    ReplayKeeps(w.(isGroupActive := true));
    ReplayPendingKeeps(w.(isReady := true));
    ReplayPendingKeeps(w);
    StillDetached(w, step);
  }

  lemma {:induction false} ApplyingLeavesDetached(w: State, types: seq<Property>)
    ensures ApplyAll(w, types).isDetached == w.isDetached
    decreases |types|
  {
    hide ApplyOne;
    if |types| == 0 {
    } else {
      ApplyingLeavesDetached(w, types[..|types| - 1]);
      ApplyOneStore(ApplyAll(w, types[..|types| - 1]), types[|types| - 1]);
    }
  }

  lemma StillDetached(w: State, step: Step)
    ensures After(w, step).isDetached == w.isDetached
  {
    hide ApplyAll, InOrder, IsLive, Written, IsAccepted;
    forall v: State, types ensures ApplyAll(v, types).isDetached == v.isDetached {
      ApplyingLeavesDetached(v, types);
    }
  }

  /** What was stored when the run began is still declared, and the widget as detached as it was. */
  ghost predicate IsSameWidget(w: State, now: State) {
    && now.isDetached == w.isDetached
    && forall u :: Lookup(now.store, u).Some? == Lookup(w.store, u).Some?
  }

  lemma SaidNext(w: State, before: seq<Step>, last: Step, now: State)
    requires IsKept(now) && IsSameWidget(w, now)
    requires forall t :: Get(now.store, t) == Said(w, before, t)
    ensures IsSameWidget(w, After(now, last))
    ensures forall t :: Get(After(now, last).store, t) == Said(w, before + [last], t)
  {
    hide IsKept, Lookup, Received, IsTracked;
    assert (before + [last])[..|before|] == before;
    StillDetached(now, last);
    if last.Receive? {
      EventIsStored(now, last.property, last.value, last.isTracked);
      assert IsHeard(now, last.property, last.isTracked) && IsTaken(now.store, last.property, last.value) <==>
             Counts(w, before, last);
      TypesStay(now, last);
    } else {
      OtherStepsLeave(now, last);
    }
  }

  lemma TypesStay(now: State, last: Step)
    requires IsKept(now) && last.Receive?
    ensures forall u :: Lookup(After(now, last).store, u).Some? == Lookup(now.store, u).Some?
  {
    hide Received, IsTracked, Lookup, Types;
    EventIsStored(now, last.property, last.value, last.isTracked);
    StepKeeps(now, last);
    TypesAreRegistered(now.store);
    TypesAreRegistered(After(now, last).store);
  }

  /** Over every run: each property holds what the last event that counts said, and nothing else changes it. */
  lemma {:induction false} LastEventIsStored(w: State, steps: seq<Step>)
    requires IsKept(w)
    ensures IsSameWidget(w, Run(w, steps))
    ensures forall t :: Get(Run(w, steps).store, t) == Said(w, steps, t)
    decreases |steps|
  {
    hide IsKept, After, Lookup;
    if |steps| == 0 {
    } else {
      var before, last := steps[..|steps| - 1], steps[|steps| - 1];
      LastEventIsStored(w, before);
      NoUpdateIsLost(w, before);
      SaidNext(w, before, last, Run(w, before));
      assert steps == before + [last];
    }
  }

  /** A widget that can show them shows those values after a synchronization, and once its group is activated. */
  lemma LastEventIsShown(w: State, steps: seq<Step>, t: Property)
    requires IsKept(w) && t in Visual(Run(w, steps).store)
    ensures IsLive(Run(w, steps)) ==> Shows(Synchronized(Run(w, steps)), t, Said(w, steps, t))
    ensures !w.isDetached && IsLive(Run(w, steps).(isGroupActive := true)) ==>
              Shows(Activated(Run(w, steps)), t, Said(w, steps, t))
    ensures !w.isDetached && IsLive(Run(w, steps).(isReady := true)) ==>
              Shows(Rendered(Run(w, steps), true), t, Said(w, steps, t))
  {
    hide Run, Said, Replay, ReplayPending, Lookup, Types, IsValid;
    LastEventIsStored(w, steps);
    NoUpdateIsLost(w, steps);
    var now := Run(w, steps);
    ReplayPendingKeeps(now);
    ReplayKeeps(now.(isGroupActive := true));
    ReplayPendingKeeps(now.(isReady := true));
    var shown := [Synchronized(now), Activated(now), Rendered(now, true)];
    forall i | 0 <= i < 3 && t in Visual(shown[i].store) && IsKept(shown[i]) ensures IsTracked(shown[i], t) {
    }
  }
}
