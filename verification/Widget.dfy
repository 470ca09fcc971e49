/**
 * A widget's stored properties and what it applied of them. An edit in place comes to what building the widget again
 * would; no update is lost while the widget cannot show it.
 */
module Widget {
  import opened Common
  import opened PropertyStore

  datatype Box = Box(x: int, y: int, width: nat, height: nat)

  datatype Direction = In | Out | InOut

  datatype Binding = Binding(target: Property, direction: Direction)

  datatype Config = Config(id: nat, kind: nat, properties: map<Property, Value>, bindings: seq<Binding>, box: Box)

  /** What a widget class registers. */
  datatype Declaration = Declaration(property: Property, fallback: Value, effect: Effect)

  /** A property that was applied: its value then, and whether the widget was rendered. */
  datatype Applied = Applied(value: Value, isReady: bool)

  /**
   * The widget. `isShown` is the environment's part of being shown: the parent processes and is visible in its
   * hierarchy. `log` is every property that was applied, in order.
   */
  datatype State = State(
    store: Store,
    pending: set<Property>,
    isReady: bool, isGroupActive: bool, isDetached: bool, isShown: bool, isHidden: bool,
    applied: map<Property, Applied>,
    log: seq<Property>)

  function BoolOr(v: Value, fallback: bool): bool { if v.BoolValue? then v.flag else fallback }

  function IntOr(v: Value, fallback: int): int { if v.IntValue? then v.n else fallback }

  predicate IsActive(w: State) { BoolOr(Get(w.store, IS_ACTIVE), true) }

  predicate IsVisible(w: State) { BoolOr(Get(w.store, IS_VISIBLE), true) }

  predicate IsEligible(w: State) {
    && !w.isDetached && w.isGroupActive && IsActive(w) && IsVisible(w)
    && IntOr(Get(w.store, OPACITY), 255) != 0
    && w.isShown && !w.isHidden
  }

  predicate IsLive(w: State) { w.isReady && IsEligible(w) }

  // What the operations do.

  /** Applies one property with the value that is stored. */
  function ApplyOne(w: State, t: Property): State {
    var v := Get(w.store, t);
    var next := w.(applied := w.applied[t := Applied(v, w.isReady)], log := w.log + [t]);
    if t == IS_VISIBLE then next.(isHidden := !BoolOr(v, true))
    else if IsManagement(t) || IsLayout(t) then next
    else next.(store := WithColorApplied(w.store, t))
  }

  function ApplyAll(w: State, types: seq<Property>): State {
    if |types| == 0 then w else ApplyOne(ApplyAll(w, types[..|types| - 1]), types[|types| - 1])
  }

  /** The chosen ones in the order of registration, and VALUE behind them. */
  function InOrder(types: seq<Property>, selected: set<Property>): seq<Property> {
    Chosen(types, selected - {VALUE}) + if VALUE in selected then [VALUE] else []
  }

  function Chosen(types: seq<Property>, selected: set<Property>): seq<Property> {
    if |types| == 0 then []
    else Chosen(types[..|types| - 1], selected) + if types[|types| - 1] in selected then [types[|types| - 1]] else []
  }

  function ApplySelected(w: State, selected: set<Property>): State { ApplyAll(w, InOrder(Types(w.store), selected)) }

  function ReplayPending(w: State): State {
    if !IsLive(w) then w else ApplySelected(w.(pending := {}), w.pending)
  }

  function All(st: Store): set<Property> { set t | t in Types(st) }

  function Visual(st: Store): set<Property> { set t | t in Types(st) && !IsManagement(t) }

  function Replay(w: State): State {
    var next := ApplySelected(w.(pending := {}), All(w.store));
    if IsLive(next) then next else next.(pending := Visual(w.store))
  }

  /** After a property was written. */
  function Notify(w: State, t: Property): State {
    if IsManagement(t) then ReplayPending(ApplyOne(w, t))
    else if w.pending == {} && IsLive(w) then ApplyOne(w, t)
    else ReplayPending(w.(pending := w.pending + {t}))
  }

  function Activated(w: State): State {
    if w.isDetached then w
    else
      var next := w.(isGroupActive := true);
      if IsLive(next) then Replay(next) else next
  }

  function Deactivated(w: State): State { if w.isDetached then w else w.(isGroupActive := false) }

  function Synchronized(w: State): State { if w.isDetached then w else ReplayPending(w) }

  /** A render builds the objects, or fails. */
  function Rendered(w: State, isBuilt: bool): State {
    if w.isDetached then w else if isBuilt then ReplayPending(w.(isReady := true)) else w.(isReady := false)
  }

  /** An inbound event that was converted to the type of the property; nothing if it could not be. */
  function Received(w: State, t: Property, v: Value, isTracked: bool): State {
    if w.isDetached || (!IsManagement(t) && !(isTracked && IsActive(w))) then w
    else if v.NoValue? || !IsAccepted(w.store, t, v) then w
    else Notify(w.(store := Written(w.store, t, v)), t)
  }

  // What every run keeps.

  /** The property waits to be applied, or what was applied last is what is stored. */
  ghost predicate IsTracked(w: State, t: Property) {
    t in w.pending || (t in w.applied && w.applied[t].value == Get(w.store, t) && (w.applied[t].isReady || IsLayout(t)))
  }

  ghost predicate IsKept(w: State) {
    && IsValid(w.store)
    && w.pending <= Visual(w.store)
    && (forall t :: t in Visual(w.store) ==> IsTracked(w, t))
  }

  lemma AppliedOne(w: State, t: Property)
    requires IsValid(w.store)
    ensures var next := ApplyOne(w, t);
            && IsValid(next.store) && (forall u :: Lookup(next.store, u) == Lookup(w.store, u))
            && Types(next.store) == Types(w.store) && next.store.colors == w.store.colors
            && next.applied == w.applied[t := Applied(Get(w.store, t), w.isReady)]
            && next.isReady == w.isReady && next.pending == w.pending
            && (IsLive(w) ==> IsLive(next))
  {
    hide *;
    ApplyOneStore(w, t);
    SameEntries(w.store, ApplyOne(w, t).store);
    StillLive(w, ApplyOne(w, t));
  }

  lemma ApplyOneStore(w: State, t: Property)
    ensures var next := ApplyOne(w, t);
            && next.store.entries == w.store.entries && next.store.colors == w.store.colors
            && next == w.(store := next.store, isHidden := next.isHidden, log := next.log,
                          applied := w.applied[t := Applied(Get(w.store, t), w.isReady)])
            && (next.isHidden == w.isHidden || next.isHidden == !IsVisible(w))
  {
    hide Get;
  }

  lemma StillLive(w: State, next: State)
    requires next == w.(store := next.store, isHidden := next.isHidden, log := next.log, applied := next.applied)
    requires next.isHidden == w.isHidden || next.isHidden == !IsVisible(w)
    requires forall u :: Lookup(next.store, u) == Lookup(w.store, u)
    ensures IsLive(w) ==> IsLive(next)
  {
    hide Lookup;
  }

  /** Applying some leaves the store's values; what was applied is up to date, and the widget stays live. */
  lemma {:induction false} AppliedAll(w: State, types: seq<Property>)
    requires IsValid(w.store)
    ensures var next := ApplyAll(w, types);
            && IsValid(next.store) && (forall u :: Lookup(next.store, u) == Lookup(w.store, u))
            && Types(next.store) == Types(w.store) && next.store.colors == w.store.colors
            && (forall t :: t in types ==> t in next.applied && next.applied[t] == Applied(Get(w.store, t), w.isReady))
            && (forall t :: t !in types ==> (t in next.applied <==> t in w.applied))
            && (forall t :: t !in types && t in w.applied ==> next.applied[t] == w.applied[t])
            && next.isReady == w.isReady && next.pending == w.pending && next.log == w.log + types
            && (IsLive(w) ==> IsLive(next))
    decreases |types|
  {
    hide Lookup, IsLive, ApplyOne, IsValid;
    if |types| == 0 {
      assert w.log + [] == w.log;
    } else {
      var before, t := types[..|types| - 1], types[|types| - 1];
      AppliedAll(w, before);
      AppliedOne(ApplyAll(w, before), t);
      ApplyOneLogs(ApplyAll(w, before), t);
      assert types == before + [t];
      assert w.log + before + [t] == w.log + types;
    }
  }

  lemma ApplyOneLogs(w: State, t: Property)
    ensures ApplyOne(w, t).log == w.log + [t]
  {
  }

  lemma {:induction false} ChosenAre(types: seq<Property>, selected: set<Property>)
    requires forall i, j :: 0 <= i < j < |types| ==> types[i] != types[j]
    ensures forall t :: t in Chosen(types, selected) <==> t in types && t in selected
    ensures forall i, j :: 0 <= i < j < |Chosen(types, selected)| ==>
              Chosen(types, selected)[i] != Chosen(types, selected)[j]
    decreases |types|
  {
    if |types| == 0 {
    } else {
      var before, t := types[..|types| - 1], types[|types| - 1];
      ChosenAre(before, selected);
      assert types == before + [t] && t !in before;
    }
  }

  /** Each of the selected is applied once, and VALUE after all the others. */
  lemma ValueIsLast(types: seq<Property>, selected: set<Property>)
    requires forall i, j :: 0 <= i < j < |types| ==> types[i] != types[j]
    requires forall t :: t in selected ==> t in types
    ensures var order := InOrder(types, selected);
            && (forall t :: t in order <==> t in selected)
            && (forall i, j :: 0 <= i < j < |order| ==> order[i] != order[j])
            && (forall i :: 0 <= i < |order| && order[i] == VALUE ==> i == |order| - 1)
  {
    ChosenAre(types, selected - {VALUE});
    var chosen := Chosen(types, selected - {VALUE});
    assert forall i :: 0 <= i < |chosen| ==> chosen[i] in chosen;
  }

  lemma SelectedOnce(w: State, selected: set<Property>)
    requires IsValid(w.store) && selected <= All(w.store)
    ensures var order := InOrder(Types(w.store), selected); forall t :: t in order <==> t in selected
  {
    TypesAreRegistered(w.store);
    ValueIsLast(Types(w.store), selected);
  }

  lemma ReplayPendingKeeps(w: State)
    requires IsKept(w)
    ensures IsKept(ReplayPending(w))
    ensures ReplayPending(w).pending == if IsLive(w) then {} else w.pending
    ensures IsLive(w) ==> IsLive(ReplayPending(w))
    ensures forall u :: Lookup(ReplayPending(w).store, u) == Lookup(w.store, u)
    ensures Types(ReplayPending(w).store) == Types(w.store) && ReplayPending(w).store.colors == w.store.colors
  {
    hide Lookup, IsValid, InOrder, Types, ApplyAll;
    var cleared := w.(pending := {});
    SelectedOnce(w, w.pending);
    AppliedAll(cleared, InOrder(Types(w.store), w.pending));
    assert IsLive(w) ==> IsLive(cleared);
    assert IsLive(w) ==> w.isReady;
  }

  lemma ReplayKeeps(w: State)
    requires IsValid(w.store)
    ensures IsKept(Replay(w))
    ensures IsLive(w) ==> Replay(w).pending == {}
    ensures forall u :: Lookup(Replay(w).store, u) == Lookup(w.store, u)
    ensures Types(Replay(w).store) == Types(w.store) && Replay(w).store.colors == w.store.colors
  {
    hide Lookup, IsValid, InOrder, Types, ApplyAll;
    var cleared := w.(pending := {});
    SelectedOnce(w, All(w.store));
    AppliedAll(cleared, InOrder(Types(w.store), All(w.store)));
    assert IsLive(w) ==> IsLive(cleared);
  }

  /** A property was written, and nothing was said of it yet. */
  ghost predicate IsKeptBut(w: State, t: Property) {
    && IsValid(w.store)
    && w.pending <= Visual(w.store)
    && (forall u :: u in Visual(w.store) && u != t ==> IsTracked(w, u))
  }

  lemma NotifyKeeps(w: State, t: Property)
    requires IsKeptBut(w, t) && t in Types(w.store)
    ensures IsKept(Notify(w, t))
    ensures forall u :: Lookup(Notify(w, t).store, u) == Lookup(w.store, u)
    ensures Types(Notify(w, t).store) == Types(w.store) && Notify(w, t).store.colors == w.store.colors
  {
    hide Lookup, IsValid, Types, ApplyOne, ReplayPending, IsLive;
    if IsManagement(t) {
      AppliedOne(w, t);
      ReplayPendingKeeps(ApplyOne(w, t));
    } else if w.pending == {} && IsLive(w) {
      AppliedOne(w, t);
      LiveIsReady(w);
    } else {
      ReplayPendingKeeps(w.(pending := w.pending + {t}));
    }
  }

  lemma LiveIsReady(w: State)
    requires IsLive(w)
    ensures w.isReady
  {
  }

  lemma WrittenIsKept(w: State, t: Property, v: Value)
    requires IsKept(w) && Lookup(w.store, t).Some?
    ensures IsKeptBut(w.(store := Written(w.store, t, v)), t) && t in Types(w.store)
    ensures Types(Written(w.store, t, v)) == Types(w.store)
  {
    WrittenOne(w.store, t, v);
    hide Lookup, IsValid, Types, Written;
  }

  /** Events, activation, deactivation, changes of what surrounds the widget, and renders. */
  datatype Step =
    | Receive(property: Property, value: Value, isTracked: bool)
    | Activate | Deactivate
    | Show(isShown: bool)
    | Render(isBuilt: bool)
    | Synchronize

  function After(w: State, step: Step): State {
    match step
    case Receive(t, v, isTracked) => Received(w, t, v, isTracked)
    case Activate => Activated(w)
    case Deactivate => Deactivated(w)
    case Show(isShown) => w.(isShown := isShown)
    case Render(isBuilt) => Rendered(w, isBuilt)
    case Synchronize => Synchronized(w)
  }

  function Run(w: State, steps: seq<Step>): State {
    if |steps| == 0 then w else After(Run(w, steps[..|steps| - 1]), steps[|steps| - 1])
  }

  lemma StepKeeps(w: State, step: Step)
    requires IsKept(w)
    ensures IsKept(After(w, step))
  {
    match step
    case Receive(t, v, isTracked) =>
      if Received(w, t, v, isTracked) != w {
        WrittenIsKept(w, t, v);
        NotifyKeeps(w.(store := Written(w.store, t, v)), t);
      }
    case Activate => ReplayKeeps(w.(isGroupActive := true));
    case Deactivate =>
    case Show(_) =>
    case Render(_) => ReplayPendingKeeps(w.(isReady := true));
    case Synchronize => ReplayPendingKeeps(w);
  }

  /** Over every run no update is lost. */
  lemma {:induction false} NoUpdateIsLost(w: State, steps: seq<Step>)
    requires IsKept(w)
    ensures IsKept(Run(w, steps))
    decreases |steps|
  {
    if |steps| == 0 {
    } else {
      NoUpdateIsLost(w, steps[..|steps| - 1]);
      StepKeeps(Run(w, steps[..|steps| - 1]), steps[|steps| - 1]);
    }
  }

  /** After `Synchronize` on a live widget nothing waits: everything shown is what is stored. */
  lemma SynchronizedShowsAll(w: State)
    requires IsKept(w) && IsLive(w)
    ensures var next := Synchronized(w);
            && next.pending == {} && IsLive(next)
            && forall t :: t in Visual(next.store) ==>
                 t in next.applied && next.applied[t].value == Get(next.store, t)
  {
    ReplayPendingKeeps(w);
    hide ReplayPending;
    assert forall t :: t in Visual(Synchronized(w).store) ==> IsTracked(Synchronized(w), t);
  }

  /** What one replay applied: nothing twice, and VALUE last. */
  lemma ReplayAppliesValueLast(w: State)
    requires IsKept(w) && IsLive(w)
    ensures ReplayPending(w).log == w.log + InOrder(Types(w.store), w.pending)
    ensures var order := InOrder(Types(w.store), w.pending);
            && (forall t :: t in order <==> t in w.pending)
            && (forall i, j :: 0 <= i < j < |order| ==> order[i] != order[j])
            && (forall i :: 0 <= i < |order| && order[i] == VALUE ==> i == |order| - 1)
  {
    TypesAreRegistered(w.store);
    ValueIsLast(Types(w.store), w.pending);
    AppliedAll(w.(pending := {}), InOrder(Types(w.store), w.pending));
  }

  /**
   * User input writes a property and publishes it; only an anchor is applied by the base. For any other property the
   * widget shows its own state, and the base neither has it wait nor knows it as applied.
   */
  function SetLocal(w: State, t: Property, v: Value): State {
    if !IsEligible(w) || !IsAccepted(w.store, t, v) then w
    else
      var next := w.(store := Written(w.store, t, v));
      if IsAnchor(t) then Notify(next, t) else next
  }

  /** Exactly when such input leaves a property that the base does not track. */
  lemma LocalInputIsTracked(w: State, t: Property, v: Value)
    requires IsKept(w)
    ensures IsKept(SetLocal(w, t, v)) <==>
              !IsEligible(w) || !IsAccepted(w.store, t, v) || IsAnchor(t) || IsManagement(t) ||
              t in w.pending || v == Get(w.store, t)
  {
    if IsEligible(w) && IsAccepted(w.store, t, v) {
      var next := w.(store := Written(w.store, t, v));
      WrittenIsKept(w, t, v);
      WrittenOne(w.store, t, v);
      if IsAnchor(t) {
        NotifyKeeps(next, t);
      } else {
        hide IsEligible, Lookup, IsValid, Types, Written, IsAccepted;
        assert forall u :: u in Visual(w.store) && u != t ==> IsTracked(next, u);
        assert Get(next.store, t) == v;
        assert !IsManagement(t) ==> t in Visual(w.store) && IsTracked(w, t);
        assert t in Visual(next.store) ==> (IsTracked(next, t) <==> t in w.pending || v == Get(w.store, t));
      }
    }
  }
}
