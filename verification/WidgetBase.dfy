/** The base of every widget: building it from a record, editing it in place, and applying what it stores. */
module WidgetBase {
  import opened Common
  import opened PropertyStore
  import opened Widget
  import opened WidgetEvents

  function BoxValue(box: Box, t: Property): Value {
    if t == LAYOUT_X then IntValue(box.x)
    else if t == LAYOUT_Y then IntValue(box.y)
    else if t == LAYOUT_WIDTH then IntValue(box.width)
    else IntValue(box.height)
  }

  /** What a property was declared with last. */
  function Declared(declared: seq<Declaration>, t: Property): Option<Declaration> {
    if |declared| == 0 then None
    else
      var last := declared[|declared| - 1];
      if last.property == t then Some(last) else Declared(declared[..|declared| - 1], t)
  }

  /** A class declares neither the structure nor the box. */
  predicate IsDeclarable(declared: seq<Declaration>) {
    forall i :: 0 <= i < |declared| ==> !IsStructural(declared[i].property) && !IsLayout(declared[i].property)
  }

  function Default(d: Declaration): Entry {
    Entry(d.property, d.effect, Alternative(d.fallback), d.fallback, d.fallback)
  }

  function BoxEntry(box: Box, t: Property): Entry {
    Entry(t, Relayout, Alternative(BoxValue(box, t)), BoxValue(box, t), BoxValue(box, t))
  }

  /** What a record gives a property: its value if the property takes it, else the default; the box is the record's. */
  function Expected(declared: seq<Declaration>, hasGrid: bool, c: Config, t: Property): Option<Entry> {
    if hasGrid && IsLayout(t) then Some(BoxEntry(c.box, t))
    else
      var d := Declared(declared, t);
      if d.None? then None
      else if t in c.properties && !IsLayout(t) && Accepts(t, c.properties[t]) then
        Some(Default(d.value).(value := c.properties[t]))
      else Some(Default(d.value))
  }

  predicate IsDriven(c: Config, t: Property) {
    exists i :: 0 <= i < |c.bindings| && c.bindings[i].target == t && c.bindings[i].direction != Out
  }

  /** The parsed colors are those of the values. */
  ghost predicate HasColors(st: Store) {
    forall t :: IsColor(t) && Lookup(st, t).Some? ==> st.colors[ColorIndex(t)] == ParsedColor(Get(st, t))
  }

  ghost predicate IsAs(entry: Option<Entry>, expected: Option<Entry>, isDriven: bool) {
    if !isDriven then entry == expected
    else
      && entry.Some? == expected.Some?
      && (entry.Some? ==> entry.value.(value := expected.value.value) == expected.value)
  }

  /** The store is as the record has it, but for the values that inbound bindings drive. */
  ghost predicate Follows(st: Store, declared: seq<Declaration>, hasGrid: bool, c: Config) {
    && IsValid(st) && HasColors(st)
    && forall t :: IsAs(Lookup(st, t), Expected(declared, hasGrid, c, t), IsDriven(c, t))
  }

  /** The store is as the record has it. */
  ghost predicate IsBuilt(st: Store, declared: seq<Declaration>, hasGrid: bool, c: Config) {
    && IsValid(st) && HasColors(st)
    && forall t :: Lookup(st, t) == Expected(declared, hasGrid, c, t)
  }

  /**
   * A store that follows a record agrees with one built from it on every property that no event drives: its value,
   * its default, and the color parsed from it.
   */
  lemma EditEqualsRebuild(edited: Store, built: Store, declared: seq<Declaration>, hasGrid: bool, c: Config,
                          t: Property)
    requires Follows(edited, declared, hasGrid, c) && IsBuilt(built, declared, hasGrid, c)
    ensures Lookup(edited, t).Some? <==> Lookup(built, t).Some?
    ensures !IsDriven(c, t) ==> Lookup(edited, t) == Lookup(built, t)
    ensures !IsDriven(c, t) && IsColor(t) && Lookup(edited, t).Some? ==>
              edited.colors[ColorIndex(t)] == built.colors[ColorIndex(t)]
  {
    hide Expected, Lookup, IsDriven;
    assert IsAs(Lookup(edited, t), Expected(declared, hasGrid, c, t), IsDriven(c, t));
  }

  /** An event that a binding brings in changes what it drives only. */
  lemma EventFollows(st: Store, declared: seq<Declaration>, hasGrid: bool, c: Config, t: Property, v: Value)
    requires Follows(st, declared, hasGrid, c) && IsDriven(c, t) && Lookup(st, t).Some?
    ensures Follows(Written(st, t, v), declared, hasGrid, c)
  {
    WrittenOne(st, t, v);
    hide Expected, Lookup, IsValid, Written, IsDriven;
    var next := Written(st, t, v);
    forall u ensures IsAs(Lookup(next, u), Expected(declared, hasGrid, c, u), IsDriven(c, u)) {
      assert IsAs(Lookup(st, u), Expected(declared, hasGrid, c, u), IsDriven(c, u));
    }
  }

  // Editing, property by property.

  /** The properties in `done` are as the new record has them, the others as the old one. */
  ghost predicate IsEdited(st: Store, declared: seq<Declaration>, hasGrid: bool, prior: Config, c: Config,
                           done: set<Property>) {
    && IsValid(st) && HasColors(st)
    && forall t :: IsAs(Lookup(st, t), Expected(declared, hasGrid, if t in done then c else prior, t), IsDriven(c, t))
  }

  /** The edit leaves the property alone: an event drives it, or the records say the same of it. */
  predicate IsUntouched(prior: Config, c: Config, t: Property) {
    || IsDriven(c, t)
    || (t !in prior.properties && t !in c.properties)
    || (t in prior.properties && t in c.properties && prior.properties[t] == c.properties[t])
  }

  /** What the edit makes of one property: nothing where the records agree, else the new value or the default. */
  function Edited(st: Store, prior: Config, c: Config, t: Property): Store {
    if IsUntouched(prior, c, t) then st
    else if t in c.properties && IsAccepted(st, t, c.properties[t]) then Written(st, t, c.properties[t])
    else WithReset(st, t)
  }

  lemma EditedOne(st: Store, declared: seq<Declaration>, hasGrid: bool, prior: Config, c: Config, done: set<Property>,
                  t: Property)
    requires IsEdited(st, declared, hasGrid, prior, c, done) && !IsLayout(t)
    ensures IsEdited(Edited(st, prior, c, t), declared, hasGrid, prior, c, done + {t})
    ensures Types(Edited(st, prior, c, t)) == Types(st)
  {
    hide Expected, IsDriven;
    var next := Edited(st, prior, c, t);
    var before := Lookup(st, t);
    assert IsAs(before, Expected(declared, hasGrid, if t in done then c else prior, t), IsDriven(c, t));
    if IsUntouched(prior, c, t) || before.None? {
      SameIsExpected(declared, hasGrid, prior, c, t);
    } else {
      var v :=
        if t in c.properties && IsAccepted(st, t, c.properties[t]) then c.properties[t] else before.value.fallback;
      EditedIsExpected(before, declared, hasGrid, prior, c, done, t, v);
      WrittenOne(st, t, v);
      assert next == Written(st, t, v);
    }
    OthersStay(st, next, declared, hasGrid, prior, c, done, t);
  }

  lemma EditedIsExpected(before: Option<Entry>, declared: seq<Declaration>, hasGrid: bool, prior: Config, c: Config,
                         done: set<Property>, t: Property, v: Value)
    requires before.Some? && !IsLayout(t) && !IsDriven(c, t)
    requires before == Expected(declared, hasGrid, if t in done then c else prior, t)
    requires v == if t in c.properties && Accepts(t, c.properties[t]) then c.properties[t] else before.value.fallback
    ensures Some(before.value.(value := v)) == Expected(declared, hasGrid, c, t)
  {
  }

  /** What is left alone is the same by both records; what is not registered is so by both. */
  lemma SameIsExpected(declared: seq<Declaration>, hasGrid: bool, prior: Config, c: Config, t: Property)
    requires !IsLayout(t)
    ensures Expected(declared, hasGrid, prior, t).Some? <==> Expected(declared, hasGrid, c, t).Some?
    ensures var a, b := Expected(declared, hasGrid, prior, t), Expected(declared, hasGrid, c, t);
            a.Some? ==> a.value.(value := b.value.value) == b.value
    ensures IsUntouched(prior, c, t) && !IsDriven(c, t) ==>
              Expected(declared, hasGrid, prior, t) == Expected(declared, hasGrid, c, t)
  {
    hide Accepts, IsDriven, Declared;
  }

  lemma OthersStay(st: Store, next: Store, declared: seq<Declaration>, hasGrid: bool, prior: Config, c: Config,
                   done: set<Property>, t: Property)
    requires IsEdited(st, declared, hasGrid, prior, c, done) && IsValid(next) && HasColors(next)
    requires forall u :: u != t ==> Lookup(next, u) == Lookup(st, u)
    requires IsAs(Lookup(next, t), Expected(declared, hasGrid, c, t), IsDriven(c, t))
    ensures IsEdited(next, declared, hasGrid, prior, c, done + {t})
  {
    hide Lookup, Expected, IsDriven, HasColors, IsValid;
    forall u
      ensures
        IsAs(Lookup(next, u), Expected(declared, hasGrid, if u in done + {t} then c else prior, u), IsDriven(c, u))
    {
      assert IsAs(Lookup(st, u), Expected(declared, hasGrid, if u in done then c else prior, u), IsDriven(c, u));
    }
  }

  /** Every registered property is done, so the store follows the new record. */
  lemma EditIsDone(st: Store, declared: seq<Declaration>, hasGrid: bool, prior: Config, c: Config, done: set<Property>)
    requires IsEdited(st, declared, hasGrid, prior, c, done)
    requires forall t :: t in Types(st) && t !in done ==>
               Expected(declared, hasGrid, prior, t) == Expected(declared, hasGrid, c, t)
    ensures Follows(st, declared, hasGrid, c)
  {
    TypesAreRegistered(st);
    hide Lookup, Expected, IsDriven, HasColors, IsValid, Types;
    forall t ensures IsAs(Lookup(st, t), Expected(declared, hasGrid, c, t), IsDriven(c, t)) {
      assert IsAs(Lookup(st, t), Expected(declared, hasGrid, if t in done then c else prior, t), IsDriven(c, t));
      if Lookup(st, t).None? {
        NeverRegistered(declared, hasGrid, prior, c, t);
      }
    }
  }

  lemma NeverRegistered(declared: seq<Declaration>, hasGrid: bool, prior: Config, c: Config, t: Property)
    ensures Expected(declared, hasGrid, prior, t).None? <==> Expected(declared, hasGrid, c, t).None?
  {
  }

  // Building.

  /** The record with some of its properties only. */
  function Restricted(c: Config, keys: set<Property>): Config {
    c.(properties := map t | t in c.properties && t in keys :: c.properties[t])
  }

  /** Setting one more property of the record. */
  lemma BuiltNext(st: Store, declared: seq<Declaration>, hasGrid: bool, c: Config, keys: set<Property>, t: Property)
    requires IsBuilt(st, declared, hasGrid, Restricted(c, keys)) && t in c.properties && t !in keys
    ensures var next := if IsStructural(t) || IsLayout(t) then st else WithSet(st, t, c.properties[t]);
            IsBuilt(next, declared, hasGrid, Restricted(c, keys + {t})) && Types(next) == Types(st)
  {
    var next := if IsStructural(t) || IsLayout(t) then st else WithSet(st, t, c.properties[t]);
    var v := c.properties[t];
    if next != st {
      WrittenOne(st, t, v);
    }
    hide IsValid, HasColors, Written, Types, Declared;
    forall u ensures Lookup(next, u) == Expected(declared, hasGrid, Restricted(c, keys + {t}), u) {
      assert Lookup(st, u) == Expected(declared, hasGrid, Restricted(c, keys), u);
    }
  }

  lemma AllKeys(c: Config)
    ensures Restricted(c, c.properties.Keys) == c
  {
    assert Restricted(c, c.properties.Keys).properties == c.properties;
  }

  /** The first `n` declarations are registered, over what was there. */
  ghost predicate IsRegistered(st: Store, start: Store, declared: seq<Declaration>, n: nat)
    requires n <= |declared|
  {
    && IsValid(st) && HasColors(st)
    && forall t :: Lookup(st, t) ==
        if Declared(declared[..n], t).Some? then Some(Default(Declared(declared[..n], t).value)) else Lookup(start, t)
  }

  lemma RegisteredNext(st: Store, start: Store, declared: seq<Declaration>, n: nat)
    requires n < |declared| && IsDeclarable(declared) && IsRegistered(st, start, declared, n)
    ensures var d := declared[n];
            IsRegistered(Registered(st, d.property, d.fallback, d.effect), start, declared, n + 1)
  {
    var d := declared[n];
    var next := Registered(st, d.property, d.fallback, d.effect);
    RegisteredOne(st, d.property, d.fallback, d.effect);
    assert declared[..n + 1][..n] == declared[..n];
    hide Lookup, IsValid, HasColors, Registered;
    forall t
      ensures Lookup(next, t) == if Declared(declared[..n + 1], t).Some? then
                Some(Default(Declared(declared[..n + 1], t).value)) else Lookup(start, t)
    {
    }
  }

  function BoxRegistered(st: Store, box: Box, t: Property): Store
    requires IsLayout(t)
  {
    Registered(st, t, BoxValue(box, t), Relayout)
  }

  function LayoutRegistered(st: Store, box: Box): Store {
    BoxRegistered(BoxRegistered(BoxRegistered(BoxRegistered(st, box, LAYOUT_X), box, LAYOUT_Y), box, LAYOUT_WIDTH),
                  box, LAYOUT_HEIGHT)
  }

  lemma BoxRegisteredOne(st: Store, box: Box, t: Property)
    requires IsValid(st) && HasColors(st) && IsLayout(t)
    ensures var next := BoxRegistered(st, box, t);
            && IsValid(next) && HasColors(next)
            && (forall u :: Lookup(next, u) == if u == t then Some(BoxEntry(box, t)) else Lookup(st, u))
            && (Lookup(st, t).Some? ==> Types(next) == Types(st))
  {
    RegisteredOne(st, t, BoxValue(box, t), Relayout);
  }

  lemma LayoutIsRegistered(st: Store, box: Box)
    requires IsValid(st) && HasColors(st)
    ensures var next := LayoutRegistered(st, box);
            && IsValid(next) && HasColors(next)
            && (forall u :: Lookup(next, u) == if IsLayout(u) then Some(BoxEntry(box, u)) else Lookup(st, u))
            && ((forall u :: IsLayout(u) ==> Lookup(st, u).Some?) ==> Types(next) == Types(st))
  {
    hide IsValid, HasColors, Lookup, BoxRegistered, BoxEntry, Types;
    var a := BoxRegistered(st, box, LAYOUT_X);
    BoxRegisteredOne(st, box, LAYOUT_X);
    var b := BoxRegistered(a, box, LAYOUT_Y);
    BoxRegisteredOne(a, box, LAYOUT_Y);
    var c := BoxRegistered(b, box, LAYOUT_WIDTH);
    BoxRegisteredOne(b, box, LAYOUT_WIDTH);
    BoxRegisteredOne(c, box, LAYOUT_HEIGHT);
  }

  /** With everything registered, the store is as a record without properties has it. */
  lemma RegisteredIsBuilt(st: Store, start: Store, declared: seq<Declaration>, hasGrid: bool, c: Config)
    requires IsDeclarable(declared) && IsRegistered(st, start, declared, |declared|)
    requires forall t :: Lookup(start, t).Some? ==> Expected(declared, hasGrid, c, t).Some?
    ensures IsBuilt(if hasGrid then LayoutRegistered(st, c.box) else st, declared, hasGrid, Restricted(c, {}))
  {
    assert declared[..|declared|] == declared;
    if hasGrid {
      LayoutIsRegistered(st, c.box);
    }
    hide IsValid, HasColors, Lookup, LayoutRegistered;
  }

  /** `ApplyLayout`: the box follows the four properties at once. */
  function LayoutApplied(w: State): State {
    w.(applied := w.applied[LAYOUT_X := Applied(Get(w.store, LAYOUT_X), w.isReady)]
                           [LAYOUT_Y := Applied(Get(w.store, LAYOUT_Y), w.isReady)]
                           [LAYOUT_WIDTH := Applied(Get(w.store, LAYOUT_WIDTH), w.isReady)]
                           [LAYOUT_HEIGHT := Applied(Get(w.store, LAYOUT_HEIGHT), w.isReady)])
  }

  /** A bound property of the box keeps the value that it had. */
  function Rebound(st: Store, before: Store, c: Config, t: Property): Store {
    if IsDriven(c, t) then WithSet(st, t, Get(before, t)) else st
  }

  /** The record's box, but for what events drive. */
  function BoxEdited(st: Store, c: Config): Store {
    var moved := Rebound(Rebound(LayoutRegistered(st, c.box), st, c, LAYOUT_X), st, c, LAYOUT_Y);
    Rebound(Rebound(moved, st, c, LAYOUT_WIDTH), st, c, LAYOUT_HEIGHT)
  }

  lemma ReboundOne(st: Store, before: Store, c: Config, t: Property)
    requires IsValid(st) && HasColors(st) && IsLayout(t) && Lookup(st, t).Some?
    ensures var next := Rebound(st, before, c, t);
            && IsValid(next) && HasColors(next) && Types(next) == Types(st)
            && (forall u :: Lookup(next, u) == if u == t && IsDriven(c, t) then
                  Some(Lookup(st, t).value.(value := Get(before, t))) else Lookup(st, u))
  {
    if IsDriven(c, t) {
      WrittenOne(st, t, Get(before, t));
    }
  }

  lemma BoxIsEdited(st: Store, c: Config)
    requires IsValid(st) && HasColors(st) && forall u :: IsLayout(u) ==> Lookup(st, u).Some?
    ensures var next := BoxEdited(st, c);
            && IsValid(next) && HasColors(next) && Types(next) == Types(st)
            && (forall u :: Lookup(next, u) ==
                 if !IsLayout(u) then Lookup(st, u)
                 else if IsDriven(c, u) then Some(BoxEntry(c.box, u).(value := Get(st, u)))
                 else Some(BoxEntry(c.box, u)))
  {
    LayoutIsRegistered(st, c.box);
    hide Lookup, IsValid, HasColors, LayoutRegistered, Rebound, BoxEntry, Types, IsDriven, Get;
    var a := LayoutRegistered(st, c.box);
    ReboundOne(a, st, c, LAYOUT_X);
    var b := Rebound(a, st, c, LAYOUT_X);
    ReboundOne(b, st, c, LAYOUT_Y);
    var d := Rebound(b, st, c, LAYOUT_Y);
    ReboundOne(d, st, c, LAYOUT_WIDTH);
    ReboundOne(Rebound(d, st, c, LAYOUT_WIDTH), st, c, LAYOUT_HEIGHT);
  }

  lemma EditedHasBox(st: Store, declared: seq<Declaration>, prior: Config, c: Config, done: set<Property>)
    requires IsEdited(st, declared, true, prior, c, done)
    ensures IsValid(st) && HasColors(st) && forall u :: IsLayout(u) ==> Lookup(st, u).Some?
  {
    hide Lookup, IsDriven, Declared;
    forall u | IsLayout(u) ensures Lookup(st, u).Some? {
      assert IsAs(Lookup(st, u), Expected(declared, true, if u in done then c else prior, u), IsDriven(c, u));
    }
  }

  lemma BoxIsDone(st: Store, declared: seq<Declaration>, prior: Config, c: Config, done: set<Property>)
    requires IsEdited(st, declared, true, prior, c, done)
    ensures IsEdited(BoxEdited(st, c), declared, true, prior, c,
                     done + {LAYOUT_X, LAYOUT_Y, LAYOUT_WIDTH, LAYOUT_HEIGHT})
  {
    hide Lookup, IsValid, HasColors, BoxEdited, IsDriven, Expected, BoxEntry, Get, Types;
    EditedHasBox(st, declared, prior, c, done);
    BoxIsEdited(st, c);
    var next, all := BoxEdited(st, c), done + {LAYOUT_X, LAYOUT_Y, LAYOUT_WIDTH, LAYOUT_HEIGHT};
    forall u ensures IsAs(Lookup(next, u), Expected(declared, true, if u in all then c else prior, u), IsDriven(c, u)) {
      assert IsAs(Lookup(st, u), Expected(declared, true, if u in done then c else prior, u), IsDriven(c, u));
      LayoutExpected(declared, c, u);
    }
  }

  lemma LayoutExpected(declared: seq<Declaration>, c: Config, u: Property)
    ensures IsLayout(u) ==> Expected(declared, true, c, u) == Some(BoxEntry(c.box, u))
  {
  }

  lemma BoxKeeps(w: State, next: Store)
    requires IsKept(w) && IsValid(next) && Types(next) == Types(w.store)
    requires forall u :: !IsLayout(u) ==> Lookup(next, u) == Lookup(w.store, u)
    ensures IsKept(LayoutApplied(w.(store := next)))
  {
    hide Lookup, IsValid, Types;
    var after := LayoutApplied(w.(store := next));
    forall t | t in Visual(next) ensures IsTracked(after, t) {
      assert IsTracked(w, t);
    }
  }

  ghost predicate HasBox(st: Store) { forall u :: IsLayout(u) ==> Lookup(st, u).Some? }

  function DoneTo(types: seq<Property>, n: nat): set<Property>
    requires n <= |types|
  {
    set t | t in types[..n] && t != VALUE && !IsLayout(t)
  }

  function Done(types: seq<Property>): set<Property> { DoneTo(types, |types|) + {VALUE} }

  lemma DoneNext(types: seq<Property>, i: nat)
    requires i < |types|
    ensures DoneTo(types, i + 1) ==
            DoneTo(types, i) + if types[i] != VALUE && !IsLayout(types[i]) then {types[i]} else {}
    ensures DoneTo(types, 0) == {}
  {
    assert types[..i + 1] == types[..i] + [types[i]];
  }

  lemma AllDone(types: seq<Property>)
    ensures DoneTo(types, |types|) + {VALUE} == Done(types) && DoneTo(types, 0) == {}
  {
  }

  /** One property was edited; what is stored follows what the edit says. */
  lemma EditIsTaken(after: Store, before: Store, declared: seq<Declaration>, hasGrid: bool, prior: Config, c: Config,
                    done: set<Property>, t: Property, follows: bool)
    requires SameStore(after, Edited(before, prior, c, t)) && IsValid(before) && HasColors(before) && !IsLayout(t)
    requires follows ==> IsEdited(before, declared, hasGrid, prior, c, done)
    ensures HasColors(after) && Types(after) == Types(before)
    ensures follows ==> IsEdited(after, declared, hasGrid, prior, c, done + {t})
  {
    EditedColors(before, prior, c, t);
    if follows {
      EditedOne(before, declared, hasGrid, prior, c, done, t);
    }
    hide Lookup, IsValid, IsDriven, Expected, Edited, Types;
  }

  lemma EditedColors(st: Store, prior: Config, c: Config, t: Property)
    requires IsValid(st) && HasColors(st)
    ensures HasColors(Edited(st, prior, c, t)) && Types(Edited(st, prior, c, t)) == Types(st)
  {
    if !IsUntouched(prior, c, t) && Lookup(st, t).Some? {
      var v :=
        if t in c.properties && IsAccepted(st, t, c.properties[t]) then c.properties[t]
        else Lookup(st, t).value.fallback;
      WrittenOne(st, t, v);
      assert Edited(st, prior, c, t) == Written(st, t, v);
    }
  }

  lemma KeptIsValid(w: State)
    requires IsKept(w)
    ensures IsValid(w.store)
  {
  }

  lemma StartIsEdited(st: Store, declared: seq<Declaration>, hasGrid: bool, prior: Config, c: Config)
    requires Follows(st, declared, hasGrid, prior) && c.bindings == prior.bindings
    ensures IsEdited(st, declared, hasGrid, prior, c, {})
  {
    hide Lookup, Expected;
    forall t ensures IsAs(Lookup(st, t), Expected(declared, hasGrid, prior, t), IsDriven(c, t)) {
      assert IsDriven(c, t) == IsDriven(prior, t);
    }
  }

  /** With the box done too, the store follows the new record. */
  lemma EditFollows(st: Store, declared: seq<Declaration>, hasGrid: bool, prior: Config, c: Config)
    requires IsDeclarable(declared) && IsEdited(st, declared, hasGrid, prior, c, Done(Types(st)))
    ensures Follows(if hasGrid && prior.box != c.box then BoxEdited(st, c) else st, declared, hasGrid, c)
  {
    var done := Done(Types(st));
    if hasGrid && prior.box != c.box {
      BoxIsDone(st, declared, prior, c, done);
      BoxTypes(st, declared, prior, c, done);
      hide IsEdited, BoxEdited;
      assert Types(st)[..|Types(st)|] == Types(st);
      var all := done + {LAYOUT_X, LAYOUT_Y, LAYOUT_WIDTH, LAYOUT_HEIGHT};
      EditIsDone(BoxEdited(st, c), declared, hasGrid, prior, c, all);
    } else {
      assert Types(st)[..|Types(st)|] == Types(st);
      forall t | t in Types(st) && t !in done
        ensures Expected(declared, hasGrid, prior, t) == Expected(declared, hasGrid, c, t)
      {
        SameLayout(declared, hasGrid, prior, c, t);
      }
      hide IsEdited;
      EditIsDone(st, declared, hasGrid, prior, c, done);
    }
  }

  lemma BoxTypes(st: Store, declared: seq<Declaration>, prior: Config, c: Config, done: set<Property>)
    requires IsEdited(st, declared, true, prior, c, done)
    ensures Types(BoxEdited(st, c)) == Types(st)
  {
    EditedHasBox(st, declared, prior, c, done);
    BoxIsEdited(st, c);
  }

  lemma SameLayout(declared: seq<Declaration>, hasGrid: bool, prior: Config, c: Config, t: Property)
    requires IsLayout(t) && (hasGrid ==> prior.box == c.box)
    ensures Expected(declared, hasGrid, prior, t) == Expected(declared, hasGrid, c, t)
  {
  }

  class WidgetBase {
    const id: nat
    const declared: seq<Declaration>
    /** A root widget has its screen's grid, and registers its box. */
    const hasGrid: bool
    const isOwned: bool
    const properties: WidgetPropertyStore

    var configuration: Option<Config>
    var pending: set<Property>
    var isReady: bool
    var isGroupActive: bool
    var isDetached: bool
    var isShown: bool
    var isHidden: bool
    ghost var applied: map<Property, Applied>
    ghost var log: seq<Property>

    ghost function View(): State
      reads this, properties
    {
      State(properties.Contents(), pending, isReady, isGroupActive, isDetached, isShown, isHidden, applied, log)
    }

    /** What the last record and the events since then made of the store. */
    ghost predicate FollowsRecord()
      reads this, properties
    {
      configuration.Some? && Follows(properties.Contents(), declared, hasGrid, configuration.value)
    }

    constructor (id: nat, declared: seq<Declaration>, hasGrid: bool, isOwned: bool)
      requires IsDeclarable(declared)
      ensures this.id == id && this.declared == declared && this.hasGrid == hasGrid && this.isOwned == isOwned
      ensures configuration == None && fresh(properties) && IsKept(View())
      ensures forall t :: Lookup(properties.Contents(), t) == None
    {
      this.id := id;
      this.declared := declared;
      this.hasGrid := hasGrid;
      this.isOwned := isOwned;
      properties := new WidgetPropertyStore();
      configuration := None;
      pending := {};
      isReady, isGroupActive, isDetached, isShown, isHidden := false, false, false, false, false;
      applied := map[];
      log := [];
    }

    predicate Live(): (isLive: bool)
      reads this, properties
      ensures isLive == IsLive(View())
    {
      isReady && Eligible()
    }

    method ApplyProperty(t: Property)
      modifies `isHidden, `applied, `log, properties`applied
      ensures View() == ApplyOne(old(View()), t)
    {
      var v := Get(properties.Contents(), t);
      applied := applied[t := Applied(v, isReady)];
      log := log + [t];
      if IsManagement(t) {
        if t == IS_VISIBLE {
          isHidden := !BoolOr(v, true);
        }
      } else if !IsLayout(t) {
        properties.ApplyColor(t);
      }
    }

    /** The others in the order of registration, and VALUE last. */
    method ApplyProperties(selected: set<Property>)
      requires IsValid(properties.Contents())
      modifies `isHidden, `applied, `log, properties`applied
      ensures View() == ApplySelected(old(View()), selected)
    {
      ghost var start := View();
      var types := Types(properties.Contents());
      ghost var chosen := selected - {VALUE};
      hide *;
      assert types[..0] == [];
      var i := 0;
      while i < |types|
        invariant i <= |types| && View() == ApplyAll(start, Chosen(types[..i], chosen))
      {
        ChosenNext(start, types, i, chosen);
        if types[i] != VALUE && types[i] in selected {
          ApplyProperty(types[i]);
        }
        i := i + 1;
      }
      assert types[..i] == types;
      AppliedLast(start, types, selected);
      if VALUE in selected {
        ApplyProperty(VALUE);
      }
    }

    method ReplayPendingProperties()
      requires IsValid(properties.Contents())
      modifies `pending, `isHidden, `applied, `log, properties`applied
      ensures View() == ReplayPending(old(View()))
    {
      if !Live() {
        return;
      }
      hide ApplySelected;
      var waiting := pending;
      pending := {};
      ApplyProperties(waiting);
    }

    method ReplayProperties()
      requires IsValid(properties.Contents())
      modifies `pending, `isHidden, `applied, `log, properties`applied
      ensures View() == Replay(old(View()))
    {
      hide ApplySelected, Types, Replay, All, Visual, IsLive, IsValid;
      var selected, visual := All(properties.Contents()), Visual(properties.Contents());
      ReplayIs(View());
      pending := {};
      ApplyProperties(selected);
      if !Live() {
        pending := visual;
      }
    }

    /** After the property was written: a management property at once, any other when the widget is live. */
    method NotifyPropertyChanged(t: Property)
      requires IsKeptBut(View(), t) && t in Types(properties.Contents())
      modifies `pending, `isHidden, `applied, `log, properties`applied
      ensures View() == Notify(old(View()), t) && IsKept(View())
    {
      NotifyKeeps(View(), t);
      hide ApplyOne, ReplayPending, IsKeptBut, IsKept, Lookup;
      if IsManagement(t) {
        ApplyProperty(t);
      } else if pending == {} && Live() {
        ApplyProperty(t);
        return;
      } else {
        pending := pending + {t};
      }
      ReplayPendingProperties();
    }

    method OnActivated()
      requires IsKept(View())
      modifies `pending, `isGroupActive, `isHidden, `applied, `log, properties`applied
      ensures View() == After(old(View()), Activate) && IsKept(View())
    {
      StepKeeps(View(), Activate);
      if isDetached {
        return;
      }
      isGroupActive := true;
      if Live() {
        ReplayProperties();
      }
    }

    method OnDeactivated()
      requires IsKept(View())
      modifies `isGroupActive
      ensures View() == After(old(View()), Deactivate) && IsKept(View())
    {
      StepKeeps(View(), Deactivate);
      if !isDetached {
        isGroupActive := false;
      }
    }

    method Synchronize()
      requires IsKept(View())
      modifies `pending, `isHidden, `applied, `log, properties`applied
      ensures View() == After(old(View()), Step.Synchronize) && IsKept(View())
      ensures old(Live()) ==> pending == {}
    {
      StepKeeps(View(), Step.Synchronize);
      if IsLive(View()) {
        SynchronizedShowsAll(View());
      }
      if !isDetached {
        ReplayPendingProperties();
      }
    }

    /** Builds the objects, which may fail. */
    method Render() returns (isBuilt: bool)
      requires IsKept(View())
      modifies `pending, `isReady, `isHidden, `applied, `log, properties`applied
      ensures View() == After(old(View()), Step.Render(isBuilt)) && IsKept(View())
    {
      isBuilt := *;
      StepKeeps(View(), Step.Render(isBuilt));
      if isDetached {
        return;
      }
      isReady := isBuilt;
      if isBuilt {
        ReplayPendingProperties();
      }
    }

    /** An event of a binding to `t`, converted to the property's type. `isTracked` is whether the parent tracks. */
    method OnEvent(t: Property, v: Value, isTracked: bool)
      requires IsKept(View())
      modifies `pending, `isHidden, `applied, `log, properties
      ensures View() == After(old(View()), Receive(t, v, isTracked)) && IsKept(View())
      ensures if old(IsHeard(View(), t, isTracked) && IsTaken(View().store, t, v)) then Get(View().store, t) == v
              else View() == old(View())
      ensures old(FollowsRecord()) && IsDriven(configuration.value, t) ==> FollowsRecord()
    {
      hide IsKept, IsKeptBut, Lookup, Follows, IsDriven, Types, Notify, Written, Accepts, IsValid;
      ghost var before := View();
      StepKeeps(before, Receive(t, v, isTracked));
      EventIsStored(before, t, v, isTracked);
      KeptIsValid(before);
      var isActive := BoolOr(Get(properties.Contents(), IS_ACTIVE), true);
      if isDetached || (!IsManagement(t) && !(isTracked && isActive)) || v.NoValue? {
        return;
      }
      var isSet := properties.Set(t, v);
      if !isSet {
        return;
      }
      WrittenIsKept(before, t, v);
      EventKeepsRecord(before.store, declared, hasGrid, configuration, t, v);
      NotifyKeepsStore(View(), t);
      NotifyPropertyChanged(t);
      SameStoreFollows(View().store, Written(before.store, t, v), declared, hasGrid, configuration);
    }

    /** Declares what the class declares, and a root's box. */
    method RegisterProperties(c: Config)
      requires IsDeclarable(declared) && IsValid(properties.Contents()) && HasColors(properties.Contents())
      requires forall t :: Lookup(properties.Contents(), t).Some? ==> Expected(declared, hasGrid, c, t).Some?
      modifies properties
      ensures IsBuilt(properties.Contents(), declared, hasGrid, Restricted(c, {}))
    {
      hide *;
      ghost var start := properties.Contents();
      NothingRegistered(start, declared);
      var k := 0;
      while k < |declared|
        invariant k <= |declared| && IsRegistered(properties.Contents(), start, declared, k)
        invariant IsValid(properties.Contents()) && HasColors(properties.Contents())
      {
        RegisteredNext(properties.Contents(), start, declared, k);
        RegisteredIsValid(properties.Contents(), start, declared, k);
        var d := declared[k];
        DeclarableAt(declared, k);
        var ok := properties.Register(d.property, d.fallback, d.effect);
        RegisteredIsValid(properties.Contents(), start, declared, k + 1);
        k := k + 1;
      }
      RegisteredIsBuilt(properties.Contents(), start, declared, hasGrid, c);
      if hasGrid {
        RegisterLayoutProperties(c.box);
      }
    }

    method RegisterLayoutProperties(box: Box)
      requires IsValid(properties.Contents()) && HasColors(properties.Contents())
      modifies properties
      ensures properties.Contents() == LayoutRegistered(old(properties.Contents()), box)
      ensures IsValid(properties.Contents()) && HasColors(properties.Contents())
    {
      LayoutIsRegistered(properties.Contents(), box);
      hide IsValid, HasColors, Registered, Lookup;
      var ok := properties.Register(LAYOUT_X, BoxValue(box, LAYOUT_X), Relayout);
      ok := properties.Register(LAYOUT_Y, BoxValue(box, LAYOUT_Y), Relayout);
      ok := properties.Register(LAYOUT_WIDTH, BoxValue(box, LAYOUT_WIDTH), Relayout);
      ok := properties.Register(LAYOUT_HEIGHT, BoxValue(box, LAYOUT_HEIGHT), Relayout);
    }

    /** The record's values, whichever the order they are gone through in. */
    method SetProperties(c: Config)
      requires IsBuilt(properties.Contents(), declared, hasGrid, Restricted(c, {}))
      modifies properties`entries, properties`colors
      ensures IsBuilt(properties.Contents(), declared, hasGrid, c)
    {
      hide *;
      var rest := c.properties.Keys;
      ghost var done: set<Property> := {};
      while rest != {}
        invariant done !! rest && done + rest == c.properties.Keys
        invariant IsBuilt(properties.Contents(), declared, hasGrid, Restricted(c, done))
        decreases |rest|
      {
        var t :| t in rest;
        BuiltNext(properties.Contents(), declared, hasGrid, c, done, t);
        if !IsStructural(t) && !IsLayout(t) {
          BuiltIsValid(properties.Contents(), declared, hasGrid, Restricted(c, done));
          var ok := properties.Set(t, c.properties[t]);
        }
        rest, done := rest - {t}, done + {t};
      }
      assert done == c.properties.Keys;
      AllKeys(c);
    }

    /** Builds the widget from a record: the store is as the record has it, and everything waits to be shown. */
    method Configure(c: Config) returns (ok: bool)
      requires IsDeclarable(declared) && IsKept(View()) && HasColors(properties.Contents())
      requires forall t :: Lookup(properties.Contents(), t).Some? ==> Expected(declared, hasGrid, c, t).Some?
      modifies this, properties
      ensures ok == !(old(isDetached) || (isOwned && old(configuration).Some?))
      ensures !ok ==> View() == old(View()) && configuration == old(configuration)
      ensures ok ==> configuration == Some(c) && IsBuilt(properties.Contents(), declared, hasGrid, c)
      ensures ok ==> FollowsRecord()
      ensures IsKept(View())
    {
      if isDetached || (isOwned && configuration.Some?) {
        return false;
      }
      hide Lookup, Expected, IsBuilt, Follows, HasColors, Replay, IsValid;
      configuration := Some(c);
      RegisterProperties(c);
      SetProperties(c);
      BuiltIsValid(properties.Contents(), declared, hasGrid, c);
      ReplayKeeps(View());
      ReplayProperties();
      ok := true;
    }

    /** The new record's value or the default, where the records differ and no event drives the property. */
    method ApplyEditorProperty(prior: Config, c: Config, t: Property)
      requires IsKept(View())
      modifies `pending, `isHidden, `applied, `log, properties
      ensures IsKept(View())
      ensures SameStore(properties.Contents(), Edited(old(properties.Contents()), prior, c, t))
    {
      if IsDriven(c, t) {
        return;
      }
      var hadBefore, hasAfter := t in prior.properties, t in c.properties;
      if !hadBefore && !hasAfter {
        return;
      }
      if hadBefore && hasAfter && prior.properties[t] == c.properties[t] {
        return;
      }
      hide *;
      UneditedIsSame(properties.Contents());
      var isSet := WriteEdited(c, t);
      if !isSet {
        return;
      }
      NotifyKeepsStore(View(), t);
      NotifyPropertyChanged(t);
    }

    /** Sets the new value; where there is none, or the property refuses it, the default. */
    method WriteEdited(c: Config, t: Property) returns (isSet: bool)
      requires IsKept(View())
      modifies properties`entries, properties`colors
      ensures isSet == Lookup(old(properties.Contents()), t).Some?
      ensures properties.Contents() == WithEdit(old(properties.Contents()), c, t)
      ensures isSet ==> IsKeptBut(View(), t) && t in Types(properties.Contents())
      ensures !isSet ==> View() == old(View())
    {
      hide Lookup, IsAccepted, WithSet, WithReset, WithEdit, Types, IsValid, IsKept, IsKeptBut;
      ghost var before := View();
      EditKeeps(before, c, t);
      if t in c.properties {
        isSet := properties.Set(t, c.properties[t]);
      } else {
        isSet := properties.Reset(t);
      }
      if !isSet {
        isSet := properties.Reset(t);
      }
    }

    /** The layout's defaults come from the record's box, and so do the values, but for those that events drive. */
    method ApplyEditorBox(prior: Config, c: Config)
      requires IsKept(View()) && HasColors(properties.Contents()) && (hasGrid ==> HasBox(properties.Contents()))
      modifies `applied, properties
      ensures IsKept(View())
      ensures properties.Contents() ==
              if hasGrid && prior.box != c.box then BoxEdited(old(properties.Contents()), c)
              else old(properties.Contents())
    {
      if !hasGrid || prior.box == c.box {
        return;
      }
      ghost var before := View();
      BoxIsEdited(properties.Contents(), c);
      KeptIsValid(before);
      hide Lookup, IsValid, HasColors, BoxEdited, IsKept, Types, HasBox;
      SetBox(c);
      BoxKeeps(before, properties.Contents());
      ApplyLayout();
    }

    method SetBox(c: Config)
      requires IsValid(properties.Contents()) && HasColors(properties.Contents())
      modifies properties
      ensures properties.Contents() == BoxEdited(old(properties.Contents()), c)
    {
      hide Lookup, IsValid, HasColors, LayoutRegistered, IsDriven, WithSet, Types;
      var st := properties.Contents();
      RegisterLayoutProperties(c.box);
      SetBound(c, LAYOUT_X, Get(st, LAYOUT_X));
      SetBound(c, LAYOUT_Y, Get(st, LAYOUT_Y));
      SetBound(c, LAYOUT_WIDTH, Get(st, LAYOUT_WIDTH));
      SetBound(c, LAYOUT_HEIGHT, Get(st, LAYOUT_HEIGHT));
    }

    method SetBound(c: Config, t: Property, v: Value)
      requires IsValid(properties.Contents())
      modifies properties`entries, properties`colors
      ensures IsValid(properties.Contents())
      ensures properties.Contents() ==
              if IsDriven(c, t) then WithSet(old(properties.Contents()), t, v) else old(properties.Contents())
    {
      if IsDriven(c, t) {
        var isSet := properties.Set(t, v);
      }
    }

    method ApplyLayout()
      modifies `applied
      ensures View() == LayoutApplied(old(View()))
    {
      ghost var st := properties.Contents();
      applied := applied[LAYOUT_X := Applied(Get(st, LAYOUT_X), isReady)]
                        [LAYOUT_Y := Applied(Get(st, LAYOUT_Y), isReady)]
                        [LAYOUT_WIDTH := Applied(Get(st, LAYOUT_WIDTH), isReady)]
                        [LAYOUT_HEIGHT := Applied(Get(st, LAYOUT_HEIGHT), isReady)];
    }

    /** Every property but the box, VALUE behind the others. */
    method ApplyEditorProperties(prior: Config, c: Config)
      requires IsKept(View()) && HasColors(properties.Contents())
      modifies `pending, `isHidden, `applied, `log, properties
      ensures IsKept(View()) && HasColors(properties.Contents())
      ensures Types(properties.Contents()) == old(Types(properties.Contents()))
      ensures old(IsEdited(properties.Contents(), declared, hasGrid, prior, c, {})) ==>
                IsEdited(properties.Contents(), declared, hasGrid, prior, c, Done(Types(properties.Contents())))
    {
      hide Lookup, IsValid, HasColors, IsEdited, Edited, IsKept, Types, DoneTo, Done, SameStore, IsUntouched;
      ghost var follows := IsEdited(properties.Contents(), declared, hasGrid, prior, c, {});
      var registered := Types(properties.Contents());
      ghost var done: set<Property> := {};
      AllDone(registered);
      var i := 0;
      while i < |registered|
        invariant i <= |registered| && IsKept(View()) && HasColors(properties.Contents())
        invariant Types(properties.Contents()) == registered && done == DoneTo(registered, i)
        invariant follows ==> IsEdited(properties.Contents(), declared, hasGrid, prior, c, done)
      {
        var t := registered[i];
        DoneNext(registered, i);
        if t != VALUE && !IsLayout(t) {
          ghost var before := properties.Contents();
          KeptIsValid(View());
          ApplyEditorProperty(prior, c, t);
          EditIsTaken(properties.Contents(), before, declared, hasGrid, prior, c, done, t, follows);
          done := done + {t};
        }
        i := i + 1;
      }
      ghost var before := properties.Contents();
      KeptIsValid(View());
      ApplyEditorProperty(prior, c, VALUE);
      EditIsTaken(properties.Contents(), before, declared, hasGrid, prior, c, done, VALUE, follows);
    }

    /**
     * Takes a new record of the same widget. Where the store followed the old record, and the bindings are the same,
     * it follows the new one, as if the widget had been built from it.
     */
    method ApplyEditorConfiguration(c: Config) returns (ok: bool)
      requires IsDeclarable(declared) && IsKept(View()) && HasColors(properties.Contents())
      requires hasGrid && configuration.Some? ==> HasBox(properties.Contents())
      modifies this, properties
      ensures IsKept(View())
      ensures ok ==
              !(old(isDetached) || old(configuration).None? || c.id != id || c.kind != old(configuration).value.kind)
      ensures !ok ==> View() == old(View()) && configuration == old(configuration)
      ensures ok ==> configuration == Some(c)
      ensures ok && old(FollowsRecord()) && c.bindings == old(configuration).value.bindings ==> FollowsRecord()
    {
      if isDetached || configuration.None? || c.id != id || c.kind != configuration.value.kind {
        return false;
      }
      hide Lookup, IsValid, HasColors, IsDriven, IsKept, Types, Follows, IsEdited, BoxEdited, HasBox, Done;
      var prior := configuration.value;
      ghost var follows := FollowsRecord() && c.bindings == prior.bindings;
      ghost var start := properties.Contents();
      if follows {
        StartIsEdited(start, declared, hasGrid, prior, c);
      }
      configuration := Some(c);
      ApplyEditorProperties(prior, c);
      ghost var edited := properties.Contents();
      KeptIsValid(View());
      ApplyEditorBox(prior, c);
      if follows {
        EditFollows(edited, declared, hasGrid, prior, c);
      }
      ok := true;
    }

    /** User input: written if the widget is eligible, applied by the base if it is an anchor. */
    method SetPropertyLocal(t: Property, v: Value) returns (ok: bool)
      requires IsKept(View())
      modifies `pending, `isHidden, `applied, `log, properties
      ensures ok == !IsStructural(t)
      ensures View() == SetLocal(old(View()), t, v)
      ensures IsAnchor(t) ==> IsKept(View())
    {
      hide IsKept, IsKeptBut, Lookup, Types, Notify, Written, IsValid, IsEligible;
      ghost var before := View();
      KeptIsValid(before);
      if IsStructural(t) {
        return false;
      }
      if !Eligible() {
        return true;
      }
      var isSet := properties.Set(t, v);
      if isSet && IsAnchor(t) {
        WrittenIsKept(before, t, v);
        NotifyPropertyChanged(t);
      }
      ok := true;
    }

    predicate Eligible(): (isEligible: bool)
      reads this, properties
      ensures isEligible == IsEligible(View())
    {
      var st := properties.Contents();
      && !isDetached && isGroupActive
      && BoolOr(Get(st, IS_ACTIVE), true) && BoolOr(Get(st, IS_VISIBLE), true) && IntOr(Get(st, OPACITY), 255) != 0
      && isShown && !isHidden
    }
  }

  lemma ChosenNext(w: State, types: seq<Property>, i: nat, chosen: set<Property>)
    requires i < |types|
    ensures ApplyAll(w, Chosen(types[..i + 1], chosen)) ==
            if types[i] in chosen then ApplyOne(ApplyAll(w, Chosen(types[..i], chosen)), types[i])
            else ApplyAll(w, Chosen(types[..i], chosen))
  {
    hide ApplyOne;
    assert types[..i + 1][..i] == types[..i];
    var before := Chosen(types[..i], chosen);
    assert before + [] == before && (before + [types[i]])[..|before|] == before;
  }

  lemma AppliedLast(w: State, types: seq<Property>, selected: set<Property>)
    ensures ApplyAll(w, InOrder(types, selected)) ==
            if VALUE in selected then ApplyOne(ApplyAll(w, Chosen(types, selected - {VALUE})), VALUE)
            else ApplyAll(w, Chosen(types, selected - {VALUE}))
    ensures Types(w.store) == types ==> ApplySelected(w, selected) == ApplyAll(w, InOrder(types, selected))
  {
    hide ApplyOne;
    var before := Chosen(types, selected - {VALUE});
    assert before + [] == before && (before + [VALUE])[..|before|] == before;
  }

  lemma ReplayIs(w: State)
    ensures var next := ApplySelected(w.(pending := {}), All(w.store));
            Replay(w) == if IsLive(next) then next else next.(pending := Visual(w.store))
  {
  }

  lemma NotifyKeepsStore(w: State, t: Property)
    requires IsKeptBut(w, t) && t in Types(w.store)
    ensures forall u :: Lookup(Notify(w, t).store, u) == Lookup(w.store, u)
    ensures Notify(w, t).store.colors == w.store.colors && IsValid(Notify(w, t).store)
  {
    NotifyKeeps(w, t);
  }

  lemma EventKeepsRecord(st: Store, declared: seq<Declaration>, hasGrid: bool, c: Option<Config>, t: Property, v: Value)
    requires IsAccepted(st, t, v)
    ensures c.Some? && Follows(st, declared, hasGrid, c.value) && IsDriven(c.value, t) ==>
              Follows(Written(st, t, v), declared, hasGrid, c.value)
  {
    hide Follows, IsDriven;
    if c.Some? && Follows(st, declared, hasGrid, c.value) && IsDriven(c.value, t) {
      EventFollows(st, declared, hasGrid, c.value, t, v);
    }
  }

  lemma SameStoreFollows(a: Store, b: Store, declared: seq<Declaration>, hasGrid: bool, c: Option<Config>)
    requires IsValid(a) && a.colors == b.colors && forall u :: Lookup(a, u) == Lookup(b, u)
    ensures c.Some? && Follows(b, declared, hasGrid, c.value) ==> Follows(a, declared, hasGrid, c.value)
  {
    hide Lookup, Expected, IsDriven, IsValid;
    if c.Some? && Follows(b, declared, hasGrid, c.value) {
      forall t ensures IsAs(Lookup(a, t), Expected(declared, hasGrid, c.value, t), IsDriven(c.value, t)) {
        assert IsAs(Lookup(b, t), Expected(declared, hasGrid, c.value, t), IsDriven(c.value, t));
      }
    }
  }

  /** The same entries for every property, and the same parsed colors. */
  ghost predicate SameStore(a: Store, b: Store) {
    && IsValid(a) && a.colors == b.colors && Types(a) == Types(b) && forall u :: Lookup(a, u) == Lookup(b, u)
  }

  lemma NothingRegistered(start: Store, declared: seq<Declaration>)
    requires IsValid(start) && HasColors(start)
    ensures IsRegistered(start, start, declared, 0)
  {
    assert declared[..0] == [];
  }

  lemma RegisteredIsValid(st: Store, start: Store, declared: seq<Declaration>, n: nat)
    requires n <= |declared| && IsRegistered(st, start, declared, n)
    ensures IsValid(st) && HasColors(st)
  {
  }

  lemma DeclarableAt(declared: seq<Declaration>, k: nat)
    requires IsDeclarable(declared) && k < |declared|
    ensures !IsStructural(declared[k].property)
  {
  }

  lemma BuiltIsValid(st: Store, declared: seq<Declaration>, hasGrid: bool, c: Config)
    requires IsBuilt(st, declared, hasGrid, c)
    ensures IsValid(st)
  {
  }

  function WithEdit(st: Store, c: Config, t: Property): Store {
    if t in c.properties && IsAccepted(st, t, c.properties[t]) then Written(st, t, c.properties[t])
    else WithReset(st, t)
  }

  lemma UneditedIsSame(st: Store)
    requires IsValid(st)
    ensures SameStore(st, st)
  {
  }

  lemma EditKeeps(w: State, c: Config, t: Property)
    requires IsKept(w)
    ensures IsValid(w.store)
    ensures var next := w.(store := WithEdit(w.store, c, t));
            Lookup(w.store, t).Some? ==> IsKeptBut(next, t) && t in Types(next.store)
    ensures Lookup(w.store, t).None? ==> WithEdit(w.store, c, t) == w.store
    ensures var v := if t in c.properties then c.properties[t] else NoValue;
            if t in c.properties && IsAccepted(w.store, t, v) then
              WithEdit(w.store, c, t) == WithSet(w.store, t, v) && Lookup(w.store, t).Some?
            else WithEdit(w.store, c, t) == WithReset(w.store, t)
    ensures t in c.properties && !IsAccepted(w.store, t, c.properties[t]) ==>
              WithSet(w.store, t, c.properties[t]) == w.store
    ensures Lookup(w.store, t).None? ==> WithReset(w.store, t) == w.store
  {
    if Lookup(w.store, t).Some? {
      WrittenIsKept(w, t, Lookup(w.store, t).value.fallback);
      if t in c.properties {
        WrittenIsKept(w, t, c.properties[t]);
      }
    }
    hide IsKeptBut, IsKept, Lookup, Types, Written;
  }
}
