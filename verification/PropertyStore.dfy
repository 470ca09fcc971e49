/** A widget's runtime properties: their defaults, their current values, and the colors parsed from them. */
module PropertyStore {
  import opened Common

  /** The persisted numbers of the widget properties. */
  type Property = p: nat | p < 51

  const IS_ACTIVE: Property := 1
  const ANCHOR_POINT_X: Property := 19
  const ANCHOR_POINT_Y: Property := 20
  const IS_VISIBLE: Property := 26
  const VALUE: Property := 27
  const OPACITY: Property := 34
  const COLOR_PRIMARY_ACTIVE: Property := 35
  const ANIMATION_TYPE: Property := 41
  const IS_ANIMATION_ACTIVE: Property := 42
  const ANIMATION_DURATION_MS: Property := 43
  const CHILD_WIDGET_IDS: Property := 44
  const LAYOUT_X: Property := 45
  const LAYOUT_Y: Property := 46
  const LAYOUT_WIDTH: Property := 47
  const LAYOUT_HEIGHT: Property := 48

  const COLORS := 6
  const MAX_ANCHOR_COORDINATE := 0x1FFF_FFFF
  const MAX_DURATION_MS := 0x7FFF_FFFF

  datatype Value =
    | NoValue
    | BoolValue(flag: bool)
    | IntValue(n: int)
    | TextValue(text: string)
    | OtherValue(kind: nat, code: nat)

  datatype Effect = NoEffect | Repaint | Relayout | Rebuild

  datatype Color = Color(red: byte, green: byte, blue: byte, alpha: byte)

  // What the validator says of a property.

  predicate IsManagement(t: Property) { t == IS_ACTIVE || t == IS_VISIBLE || t == OPACITY }

  predicate IsStructural(t: Property) { t == CHILD_WIDGET_IDS }

  predicate IsLayout(t: Property) { LAYOUT_X <= t <= LAYOUT_HEIGHT }

  predicate IsAnchor(t: Property) { t == ANCHOR_POINT_X || t == ANCHOR_POINT_Y }

  predicate IsColor(t: Property) { COLOR_PRIMARY_ACTIVE <= t < COLOR_PRIMARY_ACTIVE + COLORS }

  function ColorIndex(t: Property): (index: nat)
    requires IsColor(t)
    ensures index < COLORS
  {
    t - COLOR_PRIMARY_ACTIVE
  }

  function HexDigit(c: char): Option<nat> {
    if '0' <= c <= '9' then Some((c - '0') as nat)
    else if 'a' <= c <= 'f' then Some(10 + (c - 'a') as nat)
    else if 'A' <= c <= 'F' then Some(10 + (c - 'A') as nat)
    else None
  }

  function HexByte(high: char, low: char): Option<byte> {
    var h, l := HexDigit(high), HexDigit(low);
    if h.Some? && l.Some? && 16 * h.value + l.value < 256 then Some(16 * h.value + l.value) else None
  }

  /** `#RRGGBBAA`, or nothing for no color; None where the text is neither. */
  function TryParse(text: string): Option<Option<Color>> {
    if |text| == 0 then Some(None)
    else if |text| != 9 || text[0] != '#' then None
    else
      var r, g := HexByte(text[1], text[2]), HexByte(text[3], text[4]);
      var b, a := HexByte(text[5], text[6]), HexByte(text[7], text[8]);
      if r.Some? && g.Some? && b.Some? && a.Some? then Some(Some(Color(r.value, g.value, b.value, a.value))) else None
  }

  /** The color that a value comes to; none for what does not parse. */
  function ParsedColor(v: Value): Option<Color> {
    if v.TextValue? && TryParse(v.text).Some? then TryParse(v.text).value else None
  }

  /** The store takes the value for the property. */
  predicate Accepts(t: Property, v: Value) {
    if IsStructural(t) then false
    else if IsColor(t) then v.TextValue? && TryParse(v.text).Some?
    else if t == IS_ACTIVE || t == IS_VISIBLE || t == IS_ANIMATION_ACTIVE then v.BoolValue?
    else if t == OPACITY then v.IntValue? && 0 <= v.n <= 255
    else if t == ANIMATION_TYPE then v.IntValue? && 0 <= v.n <= 2
    else if t == ANIMATION_DURATION_MS then v.IntValue? && 2 <= v.n <= MAX_DURATION_MS
    else if IsAnchor(t) then v.IntValue? && -1 <= v.n <= MAX_ANCHOR_COORDINATE
    else true
  }

  function Alternative(v: Value): nat {
    match v
    case NoValue => 0
    case BoolValue(_) => 1
    case IntValue(_) => 2
    case TextValue(_) => 3
    case OtherValue(kind, _) => 4 + kind
  }

  datatype Entry = Entry(property: Property, effect: Effect, alternative: nat, value: Value, fallback: Value)

  type Colors = s: seq<Option<Color>> | |s| == COLORS witness [None, None, None, None, None, None]

  datatype Store = Store(entries: seq<Entry>, colors: Colors, applied: Colors)

  function Find(entries: seq<Entry>, t: Property): (i: nat)
    ensures i <= |entries|
    ensures i < |entries| ==> entries[i].property == t
    ensures forall k :: 0 <= k < i ==> entries[k].property != t
  {
    if |entries| == 0 || entries[0].property == t then 0 else 1 + Find(entries[1..], t)
  }

  function Lookup(st: Store, t: Property): (entry: Option<Entry>)
    ensures entry.Some? ==> entry.value.property == t
  {
    var i := Find(st.entries, t);
    if i < |st.entries| then Some(st.entries[i]) else None
  }

  function Get(st: Store, t: Property): Value {
    if Lookup(st, t).None? then NoValue else Lookup(st, t).value.value
  }

  function Types(st: Store): (types: seq<Property>)
    ensures |types| == |st.entries| && forall i :: 0 <= i < |types| ==> types[i] == st.entries[i].property
  {
    seq(|st.entries|, i requires 0 <= i < |st.entries| => st.entries[i].property)
  }

  /** No property is there twice, and no structural one at all. */
  ghost predicate IsValid(st: Store) {
    && (forall i, j :: 0 <= i < j < |st.entries| ==> st.entries[i].property != st.entries[j].property)
    && (forall i :: 0 <= i < |st.entries| ==> !IsStructural(st.entries[i].property))
  }

  function Put(st: Store, e: Entry): Store {
    var i := Find(st.entries, e.property);
    st.(entries := if i < |st.entries| then st.entries[i := e] else st.entries + [e])
  }

  function Registered(st: Store, t: Property, v: Value, effect: Effect): Store {
    var next := Put(st, Entry(t, effect, Alternative(v), v, v));
    if !IsColor(t) then next
    else
      var color := ParsedColor(v);
      next.(colors := st.colors[ColorIndex(t) := color], applied := st.applied[ColorIndex(t) := color])
  }

  predicate IsAccepted(st: Store, t: Property, v: Value) { Lookup(st, t).Some? && Accepts(t, v) }

  /** The property holds another value. */
  function Written(st: Store, t: Property, v: Value): Store
    requires Lookup(st, t).Some?
  {
    var next := Put(st, Lookup(st, t).value.(value := v));
    if IsColor(t) then next.(colors := st.colors[ColorIndex(t) := ParsedColor(v)]) else next
  }

  function WithSet(st: Store, t: Property, v: Value): Store {
    if IsAccepted(st, t, v) then Written(st, t, v) else st
  }

  function WithReset(st: Store, t: Property): Store {
    if Lookup(st, t).None? then st else Written(st, t, Lookup(st, t).value.fallback)
  }

  function WithColorApplied(st: Store, t: Property): Store {
    if IsColor(t) then st.(applied := st.applied[ColorIndex(t) := st.colors[ColorIndex(t)]]) else st
  }

  lemma FindAt(entries: seq<Entry>, i: nat)
    requires i < |entries| && forall k :: 0 <= k < i ==> entries[k].property != entries[i].property
    ensures Find(entries, entries[i].property) == i
  {
  }

  /** One entry is put, and the others stay. */
  lemma PutOne(st: Store, e: Entry)
    requires IsValid(st) && !IsStructural(e.property)
    ensures var next := Put(st, e);
            && IsValid(next)
            && (forall u :: Lookup(next, u) == if u == e.property then Some(e) else Lookup(st, u))
            && Types(next) == (if Lookup(st, e.property).Some? then Types(st) else Types(st) + [e.property])
  {
    var next := Put(st, e);
    forall u ensures Lookup(next, u) == if u == e.property then Some(e) else Lookup(st, u) {
      PutFinds(st, e, u);
    }
  }

  lemma PutFinds(st: Store, e: Entry, u: Property)
    ensures Lookup(Put(st, e), u) == if u == e.property then Some(e) else Lookup(st, u)
  {
    var next := Put(st, e);
    var i, k := Find(st.entries, e.property), Find(st.entries, u);
    if u == e.property {
      FindAt(next.entries, i);
    } else if k < |st.entries| {
      assert forall j :: 0 <= j < k ==> next.entries[j].property == st.entries[j].property;
      FindAt(next.entries, k);
    }
  }

  lemma RegisteredOne(st: Store, t: Property, v: Value, effect: Effect)
    requires IsValid(st) && !IsStructural(t)
    ensures var next := Registered(st, t, v, effect);
            && IsValid(next)
            && (forall u :: Lookup(next, u) ==
                 if u == t then Some(Entry(t, effect, Alternative(v), v, v)) else Lookup(st, u))
            && (forall u :: IsColor(u) ==>
                 next.colors[ColorIndex(u)] == if u == t then ParsedColor(v) else st.colors[ColorIndex(u)])
            && Types(next) == (if Lookup(st, t).Some? then Types(st) else Types(st) + [t])
  {
    var e := Entry(t, effect, Alternative(v), v, v);
    PutOne(st, e);
    hide Lookup;
    SameEntries(Put(st, e), Registered(st, t, v, effect));
  }

  lemma WrittenOne(st: Store, t: Property, v: Value)
    requires IsValid(st) && Lookup(st, t).Some? && !IsStructural(t)
    ensures var next := Written(st, t, v);
            && IsValid(next) && Types(next) == Types(st)
            && (forall u :: Lookup(next, u) == if u == t then Some(Lookup(st, t).value.(value := v)) else Lookup(st, u))
            && (forall u :: IsColor(u) ==>
                 next.colors[ColorIndex(u)] == if u == t then ParsedColor(v) else st.colors[ColorIndex(u)])
  {
    var e := Lookup(st, t).value.(value := v);
    PutOne(st, e);
    hide Lookup;
    SameEntries(Put(st, e), Written(st, t, v));
  }

  lemma SameEntries(a: Store, b: Store)
    requires a.entries == b.entries
    ensures forall u :: Lookup(a, u) == Lookup(b, u)
    ensures IsValid(a) <==> IsValid(b)
    ensures Types(a) == Types(b)
  {
  }

  lemma TypesAreRegistered(st: Store)
    requires IsValid(st)
    ensures forall u :: u in Types(st) <==> Lookup(st, u).Some?
    ensures forall i, j :: 0 <= i < j < |Types(st)| ==> Types(st)[i] != Types(st)[j]
  {
    forall u ensures u in Types(st) <==> Lookup(st, u).Some? {
      var i := Find(st.entries, u);
      if i < |st.entries| {
        assert Types(st)[i] == u;
      }
    }
  }

  class WidgetPropertyStore {
    var entries: seq<Entry>
    var colors: Colors
    var applied: Colors

    function Contents(): Store
      reads this
    {
      Store(entries, colors, applied)
    }

    constructor ()
      ensures Contents() == Store([], [None, None, None, None, None, None], [None, None, None, None, None, None])
    {
      entries := [];
      colors := [None, None, None, None, None, None];
      applied := [None, None, None, None, None, None];
    }

    /** Declares a property with its default; again, and the default is another. A structural one is refused. */
    method Register(t: Property, v: Value, effect: Effect) returns (ok: bool)
      requires IsValid(Contents())
      modifies this
      ensures ok == !IsStructural(t)
      ensures Contents() == if ok then Registered(old(Contents()), t, v, effect) else old(Contents())
      ensures IsValid(Contents())
    {
      if IsStructural(t) {
        return false;
      }
      RegisteredOne(Contents(), t, v, effect);
      var alternative := Alternative(v);
      if IsColor(t) {
        colors := colors[ColorIndex(t) := ParsedColor(v)];
        applied := applied[ColorIndex(t) := colors[ColorIndex(t)]];
      }
      var i := Find(entries, t);
      if i < |entries| {
        entries := entries[i := entries[i].(effect := effect, alternative := alternative, value := v, fallback := v)];
      } else {
        entries := entries + [Entry(t, effect, alternative, v, v)];
      }
      ok := true;
    }

    /** Keeps what is there where the property is not registered or does not take the value. */
    method Set(t: Property, v: Value) returns (ok: bool)
      requires IsValid(Contents())
      modifies `entries, `colors
      ensures ok == IsAccepted(old(Contents()), t, v)
      ensures Contents() == WithSet(old(Contents()), t, v) && IsValid(Contents())
    {
      var i := Find(entries, t);
      if IsStructural(t) || i == |entries| || !Accepts(t, v) {
        return false;
      }
      WrittenOne(Contents(), t, v);
      entries := entries[i := entries[i].(value := v)];
      if IsColor(t) {
        colors := colors[ColorIndex(t) := ParsedColor(v)];
      }
      ok := true;
    }

    /** Back to the default. */
    method Reset(t: Property) returns (ok: bool)
      requires IsValid(Contents())
      modifies `entries, `colors
      ensures ok == Lookup(old(Contents()), t).Some?
      ensures Contents() == WithReset(old(Contents()), t) && IsValid(Contents())
    {
      var i := Find(entries, t);
      if i == |entries| {
        return false;
      }
      WrittenOne(Contents(), t, entries[i].fallback);
      if IsColor(t) {
        colors := colors[ColorIndex(t) := ParsedColor(entries[i].fallback)];
      }
      entries := entries[i := entries[i].(value := entries[i].fallback)];
      ok := true;
    }

    method ApplyColor(t: Property)
      modifies `applied
      ensures Contents() == WithColorApplied(old(Contents()), t)
    {
      if IsColor(t) {
        applied := applied[ColorIndex(t) := colors[ColorIndex(t)]];
      }
    }
  }
}
