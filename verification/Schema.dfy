/**
 * The codec between named descriptions and CBOR items, which interprets a schema in both directions. The way back
 * guesses where optional members and alternatives were left out; here is when it guesses right.
 */
module Schema {
  import opened Common
  import Cbor

  type Float = Cbor.Bits64

  /** What Python computes with numbers. Floats are their bits. */
  datatype Numbers = Numbers(
    // `int(text, 0)`.
    parse: Bytes -> Option<int>,
    // `float(n)`.
    fromInt: int -> Float,
    // To single precision, where it fits, and back.
    narrow: Float -> Option<Cbor.Bits32>, widen: Cbor.Bits32 -> Float,
    // `shortest_float32`.
    shortest: Float -> Float)

  /** A description, as it is read from YAML or JSON. A text is its UTF-8 bytes. */
  datatype Value =
    | Null
    | Bool(flag: bool)
    | Int(n: int)
    | Float(f: Float)
    | Text(utf8: Bytes)
    | List(items: seq<Value>)
    | Dict(entries: seq<Entry>)

  datatype Entry = Entry(key: Value, value: Value)

  /**
   * A node of the schema with its names resolved. An array is a record if all its members are named, and repeats its
   * member if it has one without a name; the shapes that descriptions do not cover are unsupported.
   */
  datatype Node =
    | Uint
    | Integer
    | Boolean
    | Tstr
    | Number(single: bool)
    | Record(fields: seq<Field>)
    | Repeated(element: Node, min: nat, max: nat)
    | Mapping(key: Node, element: Node, min: nat, max: nat)
    | Choice(alternatives: seq<Node>)
    | Unsupported

  datatype Field = Field(name: Bytes, min: nat, max: nat, node: Node)

  // Description to items.

  function ToItems(py: Numbers, node: Node, value: Value): Option<Cbor.Item>
    decreases node, 1, 0
  {
    match node
    case Record(fields) =>
      if !value.Dict? || HasUnknown(fields, value.entries) then None
      else
        var items := FieldsToItems(py, node, 0, value.entries);
        if items.None? then None else Some(Cbor.Array(items.value))
    case Repeated(_, min, max) =>
      if !value.List? || !(min <= |value.items| <= max) then None
      else
        var items := AllToItems(py, node, value.items);
        if items.None? then None else Some(Cbor.Array(items.value))
    case Mapping(_, _, min, max) =>
      var pairs := PairsOf(value);
      if pairs.None? || !(min <= |pairs.value| <= max) then None
      else
        var items := PairsToItems(py, node, pairs.value);
        if items.None? then None else Some(Cbor.Map(items.value))
    case Choice(_) => FirstToItems(py, node, 0, value)
    case _ => ScalarToItem(py, node, value)
  }

  predicate IsScalar(node: Node) {
    !node.Record? && !node.Repeated? && !node.Mapping? && !node.Choice?
  }

  function ScalarToItem(py: Numbers, node: Node, value: Value): Option<Cbor.Item>
    requires IsScalar(node)
  {
    match node
    case Uint => if value.Int? && value.n >= 0 then Some(Cbor.Int(value.n)) else None
    case Integer => if value.Int? then Some(Cbor.Int(value.n)) else None
    case Boolean => if value.Bool? then Some(Cbor.Bool(value.flag)) else None
    case Tstr => if value.Text? then Some(Cbor.Text(value.utf8)) else None
    case Number(single) =>
      if value.Int? || value.Float? then
        var f := AsFloat(py, value);
        Some(if single then Cbor.Single(py.narrow(f)) else Cbor.Double(f))
      else None
    case Unsupported => None
  }

  function AsFloat(py: Numbers, value: Value): Float
    requires value.Int? || value.Float?
  {
    if value.Int? then py.fromInt(value.n) else value.f
  }

  function Get(entries: seq<Entry>, key: Value): (value: Value)
    ensures value.Null? || Entry(key, value) in entries
  {
    if |entries| == 0 then Null else if entries[0].key == key then entries[0].value else Get(entries[1..], key)
  }

  predicate HasUnknown(fields: seq<Field>, entries: seq<Entry>) {
    exists i :: 0 <= i < |entries| && !IsName(fields, entries[i].key)
  }

  predicate IsName(fields: seq<Field>, key: Value) {
    exists j :: 0 <= j < |fields| && key == Text(fields[j].name)
  }

  function Prepended<T>(first: T, rest: Option<seq<T>>): Option<seq<T>> {
    if rest.None? then None else Some([first] + rest.value)
  }

  /** The items of the members from `i` on. */
  function FieldsToItems(py: Numbers, node: Node, i: nat, entries: seq<Entry>): Option<seq<Cbor.Item>>
    requires node.Record? && i <= |node.fields|
    decreases node, 0, |node.fields| - i
  {
    if i == |node.fields| then Some([])
    else
      var field := node.fields[i];
      var value := Get(entries, Text(field.name));
      if field.max != 1 then None
      else if value != Null then
        var item := FieldToItem(py, field, value);
        if item.None? then None else Prepended(item.value, FieldsToItems(py, node, i + 1, entries))
      else if field.min == 0 then FieldsToItems(py, node, i + 1, entries)
      else None
  }

  function FieldToItem(py: Numbers, field: Field, value: Value): Option<Cbor.Item>
    decreases field
  {
    ToItems(py, field.node, value)
  }

  function AllToItems(py: Numbers, node: Node, values: seq<Value>): Option<seq<Cbor.Item>>
    requires node.Repeated?
    decreases node, 0, |values|
  {
    if |values| == 0 then Some([])
    else
      var item := ToItems(py, node.element, values[0]);
      if item.None? then None else Prepended(item.value, AllToItems(py, node, values[1..]))
  }

  predicate IsPair(v: Value) { v.List? && |v.items| == 2 }

  /** The pairs of a mapping, or of a list of lists of two. */
  function PairsOf(value: Value): Option<seq<Entry>> {
    if value.Dict? then Some(value.entries)
    else if value.List? && forall i :: 0 <= i < |value.items| ==> IsPair(value.items[i]) then
      Some(seq(|value.items|, i requires 0 <= i < |value.items| =>
        Entry(value.items[i].items[0], value.items[i].items[1])))
    else None
  }

  /** Python has `True == 1` and `False == 0`, so they are one key. */
  function KeyId(key: Cbor.Item): Cbor.Item {
    if key.Bool? then Cbor.Int(if key.flag then 1 else 0) else key
  }

  predicate HasKey(pairs: seq<Cbor.Pair>, key: Cbor.Item) {
    exists i :: 0 <= i < |pairs| && KeyId(pairs[i].key) == KeyId(key)
  }

  /** The items of the pairs so far; a key that is there twice is an error. */
  function PairsToItems(py: Numbers, node: Node, pairs: seq<Entry>): Option<seq<Cbor.Pair>>
    requires node.Mapping?
    decreases node, 0, |pairs|
  {
    if |pairs| == 0 then Some([])
    else
      var last := pairs[|pairs| - 1];
      var items := PairsToItems(py, node, pairs[..|pairs| - 1]);
      if items.None? then None
      else
        var key := ToItems(py, node.key, ParsedKey(py, node.key, last.key));
        if key.None? || HasKey(items.value, key.value) then None
        else
          var element := ToItems(py, node.element, last.value);
          if element.None? then None else Some(items.value + [Cbor.Pair(key.value, element.value)])
  }

  /** The text of a number is the number. A text that is none is no number either, which the key's node refuses. */
  function ParsedKey(py: Numbers, node: Node, key: Value): Value {
    if key.Text? && (node.Uint? || node.Integer?) then
      var n := py.parse(key.utf8);
      if n.Some? then Int(n.value) else key
    else key
  }

  /** The first alternative from `i` on that fits. */
  function FirstToItems(py: Numbers, node: Node, i: nat, value: Value): Option<Cbor.Item>
    requires node.Choice? && i <= |node.alternatives|
    decreases node, 0, |node.alternatives| - i
  {
    if i == |node.alternatives| then None
    else
      var item := ToItems(py, node.alternatives[i], value);
      if item.Some? then item else FirstToItems(py, node, i + 1, value)
  }

  // Items to description.

  function FromItems(py: Numbers, node: Node, item: Cbor.Item): Option<Value>
    decreases node, 1, 0
  {
    match node
    case Record(_) =>
      if !item.Array? then None
      else
        var entries := FieldsFromItems(py, node, 0, item.items, 0, []);
        if entries.None? then None else Some(Dict(entries.value))
    case Repeated(_, min, max) =>
      if !item.Array? || !(min <= |item.items| <= max) then None
      else
        var values := AllFromItems(py, node, item.items);
        if values.None? then None else Some(List(values.value))
    case Mapping(_, _, min, max) =>
      if !item.Map? || !(min <= |item.pairs| <= max) then None
      else
        var entries := PairsFromItems(py, node, item.pairs);
        if entries.None? then None else Some(Dict(entries.value))
    case Choice(_) => FirstFromItems(py, node, 0, item)
    case _ => ScalarFromItem(py, node, item)
  }

  function ScalarFromItem(py: Numbers, node: Node, item: Cbor.Item): Option<Value>
    requires IsScalar(node)
  {
    match node
    case Uint => if item.Int? && item.n >= 0 then Some(Int(item.n)) else None
    case Integer => if item.Int? then Some(Int(item.n)) else None
    case Boolean => if item.Bool? then Some(Bool(item.flag)) else None
    case Tstr => if item.Text? then Some(Text(item.utf8)) else None
    case Number(single) =>
      // The decoder makes a float of both widths.
      if item.Double? then Some(Float(if single then py.shortest(item.double) else item.double))
      else if item.Single? && item.single.Some? then
        var f := py.widen(item.single.value);
        Some(Float(if single then py.shortest(f) else f))
      else None
    case Unsupported => None
  }

  /** `dictionary[key] = value`. */
  function Put(entries: seq<Entry>, key: Value, value: Value): seq<Entry> {
    if |entries| == 0 then [Entry(key, value)]
    else if IsSameKey(entries[0].key, key) then [Entry(entries[0].key, value)] + entries[1..]
    else [entries[0]] + Put(entries[1..], key, value)
  }

  predicate IsSameKey(a: Value, b: Value) { ValueId(a) == ValueId(b) }

  function ValueId(key: Value): Value { if key.Bool? then Int(if key.flag then 1 else 0) else key }

  /** The members from `i` on take the items from `position` on; an optional member that cannot is left out. */
  function FieldsFromItems(py: Numbers, node: Node, i: nat, items: seq<Cbor.Item>, position: nat, entries: seq<Entry>)
    : Option<seq<Entry>>
    requires node.Record? && i <= |node.fields| && position <= |items|
    decreases node, 0, |node.fields| - i
  {
    if i == |node.fields| then if position == |items| then Some(entries) else None
    else
      var field := node.fields[i];
      var taken := if position < |items| then FieldFromItem(py, field, items[position]) else None;
      if field.max != 1 then None
      else if taken.Some? then
        FieldsFromItems(py, node, i + 1, items, position + 1, Put(entries, Text(field.name), taken.value))
      else if field.min != 0 then None
      else FieldsFromItems(py, node, i + 1, items, position, entries)
  }

  function FieldFromItem(py: Numbers, field: Field, item: Cbor.Item): Option<Value>
    decreases field
  {
    FromItems(py, field.node, item)
  }

  function AllFromItems(py: Numbers, node: Node, items: seq<Cbor.Item>): Option<seq<Value>>
    requires node.Repeated?
    decreases node, 0, |items|
  {
    if |items| == 0 then Some([])
    else
      var value := FromItems(py, node.element, items[0]);
      if value.None? then None else Prepended(value.value, AllFromItems(py, node, items[1..]))
  }

  function PairsFromItems(py: Numbers, node: Node, pairs: seq<Cbor.Pair>): Option<seq<Entry>>
    requires node.Mapping?
    decreases node, 0, |pairs|
  {
    if |pairs| == 0 then Some([])
    else
      var last := pairs[|pairs| - 1];
      var entries := PairsFromItems(py, node, pairs[..|pairs| - 1]);
      if entries.None? then None
      else
        var key := FromItems(py, node.key, last.key);
        var element := FromItems(py, node.element, last.value);
        if key.None? || element.None? then None else Some(Put(entries.value, key.value, element.value))
  }

  function FirstFromItems(py: Numbers, node: Node, i: nat, item: Cbor.Item): Option<Value>
    requires node.Choice? && i <= |node.alternatives|
    decreases node, 0, |node.alternatives| - i
  {
    if i == |node.alternatives| then None
    else
      var value := FromItems(py, node.alternatives[i], item);
      if value.Some? then value else FirstFromItems(py, node, i + 1, item)
  }

  // What a description comes back as.

  /** In the order of the schema, without the members that are null, with its numbers as the schema has them. */
  function Normal(py: Numbers, node: Node, value: Value): Value
    decreases node, 1, 0
  {
    match node
    case Number(single) => if value.Int? || value.Float? then NormalNumber(py, single, AsFloat(py, value)) else value
    case Record(_) => if value.Dict? then Dict(NormalFields(py, node, 0, value.entries)) else value
    case Repeated(_, _, _) => if value.List? then List(NormalAll(py, node, value.items)) else value
    case Mapping(_, _, _, _) =>
      var pairs := PairsOf(value);
      if pairs.Some? then Dict(NormalPairs(py, node, pairs.value)) else value
    case Choice(_) => NormalFirst(py, node, 0, value)
    case _ => value
  }

  function NormalNumber(py: Numbers, single: bool, f: Float): Value {
    if !single then Float(f)
    else
      var bits := py.narrow(f);
      if bits.None? then Float(f) else Float(py.shortest(py.widen(bits.value)))
  }

  function NormalFields(py: Numbers, node: Node, i: nat, entries: seq<Entry>): seq<Entry>
    requires node.Record? && i <= |node.fields|
    decreases node, 0, |node.fields| - i
  {
    if i == |node.fields| then []
    else
      var field := node.fields[i];
      var value := Get(entries, Text(field.name));
      (if value == Null then [] else [Entry(Text(field.name), NormalField(py, field, value))])
      + NormalFields(py, node, i + 1, entries)
  }

  function NormalField(py: Numbers, field: Field, value: Value): Value
    decreases field
  {
    Normal(py, field.node, value)
  }

  function NormalAll(py: Numbers, node: Node, values: seq<Value>): seq<Value>
    requires node.Repeated?
    decreases node, 0, |values|
  {
    if |values| == 0 then [] else [Normal(py, node.element, values[0])] + NormalAll(py, node, values[1..])
  }

  function NormalPairs(py: Numbers, node: Node, pairs: seq<Entry>): (normal: seq<Entry>)
    requires node.Mapping?
    ensures |normal| == |pairs|
    decreases node, 0, |pairs|
  {
    if |pairs| == 0 then []
    else
      var last := pairs[|pairs| - 1];
      NormalPairs(py, node, pairs[..|pairs| - 1]) +
      [Entry(Normal(py, node.key, ParsedKey(py, node.key, last.key)), Normal(py, node.element, last.value))]
  }

  function NormalFirst(py: Numbers, node: Node, i: nat, value: Value): Value
    requires node.Choice? && i <= |node.alternatives|
    decreases node, 0, |node.alternatives| - i
  {
    if i == |node.alternatives| then value
    else if ToItems(py, node.alternatives[i], value).Some? then Normal(py, node.alternatives[i], value)
    else NormalFirst(py, node, i + 1, value)
  }

  // When the way back is the right one.

  /** No value that `a` itself refuses becomes, by way of `b`, an item that `a` accepts. */
  ghost predicate Yields(py: Numbers, a: Node, b: Node) {
    forall v :: ToItems(py, a, v).None? ==> IsRefused(py, a, b, v)
  }

  ghost predicate IsRefused(py: Numbers, a: Node, b: Node, v: Value) {
    var x := ToItems(py, b, v);
    x.Some? && Cbor.Fits(x.value) ==> FromItems(py, a, x.value).None?
  }

  /** Nothing that member `j` writes is an item that member `i` accepts. */
  ghost predicate ItemsAreRefused(py: Numbers, fields: seq<Field>, i: nat, j: nat)
    requires i < j < |fields|
  {
    forall v :: v != Null ==> IsRefused(py, fields[i].node, fields[j].node, v)
  }

  /** Between `i` and `j` no member is required. */
  predicate CanSkip(fields: seq<Field>, i: nat, j: nat) {
    i < j < |fields| && forall k :: i <= k < j ==> fields[k].min == 0
  }

  predicate HasDistinctNames(fields: seq<Field>) {
    forall i, j :: 0 <= i < j < |fields| ==> fields[i].name != fields[j].name
  }

  /** Integers, texts, bools and choices between them. */
  predicate IsKeyNode(node: Node) {
    match node
    case Uint => true
    case Integer => true
    case Boolean => true
    case Tstr => true
    case Choice(alternatives) => forall i :: 0 <= i < |alternatives| ==> IsKeyNode(alternatives[i])
    case _ => false
  }

  /**
   * No optional member accepts an item of a later one that may follow where it is left out, and no alternative
   * accepts an item of a later one for a value that it refused.
   */
  ghost predicate IsUnambiguous(py: Numbers, node: Node) {
    match node
    case Record(fields) =>
      && HasDistinctNames(fields)
      && (forall i :: 0 <= i < |fields| ==> IsUnambiguousField(py, fields[i]))
      && (forall i, j :: 0 <= i < j && CanSkip(fields, i, j) ==> ItemsAreRefused(py, fields, i, j))
    case Repeated(element, _, _) => IsUnambiguous(py, element)
    case Mapping(key, element, _, _) => IsKeyNode(key) && IsUnambiguous(py, key) && IsUnambiguous(py, element)
    case Choice(alternatives) =>
      && (forall i :: 0 <= i < |alternatives| ==> IsUnambiguous(py, alternatives[i]))
      && (forall i, j :: 0 <= i < j < |alternatives| ==> Yields(py, alternatives[i], alternatives[j]))
    case _ => true
  }

  ghost predicate IsUnambiguousField(py: Numbers, field: Field) { IsUnambiguous(py, field.node) }

  // The round trip.

  lemma {:induction false} RoundTrip(py: Numbers, node: Node, value: Value)
    requires IsUnambiguous(py, node)
    requires ToItems(py, node, value).Some? && Cbor.Fits(ToItems(py, node, value).value)
    ensures FromItems(py, node, ToItems(py, node, value).value) == Some(Normal(py, node, value))
    decreases node, 1, 0
  {
    hide IsUnambiguous, Cbor.Limit, FieldsToItems, FieldsFromItems, NormalFields, AllToItems, AllFromItems, NormalAll,
      PairsToItems, PairsFromItems, NormalPairs, FirstToItems, FirstFromItems, NormalFirst;
    var x := ToItems(py, node, value).value;
    match node
    case Record(_) =>
      assert x.items[0..] == x.items;
      RecordRoundTrip(py, node, value.entries, 0, x.items, 0, []);
      assert [] + NormalFields(py, node, 0, value.entries) == NormalFields(py, node, 0, value.entries);
    case Repeated(_, _, _) => AllRoundTrip(py, node, value.items);
    case Mapping(_, _, _, _) =>
      PairsRoundTrip(py, node, PairsOf(value).value);
    case Choice(_) => FirstRoundTrip(py, node, 0, value);
    case _ =>
  }

  lemma PutAppends(entries: seq<Entry>, key: Value, value: Value)
    requires forall i :: 0 <= i < |entries| ==> !IsSameKey(entries[i].key, key)
    ensures Put(entries, key, value) == entries + [Entry(key, value)]
  {
    if |entries| > 0 {
      PutAppends(entries[1..], key, value);
    }
  }

  /** The item at the head of what the members from `i` on wrote is refused by member `i` if it wrote nothing. */
  lemma {:induction false} HeadComesFromLater(py: Numbers, node: Node, i: nat, entries: seq<Entry>)
    returns (j: nat)
    requires node.Record? && i <= |node.fields|
    requires var xs := FieldsToItems(py, node, i, entries); xs.Some? && |xs.value| > 0
    ensures i <= j < |node.fields| && forall k :: i <= k < j ==> node.fields[k].min == 0
    ensures forall k :: i <= k < j ==> Get(entries, Text(node.fields[k].name)) == Null
    ensures var v := Get(entries, Text(node.fields[j].name));
            v != Null && ToItems(py, node.fields[j].node, v) == Some(FieldsToItems(py, node, i, entries).value[0])
    decreases |node.fields| - i
  {
    var field := node.fields[i];
    if Get(entries, Text(field.name)) != Null {
      j := i;
    } else {
      j := HeadComesFromLater(py, node, i + 1, entries);
    }
  }

  lemma {:induction false} RecordRoundTrip(py: Numbers, node: Node, entries: seq<Entry>,
                                           i: nat, items: seq<Cbor.Item>, position: nat, done: seq<Entry>)
    requires node.Record? && IsUnambiguous(py, node) && i <= |node.fields| && position <= |items|
    requires FieldsToItems(py, node, i, entries) == Some(items[position..])
    requires forall k :: 0 <= k < |items| ==> Cbor.Fits(items[k])
    requires forall k, j :: 0 <= k < |done| && i <= j < |node.fields| ==> done[k].key != Text(node.fields[j].name)
    requires forall k :: 0 <= k < |done| ==> done[k].key.Text?
    ensures FieldsFromItems(py, node, i, items, position, done) == Some(done + NormalFields(py, node, i, entries))
    decreases node, 0, |node.fields| - i
  {
    hide Cbor.Fits, ToItems, FromItems, Normal;
    if i == |node.fields| {
      assert done + [] == done;
    } else {
      var field := node.fields[i];
      var value := Get(entries, Text(field.name));
      if value != Null {
        var x := ToItems(py, field.node, value).value;
        assert items[position..][0] == items[position] == x;
        assert items[position..][1..] == items[position + 1..];
        FieldRoundTrip(py, field, value);
        var normal := Normal(py, field.node, value);
        PutAppends(done, Text(field.name), normal);
        var more := done + [Entry(Text(field.name), normal)];
        RecordRoundTrip(py, node, entries, i + 1, items, position + 1, more);
        assert more + NormalFields(py, node, i + 1, entries) == done + NormalFields(py, node, i, entries);
      } else {
        if position < |items| {
          var j := HeadComesFromLater(py, node, i, entries);
          assert CanSkip(node.fields, i, j);
          assert IsRefused(py, field.node, node.fields[j].node, Get(entries, Text(node.fields[j].name)));
          assert items[position..][0] == items[position];
          assert FieldFromItem(py, field, items[position]).None?;
        }
        assert field.max == 1 && field.min == 0;
        RecordRoundTrip(py, node, entries, i + 1, items, position, done);
        var rest := NormalFields(py, node, i + 1, entries);
        assert NormalFields(py, node, i, entries) == [] + rest == rest;
      }
    }
  }

  lemma {:induction false} FieldRoundTrip(py: Numbers, field: Field, value: Value)
    requires IsUnambiguousField(py, field)
    requires FieldToItem(py, field, value).Some? && Cbor.Fits(FieldToItem(py, field, value).value)
    ensures FieldFromItem(py, field, FieldToItem(py, field, value).value) == Some(NormalField(py, field, value))
    decreases field
  {
    RoundTrip(py, field.node, value);
  }

  lemma {:induction false} AllRoundTrip(py: Numbers, node: Node, values: seq<Value>)
    requires node.Repeated? && IsUnambiguous(py, node)
    requires var xs := AllToItems(py, node, values);
             xs.Some? && forall i :: 0 <= i < |xs.value| ==> Cbor.Fits(xs.value[i])
    ensures var xs := AllToItems(py, node, values).value;
            |xs| == |values| && AllFromItems(py, node, xs) == Some(NormalAll(py, node, values))
    decreases node, 0, |values|
  {
    hide Cbor.Fits, ToItems, FromItems, Normal;
    if |values| == 0 {
    } else {
      var xs := AllToItems(py, node, values).value;
      assert xs[0] == ToItems(py, node.element, values[0]).value;
      var rest := AllToItems(py, node, values[1..]).value;
      assert xs[1..] == rest;
      assert forall i :: 0 <= i < |rest| ==> rest[i] == xs[i + 1];
      RoundTrip(py, node.element, values[0]);
      AllRoundTrip(py, node, values[1..]);
    }
  }

  lemma {:induction false} FirstRoundTrip(py: Numbers, node: Node, i: nat, value: Value)
    requires node.Choice? && IsUnambiguous(py, node) && i <= |node.alternatives|
    requires FirstToItems(py, node, i, value).Some? && Cbor.Fits(FirstToItems(py, node, i, value).value)
    ensures FirstFromItems(py, node, i, FirstToItems(py, node, i, value).value) == Some(NormalFirst(py, node, i, value))
    decreases node, 0, |node.alternatives| - i
  {
    var a := node.alternatives[i];
    if ToItems(py, a, value).Some? {
      RoundTrip(py, a, value);
    } else {
      var j := FirstThatFits(py, node, i + 1, value);
      assert Yields(py, a, node.alternatives[j]);
      assert IsRefused(py, a, node.alternatives[j], value);
      FirstRoundTrip(py, node, i + 1, value);
    }
  }

  lemma {:induction false} FirstThatFits(py: Numbers, node: Node, i: nat, value: Value) returns (j: nat)
    requires node.Choice? && i <= |node.alternatives| && FirstToItems(py, node, i, value).Some?
    ensures i <= j < |node.alternatives|
    ensures ToItems(py, node.alternatives[j], value) == FirstToItems(py, node, i, value)
    decreases |node.alternatives| - i
  {
    if ToItems(py, node.alternatives[i], value).Some? {
      j := i;
    } else {
      j := FirstThatFits(py, node, i + 1, value);
    }
  }

  /** An item of a key node, as a description. */
  function KeyValue(key: Cbor.Item): Value
    requires key.Int? || key.Bool? || key.Text?
  {
    match key
    case Int(n) => Int(n)
    case Bool(flag) => Bool(flag)
    case Text(utf8) => Text(utf8)
  }

  lemma {:induction false} KeysStay(py: Numbers, node: Node, item: Cbor.Item)
    requires IsKeyNode(node) && FromItems(py, node, item).Some?
    ensures item.Int? || item.Bool? || item.Text?
    ensures FromItems(py, node, item).value == KeyValue(item)
    decreases node, 1, 0
  {
    if !node.Choice? {
    } else {
      FirstKeysStay(py, node, 0, item);
    }
  }

  lemma {:induction false} FirstKeysStay(py: Numbers, node: Node, i: nat, item: Cbor.Item)
    requires IsKeyNode(node) && node.Choice? && i <= |node.alternatives| && FirstFromItems(py, node, i, item).Some?
    ensures item.Int? || item.Bool? || item.Text?
    ensures FirstFromItems(py, node, i, item).value == KeyValue(item)
    decreases node, 0, |node.alternatives| - i
  {
    if FromItems(py, node.alternatives[i], item).Some? {
      KeysStay(py, node.alternatives[i], item);
    } else {
      FirstKeysStay(py, node, i + 1, item);
    }
  }

  /** The description's keys are the items' keys. */
  ghost predicate SameKeys(entries: seq<Entry>, pairs: seq<Cbor.Pair>) {
    && |entries| == |pairs|
    && forall i :: 0 <= i < |pairs| ==>
        && (pairs[i].key.Int? || pairs[i].key.Bool? || pairs[i].key.Text?)
        && entries[i].key == KeyValue(pairs[i].key)
  }

  lemma {:induction false} PairsRoundTrip(py: Numbers, node: Node, pairs: seq<Entry>)
    requires node.Mapping? && IsUnambiguous(py, node)
    requires var xs := PairsToItems(py, node, pairs); xs.Some? && AllFit(xs.value)
    ensures var xs := PairsToItems(py, node, pairs).value;
            && SameKeys(NormalPairs(py, node, pairs), xs)
            && PairsFromItems(py, node, xs) == Some(NormalPairs(py, node, pairs))
    decreases node, 0, |pairs|
  {
    hide Cbor.Fits, ToItems, FromItems, Normal, ParsedKey, KeyValue, Put, HasKey, IsKeyNode, IsUnambiguous, SameKeys,
      AllFit;
    if |pairs| == 0 {
      assert SameKeys([], []) by {
        NoKeys();
      }
    } else {
      var last := pairs[|pairs| - 1];
      var before := pairs[..|pairs| - 1];
      var xs := PairsToItems(py, node, pairs).value;
      var ys := PairsToItems(py, node, before).value;
      var x := xs[|ys|];
      assert xs == ys + [x];
      AllButLastFit(ys, x);
      PairsRoundTrip(py, node, before);
      PairRoundTrip(py, node, last, x);
      var normal := NormalPairs(py, node, before);
      NewKeyStaysNew(normal, ys, x.key, Normal(py, node.element, last.value), x.value);
    }
  }

  lemma NoKeys()
    ensures SameKeys([], [])
  {
  }

  ghost predicate AllFit(pairs: seq<Cbor.Pair>) {
    forall i :: 0 <= i < |pairs| ==> Cbor.Fits(pairs[i].key) && Cbor.Fits(pairs[i].value)
  }

  lemma AllButLastFit(ys: seq<Cbor.Pair>, x: Cbor.Pair)
    requires AllFit(ys + [x])
    ensures AllFit(ys) && Cbor.Fits(x.key) && Cbor.Fits(x.value)
  {
    hide Cbor.Fits;
    assert (ys + [x])[|ys|] == x;
    assert forall i :: 0 <= i < |ys| ==> ys[i] == (ys + [x])[i];
  }

  /** The last key is none of the items' keys before it, so its description is none of the description's. */
  lemma NewKeyStaysNew(normal: seq<Entry>, ys: seq<Cbor.Pair>, key: Cbor.Item, value: Value, element: Cbor.Item)
    requires SameKeys(normal, ys) && !HasKey(ys, key) && (key.Int? || key.Bool? || key.Text?)
    ensures Put(normal, KeyValue(key), value) == normal + [Entry(KeyValue(key), value)]
    ensures SameKeys(normal + [Entry(KeyValue(key), value)], ys + [Cbor.Pair(key, element)])
  {
    hide Put;
    forall i | 0 <= i < |normal| ensures !IsSameKey(normal[i].key, KeyValue(key)) {
      assert KeyId(ys[i].key) != KeyId(key);
    }
    PutAppends(normal, KeyValue(key), value);
  }

  lemma {:induction false} PairRoundTrip(py: Numbers, node: Node, e: Entry, x: Cbor.Pair)
    requires node.Mapping? && IsUnambiguous(py, node)
    requires ToItems(py, node.key, ParsedKey(py, node.key, e.key)) == Some(x.key)
    requires ToItems(py, node.element, e.value) == Some(x.value)
    requires Cbor.Fits(x.key) && Cbor.Fits(x.value)
    ensures x.key.Int? || x.key.Bool? || x.key.Text?
    ensures Normal(py, node.key, ParsedKey(py, node.key, e.key)) == KeyValue(x.key)
    ensures FromItems(py, node.key, x.key) == Some(KeyValue(x.key))
    ensures FromItems(py, node.element, x.value) == Some(Normal(py, node.element, e.value))
    decreases node, 0, 0
  {
    hide Cbor.Fits, ToItems, FromItems, Normal, ParsedKey, IsKeyNode;
    RoundTrip(py, node.key, ParsedKey(py, node.key, e.key));
    RoundTrip(py, node.element, e.value);
    KeysStay(py, node.key, x.key);
  }

  // From a description to bytes and back.

  function EncodeDescription(py: Numbers, node: Node, value: Value): Option<Bytes> {
    var item := ToItems(py, node, value);
    if item.None? then None
    else
      var bytes := Cbor.Encode(item.value);
      if bytes.Err? then None else Some(bytes.value)
  }

  function DecodeDescription(py: Numbers, node: Node, bytes: Bytes): Option<Value> {
    var item := Cbor.Decode(bytes);
    if item.None? || item.value.rest != [] then None else FromItems(py, node, item.value.item)
  }

  /** What was encoded decodes to the description in its normal form. */
  lemma DescriptionRoundTrip(py: Numbers, node: Node, value: Value)
    requires IsUnambiguous(py, node) && EncodeDescription(py, node, value).Some?
    ensures DecodeDescription(py, node, EncodeDescription(py, node, value).value) == Some(Normal(py, node, value))
  {
    hide ToItems, FromItems, Normal, Cbor.Encode, Cbor.Decode, Cbor.Fits;
    var x := ToItems(py, node, value).value;
    var bytes := Cbor.Encode(x).value;
    Cbor.EncodeFits(x);
    Cbor.DecodeEncode(x, []);
    assert bytes + [] == bytes;
    RoundTrip(py, node, value);
  }

  // What an optional member that accepts too much spoils.

  /** Some key of the description is the name of a member that the other description leaves out. */
  ghost predicate NamesAbsent(node: Node, given: seq<Entry>, entries: seq<Entry>)
    requires node.Record?
  {
    exists m :: 0 <= m < |node.fields| && Get(entries, Text(node.fields[m].name)) == Null
                && HasName(given, node.fields[m].name)
  }

  predicate HasName(entries: seq<Entry>, name: Bytes) {
    exists k :: 0 <= k < |entries| && entries[k].key == Text(name)
  }

  lemma {:induction false} PutKeepsNames(entries: seq<Entry>, key: Value, value: Value, name: Bytes)
    requires HasName(entries, name) || key == Text(name)
    ensures HasName(Put(entries, key, value), name)
  {
    var put := Put(entries, key, value);
    if |entries| == 0 || IsSameKey(entries[0].key, key) {
      if HasName(entries, name) {
        var k :| 0 <= k < |entries| && entries[k].key == Text(name);
        assert put[k].key == Text(name);
      } else {
        assert put[0].key == Text(name);
      }
    } else if entries[0].key == Text(name) {
      assert put[0].key == Text(name);
    } else {
      if HasName(entries, name) {
        var k :| 0 <= k < |entries| && entries[k].key == Text(name);
        assert entries[1..][k - 1].key == Text(name);
      }
      PutKeepsNames(entries[1..], key, value, name);
      var k :| 0 <= k < |put[1..]| && put[1..][k].key == Text(name);
      assert put[k + 1].key == Text(name);
    }
  }

  lemma {:induction false} FieldsKeepNames(py: Numbers, node: Node, i: nat, items: seq<Cbor.Item>, position: nat,
                                           done: seq<Entry>, name: Bytes)
    requires node.Record? && i <= |node.fields| && position <= |items| && HasName(done, name)
    ensures var r := FieldsFromItems(py, node, i, items, position, done); r.Some? ==> HasName(r.value, name)
    decreases |node.fields| - i
  {
    hide FromItems, Put, HasName;
    if i >= |node.fields| {
    } else {
      var field := node.fields[i];
      var taken := if position < |items| then FieldFromItem(py, field, items[position]) else None;
      if taken.Some? {
        PutKeepsNames(done, Text(field.name), taken.value, name);
        FieldsKeepNames(py, node, i + 1, items, position + 1, Put(done, Text(field.name), taken.value), name);
      } else {
        FieldsKeepNames(py, node, i + 1, items, position, done, name);
      }
    }
  }

  lemma {:induction false} NormalNamesArePresent(py: Numbers, node: Node, i: nat, entries: seq<Entry>, name: Bytes)
    requires node.Record? && i <= |node.fields| && HasName(NormalFields(py, node, i, entries), name)
    ensures Get(entries, Text(name)) != Null
    decreases |node.fields| - i
  {
    var normal := NormalFields(py, node, i, entries);
    var k :| 0 <= k < |normal| && normal[k].key == Text(name);
    var rest := NormalFields(py, node, i + 1, entries);
    var n := |normal| - |rest|;
    if k < n {
    } else {
      assert rest[k - n].key == Text(name);
      NormalNamesArePresent(py, node, i + 1, entries, name);
    }
  }

  /** A member reads its own item. */
  predicate IsTaken(py: Numbers, field: Field, entries: seq<Entry>) {
    var x := ToItems(py, field.node, Get(entries, Text(field.name)));
    x.Some? && FromItems(py, field.node, x.value).Some?
  }

  /** The description leaves out `i` and what follows up to `j`, whose item member `i` accepts. */
  ghost predicate IsMistaken(py: Numbers, node: Node, entries: seq<Entry>, i: nat, j: nat)
    requires node.Record?
  {
    && CanSkip(node.fields, i, j)
    && (forall k :: i <= k < j ==> Get(entries, Text(node.fields[k].name)) == Null)
    && (forall k :: 0 <= k < i && Get(entries, Text(node.fields[k].name)) != Null ==>
                      node.fields[k].min != 0 || IsTaken(py, node.fields[k], entries))
    && var v := Get(entries, Text(node.fields[j].name));
    && v != Null
    && var x := ToItems(py, node.fields[j].node, v);
    && x.Some? && FromItems(py, node.fields[i].node, x.value).Some?
  }

  /** Where nothing is given for `i` up to `j`, the next item is that of `j`. */
  lemma {:induction false} NextItem(py: Numbers, node: Node, i: nat, j: nat, entries: seq<Entry>)
    requires node.Record? && i <= j < |node.fields| && FieldsToItems(py, node, i, entries).Some?
    requires forall k :: i <= k < j ==> Get(entries, Text(node.fields[k].name)) == Null
    requires Get(entries, Text(node.fields[j].name)) != Null
    ensures var xs := FieldsToItems(py, node, i, entries).value;
            |xs| > 0 && Some(xs[0]) == ToItems(py, node.fields[j].node, Get(entries, Text(node.fields[j].name)))
    decreases j - i
  {
    if i >= j {
    } else {
      NextItem(py, node, i + 1, j, entries);
    }
  }

  lemma {:induction false} MistakenFields(py: Numbers, node: Node, entries: seq<Entry>, i: nat, j: nat,
                                          k: nat, items: seq<Cbor.Item>, position: nat, done: seq<Entry>)
    requires node.Record? && IsMistaken(py, node, entries, i, j) && k <= i && position <= |items|
    requires FieldsToItems(py, node, k, entries) == Some(items[position..])
    ensures var r := FieldsFromItems(py, node, k, items, position, done);
            r.Some? ==> NamesAbsent(node, r.value, entries)
    decreases i - k
  {
    hide FromItems, ToItems, Put;
    var field := node.fields[k];
    if position < |items| {
      assert items[position..][0] == items[position] && items[position..][1..] == items[position + 1..];
    }
    if k == i {
      NextItem(py, node, i, j, entries);
    }
    var taken := if position < |items| then FieldFromItem(py, field, items[position]) else None;
    if taken.Some? {
      var more := Put(done, Text(field.name), taken.value);
      if Get(entries, Text(field.name)) == Null {
        PutKeepsNames(done, Text(field.name), taken.value, field.name);
        FieldsKeepNames(py, node, k + 1, items, position + 1, more, field.name);
      } else {
        MistakenFields(py, node, entries, i, j, k + 1, items, position + 1, more);
      }
    } else if Get(entries, Text(field.name)) == Null {
      MistakenFields(py, node, entries, i, j, k + 1, items, position, done);
    }
  }

  /** Such a description does not come back. */
  lemma GreedyMemberSpoils(py: Numbers, node: Node, entries: seq<Entry>, i: nat, j: nat)
    requires node.Record? && IsMistaken(py, node, entries, i, j)
    requires ToItems(py, node, Dict(entries)).Some?
    ensures FromItems(py, node, ToItems(py, node, Dict(entries)).value) != Some(Normal(py, node, Dict(entries)))
  {
    var items := FieldsToItems(py, node, 0, entries).value;
    assert items[0..] == items;
    MistakenFields(py, node, entries, i, j, 0, items, 0, []);
    var r := FieldsFromItems(py, node, 0, items, 0, []);
    if r.Some? {
      var m :| 0 <= m < |node.fields| && Get(entries, Text(node.fields[m].name)) == Null
               && HasName(r.value, node.fields[m].name);
      if r.value == NormalFields(py, node, 0, entries) {
        NormalNamesArePresent(py, node, 0, entries, node.fields[m].name);
      }
    }
  }

  /** What is given for the members comes back, each by itself. */
  ghost predicate MembersAreReadBack(py: Numbers, node: Node, entries: seq<Entry>)
    requires node.Record?
  {
    forall k :: 0 <= k < |node.fields| && Get(entries, Text(node.fields[k].name)) != Null ==>
      IsMemberReadBack(py, node.fields[k], Get(entries, Text(node.fields[k].name)))
  }

  ghost predicate IsMemberReadBack(py: Numbers, field: Field, v: Value) {
    var x := ToItems(py, field.node, v);
    x.Some? ==> FromItems(py, field.node, x.value) == Some(Normal(py, field.node, v))
  }

  /** Where no member mistakes the item of a later one for its own, the members read what they wrote. */
  lemma {:induction false} UnmistakenFields(py: Numbers, node: Node, entries: seq<Entry>, k: nat,
                                            items: seq<Cbor.Item>, position: nat, done: seq<Entry>)
    requires node.Record? && k <= |node.fields| && position <= |items|
    requires HasDistinctNames(node.fields) && MembersAreReadBack(py, node, entries)
    requires forall i, j :: 0 <= i < j < |node.fields| ==> !IsMistaken(py, node, entries, i, j)
    requires FieldsToItems(py, node, k, entries) == Some(items[position..])
    requires forall i, j :: 0 <= i < |done| && k <= j < |node.fields| ==> done[i].key != Text(node.fields[j].name)
    requires forall i :: 0 <= i < |done| ==> done[i].key.Text?
    requires forall i :: 0 <= i < k && Get(entries, Text(node.fields[i].name)) != Null ==>
               IsTaken(py, node.fields[i], entries)
    ensures FieldsFromItems(py, node, k, items, position, done) == Some(done + NormalFields(py, node, k, entries))
    decreases |node.fields| - k
  {
    hide Cbor.Fits, ToItems, FromItems, Normal;
    if k == |node.fields| {
      assert done + [] == done;
    } else {
      var field := node.fields[k];
      var value := Get(entries, Text(field.name));
      if value != Null {
        assert items[position..][0] == items[position] && items[position..][1..] == items[position + 1..];
        assert IsMemberReadBack(py, field, value);
        var normal := Normal(py, field.node, value);
        PutAppends(done, Text(field.name), normal);
        var more := done + [Entry(Text(field.name), normal)];
        UnmistakenFields(py, node, entries, k + 1, items, position + 1, more);
        assert more + NormalFields(py, node, k + 1, entries) == done + NormalFields(py, node, k, entries);
      } else {
        if position < |items| {
          var j := HeadComesFromLater(py, node, k, entries);
          assert items[position..][0] == items[position];
          assert !IsMistaken(py, node, entries, k, j);
          assert FieldFromItem(py, field, items[position]).None?;
        }
        UnmistakenFields(py, node, entries, k + 1, items, position, done);
        var rest := NormalFields(py, node, k + 1, entries);
        assert NormalFields(py, node, k, entries) == [] + rest == rest;
      }
    }
  }

  /**
   * Exactly when a description of a record comes back, given that what it says of each member does: no member that it
   * leaves out accepts the item of the next one that it gives.
   */
  lemma DescriptionIsReadBack(py: Numbers, node: Node, entries: seq<Entry>)
    requires node.Record? && HasDistinctNames(node.fields) && MembersAreReadBack(py, node, entries)
    requires ToItems(py, node, Dict(entries)).Some?
    ensures FromItems(py, node, ToItems(py, node, Dict(entries)).value) == Some(Normal(py, node, Dict(entries))) <==>
            forall i, j :: 0 <= i < j < |node.fields| ==> !IsMistaken(py, node, entries, i, j)
  {
    hide Cbor.Fits, Normal, ToItems, FromItems;
    RecordOf(py, node, entries);
    if forall i, j :: 0 <= i < j < |node.fields| ==> !IsMistaken(py, node, entries, i, j) {
      var items := FieldsToItems(py, node, 0, entries).value;
      assert items[0..] == items;
      UnmistakenFields(py, node, entries, 0, items, 0, []);
      assert [] + NormalFields(py, node, 0, entries) == NormalFields(py, node, 0, entries);
    } else {
      var i, j :| 0 <= i < j < |node.fields| && IsMistaken(py, node, entries, i, j);
      GreedyMemberSpoils(py, node, entries, i, j);
    }
  }

  lemma RecordOf(py: Numbers, node: Node, entries: seq<Entry>)
    requires node.Record? && ToItems(py, node, Dict(entries)).Some?
    ensures var items := FieldsToItems(py, node, 0, entries);
            && items.Some? && ToItems(py, node, Dict(entries)) == Some(Cbor.Array(items.value))
            && var r := FieldsFromItems(py, node, 0, items.value, 0, []);
            && FromItems(py, node, Cbor.Array(items.value)) == if r.None? then None else Some(Dict(r.value))
    ensures Normal(py, node, Dict(entries)) == Dict(NormalFields(py, node, 0, entries))
  {
  }

  /** A value comes back through a choice if the first alternative that accepts its item reads what its own would. */
  lemma ChosenIsReadBack(py: Numbers, node: Node, value: Value, j: nat)
    requires node.Choice? && j < |node.alternatives|
    requires ToItems(py, node.alternatives[j], value).Some?
    requires forall k :: 0 <= k < j ==> ToItems(py, node.alternatives[k], value).None?
    ensures var x := ToItems(py, node, value);
            && x.Some?
            && (FromItems(py, node, x.value) == Some(Normal(py, node, value)) <==>
                exists i :: && 0 <= i < |node.alternatives|
                            && (forall k :: 0 <= k < i ==> FromItems(py, node.alternatives[k], x.value).None?)
                            && FromItems(py, node.alternatives[i], x.value)
                               == Some(Normal(py, node.alternatives[j], value)))
  {
    hide ToItems, FromItems, Normal;
    ChoiceOf(py, node, value);
    ChosenFirst(py, node, 0, value, j);
    var x := ToItems(py, node, value).value;
    ReadByChoice(py, node, x);
    var i := AcceptedFirst(py, node, 0, x);
  }

  lemma ChoiceOf(py: Numbers, node: Node, value: Value)
    requires node.Choice?
    ensures ToItems(py, node, value) == FirstToItems(py, node, 0, value)
    ensures Normal(py, node, value) == NormalFirst(py, node, 0, value)
  {
  }

  lemma ReadByChoice(py: Numbers, node: Node, item: Cbor.Item)
    requires node.Choice?
    ensures FromItems(py, node, item) == FirstFromItems(py, node, 0, item)
  {
  }

  /** The first alternative that writes the value is the choice. */
  lemma {:induction false} ChosenFirst(py: Numbers, node: Node, k: nat, value: Value, j: nat)
    requires node.Choice? && k <= j < |node.alternatives| && ToItems(py, node.alternatives[j], value).Some?
    requires forall i :: k <= i < j ==> ToItems(py, node.alternatives[i], value).None?
    ensures FirstToItems(py, node, k, value) == ToItems(py, node.alternatives[j], value)
    ensures NormalFirst(py, node, k, value) == Normal(py, node.alternatives[j], value)
    decreases j - k
  {
    hide ToItems, Normal;
    if k >= j {
    } else {
      ChosenFirst(py, node, k + 1, value, j);
    }
  }

  /** The first alternative that accepts the item reads it. */
  lemma {:induction false} AcceptedFirst(py: Numbers, node: Node, k: nat, item: Cbor.Item) returns (i: nat)
    requires node.Choice? && k <= |node.alternatives|
    ensures k <= i <= |node.alternatives| && forall m :: k <= m < i ==> FromItems(py, node.alternatives[m], item).None?
    ensures i < |node.alternatives| ==> FromItems(py, node.alternatives[i], item).Some?
    ensures FirstFromItems(py, node, k, item) ==
            if i < |node.alternatives| then FromItems(py, node.alternatives[i], item) else None
    decreases |node.alternatives| - k
  {
    hide FromItems;
    i := k;
    if k >= |node.alternatives| || FromItems(py, node.alternatives[k], item).Some? {
    } else {
      i := AcceptedFirst(py, node, k + 1, item);
    }
  }

  /** Every description that has an encoding comes back. */
  ghost predicate IsReadBack(py: Numbers, node: Node) {
    forall v :: IsReadBackFrom(py, node, v)
  }

  ghost predicate IsReadBackFrom(py: Numbers, node: Node, v: Value) {
    var x := ToItems(py, node, v);
    x.Some? && Cbor.Fits(x.value) ==> FromItems(py, node, x.value) == Some(Normal(py, node, v))
  }

  /** The choice writes `v` by the alternative `j`, and of those that accept its item `i` is the first. */
  ghost predicate IsTakenBy(py: Numbers, node: Node, v: Value, i: nat, j: nat)
    requires node.Choice? && i < |node.alternatives| && j < |node.alternatives|
  {
    var x := ToItems(py, node.alternatives[j], v);
    && x.Some? && Cbor.Fits(x.value) && FromItems(py, node.alternatives[i], x.value).Some?
    && (forall k :: 0 <= k < j ==> ToItems(py, node.alternatives[k], v).None?)
    && (forall k :: 0 <= k < i ==> FromItems(py, node.alternatives[k], x.value).None?)
  }

  /** Then `i` reads what `j` would. */
  ghost predicate ReadsAlike(py: Numbers, node: Node, v: Value, i: nat, j: nat)
    requires node.Choice? && i < |node.alternatives| && j < |node.alternatives|
  {
    IsTakenBy(py, node, v, i, j) ==>
      FromItems(py, node.alternatives[i], ToItems(py, node.alternatives[j], v).value)
      == Some(Normal(py, node.alternatives[j], v))
  }

  /**
   * Exactly when a choice comes back, given that its alternatives do: no earlier alternative reads an item of a later
   * one as something else.
   */
  lemma ChoiceIsReadBack(py: Numbers, node: Node)
    requires node.Choice? && forall k :: 0 <= k < |node.alternatives| ==> IsReadBack(py, node.alternatives[k])
    ensures IsReadBack(py, node) <==>
            forall i, j, v :: 0 <= i < j < |node.alternatives| ==> ReadsAlike(py, node, v, i, j)
  {
    hide ToItems, FromItems, Normal, Cbor.Fits;
    if forall i, j, v :: 0 <= i < j < |node.alternatives| ==> ReadsAlike(py, node, v, i, j) {
      forall v ensures IsReadBackFrom(py, node, v) {
        ChoiceOf(py, node, v);
        if FirstToItems(py, node, 0, v).Some? && Cbor.Fits(FirstToItems(py, node, 0, v).value) {
          AlikeIsReadBack(py, node, v);
        }
      }
    } else {
      var i, j, v :| 0 <= i < j < |node.alternatives| && !ReadsAlike(py, node, v, i, j);
      UnlikeIsNotReadBack(py, node, v, i, j);
    }
  }

  /** The item goes to the alternative that takes it. */
  lemma TakenIsRead(py: Numbers, node: Node, v: Value, i: nat, j: nat)
    requires node.Choice? && i < |node.alternatives| && j < |node.alternatives| && IsTakenBy(py, node, v, i, j)
    ensures ToItems(py, node, v) == ToItems(py, node.alternatives[j], v)
    ensures Normal(py, node, v) == Normal(py, node.alternatives[j], v)
    ensures var x := ToItems(py, node.alternatives[j], v).value;
            FromItems(py, node, x) == FromItems(py, node.alternatives[i], x)
  {
    hide ToItems, FromItems, Normal, Cbor.Fits;
    ChoiceOf(py, node, v);
    ChosenFirst(py, node, 0, v, j);
    var x := ToItems(py, node.alternatives[j], v).value;
    ReadByChoice(py, node, x);
    var first := AcceptedFirst(py, node, 0, x);
    assert first == i;
  }

  lemma UnlikeIsNotReadBack(py: Numbers, node: Node, v: Value, i: nat, j: nat)
    requires node.Choice? && i < |node.alternatives| && j < |node.alternatives| && !ReadsAlike(py, node, v, i, j)
    ensures !IsReadBackFrom(py, node, v)
  {
    hide ToItems, FromItems, Normal, Cbor.Fits;
    TakenIsRead(py, node, v, i, j);
  }

  lemma AlikeIsReadBack(py: Numbers, node: Node, v: Value)
    requires node.Choice? && forall k :: 0 <= k < |node.alternatives| ==> IsReadBack(py, node.alternatives[k])
    requires forall i, j :: 0 <= i < j < |node.alternatives| ==> ReadsAlike(py, node, v, i, j)
    requires ToItems(py, node, v).Some? && Cbor.Fits(ToItems(py, node, v).value)
    ensures IsReadBackFrom(py, node, v)
  {
    hide ToItems, FromItems, Normal, Cbor.Fits;
    ChoiceOf(py, node, v);
    var j := WrittenFirst(py, node, 0, v);
    ChosenFirst(py, node, 0, v, j);
    var x := ToItems(py, node.alternatives[j], v).value;
    var i := AcceptedFirst(py, node, 0, x);
    assert IsReadBackFrom(py, node.alternatives[j], v);
    assert i <= j && IsTakenBy(py, node, v, i, j);
    if i < j {
      assert ReadsAlike(py, node, v, i, j);
    }
    TakenIsRead(py, node, v, i, j);
  }

  lemma {:induction false} WrittenFirst(py: Numbers, node: Node, k: nat, v: Value) returns (j: nat)
    requires node.Choice? && k <= |node.alternatives| && FirstToItems(py, node, k, v).Some?
    ensures k <= j < |node.alternatives| && ToItems(py, node.alternatives[j], v).Some?
    ensures forall i :: k <= i < j ==> ToItems(py, node.alternatives[i], v).None?
    decreases |node.alternatives| - k
  {
    hide ToItems;
    if ToItems(py, node.alternatives[k], v).Some? {
      j := k;
    } else {
      j := WrittenFirst(py, node, k + 1, v);
    }
  }

  /** Values for the members, all of which have an encoding. */
  ghost predicate AreSamples(py: Numbers, fields: seq<Field>, samples: seq<Value>) {
    && |samples| == |fields|
    && forall k :: 0 <= k < |fields| ==> IsSample(py, fields[k], samples[k])
  }

  ghost predicate IsSample(py: Numbers, field: Field, v: Value) {
    field.max == 1 && v != Null && var x := ToItems(py, field.node, v); x.Some? && Cbor.Fits(x.value)
  }

  /** A description with the required members and `j` only. */
  function Required(fields: seq<Field>, samples: seq<Value>, j: nat): seq<Entry>
    requires |samples| == |fields|
  {
    seq(|fields|, k requires 0 <= k < |fields| =>
      Entry(Text(fields[k].name), if k == j || fields[k].min != 0 then samples[k] else Null))
  }

  lemma {:induction false} GetAt(entries: seq<Entry>, k: nat)
    requires k < |entries| && forall i :: 0 <= i < k ==> entries[i].key != entries[k].key
    ensures Get(entries, entries[k].key) == entries[k].value
  {
    if k == 0 {
    } else {
      assert entries[k] == entries[1..][k - 1];
      assert forall i :: 0 <= i < k - 1 ==> entries[1..][i] == entries[i + 1];
      GetAt(entries[1..], k - 1);
    }
  }

  lemma {:induction false} RequiredIsEncoded(py: Numbers, node: Node, samples: seq<Value>, j: nat, i: nat)
    requires node.Record? && HasDistinctNames(node.fields) && AreSamples(py, node.fields, samples)
    requires i <= |node.fields|
    ensures var xs := FieldsToItems(py, node, i, Required(node.fields, samples, j));
            xs.Some? && |xs.value| <= |node.fields| - i && forall k :: 0 <= k < |xs.value| ==> Cbor.Fits(xs.value[k])
    decreases |node.fields| - i
  {
    hide Cbor.Fits, ToItems, Get;
    if i >= |node.fields| {
    } else {
      var entries := Required(node.fields, samples, j);
      GetAt(entries, i);
      RequiredIsEncoded(py, node, samples, j, i + 1);
      assert IsSample(py, node.fields[i], samples[i]);
    }
  }

  /**
   * Exactly when a record comes back, given that its members do: no optional member accepts an item of a later one
   * that may follow where it is left out.
   */
  lemma RecordIsReadBack(py: Numbers, node: Node, samples: seq<Value>)
    requires node.Record? && |node.fields| < Cbor.Limit(8) && HasDistinctNames(node.fields)
    requires forall k :: 0 <= k < |node.fields| ==> IsReadBack(py, node.fields[k].node)
    requires AreSamples(py, node.fields, samples)
    ensures IsReadBack(py, node) <==>
            forall i, j :: 0 <= i < j && CanSkip(node.fields, i, j) ==> ItemsAreRefused(py, node.fields, i, j)
  {
    hide Cbor.Limit, Cbor.Fits, FromItems, ToItems, Normal;
    var fields := node.fields;
    if forall i, j :: 0 <= i < j && CanSkip(fields, i, j) ==> ItemsAreRefused(py, fields, i, j) {
      forall v ensures IsReadBackFrom(py, node, v) {
        var x := ToItems(py, node, v);
        if x.Some? && Cbor.Fits(x.value) {
          RefusedIsReadBack(py, node, v);
        }
      }
    } else {
      var i, j :| 0 <= i < j && CanSkip(fields, i, j) && !ItemsAreRefused(py, fields, i, j);
      var v :| v != Null && !IsRefused(py, fields[i].node, fields[j].node, v);
      NotReadBack(py, node, samples, i, j, v);
    }
  }

  /** What is given for a member has an item of the list, so one that fits. */
  lemma {:induction false} MemberHasItem(py: Numbers, node: Node, i: nat, entries: seq<Entry>, k: nat)
    requires node.Record? && i <= k < |node.fields| && Get(entries, Text(node.fields[k].name)) != Null
    requires var xs := FieldsToItems(py, node, i, entries);
             xs.Some? && forall n :: 0 <= n < |xs.value| ==> Cbor.Fits(xs.value[n])
    ensures var x := ToItems(py, node.fields[k].node, Get(entries, Text(node.fields[k].name)));
            x.Some? && Cbor.Fits(x.value)
    decreases k - i
  {
    hide ToItems, Cbor.Fits, Get, FieldsToItems;
    FirstItem(py, node, i, entries);
    if i == k {
    } else {
      MemberHasItem(py, node, i + 1, entries, k);
    }
  }

  lemma FirstItem(py: Numbers, node: Node, i: nat, entries: seq<Entry>)
    requires node.Record? && i < |node.fields|
    requires var xs := FieldsToItems(py, node, i, entries);
             xs.Some? && forall n :: 0 <= n < |xs.value| ==> Cbor.Fits(xs.value[n])
    ensures var v := Get(entries, Text(node.fields[i].name));
            v != Null ==> var x := ToItems(py, node.fields[i].node, v); x.Some? && Cbor.Fits(x.value)
    ensures var rest := FieldsToItems(py, node, i + 1, entries);
            rest.Some? && forall n :: 0 <= n < |rest.value| ==> Cbor.Fits(rest.value[n])
  {
    hide ToItems, Cbor.Fits, Get;
    var xs := FieldsToItems(py, node, i, entries).value;
    var rest := FieldsToItems(py, node, i + 1, entries).value;
    if Get(entries, Text(node.fields[i].name)) != Null {
      assert Cbor.Fits(xs[0]);
      assert forall n :: 0 <= n < |rest| ==> rest[n] == xs[n + 1];
    }
  }

  lemma RefusedIsReadBack(py: Numbers, node: Node, v: Value)
    requires node.Record? && HasDistinctNames(node.fields)
    requires forall k :: 0 <= k < |node.fields| ==> IsReadBack(py, node.fields[k].node)
    requires forall i, j :: 0 <= i < j && CanSkip(node.fields, i, j) ==> ItemsAreRefused(py, node.fields, i, j)
    requires ToItems(py, node, v).Some? && Cbor.Fits(ToItems(py, node, v).value)
    ensures IsReadBackFrom(py, node, v)
  {
    hide FromItems, Normal;
    assert v.Dict?;
    var entries := v.entries;
    RecordOf(py, node, entries);
    assert forall n :: 0 <= n < |FieldsToItems(py, node, 0, entries).value| ==>
                         Cbor.Fits(FieldsToItems(py, node, 0, entries).value[n]);
    hide ToItems, Cbor.Fits;
    forall k | 0 <= k < |node.fields| && Get(entries, Text(node.fields[k].name)) != Null
      ensures IsMemberReadBack(py, node.fields[k], Get(entries, Text(node.fields[k].name)))
    {
      MemberHasItem(py, node, 0, entries, k);
      assert IsReadBackFrom(py, node.fields[k].node, Get(entries, Text(node.fields[k].name)));
    }
    forall i, j | 0 <= i < j < |node.fields| ensures !IsMistaken(py, node, entries, i, j) {
      if CanSkip(node.fields, i, j) && Get(entries, Text(node.fields[j].name)) != Null {
        MemberHasItem(py, node, 0, entries, j);
        assert IsRefused(py, node.fields[i].node, node.fields[j].node, Get(entries, Text(node.fields[j].name)));
      }
    }
    DescriptionIsReadBack(py, node, entries);
  }

  lemma RefusedHasItem(py: Numbers, a: Node, b: Node, v: Value)
    requires !IsRefused(py, a, b, v)
    ensures ToItems(py, b, v).Some? && Cbor.Fits(ToItems(py, b, v).value)
  {
    hide ToItems, FromItems, Cbor.Fits;
  }

  lemma NotReadBack(py: Numbers, node: Node, samples: seq<Value>, i: nat, j: nat, v: Value)
    requires node.Record? && |node.fields| < Cbor.Limit(8) && HasDistinctNames(node.fields)
    requires AreSamples(py, node.fields, samples) && CanSkip(node.fields, i, j)
    requires v != Null && !IsRefused(py, node.fields[i].node, node.fields[j].node, v)
    ensures !IsReadBack(py, node)
  {
    hide IsMistaken, IsRefused, Required, FromItems, Normal, Cbor.Limit, HasUnknown;
    var fields := node.fields;
    var chosen := samples[j := v];
    assert ToItems(py, fields[j].node, v).Some? && Cbor.Fits(ToItems(py, fields[j].node, v).value) by {
      RefusedHasItem(py, fields[i].node, fields[j].node, v);
    }
    assert fields[j].max == 1 by {
      assert IsSample(py, fields[j], samples[j]);
    }
    assert AreSamples(py, fields, chosen) by {
      forall k | 0 <= k < |fields| ensures IsSample(py, fields[k], chosen[k]) {
        assert IsSample(py, fields[k], samples[k]);
      }
    }
    var entries := Required(fields, chosen, j);
    RequiredIsMistaken(py, node, chosen, i, j);
    RequiredIsEncoded(py, node, chosen, j, 0);
    RequiredIsKnown(fields, chosen, j);
    GreedyMemberSpoils(py, node, entries, i, j);
    var x := ToItems(py, node, Dict(entries)).value;
    assert Cbor.Fits(x);
    assert !IsReadBackFrom(py, node, Dict(entries));
  }

  lemma RequiredIsKnown(fields: seq<Field>, samples: seq<Value>, j: nat)
    requires |samples| == |fields|
    ensures !HasUnknown(fields, Required(fields, samples, j))
  {
    forall i | 0 <= i < |fields| ensures IsName(fields, Required(fields, samples, j)[i].key) {
    }
  }

  lemma RequiredIsMistaken(py: Numbers, node: Node, samples: seq<Value>, i: nat, j: nat)
    requires node.Record? && HasDistinctNames(node.fields) && |samples| == |node.fields|
    requires CanSkip(node.fields, i, j) && samples[j] != Null
    requires !IsRefused(py, node.fields[i].node, node.fields[j].node, samples[j])
    ensures IsMistaken(py, node, Required(node.fields, samples, j), i, j)
  {
    hide FromItems, ToItems, Cbor.Fits, Get;
    var entries := Required(node.fields, samples, j);
    forall k | 0 <= k < |node.fields|
      ensures Get(entries, Text(node.fields[k].name)) == entries[k].value
    {
      GetAt(entries, k);
    }
  }
}
