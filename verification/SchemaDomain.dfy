/**
 * What the codec takes and what it refuses: which descriptions can be encoded and what their items are, which items
 * can be decoded, and which members the items of a record are taken for.
 */
module SchemaDomain {
  import opened Common
  import opened Schema
  import Cbor

  // Descriptions that can be encoded.

  /**
   * The description is what the schema says: every key of a record is the name of a member, every required member is
   * given, lists and mappings have as many elements as they may, no key comes twice, and the kinds are right.
   */
  ghost predicate Conforms(py: Numbers, node: Node, v: Value)
    decreases node, 1
  {
    match node
    case Uint => v.Int? && v.n >= 0
    case Integer => v.Int?
    case Boolean => v.Bool?
    case Tstr => v.Text?
    case Number(_) => v.Int? || v.Float?
    case Record(fields) =>
      && v.Dict?
      && (forall i :: 0 <= i < |v.entries| ==> IsName(fields, v.entries[i].key))
      && (forall j :: 0 <= j < |fields| ==> MemberConforms(py, fields[j], v.entries))
    case Repeated(element, min, max) =>
      v.List? && min <= |v.items| <= max && forall i :: 0 <= i < |v.items| ==> Conforms(py, element, v.items[i])
    case Mapping(key, element, min, max) =>
      && PairsOf(v).Some?
      && var pairs := PairsOf(v).value;
      && min <= |pairs| <= max && HasDistinctKeys(py, key, pairs)
      && forall i :: 0 <= i < |pairs| ==>
           Conforms(py, key, ParsedKey(py, key, pairs[i].key)) && Conforms(py, element, pairs[i].value)
    case Choice(alternatives) => exists j :: 0 <= j < |alternatives| && Conforms(py, alternatives[j], v)
    case Unsupported => false
  }

  ghost predicate MemberConforms(py: Numbers, field: Field, entries: seq<Entry>)
    decreases field
  {
    var v := Get(entries, Text(field.name));
    field.max == 1 && if v == Null then field.min == 0 else Conforms(py, field.node, v)
  }

  /** What a key is told apart by. */
  function KeyOf(py: Numbers, key: Node, e: Entry): Option<Cbor.Item> {
    var x := ToItems(py, key, ParsedKey(py, key, e.key));
    if x.None? then None else Some(KeyId(x.value))
  }

  ghost predicate HasDistinctKeys(py: Numbers, key: Node, pairs: seq<Entry>) {
    forall i, j :: 0 <= i < j < |pairs| ==> KeyOf(py, key, pairs[i]) != KeyOf(py, key, pairs[j])
  }

  /** How many of the members before `j` are given. */
  function Rank(fields: seq<Field>, entries: seq<Entry>, j: nat): nat
    requires j <= |fields|
  {
    if j == 0 then 0
    else Rank(fields, entries, j - 1) + if Get(entries, Text(fields[j - 1].name)) == Null then 0 else 1
  }

  /** The item says what the description says: the members that are given in their order, the elements in theirs. */
  ghost predicate Represents(py: Numbers, node: Node, v: Value, x: Cbor.Item)
    decreases node, 1
  {
    match node
    case Uint => v.Int? && x == Cbor.Int(v.n)
    case Integer => v.Int? && x == Cbor.Int(v.n)
    case Boolean => v.Bool? && x == Cbor.Bool(v.flag)
    case Tstr => v.Text? && x == Cbor.Text(v.utf8)
    case Number(single) =>
      && (v.Int? || v.Float?)
      && x == if single then Cbor.Single(py.narrow(AsFloat(py, v))) else Cbor.Double(AsFloat(py, v))
    case Record(fields) =>
      && v.Dict? && x.Array? && |x.items| == Rank(fields, v.entries, |fields|)
      && (forall j :: 0 <= j < |fields| && Get(v.entries, Text(fields[j].name)) != Null ==>
          && Rank(fields, v.entries, j) < |x.items|
          && IsMemberOf(py, fields[j], v.entries, x.items[Rank(fields, v.entries, j)]))
    case Repeated(element, _, _) =>
      && v.List? && x.Array? && |x.items| == |v.items|
      && forall i :: 0 <= i < |v.items| ==> Represents(py, element, v.items[i], x.items[i])
    case Mapping(key, element, _, _) =>
      && PairsOf(v).Some? && x.Map? && |x.pairs| == |PairsOf(v).value|
      && var pairs := PairsOf(v).value;
      forall i :: 0 <= i < |pairs| ==>
        && Represents(py, key, ParsedKey(py, key, pairs[i].key), x.pairs[i].key)
        && Represents(py, element, pairs[i].value, x.pairs[i].value)
    case Choice(alternatives) =>
      exists j :: 0 <= j < |alternatives| && Represents(py, alternatives[j], v, x) && IsFirst(py, alternatives, j, v)
    case Unsupported => false
  }

  ghost predicate IsMemberOf(py: Numbers, field: Field, entries: seq<Entry>, x: Cbor.Item)
    decreases field
  {
    Represents(py, field.node, Get(entries, Text(field.name)), x)
  }

  /** No alternative before the `j`-th takes the description. */
  ghost predicate IsFirst(py: Numbers, alternatives: seq<Node>, j: nat, v: Value)
    requires j < |alternatives|
    decreases alternatives, 0
  {
    forall i :: 0 <= i < j ==> !Conforms(py, alternatives[i], v)
  }

  ghost predicate IsExact(py: Numbers, node: Node, v: Value) {
    && (ToItems(py, node, v).Some? <==> Conforms(py, node, v))
    && (ToItems(py, node, v).Some? ==> Represents(py, node, v, ToItems(py, node, v).value))
  }

  /** Exactly the descriptions that conform are encoded, and each to the item that says what it says. */
  lemma {:induction false} EncodedExactly(py: Numbers, node: Node, v: Value)
    ensures ToItems(py, node, v).Some? <==> Conforms(py, node, v)
    ensures ToItems(py, node, v).Some? ==> Represents(py, node, v, ToItems(py, node, v).value)
    decreases node, 1, 0
  {
    hide Conforms, ToItems, Represents;
    match node
    case Record(_) => RecordExactly(py, node, v);
    case Repeated(_, _, _) => ListExactly(py, node, v);
    case Mapping(_, _, _, _) => MappingExactly(py, node, v);
    case Choice(_) => ChoiceExactly(py, node, v);
    case _ => ScalarExactly(py, node, v);
  }

  lemma ScalarExactly(py: Numbers, node: Node, v: Value)
    requires IsScalar(node)
    ensures IsExact(py, node, v)
  {
  }

  lemma ChoiceExactly(py: Numbers, node: Node, v: Value)
    requires node.Choice?
    ensures IsExact(py, node, v)
    decreases node, 0, |node.alternatives| + 1
  {
    hide FirstToItems;
    FirstExactly(py, node, 0, v);
  }

  lemma RecordExactly(py: Numbers, node: Node, v: Value)
    requires node.Record?
    ensures IsExact(py, node, v)
    decreases node, 0, |node.fields| + 1
  {
    hide MemberConforms, IsMemberOf, Get, FieldsToItems, IsName;
    if v.Dict? && !HasUnknown(node.fields, v.entries) {
      FieldsExactly(py, node, 0, v.entries);
    }
  }

  lemma ListExactly(py: Numbers, node: Node, v: Value)
    requires node.Repeated?
    ensures IsExact(py, node, v)
    decreases node, 0, if v.List? then |v.items| + 1 else 0
  {
    hide AllToItems;
    if v.List? {
      AllExactly(py, node, v.items);
    }
  }

  lemma MappingExactly(py: Numbers, node: Node, v: Value)
    requires node.Mapping?
    ensures IsExact(py, node, v)
    decreases node, 0, if PairsOf(v).Some? then |PairsOf(v).value| + 1 else 0
  {
    hide PairsToItems, ParsedKey, HasDistinctKeys, KeyOf, PairsOf;
    if PairsOf(v).Some? {
      PairsExactly(py, node, PairsOf(v).value);
    }
  }

  lemma FieldExactly(py: Numbers, field: Field, entries: seq<Entry>)
    ensures var v := Get(entries, Text(field.name));
            v != Null ==>
              && (ToItems(py, field.node, v).Some? <==> Conforms(py, field.node, v))
              && (ToItems(py, field.node, v).Some? ==> IsMemberOf(py, field, entries, ToItems(py, field.node, v).value))
    decreases field
  {
    EncodedExactly(py, field.node, Get(entries, Text(field.name)));
  }

  lemma {:induction false} RankGrows(fields: seq<Field>, entries: seq<Entry>, i: nat, j: nat)
    requires i <= j <= |fields|
    ensures Rank(fields, entries, i) <= Rank(fields, entries, j)
    decreases j - i
  {
    if i == j {
    } else {
      RankGrows(fields, entries, i, j - 1);
    }
  }

  /** The items are those of the members from `i` on that are given. */
  ghost predicate AreMembers(py: Numbers, fields: seq<Field>, i: nat, entries: seq<Entry>, items: seq<Cbor.Item>)
    requires i <= |fields|
  {
    && |items| == Rank(fields, entries, |fields|) - Rank(fields, entries, i)
    && forall j :: i <= j < |fields| && Get(entries, Text(fields[j].name)) != Null ==>
         var k := Rank(fields, entries, j) - Rank(fields, entries, i);
         0 <= k < |items| && IsMemberOf(py, fields[j], entries, items[k])
  }

  lemma MembersNext(py: Numbers, fields: seq<Field>, i: nat, entries: seq<Entry>, items: seq<Cbor.Item>,
                    rest: seq<Cbor.Item>)
    requires i < |fields| && AreMembers(py, fields, i + 1, entries, rest)
    requires if Get(entries, Text(fields[i].name)) == Null then items == rest
             else |items| > 0 && IsMemberOf(py, fields[i], entries, items[0]) && items[1..] == rest
    ensures AreMembers(py, fields, i, entries, items)
  {
    hide IsMemberOf, Get, Rank;
    var r := Rank(fields, entries, i);
    RankNext(fields, entries, i);
    forall j | i <= j < |fields| && Get(entries, Text(fields[j].name)) != Null
      ensures var k := Rank(fields, entries, j) - r;
              0 <= k < |items| && IsMemberOf(py, fields[j], entries, items[k])
    {
      if j > i && Get(entries, Text(fields[i].name)) != Null {
        var k := Rank(fields, entries, j) - r;
        RankGrows(fields, entries, i + 1, j);
        assert items[k] == items[1..][k - 1];
      }
    }
  }

  lemma RankNext(fields: seq<Field>, entries: seq<Entry>, i: nat)
    requires i < |fields|
    ensures Rank(fields, entries, i + 1) ==
            Rank(fields, entries, i) + if Get(entries, Text(fields[i].name)) == Null then 0 else 1
  {
  }

  /** The members from `i` on. */
  lemma {:induction false} FieldsExactly(py: Numbers, node: Node, i: nat, entries: seq<Entry>)
    requires node.Record? && i <= |node.fields|
    ensures var xs := FieldsToItems(py, node, i, entries);
            && (xs.Some? <==> forall j :: i <= j < |node.fields| ==> MemberConforms(py, node.fields[j], entries))
            && (xs.Some? ==> AreMembers(py, node.fields, i, entries, xs.value))
    decreases node, 0, |node.fields| - i
  {
    hide Conforms, ToItems, IsMemberOf, Get, AreMembers;
    if i == |node.fields| {
      assert AreMembers(py, node.fields, i, entries, []) by {
        NoMembers(py, node.fields, entries);
      }
    } else {
      FieldExactly(py, node.fields[i], entries);
      FieldsExactly(py, node, i + 1, entries);
      var xs, rest := FieldsToItems(py, node, i, entries), FieldsToItems(py, node, i + 1, entries);
      if xs.Some? {
        FieldAtHead(py, node, i, entries);
        MembersNext(py, node.fields, i, entries, xs.value, rest.value);
      }
    }
  }

  lemma FieldAtHead(py: Numbers, node: Node, i: nat, entries: seq<Entry>)
    requires node.Record? && i < |node.fields|
    ensures var xs, rest := FieldsToItems(py, node, i, entries), FieldsToItems(py, node, i + 1, entries);
            var v := Get(entries, Text(node.fields[i].name));
            xs.Some? ==>
              && rest.Some?
              && if v == Null then xs.value == rest.value
                 else
                   && ToItems(py, node.fields[i].node, v).Some?
                   && xs.value == [ToItems(py, node.fields[i].node, v).value] + rest.value
  {
    hide ToItems, Get;
  }

  lemma NoMembers(py: Numbers, fields: seq<Field>, entries: seq<Entry>)
    ensures AreMembers(py, fields, |fields|, entries, [])
  {
  }

  lemma {:induction false} AllExactly(py: Numbers, node: Node, values: seq<Value>)
    requires node.Repeated?
    ensures var xs := AllToItems(py, node, values);
            && (xs.Some? <==> forall i :: 0 <= i < |values| ==> Conforms(py, node.element, values[i]))
            && (xs.Some? ==>
                && |xs.value| == |values|
                && forall i :: 0 <= i < |values| ==> Represents(py, node.element, values[i], xs.value[i]))
    decreases node, 0, |values|
  {
    hide Conforms, ToItems, Represents;
    if |values| == 0 {
    } else {
      EncodedExactly(py, node.element, values[0]);
      AllExactly(py, node, values[1..]);
      assert forall i :: 0 < i < |values| ==> values[i] == values[1..][i - 1];
    }
  }

  /** The pair itself is right. */
  ghost predicate PairConforms(py: Numbers, node: Node, e: Entry)
    requires node.Mapping?
  {
    Conforms(py, node.key, ParsedKey(py, node.key, e.key)) && Conforms(py, node.element, e.value)
  }

  ghost predicate IsPairOf(py: Numbers, node: Node, e: Entry, x: Cbor.Pair)
    requires node.Mapping?
  {
    && Represents(py, node.key, ParsedKey(py, node.key, e.key), x.key) && Represents(py, node.element, e.value, x.value)
    && KeyOf(py, node.key, e) == Some(KeyId(x.key))
  }

  lemma {:induction false} PairsExactly(py: Numbers, node: Node, pairs: seq<Entry>)
    requires node.Mapping?
    ensures var xs := PairsToItems(py, node, pairs);
            && (xs.Some? <==>
                && HasDistinctKeys(py, node.key, pairs)
                && forall i :: 0 <= i < |pairs| ==> PairConforms(py, node, pairs[i]))
            && (xs.Some? ==>
                |xs.value| == |pairs| && forall i :: 0 <= i < |pairs| ==> IsPairOf(py, node, pairs[i], xs.value[i]))
    decreases node, 0, |pairs|
  {
    hide Conforms, ToItems, Represents, ParsedKey, KeyId;
    if |pairs| == 0 {
    } else {
      var n := |pairs| - 1;
      var last := pairs[n];
      PairsExactly(py, node, pairs[..n]);
      EncodedExactly(py, node.key, ParsedKey(py, node.key, last.key));
      EncodedExactly(py, node.element, last.value);
      assert pairs == pairs[..n] + [last];
      var xs := PairsToItems(py, node, pairs[..n]);
      var key := ToItems(py, node.key, ParsedKey(py, node.key, last.key));
      if xs.Some? && key.Some? {
        assert HasKey(xs.value, key.value) <==>
               exists i :: 0 <= i < n && KeyOf(py, node.key, pairs[i]) == KeyOf(py, node.key, last);
      }
    }
  }

  lemma {:induction false} FirstExactly(py: Numbers, node: Node, k: nat, v: Value)
    requires node.Choice? && k <= |node.alternatives|
    ensures var x := FirstToItems(py, node, k, v); var alternatives := node.alternatives;
            && (x.Some? <==> exists j :: k <= j < |alternatives| && Conforms(py, alternatives[j], v))
            && (x.Some? ==>
                exists j :: k <= j < |alternatives| && Represents(py, alternatives[j], v, x.value) &&
                            forall i :: k <= i < j ==> !Conforms(py, alternatives[i], v))
    decreases node, 0, |node.alternatives| - k
  {
    hide Conforms, ToItems, Represents;
    if k == |node.alternatives| {
    } else {
      EncodedExactly(py, node.alternatives[k], v);
      FirstExactly(py, node, k + 1, v);
    }
  }

  /** The item of the description has numbers and lengths that CBOR can hold. */
  ghost predicate HasFittingItem(py: Numbers, node: Node, v: Value) {
    ToItems(py, node, v).Some? && Cbor.Fits(ToItems(py, node, v).value)
  }

  /** The bytes are the encoding of an item that says what the description says. */
  ghost predicate IsEncoding(py: Numbers, node: Node, v: Value, bytes: Bytes) {
    exists x :: Represents(py, node, v, x) && Cbor.Encode(x) == Ok(bytes)
  }

  /** What does not conform is refused; what does is refused only for a number or a length that CBOR cannot hold. */
  lemma DescriptionExactly(py: Numbers, node: Node, v: Value)
    ensures EncodeDescription(py, node, v).Some? <==> Conforms(py, node, v) && HasFittingItem(py, node, v)
    ensures EncodeDescription(py, node, v).Some? ==> IsEncoding(py, node, v, EncodeDescription(py, node, v).value)
  {
    hide Conforms, Represents, ToItems, Cbor.Encode, Cbor.Fits;
    EncodedExactly(py, node, v);
    if ToItems(py, node, v).Some? {
      Cbor.EncodeFits(ToItems(py, node, v).value);
    }
  }

  // Items that can be decoded.

  /** The item is one that the schema describes, where a record takes its items greedily. */
  ghost predicate Readable(py: Numbers, node: Node, x: Cbor.Item)
    decreases node, 1
  {
    match node
    case Uint => x.Int? && x.n >= 0
    case Integer => x.Int?
    case Boolean => x.Bool?
    case Tstr => x.Text?
    case Number(_) => x.Double? || (x.Single? && x.single.Some?)
    case Record(fields) =>
      x.Array? && AreSingle(fields, 0) && CanTakeAll(py, fields, x.items)
    case Repeated(element, min, max) =>
      x.Array? && min <= |x.items| <= max && forall i :: 0 <= i < |x.items| ==> Readable(py, element, x.items[i])
    case Mapping(key, element, min, max) =>
      && x.Map? && min <= |x.pairs| <= max
      && forall i :: 0 <= i < |x.pairs| ==> Readable(py, key, x.pairs[i].key) && Readable(py, element, x.pairs[i].value)
    case Choice(alternatives) => exists j :: 0 <= j < |alternatives| && Readable(py, alternatives[j], x)
    case Unsupported => false
  }

  /** The members come once at most each; others are not supported. */
  ghost predicate AreSingle(fields: seq<Field>, i: nat) { forall j :: i <= j < |fields| ==> fields[j].max == 1 }

  ghost predicate CanTakeAll(py: Numbers, fields: seq<Field>, items: seq<Cbor.Item>)
    decreases fields, 2
  {
    exists picked: seq<nat> :: IsGreedy(py, fields, 0, items, 0, picked)
  }

  ghost predicate CanTake(py: Numbers, field: Field, x: Cbor.Item)
    decreases field
  {
    Readable(py, field.node, x)
  }

  /**
   * The members from `i` on take all the items from `position` on: `picked` are those that take one, in order, and
   * can. One that takes none is optional, and cannot take the item that the next one takes.
   */
  ghost predicate IsGreedy(py: Numbers, fields: seq<Field>, i: nat, items: seq<Cbor.Item>, position: nat,
                           picked: seq<nat>)
    decreases fields, 1
  {
    && ArePicked(fields, i, picked) && position + |picked| == |items|
    && (forall k :: 0 <= k < |picked| ==> CanTake(py, fields[picked[k]], items[position + k]))
    && (forall j :: i <= j < |fields| && j !in picked ==> fields[j].min == 0)
    && (forall j, k :: i <= j < |fields| && IsPassed(picked, j, k) ==> !CanTake(py, fields[j], items[position + k]))
  }

  predicate ArePicked(fields: seq<Field>, i: nat, picked: seq<nat>) {
    && (forall k :: 0 <= k < |picked| ==> i <= picked[k] < |fields|)
    && (forall k, l :: 0 <= k < l < |picked| ==> picked[k] < picked[l])
  }

  function First(picked: seq<nat>, none: nat): nat { if |picked| == 0 then none else picked[0] }

  /** The `k`-th to be picked is the next one behind `j`, which is not picked. */
  predicate IsPassed(picked: seq<nat>, j: nat, k: nat) {
    k < |picked| && j < picked[k] && (k == 0 || picked[k - 1] < j)
  }

  /** Exactly those items are decoded. */
  lemma {:induction false} DecodedExactly(py: Numbers, node: Node, x: Cbor.Item)
    ensures FromItems(py, node, x).Some? <==> Readable(py, node, x)
    decreases node, 1, 0
  {
    match node
    case Record(_) => RecordDecoded(py, node, x);
    case Repeated(_, _, _) =>
      if x.Array? {
        AllReads(py, node, x.items);
      }
    case Mapping(_, _, _, _) =>
      if x.Map? {
        PairsRead(py, node, x.pairs);
      }
    case Choice(_) => FirstReads(py, node, 0, x);
    case _ =>
  }

  lemma RecordDecoded(py: Numbers, node: Node, x: Cbor.Item)
    requires node.Record?
    ensures FromItems(py, node, x).Some? <==> Readable(py, node, x)
    decreases node, 0, |node.fields| + 2
  {
    hide CanTakeAll, FieldsFromItems;
    if x.Array? {
      RecordReads(py, node, x.items);
    }
  }

  lemma {:induction false} AllReads(py: Numbers, node: Node, items: seq<Cbor.Item>)
    requires node.Repeated?
    ensures AllFromItems(py, node, items).Some? <==>
              forall i :: 0 <= i < |items| ==> Readable(py, node.element, items[i])
    decreases node, 0, |items|
  {
    hide Readable, FromItems;
    if |items| == 0 {
    } else {
      DecodedExactly(py, node.element, items[0]);
      AllReads(py, node, items[1..]);
      assert forall i :: 0 < i < |items| ==> items[i] == items[1..][i - 1];
    }
  }

  lemma {:induction false} PairsRead(py: Numbers, node: Node, pairs: seq<Cbor.Pair>)
    requires node.Mapping?
    ensures PairsFromItems(py, node, pairs).Some? <==>
              forall i :: 0 <= i < |pairs| ==>
                Readable(py, node.key, pairs[i].key) && Readable(py, node.element, pairs[i].value)
    decreases node, 0, |pairs|
  {
    hide Readable, FromItems, Put;
    if |pairs| == 0 {
    } else {
      var n := |pairs| - 1;
      PairsRead(py, node, pairs[..n]);
      DecodedExactly(py, node.key, pairs[n].key);
      DecodedExactly(py, node.element, pairs[n].value);
      assert pairs == pairs[..n] + [pairs[n]];
    }
  }

  lemma {:induction false} FirstReads(py: Numbers, node: Node, k: nat, x: Cbor.Item)
    requires node.Choice? && k <= |node.alternatives|
    ensures FirstFromItems(py, node, k, x).Some? <==>
              exists j :: k <= j < |node.alternatives| && Readable(py, node.alternatives[j], x)
    decreases node, 0, |node.alternatives| - k
  {
    hide Readable, FromItems;
    if k == |node.alternatives| {
    } else {
      DecodedExactly(py, node.alternatives[k], x);
      FirstReads(py, node, k + 1, x);
    }
  }

  lemma FieldReads(py: Numbers, field: Field, x: Cbor.Item)
    ensures FieldFromItem(py, field, x).Some? <==> CanTake(py, field, x)
    decreases field
  {
    DecodedExactly(py, field.node, x);
  }

  lemma RecordReads(py: Numbers, node: Node, items: seq<Cbor.Item>)
    requires node.Record?
    ensures FieldsFromItems(py, node, 0, items, 0, []).Some? <==>
              AreSingle(node.fields, 0) && CanTakeAll(py, node.fields, items)
    decreases node, 0, |node.fields| + 1
  {
    hide CanTake, FieldsFromItems;
    if FieldsFromItems(py, node, 0, items, 0, []).Some? {
      var picked := GreedyPicks(py, node, 0, items, 0, []);
    }
    if AreSingle(node.fields, 0) {
      forall picked: seq<nat> | IsGreedy(py, node.fields, 0, items, 0, picked)
        ensures FieldsFromItems(py, node, 0, items, 0, []).Some?
      {
        GreedyReads(py, node, 0, items, 0, [], picked);
      }
    }
  }

  /** The decoder picks greedily. */
  lemma {:induction false} GreedyPicks(py: Numbers, node: Node, i: nat, items: seq<Cbor.Item>, position: nat,
                                       done: seq<Entry>) returns (picked: seq<nat>)
    requires node.Record? && i <= |node.fields| && position <= |items|
    requires FieldsFromItems(py, node, i, items, position, done).Some?
    ensures AreSingle(node.fields, i) && IsGreedy(py, node.fields, i, items, position, picked)
    decreases node, 0, |node.fields| - i
  {
    hide FromItems, FieldFromItem, Put, CanTake, IsGreedy;
    if i == |node.fields| {
      picked := [];
      NothingPicked(py, node.fields, items, position, picked);
    } else {
      var field := node.fields[i];
      if position < |items| {
        FieldReads(py, field, items[position]);
      }
      if position < |items| && CanTake(py, field, items[position]) {
        var taken := FieldFromItem(py, field, items[position]).value;
        var rest := GreedyPicks(py, node, i + 1, items, position + 1, Put(done, Text(field.name), taken));
        picked := [i] + rest;
        PickedFirst(py, node.fields, i, items, position, rest);
      } else {
        picked := GreedyPicks(py, node, i + 1, items, position, done);
        PickedLater(py, node.fields, i, items, position, picked);
      }
    }
  }

  lemma NothingPicked(py: Numbers, fields: seq<Field>, items: seq<Cbor.Item>, position: nat, picked: seq<nat>)
    ensures IsGreedy(py, fields, |fields|, items, position, picked) <==> picked == [] && position == |items|
  {
    hide CanTake;
    assert ArePicked(fields, |fields|, picked) ==> First(picked, |fields|) >= |fields|;
  }

  lemma PickedFirst(py: Numbers, fields: seq<Field>, i: nat, items: seq<Cbor.Item>, position: nat, rest: seq<nat>)
    requires i < |fields| && position < |items| && CanTake(py, fields[i], items[position])
    requires IsGreedy(py, fields, i + 1, items, position + 1, rest)
    ensures IsGreedy(py, fields, i, items, position, [i] + rest)
  {
    hide CanTake;
    var picked := [i] + rest;
    assert forall k :: 0 < k < |picked| ==> picked[k] == rest[k - 1];
    forall k | 0 <= k < |picked| ensures CanTake(py, fields[picked[k]], items[position + k]) {
      if k > 0 {
        assert CanTake(py, fields[rest[k - 1]], items[position + 1 + (k - 1)]);
      }
    }
    forall j | i <= j < |fields| && j !in picked ensures fields[j].min == 0 {
      assert j != picked[0];
    }
    forall j: nat, k: nat | i <= j < |fields| && IsPassed(picked, j, k)
      ensures !CanTake(py, fields[j], items[position + k])
    {
      assert IsPassed(rest, j, k - 1);
      assert items[position + k] == items[position + 1 + (k - 1)];
    }
  }

  lemma PickedRest(py: Numbers, fields: seq<Field>, i: nat, items: seq<Cbor.Item>, position: nat, picked: seq<nat>)
    requires i < |fields| && position < |items| && CanTake(py, fields[i], items[position])
    requires IsGreedy(py, fields, i, items, position, picked)
    ensures |picked| > 0 && picked[0] == i && IsGreedy(py, fields, i + 1, items, position + 1, picked[1..])
  {
    hide CanTake;
    assert picked[0] == i || IsPassed(picked, i, 0);
    assert items[position + 0] == items[position];
    var rest := picked[1..];
    assert forall k :: 0 <= k < |rest| ==> rest[k] == picked[k + 1];
    forall k | 0 <= k < |rest| ensures CanTake(py, fields[rest[k]], items[position + 1 + k]) {
      assert CanTake(py, fields[picked[k + 1]], items[position + (k + 1)]);
    }
    forall j | i + 1 <= j < |fields| && j !in rest ensures fields[j].min == 0 {
      assert picked == [i] + rest;
    }
    forall j: nat, k: nat | i + 1 <= j < |fields| && IsPassed(rest, j, k)
      ensures !CanTake(py, fields[j], items[position + 1 + k])
    {
      assert IsPassed(picked, j, k + 1);
      assert items[position + (k + 1)] == items[position + 1 + k];
    }
  }

  lemma PickedLater(py: Numbers, fields: seq<Field>, i: nat, items: seq<Cbor.Item>, position: nat, picked: seq<nat>)
    requires i < |fields| && (position < |items| ==> !CanTake(py, fields[i], items[position]))
    ensures fields[i].min == 0 && IsGreedy(py, fields, i + 1, items, position, picked) <==>
              IsGreedy(py, fields, i, items, position, picked)
  {
    hide CanTake;
    if fields[i].min == 0 && IsGreedy(py, fields, i + 1, items, position, picked) {
      forall k: nat | IsPassed(picked, i, k) ensures !CanTake(py, fields[i], items[position + k]) {
        assert k == 0;
      }
    }
    if IsGreedy(py, fields, i, items, position, picked) {
      assert i in picked ==> First(picked, i) == i;
      assert position < |items| ==> items[position + 0] == items[position];
    }
  }

  lemma {:induction false} GreedyReads(py: Numbers, node: Node, i: nat, items: seq<Cbor.Item>, position: nat,
                                       done: seq<Entry>, picked: seq<nat>)
    requires node.Record? && i <= |node.fields| && position <= |items|
    requires AreSingle(node.fields, i) && IsGreedy(py, node.fields, i, items, position, picked)
    ensures FieldsFromItems(py, node, i, items, position, done).Some?
    decreases node, 0, |node.fields| - i
  {
    hide FromItems, FieldFromItem, Put, CanTake, IsGreedy;
    if i == |node.fields| {
      NothingPicked(py, node.fields, items, position, picked);
    } else {
      var field := node.fields[i];
      if position < |items| {
        FieldReads(py, field, items[position]);
      }
      if position < |items| && CanTake(py, field, items[position]) {
        var taken := FieldFromItem(py, field, items[position]).value;
        PickedRest(py, node.fields, i, items, position, picked);
        GreedyReads(py, node, i + 1, items, position + 1, Put(done, Text(field.name), taken), picked[1..]);
      } else {
        PickedLater(py, node.fields, i, items, position, picked);
        GreedyReads(py, node, i + 1, items, position, done, picked);
      }
    }
  }

  /** What the members that are picked are read as. */
  ghost predicate AreRead(py: Numbers, fields: seq<Field>, items: seq<Cbor.Item>, position: nat, picked: seq<nat>,
                          entries: seq<Entry>)
    requires position + |picked| == |items|
  {
    && |entries| == |picked|
    && forall k :: 0 <= k < |picked| && picked[k] < |fields| ==>
         && entries[k].key == Text(fields[picked[k]].name)
         && FromItems(py, fields[picked[k]].node, items[position + k]) == Some(entries[k].value)
  }

  /** No item is lost: each is the value of the member that picked it, and they are read in their order. */
  lemma RecordIsRead(py: Numbers, node: Node, items: seq<Cbor.Item>) returns (picked: seq<nat>)
    requires node.Record? && HasDistinctNames(node.fields)
    requires FromItems(py, node, Cbor.Array(items)).Some?
    ensures IsGreedy(py, node.fields, 0, items, 0, picked)
    ensures var v := FromItems(py, node, Cbor.Array(items)).value;
            v.Dict? && AreRead(py, node.fields, items, 0, picked, v.entries)
  {
    hide FieldsFromItems, AreRead, IsGreedy;
    var entries;
    picked, entries := PicksAreRead(py, node, 0, items, 0, []);
    assert [] + entries == entries;
    PicksAreGreedy(py, node.fields, 0, items, 0, picked);
  }

  lemma PicksAreGreedy(py: Numbers, fields: seq<Field>, i: nat, items: seq<Cbor.Item>, position: nat, picked: seq<nat>)
    requires IsGreedy(py, fields, i, items, position, picked)
    ensures position + |picked| == |items|
  {
  }

  lemma {:induction false} PicksAreRead(py: Numbers, node: Node, i: nat, items: seq<Cbor.Item>, position: nat,
                                        done: seq<Entry>) returns (picked: seq<nat>, entries: seq<Entry>)
    requires node.Record? && i <= |node.fields| && position <= |items| && HasDistinctNames(node.fields)
    requires FieldsFromItems(py, node, i, items, position, done).Some?
    requires forall k :: 0 <= k < |done| ==> done[k].key.Text?
    requires forall k, j :: 0 <= k < |done| && i <= j < |node.fields| ==> done[k].key != Text(node.fields[j].name)
    ensures IsGreedy(py, node.fields, i, items, position, picked) && position + |picked| == |items|
    ensures FieldsFromItems(py, node, i, items, position, done) == Some(done + entries)
    ensures AreRead(py, node.fields, items, position, picked, entries)
    decreases |node.fields| - i
  {
    hide FromItems, Put, CanTake, IsGreedy;
    if i == |node.fields| {
      picked, entries := [], [];
      NothingPicked(py, node.fields, items, position, picked);
      assert done + [] == done;
    } else {
      var field := node.fields[i];
      if position < |items| {
        FieldReads(py, field, items[position]);
      }
      if position < |items| && CanTake(py, field, items[position]) {
        var entry := Entry(Text(field.name), FieldFromItem(py, field, items[position]).value);
        PutAppends(done, entry.key, entry.value);
        var rest, others := PicksAreRead(py, node, i + 1, items, position + 1, done + [entry]);
        picked, entries := [i] + rest, [entry] + others;
        assert done + [entry] + others == done + entries;
        PickedFirst(py, node.fields, i, items, position, rest);
        ReadFirst(py, node.fields, i, items, position, rest, entry, others);
      } else {
        picked, entries := PicksAreRead(py, node, i + 1, items, position, done);
        PickedLater(py, node.fields, i, items, position, picked);
      }
    }
  }

  lemma ReadFirst(py: Numbers, fields: seq<Field>, i: nat, items: seq<Cbor.Item>, position: nat, rest: seq<nat>,
                  entry: Entry, others: seq<Entry>)
    requires position + 1 + |rest| == |items| && AreRead(py, fields, items, position + 1, rest, others)
    requires i < |fields| && entry.key == Text(fields[i].name)
    requires FromItems(py, fields[i].node, items[position]) == Some(entry.value)
    ensures AreRead(py, fields, items, position, [i] + rest, [entry] + others)
  {
    hide FromItems;
    var picked := [i] + rest;
    forall k | 0 < k < |picked| && picked[k] < |fields|
      ensures FromItems(py, fields[picked[k]].node, items[position + k]) == Some(([entry] + others)[k].value)
    {
      assert items[position + k] == items[position + 1 + (k - 1)] && rest[k - 1] == picked[k];
    }
  }
}
