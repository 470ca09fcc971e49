/** The codec of one configuration type, as the loops that build the items and the descriptions. */
module ConfigCodec {
  import opened Common
  import opened Schema
  import opened SchemaDomain
  import Cbor

  /** What comes before the rest of a list that may be an error. */
  ghost function After<T>(first: seq<T>, rest: Option<seq<T>>): Option<seq<T>> {
    if rest.None? then None else Some(first + rest.value)
  }

  lemma AfterPrepended<T>(first: seq<T>, x: T, rest: Option<seq<T>>)
    ensures After(first, Prepended(x, rest)) == After(first + [x], rest)
  {
    if rest.Some? {
      assert first + ([x] + rest.value) == first + [x] + rest.value;
    }
  }

  class ConfigCodec {
    const py: Numbers
    const root: Node

    constructor (py: Numbers, root: Node)
      ensures this.py == py && this.root == root
    {
      this.py := py;
      this.root := root;
    }

    method Encode(description: Value) returns (bytes: Option<Bytes>)
      ensures bytes == EncodeDescription(py, root, description)
      ensures bytes.Some? <==> Conforms(py, root, description) && HasFittingItem(py, root, description)
      ensures bytes.Some? ==> IsEncoding(py, root, description, bytes.value)
      ensures bytes.Some? && IsUnambiguous(py, root) ==>
                DecodeDescription(py, root, bytes.value) == Some(Normal(py, root, description))
    {
      hide Conforms, HasFittingItem, IsEncoding, ToItems, Cbor.Encode, IsUnambiguous;
      DescriptionExactly(py, root, description);
      var item := ItemOf(root, description);
      if item.None? {
        return None;
      }
      var encoded := Cbor.Encode(item.value);
      if encoded.Err? {
        return None;
      }
      bytes := Some(encoded.value);
      if IsUnambiguous(py, root) {
        DescriptionRoundTrip(py, root, description);
      }
    }

    method Decode(bytes: Bytes) returns (description: Option<Value>)
      ensures description == DecodeDescription(py, root, bytes)
      ensures description.Some? <==>
                var decoded := Cbor.Decode(bytes);
                decoded.Some? && decoded.value.rest == [] && Readable(py, root, decoded.value.item)
    {
      hide Readable, FromItems, Cbor.Decode;
      if Cbor.Decode(bytes).Some? {
        DecodedExactly(py, root, Cbor.Decode(bytes).value.item);
      }
      var decoded := Cbor.Decode(bytes);
      if decoded.None? || decoded.value.rest != [] {
        return None;
      }
      description := ValueOf(root, decoded.value.item);
    }

    method ItemOf(node: Node, value: Value) returns (item: Option<Cbor.Item>)
      ensures item == ToItems(py, node, value)
      decreases node, 1
    {
      match node {
        case Record(_) => item := RecordItem(node, value);
        case Repeated(_, _, _) => item := RepeatedItem(node, value);
        case Mapping(_, _, _, _) => item := MappingItem(node, value);
        case Choice(alternatives) =>
          var i := 0;
          while i < |alternatives|
            invariant i <= |alternatives| && FirstToItems(py, node, i, value) == FirstToItems(py, node, 0, value)
          {
            item := ItemOf(alternatives[i], value);
            if item.Some? {
              return;
            }
            i := i + 1;
          }
          item := None;
        case _ => item := ScalarToItem(py, node, value);
      }
    }

    method RecordItem(node: Node, value: Value) returns (item: Option<Cbor.Item>)
      requires node.Record?
      ensures item == ToItems(py, node, value)
      ensures item.Some? <==> Conforms(py, node, value)
      ensures item.Some? ==> Represents(py, node, value, item.value)
      decreases node, 0
    {
      hide Get, Conforms, Represents;
      EncodedExactly(py, node, value);
      var fields := node.fields;
      if !value.Dict? || HasUnknown(fields, value.entries) {
        return None;
      }
      ghost var target := FieldsToItems(py, node, 0, value.entries);
      var items: seq<Cbor.Item> := [];
      var i := 0;
      assert After([], target) == target by {
        if target.Some? {
          assert [] + target.value == target.value;
        }
      }
      while i < |fields|
        invariant i <= |fields|
        invariant After(items, FieldsToItems(py, node, i, value.entries)) == target
      {
        var field := fields[i];
        var given := Get(value.entries, Text(field.name));
        if field.max != 1 {
          return None;
        }
        if given != Null {
          var x := ItemOf(field.node, given);
          if x.None? {
            return None;
          }
          AfterPrepended(items, x.value, FieldsToItems(py, node, i + 1, value.entries));
          items := items + [x.value];
        } else if field.min != 0 {
          return None;
        }
        i := i + 1;
      }
      assert items + [] == items;
      item := Some(Cbor.Array(items));
    }

    method RepeatedItem(node: Node, value: Value) returns (item: Option<Cbor.Item>)
      requires node.Repeated?
      ensures item == ToItems(py, node, value)
      decreases node, 0
    {
      if !value.List? || !(node.min <= |value.items| <= node.max) {
        return None;
      }
      ghost var target := AllToItems(py, node, value.items);
      var items: seq<Cbor.Item> := [];
      var i := 0;
      assert value.items[0..] == value.items;
      assert After([], target) == target by {
        if target.Some? {
          assert [] + target.value == target.value;
        }
      }
      while i < |value.items|
        invariant i <= |value.items|
        invariant After(items, AllToItems(py, node, value.items[i..])) == target
      {
        var rest := value.items[i..];
        assert rest[0] == value.items[i] && rest[1..] == value.items[i + 1..];
        var x := ItemOf(node.element, value.items[i]);
        if x.None? {
          return None;
        }
        AfterPrepended(items, x.value, AllToItems(py, node, value.items[i + 1..]));
        items := items + [x.value];
        i := i + 1;
      }
      assert value.items[i..] == [] && items + [] == items;
      item := Some(Cbor.Array(items));
    }

    method MappingItem(node: Node, value: Value) returns (item: Option<Cbor.Item>)
      requires node.Mapping?
      ensures item == ToItems(py, node, value)
      ensures item.Some? <==> Conforms(py, node, value)
      ensures item.Some? ==> Represents(py, node, value, item.value)
      decreases node, 0
    {
      hide Conforms, Represents;
      EncodedExactly(py, node, value);
      var pairs := PairsOf(value);
      if pairs.None? || !(node.min <= |pairs.value| <= node.max) {
        return None;
      }
      var items: seq<Cbor.Pair> := [];
      var i := 0;
      while i < |pairs.value|
        invariant i <= |pairs.value|
        invariant PairsToItems(py, node, pairs.value[..i]) == Some(items)
      {
        var so := pairs.value[..i + 1];
        assert so[..i] == pairs.value[..i] && so[i] == pairs.value[i];
        PairsFailTogether(node, pairs.value, i + 1);
        var key := ItemOf(node.key, ParsedKey(py, node.key, pairs.value[i].key));
        if key.None? || HasKey(items, key.value) {
          return None;
        }
        var element := ItemOf(node.element, pairs.value[i].value);
        if element.None? {
          return None;
        }
        items := items + [Cbor.Pair(key.value, element.value)];
        i := i + 1;
      }
      assert pairs.value[..i] == pairs.value;
      item := Some(Cbor.Map(items));
    }

    /** An error among the first pairs is an error of them all. */
    lemma {:induction false} PairsFailTogether(node: Node, pairs: seq<Entry>, n: nat)
      requires node.Mapping? && n <= |pairs|
      ensures PairsToItems(py, node, pairs[..n]).None? ==> PairsToItems(py, node, pairs).None?
      decreases |pairs| - n
    {
      if n < |pairs| {
        assert pairs[..n + 1][..n] == pairs[..n];
        PairsFailTogether(node, pairs, n + 1);
      } else {
        assert pairs[..n] == pairs;
      }
    }

    method ValueOf(node: Node, item: Cbor.Item) returns (value: Option<Value>)
      ensures value == FromItems(py, node, item)
      decreases node, 1
    {
      match node {
        case Record(_) => value := RecordValue(node, item);
        case Repeated(_, _, _) => value := RepeatedValue(node, item);
        case Mapping(_, _, _, _) => value := MappingValue(node, item);
        case Choice(alternatives) =>
          var i := 0;
          while i < |alternatives|
            invariant i <= |alternatives| && FirstFromItems(py, node, i, item) == FirstFromItems(py, node, 0, item)
          {
            value := ValueOf(alternatives[i], item);
            if value.Some? {
              return;
            }
            i := i + 1;
          }
          value := None;
        case _ => value := ScalarFromItem(py, node, item);
      }
    }

    method RecordValue(node: Node, item: Cbor.Item) returns (value: Option<Value>)
      requires node.Record?
      ensures value == FromItems(py, node, item)
      ensures value.Some? <==> Readable(py, node, item)
      decreases node, 0
    {
      hide Readable;
      DecodedExactly(py, node, item);
      if !item.Array? {
        return None;
      }
      var description: seq<Entry> := [];
      var position := 0;
      var i := 0;
      while i < |node.fields|
        invariant i <= |node.fields| && position <= |item.items|
        invariant FieldsFromItems(py, node, i, item.items, position, description) ==
                  FieldsFromItems(py, node, 0, item.items, 0, [])
      {
        var field := node.fields[i];
        if field.max != 1 {
          return None;
        }
        var taken: Option<Value> := None;
        if position < |item.items| {
          taken := ValueOf(field.node, item.items[position]);
        }
        if taken.Some? {
          description := Put(description, Text(field.name), taken.value);
          position := position + 1;
        } else if field.min != 0 {
          return None;
        }
        i := i + 1;
      }
      value := if position == |item.items| then Some(Dict(description)) else None;
    }

    method RepeatedValue(node: Node, item: Cbor.Item) returns (value: Option<Value>)
      requires node.Repeated?
      ensures value == FromItems(py, node, item)
      decreases node, 0
    {
      if !item.Array? || !(node.min <= |item.items| <= node.max) {
        return None;
      }
      ghost var target := AllFromItems(py, node, item.items);
      var values: seq<Value> := [];
      var i := 0;
      assert item.items[0..] == item.items;
      assert After([], target) == target by {
        if target.Some? {
          assert [] + target.value == target.value;
        }
      }
      while i < |item.items|
        invariant i <= |item.items|
        invariant After(values, AllFromItems(py, node, item.items[i..])) == target
      {
        var rest := item.items[i..];
        assert rest[0] == item.items[i] && rest[1..] == item.items[i + 1..];
        var x := ValueOf(node.element, item.items[i]);
        if x.None? {
          return None;
        }
        AfterPrepended(values, x.value, AllFromItems(py, node, item.items[i + 1..]));
        values := values + [x.value];
        i := i + 1;
      }
      assert item.items[i..] == [] && values + [] == values;
      value := Some(List(values));
    }

    method MappingValue(node: Node, item: Cbor.Item) returns (value: Option<Value>)
      requires node.Mapping?
      ensures value == FromItems(py, node, item)
      ensures value.Some? <==> Readable(py, node, item)
      decreases node, 0
    {
      hide Readable;
      DecodedExactly(py, node, item);
      if !item.Map? || !(node.min <= |item.pairs| <= node.max) {
        return None;
      }
      var description: seq<Entry> := [];
      var i := 0;
      while i < |item.pairs|
        invariant i <= |item.pairs|
        invariant PairsFromItems(py, node, item.pairs[..i]) == Some(description)
      {
        var so := item.pairs[..i + 1];
        assert so[..i] == item.pairs[..i] && so[i] == item.pairs[i];
        EntriesFailTogether(node, item.pairs, i + 1);
        var key := ValueOf(node.key, item.pairs[i].key);
        if key.None? {
          return None;
        }
        var element := ValueOf(node.element, item.pairs[i].value);
        if element.None? {
          return None;
        }
        description := Put(description, key.value, element.value);
        i := i + 1;
      }
      assert item.pairs[..i] == item.pairs;
      value := Some(Dict(description));
    }

    /** An error among the first pairs is an error of them all. */
    lemma {:induction false} EntriesFailTogether(node: Node, pairs: seq<Cbor.Pair>, n: nat)
      requires node.Mapping? && n <= |pairs|
      ensures PairsFromItems(py, node, pairs[..n]).None? ==> PairsFromItems(py, node, pairs).None?
      decreases |pairs| - n
    {
      if n < |pairs| {
        assert pairs[..n + 1][..n] == pairs[..n];
        EntriesFailTogether(node, pairs, n + 1);
      } else {
        assert pairs[..n] == pairs;
      }
    }
  }
}
