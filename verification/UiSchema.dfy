/** The schema of the UI configuration. It is unambiguous, so every UI configuration comes back as it was given. */
module UiSchema {
  import opened Common
  import opened Schema
  import Cbor

  /** What bounds `*`. */
  const MANY := 1024

  function Ascii(s: string): (bytes: Bytes)
    ensures |bytes| == |s|
  {
    seq(|s|, i requires 0 <= i < |s| => if s[i] < 128 as char then s[i] as int else 0)
  }

  function Member(name: string, node: Node): Field { Field(Ascii(name), 1, 1, node) }

  function Optional(name: string, node: Node): Field { Field(Ascii(name), 0, 1, node) }

  function AnyValue(): Node {
    Choice([Integer, Number(false), Tstr, Boolean, Repeated(Integer, 0, MANY), Repeated(Tstr, 0, MANY),
            Mapping(Tstr, Tstr, 0, MANY)])
  }

  function Properties(): Node { Mapping(Uint, AnyValue(), 0, MANY) }

  function Grid(): Node {
    Record([Member("snap_enabled", Boolean), Member("width", Uint), Member("height", Uint), Member("spacing_px", Uint)])
  }

  function Position(): Node { Record([Member("x", Integer), Member("y", Integer)]) }

  function Size(): Node { Record([Member("width", Uint), Member("height", Uint)]) }

  function Binding(): Node {
    Record([Member("target", Uint), Member("channel", Uint), Member("event_type", Uint), Member("payload_key", Uint),
            Member("direction", Uint), Member("outbound_event_type", Uint), Member("has_selector", Boolean),
            Member("selector_key", Uint), Member("selector_value", AnyValue())])
  }

  function Widget(): Node {
    Record([Member("type", Uint), Member("id", Uint), Member("position", Position()), Member("size", Size()),
            Member("z_index", Integer), Optional("properties", Properties()),
            Member("bindings", Repeated(Binding(), 0, MANY))])
  }

  function Screen(): Node {
    Record([Member("id", Uint), Member("group_id", Uint), Member("type", Uint), Member("z_index", Integer),
            Member("is_visible", Boolean), Member("is_overlay", Boolean), Member("grid", Grid()),
            Member("widget_configurations", Repeated(Widget(), 0, MANY))])
  }

  function UiConfig(): Node {
    Record([Member("version", Uint), Member("active_screen_group_id", Uint), Optional("properties", Properties()),
            Member("screen_configurations", Repeated(Screen(), 0, 24))])
  }

  // Kinds of items tell the alternatives apart, but for the two kinds of list.

  datatype Kind = IntKind | FloatKind | TextKind | BoolKind | ArrayKind | MapKind

  predicate HasKind(node: Node, kind: Kind) {
    match kind
    case IntKind => node.Uint? || node.Integer?
    case FloatKind => node.Number?
    case TextKind => node.Tstr?
    case BoolKind => node.Boolean?
    case ArrayKind => node.Repeated? || node.Record?
    case MapKind => node.Mapping?
  }

  predicate IsOfKind(item: Cbor.Item, kind: Kind) {
    match kind
    case IntKind => item.Int?
    case FloatKind => item.Single? || item.Double?
    case TextKind => item.Text?
    case BoolKind => item.Bool?
    case ArrayKind => item.Array?
    case MapKind => item.Map?
  }

  lemma ReadsKind(py: Numbers, node: Node, kind: Kind, item: Cbor.Item)
    requires HasKind(node, kind) && FromItems(py, node, item).Some?
    ensures IsOfKind(item, kind)
  {
  }

  lemma KindsAreRefused(py: Numbers, a: Node, b: Node, ka: Kind, kb: Kind)
    requires HasKind(a, ka) && HasKind(b, kb) && ka != kb
    ensures forall v :: IsRefused(py, a, b, v)
  {
    forall v ensures IsRefused(py, a, b, v) {
      var x := ToItems(py, b, v);
      if x.Some? && FromItems(py, a, x.value).Some? {
        ReadsKind(py, a, ka, x.value);
      }
    }
  }

  lemma FieldsAreRefused(py: Numbers, fields: seq<Field>, i: nat, j: nat, ka: Kind, kb: Kind)
    requires i < j < |fields| && HasKind(fields[i].node, ka) && HasKind(fields[j].node, kb) && ka != kb
    ensures ItemsAreRefused(py, fields, i, j)
  {
    KindsAreRefused(py, fields[i].node, fields[j].node, ka, kb);
  }

  /** An empty list is a list of integers first; any other shows by its first element what it lists. */
  lemma ListsYield(py: Numbers)
    ensures Yields(py, Repeated(Integer, 0, MANY), Repeated(Tstr, 0, MANY))
  {
    var a, b := Repeated(Integer, 0, MANY), Repeated(Tstr, 0, MANY);
    forall v | ToItems(py, a, v).None? ensures IsRefused(py, a, b, v) {
      var x := ToItems(py, b, v);
      if x.Some? {
        assert |v.items| > 0;
        assert Some(x.value.items[0]) == ToItems(py, Tstr, v.items[0]);
        assert FromItems(py, Integer, x.value.items[0]).None?;
      }
    }
  }

  lemma AnyValueIsUnambiguous(py: Numbers)
    ensures IsUnambiguous(py, AnyValue())
  {
    var alternatives := AnyValue().alternatives;
    var kinds := [IntKind, FloatKind, TextKind, BoolKind, ArrayKind, ArrayKind, MapKind];
    forall i, j | 0 <= i < j < |alternatives| ensures Yields(py, alternatives[i], alternatives[j]) {
      if i == 4 && j == 5 {
        ListsYield(py);
      } else {
        KindsAreRefused(py, alternatives[i], alternatives[j], kinds[i], kinds[j]);
      }
    }
  }

  predicate IsAscii(s: string) { forall i :: 0 <= i < |s| ==> s[i] < 128 as char }

  lemma AsciiDiffers(s: string, t: string)
    requires IsAscii(s) && IsAscii(t) && s != t
    ensures Ascii(s) != Ascii(t)
  {
    if |s| == |t| {
      var i :| 0 <= i < |s| && s[i] != t[i];
      assert Ascii(s)[i] != Ascii(t)[i];
    }
  }

  /** Different names make different labels. */
  lemma NamesDiffer(fields: seq<Field>, names: seq<string>)
    requires |fields| == |names|
    requires forall k :: 0 <= k < |names| ==> fields[k].name == Ascii(names[k]) && IsAscii(names[k])
    requires forall i, j :: 0 <= i < j < |names| ==> names[i] != names[j]
    ensures HasDistinctNames(fields)
  {
    forall i, j | 0 <= i < j < |fields| ensures fields[i].name != fields[j].name {
      AsciiDiffers(names[i], names[j]);
    }
  }

  /** Only member `o` may be left out, and what it accepts the next one does not write. */
  lemma RecordIsUnambiguous(py: Numbers, node: Node, names: seq<string>, o: nat)
    requires node.Record? && |node.fields| == |names| && o + 1 < |names|
    requires forall k :: 0 <= k < |names| ==> node.fields[k].name == Ascii(names[k]) && IsAscii(names[k])
    requires forall i, j :: 0 <= i < j < |names| ==> names[i] != names[j]
    requires forall k :: 0 <= k < |names| && k != o ==> node.fields[k].min == 1
    requires forall k :: 0 <= k < |names| ==> IsUnambiguousField(py, node.fields[k])
    requires node.fields[o].min == 0 ==> ItemsAreRefused(py, node.fields, o, o + 1)
    ensures IsUnambiguous(py, node)
  {
    hide ItemsAreRefused, IsUnambiguousField;
    NamesDiffer(node.fields, names);
    forall i, j | 0 <= i < j && CanSkip(node.fields, i, j) ensures ItemsAreRefused(py, node.fields, i, j) {
      assert node.fields[i].min == 0;
      assert node.fields[o + 1].min == 1;
    }
  }

  function BindingNames(): seq<string> {
    ["target", "channel", "event_type", "payload_key", "direction", "outbound_event_type", "has_selector",
     "selector_key", "selector_value"]
  }

  lemma BindingNamesDiffer()
    ensures |BindingNames()| == |Binding().fields|
    ensures forall k :: 0 <= k < |BindingNames()| ==>
              Binding().fields[k].name == Ascii(BindingNames()[k]) && IsAscii(BindingNames()[k])
    ensures forall i, j :: 0 <= i < j < |BindingNames()| ==> BindingNames()[i] != BindingNames()[j]
  {
    hide Ascii;
  }

  lemma BindingIsUnambiguous(py: Numbers)
    ensures IsUnambiguous(py, Binding())
  {
    hide AnyValue, BindingNames, Ascii, ItemsAreRefused, IsRefused, ToItems, FromItems;
    AnyValueIsUnambiguous(py);
    BindingNamesDiffer();
    RecordIsUnambiguous(py, Binding(), BindingNames(), 0);
  }

  lemma PropertiesAreUnambiguous(py: Numbers)
    ensures IsUnambiguous(py, Properties())
  {
    AnyValueIsUnambiguous(py);
  }

  lemma BoxIsUnambiguous(py: Numbers)
    ensures IsUnambiguous(py, Position()) && IsUnambiguous(py, Size())
  {
    RecordIsUnambiguous(py, Position(), ["x", "y"], 0);
    RecordIsUnambiguous(py, Size(), ["width", "height"], 0);
  }

  lemma WidgetIsUnambiguous(py: Numbers)
    ensures IsUnambiguous(py, Widget())
  {
    hide Binding, AnyValue, Position, Size, ItemsAreRefused, IsRefused, ToItems, FromItems;
    BoxIsUnambiguous(py);
    PropertiesAreUnambiguous(py);
    BindingIsUnambiguous(py);
    var fields := Widget().fields;
    FieldsAreRefused(py, fields, 5, 6, MapKind, ArrayKind);
    RecordIsUnambiguous(py, Widget(), ["type", "id", "position", "size", "z_index", "properties", "bindings"], 5);
  }

  lemma GridIsUnambiguous(py: Numbers)
    ensures IsUnambiguous(py, Grid())
  {
    RecordIsUnambiguous(py, Grid(), ["snap_enabled", "width", "height", "spacing_px"], 0);
  }

  lemma ScreenIsUnambiguous(py: Numbers)
    ensures IsUnambiguous(py, Screen())
  {
    hide Widget, Grid, ItemsAreRefused, IsRefused, ToItems, FromItems;
    GridIsUnambiguous(py);
    WidgetIsUnambiguous(py);
    RecordIsUnambiguous(py, Screen(), ["id", "group_id", "type", "z_index", "is_visible", "is_overlay", "grid",
      "widget_configurations"], 0);
  }

  lemma ScreensAreNoProperties(py: Numbers)
    ensures ItemsAreRefused(py, UiConfig().fields, 2, 3)
  {
    FieldsAreRefused(py, UiConfig().fields, 2, 3, MapKind, ArrayKind);
  }

  lemma UiConfigIsUnambiguous(py: Numbers)
    ensures IsUnambiguous(py, UiConfig())
  {
    hide Screen, Properties, AnyValue, ItemsAreRefused, IsRefused, ToItems, FromItems;
    PropertiesAreUnambiguous(py);
    ScreenIsUnambiguous(py);
    ScreensAreNoProperties(py);
    RecordIsUnambiguous(
      py, UiConfig(), ["version", "active_screen_group_id", "properties", "screen_configurations"], 2);
  }

  /** Every UI configuration that can be encoded decodes to itself, in its normal form. */
  lemma UiConfigRoundTrip(py: Numbers, description: Value)
    requires EncodeDescription(py, UiConfig(), description).Some?
    ensures DecodeDescription(py, UiConfig(), EncodeDescription(py, UiConfig(), description).value) ==
            Some(Normal(py, UiConfig(), description))
  {
    hide *;
    UiConfigIsUnambiguous(py);
    DescriptionRoundTrip(py, UiConfig(), description);
  }

  /** The guess can be wrong: with `[? a: uint, b: uint]` a description that gives `b` only is encoded, not decoded. */
  lemma LeftOutMemberIsMissed(py: Numbers)
    ensures var node := Record([Optional("a", Uint), Member("b", Uint)]);
            var description := Dict([Entry(Text(Ascii("b")), Int(5))]);
            && EncodeDescription(py, node, description) == Some([0x81, 5])
            && DecodeDescription(py, node, [0x81, 5]) == None
  {
    var node := Record([Optional("a", Uint), Member("b", Uint)]);
    var description := Dict([Entry(Text(Ascii("b")), Int(5))]);
    var item := Cbor.Array([Cbor.Int(5)]);
    assert Ascii("a") != Ascii("b") by {
      AsciiDiffers("a", "b");
    }
    assert IsName(node.fields, Text(node.fields[1].name));
    assert FieldsToItems(py, node, 2, description.entries) == Some([]);
    assert Get(description.entries, Text(Ascii("b"))) == Int(5) && Get(description.entries, Text(Ascii("a"))) == Null;
    assert FieldToItem(py, node.fields[1], Int(5)) == Some(Cbor.Int(5));
    assert [Cbor.Int(5)] + [] == [Cbor.Int(5)];
    assert FieldsToItems(py, node, 1, description.entries) == Some([Cbor.Int(5)]);
    assert ToItems(py, node, description) == Some(item);
    assert Cbor.EncodeAll([Cbor.Int(5)]) == Ok([5]) by {
      assert [Cbor.Int(5)][1..] == [];
      assert [5] + [] == [5];
    }
    assert Cbor.Encode(item).value == [0x81] + [5] == [0x81, 5];
    Cbor.DecodeEncode(item, []);
    assert [0x81, 5] + [] == [0x81, 5];
    var done := [Entry(Text(node.fields[0].name), Int(5))];
    assert FieldsFromItems(py, node, 1, item.items, 1, done) == None;
    assert FieldsFromItems(py, node, 0, item.items, 0, []) == None;
    assert FromItems(py, node, item) == None;
  }
}
