/** The station fixture: a component tree whose handles are drawn from one counter. */
module Station {
  import opened Text
  import opened ObjectGraphs

  // ---------------------------------------------------------------- handles

  function Digit(d: nat): char
    requires d < 16
  {
    if d < 10 then '0' + d as char else 'a' + (d - 10) as char
  }

  /** `format(n, "x")`. */
  function Hex(n: nat): string {
    if n < 16 then [Digit(n)] else Hex(n / 16) + [Digit(n % 16)]
  }

  lemma {:induction false} HexInjective(a: nat, b: nat)
    requires Hex(a) == Hex(b)
    ensures a == b
    decreases a
  {
    HexLength(a);
    HexLength(b);
    if a >= 16 && b >= 16 {
      var (x, y) := (Hex(a), Hex(b));
      assert x[..|x| - 1] == Hex(a / 16) && y[..|y| - 1] == Hex(b / 16);
      assert x[|x| - 1] == Digit(a % 16) && y[|y| - 1] == Digit(b % 16);
      HexInjective(a / 16, b / 16);
      DigitInjective(a % 16, b % 16);
    } else if a < 16 && b < 16 {
      assert Hex(a)[0] == Digit(a) && Hex(b)[0] == Digit(b);
      DigitInjective(a, b);
    }
  }

  lemma DigitInjective(a: nat, b: nat)
    requires a < 16 && b < 16 && Digit(a) == Digit(b)
    ensures a == b
  {
  }

  lemma {:induction false} HexLength(n: nat)
    ensures |Hex(n)| >= 1 && (n >= 16 ==> |Hex(n)| >= 2)
  {
    if n >= 16 { HexLength(n / 16); }
  }

  /** Handles print in lower case, so lowering one, as the harvester does, changes nothing. */
  lemma {:induction false} HexIsLower(n: nat)
    ensures Lower(Hex(n)) == Hex(n)
  {
    if n >= 16 {
      HexIsLower(n / 16);
      var (head, last) := (Hex(n / 16), Digit(n % 16));
      assert forall i | 0 <= i < |head| :: Lower(head + [last])[i] == Lower(head)[i];
    }
  }

  // ---------------------------------------------------------------- slot names

  /** Which characters are letters and which are letters or numerals: `isalpha` and `isalnum`. */
  datatype Alphabet = Alphabet(isAlpha: char -> bool, isAlnum: char -> bool) {
    ghost predicate Valid() {
      isAlpha('P') && forall c | isAlpha(c) :: isAlnum(c)
    }

    predicate IsNameChar(c: char) { isAlnum(c) || c == '_' }

    predicate IsSlotName(s: string) {
      |s| > 0 && (isAlpha(s[0]) || s[0] == '_') && forall c | c in s :: IsNameChar(c)
    }

    /** `_slot_name`, on the names the source accepts: the empty one has no first character. */
    function SlotName(name: string): string
      requires |name| > 0
    {
      var cleaned := seq(|name|, i requires 0 <= i < |name| => if IsNameChar(name[i]) then name[i] else '_');
      if isAlpha(cleaned[0]) || cleaned[0] == '_' then cleaned else "P_" + cleaned
    }

    /** A slot name is legal, and a legal name, so any slot name, is its own slot name. */
    lemma SlotNameIsLegal(name: string)
      requires Valid() && |name| > 0
      ensures IsSlotName(SlotName(name))
      ensures IsSlotName(name) <==> SlotName(name) == name
      ensures SlotName(SlotName(name)) == SlotName(name)
    {
      var slot := SlotName(name);
      assert forall i | 0 <= i < |slot| :: IsNameChar(slot[i]);
      if IsSlotName(name) {
        assert forall i | 0 <= i < |name| :: name[i] in name;
        assert slot == name;
      }
      assert forall i | 0 <= i < |slot| :: slot[i] in slot;
      assert SlotName(slot) == slot;
    }

    /** Slot names collide: any two names that differ only in characters outside the alphabet. */
    lemma SlotNamesCollide(a: string, b: string)
      requires 0 < |a| == |b|
      requires forall i | 0 <= i < |a| :: a[i] == b[i] || (!IsNameChar(a[i]) && !IsNameChar(b[i]))
      ensures SlotName(a) == SlotName(b)
    {
      var cleaned := seq(|a|, i requires 0 <= i < |a| => if IsNameChar(a[i]) then a[i] else '_');
      assert cleaned == seq(|b|, i requires 0 <= i < |b| => if IsNameChar(b[i]) then b[i] else '_');
    }
  }

  // ---------------------------------------------------------------- the finished document

  /** `facets` is the text the unit table gives for the point's units. */
  datatype Point = Point(name: string, objectType: string, instance: string, facets: string)

  datatype Device = Device(name: string, instance: string, address: string, points: seq<Point>)

  predicate HasSuffix(s: string, suffix: string) {
    |s| >= |suffix| && s[|s| - |suffix|..] == suffix
  }

  predicate IsNumeric(p: Point) { HasPrefix(p.objectType, "analog") }

  predicate IsWritable(p: Point) { HasSuffix(p.objectType, "Output") || HasSuffix(p.objectType, "Value") }

  function PointType(p: Point): string {
    if IsNumeric(p) then if IsWritable(p) then "c:NumericWritable" else "c:NumericPoint"
    else if IsWritable(p) then "c:BooleanWritable" else "c:BooleanPoint"
  }

  function ProxyType(p: Point): string {
    if IsNumeric(p) then "bacnet:BacnetNumericProxyExt" else "bacnet:BacnetBooleanProxyExt"
  }

  function Property(attributes: map<string, string>, children: seq<nat>): Element {
    Element("p", attributes, children)
  }

  /** A component carrying the handle that follows `value` earlier ones. */
  function Component(name: string, typeSpec: string, value: nat, children: seq<nat>): Element {
    Element("p", map["n" := name, "t" := typeSpec, "h" := Hex(value + 1)], children)
  }

  function ObjectId(p: Point): Element {
    Property(map["n" := "objectId", "t" := "bacnet:BacnetObjectIdentifier", "v" := p.objectType + ":" + p.instance], [])
  }

  function PropertyId(): Element {
    Property(map["n" := "propertyId", "t" := "bacnet:BacnetPropertyIdentifier", "v" := "presentValue"], [])
  }

  function Facets(p: Point): Element {
    Property(map["n" := "facets", "t" := "b:Facets", "v" := p.facets + "|precision=i:1"], [])
  }

  function Input(): Element {
    Property(map["n" := "in16", "f" := "tsL"], [])
  }

  function Proxy(p: Point, children: seq<nat>): Element {
    Property(map["n" := "proxyExt", "t" := ProxyType(p)], children)
  }

  function ProxyRows(base: nat, p: Point): (rows: seq<Element>)
    ensures |rows| == 3
  {
    [Proxy(p, [base + 1, base + 2]), ObjectId(p), PropertyId()]
  }

  function PointChildren(base: nat, p: Point): seq<nat> {
    if IsNumeric(p) && IsWritable(p) then [base + 1, base + 4, base + 5]
    else if IsNumeric(p) || IsWritable(p) then [base + 1, base + 4]
    else [base + 1]
  }

  /** The elements of a point whose own element stands at `base`. */
  function PointRows(names: Alphabet, base: nat, value: nat, p: Point): seq<Element>
    requires |p.name| > 0
  {
    [Component(names.SlotName(p.name), PointType(p), value, PointChildren(base, p))]
    + ProxyRows(base + 1, p)
    + (if IsNumeric(p) then [Facets(p)] else []) + (if IsWritable(p) then [Input()] else [])
  }

  /** Those elements while the point has no children but its proxy extension. */
  function PointFront(names: Alphabet, base: nat, value: nat, p: Point): seq<Element>
    requires |p.name| > 0
  {
    [Component(names.SlotName(p.name), PointType(p), value, [base + 1])] + ProxyRows(base + 1, p)
  }

  predicate PointsNamed(points: seq<Point>) {
    forall k | 0 <= k < |points| :: |points[k].name| > 0
  }

  predicate DevicesNamed(devices: seq<Device>) {
    forall k | 0 <= k < |devices| :: |devices[k].name| > 0 && PointsNamed(devices[k].points)
  }

  /** The elements of the first `k` points. */
  function PointsRows(names: Alphabet, base: nat, value: nat, points: seq<Point>, k: nat): seq<Element>
    requires PointsNamed(points) && k <= |points|
  {
    if k == 0 then []
    else
      var rows := PointsRows(names, base, value, points, k - 1);
      rows + PointRows(names, base + |rows|, value + k - 1, points[k - 1])
  }

  /** Where the points' own elements stand. */
  function PointsAt(names: Alphabet, base: nat, value: nat, points: seq<Point>, k: nat): seq<nat>
    requires PointsNamed(points) && k <= |points|
  {
    if k == 0 then []
    else
      PointsAt(names, base, value, points, k - 1) + [base + |PointsRows(names, base, value, points, k - 1)|]
  }

  function Address(device: Device): Element {
    Property(map["n" := "address", "t" := "bacnet:BacnetAddress", "v" := device.address], [])
  }

  function DeviceId(device: Device): Element {
    Property(map["n" := "objectId", "t" := "bacnet:BacnetObjectIdentifier", "v" := "device:" + device.instance], [])
  }

  function DeviceFront(names: Alphabet, base: nat, value: nat, device: Device, points: seq<nat>): seq<Element>
    requires |device.name| > 0
  {
    [Component(names.SlotName(device.name), "bacnet:BacnetDevice", value, [base + 1, base + 2, base + 4]),
     Address(device),
     Component("config", "bacnet:BacnetDeviceConfig", value + 1, [base + 3]),
     DeviceId(device),
     Component("points", "bacnet:BacnetPointDeviceExt", value + 2, points)]
  }

  /** A device before its points: its own element, its address and its configuration. */
  function DeviceHead(names: Alphabet, base: nat, value: nat, device: Device): seq<Element>
    requires |device.name| > 0
  {
    [Component(names.SlotName(device.name), "bacnet:BacnetDevice", value, [base + 1, base + 2]),
     Address(device),
     Component("config", "bacnet:BacnetDeviceConfig", value + 1, [base + 3]),
     DeviceId(device)]
  }

  /** A device with its first `k` points. */
  function DeviceRows(names: Alphabet, base: nat, value: nat, device: Device, k: nat): (rows: seq<Element>)
    requires |device.name| > 0 && PointsNamed(device.points) && k <= |device.points|
    ensures |rows| > 4
  {
    DeviceFront(names, base, value, device, PointsAt(names, base + 5, value + 3, device.points, k))
    + PointsRows(names, base + 5, value + 3, device.points, k)
  }

  /** How many handles the first `k` devices take: three a device, one a point. */
  function HandlesOf(devices: seq<Device>, k: nat): nat
    requires k <= |devices|
  {
    if k == 0 then 0 else HandlesOf(devices, k - 1) + 3 + |devices[k - 1].points|
  }

  function DevicesRows(names: Alphabet, base: nat, value: nat, devices: seq<Device>, k: nat): seq<Element>
    requires DevicesNamed(devices) && k <= |devices|
  {
    if k == 0 then []
    else
      var rows := DevicesRows(names, base, value, devices, k - 1);
      var device := devices[k - 1];
      rows + DeviceRows(names, base + |rows|, value + HandlesOf(devices, k - 1), device, |device.points|)
  }

  function DevicesAt(names: Alphabet, base: nat, value: nat, devices: seq<Device>, k: nat): seq<nat>
    requires DevicesNamed(devices) && k <= |devices|
  {
    if k == 0 then []
    else
      DevicesAt(names, base, value, devices, k - 1) + [base + |DevicesRows(names, base, value, devices, k - 1)|]
  }

  function Root(children: seq<nat>): Element {
    Element("bajaObjectGraph",
      map["version" := "4.0", "reversibleEncodingKeySource" := "none", "FIPSEnabled" := "false"], children)
  }

  function StationElement(children: seq<nat>): Element {
    Property(map["m" := "b=baja c=control d=driver bacnet=bacnet", "t" := "b:Station", "h" := Hex(1)], children)
  }

  function Notes(): Element {
    Property(map["n" := "Notes", "t" := "b:WsTextBlock", "v" := "fixture"], [])
  }

  /** The elements before the devices, given what stands under the station and under the network. */
  function Front(underStation: seq<nat>, underNetwork: seq<nat>): Document {
    [Root([1]),
     StationElement(underStation),
     Component("Services", "b:ServiceContainer", 1, [3]),
     Notes(),
     Component("Drivers", "d:DriverContainer", 2, [5]),
     Component("BacnetNetwork", "bacnet:BacnetNetwork", 3, underNetwork)]
  }

  /** The document as far as device `k`. */
  function StationFront(names: Alphabet, devices: seq<Device>, k: nat): (doc: Document)
    requires DevicesNamed(devices) && k <= |devices|
    ensures |doc| > 5
  {
    Front([2, 4], DevicesAt(names, 6, 4, devices, k)) + DevicesRows(names, 6, 4, devices, k)
  }

  /** The whole document, every element in document order. */
  function StationRows(names: Alphabet, devices: seq<Device>): Document
    requires DevicesNamed(devices)
  {
    var n := |devices|;
    var rows := DevicesRows(names, 6, 4, devices, n);
    Front([2, 4, 6 + |rows|], DevicesAt(names, 6, 4, devices, n)) + rows
    + [Component("Apps", "b:Folder", 4 + HandlesOf(devices, n), [])]
  }

  // ---------------------------------------------------------------- building it in place

  /** The handles of a document, in document order. */
  function HandleList(doc: Document): seq<string> {
    if |doc| == 0 then []
    else
      var last := doc[|doc| - 1];
      HandleList(doc[..|doc| - 1]) + if "h" in last.attributes then [last.attributes["h"]] else []
  }

  /** The first `n` handles the counter gives. */
  function Numbered(n: nat): seq<string> {
    seq(n, i requires 0 <= i < n => Hex(i + 1))
  }

  /** Handles are only put on typed elements. */
  predicate HandlesTyped(doc: Document) {
    forall i | 0 <= i < |doc| :: "h" in doc[i].attributes ==> IsTyped(doc[i])
  }

  /** The handles `1`, `2`, … `value` stand on the document's elements, each on one, in order. */
  ghost predicate Handled(doc: Document, value: nat) {
    HandleList(doc) == Numbered(value) && HandlesTyped(doc)
  }

  function AddChildren(doc: Document, parent: nat, children: seq<nat>): (grown: Document)
    requires parent < |doc|
    ensures |grown| == |doc|
  {
    doc[parent := doc[parent].(children := doc[parent].children + children)]
  }

  /** Growing a document under element `k` of its newest part leaves the older part alone. */
  lemma AppendUnder(head: Document, rows: seq<Element>, k: nat, children: seq<nat>, more: seq<Element>)
    requires k < |rows| && children == rows[k].children + [|head| + |rows|]
    ensures AddChildren(head + rows, |head| + k, [|head| + |rows|]) + more
         == head + (rows[k := rows[k].(children := children)] + more)
  {
  }

  lemma AppendAt(rows: Document, k: nat, children: seq<nat>, more: seq<Element>)
    requires k < |rows| && children == rows[k].children + [|rows|]
    ensures AddChildren(rows, k, [|rows|]) + more == rows[k := rows[k].(children := children)] + more
  {
  }

  lemma DeviceRowsGrow(names: Alphabet, base: nat, value: nat, device: Device, k: nat)
    requires |device.name| > 0 && PointsNamed(device.points) && k < |device.points|
    ensures
      var rows := DeviceRows(names, base, value, device, k);
      DeviceRows(names, base, value, device, k + 1)
      == rows[4 := rows[4].(children := rows[4].children + [base + |rows|])]
         + PointRows(names, base + |rows|, value + 3 + k, device.points[k])
  {
    hide PointRows, Hex, Alphabet.SlotName;
    assert base + 5 + |PointsRows(names, base + 5, value + 3, device.points, k)|
        == base + |DeviceRows(names, base, value, device, k)|;
  }

  lemma DeviceRowsStart(names: Alphabet, base: nat, value: nat, device: Device)
    requires |device.name| > 0 && PointsNamed(device.points)
    ensures DeviceRows(names, base, value, device, 0) == DeviceFront(names, base, value, device, [])
  {
  }

  lemma StationFrontEmpty(names: Alphabet, devices: seq<Device>)
    requires DevicesNamed(devices)
    ensures StationFront(names, devices, 0) == Front([2, 4], [])
  {
  }

  lemma StationFrontGrow(names: Alphabet, devices: seq<Device>, k: nat)
    requires DevicesNamed(devices) && k < |devices|
    ensures
      var front := StationFront(names, devices, k);
      StationFront(names, devices, k + 1)
      == AddChildren(front, 5, [|front|])
         + DeviceRows(names, |front|, 4 + HandlesOf(devices, k), devices[k], |devices[k].points|)
  {
    hide DeviceRows, AddChildren, PointsNamed;
    var front := StationFront(names, devices, k);
    AppendAt(front, 5, DevicesAt(names, 6, 4, devices, k + 1),
      DeviceRows(names, |front|, 4 + HandlesOf(devices, k), devices[k], |devices[k].points|));
  }

  lemma StationRowsFinish(names: Alphabet, devices: seq<Device>)
    requires DevicesNamed(devices)
    ensures
      var front := StationFront(names, devices, |devices|);
      StationRows(names, devices)
      == AddChildren(front, 1, [|front|]) + [Component("Apps", "b:Folder", 4 + HandlesOf(devices, |devices|), [])]
  {
    hide AddChildren, DevicesRows, DevicesAt, DevicesNamed, HandlesOf;
    var front := StationFront(names, devices, |devices|);
    AppendAt(front, 1, [2, 4, |front|], [Component("Apps", "b:Folder", 4 + HandlesOf(devices, |devices|), [])]);
  }

  lemma NotTheHandle()
    ensures "h" != "n" && "h" != "t" && "h" != "v" && "h" != "f" && "h" != "m"
  {
    assert "h"[0] != "n"[0] && "h"[0] != "t"[0] && "h"[0] != "v"[0] && "h"[0] != "f"[0] && "h"[0] != "m"[0];
  }

  class Builder {
    const names: Alphabet
    var doc: Document
    var value: nat

    constructor (names: Alphabet)
      ensures this.names == names && doc == [Root([])] && value == 0 && Handled(doc, value)
    {
      this.names := names;
      doc := [Root([])];
      value := 0;
      new;
      assert doc[..0] == [];
      assert "h" !in Root([]).attributes by { assert |"h"| == 1; }
    }

    /** `SubElement`: a new last element, under `parent`. */
    method SubElement(parent: nat, attributes: map<string, string>) returns (id: nat)
      requires parent < |doc|
      modifies this`doc
      ensures id == |old(doc)|
      ensures doc == AddChildren(old(doc), parent, [id]) + [Property(attributes, [])]
      ensures "h" !in attributes && Handled(old(doc), value) ==> Handled(doc, value)
    {
      id := |doc|;
      doc := AddChildren(doc, parent, [id]) + [Property(attributes, [])];
      ChildrenKeepHandles(old(doc), parent, [id]);
      assert doc[..id] == AddChildren(old(doc), parent, [id]);
    }

    /** A component: `SubElement` with the next handle. */
    method AddComponent(parent: nat, attributes: map<string, string>) returns (id: nat)
      requires parent < |doc| && "t" in attributes
      modifies this
      ensures id == |old(doc)| && value == old(value) + 1
      ensures doc == AddChildren(old(doc), parent, [id]) + [Property(attributes["h" := Hex(value)], [])]
      ensures Handled(old(doc), old(value)) ==> Handled(doc, value)
    {
      value := value + 1;
      id := |doc|;
      doc := AddChildren(doc, parent, [id]) + [Property(attributes["h" := Hex(value)], [])];
      ChildrenKeepHandles(old(doc), parent, [id]);
      assert doc[..id] == AddChildren(old(doc), parent, [id]);
      assert Numbered(value) == Numbered(value - 1) + [Hex(value)];
    }

    /** The proxy extension of a point, with the object and the property it stands for. */
    method AddProxy(point: nat, p: Point, proxyType: string)
      requires point < |doc| && proxyType == ProxyType(p)
      modifies this`doc
      ensures doc == AddChildren(old(doc), point, [|old(doc)|]) + ProxyRows(|old(doc)|, p)
      ensures Handled(old(doc), value) ==> Handled(doc, value)
    {
      NotTheHandle();
      hide AddChildren, Handled, ProxyType;
      ghost var b := |doc|;
      ghost var head := AddChildren(doc, point, [b]);
      var proxy := SubElement(point, map["n" := "proxyExt", "t" := proxyType]);
      ghost var rows := [Proxy(p, [])];
      assert doc == head + rows;
      var _ := SubElement(proxy,
        map["n" := "objectId", "t" := "bacnet:BacnetObjectIdentifier", "v" := p.objectType + ":" + p.instance]);
      AppendUnder(head, rows, 0, [b + 1], [ObjectId(p)]);
      rows := [Proxy(p, [b + 1]), ObjectId(p)];
      assert doc == head + rows;
      var _ := SubElement(proxy,
        map["n" := "propertyId", "t" := "bacnet:BacnetPropertyIdentifier", "v" := "presentValue"]);
      AppendUnder(head, rows, 0, [b + 1, b + 2], [PropertyId()]);
      assert doc == head + ProxyRows(b, p);
    }

    /** The names the turn below starts with. */
    static method TypeNames(p: Point) returns (numeric: bool, writable: bool, typeSpec: string, proxyType: string)
      ensures numeric == IsNumeric(p) && writable == IsWritable(p)
      ensures typeSpec == PointType(p) && proxyType == ProxyType(p)
    {
      numeric := HasPrefix(p.objectType, "analog");
      writable := HasSuffix(p.objectType, "Output") || HasSuffix(p.objectType, "Value");
      assert numeric == IsNumeric(p) && writable == IsWritable(p);
      hide HasPrefix, HasSuffix, IsNumeric, IsWritable;
      if numeric {
        typeSpec := if writable then "c:NumericWritable" else "c:NumericPoint";
        proxyType := "bacnet:BacnetNumericProxyExt";
      } else {
        typeSpec := if writable then "c:BooleanWritable" else "c:BooleanPoint";
        proxyType := "bacnet:BacnetBooleanProxyExt";
      }
    }

    /** The point and its proxy extension. */
    method AddPointFront(extension: nat, p: Point, typeSpec: string, proxyType: string) returns (point: nat)
      requires extension < |doc| && |p.name| > 0 && typeSpec == PointType(p) && proxyType == ProxyType(p)
      modifies this
      ensures point == |old(doc)| && value == old(value) + 1
      ensures doc == AddChildren(old(doc), extension, [|old(doc)|]) + PointFront(names, |old(doc)|, old(value), p)
      ensures Handled(old(doc), old(value)) ==> Handled(doc, value)
    {
      hide AddChildren, Handled, Alphabet.SlotName, Hex, ProxyRows, PointType, ProxyType;
      ghost var (v, b) := (value, |doc|);
      ghost var head := AddChildren(doc, extension, [b]);
      point := AddComponent(extension, map["n" := names.SlotName(p.name), "t" := typeSpec]);
      ghost var rows := [Component(names.SlotName(p.name), typeSpec, v, [])];
      assert doc == head + rows;
      AddProxy(point, p, proxyType);
      AppendUnder(head, rows, 0, [b + 1], ProxyRows(b + 1, p));
      assert doc == head + PointFront(names, b, v, p);
    }

    /** One turn of the loop over a device's points. */
    method AddPoint(extension: nat, p: Point)
      requires extension < |doc| && |p.name| > 0
      modifies this
      ensures value == old(value) + 1
      ensures doc == AddChildren(old(doc), extension, [|old(doc)|]) + PointRows(names, |old(doc)|, old(value), p)
      ensures Handled(old(doc), old(value)) ==> Handled(doc, value)
    {
      NotTheHandle();
      hide AddChildren, Handled, Alphabet.SlotName, Hex, IsNumeric, IsWritable, PointType, ProxyType;
      var numeric, writable, typeSpec, proxyType := TypeNames(p);
      ghost var (v, b) := (value, |doc|);
      ghost var head := AddChildren(doc, extension, [b]);
      var point := AddPointFront(extension, p, typeSpec, proxyType);
      ghost var rows := PointFront(names, b, v, p);
      if numeric {
        var _ := SubElement(point, map["n" := "facets", "t" := "b:Facets", "v" := p.facets + "|precision=i:1"]);
        AppendUnder(head, rows, 0, [b + 1, b + 4], [Facets(p)]);
        rows := [Component(names.SlotName(p.name), typeSpec, v, [b + 1, b + 4])] + ProxyRows(b + 1, p) + [Facets(p)];
        assert doc == head + rows;
      }
      if writable {
        var _ := SubElement(point, map["n" := "in16", "f" := "tsL"]);
        AppendUnder(head, rows, 0, PointChildren(b, p), [Input()]);
        rows := rows[0 := Component(names.SlotName(p.name), typeSpec, v, PointChildren(b, p))] + [Input()];
        assert doc == head + rows;
      }
      assert rows == PointRows(names, b, v, p);
    }

    /** `_device`: the device, its address, configuration and points. */
    method AddDevice(parent: nat, device: Device)
      requires parent < |doc| && |device.name| > 0 && PointsNamed(device.points)
      modifies this
      ensures value == old(value) + 3 + |device.points|
      ensures doc == AddChildren(old(doc), parent, [|old(doc)|])
          + DeviceRows(names, |old(doc)|, old(value), device, |device.points|)
      ensures Handled(old(doc), old(value)) ==> Handled(doc, value)
    {
      hide AddChildren, Handled, Alphabet.SlotName, Hex, PointRows, PointsRows, PointsAt, DeviceRows;
      ghost var (v, b) := (value, |doc|);
      ghost var head := AddChildren(doc, parent, [b]);
      var extension := AddDeviceFront(parent, device);
      for k := 0 to |device.points|
        invariant value == v + 3 + k
        invariant doc == head + DeviceRows(names, b, v, device, k)
        invariant Handled(old(doc), old(value)) ==> Handled(doc, value)
      {
        ghost var rows := DeviceRows(names, b, v, device, k);
        DeviceRowsGrow(names, b, v, device, k);
        AppendUnder(head, rows, 4, rows[4].children + [b + |rows|],
          PointRows(names, b + |rows|, v + 3 + k, device.points[k]));
        AddPoint(extension, device.points[k]);
      }
    }

    /** The device, its address, its configuration and its still empty list of points. */
    method AddDeviceFront(parent: nat, device: Device) returns (extension: nat)
      requires parent < |doc| && |device.name| > 0 && PointsNamed(device.points)
      modifies this
      ensures extension == |old(doc)| + 4 && value == old(value) + 3
      ensures doc == AddChildren(old(doc), parent, [|old(doc)|])
                     + DeviceRows(names, |old(doc)|, old(value), device, 0)
      ensures Handled(old(doc), old(value)) ==> Handled(doc, value)
    {
      NotTheHandle();
      hide AddChildren, Handled, Alphabet.SlotName, Hex;
      ghost var (v, b) := (value, |doc|);
      ghost var head := AddChildren(doc, parent, [b]);
      var root := AddDeviceHead(parent, device);
      extension := AddComponent(root, map["n" := "points", "t" := "bacnet:BacnetPointDeviceExt"]);
      AppendUnder(head, DeviceHead(names, b, v, device), 0, [b + 1, b + 2, b + 4],
          [Component("points", "bacnet:BacnetPointDeviceExt", v + 2, [])]);
      DeviceRowsStart(names, b, v, device);
      assert doc == head + DeviceFront(names, b, v, device, []);
    }

    /** The device, its address and its configuration. */
    method AddDeviceHead(parent: nat, device: Device) returns (root: nat)
      requires parent < |doc| && |device.name| > 0
      modifies this
      ensures root == |old(doc)| && value == old(value) + 2
      ensures doc == AddChildren(old(doc), parent, [|old(doc)|]) + DeviceHead(names, |old(doc)|, old(value), device)
      ensures Handled(old(doc), old(value)) ==> Handled(doc, value)
    {
      NotTheHandle();
      hide AddChildren, Handled, Alphabet.SlotName, Hex;
      ghost var (v, b, n) := (value, |doc|, names.SlotName(device.name));
      ghost var head := AddChildren(doc, parent, [b]);
      root := AddComponent(parent, map["n" := names.SlotName(device.name), "t" := "bacnet:BacnetDevice"]);
      ghost var rows := [Component(n, "bacnet:BacnetDevice", v, [])];
      assert doc == head + rows;
      var _ := SubElement(root, map["n" := "address", "t" := "bacnet:BacnetAddress", "v" := device.address]);
      AppendUnder(head, rows, 0, [b + 1], [Address(device)]);
      rows := [Component(n, "bacnet:BacnetDevice", v, [b + 1]), Address(device)];
      assert doc == head + rows;
      var config := AddComponent(root, map["n" := "config", "t" := "bacnet:BacnetDeviceConfig"]);
      AppendUnder(head, rows, 0, [b + 1, b + 2], [Component("config", "bacnet:BacnetDeviceConfig", v + 1, [])]);
      rows := [Component(n, "bacnet:BacnetDevice", v, [b + 1, b + 2]), Address(device),
               Component("config", "bacnet:BacnetDeviceConfig", v + 1, [])];
      assert doc == head + rows;
      var _ := SubElement(config,
        map["n" := "objectId", "t" := "bacnet:BacnetObjectIdentifier", "v" := "device:" + device.instance]);
      AppendUnder(head, rows, 2, [b + 3], [DeviceId(device)]);
      assert doc == head + DeviceHead(names, b, v, device);
    }

    /** `build`, for any list of devices. */
    method Build(devices: seq<Device>)
      requires doc == [Root([])] && value == 0 && Handled(doc, value) && DevicesNamed(devices)
      modifies this
      ensures value == 5 + HandlesOf(devices, |devices|)
      ensures doc == StationRows(names, devices)
      ensures Handled(doc, value)
    {
      hide Handled, Hex, DeviceRows, DevicesRows, DevicesAt, AddChildren, StationRows, StationFront;
      var station, network := AddFront();
      StationFrontEmpty(names, devices);
      for k := 0 to |devices|
        invariant value == 4 + HandlesOf(devices, k) && Handled(doc, value)
        invariant doc == StationFront(names, devices, k)
      {
        StationFrontGrow(names, devices, k);
        AddDevice(network, devices[k]);
      }
      StationRowsFinish(names, devices);
      var _ := AddComponent(station, map["n" := "Apps", "t" := "b:Folder"]);
    }

    /** The station, its services, drivers and network. */
    method AddFront() returns (station: nat, network: nat)
      requires doc == [Root([])] && value == 0 && Handled(doc, value)
      modifies this
      ensures station == 1 && network == 5 && value == 4 && Handled(doc, value)
      ensures doc == Front([2, 4], [])
    {
      NotTheHandle();
      hide Handled, Hex, AddChildren;
      station := AddComponent(0, map["m" := "b=baja c=control d=driver bacnet=bacnet", "t" := "b:Station"]);
      AppendAt([Root([])], 0, [1], [StationElement([])]);
      ghost var rows := [Root([1]), StationElement([])];
      assert doc == rows;
      var services := AddComponent(station, map["n" := "Services", "t" := "b:ServiceContainer"]);
      AppendAt(rows, 1, [2], [Component("Services", "b:ServiceContainer", 1, [])]);
      rows := [Root([1]), StationElement([2]), Component("Services", "b:ServiceContainer", 1, [])];
      assert doc == rows;
      var _ := SubElement(services, map["n" := "Notes", "t" := "b:WsTextBlock", "v" := "fixture"]);
      AppendAt(rows, 2, [3], [Notes()]);
      rows := [rows[0], rows[1], Component("Services", "b:ServiceContainer", 1, [3]), Notes()];
      assert doc == rows;
      var drivers := AddComponent(station, map["n" := "Drivers", "t" := "d:DriverContainer"]);
      AppendAt(rows, 1, [2, 4], [Component("Drivers", "d:DriverContainer", 2, [])]);
      rows := [rows[0], StationElement([2, 4]), rows[2], rows[3], Component("Drivers", "d:DriverContainer", 2, [])];
      assert doc == rows;
      network := AddComponent(drivers, map["n" := "BacnetNetwork", "t" := "bacnet:BacnetNetwork"]);
      AppendAt(rows, 4, [5], [Component("BacnetNetwork", "bacnet:BacnetNetwork", 3, [])]);
      assert doc == Front([2, 4], []);
    }
  }

  lemma {:induction false} ChildrenKeepHandles(doc: Document, parent: nat, children: seq<nat>)
    requires parent < |doc|
    ensures HandleList(AddChildren(doc, parent, children)) == HandleList(doc)
    decreases |doc|
  {
    var init := doc[..|doc| - 1];
    if parent < |init| {
      ChildrenKeepHandles(init, parent, children);
      assert AddChildren(doc, parent, children)[..|doc| - 1] == AddChildren(init, parent, children);
    } else {
      assert AddChildren(doc, parent, children)[..|doc| - 1] == init;
    }
  }

  // ---------------------------------------------------------------- what the handles are for

  /** The handle of element `i` is the one numbered by the handles before it. */
  lemma {:induction false} HandleAt(doc: Document, i: nat)
    requires i < |doc| && "h" in doc[i].attributes
    ensures |HandleList(doc[..i])| < |HandleList(doc)|
    ensures HandleList(doc)[|HandleList(doc[..i])|] == doc[i].attributes["h"]
    decreases |doc|
  {
    var init := doc[..|doc| - 1];
    if i < |init| {
      HandleAt(init, i);
      assert init[..i] == doc[..i];
    }
  }

  /** Handles tell elements apart, in lower case too. */
  lemma HandlesAreDistinct(doc: Document, value: nat, i: nat, j: nat)
    requires Handled(doc, value)
    requires i < j < |doc| && "h" in doc[i].attributes && "h" in doc[j].attributes
    ensures Lower(doc[i].attributes["h"]) != Lower(doc[j].attributes["h"])
  {
    var (a, b) := (|HandleList(doc[..i])|, |HandleList(doc[..j])|);
    HandleAt(doc, i);
    HandleAt(doc, j);
    HandleAt(doc[..j], i);
    assert doc[..j][..i] == doc[..i];
    assert a < b;
    HexIsLower(a + 1);
    HexIsLower(b + 1);
    if Hex(a + 1) == Hex(b + 1) { HexInjective(a + 1, b + 1); }
  }

  /** So the harvester's handle table finds every component of the fixture under its own type. */
  lemma {:induction false} HandlesResolve(doc: Document, value: nat, i: nat, n: nat)
    requires Handled(doc, value) && i < n <= |doc| && "h" in doc[i].attributes
    ensures Key(doc, i).Some?
    ensures Lower(doc[i].attributes["h"]) in Handles(doc, n)
    ensures Handles(doc, n)[Lower(doc[i].attributes["h"])] == Key(doc, i).value
    decreases n
  {
    if i < n - 1 {
      HandlesResolve(doc, value, i, n - 1);
      if "h" in doc[n - 1].attributes { HandlesAreDistinct(doc, value, i, n - 1); }
    }
  }
}
