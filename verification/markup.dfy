/**
  The markup events handed to the frontend: a single self-closing `<device …/>`
  element per event. A small attribute parser is the partner of the
  formatters: it reads the attributes back, in order, whenever no value holds
  a double quote.
 */
module Markup {
  import opened Wrappers
  import opened Bluez

  /** deviceAddedEvent. */
  function DeviceAddedEvent(device: Device): string {
    "<device id=\"" + device.address + "\" name=\"" + device.name + "\" status=\"added\" type=\"device\" />"
  }

  /** deviceRemovedEvent. */
  function DeviceRemovedEvent(device: Device): string {
    "<device id=\"" + device.address + "\" name=\"" + device.name + "\" status=\"removed\" type=\"device\" />"
  }

  /** `Connected` read as a bool; a missing key reads as false. */
  function ConnectedFlag(properties: PropertyMap): Result<bool, Fault> {
    if "Connected" in properties then GetBool(properties["Connected"]) else Ok(false)
  }

  /** `Class` read as a uint32 when present. */
  function ClassCode(properties: PropertyMap): Result<Option<uint32>, Fault> {
    if "Class" in properties then
      match GetUint32(properties["Class"])
      case Err(e) => Err(e)
      case Ok(c) => Ok(Some(c))
    else Ok(None)
  }

  /** The fixed two-entry class table: gamepad class codes give "joystick". */
  function DeviceType(deviceClass: Option<uint32>): (r: string)
    ensures r == "joystick" <==> deviceClass == Some(0x002508) || deviceClass == Some(0x000508)
    ensures r != "joystick" ==> r == ""
    ensures deviceClass.None? ==> r == ""
  {
    if deviceClass == Some(0x002508) || deviceClass == Some(0x000508) then "joystick" else ""
  }

  /** deviceEvent: the status element of a paired device. */
  function DeviceEvent(properties: PropertyMap): (r: Result<string, Fault>)
    ensures r.Ok? <==>
      && ExtractDevice(properties).Ok?
      && ("Connected" in properties ==> properties["Connected"].BoolValue?)
      && ("Class" in properties ==> properties["Class"].Uint32Value?)
    ensures r.Err? ==> r.error == BusError
  {
    match ExtractDevice(properties)
    case Err(e) => Err(e)
    case Ok(device) =>
      match ConnectedFlag(properties)
      case Err(e) => Err(e)
      case Ok(connected) =>
        match ClassCode(properties)
        case Err(e) => Err(e)
        case Ok(deviceClass) =>
          Ok("<device id=\"" + device.address + "\" name=\"" + device.name
             + "\" type=\"" + DeviceType(deviceClass)
             + "\" connected=\"" + (if connected then "yes" else "no") + "\" />")
  }

  // ---------------------------------------------------------------------
  // Reading the markup back

  datatype Attribute = Attribute(key: string, value: string)

  /** ` key="value"`. */
  function AttributeText(a: Attribute): string {
    " " + a.key + "=\"" + a.value + "\""
  }

  /** Each attribute's text, in order, followed by `closing`. */
  function Attributes(attrs: seq<Attribute>, closing: string): string {
    if attrs == [] then closing else AttributeText(attrs[0]) + Attributes(attrs[1..], closing)
  }

  /** A self-closing `device` element with these attributes. */
  function Element(attrs: seq<Attribute>): string {
    "<device" + Attributes(attrs, " />")
  }

  /** Splits at the first `c`: the part before it and the part after it. */
  function Split(s: string, c: char): (r: Option<(string, string)>)
    ensures r.Some? ==> s == r.value.0 + [c] + r.value.1 && c !in r.value.0
    ensures r.None? ==> c !in s
  {
    if s == [] then None
    else if s[0] == c then Some(([], s[1..]))
    else
      match Split(s[1..], c)
      case None => None
      case Some((before, after)) => Some(([s[0]] + before, after))
  }

  function ParseAttributes(s: string): Option<seq<Attribute>>
    decreases |s|
  {
    if s == " />" then Some([])
    else if |s| == 0 || s[0] != ' ' then None
    else
      match Split(s[1..], '=')
      case None => None
      case Some((key, afterKey)) =>
        if |afterKey| == 0 || afterKey[0] != '"' then None
        else
          match Split(afterKey[1..], '"')
          case None => None
          case Some((value, rest)) =>
            match ParseAttributes(rest)
            case None => None
            case Some(more) => Some([Attribute(key, value)] + more)
  }

  function ParseElement(s: string): Option<seq<Attribute>> {
    if |s| >= 7 && s[..7] == "<device" then ParseAttributes(s[7..]) else None
  }

  /** Keys without `=` and values without `"`: what the parser can delimit. */
  predicate Plain(attrs: seq<Attribute>) {
    forall i :: 0 <= i < |attrs| ==> '=' !in attrs[i].key && '"' !in attrs[i].value
  }

  lemma {:induction false} SplitFirst(before: string, c: char, after: string)
    requires c !in before
    ensures Split(before + [c] + after, c) == Some((before, after))
  {
    if before != [] {
      assert (before + [c] + after)[1..] == before[1..] + [c] + after;
      SplitFirst(before[1..], c, after);
      assert [before[0]] + before[1..] == before;
    }
  }

  /** The parser reads one attribute's text and continues with what follows it. */
  lemma ParseOneAttribute(a: Attribute, tail: string)
    requires '=' !in a.key && '"' !in a.value
    ensures ParseAttributes(AttributeText(a) + tail) ==
      match ParseAttributes(tail)
      case None => None
      case Some(more) => Some([a] + more)
  {
    var s := AttributeText(a) + tail;
    var afterKey := ['"'] + a.value + ['"'] + tail;
    assert s == [' '] + (a.key + ['='] + afterKey);
    assert s[1..] == a.key + ['='] + afterKey;
    SplitFirst(a.key, '=', afterKey);
    assert afterKey[1..] == a.value + ['"'] + tail;
    SplitFirst(a.value, '"', tail);
    assert |s| > 3;
  }

  lemma {:induction false} ParseAttributesRoundTrip(attrs: seq<Attribute>)
    requires Plain(attrs)
    ensures ParseAttributes(Attributes(attrs, " />")) == Some(attrs)
  {
    if attrs != [] {
      var tail := Attributes(attrs[1..], " />");
      assert Plain(attrs[1..]) by {
        forall i | 0 <= i < |attrs[1..]|
          ensures '=' !in attrs[1..][i].key && '"' !in attrs[1..][i].value
        {
          assert attrs[1..][i] == attrs[i + 1];
        }
      }
      ParseAttributesRoundTrip(attrs[1..]);
      ParseOneAttribute(attrs[0], tail);
      assert [attrs[0]] + attrs[1..] == attrs;
    }
  }

  /** Reading an element back gives its attributes, in order. */
  lemma ParseElementRoundTrip(attrs: seq<Attribute>)
    requires Plain(attrs)
    ensures ParseElement(Element(attrs)) == Some(attrs)
  {
    var s := Element(attrs);
    assert s[..7] == "<device";
    assert s[7..] == Attributes(attrs, " />");
    ParseAttributesRoundTrip(attrs);
  }

  /** Attributes of an added or removed event, in wire order. */
  function StatusAttributes(device: Device, status: string): seq<Attribute> {
    [Attribute("id", device.address), Attribute("name", device.name),
     Attribute("status", status), Attribute("type", "device")]
  }

  /** An attribute list read from the front: its first attribute, then the rest. */
  lemma AttributesCons(a: Attribute, rest: seq<Attribute>, closing: string)
    ensures Attributes([a] + rest, closing) == AttributeText(a) + Attributes(rest, closing)
  {
    assert ([a] + rest)[1..] == rest;
  }

  /** Regrouping of the concatenation that both formatters share. */
  lemma Regroup(a: string, b: string, x: string, c: string, d: string, y: string, e: string, t: string)
    ensures a + (b + x + c + (d + y + e + t)) == (a + b) + x + (c + d) + y + (e + t)
  {
  }

  /**
    An element that opens with id and name and continues with `closing`,
    the closing quote of name followed by the text of the attributes `rest`.
   */
  lemma IdNameShape(device: Device, rest: seq<Attribute>, closing: string)
    requires closing == "\"" + Attributes(rest, " />")
    ensures "<device id=\"" + device.address + "\" name=\"" + device.name + closing
      == Element([Attribute("id", device.address), Attribute("name", device.name)] + rest)
  {
    var tail := Attributes(rest, " />");
    var id, name := Attribute("id", device.address), Attribute("name", device.name);
    var t1 := " name=\"" + device.name + "\"" + tail;
    assert Attributes([name] + rest, " />") == t1 by {
      AttributesCons(name, rest, " />");
    }
    assert Attributes([id, name] + rest, " />") == " id=\"" + device.address + "\"" + t1 by {
      AttributesCons(id, [name] + rest, " />");
      assert [id] + ([name] + rest) == [id, name] + rest;
    }
    assert "<device" + " id=\"" == "<device id=\"";
    assert "\"" + " name=\"" == "\" name=\"";
    Regroup("<device", " id=\"", device.address, "\"", " name=\"", device.name, "\"", tail);
  }

  /** The closing quote of name, then the status and type attributes. */
  lemma StatusTail(status: string)
    ensures "\"" + Attributes([Attribute("status", status), Attribute("type", "device")], " />")
      == "\" status=\"" + status + "\" type=\"device\" />"
  {
    var state, kind := Attribute("status", status), Attribute("type", "device");
    AttributesCons(kind, [], " />");
    AttributesCons(state, [kind], " />");
    assert [state] + [kind] == [state, kind];
  }

  /** The status and type attributes of an added event. */
  function AddedTail(): seq<Attribute> {
    [Attribute("status", "added"), Attribute("type", "device")]
  }

  /** The status and type attributes of a removed event. */
  function RemovedTail(): seq<Attribute> {
    [Attribute("status", "removed"), Attribute("type", "device")]
  }

  /** The closing text of the added event is that of its status and type attributes. */
  lemma AddedClosing()
    ensures "\" status=\"added\" type=\"device\" />" == "\"" + Attributes(AddedTail(), " />")
  {
    StatusTail("added");
  }

  /** The closing text of the removed event is that of its status and type attributes. */
  lemma RemovedClosing()
    ensures "\" status=\"removed\" type=\"device\" />" == "\"" + Attributes(RemovedTail(), " />")
  {
    StatusTail("removed");
  }

  /**
    deviceAddedEvent is the `device` element with attributes id, name,
    status="added" and type="device", in that order.
   */
  lemma AddedEventShape(device: Device)
    ensures DeviceAddedEvent(device) == Element(StatusAttributes(device, "added"))
  {
    AddedClosing();
    assert StatusAttributes(device, "added")
      == [Attribute("id", device.address), Attribute("name", device.name)] + AddedTail();
    IdNameShape(device, AddedTail(), "\" status=\"added\" type=\"device\" />");
  }

  /** deviceRemovedEvent is the same element with status="removed". */
  lemma RemovedEventShape(device: Device)
    ensures DeviceRemovedEvent(device) == Element(StatusAttributes(device, "removed"))
  {
    RemovedClosing();
    assert StatusAttributes(device, "removed")
      == [Attribute("id", device.address), Attribute("name", device.name)] + RemovedTail();
    IdNameShape(device, RemovedTail(), "\" status=\"removed\" type=\"device\" />");
  }

  /** The fixed keys hold no `=`; the status values and "device" no `"`. */
  lemma PlainStatusAttributes(device: Device, status: string)
    requires '"' !in device.address && '"' !in device.name
    requires status in {"added", "removed"}
    ensures Plain(StatusAttributes(device, status))
  {
    var attrs := StatusAttributes(device, status);
    assert '=' !in attrs[0].key && '=' !in attrs[1].key;
    assert '=' !in attrs[2].key && '=' !in attrs[3].key;
    assert '"' !in status && '"' !in "device";
  }

  /**
    An added event carries exactly id, name, status="added", type="device",
    in that order, provided neither field holds a double quote.
   */
  lemma ParseAddedEvent(device: Device)
    requires '"' !in device.address && '"' !in device.name
    ensures ParseElement(DeviceAddedEvent(device)) == Some(StatusAttributes(device, "added"))
  {
    AddedEventShape(device);
    PlainStatusAttributes(device, "added");
    ParseElementRoundTrip(StatusAttributes(device, "added"));
  }

  /** The same for a removed event, with status="removed". */
  lemma ParseRemovedEvent(device: Device)
    requires '"' !in device.address && '"' !in device.name
    ensures ParseElement(DeviceRemovedEvent(device)) == Some(StatusAttributes(device, "removed"))
  {
    RemovedEventShape(device);
    PlainStatusAttributes(device, "removed");
    ParseElementRoundTrip(StatusAttributes(device, "removed"));
  }

  /**
    For quote-free fields the events determine the device and the kind:
    different devices give different strings, and an added event never
    reads as a removed one.
   */
  lemma EventsDetermineDevice(d1: Device, d2: Device)
    requires '"' !in d1.address && '"' !in d1.name
    requires '"' !in d2.address && '"' !in d2.name
    ensures DeviceAddedEvent(d1) == DeviceAddedEvent(d2) ==> d1 == d2
    ensures DeviceRemovedEvent(d1) == DeviceRemovedEvent(d2) ==> d1 == d2
    ensures DeviceAddedEvent(d1) != DeviceRemovedEvent(d2)
  {
    ParseAddedEvent(d1);
    ParseAddedEvent(d2);
    ParseRemovedEvent(d1);
    ParseRemovedEvent(d2);
    assert StatusAttributes(d1, "added")[2] != StatusAttributes(d2, "removed")[2];
  }

  /**
    Attribute values are not escaped: moving the text `" name="` from the end
    of the address to the front of the name gives a different device with
    one and the same added event.
   */
  lemma QuotedFieldsCollide(a: string, x: string, y: string)
    ensures Device(a + "\" name=\"" + x, y) != Device(a, x + "\" name=\"" + y)
    ensures DeviceAddedEvent(Device(a + "\" name=\"" + x, y)) == DeviceAddedEvent(Device(a, x + "\" name=\"" + y))
  {
    var sep := "\" name=\"";
    var open, close := "<device id=\"", "\" status=\"added\" type=\"device\" />";
    assert |a + sep + x| != |a|;
    calc {
      DeviceAddedEvent(Device(a + sep + x, y));
      open + (a + sep + x) + sep + y + close;
      open + a + sep + (x + sep + y) + close;
      DeviceAddedEvent(Device(a, x + sep + y));
    }
  }

  /** Attributes of a deviceEvent element, in wire order. */
  function StatusElementAttributes(device: Device, deviceType: string, connected: string): seq<Attribute> {
    [Attribute("id", device.address), Attribute("name", device.name),
     Attribute("type", deviceType), Attribute("connected", connected)]
  }

  /** The closing quote of name, then the type and connected attributes. */
  lemma TypeConnectedTail(deviceType: string, connected: string)
    ensures "\"" + Attributes([Attribute("type", deviceType), Attribute("connected", connected)], " />")
      == "\" type=\"" + deviceType + "\" connected=\"" + connected + "\" />"
  {
    var kind, link := Attribute("type", deviceType), Attribute("connected", connected);
    AttributesCons(link, [], " />");
    AttributesCons(kind, [link], " />");
    assert [kind] + [link] == [kind, link];
  }

  lemma RegroupTail(x: string, a: string, t: string, b: string, c: string, d: string)
    ensures x + a + t + b + c + d == x + (a + t + b + c + d)
  {
  }

  lemma DeviceEventShape(device: Device, deviceType: string, connected: string)
    ensures "<device id=\"" + device.address + "\" name=\"" + device.name
      + "\" type=\"" + deviceType + "\" connected=\"" + connected + "\" />"
      == Element(StatusElementAttributes(device, deviceType, connected))
  {
    var rest := [Attribute("type", deviceType), Attribute("connected", connected)];
    var closing := "\" type=\"" + deviceType + "\" connected=\"" + connected + "\" />";
    TypeConnectedTail(deviceType, connected);
    IdNameShape(device, rest, closing);
    RegroupTail("<device id=\"" + device.address + "\" name=\"" + device.name,
      "\" type=\"", deviceType, "\" connected=\"", connected, "\" />");
    assert StatusElementAttributes(device, deviceType, connected)
      == [Attribute("id", device.address), Attribute("name", device.name)] + rest;
  }

  /** The fixed keys hold no `=`; the values of type and connected no `"`. */
  lemma PlainStatusElement(device: Device, deviceType: string, connected: string)
    requires '"' !in device.address && '"' !in device.name
    requires deviceType in {"joystick", ""} && connected in {"yes", "no"}
    ensures Plain(StatusElementAttributes(device, deviceType, connected))
  {
    var attrs := StatusElementAttributes(device, deviceType, connected);
    assert '=' !in attrs[0].key && '=' !in attrs[1].key;
    assert '=' !in attrs[2].key && '=' !in attrs[3].key;
    assert '"' !in deviceType && '"' !in connected;
  }

  /** A successful deviceEvent is the element of its four attributes. */
  lemma DeviceEventElement(properties: PropertyMap)
    requires DeviceEvent(properties).Ok?
    ensures DeviceEvent(properties).value == Element(StatusElementAttributes(
      ExtractDevice(properties).value,
      DeviceType(ClassCode(properties).value),
      if ConnectedFlag(properties).value then "yes" else "no"))
  {
    var device := ExtractDevice(properties).value;
    var deviceType := DeviceType(ClassCode(properties).value);
    var connected := if ConnectedFlag(properties).value then "yes" else "no";
    assert DeviceEvent(properties).value == "<device id=\"" + device.address + "\" name=\"" + device.name
      + "\" type=\"" + deviceType + "\" connected=\"" + connected + "\" />";
    DeviceEventShape(device, deviceType, connected);
  }

  /**
    deviceEvent carries id, name, type, connected, in that order; type is
    "joystick" exactly for class 0x002508 or 0x000508 and "" otherwise (also
    when Class is missing); connected is "yes" exactly when Connected is true.
   */
  lemma ParseDeviceEvent(properties: PropertyMap)
    requires DeviceEvent(properties).Ok?
    requires '"' !in ExtractDevice(properties).value.address && '"' !in ExtractDevice(properties).value.name
    ensures ParseElement(DeviceEvent(properties).value) == Some(StatusElementAttributes(
      ExtractDevice(properties).value,
      if "Class" in properties && properties["Class"] in {Uint32Value(0x002508), Uint32Value(0x000508)}
      then "joystick" else "",
      if "Connected" in properties && properties["Connected"] == BoolValue(true) then "yes" else "no"))
  {
    var device := ExtractDevice(properties).value;
    var deviceType := DeviceType(ClassCode(properties).value);
    var connected := if ConnectedFlag(properties).value then "yes" else "no";
    DeviceEventElement(properties);
    PlainStatusElement(device, deviceType, connected);
    ParseElementRoundTrip(StatusElementAttributes(device, deviceType, connected));
  }
}
