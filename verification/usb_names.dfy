/** The kernel's names for USB buses, devices and interfaces: printers and parsers that undo each other. */
module UsbNames {
  import opened Core
  import opened StringOrder

  // ---------- decimal numbers ----------

  predicate IsDigit(c: char) { '0' <= c <= '9' }

  function DigitOf(n: nat): (c: char)
    requires n < 10
    ensures IsDigit(c) && c as int == '0' as int + n
  {
    '0' + n as char
  }

  predicate AllDigits(s: string) { forall i :: 0 <= i < |s| ==> IsDigit(s[i]) }

  /** `to_string` of an unsigned integer. */
  function Decimal(n: nat): (s: string)
    ensures s != [] && AllDigits(s)
  {
    if n < 10 then [DigitOf(n)] else Decimal(n / 10) + [DigitOf(n % 10)]
  }

  function Value(s: string): nat
    requires AllDigits(s)
  {
    if s == [] then 0 else 10 * Value(s[..|s| - 1]) + (s[|s| - 1] as int - '0' as int)
  }

  /** `parse` of an unsigned integer with a greatest value: an optional plus sign and at least one digit. */
  function ParseUnsigned(s: string, max: nat): (r: Option<nat>)
    ensures r.Some? ==> r.value <= max
  {
    var digits := if s != [] && s[0] == '+' then s[1..] else s;
    if digits == [] || !AllDigits(digits) || Value(digits) > max then None else Some(Value(digits))
  }

  const U8_MAX: nat := 0xFF
  const U16_MAX: nat := 0xFFFF

  lemma {:induction false} ValueOfDecimal(n: nat)
    ensures Value(Decimal(n)) == n
  {
    if n < 10 {
      assert Decimal(n)[..0] == [];
    } else {
      ValueOfDecimal(n / 10);
      assert Decimal(n)[..|Decimal(n)| - 1] == Decimal(n / 10);
    }
  }

  lemma ParseDecimal(n: nat, max: nat)
    ensures ParseUnsigned(Decimal(n), max) == if n <= max then Some(n) else None
  {
    ValueOfDecimal(n);
    assert IsDigit(Decimal(n)[0]);
  }

  // ---------- splitting and joining ----------

  /** `split_once`: the parts before and after the first occurrence of the separator. */
  function SplitOnce(s: string, c: char): Option<(string, string)> {
    if s == [] then None
    else if s[0] == c then Some(([], s[1..]))
    else
      match SplitOnce(s[1..], c)
      case None => None
      case Some((before, after)) => Some(([s[0]] + before, after))
  }

  lemma {:induction false} SplitOnceParts(s: string, c: char)
    ensures SplitOnce(s, c).None? <==> c !in s
    ensures SplitOnce(s, c).Some? ==>
      var (before, after) := SplitOnce(s, c).value; c !in before && s == before + [c] + after
  {
    if s != [] && s[0] != c {
      SplitOnceParts(s[1..], c);
      assert s == [s[0]] + s[1..];
    }
  }

  lemma {:induction false} SplitOnceAt(before: string, c: char, after: string)
    requires c !in before
    ensures SplitOnce(before + [c] + after, c) == Some((before, after))
  {
    var s := before + [c] + after;
    if before == [] {
      assert s[0] == c && s[1..] == after;
    } else {
      assert s[1..] == before[1..] + [c] + after;
      SplitOnceAt(before[1..], c, after);
      assert s[0] == before[0] && before == [before[0]] + before[1..];
    }
  }

  /** `split`: all segments between separators; never empty. */
  function Split(s: string, c: char): seq<string>
    decreases |s|
  {
    match SplitOnce(s, c)
    case None => [s]
    case Some((before, after)) =>
      SplitOnceParts(s, c);
      [before] + Split(after, c)
  }

  /** `join` with a one-character separator. */
  function Join(parts: seq<string>, c: char): string {
    if parts == [] then []
    else if |parts| == 1 then parts[0]
    else parts[0] + [c] + Join(parts[1..], c)
  }

  lemma {:induction false} SplitOfJoin(parts: seq<string>, c: char)
    requires parts != [] && forall p :: p in parts ==> c !in p
    ensures Split(Join(parts, c), c) == parts
  {
    assert parts[0] in parts;
    if |parts| == 1 {
      SplitOnceParts(parts[0], c);
      assert parts == [parts[0]];
    } else {
      var rest := Join(parts[1..], c);
      SplitOnceAt(parts[0], c, rest);
      SplitOfJoin(parts[1..], c);
      assert Join(parts, c) == parts[0] + [c] + rest;
      assert Split(Join(parts, c), c) == [parts[0]] + Split(rest, c);
    }
  }

  lemma {:induction false} JoinAvoids(parts: seq<string>, c: char, other: char)
    requires c != other && forall p :: p in parts ==> other !in p
    ensures other !in Join(parts, c)
  {
    if parts != [] {
      assert parts[0] in parts;
      JoinAvoids(parts[1..], c, other);
    }
  }

  // ---------- names ----------

  function Decimals(ports: seq<U8>): (parts: seq<string>)
    ensures |parts| == |ports|
    ensures forall i :: 0 <= i < |ports| ==> parts[i] == Decimal(ports[i])
  {
    seq(|ports|, i requires 0 <= i < |ports| => Decimal(ports[i]))
  }

  function PortsDisplay(ports: seq<U8>): string { Join(Decimals(ports), '.') }

  function PortsLabel(ports: seq<U8>): string { Join(Decimals(ports), '_') }

  function UsbDeviceKey(bus: U16, ports: seq<U8>): string {
    Decimal(bus) + "-" + PortsDisplay(ports)
  }

  function UsbInterfaceName(bus: U16, ports: seq<U8>, configuration: U8, interfaceNumber: U8): string {
    UsbDeviceKey(bus, ports) + ":" + (Decimal(configuration) + "." + Decimal(interfaceNumber))
  }

  datatype UsbAddress = UsbAddress(bus: U16, ports: seq<U8>)

  datatype UsbInterfaceAddress = UsbInterfaceAddress(device: UsbAddress, configuration: U8, interfaceNumber: U8)

  function ParseUsbBusName(name: string): Option<U16> {
    if !("usb" <= name) then None else ParseUnsigned(name[3..], U16_MAX)
  }

  function ParsePorts(segments: seq<string>): Option<seq<U8>> {
    if segments == [] then Some([]) else
      match (ParseUnsigned(segments[0], U8_MAX), ParsePorts(segments[1..]))
      case (Some(port), Some(rest)) => Some([port] + rest)
      case _ => None
  }

  function ParseUsbDeviceName(name: string): Option<UsbAddress> {
    if ':' in name then None else
      match SplitOnce(name, '-')
      case None => None
      case Some((bus, ports)) =>
        match (ParsePorts(Split(ports, '.')), ParseUnsigned(bus, U16_MAX))
        case (Some(parsedPorts), Some(parsedBus)) => Some(UsbAddress(parsedBus, parsedPorts))
        case _ => None
  }

  function ParseUsbInterfaceName(name: string): Option<UsbInterfaceAddress> {
    match SplitOnce(name, ':')
    case None => None
    case Some((device, suffix)) =>
      match (ParseUsbDeviceName(device), SplitOnce(suffix, '.'))
      case (Some(address), Some((configuration, interfaceNumber))) =>
        (match (ParseUnsigned(configuration, U8_MAX), ParseUnsigned(interfaceNumber, U8_MAX))
         case (Some(c), Some(i)) => Some(UsbInterfaceAddress(address, c, i))
         case _ => None)
      case _ => None
  }

  lemma DigitsAvoid(s: string, c: char)
    requires AllDigits(s) && !IsDigit(c)
    ensures c !in s
  {
  }

  lemma {:induction false} ParsePortsOfDecimals(ports: seq<U8>)
    ensures ParsePorts(Decimals(ports)) == Some(ports)
  {
    if ports != [] {
      ParseDecimal(ports[0], U8_MAX);
      assert Decimals(ports)[1..] == Decimals(ports[1..]);
      ParsePortsOfDecimals(ports[1..]);
      assert ports == [ports[0]] + ports[1..];
    }
  }

  lemma DecimalsAvoid(ports: seq<U8>, c: char)
    requires !IsDigit(c)
    ensures forall p :: p in Decimals(ports) ==> c !in p
  {
  }

  lemma KeyAvoidsColon(bus: U16, ports: seq<U8>)
    ensures ':' !in UsbDeviceKey(bus, ports)
  {
    DigitsAvoid(Decimal(bus), ':');
    DecimalsAvoid(ports, ':');
    JoinAvoids(Decimals(ports), '.', ':');
  }

  /** Parsing a device key gives back bus and ports, except that a key without ports is no device name. */
  lemma DeviceKeyRoundTrip(bus: U16, ports: seq<U8>)
    ensures ParseUsbDeviceName(UsbDeviceKey(bus, ports)) == if ports == [] then None else Some(UsbAddress(bus, ports))
  {
    KeyAvoidsColon(bus, ports);
    DigitsAvoid(Decimal(bus), '-');
    SplitOnceAt(Decimal(bus), '-', PortsDisplay(ports));
    assert Decimal(bus) + "-" == Decimal(bus) + ['-'];
    ParseDecimal(bus, U16_MAX);
    if ports == [] {
      assert Split("", '.') == [""];
    } else {
      DecimalsAvoid(ports, '.');
      SplitOfJoin(Decimals(ports), '.');
      ParsePortsOfDecimals(ports);
    }
  }

  /** Parsing an interface name gives back device, configuration and interface number. */
  lemma InterfaceNameRoundTrip(bus: U16, ports: seq<U8>, configuration: U8, interfaceNumber: U8)
    requires ports != []
    ensures ParseUsbInterfaceName(UsbInterfaceName(bus, ports, configuration, interfaceNumber))
      == Some(UsbInterfaceAddress(UsbAddress(bus, ports), configuration, interfaceNumber))
  {
    var suffix := Decimal(configuration) + "." + Decimal(interfaceNumber);
    KeyAvoidsColon(bus, ports);
    SplitOnceAt(UsbDeviceKey(bus, ports), ':', suffix);
    DeviceKeyRoundTrip(bus, ports);
    DigitsAvoid(Decimal(configuration), '.');
    SplitOnceAt(Decimal(configuration), '.', Decimal(interfaceNumber));
    ParseDecimal(configuration, U8_MAX);
    ParseDecimal(interfaceNumber, U8_MAX);
  }

  /** Different devices have different keys. */
  lemma KeyInjective(bus: U16, ports: seq<U8>, otherBus: U16, otherPorts: seq<U8>)
    requires UsbDeviceKey(bus, ports) == UsbDeviceKey(otherBus, otherPorts)
    ensures bus == otherBus && ports == otherPorts
  {
    DeviceKeyRoundTrip(bus, ports);
    DeviceKeyRoundTrip(otherBus, otherPorts);
    DigitsAvoid(Decimal(bus), '-');
    DigitsAvoid(Decimal(otherBus), '-');
    SplitOnceAt(Decimal(bus), '-', PortsDisplay(ports));
    SplitOnceAt(Decimal(otherBus), '-', PortsDisplay(otherPorts));
    ParseDecimal(bus, U16_MAX);
    ParseDecimal(otherBus, U16_MAX);
  }

  /** A number that parses has no character but digits after an optional plus sign. */
  lemma ParsedCharacters(s: string, max: nat)
    requires ParseUnsigned(s, max).Some?
    ensures s != [] && (s[0] == '+' || IsDigit(s[0]))
    ensures forall c :: c in s ==> c == '+' || IsDigit(c)
  {
  }

  lemma DeviceNameCharacters(name: string)
    requires ParseUsbDeviceName(name).Some?
    ensures ':' !in name && '-' in name && (name[0] == '+' || IsDigit(name[0]))
  {
    SplitOnceParts(name, '-');
    var (bus, ports) := SplitOnce(name, '-').value;
    ParsedCharacters(bus, U16_MAX);
    assert name[0] == bus[0];
  }

  lemma InterfaceNameCharacters(name: string)
    requires ParseUsbInterfaceName(name).Some?
    ensures ':' in name && (name[0] == '+' || IsDigit(name[0]))
  {
    SplitOnceParts(name, ':');
    var (device, suffix) := SplitOnce(name, ':').value;
    DeviceNameCharacters(device);
    assert device != [] && name[0] == device[0];
  }

  lemma BusNameCharacters(name: string)
    requires ParseUsbBusName(name).Some?
    ensures '-' !in name && ':' !in name && name[0] == 'u'
  {
  }

  /** No name is accepted by two of the three parsers. */
  lemma NamesAreUnambiguous(name: string)
    ensures !(ParseUsbBusName(name).Some? && ParseUsbDeviceName(name).Some?)
    ensures !(ParseUsbBusName(name).Some? && ParseUsbInterfaceName(name).Some?)
    ensures !(ParseUsbDeviceName(name).Some? && ParseUsbInterfaceName(name).Some?)
  {
    if ParseUsbBusName(name).Some? { BusNameCharacters(name); }
    if ParseUsbDeviceName(name).Some? { DeviceNameCharacters(name); }
    if ParseUsbInterfaceName(name).Some? { InterfaceNameCharacters(name); }
  }

  /** Device and interface names sort before every bus name. */
  lemma DeviceNamesSortFirst(name: string, busName: string)
    requires ParseUsbDeviceName(name).Some? || ParseUsbInterfaceName(name).Some?
    requires ParseUsbBusName(busName).Some?
    ensures Less(name, busName)
  {
  }

  // ---------- descriptor ids ----------

  function BusId(bus: U16): DeviceId { "linux.usb.bus." + Decimal(bus) }

  function DeviceIdOf(bus: U16, ports: seq<U8>): DeviceId {
    "linux.usb.bus" + Decimal(bus) + ".ports" + PortsLabel(ports)
  }

  lemma PortsLabelRoundTrip(ports: seq<U8>)
    requires ports != []
    ensures ParsePorts(Split(PortsLabel(ports), '_')) == Some(ports)
  {
    DecimalsAvoid(ports, '_');
    SplitOfJoin(Decimals(ports), '_');
    ParsePortsOfDecimals(ports);
  }

  lemma DeviceIdParts(bus: U16, ports: seq<U8>)
    ensures SplitOnce(DeviceIdOf(bus, ports)[13..], '.') == Some((Decimal(bus), "ports" + PortsLabel(ports)))
  {
    var rest := "ports" + PortsLabel(ports);
    assert DeviceIdOf(bus, ports)[13..] == Decimal(bus) + ['.'] + rest;
    DigitsAvoid(Decimal(bus), '.');
    SplitOnceAt(Decimal(bus), '.', rest);
  }

  /** Different devices have different descriptor ids. */
  lemma DeviceIdInjective(bus: U16, ports: seq<U8>, otherBus: U16, otherPorts: seq<U8>)
    requires DeviceIdOf(bus, ports) == DeviceIdOf(otherBus, otherPorts)
    requires ports != [] && otherPorts != []
    ensures bus == otherBus && ports == otherPorts
  {
    DeviceIdParts(bus, ports);
    DeviceIdParts(otherBus, otherPorts);
    ValueOfDecimal(bus);
    ValueOfDecimal(otherBus);
    assert ("ports" + PortsLabel(ports))[5..] == PortsLabel(ports);
    assert ("ports" + PortsLabel(otherPorts))[5..] == PortsLabel(otherPorts);
    PortsLabelRoundTrip(ports);
    PortsLabelRoundTrip(otherPorts);
  }

  function InterfaceIdOf(bus: U16, ports: seq<U8>, interfaceNumber: U8): DeviceId {
    DeviceIdOf(bus, ports) + ".if" + Decimal(interfaceNumber)
  }

  /** What follows the bus number in the id of an interface. */
  function InterfaceIdTail(ports: seq<U8>, interfaceNumber: U8): string {
    "ports" + PortsLabel(ports) + ['.'] + ("if" + Decimal(interfaceNumber))
  }

  /** Text after a prefix, with its parts bracketed from the right. */
  lemma Reassociated(prefix: string, bus: string, ports: string, text: string, mark: string, number: string)
    ensures (prefix + bus + ports + text + (mark + number))[|prefix|..] == bus + ((ports + text) + (mark + number))
  {
    var rest := (ports + text) + (mark + number);
    assert prefix + bus + ports + text == prefix + bus + (ports + text);
    assert prefix + bus + (ports + text) + (mark + number) == prefix + (bus + rest);
  }

  lemma InterfaceIdSplits(bus: U16, ports: seq<U8>, interfaceNumber: U8)
    ensures InterfaceIdOf(bus, ports, interfaceNumber)[13..]
      == Decimal(bus) + ['.'] + InterfaceIdTail(ports, interfaceNumber)
  {
    var d, text, number := Decimal(bus), PortsLabel(ports), Decimal(interfaceNumber);
    var id := "linux.usb.bus" + d + ".ports" + text;
    assert InterfaceIdOf(bus, ports, interfaceNumber) == id + ".if" + number == id + (".if" + number);
    Reassociated("linux.usb.bus", d, ".ports", text, ".if", number);
    assert ".ports" + text == ['.'] + ("ports" + text);
    assert ".if" + number == ['.'] + ("if" + number);
    Bracketed(d, ['.'], "ports" + text, ['.'] + ("if" + number));
    Bracketed([], "ports" + text, ['.'], "if" + number);
  }

  lemma Bracketed(a: string, b: string, c: string, d: string)
    ensures a + ((b + c) + d) == a + b + (c + d)
  {
    assert (b + c) + d == b + (c + d);
  }

  lemma InterfaceIdParts(bus: U16, ports: seq<U8>, interfaceNumber: U8)
    ensures SplitOnce(InterfaceIdOf(bus, ports, interfaceNumber)[13..], '.')
      == Some((Decimal(bus), InterfaceIdTail(ports, interfaceNumber)))
    ensures SplitOnce(InterfaceIdTail(ports, interfaceNumber), '.')
      == Some(("ports" + PortsLabel(ports), "if" + Decimal(interfaceNumber)))
  {
    InterfaceIdSplits(bus, ports, interfaceNumber);
    DigitsAvoid(Decimal(bus), '.');
    SplitOnceAt(Decimal(bus), '.', InterfaceIdTail(ports, interfaceNumber));
    LabelAvoidsDot(ports);
    SplitOnceAt("ports" + PortsLabel(ports), '.', "if" + Decimal(interfaceNumber));
  }

  lemma LabelAvoidsDot(ports: seq<U8>)
    ensures '.' !in "ports" + PortsLabel(ports)
  {
    DecimalsAvoid(ports, '.');
    JoinAvoids(Decimals(ports), '_', '.');
  }

  /** Different interfaces of different devices have different descriptor ids, and so have those of one device with
      different numbers. */
  lemma InterfaceIdInjective(
      bus: U16, ports: seq<U8>, interfaceNumber: U8, otherBus: U16, otherPorts: seq<U8>, otherNumber: U8)
    requires InterfaceIdOf(bus, ports, interfaceNumber) == InterfaceIdOf(otherBus, otherPorts, otherNumber)
    requires ports != [] && otherPorts != []
    ensures bus == otherBus && ports == otherPorts && interfaceNumber == otherNumber
  {
    InterfaceIdParts(bus, ports, interfaceNumber);
    InterfaceIdParts(otherBus, otherPorts, otherNumber);
    ValueOfDecimal(bus);
    ValueOfDecimal(otherBus);
    ValueOfDecimal(interfaceNumber);
    ValueOfDecimal(otherNumber);
    assert ("if" + Decimal(interfaceNumber))[2..] == Decimal(interfaceNumber);
    assert ("if" + Decimal(otherNumber))[2..] == Decimal(otherNumber);
    assert ("ports" + PortsLabel(ports))[5..] == PortsLabel(ports);
    assert ("ports" + PortsLabel(otherPorts))[5..] == PortsLabel(otherPorts);
    PortsLabelRoundTrip(ports);
    PortsLabelRoundTrip(otherPorts);
  }

  lemma BusIdIsNoOther(bus: U16, otherBus: U16, ports: seq<U8>, interfaceNumber: U8)
    ensures BusId(bus) != DeviceIdOf(otherBus, ports)
    ensures BusId(bus) != InterfaceIdOf(otherBus, ports, interfaceNumber)
  {
    assert BusId(bus)[13] == '.';
    assert DeviceIdOf(otherBus, ports)[13] == Decimal(otherBus)[0];
    assert InterfaceIdOf(otherBus, ports, interfaceNumber)[13] == Decimal(otherBus)[0];
  }

  lemma DeviceIdIsNoInterfaceId(bus: U16, ports: seq<U8>, otherBus: U16, otherPorts: seq<U8>, interfaceNumber: U8)
    ensures DeviceIdOf(bus, ports) != InterfaceIdOf(otherBus, otherPorts, interfaceNumber)
  {
    DeviceIdParts(bus, ports);
    InterfaceIdParts(otherBus, otherPorts, interfaceNumber);
    LabelAvoidsDot(ports);
    SplitOnceParts("ports" + PortsLabel(ports), '.');
  }

  lemma BusIdInjective(bus: U16, otherBus: U16)
    requires BusId(bus) == BusId(otherBus)
    ensures bus == otherBus
  {
    assert BusId(bus)[14..] == Decimal(bus) && BusId(otherBus)[14..] == Decimal(otherBus);
    ValueOfDecimal(bus);
    ValueOfDecimal(otherBus);
  }

  /** Parsed names always have ports. */
  lemma ParsedNamesHavePorts(name: string)
    ensures ParseUsbDeviceName(name).Some? ==> ParseUsbDeviceName(name).value.ports != []
    ensures ParseUsbInterfaceName(name).Some? ==> ParseUsbInterfaceName(name).value.device.ports != []
  {
  }
}
