/**
 * The 6-octet B/IP address of ASHRAE 135 Annex J (four IPv4 octets, then the
 * UDP port, high octet first) and the connection-string text "a.b.c.d:port"
 * the client keys its tables with: encoding the text into the octets, reading
 * the octets back, and the subnet broadcast address.
 */
module Address {
  import opened Wrappers
  import opened JsText

  type IPv4 = a: seq<byte> | |a| == 4 witness [0, 0, 0, 0]

  type Port = p: nat | p < 65536

  /** The default BACnet/IP UDP port, 0xBAC0. */
  const DefaultPort: Port := 47808

  /** Where a datagram came from, as the UDP socket reports it. */
  datatype Endpoint = Endpoint(address: IPv4, port: Port)

  /** "a.b.c.d" for the first four octets. */
  function DottedQuad(a: seq<byte>): string
    requires |a| >= 4
  {
    NatToString(a[0]) + "." + (NatToString(a[1]) + "." + (NatToString(a[2]) + "." + NatToString(a[3])))
  }

  /** The connection string of a sender: its address, ':' and its port. */
  function EndpointString(e: Endpoint): string {
    DottedQuad(e.address) + ":" + NatToString(e.port)
  }

  /** The port a 6-octet B/IP address names: octets 4 and 5, high octet first. */
  function DecodePort(connection: seq<byte>): (p: Port)
    requires |connection| >= 6
    ensures p / 256 == connection[4] && p % 256 == connection[5]
  {
    connection[4] as int * 256 + connection[5] as int
  }

  /** The address text and the port text of a connection string, as both encoders split it. */
  function ConnectionFields(cs: string): (seq<string>, Parsed) {
    var colon := IndexOf(cs, ':');
    (Split(Substring(cs, 0, colon), '.'), ParseInt(Substring(cs, colon + 1, |cs|)))
  }

  /** Octet `i` of the address: `Number(parts[i])`, NaN when the part is missing. */
  function AddressOctet(parts: seq<string>, i: nat): Result<byte, JsError> {
    WriteUInt8(if i < |parts| then ToNumber(parts[i]) else NaN)
  }

  /**
   * The high port octet as written: writeUInt8(port / 256). The quotient is a
   * fraction, so writeUInt8 throws as soon as it exceeds 255 (every port above
   * 255 * 256) and otherwise stores its integer part.
   */
  function HighPortOctetAsWritten(port: Parsed): (r: Result<byte, JsError>)
    ensures r.Success? <==> HighPortOctet(port).Success? && !(port.Number? && port.n > 255 * 256)
    ensures r.Success? ==> r == HighPortOctet(port)
  {
    match port
    case NaN => Success(0)
    case Number(n) => if n > 255 * 256 then Failure(RangeError) else Success(n / 256)
  }

  /** The high port octet as intended: the integer part of port / 256, refused only above 65535. */
  function HighPortOctet(port: Parsed): Result<byte, JsError> {
    match port
    case NaN => Success(0)
    case Number(n) => WriteUInt8(Number(n / 256))
  }

  /** The low port octet: writeUInt8(port % 256). */
  function LowPortOctet(port: Parsed): Result<byte, JsError> {
    match port
    case NaN => Success(0)
    case Number(n) => WriteUInt8(Number(n % 256))
  }

  /**
   * The six writeUInt8 calls in order; the first that throws ends the
   * encoding, and when none throws the buffer holds the six octets written.
   */
  function WriteConnection(parts: seq<string>, high: Result<byte, JsError>, low: Result<byte, JsError>)
    : (r: Result<seq<byte>, JsError>)
    ensures r.Success? <==>
      && AddressOctet(parts, 0).Success? && AddressOctet(parts, 1).Success?
      && AddressOctet(parts, 2).Success? && AddressOctet(parts, 3).Success?
      && high.Success? && low.Success?
    ensures r.Success? ==>
      r.value == [AddressOctet(parts, 0).value, AddressOctet(parts, 1).value, AddressOctet(parts, 2).value,
                  AddressOctet(parts, 3).value, high.value, low.value]
  {
    var o0 :- AddressOctet(parts, 0);
    var o1 :- AddressOctet(parts, 1);
    var o2 :- AddressOctet(parts, 2);
    var o3 :- AddressOctet(parts, 3);
    var hi :- high;
    var lo :- low;
    Success([o0, o1, o2, o3, hi, lo])
  }

  /**
   * The received-connection octets as written (program.js lines 142-152):
   * they throw where the corrected encoding throws and also for every port
   * above 65280, and otherwise agree with it.
   */
  function ReceivedConnectionAsWritten(cs: string): (r: Result<seq<byte>, JsError>)
    ensures var port := ConnectionFields(cs).1;
      r.Success? <==> ReceivedConnection(cs).Success? && !(port.Number? && port.n > 255 * 256)
    ensures r.Success? ==> r == ReceivedConnection(cs)
  {
    var (parts, port) := ConnectionFields(cs);
    WriteConnection(parts, HighPortOctetAsWritten(port), LowPortOctet(port))
  }

  /**
   * The received-connection octets with the high port octet corrected: six
   * octets whose last two decode to the parsed port, or to 0 when the port
   * text is not a number.
   */
  function ReceivedConnection(cs: string): (r: Result<seq<byte>, JsError>)
    ensures r.Success? ==> |r.value| == 6
    ensures var port := ConnectionFields(cs).1;
      r.Success? ==> DecodePort(r.value) == (if port.Number? then port.n else 0)
  {
    var fields := ConnectionFields(cs);
    PortOctetsDecode(fields.0, fields.1);
    WriteConnection(fields.0, HighPortOctet(fields.1), LowPortOctet(fields.1))
  }

  /** The two port octets, when all six writes succeed, decode to the port (NaN to 0). */
  lemma PortOctetsDecode(parts: seq<string>, port: Parsed)
    ensures var r := WriteConnection(parts, HighPortOctet(port), LowPortOctet(port));
      r.Success? ==> DecodePort(r.value) == (if port.Number? then port.n else 0)
  {
    var r := WriteConnection(parts, HighPortOctet(port), LowPortOctet(port));
    if r.Success? {
      var high, low := HighPortOctet(port).value, LowPortOctet(port).value;
      assert r.value[4] == high && r.value[5] == low;
      assert high as int * 256 + low as int == (if port.Number? then port.n else 0);
    }
  }

  /** A port that is not a number is replaced by the default port. */
  function WithDefaultPort(parsed: Parsed): Parsed {
    if parsed.NaN? then Number(DefaultPort) else parsed
  }

  /**
   * HelperGetConnectionStringAsBuffer as written (program.js lines 189-209).
   * On text with a ':' it throws where the corrected helper throws and also
   * for every port above 65280, and otherwise agrees with it; on text without
   * one it never writes an address other than 0.0.0.0.
   */
  function ConnectionStringAsBufferAsWritten(cs: string): (r: Result<seq<byte>, JsError>)
    ensures var port := WithDefaultPort(ConnectionFields(cs).1);
      ':' in cs ==> (r.Success? <==> ConnectionStringAsBuffer(cs).Success? && !(port.Number? && port.n > 255 * 256))
    ensures ':' in cs && r.Success? ==> r == ConnectionStringAsBuffer(cs)
    ensures r.Success? ==> |r.value| == 6
    ensures ':' !in cs && r.Success? ==> r.value[..4] == [0, 0, 0, 0]
  {
    var (parts, parsed) := ConnectionFields(cs);
    var port := WithDefaultPort(parsed);
    WriteConnection(parts, HighPortOctetAsWritten(port), LowPortOctet(port))
  }

  /**
   * HelperGetConnectionStringAsBuffer as its comments describe it: a string
   * without ':' is an address alone and takes the default port, and the high
   * port octet is the integer part of port / 256.
   */
  function ConnectionStringAsBuffer(cs: string): Result<seq<byte>, JsError> {
    var colon := IndexOf(cs, ':');
    var parts := Split(if colon < 0 then cs else cs[..colon], '.');
    var parsed := if colon < 0 then NaN else ParseInt(cs[colon + 1..]);
    var port := WithDefaultPort(parsed);
    WriteConnection(parts, HighPortOctet(port), LowPortOctet(port))
  }

  /**
   * The corrected helper gives six octets whose port is the number after the
   * first ':', or 47808 when that text is not a number or there is no ':'.
   */
  lemma ConnectionStringAsBufferPort(cs: string)
    ensures var r := ConnectionStringAsBuffer(cs);
      && (r.Success? ==> |r.value| == 6)
      && (r.Success? && ':' !in cs ==> DecodePort(r.value) == DefaultPort)
      && (r.Success? && ':' in cs ==>
            var parsed := ParseInt(cs[IndexOf(cs, ':') + 1..]);
            DecodePort(r.value) == if parsed.Number? then parsed.n else DefaultPort)
  {
    var colon := IndexOf(cs, ':');
    var parts := Split(if colon < 0 then cs else cs[..colon], '.');
    var parsed := if colon < 0 then NaN else ParseInt(cs[colon + 1..]);
    PortOctetsDecode(parts, WithDefaultPort(parsed));
  }

  /** Number() reads the decimal text of a number back. */
  lemma ToNumberOfNatToString(n: nat)
    ensures ToNumber(NatToString(n)) == Number(n)
  {
    DigitsValueOfNatToString(n);
  }

  lemma DottedQuadHasNoColon(a: seq<byte>)
    requires |a| >= 4
    ensures ':' !in DottedQuad(a)
  {
    DigitsExclude(NatToString(a[0]), ':');
    DigitsExclude(NatToString(a[1]), ':');
    DigitsExclude(NatToString(a[2]), ':');
    DigitsExclude(NatToString(a[3]), ':');
  }

  /** A dotted quad splits at '.' into the decimal texts of its four octets. */
  lemma SplitDottedQuad(a: seq<byte>)
    requires |a| >= 4
    ensures Split(DottedQuad(a), '.') == [NatToString(a[0]), NatToString(a[1]), NatToString(a[2]), NatToString(a[3])]
  {
    DigitsExclude(NatToString(a[0]), '.');
    DigitsExclude(NatToString(a[1]), '.');
    DigitsExclude(NatToString(a[2]), '.');
    DigitsExclude(NatToString(a[3]), '.');
    SplitFour(NatToString(a[0]), NatToString(a[1]), NatToString(a[2]), NatToString(a[3]));
  }

  /** Four texts without '.' joined by '.' split back into those four. */
  lemma SplitFour(n0: string, n1: string, n2: string, n3: string)
    requires '.' !in n0 && '.' !in n1 && '.' !in n2 && '.' !in n3
    ensures Split(n0 + "." + (n1 + "." + (n2 + "." + n3)), '.') == [n0, n1, n2, n3]
  {
    var t1 := n1 + "." + (n2 + "." + n3);
    SplitThree(n1, n2, n3);
    SplitFirst(n0, '.', t1);
    ConsFour(n0, n1, n2, n3);
  }

  lemma SplitThree(n1: string, n2: string, n3: string)
    requires '.' !in n1 && '.' !in n2 && '.' !in n3
    ensures Split(n1 + "." + (n2 + "." + n3), '.') == [n1, n2, n3]
  {
    var t2 := n2 + "." + n3;
    assert Split(n3, '.') == [n3];
    SplitFirst(n2, '.', n3);
    assert Split(t2, '.') == [n2, n3];
    SplitFirst(n1, '.', t2);
  }

  lemma ConsFour(n0: string, n1: string, n2: string, n3: string)
    ensures [n0] + [n1, n2, n3] == [n0, n1, n2, n3]
  {
  }

  /** The four octets of a dotted quad are written back unchanged. */
  lemma AddressOctetsOfDottedQuad(a: seq<byte>)
    requires |a| >= 4
    ensures forall i :: 0 <= i < 4 ==> AddressOctet(Split(DottedQuad(a), '.'), i) == Success(a[i])
  {
    SplitDottedQuad(a);
    ToNumberOfNatToString(a[0]);
    ToNumberOfNatToString(a[1]);
    ToNumberOfNatToString(a[2]);
    ToNumberOfNatToString(a[3]);
  }

  /** Text without ':' followed by ':' splits there into address text and port text. */
  lemma ConnectionFieldsAtColon(addressText: string, portText: string)
    requires ':' !in addressText
    ensures ConnectionFields(addressText + ":" + portText) == (Split(addressText, '.'), ParseInt(portText))
  {
    var cs := addressText + ":" + portText;
    IndexOfAfter(addressText, ':', portText);
    assert Substring(cs, 0, |addressText|) == addressText;
    assert Substring(cs, |addressText| + 1, |cs|) == portText;
  }

  /** parseInt reads the decimal text of a number back. */
  lemma ParseIntOfNatToString(n: nat)
    ensures ParseInt(NatToString(n)) == Number(n)
  {
    ParseIntOfDigits(NatToString(n), []);
    assert NatToString(n) + [] == NatToString(n);
    DigitsValueOfNatToString(n);
  }

  /** A sender's connection string splits into its dotted quad and the decimal port. */
  lemma ConnectionFieldsOfEndpoint(e: Endpoint)
    ensures ConnectionFields(EndpointString(e)) == (Split(DottedQuad(e.address), '.'), Number(e.port))
  {
    DottedQuadHasNoColon(e.address);
    ConnectionFieldsAtColon(DottedQuad(e.address), NatToString(e.port));
    ParseIntOfNatToString(e.port);
  }

  /** The encoder reads a sender's connection string as its dotted quad and its port. */
  lemma ReceivedConnectionOfEndpoint(e: Endpoint)
    ensures ReceivedConnection(EndpointString(e))
         == WriteConnection(Split(DottedQuad(e.address), '.'), HighPortOctet(Number(e.port)), LowPortOctet(Number(e.port)))
  {
    ConnectionFieldsOfEndpoint(e);
  }

  /** A port in range is written as its high and low octets. */
  lemma PortOctets(p: Port)
    ensures HighPortOctet(Number(p)) == Success(p / 256)
    ensures LowPortOctet(Number(p)) == Success(p % 256)
  {
  }

  /**
   * Round trip of a received sender: its connection string encodes into six
   * octets that decode back to its address and port.
   */
  lemma ReceivedConnectionRoundTrip(e: Endpoint)
    ensures ReceivedConnection(EndpointString(e)).Success?
    ensures var o := ReceivedConnection(EndpointString(e)).value;
      o == e.address + [e.port / 256, e.port % 256] && o[..4] == e.address && DecodePort(o) == e.port
  {
    var p := e.port;
    var high: byte, low: byte := p / 256, p % 256;
    ConnectionFieldsOfEndpoint(e);
    ReceivedConnectionOfEndpoint(e);
    PortOctets(p);
    assert HighPortOctet(Number(p)) == Success(high) && LowPortOctet(Number(p)) == Success(low);
    WriteDottedQuad(e.address, high, low);
    var o := e.address + [high, low];
    assert ReceivedConnection(EndpointString(e)) == Success(o);
    assert o[..4] == e.address;
    assert DecodePort(o) == p;
  }

  /** HelperGetConnectionStringAsBuffer, corrected, splits text with a ':' at the first one. */
  lemma ConnectionStringAsBufferAtColon(addressText: string, portText: string)
    requires ':' !in addressText
    ensures var port := WithDefaultPort(ParseInt(portText));
      ConnectionStringAsBuffer(addressText + ":" + portText)
      == WriteConnection(Split(addressText, '.'), HighPortOctet(port), LowPortOctet(port))
  {
    var cs := addressText + ":" + portText;
    IndexOfAfter(addressText, ':', portText);
    assert cs[..|addressText|] == addressText;
    assert cs[|addressText| + 1..] == portText;
  }

  /** HelperGetConnectionStringAsBuffer, as written, splits text with a ':' at the first one. */
  lemma ConnectionStringAsBufferAsWrittenAtColon(addressText: string, portText: string)
    requires ':' !in addressText
    ensures var port := WithDefaultPort(ParseInt(portText));
      ConnectionStringAsBufferAsWritten(addressText + ":" + portText)
      == WriteConnection(Split(addressText, '.'), HighPortOctetAsWritten(port), LowPortOctet(port))
  {
    ConnectionFieldsAtColon(addressText, portText);
  }

  /** HelperGetConnectionStringAsBuffer gives the same octets for a sender's connection string. */
  lemma ConnectionStringAsBufferOfEndpoint(e: Endpoint)
    ensures ConnectionStringAsBuffer(EndpointString(e)) == ReceivedConnection(EndpointString(e))
  {
    DottedQuadHasNoColon(e.address);
    ConnectionStringAsBufferAtColon(DottedQuad(e.address), NatToString(e.port));
    ParseIntOfNatToString(e.port);
    ReceivedConnectionOfEndpoint(e);
  }

  /** Writing a dotted quad's parts and two port octets gives the address followed by those octets. */
  lemma WriteDottedQuad(a: IPv4, high: byte, low: byte)
    ensures WriteConnection(Split(DottedQuad(a), '.'), Success(high), Success(low)) == Success(a + [high, low])
  {
    var parts := Split(DottedQuad(a), '.');
    AddressOctetsOfDottedQuad(a);
    assert AddressOctet(parts, 0) == Success(a[0]) && AddressOctet(parts, 1) == Success(a[1]);
    assert AddressOctet(parts, 2) == Success(a[2]) && AddressOctet(parts, 3) == Success(a[3]);
    assert a == [a[0], a[1], a[2], a[3]];
    assert a + [high, low] == [a[0], a[1], a[2], a[3], high, low];
  }

  /** Away from the finding's ports, the as-written receive encoding agrees with the corrected one. */
  lemma ReceivedConnectionAsWrittenAgrees(e: Endpoint)
    requires e.port <= 255 * 256
    ensures ReceivedConnectionAsWritten(EndpointString(e)) == ReceivedConnection(EndpointString(e))
  {
    ConnectionFieldsOfEndpoint(e);
    ReceivedConnectionRoundTrip(e);
  }

  /**
   * Away from the findings' inputs (text with a ':', a port that is not a
   * number or at most 65280), the as-written helper agrees with the corrected one.
   */
  lemma ConnectionStringAsBufferAsWrittenAgrees(addressText: string, portText: string)
    requires ':' !in addressText
    requires ParseInt(portText).NaN? || ParseInt(portText).n <= 255 * 256
    ensures ConnectionStringAsBufferAsWritten(addressText + ":" + portText)
         == ConnectionStringAsBuffer(addressText + ":" + portText)
  {
    var cs := addressText + ":" + portText;
    assert cs[|addressText|] == ':';
    ConnectionFieldsAtColon(addressText, portText);
  }

  /** A connection string whose text after ':' is not a number gets the default port 47808. */
  lemma NonNumericPortUsesDefault(a: IPv4, portText: string)
    requires ParseInt(portText).NaN?
    ensures ConnectionStringAsBuffer(DottedQuad(a) + ":" + portText) == Success(a + [186, 192])
  {
    DottedQuadHasNoColon(a);
    ConnectionStringAsBufferAtColon(DottedQuad(a), portText);
    DefaultPortOctets();
    WriteDottedQuad(a, 186, 192);
  }

  /** The as-written encoder also falls back to port 47808 for a non-numeric port. */
  lemma NonNumericPortUsesDefaultAsWritten(a: IPv4, portText: string)
    requires ParseInt(portText).NaN?
    ensures ConnectionStringAsBufferAsWritten(DottedQuad(a) + ":" + portText) == Success(a + [186, 192])
  {
    DottedQuadHasNoColon(a);
    ConnectionStringAsBufferAsWrittenAtColon(DottedQuad(a), portText);
    DefaultPortOctets();
    WriteDottedQuad(a, 186, 192);
  }

  /** 47808 is written as the octets 0xBA, 0xC0 by every encoder. */
  lemma DefaultPortOctets()
    ensures HighPortOctet(Number(DefaultPort)) == Success(186)
    ensures HighPortOctetAsWritten(Number(DefaultPort)) == Success(186)
    ensures LowPortOctet(Number(DefaultPort)) == Success(192)
  {
  }

  /** Finding: a valid port above 65280 makes the as-written encoders throw. */
  lemma HighPortRejectedAsWritten(e: Endpoint)
    requires e.port > 65280
    ensures ReceivedConnectionAsWritten(EndpointString(e)).Failure?
    ensures ConnectionStringAsBufferAsWritten(EndpointString(e)).Failure?
  {
    var a, p := e.address, e.port;
    var cs := EndpointString(e);
    var parts := Split(DottedQuad(a), '.');
    assert ReceivedConnectionAsWritten(cs) == ConnectionStringAsBufferAsWritten(cs)
        == WriteConnection(parts, HighPortOctetAsWritten(Number(p)), LowPortOctet(Number(p))) by {
      ConnectionFieldsOfEndpoint(e);
    }
    AddressOctetsOfDottedQuad(a);
    assert AddressOctet(parts, 0) == Success(a[0]) && AddressOctet(parts, 1) == Success(a[1]);
    assert AddressOctet(parts, 2) == Success(a[2]) && AddressOctet(parts, 3) == Success(a[3]);
    assert HighPortOctetAsWritten(Number(p)) == Failure(RangeError);
  }

  /** Without ':' the address text is empty and the port is parseInt of the whole dotted quad. */
  lemma PortlessFields(a: IPv4)
    ensures ConnectionFields(DottedQuad(a)) == ([""], Number(a[0]))
  {
    var dq := DottedQuad(a);
    var n0 := NatToString(a[0]);
    var rest := "." + (NatToString(a[1]) + "." + (NatToString(a[2]) + "." + NatToString(a[3])));
    DottedQuadHasNoColon(a);
    assert Substring(dq, 0, -1) == "";
    assert Split("", '.') == [""];
    assert Substring(dq, 0, |dq|) == dq;
    assert dq == n0 + rest;
    ParseIntOfDigits(n0, rest);
    DigitsValueOfNatToString(a[0]);
  }

  /** The helper as written writes the fields its text splits into. */
  lemma AsWrittenOfFields(cs: string, parts: seq<string>, parsed: Parsed)
    requires ConnectionFields(cs) == (parts, parsed)
    ensures var port := WithDefaultPort(parsed);
      ConnectionStringAsBufferAsWritten(cs) == WriteConnection(parts, HighPortOctetAsWritten(port), LowPortOctet(port))
  {
  }

  /** An empty address text is written as 0.0.0.0. */
  lemma WriteEmptyAddress(high: byte, low: byte)
    ensures WriteConnection([""], Success(high), Success(low)) == Success([0, 0, 0, 0, high, low])
  {
    assert ToNumber("") == Number(0);
    assert AddressOctet([""], 0) == AddressOctet([""], 1) == AddressOctet([""], 2) == AddressOctet([""], 3) == Success(0);
  }

  /** Finding: "a.b.c.d" without a port is encoded as 0.0.0.0 with port a. */
  lemma PortlessAddressAsWritten(a: IPv4)
    ensures ConnectionStringAsBufferAsWritten(DottedQuad(a)) == Success([0, 0, 0, 0, 0, a[0]])
  {
    var port := Number(a[0]);
    DottedQuadHasNoColon(a);
    PortlessFields(a);
    AsWrittenOfFields(DottedQuad(a), [""], port);
    assert HighPortOctetAsWritten(port) == Success(0);
    assert LowPortOctet(port) == Success(a[0]);
    WriteEmptyAddress(0, a[0]);
  }

  /** HelperGetConnectionStringAsBuffer, corrected, reads text without ':' as an address with the default port. */
  lemma ConnectionStringAsBufferWithoutColon(addressText: string)
    requires ':' !in addressText
    ensures ConnectionStringAsBuffer(addressText)
         == WriteConnection(Split(addressText, '.'), HighPortOctet(Number(DefaultPort)), LowPortOctet(Number(DefaultPort)))
  {
    assert IndexOf(addressText, ':') == -1;
  }

  /** Corrected: "a.b.c.d" without a port keeps its address and takes port 47808. */
  lemma PortlessAddressUsesDefaultPort(a: IPv4)
    ensures ConnectionStringAsBuffer(DottedQuad(a)) == Success(a + [186, 192])
  {
    DottedQuadHasNoColon(a);
    ConnectionStringAsBufferWithoutColon(DottedQuad(a));
    DefaultPortOctets();
    WriteDottedQuad(a, 186, 192);
  }

  /** The first finding on its sample input, the connection string "192.168.1.101". */
  lemma PortlessAddressExample(a: IPv4)
    requires a == [192, 168, 1, 101]
    ensures ConnectionStringAsBufferAsWritten(DottedQuad(a)) == Success([0, 0, 0, 0, 0, 192])
    ensures ConnectionStringAsBuffer(DottedQuad(a)) == Success([192, 168, 1, 101, 186, 192])
  {
    PortlessAddressAsWritten(a);
    PortlessAddressUsesDefaultPort(a);
    assert a + [186, 192] == [192, 168, 1, 101, 186, 192];
  }

  /** The second finding on its sample input, the connection string "10.0.0.2:65281". */
  lemma HighPortExample(e: Endpoint)
    requires e == Endpoint([10, 0, 0, 2], 65281)
    ensures ReceivedConnectionAsWritten(EndpointString(e)).Failure?
    ensures ReceivedConnection(EndpointString(e)) == Success([10, 0, 0, 2, 255, 1])
  {
    HighPortRejectedAsWritten(e);
    ReceivedConnectionRoundTrip(e);
    var high: byte, low: byte := e.port / 256, e.port % 256;
    assert high == 255 && low == 1;
    assert e.address + [high, low] == [10, 0, 0, 2, 255, 1];
  }

  /** `localAddress[i]` or `subnetMask[i]`; a missing entry is `undefined`, which a bitwise operator reads as 0. */
  function OctetOrZero(s: seq<byte>, i: nat): byte {
    if i < |s| then s[i] else 0
  }

  /**
   * Broadcast octet `(local & mask) | (~mask & 255)`: the network bits (set in
   * the mask) are those of the local address, and every host bit is 1.
   */
  function BroadcastOctet(local: bv8, mask: bv8): (r: bv8)
    ensures r & mask == local & mask
    ensures r | mask == 0xFF
  {
    // `~mask & 255` is the complement of the mask within one octet
    (local & mask) | !mask
  }

  /** Octet `i` of the broadcast address. */
  function BroadcastAt(local: seq<byte>, mask: seq<byte>, i: nat): byte {
    BroadcastOctet(OctetOrZero(local, i) as bv8, OctetOrZero(mask, i) as bv8) as int
  }

  /** The subnet broadcast address of the local address under the subnet mask. */
  function BroadcastOf(local: seq<byte>, mask: seq<byte>): IPv4 {
    [BroadcastAt(local, mask, 0), BroadcastAt(local, mask, 1), BroadcastAt(local, mask, 2), BroadcastAt(local, mask, 3)]
  }

  /** The loop that pushes the four broadcast octets. */
  method BroadcastAddress(local: seq<byte>, mask: seq<byte>) returns (b: seq<byte>)
    ensures b == BroadcastOf(local, mask)
  {
    b := [];
    var i := 0;
    while i < 4
      invariant 0 <= i <= 4 && |b| == i
      invariant forall k :: 0 <= k < i ==> b[k] == BroadcastAt(local, mask, k)
    {
      b := b + [BroadcastAt(local, mask, i)];
      i := i + 1;
    }
  }
}
