/**
 * The client's in-memory database: the devices announced by I-Am, the last
 * value read for each property, and the ReadPropertyMultiple requests still
 * waiting for their acknowledgement. Every table is keyed the way the client
 * keys it; the property and request keys are strings joined with '/'.
 */
module Database {
  import opened Wrappers
  import opened JsText

  /** A device entry, as an I-Am reports it. */
  datatype Device = Device(
    connectionString: string,
    vendorId: nat,
    destinationNetwork: Option<nat>,
    destinationAddress: Option<nat>)

  /** An outstanding ReadPropertyMultiple request, with the seven fields the client records. */
  datatype Request = Request(
    connectionString: string,
    originalInvokeId: nat,
    destinationNetwork: nat,
    destinationAddress: seq<byte>,
    deviceInstance: nat,
    objectType: nat,
    objectInstance: nat)

  /** The six parts a property key is made of; the destination address is not one of them. */
  datatype PropertyId = PropertyId(
    connectionString: string,
    destinationNetwork: nat,
    deviceInstance: nat,
    objectType: nat,
    objectInstance: nat,
    propertyIdentifier: string)

  /** The separator between the parts of a key. */
  const Separator: char := '/'

  /** The request key: the connection string, '/', and the invoke id in decimal. */
  function RequestKey(connectionString: string, invokeId: nat): string {
    connectionString + [Separator] + NatToString(invokeId)
  }

  /**
   * The property key: connection string, destination network, device
   * instance, object type, object instance and property identifier, in that
   * order, joined with '/'.
   */
  function PropertyKey(p: PropertyId): string {
    p.connectionString + [Separator] + (NatToString(p.destinationNetwork) + [Separator] + (NatToString(p.deviceInstance)
      + [Separator] + (NatToString(p.objectType) + [Separator] + (NatToString(p.objectInstance) + [Separator]
      + p.propertyIdentifier))))
  }

  /** The three tables at one moment. */
  datatype Tables = Tables(devices: map<nat, Device>, properties: map<string, string>, requests: map<string, Request>)
  {
    /** AddDevice: the device entry is created or overwritten with the four reported fields. */
    function AddDevice(deviceInstance: nat, vendorId: nat, destinationNetwork: Option<nat>,
                       destinationAddress: Option<nat>, connectionString: string): Tables
    {
      this.(devices := devices[deviceInstance := Device(connectionString, vendorId, destinationNetwork, destinationAddress)])
    }

    /** AddObjectProperty: the value is stored under the property key; the destination address plays no part. */
    function AddObjectProperty(deviceInstance: nat, objectType: nat, objectInstance: nat, propertyIdentifier: string,
                               propertyValueText: string, destinationNetwork: nat, destinationAddress: seq<byte>,
                               connectionString: string): Tables
    {
      var key := PropertyKey(PropertyId(connectionString, destinationNetwork, deviceInstance, objectType,
                                        objectInstance, propertyIdentifier));
      this.(properties := properties[key := propertyValueText])
    }

    /** What FindOriginalRequest returns: the request stored under the key, if any. */
    function LookupRequest(connectionString: string, originalInvokeId: nat): Option<Request> {
      var key := RequestKey(connectionString, originalInvokeId);
      if key in requests then Some(requests[key]) else None
    }

    /** The tables after FindOriginalRequest: a request found with deleteRequest set is removed. */
    function FindOriginalRequest(connectionString: string, originalInvokeId: nat, deleteRequest: bool): Tables {
      var key := RequestKey(connectionString, originalInvokeId);
      if key in requests && deleteRequest then this.(requests := requests - {key}) else this
    }

    /** AddNewRequest: the request is stored under its key, replacing any request already there. */
    function AddNewRequest(connectionString: string, originalInvokeId: nat, destinationNetwork: nat,
                           destinationAddress: seq<byte>, deviceInstance: nat, objectType: nat,
                           objectInstance: nat): Tables
    {
      var r := Request(connectionString, originalInvokeId, destinationNetwork, destinationAddress,
                       deviceInstance, objectType, objectInstance);
      this.(requests := requests[RequestKey(connectionString, originalInvokeId) := r])
    }
  }

  /** The database object: three tables that every operation updates in place. */
  class Database {
    var devices: map<nat, Device>
    var properties: map<string, string>
    var requests: map<string, Request>

    function State(): Tables
      reads this
    {
      Tables(devices, properties, requests)
    }

    constructor()
      ensures State() == Tables(map[], map[], map[])
    {
      devices := map[];
      properties := map[];
      requests := map[];
    }

    method AddDevice(deviceInstance: nat, vendorId: nat, destinationNetwork: Option<nat>,
                     destinationAddress: Option<nat>, connectionString: string)
      modifies this
      ensures State() == old(State()).AddDevice(deviceInstance, vendorId, destinationNetwork, destinationAddress,
                                                connectionString)
    {
      devices := devices[deviceInstance := Device(connectionString, vendorId, destinationNetwork, destinationAddress)];
    }

    method AddObjectProperty(deviceInstance: nat, objectType: nat, objectInstance: nat, propertyIdentifier: string,
                             propertyValueText: string, destinationNetwork: nat, destinationAddress: seq<byte>,
                             connectionString: string)
      modifies this
      ensures State() == old(State()).AddObjectProperty(deviceInstance, objectType, objectInstance, propertyIdentifier,
                                                        propertyValueText, destinationNetwork, destinationAddress,
                                                        connectionString)
    {
      var networkKey := PropertyKey(PropertyId(connectionString, destinationNetwork, deviceInstance, objectType,
                                               objectInstance, propertyIdentifier));
      properties := properties[networkKey := propertyValueText];
    }

    method FindOriginalRequest(connectionString: string, originalInvokeId: nat, deleteRequest: bool)
      returns (request: Option<Request>)
      modifies this
      ensures request == old(State()).LookupRequest(connectionString, originalInvokeId)
      ensures State() == old(State()).FindOriginalRequest(connectionString, originalInvokeId, deleteRequest)
    {
      var key := RequestKey(connectionString, originalInvokeId);
      request := if key in requests then Some(requests[key]) else None;
      if request.Some? && deleteRequest {
        requests := requests - {key};
      }
    }

    method AddNewRequest(connectionString: string, originalInvokeId: nat, destinationNetwork: nat,
                         destinationAddress: seq<byte>, deviceInstance: nat, objectType: nat, objectInstance: nat)
      modifies this
      ensures State() == old(State()).AddNewRequest(connectionString, originalInvokeId, destinationNetwork,
                                                    destinationAddress, deviceInstance, objectType, objectInstance)
    {
      var key := RequestKey(connectionString, originalInvokeId);
      requests := requests[key := Request(connectionString, originalInvokeId, destinationNetwork, destinationAddress,
                                          deviceInstance, objectType, objectInstance)];
    }
  }

  // ---------------------------------------------------------------------------
  // Keys

  /** The text after the last '/' of a key (the whole key when it has none). */
  function AfterLastSeparator(k: string): string {
    if k == [] || k[|k| - 1] == Separator then [] else AfterLastSeparator(k[..|k| - 1]) + [k[|k| - 1]]
  }

  /** The text before the last '/' of a key (empty when it has none). */
  function BeforeLastSeparator(k: string): string {
    if k == [] then []
    else if k[|k| - 1] == Separator then k[..|k| - 1]
    else BeforeLastSeparator(k[..|k| - 1])
  }

  /** A key ending in '/' and digits splits at that '/', whatever the text before it holds. */
  lemma {:induction false} LastSeparatorBeforeDigits(x: string, d: string)
    requires AllDigits(d)
    ensures AfterLastSeparator(x + [Separator] + d) == d
    ensures BeforeLastSeparator(x + [Separator] + d) == x
  {
    var k := x + [Separator] + d;
    if d == [] {
      assert k[..|k| - 1] == x;
    } else {
      var init := d[..|d| - 1];
      assert k[..|k| - 1] == x + [Separator] + init;
      assert IsDigit(k[|k| - 1]);
      LastSeparatorBeforeDigits(x, init);
      assert d == init + [d[|d| - 1]];
    }
  }

  /**
   * Request keys never alias: equal keys mean the same connection string and
   * the same invoke id, even when connection strings contain '/'.
   */
  lemma RequestKeyInjective(cs1: string, id1: nat, cs2: string, id2: nat)
    ensures RequestKey(cs1, id1) == RequestKey(cs2, id2) <==> cs1 == cs2 && id1 == id2
  {
    LastSeparatorBeforeDigits(cs1, NatToString(id1));
    LastSeparatorBeforeDigits(cs2, NatToString(id2));
    NatToStringInjective(id1, id2);
  }

  /** Two keys joined at a first '/' have equal heads and equal tails. */
  lemma SplitAtFirstSeparator(x1: string, y1: string, x2: string, y2: string)
    requires Separator !in x1 && Separator !in x2
    requires x1 + [Separator] + y1 == x2 + [Separator] + y2
    ensures x1 == x2 && y1 == y2
  {
    IndexOfAfter(x1, Separator, y1);
    IndexOfAfter(x2, Separator, y2);
    var k := x1 + [Separator] + y1;
    assert k[..|x1|] == x1 && k[|x1| + 1..] == y1;
    assert k[..|x2|] == x2 && k[|x2| + 1..] == y2;
  }

  /** As above, with a number in decimal as the head. */
  lemma SplitAtNumber(a: nat, x: string, b: nat, y: string)
    requires NatToString(a) + [Separator] + x == NatToString(b) + [Separator] + y
    ensures a == b && x == y
  {
    DigitsExclude(NatToString(a), Separator);
    DigitsExclude(NatToString(b), Separator);
    SplitAtFirstSeparator(NatToString(a), x, NatToString(b), y);
    NatToStringInjective(a, b);
  }

  /**
   * Property keys do not alias when connection strings contain no '/': equal
   * keys name the same six parts.
   */
  lemma PropertyKeyInjective(p: PropertyId, q: PropertyId)
    requires Separator !in p.connectionString && Separator !in q.connectionString
    ensures PropertyKey(p) == PropertyKey(q) <==> p == q
  {
    if PropertyKey(p) == PropertyKey(q) {
      var p4 := NatToString(p.objectInstance) + [Separator] + p.propertyIdentifier;
      var q4 := NatToString(q.objectInstance) + [Separator] + q.propertyIdentifier;
      var p3 := NatToString(p.objectType) + [Separator] + p4;
      var q3 := NatToString(q.objectType) + [Separator] + q4;
      var p2 := NatToString(p.deviceInstance) + [Separator] + p3;
      var q2 := NatToString(q.deviceInstance) + [Separator] + q3;
      var p1 := NatToString(p.destinationNetwork) + [Separator] + p2;
      var q1 := NatToString(q.destinationNetwork) + [Separator] + q2;
      SplitAtFirstSeparator(p.connectionString, p1, q.connectionString, q1);
      SplitAtNumber(p.destinationNetwork, p2, q.destinationNetwork, q2);
      SplitAtNumber(p.deviceInstance, p3, q.deviceInstance, q3);
      SplitAtNumber(p.objectType, p4, q.objectType, q4);
      SplitAtNumber(p.objectInstance, p.propertyIdentifier, q.objectInstance, q.propertyIdentifier);
    }
  }

  // ---------------------------------------------------------------------------
  // Devices

  /** After AddDevice the entry holds exactly the given fields; every other entry and table is unchanged. */
  lemma AddDeviceStores(t: Tables, deviceInstance: nat, vendorId: nat, destinationNetwork: Option<nat>,
                        destinationAddress: Option<nat>, connectionString: string)
    ensures var r := t.AddDevice(deviceInstance, vendorId, destinationNetwork, destinationAddress, connectionString);
      && deviceInstance in r.devices
      && r.devices[deviceInstance] == Device(connectionString, vendorId, destinationNetwork, destinationAddress)
      && (forall id :: id != deviceInstance ==> (id in r.devices <==> id in t.devices))
      && (forall id :: id != deviceInstance && id in t.devices ==> r.devices[id] == t.devices[id])
      && r.properties == t.properties && r.requests == t.requests
  {
  }

  /** A later AddDevice for the same instance overwrites the earlier one. */
  lemma AddDeviceLastWriteWins(t: Tables, deviceInstance: nat,
                               vendorId1: nat, network1: Option<nat>, address1: Option<nat>, cs1: string,
                               vendorId2: nat, network2: Option<nat>, address2: Option<nat>, cs2: string)
    ensures t.AddDevice(deviceInstance, vendorId1, network1, address1, cs1)
             .AddDevice(deviceInstance, vendorId2, network2, address2, cs2)
         == t.AddDevice(deviceInstance, vendorId2, network2, address2, cs2)
  {
  }

  // ---------------------------------------------------------------------------
  // Properties

  /**
   * After AddObjectProperty the key of (connection string, network, device,
   * object type, object instance, property) holds the value, and no other key changes.
   */
  lemma AddObjectPropertyStores(t: Tables, deviceInstance: nat, objectType: nat, objectInstance: nat,
                                propertyIdentifier: string, propertyValueText: string, destinationNetwork: nat,
                                destinationAddress: seq<byte>, connectionString: string)
    ensures var r := t.AddObjectProperty(deviceInstance, objectType, objectInstance, propertyIdentifier,
                                         propertyValueText, destinationNetwork, destinationAddress, connectionString);
      var key := PropertyKey(PropertyId(connectionString, destinationNetwork, deviceInstance, objectType,
                                        objectInstance, propertyIdentifier));
      && key in r.properties && r.properties[key] == propertyValueText
      && (forall k :: k != key ==> (k in r.properties <==> k in t.properties))
      && (forall k :: k != key && k in t.properties ==> r.properties[k] == t.properties[k])
      && r.devices == t.devices && r.requests == t.requests
  {
  }

  /** The destination address is not part of the key: two writes differing only in it hit the same entry. */
  lemma AddObjectPropertyIgnoresAddress(t: Tables, deviceInstance: nat, objectType: nat, objectInstance: nat,
                                        propertyIdentifier: string, value1: string, value2: string,
                                        destinationNetwork: nat, address1: seq<byte>, address2: seq<byte>,
                                        connectionString: string)
    ensures t.AddObjectProperty(deviceInstance, objectType, objectInstance, propertyIdentifier, value1,
                                destinationNetwork, address1, connectionString)
             .AddObjectProperty(deviceInstance, objectType, objectInstance, propertyIdentifier, value2,
                                destinationNetwork, address2, connectionString)
         == t.AddObjectProperty(deviceInstance, objectType, objectInstance, propertyIdentifier, value2,
                                destinationNetwork, address1, connectionString)
  {
  }

  /**
   * Writing one property leaves the value of every other property in place,
   * when connection strings contain no '/'.
   */
  lemma AddObjectPropertyKeepsOthers(t: Tables, p: PropertyId, value: string, destinationAddress: seq<byte>,
                                     q: PropertyId)
    requires Separator !in p.connectionString && Separator !in q.connectionString
    requires p != q
    ensures var r := t.AddObjectProperty(p.deviceInstance, p.objectType, p.objectInstance, p.propertyIdentifier,
                                         value, p.destinationNetwork, destinationAddress, p.connectionString);
      (PropertyKey(q) in r.properties <==> PropertyKey(q) in t.properties)
      && (PropertyKey(q) in t.properties ==> r.properties[PropertyKey(q)] == t.properties[PropertyKey(q)])
  {
    PropertyKeyInjective(p, q);
  }

  // ---------------------------------------------------------------------------
  // Requests

  /**
   * FindOriginalRequest returns the request stored under (connection string,
   * invoke id), or nothing; without a hit, or without deleteRequest, the
   * tables are unchanged.
   */
  lemma FindOriginalRequestResult(t: Tables, connectionString: string, originalInvokeId: nat, deleteRequest: bool)
    ensures var key := RequestKey(connectionString, originalInvokeId);
      && (t.LookupRequest(connectionString, originalInvokeId).Some? <==> key in t.requests)
      && (key in t.requests ==> t.LookupRequest(connectionString, originalInvokeId).value == t.requests[key])
    ensures t.LookupRequest(connectionString, originalInvokeId).None? || !deleteRequest
            ==> t.FindOriginalRequest(connectionString, originalInvokeId, deleteRequest) == t
  {
  }

  /** Take-once: after a lookup with delete, a second lookup of the same key finds nothing. */
  lemma FindOriginalRequestTakesOnce(t: Tables, connectionString: string, originalInvokeId: nat)
    ensures t.FindOriginalRequest(connectionString, originalInvokeId, true)
             .LookupRequest(connectionString, originalInvokeId) == None
    ensures var r := t.FindOriginalRequest(connectionString, originalInvokeId, true);
      r.devices == t.devices && r.properties == t.properties
  {
  }

  /** A lookup, with or without delete, leaves every request under another key where it was. */
  lemma FindOriginalRequestKeepsOthers(t: Tables, connectionString: string, originalInvokeId: nat,
                                       deleteRequest: bool, otherString: string, otherInvokeId: nat)
    requires connectionString != otherString || originalInvokeId != otherInvokeId
    ensures t.FindOriginalRequest(connectionString, originalInvokeId, deleteRequest)
             .LookupRequest(otherString, otherInvokeId)
         == t.LookupRequest(otherString, otherInvokeId)
  {
    RequestKeyInjective(connectionString, originalInvokeId, otherString, otherInvokeId);
  }

  /** AddNewRequest stores all seven fields, replacing whatever was stored under the key. */
  lemma AddNewRequestOverwrites(t: Tables, connectionString: string, originalInvokeId: nat, destinationNetwork: nat,
                                destinationAddress: seq<byte>, deviceInstance: nat, objectType: nat,
                                objectInstance: nat)
    ensures t.AddNewRequest(connectionString, originalInvokeId, destinationNetwork, destinationAddress,
                            deviceInstance, objectType, objectInstance)
             .LookupRequest(connectionString, originalInvokeId)
         == Some(Request(connectionString, originalInvokeId, destinationNetwork, destinationAddress,
                         deviceInstance, objectType, objectInstance))
  {
  }

  /**
   * Requests do not alias: storing one leaves the request of any other
   * (connection string, invoke id) pair where it was, the same invoke id on
   * another connection included.
   */
  lemma AddNewRequestKeepsOthers(t: Tables, connectionString: string, originalInvokeId: nat,
                                 destinationNetwork: nat, destinationAddress: seq<byte>, deviceInstance: nat,
                                 objectType: nat, objectInstance: nat, otherString: string, otherInvokeId: nat)
    requires connectionString != otherString || originalInvokeId != otherInvokeId
    ensures t.AddNewRequest(connectionString, originalInvokeId, destinationNetwork, destinationAddress,
                            deviceInstance, objectType, objectInstance)
             .LookupRequest(otherString, otherInvokeId)
         == t.LookupRequest(otherString, otherInvokeId)
  {
    RequestKeyInjective(connectionString, originalInvokeId, otherString, otherInvokeId);
  }
}
