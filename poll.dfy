/**
 * One run of the ReadPropertyMultiple poll: for every known device, in the
 * order of its instance number, the client sends a read of all properties of
 * the device object and records the outstanding request under the connection
 * string and the invoke id the stack assigned (an input here).
 */
module Poll {
  import opened Wrappers
  import opened JsText
  import opened Address
  import opened Database

  /** The object type DEVICE (ASHRAE 135, clause 21, BACnetObjectType). */
  const ObjectTypeDevice: nat := 8

  /** The destination network the poll sends to: 0, the local network. */
  const PollDestinationNetwork: nat := 0

  /** The smallest key of a non-empty set. */
  ghost function MinKey(s: set<nat>): (m: nat)
    requires s != {}
    ensures m in s && forall k :: k in s ==> m <= k
    decreases s
  {
    var x :| x in s;
    if s == {x} then x
    else
      var rest := s - {x};
      assert rest != {} by {
        var y :| y in s && y != x;
        assert y in rest;
      }
      var y := MinKey(rest);
      assert forall k :: k in s ==> k == x || k in rest;
      if x < y then x else y
  }

  /** The keys of the devices table in the order the poll visits them: every key once. */
  ghost function KeyOrder(s: set<nat>): (r: seq<nat>)
    ensures |r| == |s|
    ensures forall k :: k in r <==> k in s
    decreases s
  {
    if s == {} then []
    else
      var m := MinKey(s);
      [m] + KeyOrder(s - {m})
  }

  /** Strictly ascending. */
  ghost predicate Ascending(r: seq<nat>) {
    forall i, j :: 0 <= i < j < |r| ==> r[i] < r[j]
  }

  lemma AscendingCons(m: nat, rest: seq<nat>)
    requires Ascending(rest)
    requires forall k :: k in rest ==> m < k
    ensures Ascending([m] + rest)
  {
    var r := [m] + rest;
    forall i, j | 0 <= i < j < |r|
      ensures r[i] < r[j]
    {
      assert r[j] == rest[j - 1];
      if i > 0 {
        assert r[i] == rest[i - 1];
      } else {
        assert rest[j - 1] in rest;
      }
    }
  }

  /** The poll visits the keys in ascending order of device instance. */
  lemma {:induction false} KeyOrderAscending(s: set<nat>)
    ensures Ascending(KeyOrder(s))
    decreases s
  {
    if s != {} {
      var m := MinKey(s);
      var rest := KeyOrder(s - {m});
      KeyOrderAscending(s - {m});
      assert forall k :: k in rest ==> m < k;
      AscendingCons(m, rest);
    }
  }

  /** The request the poll records for a device. */
  function PollRequest(deviceInstance: nat, device: Device, invokeId: nat, addressOctet: byte): Request {
    Request(device.connectionString, invokeId, PollDestinationNetwork, [addressOctet], deviceInstance,
            ObjectTypeDevice, deviceInstance)
  }

  /** Whether the device's connection string encodes into a connection buffer (else the helper throws). */
  predicate Encodes(device: Device) {
    ConnectionStringAsBuffer(device.connectionString).Success?
  }

  /**
   * The poll over the devices `keys`, the i-th getting `invokeIds[i]`; the
   * first device whose connection string does not encode ends the poll.
   * Which strings encode is the parameter `encodes` (the poll passes
   * Encodes), so that the lemmas below hold for any such test and need not
   * look inside the address encoder.
   */
  function PollFrom(t: Tables, encodes: Device -> bool, keys: seq<nat>,
                    invokeIds: seq<byte>, addressOctets: seq<byte>): Tables
    requires forall k :: k in keys ==> k in t.devices
    requires |invokeIds| >= |keys| && |addressOctets| >= |keys|
    decreases |keys|
  {
    if keys == [] then t
    else
      var device := t.devices[keys[0]];
      if !encodes(device) then t
      else
        var r := PollRequest(keys[0], device, invokeIds[0], addressOctets[0]);
        var next := t.AddNewRequest(r.connectionString, r.originalInvokeId, r.destinationNetwork,
                                    r.destinationAddress, r.deviceInstance, r.objectType, r.objectInstance);
        PollFrom(next, encodes, keys[1..], invokeIds[1..], addressOctets[1..])
  }

  /** The poll over every device of the table, in ascending order. */
  ghost function PollAll(t: Tables, invokeIds: seq<byte>, addressOctets: seq<byte>): Tables
    requires |invokeIds| >= |t.devices| && |addressOctets| >= |t.devices|
  {
    PollFrom(t, Encodes, KeyOrder(t.devices.Keys), invokeIds, addressOctets)
  }

  /**
   * The poll loop body. `invokeIds[i]` is the invoke id the stack assigns to
   * the i-th request sent and `addressOctets[i]` the content of the one-octet
   * destination-address buffer the client allocates without initialising.
   * The RangeError of a connection string that does not encode escapes the
   * loop: the result is a Failure exactly when some device's string does not
   * encode, and the requests recorded before it stay.
   */
  method PollDevices(db: Database, invokeIds: seq<byte>, addressOctets: seq<byte>) returns (r: Result<(), JsError>)
    requires |invokeIds| >= |db.devices| && |addressOctets| >= |db.devices|
    modifies db
    ensures db.State() == PollAll(old(db.State()), invokeIds, addressOctets)
    ensures r.Failure? <==> exists k :: k in old(db.devices) && !Encodes(old(db.devices)[k])
  {
    var remaining := db.devices.Keys;
    var i := 0;
    while remaining != {}
      invariant db.devices == old(db.devices)
      invariant remaining <= db.devices.Keys
      invariant i + |remaining| == |db.devices|
      invariant PollFrom(db.State(), Encodes, KeyOrder(remaining), invokeIds[i..], addressOctets[i..])
             == PollAll(old(db.State()), invokeIds, addressOctets)
      invariant forall k :: k in db.devices && k !in remaining ==> Encodes(db.devices[k])
      decreases remaining
    {
      assert MinKey(remaining) in remaining && forall k :: k in remaining ==> MinKey(remaining) <= k;
      var deviceIdentifier :| deviceIdentifier in remaining && forall k :: k in remaining ==> deviceIdentifier <= k;
      assert deviceIdentifier == MinKey(remaining);
      assert |remaining| >= 1;
      var deviceObject := db.devices[deviceIdentifier];
      var newConnectionString := ConnectionStringAsBuffer(deviceObject.connectionString);
      if newConnectionString.Failure? {
        PollFromMin(db.State(), Encodes, remaining, invokeIds[i..], addressOctets[i..]);
        return Failure(newConnectionString.error);
      }
      PollFromMin(db.State(), Encodes, remaining, invokeIds[i..], addressOctets[i..]);
      assert invokeIds[i..][1..] == invokeIds[i + 1..];
      assert addressOctets[i..][1..] == addressOctets[i + 1..];
      db.AddNewRequest(deviceObject.connectionString, invokeIds[i], PollDestinationNetwork, [addressOctets[i]],
                       deviceIdentifier, ObjectTypeDevice, deviceIdentifier);
      remaining := remaining - {deviceIdentifier};
      i := i + 1;
    }
    return Success(());
  }

  /** One step of the poll over a set of keys: the smallest key first, then the rest. */
  lemma PollFromMin(t: Tables, encodes: Device -> bool, s: set<nat>, invokeIds: seq<byte>, addressOctets: seq<byte>)
    requires s != {} && s <= t.devices.Keys
    requires |invokeIds| >= |s| && |addressOctets| >= |s|
    ensures var m := MinKey(s);
      var device := t.devices[m];
      PollFrom(t, encodes, KeyOrder(s), invokeIds, addressOctets)
      == if !encodes(device) then t
         else PollFrom(t.AddNewRequest(device.connectionString, invokeIds[0], PollDestinationNetwork, [addressOctets[0]],
                                       m, ObjectTypeDevice, m),
                       encodes, KeyOrder(s - {m}), invokeIds[1..], addressOctets[1..])
  {
    var keys := KeyOrder(s);
    assert keys[0] == MinKey(s) && keys[1..] == KeyOrder(s - {MinKey(s)});
  }

  /** The poll only adds requests: devices and properties are untouched. */
  lemma {:induction false} PollFromKeepsTables(t: Tables, encodes: Device -> bool,
                                               keys: seq<nat>, invokeIds: seq<byte>, addressOctets: seq<byte>)
    requires forall k :: k in keys ==> k in t.devices
    requires |invokeIds| >= |keys| && |addressOctets| >= |keys|
    decreases |keys|
    ensures var r := PollFrom(t, encodes, keys, invokeIds, addressOctets);
      r.devices == t.devices && r.properties == t.properties
  {
    if keys != [] && encodes(t.devices[keys[0]]) {
      var r := PollRequest(keys[0], t.devices[keys[0]], invokeIds[0], addressOctets[0]);
      var next := t.AddNewRequest(r.connectionString, r.originalInvokeId, r.destinationNetwork,
                                  r.destinationAddress, r.deviceInstance, r.objectType, r.objectInstance);
      PollFromKeepsTables(next, encodes, keys[1..], invokeIds[1..], addressOctets[1..]);
    }
  }

  /**
   * Every request the poll leaves behind is either one that was there before
   * or a read of a known device's device object: object type DEVICE, object
   * instance equal to the device instance, destination network 0, and the
   * device's connection string.
   */
  lemma {:induction false} PollFromRecordsDeviceReads(t: Tables, encodes: Device -> bool,
                                                      keys: seq<nat>, invokeIds: seq<byte>, addressOctets: seq<byte>)
    requires forall k :: k in keys ==> k in t.devices
    requires |invokeIds| >= |keys| && |addressOctets| >= |keys|
    decreases |keys|
    ensures var r := PollFrom(t, encodes, keys, invokeIds, addressOctets);
      forall key :: key in r.requests ==>
        (key in t.requests && r.requests[key] == t.requests[key])
        || (var q := r.requests[key];
            && q.objectType == ObjectTypeDevice && q.objectInstance == q.deviceInstance
            && q.destinationNetwork == PollDestinationNetwork
            && q.deviceInstance in keys && q.connectionString == t.devices[q.deviceInstance].connectionString
            && key == RequestKey(q.connectionString, q.originalInvokeId))
  {
    if keys != [] && encodes(t.devices[keys[0]]) {
      var r := PollRequest(keys[0], t.devices[keys[0]], invokeIds[0], addressOctets[0]);
      var next := t.AddNewRequest(r.connectionString, r.originalInvokeId, r.destinationNetwork,
                                  r.destinationAddress, r.deviceInstance, r.objectType, r.objectInstance);
      PollFromRecordsDeviceReads(next, encodes, keys[1..], invokeIds[1..], addressOctets[1..]);
    }
  }

  /** A device whose connection string does not encode ends the poll: no later device is polled. */
  lemma {:induction false} PollFromStopsAtFailure(t: Tables, encodes: Device -> bool,
                                                  keys: seq<nat>, invokeIds: seq<byte>, addressOctets: seq<byte>,
                                                  i: nat)
    requires forall k :: k in keys ==> k in t.devices
    requires |invokeIds| >= |keys| && |addressOctets| >= |keys|
    requires i < |keys| && !encodes(t.devices[keys[i]])
    decreases i
    ensures PollFrom(t, encodes, keys, invokeIds, addressOctets)
         == PollFrom(t, encodes, keys[..i], invokeIds, addressOctets)
  {
    var prefix := keys[..i];
    if i == 0 {
      assert prefix == [];
    } else if !encodes(t.devices[keys[0]]) {
      assert prefix[0] == keys[0];
    } else {
      var r := PollRequest(keys[0], t.devices[keys[0]], invokeIds[0], addressOctets[0]);
      var next := t.AddNewRequest(r.connectionString, r.originalInvokeId, r.destinationNetwork,
                                  r.destinationAddress, r.deviceInstance, r.objectType, r.objectInstance);
      assert PollFrom(t, encodes, keys, invokeIds, addressOctets)
          == PollFrom(next, encodes, keys[1..], invokeIds[1..], addressOctets[1..]);
      assert prefix[0] == keys[0] && prefix[1..] == keys[1..][..i - 1];
      assert PollFrom(t, encodes, prefix, invokeIds, addressOctets)
          == PollFrom(next, encodes, prefix[1..], invokeIds[1..], addressOctets[1..]);
      PollFromStopsAtFailure(next, encodes, keys[1..], invokeIds[1..], addressOctets[1..], i - 1);
    }
  }

  /**
   * When every device's connection string encodes, the device at position i
   * ends up with its request, unless a later device is recorded under the
   * same (connection string, invoke id), which overwrites it.
   */
  lemma {:induction false} PollFromRecordsEach(t: Tables, encodes: Device -> bool,
                                               keys: seq<nat>, invokeIds: seq<byte>, addressOctets: seq<byte>, i: nat)
    requires forall k :: k in keys ==> k in t.devices
    requires |invokeIds| >= |keys| && |addressOctets| >= |keys|
    requires forall k :: k in keys ==> encodes(t.devices[k])
    requires i < |keys|
    requires forall j :: i < j < |keys| ==>
               (t.devices[keys[j]].connectionString, invokeIds[j]) != (t.devices[keys[i]].connectionString, invokeIds[i])
    decreases |keys|
    ensures PollFrom(t, encodes, keys, invokeIds, addressOctets)
              .LookupRequest(t.devices[keys[i]].connectionString, invokeIds[i])
         == Some(PollRequest(keys[i], t.devices[keys[i]], invokeIds[i], addressOctets[i]))
  {
    var r := PollRequest(keys[0], t.devices[keys[0]], invokeIds[0], addressOctets[0]);
    var next := t.AddNewRequest(r.connectionString, r.originalInvokeId, r.destinationNetwork,
                                r.destinationAddress, r.deviceInstance, r.objectType, r.objectInstance);
    if i == 0 {
      PollFromKeepsLater(next, encodes, keys[1..], invokeIds[1..], addressOctets[1..],
                         t.devices[keys[0]].connectionString, invokeIds[0]);
    } else {
      PollFromRecordsEach(next, encodes, keys[1..], invokeIds[1..], addressOctets[1..], i - 1);
    }
  }

  /** Requests under a pair that no polled device uses stay as they were. */
  lemma {:induction false} PollFromKeepsLater(t: Tables, encodes: Device -> bool,
                                              keys: seq<nat>, invokeIds: seq<byte>, addressOctets: seq<byte>,
                                              connectionString: string, invokeId: nat)
    requires forall k :: k in keys ==> k in t.devices
    requires |invokeIds| >= |keys| && |addressOctets| >= |keys|
    requires forall j :: 0 <= j < |keys| ==> (t.devices[keys[j]].connectionString, invokeIds[j] as nat) != (connectionString, invokeId)
    decreases |keys|
    ensures PollFrom(t, encodes, keys, invokeIds, addressOctets).LookupRequest(connectionString, invokeId)
         == t.LookupRequest(connectionString, invokeId)
  {
    if keys != [] && encodes(t.devices[keys[0]]) {
      var r := PollRequest(keys[0], t.devices[keys[0]], invokeIds[0], addressOctets[0]);
      AddNewRequestKeepsOthers(t, r.connectionString, r.originalInvokeId, r.destinationNetwork,
                               r.destinationAddress, r.deviceInstance, r.objectType, r.objectInstance,
                               connectionString, invokeId);
      var next := t.AddNewRequest(r.connectionString, r.originalInvokeId, r.destinationNetwork,
                                  r.destinationAddress, r.deviceInstance, r.objectType, r.objectInstance);
      PollFromKeepsLater(next, encodes, keys[1..], invokeIds[1..], addressOctets[1..], connectionString, invokeId);
    }
  }

  /** PollRecordsEveryDevice for any test of which devices encode. */
  lemma PollKeyOrderRecords(t: Tables, encodes: Device -> bool, invokeIds: seq<byte>, addressOctets: seq<byte>, i: nat)
    requires |invokeIds| >= |t.devices| && |addressOctets| >= |t.devices|
    requires forall k :: k in t.devices ==> encodes(t.devices[k])
    requires var keys := KeyOrder(t.devices.Keys);
      forall j, l :: 0 <= j < l < |keys| ==>
        (t.devices[keys[j]].connectionString, invokeIds[j]) != (t.devices[keys[l]].connectionString, invokeIds[l])
    requires i < |t.devices|
    ensures var keys := KeyOrder(t.devices.Keys);
      PollFrom(t, encodes, keys, invokeIds, addressOctets)
        .LookupRequest(t.devices[keys[i]].connectionString, invokeIds[i])
      == Some(PollRequest(keys[i], t.devices[keys[i]], invokeIds[i], addressOctets[i]))
  {
    var keys := KeyOrder(t.devices.Keys);
    forall j | i < j < |keys|
      ensures (t.devices[keys[j]].connectionString, invokeIds[j])
           != (t.devices[keys[i]].connectionString, invokeIds[i])
    {
      assert 0 <= i < j < |keys|;
    }
    PollFromRecordsEach(t, encodes, keys, invokeIds, addressOctets, i);
  }

  /**
   * One request per known device: when every connection string encodes and
   * the devices' (connection string, invoke id) pairs are distinct, the i-th
   * device in key order (every device is one, by KeyOrder's contract) has
   * its request, a read of its device object, under its pair.
   */
  lemma PollRecordsEveryDevice(t: Tables, invokeIds: seq<byte>, addressOctets: seq<byte>, i: nat)
    requires |invokeIds| >= |t.devices| && |addressOctets| >= |t.devices|
    requires forall k :: k in t.devices ==> Encodes(t.devices[k])
    requires var keys := KeyOrder(t.devices.Keys);
      forall j, l :: 0 <= j < l < |keys| ==>
        (t.devices[keys[j]].connectionString, invokeIds[j]) != (t.devices[keys[l]].connectionString, invokeIds[l])
    requires i < |t.devices|
    ensures var id := KeyOrder(t.devices.Keys)[i];
      var device := t.devices[id];
      PollAll(t, invokeIds, addressOctets).LookupRequest(device.connectionString, invokeIds[i])
      == Some(Request(device.connectionString, invokeIds[i], 0, [addressOctets[i]], id, ObjectTypeDevice, id))
  {
    PollKeyOrderRecords(t, Encodes, invokeIds, addressOctets, i);
  }
}
