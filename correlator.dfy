/**
 * ProcessBACnetMessage from the point where the stack's JSON has been read:
 * an I-Am (clause 16.10 of ASHRAE 135) upserts its device, and a
 * ReadPropertyMultiple acknowledgement (clause 15.7) is matched to the
 * request that asked for it, which is taken out of the requests table, and
 * its results are stored as property values. Every other message is ignored.
 */
module Correlator {
  import opened Wrappers
  import opened JsText
  import opened Database

  /** One member of a PropertyValue object: its key and the `_text` of its value. */
  datatype ValueField = ValueField(key: string, text: string)

  /** A ReadResult: the property's name and the members of its PropertyValue, in key order. */
  datatype ReadResult = ReadResult(propertyIdentifier: string, propertyValue: seq<ValueField>)

  /**
   * A decoded message. `Other` stands for every message that is neither an
   * I-Am nor a ReadPropertyMultiple acknowledgement, and for one that did not decode.
   */
  datatype Message =
    | IAm(deviceInstance: nat, vendorId: nat, destinationNetwork: Option<nat>, destinationAddress: Option<nat>)
    | ReadPropertyMultipleAck(originalInvokeId: nat, results: seq<ReadResult>)
    | Other

  /** The key of a PropertyValue member that holds the value's own text, which is skipped. */
  const TextKey: string := "_text"

  /** The value text of a ReadResult: the text of its last member whose key is not `_text`, else "". */
  function ValueText(fields: seq<ValueField>): string {
    if fields == [] then ""
    else if fields[|fields| - 1].key != TextKey then fields[|fields| - 1].text
    else ValueText(fields[..|fields| - 1])
  }

  /** ValueText picks the last member with another key, and is "" when every key is `_text`. */
  lemma {:induction false} ValueTextIsLastValue(fields: seq<ValueField>)
    ensures (forall i :: 0 <= i < |fields| ==> fields[i].key == TextKey) ==> ValueText(fields) == ""
    ensures forall i :: 0 <= i < |fields| && fields[i].key != TextKey
                        && (forall j :: i < j < |fields| ==> fields[j].key == TextKey)
                        ==> ValueText(fields) == fields[i].text
  {
    if fields != [] {
      var init := fields[..|fields| - 1];
      ValueTextIsLastValue(init);
      assert forall i :: 0 <= i < |init| ==> init[i] == fields[i];
    }
  }

  /** The loop over the members of a PropertyValue. */
  method ExtractValueText(fields: seq<ValueField>) returns (text: string)
    ensures text == ValueText(fields)
  {
    text := "";
    var i := 0;
    while i < |fields|
      invariant 0 <= i <= |fields|
      invariant text == ValueText(fields[..i])
    {
      assert fields[..i + 1][..i] == fields[..i];
      if fields[i].key != TextKey {
        text := fields[i].text;
      }
      i := i + 1;
    }
    assert fields[..i] == fields;
  }

  /** The property key a ReadResult is stored under, for the request it answers. */
  function ResultKey(request: Request, connectionString: string, result: ReadResult): string {
    PropertyKey(PropertyId(connectionString, request.destinationNetwork, request.deviceInstance, request.objectType,
                           request.objectInstance, result.propertyIdentifier))
  }

  /** One AddObjectProperty: the value text of a ReadResult under its key. */
  function StoreResult(t: Tables, request: Request, connectionString: string, result: ReadResult): Tables {
    t.AddObjectProperty(request.deviceInstance, request.objectType, request.objectInstance,
                        result.propertyIdentifier, ValueText(result.propertyValue), request.destinationNetwork,
                        request.destinationAddress, connectionString)
  }

  /** One AddObjectProperty per ReadResult, in order, with the request's device and object. */
  function StoreResults(t: Tables, request: Request, connectionString: string, results: seq<ReadResult>): Tables
    decreases |results|
  {
    if results == [] then t
    else StoreResults(StoreResult(t, request, connectionString, results[0]), request, connectionString, results[1..])
  }

  /** The tables after one message from `connectionString`. */
  function Correlate(t: Tables, connectionString: string, message: Message): Tables {
    match message
    case IAm(deviceInstance, vendorId, destinationNetwork, destinationAddress) =>
      t.AddDevice(deviceInstance, vendorId, destinationNetwork, destinationAddress, connectionString)
    case ReadPropertyMultipleAck(originalInvokeId, results) =>
      var found := t.LookupRequest(connectionString, originalInvokeId);
      if found.None? then t
      else StoreResults(t.FindOriginalRequest(connectionString, originalInvokeId, true), found.value,
                        connectionString, results)
    case Other => t
  }

  method ProcessBACnetMessage(db: Database, connectionString: string, message: Message)
    modifies db
    ensures db.State() == Correlate(old(db.State()), connectionString, message)
  {
    match message {
      case IAm(deviceInstance, vendorId, destinationNetwork, destinationAddress) =>
        db.AddDevice(deviceInstance, vendorId, destinationNetwork, destinationAddress, connectionString);
      case ReadPropertyMultipleAck(originalInvokeId, results) =>
        var originalRequest := db.FindOriginalRequest(connectionString, originalInvokeId, true);
        if originalRequest.None? {
          return;
        }
        var request := originalRequest.value;
        var i := 0;
        while i < |results|
          invariant 0 <= i <= |results|
          invariant StoreResults(db.State(), request, connectionString, results[i..])
                 == Correlate(old(db.State()), connectionString, message)
        {
          assert results[i..][1..] == results[i + 1..];
          var text := ExtractValueText(results[i].propertyValue);
          db.AddObjectProperty(request.deviceInstance, request.objectType, request.objectInstance,
                               results[i].propertyIdentifier, text, request.destinationNetwork,
                               request.destinationAddress, connectionString);
          i := i + 1;
        }
      case Other =>
    }
  }

  /** Storing results changes the properties table only. */
  lemma {:induction false} StoreResultsKeepsOtherTables(t: Tables, request: Request, connectionString: string,
                                                         results: seq<ReadResult>)
    decreases |results|
    ensures var r := StoreResults(t, request, connectionString, results);
      r.devices == t.devices && r.requests == t.requests
  {
    if results != [] {
      StoreResultsKeepsOtherTables(StoreResult(t, request, connectionString, results[0]), request, connectionString,
                                   results[1..]);
    }
  }

  /** The property keys the results of an acknowledgement are stored under. */
  function ResultKeys(request: Request, connectionString: string, results: seq<ReadResult>): set<string> {
    set i | 0 <= i < |results| :: ResultKey(request, connectionString, results[i])
  }

  /** After storing results, the property keys are the old ones and one per result. */
  lemma {:induction false} StoreResultsDomain(t: Tables, request: Request, connectionString: string,
                                               results: seq<ReadResult>)
    decreases |results|
    ensures StoreResults(t, request, connectionString, results).properties.Keys
         == t.properties.Keys + ResultKeys(request, connectionString, results)
  {
    if results != [] {
      var rest := results[1..];
      var next := StoreResult(t, request, connectionString, results[0]);
      var first := ResultKey(request, connectionString, results[0]);
      assert next.properties.Keys == t.properties.Keys + {first};
      StoreResultsDomain(next, request, connectionString, rest);
      assert ResultKeys(request, connectionString, results)
          == {first} + ResultKeys(request, connectionString, rest) by {
        assert forall i :: 0 < i < |results| ==> results[i] == rest[i - 1];
        assert forall i :: 0 <= i < |rest| ==> rest[i] == results[i + 1];
      }
    }
  }

  /** A key no result names keeps its value. */
  lemma {:induction false} StoreResultsKeepsUnnamed(t: Tables, request: Request, connectionString: string,
                                                     results: seq<ReadResult>, k: string)
    requires k in t.properties
    requires forall i :: 0 <= i < |results| ==> ResultKey(request, connectionString, results[i]) != k
    decreases |results|
    ensures var r := StoreResults(t, request, connectionString, results);
      k in r.properties && r.properties[k] == t.properties[k]
  {
    if results != [] {
      var rest := results[1..];
      assert forall i :: 0 <= i < |rest| ==> rest[i] == results[i + 1];
      StoreResultsKeepsUnnamed(StoreResult(t, request, connectionString, results[0]), request, connectionString,
                               rest, k);
    }
  }

  /** The key of result i holds its value text when no later result has the same key: the last write wins. */
  lemma {:induction false} StoreResultsLastWins(t: Tables, request: Request, connectionString: string,
                                                 results: seq<ReadResult>, i: nat)
    requires i < |results|
    requires forall j :: i < j < |results| ==>
               ResultKey(request, connectionString, results[j]) != ResultKey(request, connectionString, results[i])
    decreases |results|
    ensures var r := StoreResults(t, request, connectionString, results);
      var key := ResultKey(request, connectionString, results[i]);
      key in r.properties && r.properties[key] == ValueText(results[i].propertyValue)
  {
    var next := StoreResult(t, request, connectionString, results[0]);
    var rest := results[1..];
    assert forall j :: 0 <= j < |rest| ==> rest[j] == results[j + 1];
    if i == 0 {
      StoreResultsKeepsUnnamed(next, request, connectionString, rest, ResultKey(request, connectionString, results[0]));
    } else {
      StoreResultsLastWins(next, request, connectionString, rest, i - 1);
    }
  }

  /** An I-Am makes exactly one AddDevice, with the arrival connection string, and changes nothing else. */
  lemma IAmAddsDevice(t: Tables, connectionString: string, deviceInstance: nat, vendorId: nat,
                      destinationNetwork: Option<nat>, destinationAddress: Option<nat>)
    ensures var r := Correlate(t, connectionString, IAm(deviceInstance, vendorId, destinationNetwork, destinationAddress));
      && r.devices == t.devices[deviceInstance := Device(connectionString, vendorId, destinationNetwork, destinationAddress)]
      && r.properties == t.properties && r.requests == t.requests
  {
  }

  /** An acknowledgement that matches no request writes nothing. */
  lemma UnmatchedAckChangesNothing(t: Tables, connectionString: string, originalInvokeId: nat,
                                   results: seq<ReadResult>)
    requires t.LookupRequest(connectionString, originalInvokeId).None?
    ensures Correlate(t, connectionString, ReadPropertyMultipleAck(originalInvokeId, results)) == t
  {
  }

  /**
   * A matched acknowledgement removes its request, keeps every other request
   * and device, and stores one value per ReadResult under the request's
   * device and object (the last result wins when two name the same property).
   */
  lemma MatchedAckStoresResults(t: Tables, connectionString: string, originalInvokeId: nat,
                                results: seq<ReadResult>)
    requires t.LookupRequest(connectionString, originalInvokeId).Some?
    ensures var request := t.LookupRequest(connectionString, originalInvokeId).value;
      var r := Correlate(t, connectionString, ReadPropertyMultipleAck(originalInvokeId, results));
      && r.devices == t.devices
      && r.requests == t.requests - {RequestKey(connectionString, originalInvokeId)}
      && r.properties.Keys == t.properties.Keys + ResultKeys(request, connectionString, results)
      && (forall i :: 0 <= i < |results|
                      && (forall j :: i < j < |results| ==>
                            ResultKey(request, connectionString, results[j]) != ResultKey(request, connectionString, results[i]))
                      ==> r.properties[ResultKey(request, connectionString, results[i])] == ValueText(results[i].propertyValue))
      && (forall k :: k in t.properties && (forall i :: 0 <= i < |results| ==> ResultKey(request, connectionString, results[i]) != k)
                      ==> r.properties[k] == t.properties[k])
  {
    var request := t.LookupRequest(connectionString, originalInvokeId).value;
    var after := t.FindOriginalRequest(connectionString, originalInvokeId, true);
    StoreResultsKeepsOtherTables(after, request, connectionString, results);
    StoreResultsDomain(after, request, connectionString, results);
    forall i | 0 <= i < |results|
               && (forall j :: i < j < |results| ==>
                     ResultKey(request, connectionString, results[j]) != ResultKey(request, connectionString, results[i]))
      ensures var r := StoreResults(after, request, connectionString, results);
        r.properties[ResultKey(request, connectionString, results[i])] == ValueText(results[i].propertyValue)
    {
      StoreResultsLastWins(after, request, connectionString, results, i);
    }
    forall k | k in t.properties && (forall i :: 0 <= i < |results| ==> ResultKey(request, connectionString, results[i]) != k)
      ensures var r := StoreResults(after, request, connectionString, results);
        k in r.properties && r.properties[k] == t.properties[k]
    {
      StoreResultsKeepsUnnamed(after, request, connectionString, results, k);
    }
  }

  /** Take-once at the message level: the same acknowledgement a second time changes nothing. */
  lemma AckCorrelatedOnce(t: Tables, connectionString: string, originalInvokeId: nat, results: seq<ReadResult>)
    ensures var ack := ReadPropertyMultipleAck(originalInvokeId, results);
      Correlate(Correlate(t, connectionString, ack), connectionString, ack) == Correlate(t, connectionString, ack)
  {
    var ack := ReadPropertyMultipleAck(originalInvokeId, results);
    var found := t.LookupRequest(connectionString, originalInvokeId);
    if found.Some? {
      var after := t.FindOriginalRequest(connectionString, originalInvokeId, true);
      FindOriginalRequestTakesOnce(t, connectionString, originalInvokeId);
      StoreResultsKeepsOtherTables(after, found.value, connectionString, results);
    }
  }

  /**
   * An acknowledgement leaves the request of every other (connection string,
   * invoke id) pair in place: the same invoke id from another device does not
   * consume it.
   */
  lemma AckKeepsOtherRequests(t: Tables, connectionString: string, originalInvokeId: nat, results: seq<ReadResult>,
                              otherString: string, otherInvokeId: nat)
    requires connectionString != otherString || originalInvokeId != otherInvokeId
    ensures Correlate(t, connectionString, ReadPropertyMultipleAck(originalInvokeId, results))
              .LookupRequest(otherString, otherInvokeId)
         == t.LookupRequest(otherString, otherInvokeId)
  {
    var found := t.LookupRequest(connectionString, originalInvokeId);
    if found.Some? {
      var after := t.FindOriginalRequest(connectionString, originalInvokeId, true);
      FindOriginalRequestKeepsOthers(t, connectionString, originalInvokeId, true, otherString, otherInvokeId);
      StoreResultsKeepsOtherTables(after, found.value, connectionString, results);
    }
  }
}
