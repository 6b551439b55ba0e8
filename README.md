# BACnet client bookkeeping, modelled in Dafny

This project models the core of a Node.js BACnet/IP client (ANSI/ASHRAE 135). The client broadcasts Who-Is and
records every device that answers with an I-Am. Once a second it sends each known device a ReadPropertyMultiple
request. It stores every property value from the acknowledgements, matching each acknowledgement to its request
by connection string and invoke id.

The model covers:

- **`database.js`, module `Database`**: the three tables, as a class `Database` with `map` fields that its
  methods update in place. `Tables` is the value of those fields at one moment, and each method's contract
  ties the new state to a function of the old one. The property and request keys are built as strings, the
  way the client builds them: the parts joined with `/`, numbers in decimal.
- **`ProcessBACnetMessage`, module `Correlator`**: the message is taken as already decoded. It is an
  I-Am, a ReadPropertyMultiple acknowledgement, or anything else.
- **The poll loop, module `Poll`**: the invoke id the stack assigns to each request is an input.
- **The two socket callbacks, module `Transport`**: the receive FIFO with its copy into the stack's buffers,
  and the send path.
- **The 6-octet B/IP address of Annex J, module `Address`**: four IPv4 octets then the UDP port, high octet
  first. It covers encoding the connection-string text `"a.b.c.d:port"` into that address, reading it back,
  and the subnet broadcast address.
- **`HelperGetKeyByValue`, module `Lookup`**.
- **The JavaScript conversions the code depends on, module `JsText`**: `indexOf`, `substring`, `split`,
  `Number()`, `parseInt`, the decimal rendering of numbers, and `Buffer.writeUInt8`'s range check. `Option`
  and `Result`, which make `undefined` and thrown errors explicit, are in module `Wrappers`.

Where the design description and the code differ, the model follows the code:

- A request stored under a key that already holds one overwrites it; it is not rejected.
- The value text of a ReadResult is the `_text` of the *last* member whose key is not `_text`, not the first.
- The property key leaves the destination address out.
- The correlator removes the request before it stores any value.
- The client runs on one thread, so take-and-delete is sequential and no locking is modelled.

## Model

| member | source | states |
|---|---|---|
| JsText.NatToString | database.js:68 | the decimal text of a number, as string concatenation renders it: non-empty, digits only, no leading zero |
| JsText.Substring | program.js:142-143 | `substring` with ends in order gives the slice between them, with reversed ends the slice between them swapped, and with an end past the text the rest of the text |
| JsText.SplitJoin | program.js:142 | the pieces `split` returns, joined with the separator, give back the text |
| JsText.SplitPiecesLackSeparator | program.js:142 | no piece that `split` returns contains the separator |
| JsText.ToNumber | program.js:142 | `Number()` on a piece of a dotted quad is a number exactly when the piece is all decimal digits |
| JsText.IndexOf | program.js:142 | `indexOf` gives -1 exactly when the character is absent, otherwise the position of its first occurrence |
| JsText.ParseInt | program.js:143 | `parseInt` is NaN exactly when the text does not start with a decimal digit |
| JsText.ParseIntOfDigits | program.js:143 | `parseInt` reads the leading digits of a text and stops at the first non-digit |
| JsText.DigitsValueOfNatToString | database.js:76 | reading back the decimal text of a number gives the number |
| JsText.NatToStringInjective | database.js:90 | two numbers have the same decimal text exactly when they are equal |
| JsText.WriteUInt8 | program.js:147-152 | `writeUInt8` throws exactly for a number above 255; a number in range is stored as is, and NaN is stored as 0 |
| Address.WriteConnection | program.js:147-152 | the six writes succeed exactly when each of the four address writes and both port writes succeed, and the buffer then holds those six octets in order |
| Address.DecodePort | program.js:82 | the port read from octets 4 and 5 is below 65536, and its quotient and remainder by 256 are octets 4 and 5 |
| Address.HighPortOctetAsWritten | program.js:151 | the exact quotient `port / 256` throws for every port above 65280, and otherwise gives the same octet as the integer part |
| Address.ReceivedConnectionAsWritten | program.js:142-152 | the receive encoding as written throws exactly where the corrected one throws or the port is above 65280; otherwise it gives the same octets |
| Address.ReceivedConnection | program.js:142-152 | the corrected receive encoding is six octets whose last two decode to the parsed port, or to 0 when the port text is not a number |
| Address.PortOctetsDecode | program.js:151-152 | the two port octets decode back to the port as `b4*256+b5` |
| Address.ConnectionStringAsBufferAsWritten | program.js:189-209 | on text with a `:`, the helper as written throws exactly where the corrected one throws or the port is above 65280, and otherwise gives the same octets; on text without `:` it only ever writes the address 0.0.0.0 |
| Address.ConnectionStringAsBufferPort | program.js:189-209 | the corrected helper gives six octets; the port they decode to is the parsed port after the first `:`, and 47808 when that text is not a number or there is no `:` |
| Address.ReceivedConnectionAsWrittenAgrees | program.js:142-152 | for every sender with a port of at most 65280, the receive encoding as written equals the corrected one |
| Address.ConnectionStringAsBufferAsWrittenAgrees | program.js:189-209 | for text "address:port" whose port text is not a number or is at most 65280, the helper as written equals the corrected one |
| Address.SplitDottedQuad | program.js:142 | a dotted quad splits at `.` into the decimal texts of its four octets |
| Address.AddressOctetsOfDottedQuad | program.js:142-150 | each of the four octet texts of a dotted quad is written back as the same octet |
| Address.ConnectionFieldsOfEndpoint | program.js:142-143 | a sender's connection string splits at `:` into its dotted quad and its port number |
| Address.ReceivedConnectionRoundTrip | program.js:142-152 | a sender's connection string encodes to its four address octets, then port div 256 and port mod 256; decoding octets 4 and 5 as `b4*256+b5` gives the port back |
| Address.ConnectionStringAsBufferOfEndpoint | program.js:189-209 | the buffer helper encodes a sender's connection string exactly as the receive path does |
| Address.NonNumericPortUsesDefault | program.js:194-199 | when the text after `:` does not parse as a number, the port written is 47808 (octets 186, 192) |
| Address.NonNumericPortUsesDefaultAsWritten | program.js:193-206 | the code as written also falls back to 47808 for a port that does not parse |
| Address.DefaultPortOctets | program.js:197-206 | port 47808 is written as the octets 186 and 192 |
| Address.HighPortRejectedAsWritten | program.js:143-152 | as written, a valid port above 65280 makes both encoders throw, because `port / 256` is then a fraction above 255 |
| Address.HighPortExample | program.js:143-152 | on "10.0.0.2:65281" the as-written encoder throws; the corrected one gives 10, 0, 0, 2, 255, 1 |
| Address.PortlessAddressAsWritten | program.js:193-206 | as written, "a.b.c.d" with no `:` encodes as 0.0.0.0 with port a |
| Address.PortlessAddressUsesDefaultPort | program.js:191-199 | corrected, "a.b.c.d" with no `:` encodes as a.b.c.d with the default port 47808 |
| Address.PortlessAddressExample | program.js:191-206 | on "192.168.1.101" the as-written helper gives 0, 0, 0, 0, 0, 192; the corrected one gives 192, 168, 1, 101, 186, 192 |
| Address.ConnectionStringAsBufferWithoutColon | program.js:191-199 | corrected, text with no `:` is read as an address alone, with the default port |
| Address.BroadcastOctet | program.js:75 | where the mask bit is set, the broadcast octet has the local address's bit; every other bit is 1 |
| Address.BroadcastAddress | program.js:73-77 | the loop pushes the four broadcast octets of the local address under the mask; a missing entry counts as 0 |
| Database.RequestKeyInjective | database.js:76 | request keys are equal exactly when both connection strings and both invoke ids are equal, for every connection string |
| Database.PropertyKeyInjective | database.js:68 | for connection strings with no `/`, property keys are equal exactly when all six parts are equal |
| Database.Database.constructor | database.js:12-16 | the three tables start empty |
| Database.Database.AddDevice | database.js:51-62 | the new state is the old one with the device entry set to the four given fields |
| Database.Database.AddObjectProperty | database.js:66-70 | the new state is the old one with the value stored under the property key |
| Database.Database.FindOriginalRequest | database.js:74-85 | returns the request stored under (connection string, invoke id), if any, and removes it only when it was found and `deleteRequest` is set |
| Database.Database.AddNewRequest | database.js:88-100 | the new state is the old one with the seven-field record stored under its key |
| Database.AddDeviceStores | database.js:51-62 | after AddDevice the entry holds exactly the four given fields; every other device entry, and the properties and requests tables, are unchanged |
| Database.AddDeviceLastWriteWins | database.js:53-61 | a second AddDevice for the same instance overwrites the first completely |
| Database.AddObjectPropertyStores | database.js:66-70 | after AddObjectProperty the key holds the value and no other key changes |
| Database.AddObjectPropertyIgnoresAddress | database.js:68 | the destination address is not part of the key: a later write that differs only in it overwrites the earlier value |
| Database.AddObjectPropertyKeepsOthers | database.js:68-69 | writing one property leaves every other property's value in place, when connection strings contain no `/` |
| Database.FindOriginalRequestResult | database.js:74-85 | the lookup finds the stored request exactly when its key is present; on a miss, or without delete, the tables are unchanged |
| Database.FindOriginalRequestTakesOnce | database.js:80-82 | after a lookup with delete, a second lookup of the same key finds nothing; devices and properties are unchanged |
| Database.FindOriginalRequestKeepsOthers | database.js:76-82 | a lookup, with or without delete, leaves the request under every other (connection string, invoke id) pair in place |
| Database.AddNewRequestOverwrites | database.js:90-99 | after AddNewRequest the key holds the new record with all seven fields, whatever it held before |
| Database.AddNewRequestKeepsOthers | database.js:90-91 | storing a request leaves every other pair's request in place, including the same invoke id on another connection |
| Correlator.ValueTextIsLastValue | program.js:319-324 | the value text is the `_text` of the last member whose key is not `_text`, and "" when there is none |
| Correlator.ExtractValueText | program.js:319-324 | the loop over the members of a PropertyValue computes exactly that value text |
| Correlator.ProcessBACnetMessage | program.js:248-330 | the new state of the database is the old one after the message: an I-Am upserts; an acknowledgement takes its request and stores its results; anything else changes nothing |
| Correlator.IAmAddsDevice | program.js:279-289 | an I-Am makes exactly one AddDevice, with its instance, vendor id, network, address and arrival connection string; requests and properties are unchanged |
| Correlator.UnmatchedAckChangesNothing | program.js:298-303 | an acknowledgement whose invoke id matches no request on its connection writes nothing |
| Correlator.MatchedAckStoresResults | program.js:298-328 | a matched acknowledgement removes its request and keeps the devices. Its property keys are the old ones plus one per ReadResult, each built from the request's network, device, object type and object instance and the arrival connection string. Each key holds the value of the last result naming it, and every other key keeps its value |
| Correlator.StoreResultsKeepsOtherTables | program.js:311-328 | storing the results changes only the properties table |
| Correlator.StoreResultsDomain | program.js:311-328 | storing the results adds exactly one key per ReadResult |
| Correlator.StoreResultsKeepsUnnamed | program.js:311-328 | a key that no result names keeps its value |
| Correlator.StoreResultsLastWins | program.js:311-328 | the key of a result holds its value text unless a later result writes the same key |
| Correlator.AckCorrelatedOnce | program.js:298-303 | the same acknowledgement a second time changes nothing: its request is gone |
| Correlator.AckKeepsOtherRequests | program.js:299-303 | an acknowledgement does not consume the request of any other (connection string, invoke id) pair |
| Poll.KeyOrder | program.js:472 | every device is visited, and once only: the order has as many entries as the table and exactly its keys |
| Poll.KeyOrderAscending | program.js:472 | the devices are visited in strictly ascending order of instance number |
| Poll.PollFromMin | program.js:472-498 | the poll over a set of devices handles the smallest instance first: it stops there if that device's connection string does not encode, and otherwise records its request and goes on with the rest |
| Poll.PollDevices | program.js:472-498 | the new state of the database is the poll over every device in ascending order, stopping at the first device whose connection string does not encode; the result is the escaping RangeError exactly when some device's connection string does not encode |
| Poll.PollFromKeepsTables | program.js:472-498 | the poll changes only the requests table |
| Poll.PollFromRecordsDeviceReads | program.js:479-497 | every request the poll adds reads the device object of a polled device: object type DEVICE (8), object instance equal to the device instance, destination network 0, and the device's connection string |
| Poll.PollFromStopsAtFailure | program.js:476 | a device whose connection string does not encode ends the poll; no later device is polled |
| Poll.PollFromRecordsEach | program.js:472-498 | each polled device's request is stored under its (connection string, invoke id), unless a later device reuses that pair |
| Poll.PollFromKeepsLater | program.js:497 | a request under a pair no polled device uses stays as it was |
| Poll.PollKeyOrderRecords | program.js:472-498 | whatever test decides which connection strings encode, when all pass and the pairs are distinct, the i-th device in key order has its request under its pair |
| Poll.PollRecordsEveryDevice | program.js:472-498 | when every connection string encodes and the pairs are distinct, each device has its request under its pair |
| Transport.ReceiveQueue.constructor | program.js:33 | the receive FIFO starts empty |
| Transport.ReceiveQueue.Push | program.js:385-388 | a datagram joins the back of the queue with its sender |
| Transport.ReceiveQueue.Shift | program.js:127 | the oldest datagram leaves the queue and is returned; an empty queue gives nothing and stays empty |
| Transport.EncodeSender | program.js:142-152 | a sender's connection string is encoded as its four address octets, port div 256 and port mod 256 |
| Transport.WriteReceivedConnection | program.js:141-155 | the connection buffer holds the sender's four octets, port div 256 and port mod 256; the length written is 6 |
| Transport.CopyIntoBuffer | program.js:160-163 | the payload is copied to the start of the buffer and the rest is untouched |
| Transport.CallbackRecvMessage | program.js:123-172 | an empty queue returns 0 and changes nothing. Otherwise the head frame is taken off exactly once. A frame longer than the buffer is dropped and 0 returned. Any other frame is copied out with its sender's address and length 6, processed, and its length returned |
| Transport.CallbackSendMessage | program.js:65-120 | port 0 (from octets 4 and 5), or a socket without an address (`socketOpen` false), sends nothing and returns 0. Otherwise the message is copied into a datagram, sent to the broadcast address or to octets 0-3 and the decoded port, and its length is returned |
| Transport.ReplyGoesToSender | program.js:79-82 | the address written for a received datagram, decoded by the send path, gives back the sender's connection string |
| Lookup.KeyByValue | program.js:184-187 | returns the first key, in key order, whose value equals the one sought, or nothing exactly when no entry holds it |

## Left out

- `logging.js`, every logging call and `database.Print`: they only format diagnostic text.
- Foreign-function plumbing: callback registration and the reinterpretation of raw memory as buffers. The stack's buffers are Dafny
  arrays and sequences.
- Calls into the native BACnet stack:
  - `DecodeAsJSON` becomes the `decode` parameter of `Transport.CallbackRecvMessage`.
  - `BuildReadProperty` and `SendReadProperty` are left out; the invoke ids they assign are an input of
    `Poll.PollDevices`.
  - `SendWhoIs`, `Tick`, `GetPropertyCharacterString` and the helper that turns a character array into a string are left out.
- `JSON.parse` and the optional-chaining walk are replaced by the `Correlator.Message` datatype. A reply
  that does not parse is `Other`. These decoded shapes are not modelled:
  - a field that is missing (`undefined`);
  - an invoke id whose JSON text is not plain decimal;
  - a `ReadResult` list that is absent. The code deletes the request and then throws at program.js:310.
    A `ReadResult` that is a single object has no `length`, so the loop runs zero times; that is
    `ReadPropertyMultipleAck` with no results.
  - a PropertyValue member with no `_text` (the code stores `undefined`).
- The UDP socket: bind, the asynchronous send with its error path, and the address check at program.js:92.
  `socketOpen` stands for that check; Node's `address()` throws on a socket that is not bound rather than
  returning `null`, which is not modelled. The datagram handed to the socket is returned instead.
- Discovery of the local address and subnet mask (parameters), the timers (the poll is one step), and the
  system-time callback.
- The one-octet destination-address buffer of the poll is allocated uninitialised; its content is an input.
- `JsText.ToNumber`, `JsText.ParseInt`: only decimal digits are modelled, not whitespace, signs, hexadecimal,
  exponents or fractions. Connection strings come from the socket, whose addresses are plain dotted quads.
- `Transport.CallbackRecvMessage` requires a connection buffer of at least six octets. With a shorter one, the
  `writeUInt8` calls throw after the frame has been taken off the queue; the stack always passes a buffer
  large enough for the 6-octet B/IP address.
- `Transport.CallbackSendMessage` requires at least six octets of connection string. With fewer, the code's
  reads throw; the stack always passes the 6-octet B/IP address.
- `Database.PropertyKeyInjective`, `Database.AddObjectPropertyKeepsOthers` hold only for connection strings
  without `/`. With a `/` in them, two different properties can share a key.
- `Poll.PollRecordsEveryDevice` requires distinct (connection string, invoke id) pairs. When two devices
  share one, the later record overwrites the earlier (`Poll.PollFromRecordsEach`).
- Receive and poll use the corrected encoders (`Address.ReceivedConnection`,
  `Address.ConnectionStringAsBuffer`). The code as written is kept beside them for the findings below.

## Findings

| source | as written | input that shows it | evidently intended | confidence | as-written member | corrected member |
|---|---|---|---|---|---|---|
| program.js:151 | The high port octet is written as the exact quotient port / 256. The same write is at program.js:205. `writeUInt8` throws for a value above 255, so every port from 65281 to 65535 throws. | a datagram from 10.0.0.2:65281 | the integer part of port / 256, i.e. octets 255, 1 | high; not executed | Address.HighPortRejectedAsWritten | Address.ReceivedConnectionRoundTrip |
| program.js:193-194 | The helper's comment allows "a.b.c.d" with no port. For such text, `indexOf(':')` is -1, so the address text is empty (0.0.0.0). The port is then `parseInt` of the whole string, i.e. the first octet. | "192.168.1.101" | address 192.168.1.101 with the default port 47808 | medium; not executed | Address.PortlessAddressAsWritten | Address.PortlessAddressUsesDefaultPort |
