/**
 * The two callbacks through which the BACnet stack reaches the UDP socket.
 * Receive takes the oldest queued datagram, writes it and its sender's
 * 6-octet B/IP address into the stack's buffers, and hands it to the message
 * processing; send turns a 6-octet address back into an IP text and a port
 * and copies the message into the datagram to send.
 */
module Transport {
  import opened Wrappers
  import opened JsText
  import opened Address
  import opened Database
  import opened Correlator

  /** A received datagram and the endpoint it came from. */
  datatype Frame = Frame(payload: seq<byte>, sender: Endpoint)

  /** The datagram handed to the socket: payload, destination IP text and port. */
  datatype Datagram = Datagram(payload: seq<byte>, ipAddress: string, port: Port)

  /** The receive FIFO, filled by the socket's message event and drained by the stack. */
  class ReceiveQueue {
    var frames: seq<Frame>

    constructor()
      ensures frames == []
    {
      frames := [];
    }

    /** The socket's message event: the datagram joins the back of the queue. */
    method Push(payload: seq<byte>, sender: Endpoint)
      modifies this
      ensures frames == old(frames) + [Frame(payload, sender)]
    {
      frames := frames + [Frame(payload, sender)];
    }

    /** Array.prototype.shift: the oldest datagram leaves the queue; an empty queue gives `undefined`. */
    method Shift() returns (head: Option<Frame>)
      modifies this
      ensures old(frames) == [] ==> head == None && frames == []
      ensures old(frames) != [] ==> head == Some(old(frames)[0]) && frames == old(frames)[1..]
    {
      if frames == [] {
        return None;
      }
      head := Some(frames[0]);
      frames := frames[1..];
    }
  }

  /** The octets the receive path encodes a sender's connection string into. */
  method EncodeSender(sender: Endpoint) returns (octets: seq<byte>)
    ensures octets == sender.address + [sender.port / 256, sender.port % 256]
  {
    ReceivedConnectionRoundTrip(sender);
    octets := ReceivedConnection(EndpointString(sender)).value;
  }

  /**
   * The six writeUInt8 calls into the connection buffer and the length 6
   * written beside it. A sender's connection string always encodes.
   */
  method WriteReceivedConnection(sender: Endpoint, receivedConnectionString: array<byte>,
                                 receivedConnectionStringLength: array<byte>)
    requires receivedConnectionString.Length >= 6 && receivedConnectionStringLength.Length >= 1
    requires receivedConnectionString != receivedConnectionStringLength
    modifies receivedConnectionString, receivedConnectionStringLength
    ensures receivedConnectionString[..6] == sender.address + [sender.port / 256, sender.port % 256]
    ensures receivedConnectionString[6..] == old(receivedConnectionString[6..])
    ensures receivedConnectionStringLength[0] == 6
    ensures receivedConnectionStringLength[1..] == old(receivedConnectionStringLength[1..])
  {
    var octets := EncodeSender(sender);
    receivedConnectionString[0] := octets[0];
    receivedConnectionString[1] := octets[1];
    receivedConnectionString[2] := octets[2];
    receivedConnectionString[3] := octets[3];
    receivedConnectionString[4] := octets[4];
    receivedConnectionString[5] := octets[5];
    assert receivedConnectionString[..6] == octets;
    receivedConnectionStringLength[0] := 6;
  }

  /** The byte-copy loop: the payload is written at the start of the buffer, the rest is untouched. */
  method CopyIntoBuffer(buffer: array<byte>, payload: seq<byte>)
    requires |payload| <= buffer.Length
    modifies buffer
    ensures buffer[..|payload|] == payload
    ensures buffer[|payload|..] == old(buffer[|payload|..])
  {
    var offset := 0;
    while offset < |payload|
      invariant 0 <= offset <= |payload|
      invariant buffer[..offset] == payload[..offset]
      invariant buffer[offset..] == old(buffer[offset..])
    {
      buffer[offset] := payload[offset];
      offset := offset + 1;
    }
  }

  /**
   * CallbackRecvMessage. `message` and `receivedConnectionString` are the
   * stack's buffers, `receivedConnectionStringLength` the one-octet length
   * it reads back, and `decode` the stack's decoding of a message buffer.
   */
  method CallbackRecvMessage(queue: ReceiveQueue, db: Database, decode: seq<byte> -> Message,
                             message: array<byte>, maxMessageLength: nat,
                             receivedConnectionString: array<byte>, receivedConnectionStringLength: array<byte>)
    returns (length: nat)
    requires maxMessageLength <= message.Length
    requires receivedConnectionString.Length >= 6 && receivedConnectionStringLength.Length >= 1
    requires message != receivedConnectionString && message != receivedConnectionStringLength
    requires receivedConnectionString != receivedConnectionStringLength
    modifies queue, db, message, receivedConnectionString, receivedConnectionStringLength
    // an empty queue: nothing happens
    ensures old(queue.frames) == [] ==>
      && length == 0 && queue.frames == [] && db.State() == old(db.State())
      && message[..] == old(message[..]) && receivedConnectionString[..] == old(receivedConnectionString[..])
      && receivedConnectionStringLength[..] == old(receivedConnectionStringLength[..])
    // otherwise the head frame is taken off, exactly once
    ensures old(queue.frames) != [] ==> queue.frames == old(queue.frames)[1..]
    // a frame too large for the buffer is dropped
    ensures old(queue.frames) != [] && |old(queue.frames)[0].payload| > maxMessageLength ==>
      && length == 0 && db.State() == old(db.State())
      && message[..] == old(message[..]) && receivedConnectionString[..] == old(receivedConnectionString[..])
      && receivedConnectionStringLength[..] == old(receivedConnectionStringLength[..])
    // a frame that fits is copied out, with its sender's address, and processed
    ensures old(queue.frames) != [] && |old(queue.frames)[0].payload| <= maxMessageLength ==>
      var frame := old(queue.frames)[0];
      && length == |frame.payload|
      && message[..length] == frame.payload
      && message[length..] == old(message[length..])
      && receivedConnectionString[..6]
         == frame.sender.address + [frame.sender.port / 256, frame.sender.port % 256]
      && receivedConnectionString[6..] == old(receivedConnectionString[6..])
      && receivedConnectionStringLength[0] == 6
      && receivedConnectionStringLength[1..] == old(receivedConnectionStringLength[1..])
      && db.State() == Correlate(old(db.State()), EndpointString(frame.sender), decode(message[..maxMessageLength]))
  {
    if |queue.frames| == 0 {
      return 0;
    }
    var shifted := queue.Shift();
    var msg := shifted.value;
    var recvedMessage := msg.payload;
    if |recvedMessage| > maxMessageLength {
      return 0;
    }

    WriteReceivedConnection(msg.sender, receivedConnectionString, receivedConnectionStringLength);
    CopyIntoBuffer(message, recvedMessage);
    var connectionString := EndpointString(msg.sender);
    ProcessBACnetMessage(db, connectionString, decode(message[..maxMessageLength]));
    length := |recvedMessage|;
  }

  /**
   * CallbackSendMessage. `connectionString` holds the stack's 6-octet
   * address, `localAddress` and `subnetMask` the interface the client
   * discovered, and `socketOpen` stands for the check that the UDP socket
   * has an address (program.js line 92). The
   * datagram is what is handed to the socket, if anything.
   */
  method CallbackSendMessage(message: array<byte>, messageLength: nat, connectionString: seq<byte>, broadcast: bool,
                             localAddress: seq<byte>, subnetMask: seq<byte>, socketOpen: bool)
    returns (sent: nat, datagram: Option<Datagram>)
    requires messageLength <= message.Length
    requires |connectionString| >= 6
    ensures DecodePort(connectionString) == 0 || !socketOpen ==> sent == 0 && datagram == None
    ensures DecodePort(connectionString) != 0 && socketOpen ==>
      && sent == messageLength
      && datagram == Some(Datagram(message[..messageLength],
                                   if broadcast then DottedQuad(BroadcastOf(localAddress, subnetMask))
                                   else DottedQuad(connectionString[..4]),
                                   DecodePort(connectionString)))
  {
    var ipAddress := "";
    if broadcast {
      var broadcastAddress := BroadcastAddress(localAddress, subnetMask);
      ipAddress := DottedQuad(broadcastAddress);
    } else {
      ipAddress := DottedQuad(connectionString[..4]);
    }

    var port := connectionString[4] as int * 256 + connectionString[5] as int;
    if port <= 0 || port >= 65536 {
      return 0, None;
    }
    if !socketOpen {
      return 0, None;
    }

    var sendBuffer := new byte[messageLength](_ => 0);
    var offset := 0;
    while offset < messageLength
      invariant 0 <= offset <= messageLength
      invariant sendBuffer[..offset] == message[..offset]
    {
      sendBuffer[offset] := message[offset];
      offset := offset + 1;
    }
    assert sendBuffer[..] == sendBuffer[..messageLength];
    return messageLength, Some(Datagram(sendBuffer[..], ipAddress, port));
  }

  /**
   * Round trip through the two callbacks: the address written for a
   * received datagram, handed back to send, names the same IP text and port
   * as the sender's connection string.
   */
  lemma ReplyGoesToSender(sender: Endpoint)
    ensures ReceivedConnection(EndpointString(sender)).Success?
    ensures var o := ReceivedConnection(EndpointString(sender)).value;
      |o| == 6
      && DottedQuad(o[..4]) + ":" + NatToString(DecodePort(o)) == EndpointString(sender)
  {
    ReceivedConnectionRoundTrip(sender);
  }
}
