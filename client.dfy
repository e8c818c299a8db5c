/**
 * The peer side (client.py): the registration handshake, the send path,
 * the inbox that the receive thread fills, and `get_messages`, which
 * empties it.
 *
 * The socket operations become parameters. `Register` is given what the
 * registration connection yielded, and `ReceiveLoop` the sequence of
 * `recvfrom` outcomes. `Send` returns the datagram it hands to the socket.
 */
module Peer {
  import opened Wire

  /** The request `register` writes: `{"action": "register", "payload": <bound UDP port>}`. */
  function RegistrationRequest(udpPort: int): Packet
  {
    Encoded(JObject(map["action" := JStr("register"), "payload" := JInt(udpPort)]))
  }

  /**
   * What `register` stores, given what the connection yielded (`None`:
   * connect, send or recv raised). `Some(id)` means `self.identifier = id`;
   * `None` means the identifier is left as it was, whether the server said
   * no or an exception was caught.
   */
  function Registration(reply: Option<Packet>): (r: Option<Json>)
    ensures r.Some? <==>
      && reply.Some? && reply.value.Encoded? && reply.value.json.JObject?
      && "success" in reply.value.json.fields && Truthy(reply.value.json.fields["success"])
      && "identifier" in reply.value.json.fields
    ensures r.Some? ==> r.value == reply.value.json.fields["identifier"]
  {
    match reply
    case Some(Encoded(JObject(fields))) =>
      if "success" in fields && Truthy(fields["success"]) && "identifier" in fields
      then Some(fields["identifier"])
      else None
    case _ => None
  }

  /** The negation of `not self.identifier`. */
  predicate IsRegistered(identifier: Option<Json>)
  {
    identifier.Some? && Truthy(identifier.value)
  }

  /** The envelope `send` wraps every message in. */
  function Envelope(identifier: Json, message: Json): Packet
  {
    Encoded(JObject(map["identifier" := identifier, "message" := message]))
  }

  /**
   * `parse_data`: decoded JSON, or `{"message": <text>}` when the text is
   * not JSON. On bytes that are not UTF-8 the fallback's own `decode()`
   * raises; `None` stands for that exception.
   */
  function ParseData(data: Packet): (r: Option<Json>)
    ensures r.None? <==> data.Binary?
  {
    match data
    case Encoded(j) => Some(j)
    case Text(t) => Some(JObject(map["message" := JStr(t)]))
    case Binary(_) => None
  }

  /** The result of emptying the inbox: the parsed messages (`None`: an exception escaped) and what stays queued. */
  datatype Drained = Drained(messages: Option<seq<Json>>, rest: seq<Packet>)

  /** `get_messages` on the queue `queue`: pop from the front and parse until empty or until parsing raises. */
  function Drain(queue: seq<Packet>): Drained
  {
    if queue == [] then Drained(Some([]), [])
    else match ParseData(queue[0])
      case None => Drained(None, queue[1..])
      case Some(m) =>
        var d := Drain(queue[1..]);
        if d.messages.Some? then Drained(Some([m] + d.messages.value), d.rest) else d
  }

  /** `collected` followed by what a drain of the remaining queue yields. */
  function After(collected: seq<Json>, d: Drained): Drained
  {
    if d.messages.Some? then Drained(Some(collected + d.messages.value), d.rest) else d
  }

  /** Every queued datagram that is UTF-8 comes out once, parsed, in arrival order, and the inbox ends empty. */
  lemma {:induction false} DrainInOrder(queue: seq<Packet>)
    requires forall i :: 0 <= i < |queue| ==> !queue[i].Binary?
    ensures Drain(queue).rest == []
    ensures Drain(queue).messages.Some? && |Drain(queue).messages.value| == |queue|
    ensures forall i :: 0 <= i < |queue| ==> Some(Drain(queue).messages.value[i]) == ParseData(queue[i])
  {
    if queue != [] {
      DrainInOrder(queue[1..]);
      var ms := Drain(queue[1..]).messages.value;
      assert Drain(queue).messages.value == [ParseData(queue[0]).value] + ms;
      forall i | 1 <= i < |queue|
        ensures Some(Drain(queue).messages.value[i]) == ParseData(queue[i])
      {
        assert queue[1..][i - 1] == queue[i];
      }
    }
  }

  /**
   * A datagram that is not UTF-8 makes `get_messages` raise: what was
   * already popped is lost, that datagram is gone, and the ones behind it
   * stay queued.
   */
  lemma {:induction false} DrainStopsAtBinary(queue: seq<Packet>, k: nat)
    requires k < |queue| && queue[k].Binary?
    requires forall i :: 0 <= i < k ==> !queue[i].Binary?
    ensures Drain(queue) == Drained(None, queue[k + 1..])
  {
    if k > 0 {
      DrainStopsAtBinary(queue[1..], k - 1);
      assert queue[1..][k..] == queue[k + 1..];
    }
  }

  /** With no new arrivals, a second drain returns an empty list. */
  lemma SecondDrainIsEmpty(queue: seq<Packet>)
    requires forall i :: 0 <= i < |queue| ==> !queue[i].Binary?
    ensures Drain(Drain(queue).rest) == Drained(Some([]), [])
  {
    DrainInOrder(queue);
  }

  /**
   * A total decoding of raw bytes: each byte becomes the character with
   * that code (`bytes.decode("latin-1")`), so distinct byte strings give
   * distinct texts.
   */
  function Latin1(bytes: seq<bv8>): (t: string)
    ensures |t| == |bytes|
    ensures forall i :: 0 <= i < |bytes| ==> t[i] as int == bytes[i] as int
  {
    seq(|bytes|, i requires 0 <= i < |bytes| => bytes[i] as int as char)
  }

  /**
   * `parse_data` as the inbox's contract intends it: an entry that does not
   * decode is still surfaced as `{"message": <text>}`, with bytes that are
   * not UTF-8 decoded byte by byte instead of raising.
   */
  function ParseLossless(data: Packet): (r: Json)
    ensures ParseData(data).Some? ==> r == ParseData(data).value
    ensures data.Binary? ==> r == JObject(map["message" := JStr(Latin1(data.bytes))])
  {
    match data
    case Binary(bytes) => JObject(map["message" := JStr(Latin1(bytes))])
    case _ => ParseData(data).value
  }

  /** `get_messages` with the total `ParseLossless`: it cannot raise, so the inbox always ends empty. */
  function DrainLossless(queue: seq<Packet>): seq<Json>
  {
    if queue == [] then [] else [ParseLossless(queue[0])] + DrainLossless(queue[1..])
  }

  /** Every queued datagram, whatever its bytes, comes out once, parsed, in arrival order. */
  lemma {:induction false} LosslessDrainInOrder(queue: seq<Packet>)
    ensures |DrainLossless(queue)| == |queue|
    ensures forall i :: 0 <= i < |queue| ==> DrainLossless(queue)[i] == ParseLossless(queue[i])
  {
    if queue != [] {
      LosslessDrainInOrder(queue[1..]);
      forall i | 1 <= i < |queue|
        ensures DrainLossless(queue)[i] == ParseLossless(queue[i])
      {
        assert queue[1..][i - 1] == queue[i];
      }
    }
  }

  /** Distinct byte strings that are not UTF-8 give distinct corrected messages: no bytes are lost. */
  lemma LosslessKeepsBytes(a: seq<bv8>, b: seq<bv8>)
    requires ParseLossless(Binary(a)) == ParseLossless(Binary(b))
    ensures a == b
  {
    assert JObject(map["message" := JStr(Latin1(a))]).fields["message"] == JStr(Latin1(a));
    assert Latin1(a) == Latin1(b);
    forall i | 0 <= i < |a| ensures a[i] == b[i] {
      assert Latin1(a)[i] as int == a[i] as int && Latin1(b)[i] as int == b[i] as int;
    }
  }

  /** Where the source's `get_messages` does not raise, the lossless drain returns the same messages. */
  lemma {:induction false} LosslessAgrees(queue: seq<Packet>)
    requires forall i :: 0 <= i < |queue| ==> !queue[i].Binary?
    ensures Drain(queue) == Drained(Some(DrainLossless(queue)), [])
  {
    if queue != [] {
      LosslessAgrees(queue[1..]);
    }
  }

  /** One outcome of `recvfrom` in the receive thread. */
  datatype RecvEvent = Arrived(packet: Packet) | SocketError

  /** The datagrams the receive thread appends: those before the first socket error. */
  function Arrivals(events: seq<RecvEvent>): seq<Packet>
  {
    if events == [] || events[0].SocketError? then [] else [events[0].packet] + Arrivals(events[1..])
  }

  class Client {
    var identifier: Option<Json>
    const serverHost: string
    const serverPortTcp: int
    const serverPortUdp: int
    /** The address the UDP socket is bound to (its port chosen by the OS when 0 was asked for). */
    const clientUdp: Addr
    /** The inbox `server_message`, oldest first. */
    var serverMessage: seq<Packet>
    /** `SocketThread.is_running` */
    var receiverRunning: bool
    /** `udp_sock` not yet closed */
    var socketOpen: bool

    constructor (serverHost: string, serverPortTcp: int, serverPortUdp: int, clientUdp: Addr)
      ensures identifier == None && serverMessage == []
      ensures receiverRunning && socketOpen
      ensures this.serverHost == serverHost && this.serverPortTcp == serverPortTcp
      ensures this.serverPortUdp == serverPortUdp && this.clientUdp == clientUdp
    {
      identifier := None;
      this.serverHost := serverHost;
      this.serverPortTcp := serverPortTcp;
      this.serverPortUdp := serverPortUdp;
      this.clientUdp := clientUdp;
      serverMessage := [];
      receiverRunning := true;
      socketOpen := true;
    }

    /**
     * `register`: `request` is what is written to the server, and `reply`
     * what was read back. The identifier changes only on a truthy
     * `success` with an `identifier` field; every failure is caught.
     */
    method Register(reply: Option<Packet>) returns (request: Packet)
      modifies this`identifier
      ensures request == RegistrationRequest(clientUdp.port)
      ensures Registration(reply).Some? ==> identifier == Registration(reply)
      ensures Registration(reply).None? ==> identifier == old(identifier)
    {
      request := RegistrationRequest(clientUdp.port);
      if reply.None? || !reply.value.Encoded? {
        return;  // connect/send/recv, decode() or json.loads raised
      }
      var data := reply.value.json;
      if !data.JObject? || "success" !in data.fields {
        return;  // data["success"] raised
      }
      if Truthy(data.fields["success"]) {
        if "identifier" in data.fields {
          identifier := Some(data.fields["identifier"]);
        }
      }
    }

    /**
     * `send`: nothing leaves before a registration, nor after the socket
     * was closed (the `sendto` error is caught); otherwise exactly one
     * datagram, the envelope of the stored identifier and the message,
     * goes to the server's relay port.
     */
    method Send(message: Json) returns (sent: Option<Datagram>)
      ensures sent.Some? <==> IsRegistered(identifier) && socketOpen
      ensures sent.Some? ==> sent.value.dest == Addr(serverHost, serverPortUdp)
      ensures sent.Some? ==>
        ParseData(sent.value.packet) == Some(JObject(map["identifier" := identifier.value, "message" := message]))
    {
      if !IsRegistered(identifier) {
        return None;  // "[SEND] Client not registered!"
      }
      var envelope := Envelope(identifier.value, message);
      if !socketOpen {
        return None;  // sendto on a closed socket raises and is caught
      }
      sent := Some(Datagram(Addr(serverHost, serverPortUdp), envelope));
    }

    /** `get_messages`: `None` when `parse_data` raised part-way. */
    method GetMessages() returns (messages: Option<seq<Json>>)
      modifies this`serverMessage
      ensures messages == Drain(old(serverMessage)).messages
      ensures serverMessage == Drain(old(serverMessage)).rest
    {
      var collected: seq<Json> := [];
      ghost var initial := Drain(serverMessage);
      if initial.messages.Some? {
        assert [] + initial.messages.value == initial.messages.value;
      }
      while serverMessage != []
        invariant Drain(old(serverMessage)) == After(collected, Drain(serverMessage))
        decreases |serverMessage|
      {
        var data := serverMessage[0];
        serverMessage := serverMessage[1..];
        var msg := ParseData(data);
        if msg.None? {
          return None;
        }
        ghost var d := Drain(serverMessage);
        if d.messages.Some? {
          assert collected + ([msg.value] + d.messages.value) == (collected + [msg.value]) + d.messages.value;
        }
        collected := collected + [msg.value];
      }
      assert collected + [] == collected;
      messages := Some(collected);
    }

    /**
     * `SocketThread.run` over the outcomes of successive `recvfrom` calls:
     * each datagram is appended to the inbox until a socket error ends the
     * loop. A stopped thread appends nothing.
     */
    method ReceiveLoop(events: seq<RecvEvent>)
      modifies this`serverMessage
      ensures serverMessage == old(serverMessage) + (if receiverRunning then Arrivals(events) else [])
    {
      var i := 0;
      while receiverRunning && i < |events|
        invariant 0 <= i <= |events|
        invariant receiverRunning ==> old(serverMessage) + Arrivals(events) == serverMessage + Arrivals(events[i..])
        invariant !receiverRunning ==> serverMessage == old(serverMessage)
      {
        if events[i].SocketError? {
          break;
        }
        assert events[i..][1..] == events[i + 1..];
        serverMessage := serverMessage + [events[i].packet];
        i := i + 1;
      }
      assert events[|events|..] == [];
    }

    /** `stop`: the receive thread's flag is cleared and both sockets are closed. */
    method Stop()
      modifies this`receiverRunning, this`socketOpen
      ensures !receiverRunning && !socketOpen
    {
      receiverRunning := false;
      socketOpen := false;
    }
  }
}
