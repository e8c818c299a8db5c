/**
 * The client and the server put together: the registration handshake and
 * a relayed message between two registered peers.
 */
module Scenario {
  import opened Wire
  import opened Server
  import opened Peer

  /**
   * The request a client bound to `port` sends from `host` registers
   * `(host, port)` under `host:port`, and the client stores exactly that
   * identifier from the reply.
   */
  lemma RegistrationHandshake(host: string, port: int)
    ensures Dispatch(RegistrationRequest(port), host) == Registered(Identifier(host, port), Addr(host, port))
    ensures Registration(Reply(Dispatch(RegistrationRequest(port), host))) == Some(JStr(Identifier(host, port)))
  {
    var fields := RegistrationRequest(port).json.fields;
    assert Lookup(fields, "action") == Some(JStr("register"));
    assert Lookup(fields, "payload") == Some(JInt(port));
  }

  /** A refused or unanswered request leaves the client's identifier as it was. */
  lemma RefusalKeepsIdentifier(request: Packet, host: string)
    requires !Dispatch(request, host).Registered?
    ensures Registration(Reply(Dispatch(request, host))) == None
  {
  }

  /** The session table after peers at `a` and then `b` registered with their own identifiers. */
  function TwoPeers(a: Addr, b: Addr): Table
  {
    var idA := Identifier(a.host, a.port);
    var idB := Identifier(b.host, b.port);
    Put(Put(EmptyTable, idA, Player(idA, a)), idB, Player(idB, b))
  }

  /** The envelope A sends. */
  function Ping(a: Addr): Packet
  {
    Envelope(JStr(Identifier(a.host, a.port)), JStr("ping"))
  }

  /**
   * Peers A and B register; A sends "ping". The relay sends one datagram,
   * to B's address, holding A's envelope unchanged, and B's next drain
   * returns exactly `{"identifier": <A's id>, "message": "ping"}`.
   */
  lemma PingScenario(a: Addr, b: Addr)
    requires ':' !in a.host && ':' !in b.host && a != b
    ensures
      var t := TwoPeers(a, b);
      var out := Copies(FanOut(t, a), t.entries, Ping(a));
      && out == [Datagram(b, Ping(a))]
      && Drain([out[0].packet]) == Drained(Some([Received(Identifier(a.host, a.port), "ping")]), [])
  {
    PingRoute(a, b);
    DrainOne(JStr(Identifier(a.host, a.port)), JStr("ping"));
  }

  /** The relay's output for A's ping: one datagram, to B. */
  lemma PingRoute(a: Addr, b: Addr)
    requires ':' !in a.host && ':' !in b.host && a != b
    ensures Copies(FanOut(TwoPeers(a, b), a), TwoPeers(a, b).entries, Ping(a)) == [Datagram(b, Ping(a))]
  {
    var idA := Identifier(a.host, a.port);
    var idB := Identifier(b.host, b.port);
    DistinctIdentifiers(a, b);
    TwoPeerFanOut(Player(idA, a), Player(idB, b));
    var t := TwoPeers(a, b);
    assert t.entries[idB] == Player(idB, b);
  }

  lemma DistinctIdentifiers(a: Addr, b: Addr)
    requires ':' !in a.host && ':' !in b.host && a != b
    ensures Identifier(a.host, a.port) != Identifier(b.host, b.port)
  {
    if Identifier(a.host, a.port) == Identifier(b.host, b.port) {
      IdentifierInjective(a.host, a.port, b.host, b.port);
    }
  }

  /** The object B's `get_messages` yields for A's message. */
  function Received(identifier: string, message: string): Json
  {
    JObject(map["identifier" := JStr(identifier), "message" := JStr(message)])
  }

  /** Draining an inbox that holds one envelope yields exactly its object. */
  lemma DrainOne(identifier: Json, message: Json)
    ensures Drain([Envelope(identifier, message)]) ==
      Drained(Some([JObject(map["identifier" := identifier, "message" := message])]), [])
  {
    var e := Envelope(identifier, message);
    var m := JObject(map["identifier" := identifier, "message" := message]);
    assert [e][1..] == [];
    assert Drain([e][1..]) == Drained(Some([]), []);
    assert [m] + [] == [m];
  }

  /** With two peers at different addresses, what one sends reaches only the other. */
  lemma TwoPeerFanOut(a: Player, b: Player)
    requires a.identifier != b.identifier && a.addr != b.addr
    ensures FanOut(Put(Put(EmptyTable, a.identifier, a), b.identifier, b), a.addr) == [b.identifier]
  {
    TwoPuts(a, b);
    RecipientsOfTwo(a.identifier, b.identifier, map[a.identifier := a, b.identifier := b], SameAddr(a.addr));
  }

  lemma TwoPuts(a: Player, b: Player)
    requires a.identifier != b.identifier
    ensures Put(Put(EmptyTable, a.identifier, a), b.identifier, b) ==
      Table([a.identifier, b.identifier], map[a.identifier := a, b.identifier := b])
  {
    assert [a.identifier] + [b.identifier] == [a.identifier, b.identifier];
  }

  lemma RecipientsOfTwo(k1: string, k2: string, entries: map<string, Player>, rule: Exclusion)
    requires k1 in entries && k2 in entries
    ensures Recipients([k1, k2], entries, rule) ==
      (if Receives(rule, k1, entries[k1]) then [k1] else []) + (if Receives(rule, k2, entries[k2]) then [k2] else [])
  {
    assert [k1, k2][..1] == [k1];
    assert [k1][..0] == [];
  }

  /**
   * Peers A and B registered in that order; a datagram arrives from a third
   * address C, and `sendto` raises for A's address. As written, the pass
   * stops at A and B receives nothing; with per-destination error handling
   * B receives its copy.
   */
  lemma LostBehindFailure(a: Addr, b: Addr, c: Addr, packet: Packet)
    requires ':' !in a.host && ':' !in b.host && a != b && c != a && c != b
    ensures
      var t := TwoPeers(a, b);
      var all := Copies(FanOut(t, c), t.entries, packet);
      && UntilFailure(all, {a}) == []
      && Surviving(all, {a}) == [Datagram(b, packet)]
  {
    var idA := Identifier(a.host, a.port);
    var idB := Identifier(b.host, b.port);
    DistinctIdentifiers(a, b);
    var pa, pb := Player(idA, a), Player(idB, b);
    TwoPuts(pa, pb);
    var t := TwoPeers(a, b);
    RecipientsOfTwo(idA, idB, t.entries, SameAddr(c));
    assert FanOut(t, c) == [idA, idB];
    var all := Copies(FanOut(t, c), t.entries, packet);
    assert all == [Datagram(a, packet), Datagram(b, packet)];
    assert all[..1] == [Datagram(a, packet)];
    assert Surviving(all[..1], {a}) == [];
  }
}
