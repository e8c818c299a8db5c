/**
 * The rendezvous server (server.py): a session table from peer identifier
 * to UDP address, filled by the TCP registration handler and read by the
 * UDP relay loop, which forwards every datagram to all other peers.
 *
 * Sockets and threads are replaced by parameters: a received datagram is
 * the argument of Relay, a registration connection the argument of
 * HandleClient, and the destinations whose `sendto` raises are the set
 * `failing`.
 */
module Server {
  import opened Wire
  import opened Numerals

  /** The `player.Player` record: an identifier and a UDP address. */
  datatype Player = Player(identifier: string, addr: Addr)

  /**
   * A Python dict from identifier to Player: `entries` is the mapping and
   * `keys` lists its identifiers in insertion order, the order in which
   * `items()` visits them.
   */
  datatype Table = Table(keys: seq<string>, entries: map<string, Player>)
  {
    ghost predicate Valid()
    {
      && (forall i, j :: 0 <= i < j < |keys| ==> keys[i] != keys[j])
      && (forall id :: id in entries <==> id in keys)
    }
  }

  const EmptyTable: Table := Table([], map[])

  /** `players[id] = p`: an existing key keeps its place, a new one goes last. */
  function Put(t: Table, id: string, p: Player): (r: Table)
    requires t.Valid()
    ensures r.Valid()
    ensures id in r.entries && r.entries[id] == p
    ensures forall k :: k != id ==> (k in r.entries <==> k in t.entries)
    ensures forall k :: k != id && k in t.entries ==> r.entries[k] == t.entries[k]
    ensures t.keys <= r.keys
    ensures |r.keys| == if id in t.entries then |t.keys| else |t.keys| + 1
  {
    Table(if id in t.entries then t.keys else t.keys + [id], t.entries[id := p])
  }

  // ---------------------------------------------------------------------
  // Forwarding: the relay loop and UdpServer.send
  // ---------------------------------------------------------------------

  /** Which entries a forwarding pass skips. */
  datatype Exclusion =
    | SameAddr(src: Addr)          // relay loop: players whose address is the datagram's source
    | SameId(identifier: string)   // UdpServer.send: the player stored under this identifier

  predicate Receives(rule: Exclusion, id: string, p: Player)
  {
    match rule
    case SameAddr(src) => p.addr != src
    case SameId(x) => id != x
  }

  /** The identifiers, in the order of `keys`, that a forwarding pass sends to. */
  function Recipients(keys: seq<string>, entries: map<string, Player>, rule: Exclusion): (ids: seq<string>)
    requires forall k :: k in keys ==> k in entries
    ensures forall k :: k in ids ==> k in keys
    ensures |ids| <= |keys|
  {
    if keys == [] then []
    else
      var last := keys[|keys| - 1];
      Recipients(keys[..|keys| - 1], entries, rule) + (if Receives(rule, last, entries[last]) then [last] else [])
  }

  /** One copy of `packet` per identifier, addressed to that player. */
  function Copies(ids: seq<string>, entries: map<string, Player>, packet: Packet): (ds: seq<Datagram>)
    requires forall k :: k in ids ==> k in entries
    ensures |ds| == |ids|
    ensures forall i :: 0 <= i < |ids| ==> ds[i] == Datagram(entries[ids[i]].addr, packet)
  {
    seq(|ids|, i requires 0 <= i < |ids| => Datagram(entries[ids[i]].addr, packet))
  }

  lemma {:induction false} RecipientsMembership(keys: seq<string>, entries: map<string, Player>, rule: Exclusion, id: string)
    requires forall k :: k in keys ==> k in entries
    ensures id in Recipients(keys, entries, rule) <==> id in keys && Receives(rule, id, entries[id])
  {
    if keys != [] {
      var init := keys[..|keys| - 1];
      assert keys == init + [keys[|keys| - 1]];
      RecipientsMembership(init, entries, rule, id);
    }
  }

  lemma {:induction false} RecipientsDistinct(keys: seq<string>, entries: map<string, Player>, rule: Exclusion)
    requires forall k :: k in keys ==> k in entries
    requires forall i, j :: 0 <= i < j < |keys| ==> keys[i] != keys[j]
    ensures var r := Recipients(keys, entries, rule);
      forall i, j :: 0 <= i < j < |r| ==> r[i] != r[j]
  {
    if keys != [] {
      var init := keys[..|keys| - 1];
      var last := keys[|keys| - 1];
      RecipientsDistinct(init, entries, rule);
      RecipientsMembership(init, entries, rule, last);
      assert last !in init;
    }
  }

  lemma {:induction false} RecipientsPrefix(keys: seq<string>, entries: map<string, Player>, rule: Exclusion, n: nat)
    requires forall k :: k in keys ==> k in entries
    requires n <= |keys|
    ensures Recipients(keys[..n], entries, rule) <= Recipients(keys, entries, rule)
    decreases |keys|
  {
    if n < |keys| {
      var init := keys[..|keys| - 1];
      assert keys[..n] == init[..n];
      RecipientsPrefix(init, entries, rule, n);
    } else {
      assert keys[..n] == keys;
    }
  }

  lemma {:induction false} RecipientsAll(keys: seq<string>, entries: map<string, Player>, rule: Exclusion)
    requires forall k :: k in keys ==> k in entries && Receives(rule, k, entries[k])
    ensures Recipients(keys, entries, rule) == keys
  {
    if keys != [] {
      var init := keys[..|keys| - 1];
      RecipientsAll(init, entries, rule);
      assert keys == init + [keys[|keys| - 1]];
    }
  }

  lemma RecipientsStep(keys: seq<string>, entries: map<string, Player>, rule: Exclusion, i: nat)
    requires forall k :: k in keys ==> k in entries
    requires i < |keys|
    ensures Recipients(keys[..i + 1], entries, rule) ==
      Recipients(keys[..i], entries, rule) + (if Receives(rule, keys[i], entries[keys[i]]) then [keys[i]] else [])
  {
    assert keys[..i + 1][..i] == keys[..i];
  }

  lemma CopiesAppend(ids: seq<string>, id: string, entries: map<string, Player>, packet: Packet)
    requires forall k :: k in ids ==> k in entries
    requires id in entries
    ensures Copies(ids + [id], entries, packet) == Copies(ids, entries, packet) + [Datagram(entries[id].addr, packet)]
  {
  }

  /** A pass that reaches the recipient `keys[i]` has sent exactly the copies before it. */
  lemma StopsAt(keys: seq<string>, entries: map<string, Player>, rule: Exclusion, packet: Packet, i: nat)
    requires forall k :: k in keys ==> k in entries
    requires i < |keys| && Receives(rule, keys[i], entries[keys[i]])
    ensures var sent := Copies(Recipients(keys[..i], entries, rule), entries, packet);
      var all := Copies(Recipients(keys, entries, rule), entries, packet);
      && |sent| < |all| && sent == all[..|sent|]
      && all[|sent|] == Datagram(entries[keys[i]].addr, packet)
  {
    RecipientsStep(keys, entries, rule, i);
    RecipientsPrefix(keys, entries, rule, i + 1);
  }

  /**
   * The copies handed over by a pass that stops at its first failing
   * `sendto`: the longest prefix of `ds` whose destinations do not raise.
   */
  function UntilFailure(ds: seq<Datagram>, failing: set<Addr>): (r: seq<Datagram>)
    ensures r <= ds
    ensures forall d :: d in r ==> d.dest !in failing
    ensures |r| < |ds| ==> ds[|r|].dest in failing
  {
    if ds == [] || ds[0].dest in failing then [] else [ds[0]] + UntilFailure(ds[1..], failing)
  }

  /** A prefix free of failing destinations that ends at one (or at the end) is that longest prefix. */
  lemma {:induction false} UntilFailureUnique(ds: seq<Datagram>, failing: set<Addr>, p: seq<Datagram>)
    requires p <= ds
    requires forall d :: d in p ==> d.dest !in failing
    requires |p| < |ds| ==> ds[|p|].dest in failing
    ensures p == UntilFailure(ds, failing)
  {
    if ds != [] && ds[0].dest !in failing {
      assert p != [] && p[0] == ds[0];
      UntilFailureUnique(ds[1..], failing, p[1..]);
      assert p == [p[0]] + p[1..];
    }
  }

  /** The copies a pass with per-destination error handling hands over: every one that does not raise. */
  function Surviving(ds: seq<Datagram>, failing: set<Addr>): (r: seq<Datagram>)
    ensures forall d :: d in r <==> d in ds && d.dest !in failing
    ensures |r| <= |ds|
  {
    if ds == [] then []
    else
      var last := ds[|ds| - 1];
      assert ds == ds[..|ds| - 1] + [last];
      Surviving(ds[..|ds| - 1], failing) + (if last.dest in failing then [] else [last])
  }

  lemma SurvivingAppend(ds: seq<Datagram>, d: Datagram, failing: set<Addr>)
    ensures Surviving(ds + [d], failing) == Surviving(ds, failing) + (if d.dest in failing then [] else [d])
  {
    assert (ds + [d])[..|ds|] == ds;
  }

  /** The identifiers a datagram from `src` is relayed to, in table order. */
  function FanOut(t: Table, src: Addr): seq<string>
    requires t.Valid()
  {
    Recipients(t.keys, t.entries, SameAddr(src))
  }

  /** Exactly the players whose address differs from the source receive the datagram, each once. */
  lemma FanOutExactly(t: Table, src: Addr)
    requires t.Valid()
    ensures forall id :: id in FanOut(t, src) <==> id in t.entries && t.entries[id].addr != src
    ensures var f := FanOut(t, src); forall i, j :: 0 <= i < j < |f| ==> f[i] != f[j]
  {
    forall id ensures id in FanOut(t, src) <==> id in t.entries && t.entries[id].addr != src {
      RecipientsMembership(t.keys, t.entries, SameAddr(src), id);
    }
    RecipientsDistinct(t.keys, t.entries, SameAddr(src));
    assert FanOut(t, src) == Recipients(t.keys, t.entries, SameAddr(src));
  }

  /**
   * With per-destination error handling, the copies handed over are
   * exactly one per player whose address is neither the source nor failing.
   */
  lemma IsolatedDelivery(t: Table, src: Addr, packet: Packet, failing: set<Addr>)
    requires t.Valid()
    ensures var sent := Surviving(Copies(FanOut(t, src), t.entries, packet), failing);
      && (forall id :: (id in t.entries && t.entries[id].addr != src && t.entries[id].addr !in failing
            ==> Datagram(t.entries[id].addr, packet) in sent))
      && (forall d :: d in sent ==> d.packet == packet && d.dest != src && d.dest !in failing)
  {
    var f := FanOut(t, src);
    var all := Copies(f, t.entries, packet);
    FanOutExactly(t, src);
    forall id | id in t.entries && t.entries[id].addr != src && t.entries[id].addr !in failing
      ensures Datagram(t.entries[id].addr, packet) in all
    {
      var k :| 0 <= k < |f| && f[k] == id;
      assert all[k] == Datagram(t.entries[id].addr, packet);
    }
    forall d | d in all ensures d.packet == packet && d.dest != src {
      var k :| 0 <= k < |all| && all[k] == d;
      assert f[k] in f;
    }
  }

  /** A datagram whose source address matches no entry reaches every registered player. */
  lemma UnregisteredSourceReachesAll(t: Table, src: Addr)
    requires t.Valid()
    requires forall id :: id in t.entries ==> t.entries[id].addr != src
    ensures FanOut(t, src) == t.keys
  {
    RecipientsAll(t.keys, t.entries, SameAddr(src));
  }

  /** `UdpServer.send` skips by identifier: everyone except the one stored under `identifier`. */
  lemma SendExcludesById(t: Table, identifier: string)
    requires t.Valid()
    ensures forall id :: id in Recipients(t.keys, t.entries, SameId(identifier)) <==> id in t.entries && id != identifier
  {
    forall id ensures id in Recipients(t.keys, t.entries, SameId(identifier)) <==> id in t.entries && id != identifier {
      RecipientsMembership(t.keys, t.entries, SameId(identifier), id);
    }
  }

  class UdpServer {
    var players: Table
    var isRunning: bool

    constructor ()
      ensures players == EmptyTable && isRunning
    {
      players := EmptyTable;
      isRunning := true;
    }

    /** `register_player`: store the player under its identifier. */
    method RegisterPlayer(identifier: string, addr: Addr)
      requires players.Valid()
      modifies this`players
      ensures players == Put(old(players), identifier, Player(identifier, addr))
    {
      players := Put(players, identifier, Player(identifier, addr));
    }

    /**
     * One pass over `players.items()` sending `packet` to every player the
     * rule does not exclude. A `sendto` that raises ends the pass: `sent`
     * is what was handed over before it, and `raised` reports the exception.
     */
    method Forward(packet: Packet, rule: Exclusion, failing: set<Addr>) returns (sent: seq<Datagram>, raised: bool)
      requires players.Valid()
      ensures var all := Copies(Recipients(players.keys, players.entries, rule), players.entries, packet);
        && sent <= all
        && (raised <==> |sent| < |all|)
        && (raised ==> all[|sent|].dest in failing)
        && sent == UntilFailure(all, failing)
      ensures forall d :: d in sent ==> d.packet == packet && d.dest !in failing
    {
      sent, raised := [], false;
      var keys, entries := players.keys, players.entries;
      var i := 0;
      while i < |keys|
        invariant 0 <= i <= |keys|
        invariant sent == Copies(Recipients(keys[..i], entries, rule), entries, packet)
        invariant forall d :: d in sent ==> d.packet == packet && d.dest !in failing
      {
        var id := keys[i];
        var player := entries[id];
        RecipientsStep(keys, entries, rule, i);
        if Receives(rule, id, player) {
          if player.addr in failing {
            raised := true;
            StopsAt(keys, entries, rule, packet, i);
            UntilFailureUnique(Copies(Recipients(keys, entries, rule), entries, packet), failing, sent);
            return;
          }
          CopiesAppend(Recipients(keys[..i], entries, rule), id, entries, packet);
          sent := sent + [Datagram(player.addr, packet)];
        }
        i := i + 1;
      }
      assert keys[..i] == keys;
      UntilFailureUnique(Copies(Recipients(keys, entries, rule), entries, packet), failing, sent);
    }

    /**
     * One iteration of `run` after `recvfrom` returned `(data, src)`:
     * forward `data` unchanged to every player whose address is not `src`.
     * An exception from `sendto` is caught by the loop, so the remaining
     * players of this pass are skipped.
     */
    method Relay(data: Packet, src: Addr, failing: set<Addr>) returns (sent: seq<Datagram>)
      requires players.Valid()
      ensures var all := Copies(FanOut(players, src), players.entries, data);
        && sent <= all
        && (|sent| < |all| ==> all[|sent|].dest in failing)
        && ((forall d :: d in all ==> d.dest !in failing) ==> sent == all)
        && sent == UntilFailure(all, failing)
      ensures forall d :: d in sent ==> d.packet == data && d.dest != src && d.dest !in failing
    {
      var raised;
      sent, raised := Forward(data, SameAddr(src), failing);
      ghost var all := Copies(FanOut(players, src), players.entries, data);
      if |sent| < |all| {
        assert all[|sent|] in all;
      }
      forall d | d in sent ensures d.dest != src {
        var k :| 0 <= k < |sent| && sent[k] == d;
        assert all[k] == d;
        ghost var f := FanOut(players, src);
        assert f[k] in f;
        RecipientsMembership(players.keys, players.entries, SameAddr(src), f[k]);
      }
    }

    /**
     * The relay pass with per-destination error handling: each `sendto` in its own
     * `try`, so a failing destination costs only its own copy. Every
     * player whose address is neither the source nor failing receives the
     * data, in table order.
     */
    method RelayIsolated(data: Packet, src: Addr, failing: set<Addr>) returns (sent: seq<Datagram>)
      requires players.Valid()
      ensures sent == Surviving(Copies(FanOut(players, src), players.entries, data), failing)
      ensures forall id :: (id in players.entries && players.entries[id].addr != src && players.entries[id].addr !in failing
        ==> Datagram(players.entries[id].addr, data) in sent)
      ensures forall d :: d in sent ==> d.packet == data && d.dest != src && d.dest !in failing
    {
      sent := [];
      var keys, entries := players.keys, players.entries;
      var rule := SameAddr(src);
      var i := 0;
      while i < |keys|
        invariant 0 <= i <= |keys|
        invariant sent == Surviving(Copies(Recipients(keys[..i], entries, rule), entries, data), failing)
      {
        var id := keys[i];
        var player := entries[id];
        RecipientsStep(keys, entries, rule, i);
        ghost var ids := Recipients(keys[..i], entries, rule);
        if player.addr != src {
          assert Recipients(keys[..i + 1], entries, rule) == ids + [id];
          CopiesAppend(ids, id, entries, data);
          SurvivingAppend(Copies(ids, entries, data), Datagram(player.addr, data), failing);
          if player.addr !in failing {
            sent := sent + [Datagram(player.addr, data)];
          }
        } else {
          assert Recipients(keys[..i + 1], entries, rule) == ids;
        }
        i := i + 1;
      }
      assert keys[..i] == keys;
      IsolatedDelivery(players, src, data, failing);
    }

    /** `send(identifier, message, sock)`: the exception of a failing `sendto` reaches the caller. */
    method Send(identifier: string, message: Packet, failing: set<Addr>) returns (sent: seq<Datagram>, raised: bool)
      requires players.Valid()
      ensures var all := Copies(Recipients(players.keys, players.entries, SameId(identifier)), players.entries, message);
        && sent <= all
        && (raised <==> |sent| < |all|)
        && (raised ==> all[|sent|].dest in failing)
      ensures forall d :: d in sent ==> d.packet == message && d.dest !in failing
    {
      sent, raised := Forward(message, SameId(identifier), failing);
    }

    method Stop()
      modifies this`isRunning
      ensures !isRunning
    {
      isRunning := false;
    }
  }

  // ---------------------------------------------------------------------
  // Registration: TcpServer.handle_client
  // ---------------------------------------------------------------------

  /** `f"{host}:{port}"` */
  function Identifier(host: string, port: int): string
  {
    host + ":" + IntToString(port)
  }

  /** Index of the first colon of `s` (`|s|` when there is none). */
  function FirstColon(s: string): nat
  {
    if s == [] || s[0] == ':' then 0 else 1 + FirstColon(s[1..])
  }

  lemma {:induction false} FirstColonAfterHost(host: string, rest: string)
    requires ':' !in host
    ensures FirstColon(host + ":" + rest) == |host|
  {
    if host != [] {
      assert (host + ":" + rest)[1..] == host[1..] + ":" + rest;
      FirstColonAfterHost(host[1..], rest);
    }
  }

  /**
   * Distinct `(host, port)` pairs get distinct identifiers. IPv4 hosts, the
   * only kind the server's AF_INET sockets report, contain no colon.
   */
  lemma IdentifierInjective(h1: string, p1: int, h2: string, p2: int)
    requires ':' !in h1 && ':' !in h2
    requires Identifier(h1, p1) == Identifier(h2, p2)
    ensures h1 == h2 && p1 == p2
  {
    var s := Identifier(h1, p1);
    assert s == Identifier(h2, p2);
    FirstColonAfterHost(h1, IntToString(p1));
    FirstColonAfterHost(h2, IntToString(p2));
    assert h1 == s[..|h1|] == h2;
    assert IntToString(p1) == s[|h1| + 1..] == IntToString(p2);
    IntToStringInjective(p1, p2);
  }

  /** `int(payload)`; `None` stands for the TypeError or ValueError it raises. */
  function PortOf(payload: Option<Json>): Option<int>
  {
    match payload
    case Some(JBool(b)) => Some(if b then 1 else 0)
    case Some(JInt(i)) => Some(i)
    case Some(JStr(s)) => ParseInt(s)
    case _ => None
  }

  /** What handling one registration connection amounts to. */
  datatype Outcome =
    | Registered(identifier: string, addr: Addr)   // both tables written, success reply
    | UnknownAction                                // failure reply, tables untouched
    | Raised                                       // exception: no write, no reply

  /** The decision `handle_client` takes on a request read from a peer at `host`. */
  function Dispatch(request: Packet, host: string): (r: Outcome)
    ensures r.Registered? ==> r.addr.host == host && r.identifier == Identifier(host, r.addr.port)
    ensures r.Registered? <==>
      && request.Encoded? && request.json.JObject?
      && Lookup(request.json.fields, "action") == Some(JStr("register"))
      && PortOf(Lookup(request.json.fields, "payload")).Some?
    ensures r.Registered? ==> PortOf(Lookup(request.json.fields, "payload")) == Some(r.addr.port)
    ensures r.UnknownAction? <==>
      && request.Encoded? && request.json.JObject?
      && Lookup(request.json.fields, "action") != Some(JStr("register"))
  {
    match request
    case Encoded(JObject(fields)) =>
      if Lookup(fields, "action") == Some(JStr("register")) then
        match PortOf(Lookup(fields, "payload"))
        case Some(port) => Registered(Identifier(host, port), Addr(host, port))
        case None => Raised
      else UnknownAction
    case _ => Raised
  }

  /** The response written back on the connection, if any. */
  function Reply(r: Outcome): Option<Packet>
  {
    match r
    case Registered(identifier, _) =>
      Some(Encoded(JObject(map["success" := JBool(true), "identifier" := JStr(identifier)])))
    case UnknownAction =>
      Some(Encoded(JObject(map["success" := JBool(false), "message" := JStr("Unknown action")])))
    case Raised => None
  }

  class TcpServer {
    var players: Table
    const udpServer: UdpServer
    var isRunning: bool

    constructor (udpServer: UdpServer)
      ensures players == EmptyTable && this.udpServer == udpServer && isRunning
    {
      players := EmptyTable;
      this.udpServer := udpServer;
      isRunning := true;
    }

    /**
     * `handle_client` for one request read from a peer at `host`. A
     * registration writes the same player into this server's table and
     * into the UDP server's table and answers with the identifier; any
     * other action is refused; a request that fails to decode, is not an
     * object, or whose payload `int()` rejects raises before any write and
     * gets no answer.
     */
    method HandleClient(request: Packet, host: string) returns (reply: Option<Packet>)
      requires players.Valid() && udpServer.players.Valid()
      modifies this`players, udpServer`players
      ensures reply == Reply(Dispatch(request, host))
      ensures Dispatch(request, host).Registered? ==>
        var o := Dispatch(request, host);
        && players == Put(old(players), o.identifier, Player(o.identifier, o.addr))
        && udpServer.players == Put(old(udpServer.players), o.identifier, Player(o.identifier, o.addr))
      ensures !Dispatch(request, host).Registered? ==>
        players == old(players) && udpServer.players == old(udpServer.players)
    {
      reply := None;
      if !(request.Encoded? && request.json.JObject?) {
        return;
      }
      var fields := request.json.fields;
      var action := Lookup(fields, "action");
      var payload := Lookup(fields, "payload");
      if action == Some(JStr("register")) {
        var port := PortOf(payload);
        if port.None? {
          return;
        }
        var addr := Addr(host, port.value);
        var identifier := Identifier(host, port.value);
        // The two writes form one critical section. As written, the handler
        // holds the shared lock while register_player takes it again, which
        // never returns (RegisterAsWrittenDeadlocks).
        players := Put(players, identifier, Player(identifier, addr));
        udpServer.RegisterPlayer(identifier, addr);
        reply := Reply(Registered(identifier, addr));
      } else {
        reply := Reply(UnknownAction);
      }
    }

    method Stop()
      modifies this`isRunning
      ensures !isRunning
    {
      isRunning := false;
    }
  }

  /** Registering the same `(host, port)` again changes neither table's size nor its contents. */
  lemma ReRegistrationIsIdempotent(t: Table, request: Packet, host: string)
    requires t.Valid() && Dispatch(request, host).Registered?
    ensures var o := Dispatch(request, host);
      var once := Put(t, o.identifier, Player(o.identifier, o.addr));
      Put(once, o.identifier, Player(o.identifier, o.addr)) == once
  {
  }

  // ---------------------------------------------------------------------
  // The shared lock
  // ---------------------------------------------------------------------

  datatype LockOp = Acquire | Release

  datatype LockRun =
    | Finished(held: bool)
    | BlockedForever(at: nat)    // acquire of a lock the same thread holds
    | ReleaseUnlocked(at: nat)   // RuntimeError: release of an unlocked lock

  /** One thread's operations on a `threading.Lock`, which is not re-entrant. */
  function RunLock(ops: seq<LockOp>, held: bool): LockRun
  {
    RunLockFrom(ops, 0, held)
  }

  function RunLockFrom(ops: seq<LockOp>, i: nat, held: bool): LockRun
    decreases |ops| - i
  {
    if i >= |ops| then Finished(held)
    else match ops[i]
      case Acquire => if held then BlockedForever(i) else RunLockFrom(ops, i + 1, true)
      case Release => if held then RunLockFrom(ops, i + 1, false) else ReleaseUnlocked(i)
  }

  /**
   * The lock operations of a registration as written: `with self.lock` in
   * handle_client, then `with self.lock` in register_player on the same
   * lock object, then the two exits.
   */
  function HandleClientLockOps(): seq<LockOp>
  {
    [Acquire, Acquire, Release, Release]
  }

  /** The model's registration: one acquisition around both writes. */
  function RegisterLockOps(): seq<LockOp>
  {
    [Acquire, Release]
  }

  /** Taking the lock twice in a row blocks, whatever the lock's state. */
  lemma NestedAcquireBlocks(ops: seq<LockOp>, held: bool)
    requires |ops| >= 2 && ops[0] == Acquire && ops[1] == Acquire
    ensures RunLock(ops, held).BlockedForever?
  {
    if !held {
      assert RunLockFrom(ops, 0, held) == RunLockFrom(ops, 1, true);
    }
  }

  /** As written, every registration blocks at register_player's acquire, holding the lock. */
  lemma RegisterAsWrittenDeadlocks()
    ensures RunLock(HandleClientLockOps(), false) == BlockedForever(1)
    ensures RunLock([Acquire], true) == BlockedForever(0)
  {
  }

  /** One critical section around both writes completes and releases the lock. */
  lemma RegisterCorrectedCompletes()
    ensures RunLock(RegisterLockOps(), false) == Finished(false)
  {
  }
}
