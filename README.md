# A UDP relay with TCP registration, and three invariance-principle games

This project models, in Dafny, the logic of a small multiplayer toolkit and
three classroom games.

**The relay.** A TCP registration service gives each peer the identifier
`host:port` and stores the peer's UDP address. A UDP relay forwards every
datagram it receives to every other registered peer.

- `server.py` is modelled in `server.dfy` (module `Server`).
- `client.py` is modelled in `client.dfy` (module `Peer`).
- `scenario.dfy` puts the two together: the registration handshake, and one
  message from one peer to another.
- `wire.dfy` holds the shared values: JSON values, packets and addresses.
- `numerals.dfy` holds Python's `str(int)` and `int(str)` on decimal text.

**The games.** Each is a small state machine with an invariant behind it:

- the Nim match game (`game1.py`, `nim.dfy`);
- Even Hunt (`game2.py`, `even_hunt.dfy`);
- the Magic Circle (`game3.py`, `magic_circle.dfy`).

**Form of the model.** Objects whose fields the source updates in place
are classes. The Python lists and dictionaries they hold are `seq` and
`map` fields that the methods reassign.

- A Python dict keeps insertion order, and the relay's fan-out visits the
  players in that order. The dict is therefore a `Table` with an ordered
  key list beside the map.
- A datagram is classified by what `decode()` and `json.loads` make of it:
  - `Encoded` is valid JSON;
  - `Text` is UTF-8 but not JSON;
  - `Binary` is not UTF-8.
- A socket or a dialog becomes a parameter. It is either the data that was
  read, or the set of destinations whose `sendto` raises.
- A mouse click becomes what it hit: a match, a number button, a sector or
  a button.

## Model

| member | source | states |
|---|---|---|
| `Numerals.IntRoundTrip` | server.py:78-79 | `int(str(n)) == n` for every integer, negative ones included |
| `Numerals.IntToStringInjective` | server.py:79 | different ports print differently |
| `Server.Put` | server.py:35 | `players[id] = p`: the dict stays well formed and `id` maps to `p`. Every other key keeps its presence and its value. The old key order is a prefix of the new one, and the size grows by one exactly for a new key. |
| `Server.RecipientsMembership` | server.py:26-27 | a forwarding pass sends to an identifier exactly when it is in the table and the exclusion rule lets it through |
| `Server.RecipientsDistinct` | server.py:26-28 | no identifier receives twice in one pass |
| `Server.FanOutExactly` | server.py:24-28 | a datagram from `src` goes to exactly the players whose address differs from `src`, each once |
| `Server.UnregisteredSourceReachesAll` | server.py:26-28 | a source matching no player reaches every player, in table order |
| `Server.SendExcludesById` | server.py:39-41 | `send` reaches everyone except the player stored under the given identifier |
| `Server.UdpServer.constructor` | server.py:11-18 | an empty player table and a running loop |
| `Server.UdpServer.RegisterPlayer` | server.py:33-35 | the table after the call is `Put` of the table before |
| `Server.UntilFailure` | server.py:23-29 | what a pass that stops at its first raising `sendto` hands over: the longest prefix of the copies with no failing destination |
| `Server.Surviving` | server.py:28 | what a pass with per-destination error handling hands over: a copy is kept exactly when its destination does not raise |
| `Server.IsolatedDelivery` | server.py:24-28 | with per-destination error handling, every player whose address is neither the source nor failing gets a copy, and no copy goes to the source or to a failing address |
| `Server.UdpServer.Forward` | server.py:26-28 | what is sent is `UntilFailure` of one copy per recipient, in table order. An exception is raised exactly when the prefix stops short, and then the next destination is one whose `sendto` raises. Every copy carries the packet and goes to a destination that does not raise. |
| `Server.UdpServer.Relay` | server.py:20-31 | one loop iteration, as written. Every copy goes to an address other than the source, carries the data unchanged and goes to a destination that does not raise. What is sent is `UntilFailure` of the copies: table order, stopping at the first failing destination. It is complete when no destination fails. See "## Findings". |
| `Server.UdpServer.RelayIsolated` | server.py:24-31 | corrected relay pass (see "## Findings"): each `sendto` is guarded on its own. What is sent is `Surviving` of the copies, and every player whose address is neither the source nor failing receives the data. |
| `Server.UdpServer.Send` | server.py:37-41 | as `Forward` with exclusion by identifier; the exception reaches the caller |
| `Server.UdpServer.Stop` | server.py:43-46 | the loop flag is cleared |
| `Server.IdentifierInjective` | server.py:79 | distinct host/port pairs get distinct identifiers when hosts contain no colon, as IPv4 addresses do not |
| `Server.Identifier` | server.py:79 | definition of `f"{host}:{port}"`; `Server.IdentifierInjective` proves that it tells peers apart |
| `Server.PortOf` | server.py:78 | definition of `int(payload)` on decoded JSON: bools and integers are accepted, strings are parsed as decimal, and anything else raises (`None`). `Numerals.IntRoundTrip` covers the string case. |
| `Server.Reply` | server.py:84-89 | definition of the response: success with the identifier, a refusal with "Unknown action", or nothing when the handler raised. `Scenario.RegistrationHandshake` and `Scenario.RefusalKeepsIdentifier` show how the client reads it. |
| `Server.Recipients` | server.py:26-28 | the identifiers a pass sends to, in key order: a subsequence of the keys. Its meaning is proved in `Server.RecipientsMembership` and `Server.RecipientsDistinct`. |
| `Server.FanOut` | server.py:26-28 | definition of the relay's recipients; `Server.FanOutExactly` proves they are exactly the players not at the source address |
| `Server.Dispatch` | server.py:71-93 | a registration happens exactly when the request is a JSON object whose `action` is `"register"` and whose `payload` `int()` accepts. The identifier is then `host:port` at that port. Any other action in an object is refused, and everything else raises before any write. |
| `Server.TcpServer.constructor` | server.py:50-59 | an empty player table linked to the given UDP server |
| `Server.TcpServer.HandleClient` | server.py:71-93 | corrected handler (see "## Findings"): the reply is `Reply(Dispatch(..))`. A registration `Put`s the same player into both tables; otherwise neither table changes. As written, the handler writes only its own table and then blocks at server.py:34 without replying. |
| `Server.TcpServer.Stop` | server.py:95-98 | the accept flag is cleared |
| `Server.ReRegistrationIsIdempotent` | server.py:81-83 | registering the same peer twice leaves the table as one registration did |
| `Server.NestedAcquireBlocks` | server.py:102-104 | two acquisitions in a row of the shared non-reentrant lock block, whatever the lock's state |
| `Server.RegisterAsWrittenDeadlocks` | server.py:81-83 | the registration as written blocks forever at the second acquisition |
| `Server.RegisterCorrectedCompletes` | server.py:81-83 | one critical section around both writes completes and leaves the lock free |
| `Peer.RegistrationRequest` | client.py:36-39 | definition of the registration request; `Scenario.RegistrationHandshake` proves the server registers it |
| `Peer.IsRegistered` | client.py:60 | definition of the negation of `not self.identifier` (Python truthiness) |
| `Peer.Envelope` | client.py:64-67 | definition of the `{identifier, message}` envelope; `Peer.Client.Send` and `Scenario.PingScenario` prove it parses back to its two fields |
| `Peer.Drain` | client.py:84-97 | definition of `get_messages` on the inbox. `Peer.DrainInOrder`, `Peer.DrainStopsAtBinary` and `Peer.Client.GetMessages` prove what it returns. |
| `Peer.Arrivals` | client.py:130-136 | definition of the datagrams the receive loop appends: those before the first socket error. `Peer.Client.ReceiveLoop` is proved against it. |
| `Peer.Registration` | client.py:46-50 | the identifier is stored exactly when the reply decodes to an object with a truthy `success` and an `identifier` field, and it is that field |
| `Peer.ParseData` | client.py:74-82 | parsing fails, with an exception, exactly on data that is not UTF-8 |
| `Peer.DrainInOrder` | client.py:84-97 | on an inbox of UTF-8 datagrams, `get_messages` returns one parsed message per datagram, in arrival order, and empties the inbox |
| `Peer.DrainStopsAtBinary` | client.py:84-97 | a non-UTF-8 datagram makes `get_messages` raise. What was popped before it is lost; the datagrams behind it stay queued. |
| `Peer.LosslessKeepsBytes` | client.py:82 | the corrected fallback loses no bytes: two non-UTF-8 datagrams that give the same message are the same bytes |
| `Peer.DrainLossless` | client.py:84-97 | definition of the corrected drain: `get_messages` with `ParseLossless`, which cannot raise. `Peer.LosslessDrainInOrder` and `Peer.LosslessAgrees` are proved about it. |
| `Peer.ParseLossless` | client.py:74-82 | corrected `parse_data` (see "## Findings"): it agrees with `parse_data` wherever that returns. Bytes that are not UTF-8 become `{"message": <their Latin-1 text>}` instead of raising. |
| `Peer.LosslessDrainInOrder` | client.py:84-97 | with the corrected parse, draining returns one message per queued datagram, whatever its bytes, in arrival order |
| `Peer.LosslessAgrees` | client.py:84-97 | on an inbox with no non-UTF-8 datagram, the corrected drain returns exactly what `get_messages` returns, and empties the inbox |
| `Peer.SecondDrainIsEmpty` | client.py:91-94 | if no queued datagram is non-UTF-8 and nothing new arrives, a second `get_messages` returns an empty list. After a first drain that raised, the second one works on the datagrams left queued. |
| `Peer.Client.constructor` | client.py:8-30 | no identifier, an empty inbox, the given server addresses and an open socket |
| `Peer.Client.Register` | client.py:32-54 | the request written is `RegistrationRequest` of the client's own bound UDP port. The identifier becomes `Registration(reply)` when that is present, and is unchanged otherwise (refusal or any exception). |
| `Peer.Client.Send` | client.py:56-72 | a datagram leaves exactly when the client is registered and its socket is open, and it goes to the server's UDP port. Parsed at the receiver, it gives back the identifier and the message. |
| `Peer.Client.GetMessages` | client.py:84-97 | the result and the remaining inbox are those of `Drain` on the inbox before the call |
| `Peer.Client.ReceiveLoop` | client.py:126-136 | the inbox grows by the datagrams received before the first socket error, in order; a stopped thread appends nothing |
| `Peer.Client.Stop` | client.py:105-111 | the receive flag is cleared and the socket is closed |
| `Scenario.RegistrationHandshake` | client.py:36-48 | the request for a port, which `Peer.Client.Register` writes with the client's own bound port, registers that address under `host:port`. The client stores exactly that identifier. |
| `Scenario.RefusalKeepsIdentifier` | client.py:47-51 | a refused or failed registration leaves the client's identifier alone |
| `Scenario.TwoPeerFanOut` | server.py:24-28 | with two peers at different addresses, what one sends goes to the other only |
| `Scenario.PingScenario` | server.py:24-28 | after A and B register, A's envelope reaches B alone, once and unchanged. B's next `get_messages` returns exactly `{"identifier": A, "message": "ping"}`. |
| `Scenario.LostBehindFailure` | server.py:23-29 | peers A and B, a datagram from a third address, and `sendto` raising for A. As written nothing is sent, so B loses its copy; with per-destination handling B receives it. |
| `Nim.GenerateMatches` | game1.py:61-74 | the capped pyramid produces `min(TOTAL_MATCHES, 1+…+ROWS)` = 20 matches, all alive, the i-th with index i |
| `Nim.Take` | game1.py:104-106 | the matches at the selected positions are marked dead; the table keeps its length. `Nim.TakeRemovesExactly` proves the count drops by as many. |
| `Nim.Other` | game1.py:110 | definition of the turn toggle between players 1 and 2, used by `Nim.NimGame.HandleDone` |
| `Nim.TakeRemovesExactly` | game1.py:104-106 | taking k distinct alive matches leaves exactly k fewer on the table |
| `Nim.NimGame.constructor` | game1.py:61-78 | a full table, nothing selected, player 1 to move, game not over |
| `Nim.NimGame.HandleDone` | game1.py:102-111 | with 1 to 3 selected, exactly those matches die and the count drops by as many. Taking the red match ends the game with the taker as winner; otherwise the turn passes. Otherwise nothing changes. The selection is always cleared, and the state invariant is kept. |
| `Nim.NimGame.ClickMatch` | game1.py:222-225 | a match joins the selection only while the game runs, if it is alive, not yet selected and fewer than three are selected. The selection stays distinct, alive and at most three. |
| `Nim.NimGame.Restart` | game1.py:195-211 | 20 alive matches, player 1, game not over, nothing selected |
| `Nim.NimGame.ClickButton` | game1.py:191-220 | the button restarts a finished game. In a running game it ends the move: the selected matches are taken (`Take`), and the turn passes unless the red match was taken. With no valid selection, the table and the player stay as they were. |
| `EvenHunt.GetOddN` | game2.py:41-50 | the answer returned is the first that is positive and odd; none is returned exactly when no answer qualifies |
| `EvenHunt.Accepts` | game2.py:47 | definition of the dialog's test: an answer is used when it is present, odd and positive. `EvenHunt.GetOddN` is proved against it. |
| `EvenHunt.Cols` | game2.py:61 | definition of `min(8, 2n)` columns; `EvenHunt.LayoutFits` proves the grid holds every number |
| `EvenHunt.GridRows` | game2.py:62 | definition of `ceil(2n / cols)` rows; `EvenHunt.LayoutFits` proves the grid holds every number |
| `EvenHunt.LayoutFits` | game2.py:61-73 | every starting position i < 2n lies in row `i / cols` < rows and column `i % cols` < cols |
| `EvenHunt.CellsDistinct` | game2.py:69-73 | different positions get different cells, so a click hits at most one number |
| `EvenHunt.Deal` | game2.py:58-73 | buttons 1..2n in order, the k-th in cell (k / cols, k % cols); their sum is 1+…+2n |
| `EvenHunt.StartParity` | game2.py:58 | 1+…+2n has the parity of n |
| `EvenHunt.RemoveFirst` | game2.py:91 | `list.remove` on a distinct list removes that element only and keeps the list distinct |
| `EvenHunt.Toggled` | game2.py:88-93 | definition of a click on a number: remove it if selected, add it if fewer than two are selected. `EvenHunt.ToggleTwice` and `EvenHunt.Game.Toggle` state its properties. |
| `EvenHunt.ToggleTwice` | game2.py:88-93 | clicking a just-selected button again undoes the selection |
| `EvenHunt.Combine` | game2.py:95-107 | one button fewer after a replacement. `EvenHunt.CombineSum` and `EvenHunt.CombineBounds` state what it does to the values. |
| `EvenHunt.CombineSum` | game2.py:95-107 | a replacement lowers the sum by exactly twice the smaller value |
| `EvenHunt.CombineBounds` | game2.py:98-107 | a replacement keeps all values within [0, bound] |
| `EvenHunt.Relayout` | game2.py:112-115 | the re-layout puts button k in cell (k / cols, k % cols) and keeps every value |
| `EvenHunt.ReplaceKeepsTable` | game2.py:95-115 | replacement plus re-layout keeps the table well formed: cells, values in [0, 2n], and sum parity that of n |
| `EvenHunt.Game.constructor` | game2.py:52-73 | values 1..2n, nothing selected, not done, the invariant established |
| `EvenHunt.Game.Toggle` | game2.py:88-93 | the selection becomes `Toggled`: at most two, distinct, in range |
| `EvenHunt.Game.Replace` | game2.py:95-118 | the values become `Combine` of the selected pair: the difference at the lower index, the higher index removed, one fewer button. The sum drops by twice the smaller value, so its parity is kept. The game is done exactly when one number is left. |
| `EvenHunt.Game.Restart` | game2.py:120-122 | values 1..2n again, nothing selected, not done |
| `EvenHunt.Game.OnClick` | game2.py:87-122 | a click toggles the number hit, then replaces if the replace button was hit with two selected; once done, only restart acts |
| `EvenHunt.Game.FinalValue` | game2.py:146-148 | the last number has the parity of n and lies in [0, 2n]; for the odd n that are accepted it is odd |
| `MagicCircle.Increase` | game3.py:74-76 | sector s and sector (s+1) mod 6 go up by one; nothing else changes |
| `MagicCircle.AllEqual` | game3.py:78-79 | definition of `all_equal`; `MagicCircle.AllEqualHasZeroInvariant` and `MagicCircle.NeverAllEqual` are proved about it |
| `MagicCircle.Invariant` | game3.py:81-83 | definition of `compute_invariant`, the alternating sum; `MagicCircle.IncreaseKeepsInvariant` proves clicks keep it |
| `MagicCircle.IncreaseKeepsInvariant` | game3.py:74-83 | the alternating sum is unchanged, including across the wrap from 5 to 0, and the total rises by 2 |
| `MagicCircle.StartInvariant` | game3.py:23 | the start position has invariant 2 and is not all equal |
| `MagicCircle.AllEqualHasZeroInvariant` | game3.py:78-83 | `all_equal` holds exactly when every sector equals sector 0, and then the invariant is 0 |
| `MagicCircle.PlayKeepsInvariant` | game3.py:74-83 | any sequence of clicks keeps the invariant and raises the total by 2 per click |
| `MagicCircle.NeverAllEqual` | game3.py:78-83 | from the start or reset position no sequence of clicks makes all sectors equal |
| `MagicCircle.Circle.constructor` | game3.py:23 | the ring starts at `[1,0,1,0,0,0]` |
| `MagicCircle.Circle.IncreaseNeighbors` | game3.py:74-76 | the ring becomes `Increase` of the old ring and keeps invariant 2 |
| `MagicCircle.Circle.Reset` | game3.py:106-108 | the ring is back at `[1,0,1,0,0,0]` |
| `MagicCircle.Circle.OnClick` | game3.py:156-175 | a sector hit is increased before any button acts. "Check Equal" always reports "All equal? No", "Invariant" reports "Invariant: 2", and reset restores the start and reports "Game Reset". |

## Left out

- Sockets, threads, the listen/accept loops, `join`, and printing are not
  modelled. Each received datagram or connection is a parameter of one call,
  and a failing `sendto` is a set of destinations. The TCP server's
  per-connection threads are modelled as handling one request at a time.
- JSON text and UTF-8 are abstract. A packet is either the JSON value it
  decodes to, text that is not JSON, or bytes that are not UTF-8. The exact
  bytes of `json.dumps` are not modelled.
- JSON numbers with a fraction or an exponent are not modelled anywhere:
  `Wire.Json` has integers only. A game message such as `{"x": 1.5}`, which
  the relay forwards and `parse_data` returns, has no packet in the model.
- `Peer.Client.Send`: the message is typed as a JSON value, so it can
  always be serialized. In the source, `json.dumps` at client.py:64-67 runs
  outside the `try`. A message it cannot serialize (a set, an arbitrary
  object) makes `send` raise to its caller; the model does not capture that.
- `recvfrom(1024)` and `recv(1024)` truncation is not modelled. A longer
  registration or message would be cut, and would usually fail to decode.
- `Server.PortOf`: `int()` on strings with surrounding whitespace, digit
  underscores or non-ASCII digits is treated as an error. JSON numbers with
  a fraction or an exponent are not modelled: `Wire.Json` has no float
  value, so such a payload cannot be represented, and Python's truncating
  `int()` on it is not captured.
- `Peer.Client.Send`: only a closed socket makes `sendto` raise in the
  model. Other `sendto` errors are caught the same way at client.py:71, for
  example a datagram over the size limit or an unreachable network. For
  those the model still claims that a datagram leaves.
- Lock contention between threads is not modelled. Only the operation
  sequence of one registration is modelled, which is enough to show that it
  blocks.
- The relay sends to whatever address a peer registered. Its host is the
  TCP source address (server.py:79), which can differ from the host the
  client's UDP socket is bound to (client.py:20-26). Address resolution is
  not modelled.
- The client's receive thread binds a second UDP socket to the address the
  client socket already holds (client.py:25-30, 122-123). On most systems
  that bind fails. The model assumes the receive thread gets the client's
  datagrams.
- `UdpServer.send` is never called by the rest of the source; it is modelled
  as written.
- `Client.run` only starts the receive thread; it is not modelled.
- Rendering, fonts, images, intro screens, timers, the confetti and message
  fade-out are not modelled, nor the recursion depth that `run_game`'s
  restart-by-recursion accumulates.
- Pixel hit-testing is not modelled. The match rectangles, the number-button
  rectangles and `get_sector_from_pos` (floating-point `atan2`) are replaced
  by the index that was hit. A sector is assumed to be 0..5; that holds for
  the rounding-free case.
- The tkinter dialog is a sequence of answers. When the answers run out,
  `EvenHunt.GetOddN` returns none, where the source would keep asking.
- The Magic Circle's intro phase, which ignores clicks, is not modelled.

## Findings

| source | as written | input that shows it | evidently intended | confidence | as-written member | corrected member |
|---|---|---|---|---|---|---|
| server.py:81-83 | `handle_client` takes the shared `Lock` and, while holding it, calls `register_player`, which takes the same non-reentrant lock again (server.py:34; one lock, shared by both servers at server.py:102-104). The two lock traces are written out by hand from server.py:81-83 and server.py:34; they are not derived from `HandleClient`'s body. The general claim is `Server.NestedAcquireBlocks`: any two acquisitions in a row block. | any valid registration, e.g. `{"action": "register", "payload": 40000}` from 127.0.0.1: the handler thread blocks forever holding the lock, no reply is sent, and from then on the relay loop also blocks at its own acquire | both tables updated under one acquisition, and the reply sent | high (not executed) | `Server.RegisterAsWrittenDeadlocks` | `Server.RegisterCorrectedCompletes` |
| server.py:23-31 | one `try` wraps the whole fan-out, so the first `sendto` that raises skips every later recipient of that datagram (`Server.UdpServer.Relay` sends `UntilFailure` of the copies) | peers A then B registered; a datagram from a third address; `sendto` to A raises (for example an unreachable host): B gets nothing | each destination's failure isolated, so every other recipient still gets its copy | high (not executed) | `Scenario.LostBehindFailure` | `Server.UdpServer.RelayIsolated` |
| client.py:82 | the fallback of `parse_data` calls `data.decode()` again, which raises on bytes that are not UTF-8; `get_messages` then loses every message popped so far and that datagram | an inbox `[b'{"a": 1}', b'\xff']`: `get_messages` raises, the first message is lost and the inbox is empty | undecodable entries surfaced as a message wrapping the raw text, so the drain never raises or drops data | high (not executed) | `Peer.DrainStopsAtBinary` | `Peer.LosslessDrainInOrder` |
