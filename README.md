# chat.py connection bookkeeping, in Dafny

chat.py is a peer-to-peer console chat. Each process listens on a port and
dials other peers on request. It keeps one table, `active_connections`, which
maps a connection id to `(socket, (ip, port))`. Three kinds of thread use the
table:

- the command dispatcher (`handle_user_input`), which reads `help`, `myip`,
  `myport`, `connect <ip> <port>`, `list`, `terminate <id>`,
  `send <id> <text>` and `exit`;
- the main accept loop, which reads an `ip:port` handshake from every
  inbound socket and registers the peer;
- one reader per connection, which removes its entry when its socket ends.

This project models the following parts, and proves what each promises:

- the bookkeeping on the table: inbound registration, outbound registration
  after `connect`, `terminate`, `list`, and the reader's clean-up;
- the handshake text and how it is parsed;
- command recognition;
- the `connect` pre-checks: a bad address, the host's own address, and an
  address already in the table.

Files:

- `pytext.dfy` (module `PyText`): the Python string built-ins the program
  relies on. These are `str.strip`, `str.split` with and without `maxsplit`,
  `str.split(":")`, `int(text)` and the decimal text of an `int`.
- `handshake.dfy` (module `Handshake`): the `ip:port` text and how the
  accept loop parses it.
- `commands.dfy` (module `Commands`): the if/elif chain that recognises a
  command line.
- `registry.dfy` (module `Registry`): the table as a value. This is a map
  plus the dict's iteration order, with every update as a function.
- `dispatch.dfy` (module `Dispatch`): one command, the dispatcher loop over a
  script of inputs, and one accepted connection, as functions on the table.
- `node.dfy` (module `Node`): class `ChatNode`. It holds the table and the
  `running` flag as fields, and performs the same operations in place. Its
  scans are loops, and each method is proved against the functions above.

The model follows the code in three places where a clean design of this
system would behave differently:

- **Connection ids reuse a live id.** Ids are `len(active_connections) + 1`.
  After a removal, the next registration can compute the id of an entry
  that is still live and overwrite it. The overwritten socket can then no
  longer be sent to or terminated, and the closing sweep of `main`
  (chat.py:226-227) skips it; only its reader closes it, when the peer hangs
  up (chat.py:58-60). The model keeps this rule, and `Registry.RemovalThenAdmitOverwrites`
  and `Registry.IdReuseExample` state the collision. A monotonic counter
  would avoid it.
- **A failing `send` ends the dispatcher.** When `sendall` raises an
  `OSError`, nothing in `handle_user_input` catches it. The dispatcher thread
  ends, `running` stays `True`, and the process keeps accepting peers but no
  longer reads commands. The model's `SendRaised` effect ends the session
  with `alive` false, and `Dispatch.SendRaisedStep` states it for a typed
  `send` line.
- **Some handshakes end the accept loop.** A handshake with two or more
  colons, or a port that `int` rejects, raises a `ValueError` in the main
  loop. Only `KeyboardInterrupt` is caught there, so the loop and the closing
  sweep are skipped. The model calls this outcome `Crash`, separate from the
  colon-less handshake that is closed and skipped.

## Model

| member | source | states |
|---|---|---|
| PyText.LStrip | chat.py:105 | the result is no longer than the input and does not start with whitespace |
| PyText.LStripDropsLeadingSpace | chat.py:105 | `lstrip` removes exactly a whitespace prefix: the result is a suffix and what it drops is all whitespace |
| PyText.RStrip | chat.py:105 | the result is a prefix, what it drops is all whitespace, and it does not end with whitespace |
| PyText.Strip | chat.py:105 | the stripped command neither starts nor ends with whitespace and is no longer than the line |
| PyText.LStripPadded | chat.py:105 | whitespace before a text that starts with a non-space is removed and nothing else |
| PyText.LStripSkipsSpace | chat.py:105 | leading whitespace makes no difference to `lstrip` |
| PyText.RStripPadded | chat.py:105 | whitespace after a text that ends with a non-space is removed and nothing else |
| PyText.StripPadded | chat.py:105 | `strip` returns the text between whitespace padding unchanged |
| PyText.StripUnpadded | chat.py:105 | a text without leading or trailing whitespace is its own strip |
| PyText.StripAbsorbs | chat.py:105 | whitespace added on either side of a text never changes its `strip()` |
| PyText.TakeWord | chat.py:116 | the first token is a whitespace-free prefix followed by whitespace or the end |
| PyText.TakeWordOf | chat.py:116 | a word followed by whitespace is taken whole |
| PyText.SplitWs | chat.py:149 | `split(maxsplit=m)` yields at most m+1 non-empty parts; each starts with a non-space, and every part before the last allowed one has no whitespace |
| PyText.SplitWsSkipsSpace | chat.py:116 | leading whitespace does not change `split()` |
| PyText.SplitWsWord | chat.py:116 | a leading word becomes the first part and the rest is split with one split fewer |
| PyText.SplitWsRest | chat.py:149 | once the splits are used up, the remainder after whitespace is one part, inner whitespace included |
| PyText.SplitWsBlank | chat.py:116 | a blank text splits into no parts |
| PyText.SplitWsTwoAndRest | chat.py:149 | `w1 g1 w2 g2 x` with `maxsplit=2` splits into exactly `[w1, w2, x]` |
| PyText.SplitWsOneWord | chat.py:116 | a single word splits into itself |
| PyText.SplitWsTwoWords | chat.py:133 | two words with whitespace between split into exactly those two |
| PyText.SplitWsThreeWords | chat.py:116 | three words with whitespace between split into exactly those three |
| PyText.SplitWsLastIsSuffix | chat.py:149-153 | when `split(maxsplit=m)` yields m+1 parts, the last part is a suffix of the text |
| PyText.Count | chat.py:206 | the number of occurrences is zero exactly when the character is absent |
| PyText.SplitOn | chat.py:206 | `split(":")` yields one more part than there are separators, and no part contains one |
| PyText.JoinSplit | chat.py:206 | joining the parts with the separator gives back the original text |
| PyText.SplitOnNone | chat.py:206 | a text without the separator is one part |
| PyText.SplitOnFirst | chat.py:206 | the text before the first separator is the first part |
| PyText.SplitJoin | chat.py:206 | splitting a join of separator-free parts gives back the parts |
| PyText.ParseIntSucceeds | chat.py:76 | a text `int()` accepts is an optional sign and a digit run (single underscores between digits) inside whitespace, reads as that run's signed value, and holds no separator U+001C..U+001F |
| PyText.ParseIntPadded | chat.py:136 | conversely, every signed digit run with the padding `int()` skips (ASCII ` \t\n\v\f\r` and non-ASCII spaces) on either side reads as its signed value |
| PyText.ParseIntRejectsSeparator | chat.py:207 | a separator U+001C before a number is dropped by `strip()` but makes `int()` raise |
| PyText.ShowNat | chat.py:90 | the decimal text of a natural number is a non-empty run of digits |
| PyText.ShowInt | chat.py:90 | the decimal text of an integer is non-empty, has no whitespace, and holds only digits and `-` |
| PyText.DigitsValueOfShowNat | chat.py:90 | the digits written for `n` have the value `n` |
| PyText.ParseShowInt | chat.py:207 | `int(str(n)) == n`: the port written in a handshake reads back as the same port |
| Handshake.ParseHandshake | chat.py:201-207 | a payload is closed and skipped exactly when it has no colon; an accepted one has exactly one colon, and its ip is the text before it and its port the integer after it |
| Handshake.HandshakeText | chat.py:90 | the dialer's `ip:port` text splits at `:` back into the ip and the decimal port, for a colon-free ip |
| Handshake.HandshakeRoundTrip | chat.py:90-91 | the accept side reads the dialer's `ip:port` text back as that ip and port, for a colon-free ip |
| Handshake.OneColon | chat.py:206-207 | with a single colon the payload is accepted exactly when the text after it is an integer, and it crashes otherwise |
| Handshake.ManyColons | chat.py:206 | two or more colons make the unpacking raise, which the accept loop does not catch |
| Commands.ParseCommand | chat.py:109-169 | `help`, `list` and `exit` are recognised exactly on equal text; `connect`, `terminate` and `send` only after their prefix with a space; a recognised `connect` carries the second and third of exactly three `split()` tokens, a `terminate` the `int()` of the second of exactly two, a `send` the `int()` of the second of three `split(maxsplit=2)` parts and the third part as its text |
| Commands.CommandOf | chat.py:105 | the typed line is stripped first: it is `exit` or `help` exactly when its stripped text is |
| Commands.CommandOfPadded | chat.py:105 | whitespace around a typed line never changes the command it is recognised as |
| Commands.ConnectArgs | chat.py:116-126 | three tokens give the address tokens, and any other count the usage text |
| Commands.TerminateArgs | chat.py:133-147 | two tokens with an integer second one give that id; a wrong count or a `ValueError` gives the usage text |
| Commands.SendArgs | chat.py:149-163 | three parts with an integer second one give that id and the third part as the message; otherwise the usage text |
| Commands.MalformedIsUsage | chat.py:115-163 | a `connect`, `terminate` or `send` command shows its usage text exactly when its token count is wrong or its id is not an integer |
| Commands.ParsePrefixed | chat.py:115-149 | a prefixed command takes its argument branch whatever the earlier comparisons are |
| Commands.SendArgsOf | chat.py:148-153 | `send <id-text> <text>` with an integer id-text names that id and the whole text |
| Commands.SendKeepsText | chat.py:105-153 | a typed `send` line delivers its message with inner whitespace intact, whatever padding surrounds it |
| Commands.SendTextIsTail | chat.py:149-153 | the message `send` delivers is always a tail of the stripped command |
| Commands.TerminateArgsOf | chat.py:132-136 | `terminate <token>` with an integer token names that id |
| Commands.TerminateOf | chat.py:105-136 | the typed line `terminate <token>` is recognised with that id |
| Commands.TerminateLine | chat.py:130-136 | an id typed as `list` printed it is recognised by `terminate` as the same id |
| Commands.ConnectArgsOf | chat.py:115-118 | `connect <ip> <port>` hands over both tokens unchanged |
| Commands.ConnectLine | chat.py:105-118 | the typed line `connect <ip> <port>` is recognised with both tokens unchanged |
| Registry.Empty | chat.py:8 | the table at start-up is empty and valid |
| Registry.HasAddr | chat.py:82-85 | some entry has the address exactly when a walk of the entries in iteration order meets it |
| Registry.NextId | chat.py:122 | the new id is `len(active_connections) + 1`, one more than the length of the iteration order, and positive |
| Registry.OrderLength | chat.py:122 | the iteration order is exactly as long as `len(active_connections)` |
| Registry.Without | chat.py:140 | deleting a key removes it from the iteration order and keeps every other key; deleting an absent key changes nothing |
| Registry.WithoutCutsOne | chat.py:140 | on an order `p + [x] + q` without repeats, deleting `x` leaves `p + q`, so the other keys keep their relative order |
| Registry.Assign | chat.py:123 | `d[id] = c` stores `c`, keeps every other entry, appends a new key at the end of the order, and keeps an existing key's place |
| Registry.Delete | chat.py:140 | `del d[id]` removes that entry only, and the size drops by one |
| Registry.AdmitInbound | chat.py:209-217 | a known address leaves the table unchanged; a new one is stored under `len + 1` and the table grows unless that id was taken |
| Registry.AdmitOutbound | chat.py:121-123 | the dialed connection is stored under `len + 1`, keeping every other entry |
| Registry.TerminateId | chat.py:137-143 | a present id is removed with nothing else touched; an absent id leaves the table unchanged |
| Registry.FirstMatch | chat.py:62-66 | the reader's scan finds nothing exactly when no entry has the address, and otherwise finds the first match in iteration order |
| Registry.FirstMatchIsFirst | chat.py:63-66 | a scan that stops at the first match stops where FirstMatch says |
| Registry.RemoveByAddr | chat.py:61-68 | nothing is removed exactly when no entry has the address; otherwise the first matching id in iteration order is removed and nothing else |
| Registry.Rows | chat.py:130-131 | `list` prints one row per entry, each a live id with its address, and no id twice |
| Registry.ListedIffLive | chat.py:127-131 | an id is listed exactly when it is in the table |
| Registry.StoredKeepsUnique | chat.py:82-85 | storing an address no entry has keeps addresses unique, even over an existing key |
| Registry.DroppedKeepsUnique | chat.py:140 | removing an entry keeps addresses unique |
| Registry.AdmitInboundKeepsUnique | chat.py:209-217 | inbound registration never lets two entries share an address |
| Registry.DenseIdsStayFresh | chat.py:122-123 | while nothing has been removed, the ids are exactly 1..n and `len + 1` is fresh |
| Registry.RemovalThenAdmitOverwrites | chat.py:122-123 | after removing an id below n from ids 1..n, the next registration gets id n, which is still live, and overwrites it |
| Registry.IdReuseExample | chat.py:122-123 | from ids {1, 2}, `terminate 1` and a new connection leave only id 2, now holding the new peer |
| Dispatch.ConnectToPeer | chat.py:73-98 | a bad address is refused exactly when `ip_address` or `int(port)` raises; self-connection exactly on the host's own valid address; for any other valid address, `AlreadyConnected` exactly when an entry has it, whatever the dial would do; the peer is dialed exactly when the address is valid, not the host's, not in the table and the dial succeeds, and the dialed address is the one typed |
| Dispatch.Step | chat.py:103-171 | the table stays valid; `running` is cleared exactly by `exit`, end of input or an interrupt; the thread dies only when `sendall` raised, with `running` still set |
| Dispatch.Handle | chat.py:109-169 | only `exit` clears `running`, and only a raising `sendall` ends the thread |
| Dispatch.HandleEffects | chat.py:115-163 | a `connect` whose pre-checks and dial succeed stores the dialed socket under `len + 1`, and any other `connect` reports why and changes nothing; `terminate` removes a present id and closes its socket; `list` shows exactly the rows of the table; `send` to a present id goes to the socket stored under that id with the whole text, and a failing `sendall` ends the thread with `running` still set; an absent id is reported; nothing else changes the table |
| Dispatch.DispatcherObeys | chat.py:101-171 | each pass of the dispatcher keeps the promises the loop relies on |
| Dispatch.Loop | chat.py:103-171 | events are handled in order; a stopped run stopped at its last event and read no stopping event before it; a run still going read none; a dead run died of `sendall` on its last event |
| Dispatch.Run | chat.py:101-171 | the dispatcher reads events up to the first one that clears `running` and no further; a run still going read no stopping event, and one still going and alive read the whole script |
| Dispatch.StopsIffExit | chat.py:164-171 | the events that clear `running` are end of input, an interrupt, and a line recognised as `exit` |
| Dispatch.StopEndsRun | chat.py:164-171 | once an event clears `running`, no later event is read |
| Dispatch.Accept | chat.py:200-219 | a colon-less handshake is closed and a malformed one crashes; a known address is closed with the table unchanged; a new one is stored under `len + 1` |
| Dispatch.AcceptRegistersSender | chat.py:215-217 | the handshake text of a new peer registers that ip and port under `len + 1` |
| Dispatch.AcceptIgnoresKnownSender | chat.py:209-214 | the handshake of a peer already in the table changes nothing |
| Dispatch.AcceptKeepsUnique | chat.py:209-217 | the accept loop never lets two entries share an address |
| Dispatch.HandleKeepsUnique | chat.py:115-147 | no command lets two entries share an address |
| Dispatch.ConnectedIsListed | chat.py:120-131 | a connection just made is listed under its id with its address |
| Dispatch.TerminateThenSendInvalid | chat.py:132-159 | after `terminate n` succeeds, `send n ...` finds no connection, sends nothing and changes nothing |
| Dispatch.SendStep | chat.py:148-157 | a typed `send` line sends its whole message to the socket stored under the id |
| Dispatch.SendRaisedStep | chat.py:148-157 | a typed `send` line whose `sendall` raises ends the dispatcher thread with `running` still set and the table unchanged |
| Dispatch.ConnectStep | chat.py:115-124 | a typed `connect` to a valid, new address other than the host's, with a dial that succeeds, stores the dialed socket under `len + 1` with the typed address |
| Dispatch.ConnectKnownRefused | chat.py:82-85 | a typed `connect` to an address already in the table is refused with the table unchanged, whether or not the dial would succeed |
| Dispatch.ConnectSelfRefused | chat.py:78-80 | `connect` to the host's own ip and port is refused without dialing and without a change to the table |
| Node.ChatNode.constructor | chat.py:7-8 | start-up: an empty table and `running` set |
| Node.ChatNode.Store | chat.py:123 | the fields afterwards are the table Assign computes |
| Node.ChatNode.Drop | chat.py:140 | the fields afterwards are the table Delete computes |
| Node.ChatNode.HasAddress | chat.py:82-85 | the scan answers true exactly when some entry has the address |
| Node.ChatNode.ConnectToPeer | chat.py:73-98 | the checks in their order give the verdict Dispatch.ConnectToPeer gives |
| Node.ChatNode.AcceptPeer | chat.py:200-219 | the table and the verdict are those of Dispatch.Accept |
| Node.ChatNode.ReaderCleanup | chat.py:61-68 | the scan with `break` and the truthiness test remove what RemoveByAddr removes and report the same id |
| Node.ChatNode.ListRows | chat.py:129-131 | the loop collects exactly Rows of the table |
| Node.ChatNode.HandleEvent | chat.py:104-171 | the table, effect and thread status are those of Step, and `running` is cleared as Step says |
| Node.ChatNode.HandleCommand | chat.py:109-169 | the table, effect and thread status are those of Handle |
| Node.ChatNode.NextEvent | chat.py:103-171 | one pass advances the run the way Run does |
| Node.ChatNode.HandleUserInput | chat.py:101-171 | the loop leaves the table, `running`, the thread status and the effects of Run; it does nothing when `running` is already clear |

## Left out

- Sockets and I/O: `recv`, `sendall`, `connect`, `close` and `decode` are not modelled. A socket is an opaque handle. Whether a dial or a send succeeds is an input (`Io`). Closing a socket appears only as an effect (`Terminated`, or a closed inbound socket).
- Threads and the lock: every update is modelled as one atomic step. This covers the unlocked duplicate scan in connect_to_peer, the window between registering an inbound peer and starting its reader (chat.py:216-219), and, for `connect`, the window between starting the reader (chat.py:94) and registering the peer (chat.py:121-123). Races between threads are not modelled.
- The reader's receive loop and its message printing (chat.py:49-57): only its clean-up is modelled.
- `select` and the `while running` accept loop (chat.py:195-198): only the body for one accepted socket is modelled.
- The `if not running: break` right after `input()` (chat.py:106-107): only another thread could clear `running` at that point, and threads are outside the model.
- `get_my_ip`, `get_my_port` and `ipaddress.ip_address` are parameters (`Host`). `get_my_ip` may return `None` or an error text, and the model simply compares whatever text it gives.
- Printing, `display_help` and the exact messages: effects name what is shown, not the text.
- `int()` on non-ASCII decimal digits: only ASCII digits, an optional sign, the whitespace `int()` skips and single underscores between digits are accepted.
- `int()`'s limit of 4300 digits on a decimal text: the model converts texts of any length.
- The `Interrupt` event: CPython delivers `KeyboardInterrupt` only to the main thread, so the `except KeyboardInterrupt` of the dispatcher (chat.py:170) never fires; Ctrl+C is caught by `main` (chat.py:221-223), which clears `running`. The dispatcher's `Interrupt` event stands in for that handler.
- `main`: the port from `sys.argv`, the server socket, the `KeyboardInterrupt` handler and the closing sweep (chat.py:175-230).
- main.py and test_client.py are not part of this model.
- Dispatch.Loop: a script that runs out without end of input leaves the run ending with `running` still set, where the program would block in `input()`.
- Dispatch.ConnectToPeer: a failing handshake `sendall` inside connect_to_peer is folded into `DialFailed`, because the code catches both failures in the same handler.
