# TicTacToeNet in Dafny

A model of TicTacToeNet, a console tic-tac-toe game that can be played by two machines
on one LAN. It has two halves:

- **A small LAN layer** (`lan/`). It has four parts:
  - Length-prefixed TCP framing. A 16-character header `!DYNAMIC!(` + length + `)` comes
    before each payload. The payload `!CON!` is a liveness probe, and the receiver drops it.
  - A UDP discovery handshake. A joining machine broadcasts `PYMULT_BROADCAST` three
    times. A hosting machine answers each new prober with a 27-byte header and a payload.
    A list of recently seen IPs keeps it from answering the same prober again and again.
  - The scan of those answers.
  - The host's registry of accepted clients.
- **The board** (`game/board.py`, and its older stand-alone copy `board.py`). It covers:
  - the 3x3 grid and the winner test;
  - alternating turns, a local move typed as `row,col`, and a move received from the peer;
  - the draw ("cat") flag;
  - the negotiation that decides which machine plays X.

Sockets, the clock and the random draw are values passed in, so that every operation
is deterministic:

- A TCP socket is the sequence of arrivals its `recv` calls will meet: a chunk of bytes,
  a timeout or an error. A peer that has closed the connection is the exhausted sequence.
- A UDP socket is the sequence of datagrams or quiet periods its `recvfrom` calls will
  meet.
- Whatever a class sends is appended to a sequence field.
- The time is a `now` parameter.
- The typed input lines are a sequence parameter.

The files follow the program:

- `text.dfy`: modules `Outcomes` and `Text`. The Python text operations the code relies
  on: `int()`, `f'{n:<w}'`, `in` on strings, clamped slicing and `split`.
- `sockets.dfy`: module `Sockets`.
- `connection.dfy`: module `Connections`, for `lan/connection.py`.
- `broadcast_responder.dfy`: module `Responder`, for `lan/broadcast_responder.py`.
- `lan.dfy`: module `Discovery`, for `lan/lan.py`.
- `client_handler.dfy`: module `Clients`, for `lan/client_handler.py`.
- `rules.dfy`: module `Rules`. The grid, the players, the winning lines and the move text
  that both boards share.
- `game_board.dfy`: module `GameBoard`, for `game/board.py`.
- `board.dfy`: module `LegacyBoard`, for `board.py`.

Objects whose fields the program updates in place are classes with `modifies` frames.
These are `Connection`, `BroadcastResponder`, `ClientHandler`, `Board` and `Player`.
The loops of the program are `while`/`for` loops with invariants. Most are proved
equal to a pure reference function, and the properties of that function are proved as
lemmas. The rest state their new state element by element:

| method | reference function |
|---|---|
| `Connection.DynamicReceive` | `DynRecv` |
| `Connection.DynamicReceiveFixed` | `DynRecvFixed` |
| `Connection.ReceiveTcpAll` | `ReceiveAll`, that is `DrainAll` when a socket exists |
| `ClientHandler.ReceiveTcpAllClients` | `ReceiveAll` of each client, and `Concat` of what they held |
| `UpdateRecentRequestAddrs` | `SweepAsWritten` |
| `CheckRecentRequestAddrs` | `CheckRecent` |
| `CheckLanServers` | `ScanReplies` |
| `ChooseCell` | `FirstValidMove` |
| `FindWinner` | `FirstWinner` |
| `NoEmptyCell` | `Full` |
| `ClientHandler.AcceptClients` | none: each new client is stated per waiting peer (`Accepted`) |
| `ClientHandler.AppendAll` | none: the FIFO is stated as the old one plus the messages |
| `ClientHandler.SendTcpAllClients` | none: each client's wire and saved list are stated |

The methods of `Connection` that make up `dynamic_receive` (`ReceiveHeader`,
`ReceivePayload`, `ReceiveFrame`) are likewise proved equal to `HeaderStep`, `PayloadStep`
and `FrameStep`.

Where the program has a defect in the modelled files, the class method models it as
written. A separate corrected member sits beside it (see "## Findings"). The rest of the
model composes the as-written members, so that it describes the program as it runs. The
one exception is `Rules.Player.SetMode`: the method it stands for is missing from a file
outside this model (see "## Left out").

## Model

| member | source | states |
|---|---|---|
| `Sockets.Recv` | lan/connection.py:71 | `recv(n)`: a negative size fails and an exhausted stream reads `''`; otherwise at most `n` bytes come off the head chunk, and the bytes in flight are exactly those read followed by those left |
| `Sockets.RecvFrom` | lan/lan.py:47 | `recvfrom(n)` takes one delivery: a datagram cut to its first `n` bytes with its sender, or nothing on a timeout |
| `Connections.FrameHeader` | lan/connection.py:222 | every header `dynamic_send` writes starts with `!DYNAMIC!(`, ends with `)` and has at least 16 characters |
| `Connections.FrameHeaderShape` | lan/connection.py:195-200 | for a length below 100000, the header `dynamic_send` writes has exactly `DYNAMIC_HEADER_BYTES` (16) characters, contains `DYNAMIC_HEADER[:9]`, and `int(header[10:15])` gives the length back |
| `Connections.HeaderOnWire` | lan/connection.py:222 | a header written by `dynamic_send` is accepted by the receiver and announces the payload's length |
| `Connections.FrameOnWire` | lan/connection.py:217-228 | header then payload, as written, form one whole frame for the receiver, and nothing after it is consumed |
| `Connections.SkipProbesStops` | lan/connection.py:210-213 | once the leading `!CON!` frames are skipped, the frame ahead carries no protocol payload, and skipping again changes nothing |
| `Connections.Connection.constructor` | lan/connection.py:18-26 | a connection starts with the given address, socket and `save_sent_msgs`, and every list empty |
| `Connections.Connection.Interrupted` | lan/connection.py:258-267 | the interleaving marker: IP `'interrupted'`, no port, no socket, empty lists |
| `Connections.Connection.AddMessage` | lan/connection.py:34-35 | `_msgs` grows by the message |
| `Connections.Connection.ReceiveTcp` | lan/connection.py:58-91 | returns True exactly when a socket exists and the read gave non-empty bytes; then the FIFO grows by exactly that string; on False the FIFO is unchanged (empty read, timeout, error or no socket) |
| `Connections.HeaderStep` | lan/connection.py:188-200 | the header read: it fails with False, and the FIFO as it was, exactly when the first read is not non-empty bytes containing `!DYNAMIC!`; it is a `ValueError` exactly when such a read has a length field `int()` refuses; otherwise the header stays queued and the length is `int(header[10:15])`; a whole header at the head of the stream announces its length |
| `Connections.FrameStep` | lan/connection.py:186-213 | one pass of the loop: a probe leaves the FIFO unchanged and consumes input; a delivered payload is appended and is neither empty nor `!CON!`; a failed payload read pops the message queued before the call, or raises `IndexError` when there was none; a `ValueError` comes from the header alone; a first read that is not a header changes nothing but the stream; on a stream holding a whole frame exactly that frame is consumed |
| `Connections.DynRecv` | lan/connection.py:179-215 | True means the FIFO is the old one plus exactly one payload, not in `SPECIAL_CASE_MSGS`, and the stream got shorter; False leaves the FIFO as it was or less its last entry; `IndexError` only from an empty FIFO; `ValueError` leaves one header queued |
| `Connections.DynRecvFirstRead` | lan/connection.py:188-200 | a first read that is not a header makes `dynamic_receive` return False with the FIFO as it was; a malformed first header is a `ValueError` with that header queued |
| `Connections.DynRecvSkipsProbes` | lan/connection.py:184-215 | after any number of whole `!CON!` frames, a whole frame delivers its payload and consumes exactly up to its end; a lost payload read drops the last queued message or raises `IndexError` |
| `Connections.FrameStepFixed` | lan/connection.py:186-213 | the corrected pass: as `FrameStep`, except that False leaves the FIFO as it was and `IndexError` cannot arise |
| `Connections.DynRecvFixed` | lan/connection.py:179-215 | the corrected receive keeps the guarantees of `DynRecv`, and a False result never disturbs the messages already queued |
| `Connections.DrainAll` | lan/connection.py:115-122 | `receive_tcp_all`: it never ends in True; every message it delivers is one for the application; the FIFO is the old one plus the delivered messages, less the last one when the final failed call popped it; `IndexError` only when nothing was queued or delivered |
| `Connections.DrainClosed` | lan/connection.py:115-122 | on a peer that has closed, `receive_tcp_all` returns False and changes nothing |
| `Connections.DrainAfterFrame` | lan/connection.py:115-122 | one whole frame on the stream: a `!CON!` frame is skipped, any other payload is appended and counted as delivered |
| `Connections.DrainFramed` | lan/connection.py:115-122 | a peer that `dynamic_send`s payloads of 1 to 99999 characters and closes: `receive_tcp_all` delivers exactly those that are not `!CON!`, in order, appends exactly them, returns False and uses up the stream |
| `Connections.Connection.ReceiveHeader` | lan/connection.py:188-200 | with a socket, the length, outcome, stream and FIFO are exactly those of `HeaderStep`; without one, nothing changes |
| `Connections.Connection.ReceivePayload` | lan/connection.py:202-213 | exactly `PayloadStep`: on a good payload read the header is replaced by the payload, or removed when the payload is `!CON!`; on a failed read two entries are popped (the header and the message before it), or `IndexError` when the header was alone |
| `Connections.Connection.ReceiveFrame` | lan/connection.py:186-213 | with a socket, exactly `FrameStep`; without one, nothing changes and the pass ends |
| `Connections.Connection.DynamicReceive` | lan/connection.py:179-215 | with a socket, the result, stream and FIFO are exactly those of `DynRecv`; without one, False at once with nothing changed |
| `Connections.Connection.ReceivePayloadFixed` | lan/connection.py:202-213 | exactly `PayloadStepFixed`: a failed payload read removes only the header |
| `Connections.Connection.ReceiveFrameFixed` | lan/connection.py:186-213 | with a socket, exactly `FrameStepFixed` |
| `Connections.Connection.DynamicReceiveFixed` | lan/connection.py:179-215 | with a socket, exactly `DynRecvFixed`; without one, False at once |
| `Connections.Connection.ReceiveTcpAll` | lan/connection.py:115-122 | the result, the delivered messages, the stream and the FIFO are exactly those of `ReceiveAll`: `DrainAll` with a socket, False and nothing changed without one |
| `Connections.Connection.ClearRecvdMessages` | lan/connection.py:128-129 | the FIFO is emptied |
| `Connections.Connection.RemoveFirstRecvdMessage` | lan/connection.py:131-132 | `pop(0)`: returns element 0 and leaves the rest in order; an empty FIFO is the `IndexError` case |
| `Connections.Connection.SendTcp` | lan/connection.py:136-157 | True exactly when a socket exists; then the message is written once and, with `save_sent_msgs`, saved once |
| `Connections.Connection.DynamicSend` | lan/connection.py:217-228 | True exactly when a socket exists; the wire, and with `save_sent_msgs` the saved list, grow by the header and then the payload; without a socket nothing is written, so a payload is never written without its header |
| `Connections.Connection.ClearSavedSentMessages` | lan/connection.py:162-163 | the saved list is emptied |
| `Connections.ProbeThenFrame` | lan/connection.py:184-215 | the wire after sending `!CON!` and then a payload, once its probes are skipped, is exactly the payload's frame |
| `Connections.Loopback` | lan/connection.py:179-228 | two connections back to back: `dynamic_send('!CON!')` then `dynamic_send(p)`, read with `dynamic_receive`, leave exactly `p` appended to whatever the receiver had queued |
| `Connections.TruncatedFrameAsWritten` | lan/connection.py:202-208 | a header for 5 bytes followed by a timeout: the receiver loses its last queued message, or raises `IndexError` with nothing queued |
| `Connections.TruncatedFrameFixed` | lan/connection.py:202-208 | the same stream read by the corrected receive returns False and keeps the queue |
| `Connections.EmptyPayloadAsWritten` | lan/connection.py:202-208 | `dynamic_send('')` read with `dynamic_receive`: the `recv(0)` for the payload gives `b''`, and the receiver loses its last queued message, or raises `IndexError` with nothing queued |
| `Connections.EmptyPayloadFixed` | lan/connection.py:202-208 | the same empty message read by the corrected receive returns False and keeps the queue |
| `Responder.ReplyHeaderShape` | lan/broadcast_responder.py:102 | for a payload shorter than 1000 the reply header has 27 characters, contains `PYMULT_SERVER_RESPONSE`, and characters 23-25 read back as the size |
| `Responder.SweepAsWritten` | lan/broadcast_responder.py:143-149 | the sweep as written never lengthens the list, and keeps only entries that were on it |
| `Responder.SweepAll` | lan/broadcast_responder.py:143-149 | the corrected sweep keeps only entries that were on the list and have not expired |
| `Responder.SweepAsWrittenDropsOnlyExpired` | lan/broadcast_responder.py:143-149 | the sweep as written removes only expired entries and keeps the survivors in order |
| `Responder.SweepAllDropsEveryExpired` | lan/broadcast_responder.py:143-149 | the corrected sweep removes only expired entries, leaves none, and keeps every unexpired one in order |
| `Responder.SweepsKeepNoDup` | lan/broadcast_responder.py:143-149 | both sweeps preserve the invariant that no two entries share an IP |
| `Responder.SweepSkipsAfterRemoval` | lan/broadcast_responder.py:147-149 | with two expired entries, the sweep as written removes the first and keeps the second |
| `Responder.FirstExpired` | lan/broadcast_responder.py:127-130 | the index of the first expired entry, with no expired entry before it; none exactly when nothing has expired |
| `Responder.FindIp` | lan/broadcast_responder.py:133-135 | the index of the first entry with the IP, comparing the IP only; none exactly when no entry has it |
| `Responder.CheckRecent` | lan/broadcast_responder.py:117-141 | the check as written puts nothing on the list but the probing IP at `now` |
| `Responder.CheckRecentFixed` | lan/broadcast_responder.py:117-141 | the corrected check leaves on the list only the probing IP at `now` and entries that were there and have not expired |
| `Responder.CheckRecentLength` | lan/broadcast_responder.py:127-141 | one check changes the list length by -1 exactly when some entry had expired, by 0 on a repeat, and by +1 when the IP is recorded |
| `Responder.CheckRecentRejectsRepeat` | lan/broadcast_responder.py:132-141 | with nothing expired, the probe is rejected exactly when its IP is listed, whatever its port, and afterwards the IP's entry carries the time `now` |
| `Responder.CheckRecentKeepsNoDup` | lan/broadcast_responder.py:126-141 | the check as written preserves the no-duplicate-IP invariant |
| `Responder.CheckRecentFixedKeepsNoDup` | lan/broadcast_responder.py:126-141 | the corrected check preserves the invariant, never ends after a removal, always leaves the IP listed at `now`, and rejects exactly an IP with an unexpired entry |
| `Responder.CheckRecentFixedRejectsRepeat` | lan/broadcast_responder.py:117-141 | with the corrected check, a second probe from one IP within 1.5 s of the first is always rejected |
| `Responder.PollAnswersRepeat` | lan/broadcast_responder.py:84-88 | as written, from an empty list, probes from A at 0.0, B at 0.1 and C at 1.0 are recorded, and C probing again at 1.7 is not rejected: the sweep removes A and skips B, and the check removes B and returns |
| `Responder.PollFixedRejectsRepeat` | lan/broadcast_responder.py:84-88 | with both corrections, an IP with an unexpired entry is rejected and its entry refreshed |
| `Responder.BroadcastResponder.constructor` | lan/broadcast_responder.py:10-34 | the recent list starts empty and nothing has been sent |
| `Responder.BroadcastResponder.UpdateRecentRequestAddrs` | lan/broadcast_responder.py:143-149 | the enumerate loop that pops as it goes leaves exactly `SweepAsWritten` of the old list |
| `Responder.BroadcastResponder.CheckRecentRequestAddrs` | lan/broadcast_responder.py:117-141 | the three loops (first expired entry, IP search, `list.index`) raise `RecentRequestAddr` and update the list exactly as `CheckRecent` says |
| `Responder.BroadcastResponder.RespondToBroadcast` | lan/broadcast_responder.py:68-114 | sweep, then one `recvfrom(16)`, then the check on the sender's IP, which records even an invalid datagram from a new IP; True exactly when a datagram came, the check did not raise, and it is `PYMULT_BROADCAST`; then exactly the two reply datagrams go to (ip, port+1); no duplicate IPs are ever introduced |
| `Discovery.ScanReplies` | lan/lan.py:45-78 | the scan finds at most one host per two datagrams read |
| `Discovery.ScanSentinelLast` | lan/lan.py:64-69 | the interleaving marker, if present, is the last host found |
| `Discovery.ScanFindsReply` | lan/lan.py:47-72 | a header written by a responder and a payload from the same address yield one host, with the sender's IP and that payload, before whatever the rest yields |
| `Discovery.ScanInterleaved` | lan/lan.py:64-69 | a header followed by a datagram from another address ends the scan with the marker |
| `Discovery.ScanSkipsInvalid` | lan/lan.py:52-54 | a first datagram failing the 27-byte test is skipped without reading a second one |
| `Discovery.ScanStopsOnTimeout` | lan/lan.py:76-78 | a timeout, also one right after a header, ends the scan with what was found |
| `Discovery.ScanFailsOnBadSize` | lan/lan.py:57 | a size field `int()` refuses raises `ValueError`, discarding the hosts already found |
| `Discovery.HostConnection` | lan/lan.py:71-72 | the connection kept for a host that replied is new, carries the sender's IP and the probed port, and holds the reply's payload as its only message, with no socket, nothing to receive, nothing received, nothing sent and an empty saved list |
| `Discovery.CheckLanServers` | lan/lan.py:8-83 | exactly three `PYMULT_BROADCAST` probes go to ('255.255.255.255', port); the connections returned are fresh, in arrival order, one per host of `ScanReplies`, each with the sender's IP, the probed port and the payload as its one message, or the marker, and every one without a socket and with empty received, sent and saved lists; the `ValueError` case is exactly `ScanReplies` failing |
| `Clients.ClientHandler.constructor` | lan/client_handler.py:14-23 | no clients and an empty FIFO |
| `Clients.ClientHandler.HasClients` | lan/client_handler.py:82-86 | `has_clients()` is True exactly when some client is registered |
| `Clients.ClientHandler.AcceptClients` | lan/client_handler.py:34-50 | one fresh connection per waiting peer, appended in accept order with the peer's address and stream; existing clients untouched; returns the number appended; `has_clients()` afterwards exactly when there were clients before or some were accepted |
| `Clients.ClientHandler.AppendAll` | lan/client_handler.py:65-66 | the inner loop appends the messages in order |
| `Clients.ClientHandler.DrainClient` | lan/client_handler.py:63-67 | the client is drained exactly as `ReceiveAll` of its old state says; on a return, everything it then holds is appended to the handler's FIFO and its own FIFO is cleared; on an exception the handler's FIFO is untouched |
| `Clients.ClientHandler.ReceiveTcpAllClients` | lan/client_handler.py:52-68 | every client drained so far ends with the stream `ReceiveAll` leaves and an empty FIFO, and the handler's FIFO is the old one followed by what each held, in client order; on a return every client is drained and the result is True exactly when the FIFO grew; an exception leaves the failing client as `ReceiveAll` says and the later ones untouched; only FIFOs and streams change |
| `Clients.ClientHandler.SendTcpAllClients` | lan/client_handler.py:71-79 | every client that had a socket gets exactly one frame (header then payload) on its wire, and in its saved list when it keeps one; a client without a socket gets nothing; only wires and saved lists change |
| `Rules.Player.constructor` | game/player.py:5-13 | a player with its symbol, in `LOCAL` mode |
| `Rules.Player.SetMode` | game/board.py:31-35 | the player's mode becomes the one given |
| `Rules.OpponentInvolution` | game/board.py:97-101 | alternating never stays on a player, and applying it twice gives the turn back |
| `Rules.EmptyGrid` | game/board.py:11 | a 3x3 grid of `' '` |
| `Rules.Norm` | game/board.py:111 | a Python index from -3 to 2 denotes the cell at it or at it + 3 |
| `Rules.PlaceChangesOneCell` | game/board.py:114 | writing a move changes the one cell its indices denote and no other |
| `Rules.ParseMove` | game/board.py:108-110 | a line accepted as a move contains exactly one comma |
| `Rules.MoveTokenRoundTrip` | game/board.py:122 | the text `f'{row},{col}'` splits into two pieces that read back as `row` and `col`, negative indices included |
| `Rules.FirstValidMove` | game/board.py:106-119 | the move the input loop settles on names a cell on the grid that is empty |
| `Rules.ChooseCell` | game/board.py:106-119 | the input loop: the result is the first typed line that parses as two numbers naming an empty cell on the grid |
| `Rules.FirstValidMoveIsFirst` | game/board.py:106-119 | no move is chosen exactly when every line is rejected; a chosen move comes from a valid line with every earlier line rejected |
| `Rules.FirstWinningSome` | game/board.py:135-149 | a winner is found among some lines exactly when one of them holds three equal non-blank symbols, and it is that line's symbol |
| `Rules.LineWinsIffThreeInARow` | game/board.py:135-149 | the eight lines in the order of the tests are exactly the rows, the columns and the two diagonals |
| `Rules.WinnerIffThreeInARow` | game/board.py:135-149 | `check_winner` finds a winner exactly when some row, column or diagonal holds three equal non-blank cells; the winner fills a whole winning line |
| `Rules.FindWinner` | game/board.py:135-149 | the loop over row i, then column i for i = 0..2, then the two diagonals gives the first winning line's symbol |
| `Rules.NoEmptyCell` | game/board.py:90-94 | the cat loop gives True exactly when no cell is `' '` |
| `GameBoard.ReadPeerMove` | game/board.py:155-159 | a text the peer's turn applies names a cell on the grid and contains a comma |
| `GameBoard.PeerReadsLocalMove` | game/board.py:155-159 | the text a local move is sent as is read by the peer as the same cell |
| `GameBoard.PeerAcceptsLocalInput` | game/board.py:155-159 | every line the local input loop accepts names the same cell when the peer reads it |
| `GameBoard.ReadPeerMoveAccepts` | game/board.py:155-159 | a peer move is applied exactly when the first two comma-separated pieces are numbers in range, and they are its indices |
| `GameBoard.Board.constructor` | game/board.py:10-21 | an empty grid, no winner, X (`'X'`) to move, O (`'O'`) the other player, no cat flag yet |
| `GameBoard.Board.CheckWinner` | game/board.py:135-149 | True exactly when there are three in a row; then the winner is the first line's symbol; False leaves the winner as it was; the grid is never written |
| `GameBoard.Board.SwitchTurn` | game/board.py:97-101 | the turn passes to the other player |
| `GameBoard.Board.NextTurnLocal` | game/board.py:104-127 | the current symbol goes into the first valid typed cell, which was empty, and only there; a network game sends `row,col`; the winner is checked; the turn passes |
| `GameBoard.Board.NextTurnLan` | game/board.py:151-164 | the peer's cell is written without checking it is empty, then the winner is checked and the turn passes; a malformed text raises `ValueError` or `IndexError` before anything changes |
| `GameBoard.Board.NextTurn` | game/board.py:84-94 | dispatch on the current player's mode; after a completed turn `cat` is True exactly when no cell is `' '` |
| `GameBoard.Board.DeterminePlayerRoles` | game/board.py:28-37 | the host plays the drawn side locally, the other side is LAN, and the drawn role is sent |
| `GameBoard.Board.RetrieveRole` | game/board.py:40-47 | the joiner plays X over the LAN when told `'x'` and locally otherwise, and O the opposite way |
| `GameBoard.Negotiate` | game/board.py:28-47 | for either draw, each player has opposite modes on host and joiner, and each side plays exactly one player locally |
| `LegacyBoard.Board.constructor` | board.py:8-19 | an empty grid, no winner, X to move |
| `LegacyBoard.Board.CheckWinner` | board.py:76-90 | the same three-in-a-row test and order; the grid is never written |
| `LegacyBoard.Board.SwitchTurn` | board.py:41-45 | the turn passes to the other player |
| `LegacyBoard.Board.NextTurnLocal` | board.py:48-68 | the current symbol goes into the first valid typed cell, which was empty; the winner is checked; the turn passes |
| `LegacyBoard.Board.NextTurn` | board.py:34-38 | dispatch on the current player's mode; a LAN turn changes nothing |

## Left out

- Real sockets. Socket creation, `bind`, `listen`, `connect`, `settimeout`, `close`,
  `tcp_connect` and `close_socket` are left out. Reads meet the arrival or datagram
  sequences described above, and sends are appended to sequence fields.
- `is_connected`: its answer depends on whether a live socket raises.
- Time. `time.time()` is one `now` per call: the source reads the clock several times
  within one poll, and those readings differ by microseconds. `time.sleep` is dropped.
- Floating point. Times are `real`, so the `> 1.5` comparisons of
  lan/broadcast_responder.py:128 and :148 are exact; the rounding of Python's float
  subtraction at the boundary is not modelled.
- Exceptions from `sendall`. The `try`/`except` around it in `send_tcp`
  (lan/connection.py:145-154) is commented out, so a failing `sendall` raises out of
  `send_tcp`, `dynamic_send` and `send_tcp_all_clients`, and the last stops at the failing
  client. The model's sends never fail: `Connections.Connection.SendTcp`,
  `Connections.Connection.DynamicSend` and `Clients.ClientHandler.SendTcpAllClients`
  promise nothing about a failing write.
- lan/multiplayer_game.py is not part of this model. It holds the poll-and-sleep loops
  that tie the classes together. For the same reason the LAN setup that `Board.__init__`
  runs in a network game (`_setup_lan`) is left out; the role negotiation it ends with is
  modelled on its own by `GameBoard.Negotiate`.
- `random.choice` is the `localRole` parameter.
- Console I/O and the environment: `print`, `print_winner`, `cls`, the loggers, and the
  input reader. The typed lines are the `attempts` parameter. When every line is
  rejected, the real loop waits for more input; the model stops with `Blocked` and
  changes nothing.
- Character versus byte counts. Strings are sequences of characters, and `len`, `recv`
  and `recvfrom` count the same units. That is exact for ASCII text; a UTF-8 decode
  error is not modelled.
- `int()` is modelled for optional surrounding whitespace, an optional sign and ASCII
  digits. It does not accept underscores or non-ASCII digits.
- Exceptions in `receive_tcp` other than a timeout are one abstract `Fault` arrival.
- `Rules.Player.SetMode`: game/player.py defines no `set_mode`, so the role negotiation
  would stop with an `AttributeError`. The model assigns the mode, as the callers evidently
  intend.
- board.py imports a top-level player.py that is not part of this model;
  `Rules.Player` stands in for it.
- `Connections.Connection.RemoveFirstRecvdMessage`: Python's `IndexError` on an empty
  list is the result `None`.
- Getters that only return a field (`get_messages`, `get_recvd_messages`,
  `get_saved_sent_messages`, `get_ip`, `get_port`) are fields of the classes, read
  directly.
- `_username`, `set_username` and `get_username` (lan/connection.py:26-32) are dropped:
  nothing in the modelled files reads them, so `Connection` has no username field.
- `Sockets.RecvFrom`: a datagram longer than the requested size is cut to its first `n`
  bytes, which is what `recvfrom` does on Linux. The program also supports Windows
  (cls.py:9 tests for it), and there the same call raises `OSError`
  (WSAEMSGSIZE). `check_lan_servers` and `respond_to_broadcast` do not catch it. The model
  follows Linux, so that exception is not modelled.

## Findings

| source | as written | input that shows it | evidently intended | confidence | as-written member | corrected member |
|---|---|---|---|---|---|---|
| lan/connection.py:204-207 | When the payload read fails, the FIFO is popped twice. `receive_tcp` has already left that failed read out, so the second pop removes the message queued before the header. With the header alone in the FIFO it raises `IndexError`. | FIFO `["hello"]`; the stream is a header announcing 5 bytes, then a timeout. `dynamic_receive` returns False and `"hello"` is gone. With an empty FIFO, `IndexError`. The same happens when the peer sends the empty message: `dynamic_send('')` writes a header announcing 0 bytes, and `recv(0)` gives `b''`. | One pop, which removes only the header. | not executed | `Connections.TruncatedFrameAsWritten`, `Connections.EmptyPayloadAsWritten` | `Connections.TruncatedFrameFixed`, `Connections.EmptyPayloadFixed` |
| lan/broadcast_responder.py:147-149 | Popping while enumerating skips the entry right after each removed one, so an expired entry can survive the sweep. | Entries `10.0.0.1` and `10.0.0.2`, both at time 0.0, swept at 10.0. `10.0.0.2` remains. | Every expired entry is removed. | not executed | `Responder.SweepSkipsAfterRemoval` | `Responder.SweepAllDropsEveryExpired` |
| lan/broadcast_responder.py:127-130 | The check returns as soon as it removes one expired entry. It neither looks up nor records the probing IP, so a repeat prober is answered. A leftover from the sweep above is enough to trigger this. | From an empty list: probes from `10.0.0.1` at 0.0, `10.0.0.2` at 0.1 and `10.0.0.3` at 1.0 are recorded. When `10.0.0.3` probes again at 1.7, the sweep removes the first entry and skips the second, and the check removes the second and returns. `10.0.0.3` is answered 0.7 s after its last probe. | Remove the expired entries, then refresh and reject, or record. | not executed | `Responder.PollAnswersRepeat` | `Responder.PollFixedRejectsRepeat` |
