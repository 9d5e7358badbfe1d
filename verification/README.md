# Verified model of the terminal and agent streams, the diff, the pane tree and their kernels

This project models the parts of the repository where a wrong step would lose, double or reorder
something, and proves what each of them promises. `dafny verify dfyconfig.toml` in this directory checks all of it.

**Terminal stream.** `Chunks`, `Utf8`, `Scrollback`, `Osc7` and `Pump` follow the server's byte path: reads,
the hold-back of incomplete characters, the append-and-broadcast section, pruning, replay and framing, as
classes and methods proved against value-level specifications. `Osc7Reports` says by the bytes alone which
streams report a directory. `TerminalPump` is the terminal and its writer, `TerminalBridge` the server's end of the
WebSocket, `TerminalSocket` the browser's. `TerminalProtocol` puts them together as a step system (read, hold-back
timeout, end of input, prune, attach, relay, lag, drop, reconnect, exit, any number of clients); the methods of the
pump and of the bridge are proved to be its steps. `TerminalExactlyOnce` proves exactly-once delivery over all
runs, `TerminalExits` when the exit is last, final and told at all. The key invariant is that every cursor is a
chunk boundary; chunks themselves need not end at character boundaries.

**Reconnecting.** `Reconnect` is the retry budget shared by both browser sockets, over any sequence of openings,
closes and ends.

**Agent events.** `EventLog`, `AcpSocket`, `AcpBridge`, `AcpProtocol` and `AcpDelivery` do the same for the
sequence-numbered event log, where appending and sending are two separate steps, as in the code. `AcpOrder` says
which received event opens a silent hole and that a hole stays, `AcpSendOrder` for which orders of sending no run
has one. `Turns` is the turn state machine with its races, and exactly when each of them happens.

**Diff.** `Lines` and `LineDiff`: the dynamic-programming table on an array, the greedy walk, and minimality among
all edit scripts.

**Calendar.** `Calendar`: the closed form for dates equals the Gregorian calendar turned one day at a time (leap rule
of appendix C and field ranges of section 5.7 of RFC 3339), and the order of the rendered strings. `TimestampText`:
what each rendered string says, read back as decimals.

**Panes.** `PaneTree`, `PaneEdits`, `PaneLayout`, `PaneRuns`, `PaneActions`, `PaneSanitize`, `PaneSalvage`,
`PaneRestore`: every tree edit is proved to be an edit of the in-order list of leaves; where tabs land and what stays,
conservation, what each action of the layout store does and what whole runs keep, restoring untrusted JSON and what
of it survives, and when runs may start from what was restored.

**Kernels.** `Highlight` (range normal form, highlighting, line cutting), `Fences` (streaming code fences), `SearchCap`
(the shared match cap of parallel workers), `ClawRuntime` (the restart budget).

Where the code and its comments disagree, the model follows the code:

- `src/server/src/pty/scrollback.rs:107-109` says held data stays character-aligned because the pump appends aligned
  chunks. The pump's timeout flush breaks that (`Pump.FlushCutsCharacter`, `Pump.PumpKeepsCharacters`). What makes
  replay exact is that cursors sit on chunk boundaries (`TerminalExactlyOnce.ReplaysNeverCut`).
- `src/server/src/pty/utf8.rs:12-14` says invalid bytes are never held back. Two bytes that begin no character are
  (`Utf8.HeldCanBeInvalid`); what is held can be completed exactly when its second byte suits its lead
  (`Utf8.HeldCanComplete`).
- `src/server/src/acp/connection.rs:227-230` says append and send happen under one lock. They do not, and an event can
  be lost to a live page (`AcpDelivery.OutOfOrderSendsLose`), for good (`AcpOrder.LossIsPermanent`). Every page of every
  run with a given order of sends is whole exactly when that order is the append order (`AcpSendOrder.WholeIffInOrder`).
- `src/server/src/pty/mod.rs:498-502` promises the exit after the output before it. That holds for the exit the pump
  broadcasts (`TerminalExits.RelayedExitIsLast`). The one found on attach is sure to be last exactly when the pump has
  finished reading (`TerminalExits.ExitOnAttachIsFinalIffDrained`). A client that recovers from lag can be told of the
  exit exactly when it had not been broadcast by then (`TerminalExits.LagSwallowsExitIff`), and a run gets there
  (`TerminalExits.LagCanSwallowExit`).
- `src/server/src/acp/connection.rs:1028-1037` intends that a closed session is never reopened. The check and the set
  are separate, so it can be (`Turns.ClosedCanReopen`): exactly when some turn task stands between them at that moment
  (`Turns.StaysClosedIff`). Likewise "idle" can be said late (`Turns.IdleCanBeSaidLate`), exactly when it is said while
  the slot is prompting, or closed (`Turns.IdleIsTimelyIff`, `Turns.SaysNoMoreIdleIff`).
- `src/web/src/panes/tree.ts:366-414` makes any stored tree well formed, but does not make its ids distinct: a tab stored
  twice is restored twice (`PaneRestore.RestoreKeepsDoubles`), and the store starts sound exactly when the ids found are
  distinct (`PaneRestore.RestoredIsSoundIff`).
- `src/server/src/routes/sessions.rs:123-124` relies on timestamps of fixed width. That holds until year 10000
  (`Calendar.SortsByTimeUntilYear10000`).
- `src/web/src/chat/fences.ts:28` never matches a line that ends in a carriage return, although CommonMark (section
  2.1) counts CR LF as one line ending (`Fences.CarriageReturnHidesFence`).

## Model

| member | source | states |
|---|---|---|
| `Utf8.SplitIncompleteTail` | src/server/src/pty/utf8.rs:40-66 | The scan finds the one place where a lead byte with too few continuation bytes ends the buffer, or the end if there is none, and holds back at most 3 bytes. |
| `Utf8.PrevCharBoundary` | src/server/src/pty/utf8.rs:78-104 | An index inside a sequence is rounded down to its lead byte, at most 3 bytes; any other index is kept. |
| `Utf8.BoundaryIsSplit` | src/server/src/pty/utf8.rs:78-104 | Rounding a cut down is splitting off what the cut leaves incomplete, if the byte after it goes on with that. |
| `Utf8.CharShape` | src/server/src/pty/utf8.rs:22-30 | The table of sequence lengths agrees with every character of section 4 of RFC 3629. |
| `Utf8.LeadIff` | src/server/src/pty/utf8.rs:22-30 | The table gives a length to exactly the bytes that lead a character of that length. |
| `Utf8.SplitOfValidStream` | src/server/src/pty/utf8.rs:40-66 | Cutting a valid stream at any read boundary and splitting there leaves valid UTF-8 on both sides: what is forwarded, and what is held together with what follows. |
| `Utf8.HeldCanComplete` | src/server/src/pty/utf8.rs:9-14 | What is held back is the beginning of a character exactly when its second byte, if it is there yet, suits its lead. |
| `Utf8.HeldCanBeInvalid` | src/server/src/pty/utf8.rs:12-14 | Two bytes that begin no character and are held back all the same. |
| `Utf8.CharStartIsProperPrefix` | src/server/src/pty/osc7.rs:187-205 | The prefixes the lossy conversion replaces as a unit are exactly the proper prefixes of characters. |
| `Utf8.LossyKeepsUtf8` | src/server/src/pty/osc7.rs:187-205 | Lossy conversion is the identity on valid UTF-8. |
| `Utf8.LossyReplaces` | src/server/src/pty/osc7.rs:187-205 | Bytes that begin no character become U+FFFD, as many at once as still begin one, or else one. |
| `Scrollback.Scrollback.WithLimits` | src/server/src/pty/scrollback.rs:63-76 | A new history is empty and valid. |
| `Scrollback.Scrollback.Append` | src/server/src/pty/scrollback.rs:92-103 | A non-empty chunk is added to the full history, the end offset is returned, and pruning drops whole chunks exactly as far as the limits say; an empty chunk changes nothing. |
| `Scrollback.Scrollback.PruneFront` | src/server/src/pty/scrollback.rs:110-120 | Drops the fewest whole chunks from the front that bring the held bytes to the rolling limit. |
| `Scrollback.PrunedToFirst` | src/server/src/pty/scrollback.rs:110-120 | Pruning stops at the first cut that leaves no more than the rolling limit. |
| `Scrollback.Scrollback.ReplayFrom` | src/server/src/pty/scrollback.rs:129-171 | The walk over held chunks computes the specified replay of the full history. |
| `Scrollback.ReplayBytes` | src/server/src/pty/scrollback.rs:122-171 | For every cursor behind the end the replayed bytes are exactly the history from fromSeq on; fromSeq is the larger of cursor and start, unless a character of one chunk covers that place, when it is the character's lead byte, at most 3 before (if and only if). |
| `Scrollback.ReplayPastEnd` | src/server/src/pty/scrollback.rs:129-137 | For a cursor at the end or past it nothing is replayed and the end is answered. |
| `Scrollback.ReplayAtBoundary` | src/server/src/pty/scrollback.rs:129-171 | At a chunk boundary the replay is whole chunks starting exactly there. |
| `Osc7.Scanner.Feed` | src/server/src/pty/osc7.rs:66-75 | Feeding a chunk byte by byte equals the specified scan, state and reports. |
| `Osc7.Scanner.Step` | src/server/src/pty/osc7.rs:77-164 | One byte moves the machine and its buffers as specified, in every state. |
| `Osc7.PercentDecodePath` | src/server/src/pty/osc7.rs:187-205 | The decoding loop equals the recursive decoding that `DecodeReads` characterises, made valid UTF-8. |
| `Osc7.DecodeReads` | src/server/src/pty/osc7.rs:187-205 | A percent sign followed by the two hexadecimal digits of a byte, upper or lower case, stands for that byte; any other byte, a percent sign without two digits too, for itself. |
| `Osc7.FeedConcat` | src/server/src/pty/osc7.rs:66-75 | Reports and state do not depend on how the stream is chunked. |
| `Osc7.FeedBounded` | src/server/src/pty/osc7.rs:77-164 | The command and payload buffers never pass their caps, whatever is fed. |
| `Osc7.ReportSynchronises` | src/server/src/pty/osc7.rs:77-164 | From any state a whole report leaves the scanner idle, and is reported exactly when the state was not PayloadEsc and the payload fits 4096 bytes. |
| `Osc7.DecodeEncoded` | src/server/src/pty/osc7.rs:187-205 | Decoding undoes every percent-encoding (section 2.1 of RFC 3986) that escapes each percent sign. |
| `Osc7.ParseReads` | src/server/src/pty/osc7.rs:171-181 | A file URL yields what is decoded from its first slash on, made valid text. |
| `Osc7.ParseEncoded` | src/server/src/pty/osc7.rs:171-181 | A file URL yields the path it encodes, whatever its host. |
| `Osc7.ParseFails` | src/server/src/pty/osc7.rs:171-181 | A payload is rejected exactly when it is no file URL with a slash after the host; the last check never rejects. |
| `Osc7.ReportedPath` | src/server/src/pty/osc7.rs:77-181 | A well-formed directory report yields the encoded path once, exactly from the states and sizes above. |
| `Osc7Reports.ReportedIff` | src/server/src/pty/osc7.rs:66-164 | The last byte of a stream reports a path exactly when the stream ends in a whole report of it, introducer, payload and terminator by their bytes, that does not start right after an ESC inside a payload. |
| `Pump.Coalesce` | src/server/src/pty/mod.rs:615-632 | Frames are consecutive runs of chunks, as long as fit 64 KiB, covering all chunks. |
| `Pump.MergesKeepBytes` | src/server/src/pty/mod.rs:610-632 | Frames carry the same bytes in order, and each ends where a chunk ends. |
| `TerminalPump.Terminal.Publish` | src/server/src/pty/mod.rs:589-608 | One publish appends the chunk to the history, dropping exactly what the limits say, broadcasts it with the offset of its end, then the directories it completes, and records the last of them. |
| `TerminalPump.Terminal.Attach` | src/server/src/pty/mod.rs:190-206 | The receiver starts at the end of the broadcast, the snapshot is the replay after the cursor, in frames, and the exit is the one known by now. |
| `TerminalPump.TimeOut` | src/server/src/pty/mod.rs:516-528 | The timeout is the protocol's quiet arrival. |
| `TerminalPump.Take` | src/server/src/pty/mod.rs:531-548 | A read is the protocol's arrival of those bytes. |
| `TerminalPump.RunPump` | src/server/src/pty/mod.rs:503-583 | For any reads and timeouts the terminal goes through the protocol's server steps, from a new server over the arrivals and the end of input to the exit; the history is the specified published chunks, the broadcast their events followed by one exit, last. |
| `Pump.PumpConserves` | src/server/src/pty/mod.rs:508-564 | Published bytes and held bytes are always the input so far, at most 3 are held, and at the end all of it is published. |
| `Pump.PumpKeepsCharacters` | src/server/src/pty/mod.rs:519-564 | For a valid stream every published chunk is valid UTF-8 exactly when the timeout never fires while bytes are held. |
| `Pump.FlushCutsCharacter` | src/server/src/pty/mod.rs:519-528 | A concrete valid stream of which a published chunk is not valid UTF-8. |
| `Pump.BroadcastOrder` | src/server/src/pty/mod.rs:589-608 | The broadcast carries the chunks in order, each with the offset of its end, and no exit among them. |
| `Pump.ChunkingDoesNotHidePaths` | src/server/src/pty/mod.rs:589-608 | The directories broadcast are those of one scan over the whole output, however it was chunked. |
| `Reconnect.ClosesInARow` | src/web/src/api/terminalSocket.ts:262-278 | An opened socket that closes n times in a row has retried n times, each after its delay, while n is within the limit; the next close finishes it, and nothing follows. |
| `Reconnect.DefaultDelays` | src/web/src/api/terminalSocket.ts:262-278 | With the default limit those are eight retries, after 250, 500, 1000, 2000, 4000 and three times 5000 ms. |
| `Reconnect.ReconnectBudget` | src/web/src/api/terminalSocket.ts:123-140 | Whatever happens to a socket, between two openings it retries at most as often as the limit says, the k-th time after the k-th delay, and never once it is finished. |
| `Reconnect.GivesUpIff` | src/web/src/api/terminalSocket.ts:262-270 | A close finishes an unfinished socket exactly when all retries since it last opened are used up. |
| `TerminalSocket.Socket.HandleFrame` | src/web/src/api/terminalSocket.ts:210-260 | Each frame moves cursor, view and finished flag as the handler of the delivery proof; an exit finishes the socket in the sense of the reconnect budget. |
| `TerminalSocket.Socket.OnClose` | src/web/src/api/terminalSocket.ts:133-140 | A close is the close of the reconnect budget: finished sockets stay closed, the others retry or finish. |
| `TerminalSocket.Socket.ScheduleReconnect` | src/web/src/api/terminalSocket.ts:262-278 | For any limit, the delay, the count and the giving up are those of the reconnect budget. |
| `TerminalPump.PumpCarries` | src/server/src/pty/mod.rs:503-608 | What the pump broadcasts carries exactly the published chunks, each with the offset of its end, then one exit: the broadcast the protocol counts in. |
| `TerminalBridge.Bridge.constructor` | src/server/src/routes/terminals.rs:155-203 | A new connection is the protocol's attach followed by its look at the exit, on whatever server state the terminal reflects. |
| `TerminalBridge.Bridge.SendReplay` | src/server/src/routes/terminals.rs:157-176 | What is sent is a gap notice exactly when history is missing, then the framed replay. |
| `TerminalBridge.Bridge.Relay` | src/server/src/routes/terminals.rs:206-226 | Taking the next event of the broadcast is the protocol's relay step (the next chunk, or the exit), or a control frame for a directory. |
| `TerminalBridge.Bridge.Recover` | src/server/src/routes/terminals.rs:230-247 | Attaching again after lag is the protocol's lag step. |
| `TerminalExactlyOnce.RunInv` | src/server/src/pty/mod.rs:186-206 | The invariant (cursors on chunk boundaries, frames in flight explained by history, holes pruned) holds in every reachable state. |
| `TerminalExactlyOnce.ExactlyOnce` | src/server/src/routes/terminals.rs:155-247 | In every reachable state each client was given the published output from its start to its cursor, every byte once and in order, minus exactly the announced holes, all of them truly pruned. |
| `TerminalExactlyOnce.ViewOnlyGrows` | src/web/src/api/terminalSocket.ts:210-260 | No step takes back what a page was shown. |
| `TerminalExactlyOnce.CaughtUp` | src/server/src/routes/terminals.rs:205-247 | A live client with nothing in flight or pending has everything published. |
| `TerminalExactlyOnce.ReplaysNeverCut` | src/server/src/pty/scrollback.rs:153-162 | No cursor of a page or a connection is ever inside a character of a chunk: the straddle arm is never taken. |
| `TerminalExactlyOnce.CatchUpOk` | src/server/src/routes/terminals.rs:230-247 | From a boundary cursor any catch-up takes the client exactly to the end of the output, skipping only what is pruned. |
| `TerminalExits.RelayedExitIsLast` | src/server/src/pty/mod.rs:498-583 | When the exit was relayed from the broadcast, then in every later state of the run the shell has written nothing more, and what is in flight takes the client, while its connection is kept, to the end of all output. |
| `TerminalExits.ExitOnAttachIsFinalIffDrained` | src/server/src/pty/mod.rs:198-205 | No continuation publishes anything after an exit found on attach exactly when the pump had finished reading. |
| `TerminalExits.CanBeToldIff` | src/server/src/routes/terminals.rs:205-247 | A live connection is sent the exit in some continuation that keeps it exactly when its receiver is not past it. |
| `TerminalExits.LagSwallowsExitIff` | src/server/src/routes/terminals.rs:230-247 | In every run, a client that recovers from lag is told of the exit in some continuation of its connection exactly when the exit had not been broadcast by then. |
| `TerminalExits.LagCanSwallowExit` | src/server/src/routes/terminals.rs:230-247 | A concrete run in which a client recovers from lag after the exit and is never told of it. |
| `TerminalExits.FinishedStays` | src/web/src/api/terminalSocket.ts:106-107 | In every run, a page that was told of the exit or gave up never attaches again. |
| `EventLog.EventLog.WithLimits` | src/server/src/acp/log.rs:68-76 | A new log is empty and keeps at least one event. |
| `EventLog.EventLog.StartSeq` | src/server/src/acp/log.rs:84-86 | Held numbers are the unbroken run from StartSeq to the end, not empty once anything was appended. |
| `EventLog.EventLog.Append` | src/server/src/acp/log.rs:100-115 | The event gets the next number, is returned as stored, and pruning drops as few as the limits allow, never the last. |
| `EventLog.EventLog.PruneFront` | src/server/src/acp/log.rs:121-130 | Both limits hold afterwards unless one event is left, and one fewer drop would break them. |
| `EventLog.EventLog.ReplayFrom` | src/server/src/acp/log.rs:137-168 | Every held event past the cursor, and a gap exactly when the next event is gone, naming where the stream resumes. |
| `EventLog.EventLog.ReplayFindsSomething` | src/server/src/acp/log.rs:155-161 | A cursor behind the end always finds a held event: the arm for a wholly pruned tail is dead. |
| `AcpSocket.Socket.HandleFrame` | src/web/src/api/acpSocket.ts:175-217 | Each frame moves cursor, shown items and finished flag as the handler of the delivery proof; a notice leaves the cursor; the closing event finishes the socket in the sense of the reconnect budget. |
| `AcpSocket.Socket.DeliverEvent` | src/web/src/api/acpSocket.ts:220-227 | An event at or below the cursor is dropped, any other is shown and becomes the cursor. |
| `AcpSocket.Socket.OnClose` | src/web/src/api/acpSocket.ts:108-125 | A close is the close of the reconnect budget, or its end when the server rejected the session. |
| `AcpBridge.Bridge.Start` | src/server/src/routes/acp.rs:308-330 | Sending the replay and ready is the protocol's reading of the log, from the log as it is by then. |
| `AcpBridge.Bridge.SendReplay` | src/server/src/routes/acp.rs:396-429 | The notice, then the replayed events past the cursor in order, and the cursor after them. |
| `AcpBridge.Bridge.Relay` | src/server/src/routes/acp.rs:337-358 | Taking the next event of the broadcast is the protocol's receive step. |
| `AcpBridge.Bridge.Recover` | src/server/src/routes/acp.rs:359-378 | Reading the log again after lag is the protocol's catch-up step. |
| `AcpDelivery.RunInv` | src/server/src/acp/connection.rs:231-243 | The delivery invariant holds in every reachable state, and its completeness part in every run whose sends are in order. |
| `AcpDelivery.StrictlyIncreasing` | src/server/src/routes/acp.rs:293-429 | In every run, whatever the order of sends, a page sees strictly increasing numbers, each event as logged, and gaps only of events that are gone. |
| `AcpDelivery.Complete` | src/server/src/acp/connection.rs:532-552 | If sends are in append order, every event between a page's start and its cursor was shown or lies in an announced gap. |
| `AcpDelivery.CaughtUp` | src/server/src/routes/acp.rs:333-382 | ... and a live page with nothing in flight has accounted for all that was sent. |
| `AcpOrder.LossIsPermanent` | src/web/src/api/acpSocket.ts:220-227 | An event at or below a page's cursor that it was neither shown nor told is missing stays so in every later state of the run. |
| `AcpOrder.ReceiveOpensHoleIff` | src/server/src/routes/acp.rs:337-349 | In every run, when all that is in flight to a page accounts for everything up to the connection's cursor, receiving the next event keeps it so exactly when its number is at most one past that cursor. |
| `AcpOrder.FinishedStays` | src/web/src/api/acpSocket.ts:92-125 | In every run, a page that was handed the closing event or gave up never connects again. |
| `AcpDelivery.OutOfOrderSendsLose` | src/server/src/acp/connection.rs:231-240 | A concrete run in which a logged, broadcast event never reaches a live page, with no gap announced. |
| `AcpSendOrder.SentIsBroadcast` | src/server/src/acp/connection.rs:231-240 | What a run has sent never repeats a number. |
| `AcpSendOrder.WholeIffInOrder` | src/server/src/acp/connection.rs:227-240 | For every order of sending: every page of every run with that order has accounted for everything up to its cursor exactly when the order is the append order. |
| `AcpDelivery.ReplayFramesOk` | src/server/src/routes/acp.rs:396-429 | A replay takes a client to the newest event, leaving out nothing but what it announces. |
| `Turns.SessionSlot.BeginTurn` | src/server/src/acp/connection.rs:256-266 | The claim wins exactly on an idle slot and makes it prompting. |
| `Turns.RunInv` | src/server/src/acp/connection.rs:988-1048 | The turn invariant holds in every interleaving of prompts, turn tasks and teardown. |
| `Turns.OneTurnAtATime` | src/server/src/acp/connection.rs:256-266 | At most one turn holds the session, and while one does no prompt wins. |
| `Turns.OneOutcomePerTurn` | src/server/src/acp/connection.rs:1000-1027 | Between two announcements stands exactly one outcome, that of the first of the two turns: its ending in the log, or else its failed spawn and no ending in the log. |
| `Turns.IdleCanBeSaidLate` | src/server/src/acp/connection.rs:1031-1035 | A run in which the log says idle while the next turn holds the slot. |
| `Turns.IdleIsTimelyIff` | src/server/src/acp/connection.rs:1031-1035 | In every run, idle is said while some turn holds the slot, and the slot is not closed, exactly when the slot is prompting just before. |
| `Turns.IdleCanBeSaidWhenClosed` | src/server/src/acp/connection.rs:1028-1037 | A run in which idle is said of a closed slot, while a turn that the teardown cut off still holds it. |
| `Turns.ClosedCanReopen` | src/server/src/acp/connection.rs:1031-1032 | A run in which a closed slot becomes idle again. |
| `Turns.StaysClosedIff` | src/server/src/acp/connection.rs:1028-1037 | Once the loop has stopped and the slot is closed, it stays closed in every continuation exactly when no turn task stands between checking the slot and setting it idle. |
| `Turns.SaysNoMoreIdleIff` | src/server/src/acp/connection.rs:1028-1037 | ... and idle is never logged after closed exactly when, besides, none has set it idle and has yet to say so. |
| `Turns.NoTurnAfterStop` | src/server/src/acp/connection.rs:730-738 | After the command loop has stopped no further turn is ever announced. |
| `Turns.FarewellsInOrder` | src/server/src/acp/connection.rs:730-738 | In every log "closed" is said at most once and "connection closed" at most once and only after it; no turn is announced after either. |
| `Lines.JoinSplit` | src/web/src/chat/diff.ts:99-104 | Joining the pieces of a split gives back the text, and no piece holds a line break. |
| `LineDiff.JoinSplitLines` | src/web/src/chat/diff.ts:93-104 | The lines spell the text up to one final line break. |
| `LineDiff.LineCount` | src/web/src/chat/diff.ts:93-104 | Any text, the empty one too, has as many lines as line breaks, and one more exactly when it is not empty and does not end at one. |
| `LineDiff.LcsTable` | src/web/src/chat/diff.ts:112-122 | The nested loops fill every cell with the length of a longest common subsequence of the two tails. |
| `LineDiff.LcsIsBound` | src/web/src/chat/diff.ts:106-122 | No common subsequence is longer than the cell says. |
| `LineDiff.LcsIsAttained` | src/web/src/chat/diff.ts:106-122 | Some common subsequence is as long as the cell says. |
| `LineDiff.LineDiff` | src/web/src/chat/diff.ts:46-91 | Without added rows the rows spell the old lines numbered 1 to n, without removed rows the new lines numbered 1 to m, counters count rows, unchanged rows number lcs[0][0] up to 2000 lines and none above, and no added row stands right above a removed one. From no or an empty file nothing is removed, to an empty file nothing is added. |
| `LineDiff.RowShowsLine` | src/web/src/chat/diff.ts:62-88 | Each row of such a diff shows the next line of the old file, of the new one, or, unchanged, of both, with its number. |
| `LineDiff.WholeFile` | src/web/src/chat/diff.ts:125-131 | The fallback is a script with every line removed and added. |
| `LineDiff.DiffIsMinimal` | src/web/src/chat/diff.ts:54-90 | Any rows at all that spell the two files add and remove at least as many lines. |
| `Calendar.CivilIsCalendar` | src/server/src/acp/mod.rs:245-254 | For every day number the closed form gives the date reached from 1 January 1970 by turning the Gregorian calendar that many days. |
| `Calendar.TurnIsTomorrow` | src/server/src/acp/mod.rs:245-254 | Turning an odometer of eras, centuries, fours, years, months and days turns the calendar, across every carry. |
| `Calendar.FormulaReadsWheels` | src/server/src/acp/mod.rs:247-254 | The magic divisions read off that odometer exactly. |
| `TimestampText.StampSays` | src/server/src/acp/mod.rs:240-257 | Every timestamp, read back as decimals, says the calendar date of its day, its hour, minute and second of that day, and its milliseconds, at fixed places with fixed separators; the year takes four digits exactly until year 10000. |
| `TimestampText.Epoch` | src/server/src/acp/mod.rs:256 | The first instant, literally. |
| `Calendar.OrderIsChronological` | src/server/src/acp/mod.rs:240-257 | Between years with equally many digits timestamps are ordered as strings exactly as their instants, and different instants differ. |
| `Calendar.SortsByTimeUntilYear10000` | src/server/src/routes/sessions.rs:122-129 | Sorting timestamps as strings is sorting by time for all instants below a bound exactly when the bound is at most year 10000. |
| `PaneTree.PathFindsLeaf` | src/web/src/panes/tree.ts:113-120 | A path is found exactly for ids of leaves, and leads to the first such leaf in order. |
| `PaneTree.ReplaceSubstitutes` | src/web/src/panes/tree.ts:147-159 | Replacing the node at a found path replaces that leaf in the list of leaves and nothing else. |
| `PaneTree.ReplaceIsGraft` | src/web/src/panes/tree.ts:147-159 | Finding a path and replacing there equals putting the node in place of the first such leaf by recursion on the tree alone. |
| `PaneTree.ReplacedIsFound` | src/web/src/panes/tree.ts:103-159 | What is put at a path is found there, and putting back what was there changes nothing. |
| `PaneTree.ReplacedElsewhere` | src/web/src/panes/tree.ts:147-159 | Nodes on other paths are untouched. |
| `PaneEdits.SplitInserts` | src/web/src/panes/tree.ts:178-193 | The tree has an even split of the asked direction in place of the leaf, the new leaf on the asked side, and is otherwise the same; so the new leaf stands right beside the old one in order. Without the leaf nothing changes. |
| `PaneEdits.PromoteIsPrune` | src/web/src/panes/tree.ts:206-218 | Promoting the sibling of a found leaf equals pruning that leaf by recursion on the tree alone, and focus goes to the first leaf, in order, of what stood beside it. |
| `PaneEdits.PromoteRemoves` | src/web/src/panes/tree.ts:206-218 | Promoting a sibling removes exactly one leaf, and focus falls on a leaf that is left. |
| `PaneEdits.CloseOnLeaves` | src/web/src/panes/tree.ts:235-262 | Closing a tab shrinks its leaf in place, or prunes it when it empties beside others, and leaves the rest of the tree alone; focus names a leaf of the result; otherwise nothing changes. |
| `PaneEdits.MoveOnLeaves` | src/web/src/panes/tree.ts:300-345 | A move edits source and target, in the tree and in its list of leaves, and nothing else; the target is found again after a promote exactly when it was there before. What becomes of the two leaves is said by `MoveLands` and `ReorderLands`. |
| `PaneLayout.MoveConserves` | src/web/src/panes/tree.ts:300-345 | The multiset of tabs is kept exactly when the target exists and the source holds the id once. |
| `PaneLayout.MoveLands` | src/web/src/panes/tree.ts:324-344 | The tab stands at the index, or the nearer end, among the target's tabs, which stay in order before and after it, and is active; the source keeps the rest in order, the last one active if the moved one was, and vanishes exactly when it has none; others are as before. |
| `PaneLayout.ReorderLands` | src/web/src/panes/tree.ts:313-321 | Within a leaf the tab stands at the index among the others, which keep their order; what is active stays. |
| `PaneLayout.CloseLeaves` | src/web/src/panes/tree.ts:235-262 | A closed tab leaves the others in order; the picked one is active if it was; an empty leaf vanishes exactly when there are others, and the first leaf beside it takes focus. |
| `PaneTree.ClampIsNearest` | src/web/src/panes/tree.ts:60-63 | A ratio becomes the nearest one between 0.15 and 0.85, one half if it is not finite. |
| `PaneRuns.ResizeSetsRatio` | src/web/src/panes/tree.ts:269-275 | The ratio at the path becomes the clamped one; every other node and the leaves are as before. |
| `PaneRuns.PickNext` | src/web/src/panes/mru.ts:36-42 | The pick is a surviving tab, and there is none only when none survives. |
| `PaneRuns.PickIsMostRecent` | src/web/src/panes/mru.ts:30-42 | The pick is the first entry of the stack that survives. |
| `PaneActions.PickIsLast` | src/web/src/panes/mru.ts:30-42 | When nothing of the stack survives the last tab is picked. |
| `PaneRuns.StepKeeps` | src/web/src/stores/layout.ts:246-399 | Each action of the store keeps the layout sound. |
| `PaneActions.SplitDoes` | src/web/src/stores/layout.ts:246-274 | A split halves the leaf evenly, the new half empty, on the asked side and in focus; nothing else changes. |
| `PaneActions.OpenDoes` | src/web/src/stores/layout.ts:277-289 | A tab is opened at the end of the leaf in focus and is active there. |
| `PaneActions.CloseDoes` | src/web/src/stores/layout.ts:366-378 | A close does what `CloseLeaves` says, with the most recently used tab picked. |
| `PaneActions.MoveDoes` | src/web/src/stores/layout.ts:381-389 | A move is the edit of the tree, and the leaf it lands in has focus; without that leaf nothing happens. |
| `PaneActions.ResizeDoes` | src/web/src/stores/layout.ts:392-398 | A resize changes the ratio at the path and nothing else. |
| `PaneRuns.RunKeeps` | src/web/src/panes/tree.ts:147-345 | Over every sequence of splits, opens, closes, moves and resizes: leaf ids distinct, active tabs present or missing exactly when empty, ratios in band, no tab doubled, focus in the tree. |
| `PaneSanitize.SanitizeIsWellFormed` | src/web/src/panes/tree.ts:366-414 | Whatever the JSON, the result is well formed. |
| `PaneSanitize.LeavesAreSalvaged` | src/web/src/panes/tree.ts:393-409 | Dead parts collapse; every leaf that can be found is kept, in order, and no other. |
| `PaneSalvage.TabSurvivesIff` | src/web/src/panes/tree.ts:366-377 | A stored tab survives exactly with a non-empty id and the name of a kind, as what it describes. |
| `PaneSalvage.TabsSurvive` | src/web/src/panes/tree.ts:379-382 | Of a stored list exactly the usable tabs survive, by position, in order. |
| `PaneSalvage.LeafSurvives` | src/web/src/panes/tree.ts:379-391 | A leaf keeps its id and the tabs that survive; its active tab stays if it survived, otherwise the last one is active. |
| `PaneSalvage.SplitSurvives` | src/web/src/panes/tree.ts:393-409 | Two surviving parts make a split with the stored direction and clamped ratio; one stands for itself. |
| `PaneSanitize.RoundTrip` | src/web/src/panes/tree.ts:366-414 | Restoring the encoding of a tree gives it back exactly when it is well formed. |
| `PaneSanitize.Idempotent` | src/web/src/panes/tree.ts:411-414 | Restoring what was restored changes nothing, whatever ids would be generated. |
| `PaneRestore.RestoredIsSoundIff` | src/web/src/stores/layout.ts:204-232 | The store starts from a stored tree in the sound state that its runs keep exactly when the leaves found have distinct ids and no tab id repeats. |
| `PaneRestore.RestoreKeepsDoubles` | src/web/src/panes/tree.ts:366-414 | A stored leaf with the same tab twice is restored as it is, which is not sound. |
| `Highlight.NormalizeRanges` | src/web/src/search/highlight.ts:31-53 | The result is the list of non-empty, ordered, non-touching ranges that covers exactly the input positions below the limit. |
| `Highlight.MergeSorted` | src/web/src/search/highlight.ts:43-52 | Merging in place keeps the covered positions and makes the list canonical. |
| `Highlight.CanonicalIsUnique` | src/web/src/search/highlight.ts:25-53 | A set of positions has one canonical list. |
| `Highlight.NormalIsUnique` | src/web/src/search/highlight.ts:31-53 | Two inputs have the same normal form, in any order, exactly when they cover the same positions below the limit. |
| `Highlight.NormalIsFixed` | src/web/src/search/highlight.ts:31-53 | Normalizing again changes nothing. |
| `Highlight.HighlightLine` | src/web/src/search/highlight.ts:61-85 | The segments spell the line, mark exactly the covered bytes, are not empty and alternate. |
| `Highlight.TruncateLine` | src/server/src/search/mod.rs:196-210 | A long line is cut at the last place a character starts within 4096 bytes, at most 3 earlier, stays valid UTF-8, and the ranges left cover exactly the covered positions of the kept part and fit it. |
| `Highlight.CutKeepsMarks` | src/web/src/search/highlight.ts:61-85 | Highlighting a cut line marks what highlighting the whole line marks there. |
| `Fences.FenceLineIsPattern` | src/web/src/chat/fences.ts:28 | The line scan accepts exactly the lines of the pattern, with its greedy marker and rest. |
| `Fences.OpensIff` | src/web/src/chat/fences.ts:46-54 | By its characters: a line opens a fence with three or more of a fence character after at most 3 spaces, unless they are backticks and another follows. |
| `Fences.ClosesIff` | src/web/src/chat/fences.ts:58-62 | By its characters: a line closes a fence with at least as many of the opener's character after at most 3 spaces, and only blanks after them. |
| `Fences.TrimCutsBlanks` | src/web/src/chat/fences.ts:55-62 | Trimming cuts off all blanks at both ends and nothing else, and leaves nothing exactly of blank text. |
| `Fences.ClassesAreTables` | src/web/src/chat/fences.ts:28-62 | Line terminators and blanks are those of sections 12.2 and 12.3 of ECMA-262. |
| `Fences.CarriageReturnHidesFence` | src/web/src/chat/fences.ts:28 | A line that ends in a carriage return is never a fence. |
| `Fences.FindOpenFence` | src/web/src/chat/fences.ts:37-66 | The loop over lines finds the specified open fence with its offset. |
| `Fences.OpenedAt` | src/web/src/chat/fences.ts:37-66 | An open fence was opened by a line before which all were closed, and no line since closes it. |
| `Fences.SplitStreamingTail` | src/web/src/chat/fences.ts:80-91 | The stable part is balanced; stable part, opener line and code rebuild the text; no code line closes the fence. |
| `Fences.StableGrowsIffSettled` | src/web/src/chat/fences.ts:73-91 | Whatever text arrives, the stable part only grows, exactly for texts whose last line neither may still become an opener nor closes a fence. |
| `Fences.LineBreakSettles` | src/web/src/chat/fences.ts:73-91 | A text that ends at a line break is such a text. |
| `SearchCap.RunInv` | src/server/src/search/engine.rs:161-237 | The counter invariant holds in every interleaving of workers. |
| `SearchCap.MatchesBounded` | src/server/src/search/engine.rs:262-287 | With W workers the count never passes max_results + W - 1. |
| `SearchCap.BoundIsReached` | src/server/src/search/engine.rs:262-287 | For every cap and number of workers some run reaches that bound. |
| `SearchCap.CapDecides` | src/server/src/search/engine.rs:161-265 | At an entry and at a match a worker can always go on, and whether it is let in or turned away is decided by the cap alone. |
| `SearchCap.CapStopsWork` | src/server/src/search/engine.rs:161-265 | In every run, once the cap is reached no file is entered and no match admitted. |
| `SearchCap.TurnedAwayQuits` | src/server/src/search/engine.rs:167-170 | A worker turned away at an entry records that and quits, and does nothing else. |
| `SearchCap.RefusedLeavesFile` | src/server/src/search/engine.rs:262-265 | A worker refused inside a file records that and goes on to the next entry. |
| `SearchCap.TruncatedIsHonest` | src/server/src/search/engine.rs:167-170 | At the end truncated says exactly that the cap turned something away, only once it was reached; otherwise, with the receiver there, every match found was sent. |
| `ClawRuntime.Claw.RespawnChain` | src/server/src/claws/runtime.rs:582-629 | The loop ends, because each failure uses up a restart, and equals the specified chain. |
| `ClawRuntime.Claw.OpenSkill` | src/server/src/claws/runtime.rs:535-554 | A completed opening turn resets the streak; without a skill nothing changes. |
| `ClawRuntime.Claw.RunLoop` | src/server/src/claws/runtime.rs:674-773 | The loop over scheduled times equals the specified one. |
| `ClawRuntime.RestartBudget` | src/server/src/claws/runtime.rs:582-629 | Whatever the agent and the schedule do, between two completed turns there are at most three attempts, after 1, 2 and 4 seconds; every death, and nothing else, is answered at once by an attempt or by giving up; no prompt is run before the next scheduled time once the agent had to be brought back; nothing happens after giving up. |
| `ClawRuntime.TickRuns` | src/server/src/claws/runtime.rs:697-773 | What one scheduled time does: a dead agent is answered first, a running turn skips it if asked, otherwise, after a fresh connection if asked, the prompts run in order up to the first that dies. |
| `ClawRuntime.GivesUpIff` | src/server/src/claws/runtime.rs:590-603 | A chain gives up exactly when restarting is off or every attempt that is left fails. |

## Left out

- Integer widths: offsets, sequence numbers and counters are unbounded; wrap-around of 64-bit counters is not modelled.
- JavaScript strings: highlighting is stated over UTF-8 bytes; TextEncoder, TextDecoder (replacement characters for a range that cuts a character, byte-order marks) and UTF-16 are not modelled.
- JavaScript numbers: pane ratios are exact reals, or not finite; rounding of binary floating point is not modelled.
- JavaScript object identity: structure sharing and the reference comparisons that skip a redundant save are not modelled; a tree edit that changes nothing returns an equal tree.
- Terminal frames for directories, pongs and errors are one frame `Other` in the protocol, since they move no cursor; input, resize and kill are not modelled.
- TerminalProtocol: timers are not part of the step system; a dropped client may reconnect at any later time, or give up. The count of attempts and their delays are in `Reconnect` and not repeated there.
- The capacity of a broadcast is not modelled: a terminal's receiver may lag at any time (directory events fill the same queue), an agent session's whenever it has something to receive.
- TerminalExactlyOnce.ExactlyOnce: counts published output; bytes still held back by the pump (at most 3) are not yet part of it.
- Sizes of agent events are inputs; JSON serialization is not modelled.
- TerminalPump.RunPump: the waiter thread always delivers a verdict; the unknown exit that is made up when it vanishes is not modelled.
- Turns: permission requests, cancellation and the idle reaper are not modelled; the order of log events of different emits follows the steps of the model, one step per emit.
- Memory ordering in `SearchCap`: the relaxed loads of the shared counters are taken to read the latest value.
- The directory walk, the regular-expression matcher and the file reader of the search are steps of the environment.
- ClawRuntime.Claw.RunLoop: cron schedules, sleeping, the sweep that settles a turn and the status shown to users are not modelled; how each turn and attempt ends is given by the environment.
- Generated ids: `crypto.randomUUID` is a function of the place in the input when restoring, and new ids are fresh in runs of the layout store.
- The sort of highlight ranges stands for the library's sort; ranges that compare equal are equal.
- PaneRuns.RunKeeps: presets, drafts of other projects and the focus of panes by click are not modelled.
- Calendar.CivilIsCalendar: covers days from 1970 on, as the argument is unsigned; the branch for negative day numbers is dead and omitted.
- HTTP routing, authentication, git, system monitoring, markdown rendering and settings: plumbing and libraries, nothing to add here.
