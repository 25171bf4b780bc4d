# kelicad-agent core, modelled in Dafny

The kelicad agent is a desktop helper that lets the kelicad web app run
LTspice simulations on the user's machine. The browser connects to a
WebSocket server on the loopback port 9347. It shakes hands with an origin
from a fixed allow-list, then sends `simulate`, `cancel` and `ping`
messages. For a simulation the agent:

- adds the `.backanno`, `.save all` and `.options plotwinsize=…` directives
  the netlist lacks, just before its `.end` line;
- runs LTspice in batch mode;
- decodes the `.raw` file LTspice writes: a text header, a binary marker,
  then little-endian samples, one record per point;
- answers with the time axis and one trace per further variable.

Only one simulation runs at a time, agent-wide. A cancel request naming the
running simulation sets a flag and kills the LTspice process. A counter of
open connections and a count of successful simulations feed the status the
desktop window shows.

The project is organised as follows:

| file | module | what it holds |
|---|---|---|
| `wrappers.dfy` | `Wrappers` | `Option`, `Result` |
| `text.dfy` | `Text` | the Rust string operations the core relies on: `lines`, `trim`, `split`, `join`, ASCII `to_lowercase`, `contains`, `usize` parsing, `position` |
| `protocol.dfy` | `Protocol` | the constants, the origin allow-list, the message records, how requests are read from a JSON object and how responses are written as one |
| `netlist.dfy` | `Netlist` | `prepare_netlist`: a method that inserts into a line list, and the function that specifies it |
| `rawheader.dfy` | `RawHeader` | the header loop of `parse_raw_file`: a method, and a fold that specifies it |
| `rawfile.dfy` | `RawFile` | the rest of `parse_raw_file`: marker search, size check, sample reads, traces, analysis type |
| `runner.dfy` | `Runner` | how `run_ltspice_simulation` turns a finished LTspice run into results or an error |
| `agent.dfy` | `Agent` | `AppState` as a class, with the handshake, simulate, cancel and ping handlers, the connection counter and the status snapshot |
| `session.dfy` | `Session` | one WebSocket connection as a class: dispatch, the per-connection handshake flag, the read loop |

Floating-point samples are not interpreted. A sample is the 8 or 4
little-endian bytes it is read from (`Protocol.Real64`). Message ids and
timestamps come in as a `Stamp`. The outcome of an LTspice run comes in as
a `Runner.Run` or an `Agent.Execution`.

Details of the code that the model follows:

- The analysis type is chosen transient first, then `ac analysis`, then any
  `dc`. It is not DC before AC.
- There is no `Hz` unit: only `voltage`, `current` and `time` get a unit.
- The header ends only at `Binary:`; there is no `Values:` marker.
- Double precision is read from `double` in the `Flags:` line. The word
  `complex` plays no part.
- A variable declared beyond the header's variable count gets an empty
  trace, so the traces need not all be as long as the axis
  (`RawFile.DecodedTraces`).
- A message of a known type whose record does not parse ends the
  connection through `?`, which skips the decrement after the loop. The
  connection then stays counted (`Session.Serve`; see the second finding
  below). `Session.ServeCountingOut` is the corrected loop.
- The connection counter is a `u32` raised with `+= 1`, which wraps in a
  release build, and lowered with `saturating_sub(1)`. A connection opened
  with the counter at `u32::MAX` therefore leaves it at 0.

## Model

| member | source | states |
|---|---|---|
| Text.TrimStart | src-tauri/src/simulator.rs:304 | `trim` drops exactly the leading Unicode whitespace: the result is a suffix starting with a non-space, and everything removed is whitespace |
| Text.TrimEnd | src-tauri/src/simulator.rs:304 | the same at the end of the line |
| Text.TrimPadded | src-tauri/src/simulator.rs:304 | a word padded in front with whitespace trims back to the word |
| Text.Lower | src-tauri/src/simulator.rs:255 | lower-casing keeps the length |
| Text.LowerCharacters | src-tauri/src/simulator.rs:255 | lower-casing leaves no ASCII capital and no Kelvin sign, and changes no other character |
| Text.LowerIdempotent | src-tauri/src/simulator.rs:255 | lower-casing twice is lower-casing once |
| Text.LowerAppend | src-tauri/src/simulator.rs:255 | lower-casing distributes over concatenation |
| Text.Split | src-tauri/src/simulator.rs:307 | `split` gives at least one piece, and no piece holds the separator |
| Text.SplitJoinWith | src-tauri/src/simulator.rs:323 | splitting a joined list of separator-free pieces gives the pieces back |
| Text.SplitJoinOfString | src-tauri/src/simulator.rs:323 | joining the pieces of a split with the separator gives the string back |
| Text.Lines | src-tauri/src/simulator.rs:252 | no line holds a newline |
| Text.LinesOfJoin | src-tauri/src/simulator.rs:252-283 | the lines of a `\n`-joined list are the list, minus one trailing `\r` per line and an empty last line |
| Text.ContainsInSomeLine | src-tauri/src/simulator.rs:252-277 | a newline-free pattern found in a text is found in one of its lines |
| Text.ParseUsize | src-tauri/src/simulator.rs:308 | a parsed `usize` is below 2^64 and comes from text starting with a digit or `+` |
| Text.NatToString | src-tauri/src/simulator.rs:455 | the decimal rendering is a non-empty digit string |
| Text.NatToStringValue | src-tauri/src/simulator.rs:366-368 | the decimal rendering denotes the number |
| Text.ParseUsizeOfNatToString | src-tauri/src/simulator.rs:308 | parsing reads a rendered `usize` back |
| Text.PositionFrom | src-tauri/src/simulator.rs:257 | `position` finds the first element satisfying the predicate, or reports that none does |
| Text.PositionIsFirst | src-tauri/src/simulator.rs:257 | the first satisfying element is the one reported |
| Text.PositionAppend | src-tauri/src/simulator.rs:474 | appending an element moves the reported position only when nothing earlier matched |
| Protocol.ListContains | src-tauri/src/protocol.rs:179-181 | membership in the list |
| Protocol.IsOriginAllowed | src-tauri/src/protocol.rs:161-181 | exactly the four listed origins are accepted, compared exactly |
| Protocol.Constants | src-tauri/src/protocol.rs:161-176 | four distinct origins, port 9347, protocol and agent version 1.0.0 |
| Protocol.ExtendedOriginRejected | src-tauri/src/protocol.rs:179-181 | an allowed origin with anything appended is rejected |
| Protocol.NearMissesRejected | src-tauri/src/protocol.rs:203-209 | another port, a look-alike host, another host, upper case and the empty string are rejected |
| Protocol.SimulationRequestRoundTrip | src-tauri/src/protocol.rs:66-77 | every simulation request with in-range numbers reads back from its JSON object unchanged |
| Protocol.AbsentTimeoutReadsAsNone | src-tauri/src/protocol.rs:75 | dropping `timeout` from a readable request keeps it readable, with no timeout |
| Protocol.HandshakeResponseKeys | src-tauri/src/protocol.rs:49-64 | the members in declaration order under their wire names, `ltspicePath` and `error` present only when set |
| Protocol.SimulationResponseKeys | src-tauri/src/protocol.rs:79-96 | the same for a simulation result, with `results` and `error` optional |
| Protocol.MemberFoundIff | src-tauri/src/protocol.rs:49-151 | a member is found by name exactly when some member carries that name |
| Protocol.MemberAt | src-tauri/src/protocol.rs:49-151 | the first member carrying a name is the one found |
| Protocol.HandshakeResponseSuccessField | src-tauri/src/protocol.rs:56 | the `success` member is the response's outcome |
| Protocol.HandshakeResponsePathField | src-tauri/src/protocol.rs:59-60 | `ltspicePath` reads back as the path when set and is not found otherwise |
| Protocol.HandshakeResponseErrorField | src-tauri/src/protocol.rs:62-63 | `error` reads back as the message when set and is not found otherwise |
| Protocol.SimulationResponseResultsField | src-tauri/src/protocol.rs:89-90 | `results` reads back as the results when set and is not found otherwise |
| Protocol.SimulationResponseErrorField | src-tauri/src/protocol.rs:91-92 | `error` reads back as the message when set and is not found otherwise |
| Protocol.CancelResponseFields | src-tauri/src/protocol.rs:141-151 | a cancel response carries the requested id and the outcome |
| Netlist.Chosen | src-tauri/src/simulator.rs:254-281 | at most three directives are chosen |
| Netlist.Directives | src-tauri/src/simulator.rs:254-281 | at most three directives are added |
| Netlist.DirectiveGuards | src-tauri/src/simulator.rs:254-281 | each directive is added exactly when the lower-cased netlist lacks its keyword |
| Netlist.KelvinSignSpellsBackanno | src-tauri/src/simulator.rs:255-260 | a netlist spelling `.backanno` with a Kelvin sign already mentions it, so `.backanno` is not added |
| Netlist.GuardOrDirective | src-tauri/src/simulator.rs:254-281 | each keyword is either in the lower-cased netlist already or its directive is added |
| Netlist.DirectivesInOrder | src-tauri/src/simulator.rs:254-281 | the added directives come in the order `.backanno`, `.save all`, `.options plotwinsize` |
| Netlist.PlotWinSizeDirectiveText | src-tauri/src/simulator.rs:269-279 | `fast` gives `plotwinsize=128`; every other quality gives `plotwinsize=0` |
| Netlist.DirectivesAreNotEndLines | src-tauri/src/simulator.rs:257-279 | no added directive is itself an end line, so later inserts still find `.end` |
| Netlist.NoDirectiveEndsNetlist | src-tauri/src/simulator.rs:257-279 | the same for the chosen list |
| Netlist.DirectivesAreKnown | src-tauri/src/simulator.rs:254-281 | every chosen directive is one of the three |
| Netlist.InsertBeforeEnd | src-tauri/src/simulator.rs:257-259 | one insert at the first end line, or none when there is no end line |
| Netlist.PrepareNetlist | src-tauri/src/simulator.rs:251-284 | the three guarded inserts and the join give the prepared text |
| Netlist.InsertInTurn | src-tauri/src/simulator.rs:254-281 | three guarded single inserts equal one insert of the chosen list |
| Netlist.InsertBeforeStep | src-tauri/src/simulator.rs:257-279 | inserting a batch is inserting its elements one by one |
| Netlist.InsertNothing | src-tauri/src/simulator.rs:254-281 | inserting nothing changes nothing |
| Netlist.PositionAfterInsert | src-tauri/src/simulator.rs:264 | after an insert the end line is found again, moved on by the number inserted |
| Netlist.InsertBeforeShape | src-tauri/src/simulator.rs:256-258 | the inserted block sits right before the first end line; the lines before and after are untouched |
| Netlist.InjectedShape | src-tauri/src/simulator.rs:257-279 | directives that are not end lines sit just before the first `.end`, the lines before and after it untouched; with no end line, the lines are unchanged |
| Netlist.PreparedKeepsLines | src-tauri/src/simulator.rs:251-284 | between zero and three lines are added, and the original lines keep their order around one insertion point |
| Netlist.DirectivesMentionGuards | src-tauri/src/simulator.rs:254-281 | each directive contains the keyword whose absence adds it |
| Netlist.PatternInSpliced | src-tauri/src/simulator.rs:257-283 | a keyword on one of the lines, or in a directive spliced in, is in the joined result |
| Netlist.PatternInPrepared | src-tauri/src/simulator.rs:251-284 | a keyword that was missing, on a netlist with an end line, is present afterwards |
| Netlist.BackannoInPrepared | src-tauri/src/simulator.rs:254-260 | a prepared netlist with an end line mentions `.backanno` |
| Netlist.SaveInPrepared | src-tauri/src/simulator.rs:262-267 | it mentions `.save` |
| Netlist.PlotWinInPrepared | src-tauri/src/simulator.rs:277-281 | it mentions `.options plotwinsize` |
| Netlist.PreparedTwiceAddsNothing | src-tauri/src/simulator.rs:251-284 | preparing a prepared netlist adds nothing, whatever the quality |
| Netlist.NothingMissing | src-tauri/src/simulator.rs:254-281 | a netlist with all three keywords gets no directive |
| Netlist.NoEndLineNoChange | src-tauri/src/simulator.rs:257-279 | without an end line, preparing only normalises line endings |
| RawHeader.KindsBy | src-tauri/src/simulator.rs:303-304 | one classification per header line |
| RawHeader.Kinds | src-tauri/src/simulator.rs:303-304 | the same with the loop's own classification |
| RawHeader.ParseHeader | src-tauri/src/simulator.rs:296-330 | the loop computes the header of the decoded text |
| RawHeader.ScanHeader | src-tauri/src/simulator.rs:303-330 | the loop over the lines equals the fold of its step |
| RawHeader.CountFieldReadsNumber | src-tauri/src/simulator.rs:306-313 | `No. Variables:` or `No. Points:` followed by spaces and a `usize` reads that number |
| RawHeader.EntryReadsFields | src-tauri/src/simulator.rs:321-328 | an entry line with at least three tab-separated fields gives the second as the name and the third as the type |
| RawHeader.EntryNeedsThreeFields | src-tauri/src/simulator.rs:324 | lines with one or two fields declare nothing |
| RawHeader.DoneStays | src-tauri/src/simulator.rs:319-320 | after `Binary:` no line changes the header |
| RawHeader.HeaderFields | src-tauri/src/simulator.rs:296-330 | the header is read from the lines before `Binary:`: the counts and the flag from the last line setting them, the variables from the entries after `Variables:` |
| RawHeader.ScanFields | src-tauri/src/simulator.rs:303-330 | the same for any classified lines |
| RawHeader.ScanSummary | src-tauri/src/simulator.rs:303-330 | the loop state after each line before `Binary:`, in closed form |
| RawHeader.StepSummary | src-tauri/src/simulator.rs:306-329 | one more line other than `Binary:` keeps the loop state equal to the per-field reading |
| RawHeader.LastFieldsStep | src-tauri/src/simulator.rs:306-318 | one more line sets a count or the precision flag exactly when it is such a line |
| RawHeader.VariablesStep | src-tauri/src/simulator.rs:316-328 | one more line adds its entry only after `Variables:`, and may itself be that marker |
| RawFile.Windows | src-tauri/src/simulator.rs:471-475 | `windows(k)` gives every length-k slice in order, none when k exceeds the length |
| RawFile.FindSubsequenceIsLeast | src-tauri/src/simulator.rs:471-475 | the search reports the first occurrence, or none when there is none |
| RawFile.Ascii | src-tauri/src/simulator.rs:499-506 | one byte per character |
| RawFile.Utf16Le | src-tauri/src/simulator.rs:484-492 | two bytes per ASCII character |
| RawFile.MarkersAreNotEmpty | src-tauri/src/simulator.rs:484-506 | four markers, none empty |
| RawFile.FirstMarkerEnd | src-tauri/src/simulator.rs:479-514 | the data start found lies within the file |
| RawFile.FindBinaryMarker | src-tauri/src/simulator.rs:479-514 | the same for the four markers in order |
| RawFile.FirstMarkerEndIsFirst | src-tauri/src/simulator.rs:479-514 | markers are tried in order: when marker `m` is the first from position `i` on that occurs, the data starts just past its first occurrence |
| RawFile.NoMarkerNoEnd | src-tauri/src/simulator.rs:479-514 | when no marker from position `i` on occurs there is no data start |
| RawFile.BytesPerPoint | src-tauri/src/simulator.rs:354-358 | a record is at least the 8 bytes of the time value |
| RawFile.RecordLayout | src-tauri/src/simulator.rs:354-393 | within a record the values lie back to back and fill it exactly |
| RawFile.ReadsInBounds | src-tauri/src/simulator.rs:359-393 | once the size check passes, every value of every point lies inside the data |
| RawFile.ReadF64Le | src-tauri/src/simulator.rs:453-459 | succeeds exactly when 8 bytes fit, giving them, otherwise fails with the offset in the message |
| RawFile.ReadF32Le | src-tauri/src/simulator.rs:462-468 | the same with 4 bytes |
| RawFile.ReadsSucceed | src-tauri/src/simulator.rs:364-396 | once the size check passes, every read in the loops succeeds |
| RawFile.Column | src-tauri/src/simulator.rs:374-396 | one value per point |
| RawFile.Columns | src-tauri/src/simulator.rs:374-396 | one column per variable |
| RawFile.ReadColumns | src-tauri/src/simulator.rs:374-396 | the nested loops fill each column with its variable's values, point by point |
| RawFile.Extend | src-tauri/src/simulator.rs:380-394 | a value read and pushed extends the column's prefix by one |
| RawFile.ColumnIsRead | src-tauri/src/simulator.rs:376-396 | each column entry is what the read at its offset gives |
| RawFile.UnitOf | src-tauri/src/simulator.rs:420-425 | `V`, `A` or `s` for the three known types, empty for any other |
| RawFile.BuildTraces | src-tauri/src/simulator.rs:414-432 | one trace per declared variable after the first |
| RawFile.TracesFollowDeclarations | src-tauri/src/simulator.rs:414-432 | the trace names are the declared names after the first, in order |
| RawFile.AnalysisType | src-tauri/src/simulator.rs:435-443 | `ac` exactly when there is no transient phrase but an AC one; `dc` exactly when neither phrase occurs but `dc` does; otherwise transient |
| RawFile.TransientPlotname | src-tauri/src/simulator.rs:435-436 | a transient plot name gives `transient` |
| RawFile.AcPlotname | src-tauri/src/simulator.rs:437-438 | an AC plot name without a transient phrase gives `ac` |
| RawFile.ParseRawFile | src-tauri/src/simulator.rs:287-450 | the decoder computes the specification `Decode`, whose size check is made without wrapping: the corrected check of the first finding |
| RawFile.HeaderErrorIff | src-tauri/src/simulator.rs:334-336 | the header error comes exactly when the last variable count or point count before `Binary:` is zero or missing |
| RawFile.HeaderError | src-tauri/src/simulator.rs:334-336 | the same in terms of the header read |
| RawFile.DecodeErrors | src-tauri/src/simulator.rs:334-371 | a decoding error is the header error, the marker error or the too-short error |
| RawFile.AssembleErrors | src-tauri/src/simulator.rs:334-371 | the same for any header and marker |
| RawFile.DecodeSucceedsIff | src-tauri/src/simulator.rs:334-371 | decoding succeeds exactly when both counts are non-zero, a marker is found and the data after it is long enough |
| RawFile.DecodedTime | src-tauri/src/simulator.rs:376-403 | the axis has one value per point, each the `f64` at the start of its record |
| RawFile.DecodedTraces | src-tauri/src/simulator.rs:414-432 | each trace has its variable's name, unit and column; a variable beyond the count gets no data |
| RawFile.WrappingMul | src-tauri/src/simulator.rs:359 | a `usize` product stays below 2^64 |
| RawFile.ExpectedSizeAsWritten | src-tauri/src/simulator.rs:354-359 | the size the code computes is below 2^64 |
| RawFile.SizeCheckWraps | src-tauri/src/simulator.rs:354-374 | a header of 2^61 double-precision points makes the computed size 0, so an empty data block passes the check; the column allocation that follows asks for 2^64 bytes, more than a `usize` holds; the unbounded check rejects the input |
| Runner.FailureMessage | src-tauri/src/simulator.rs:230-235 | the message starts `LTspice failed: ` |
| Runner.FailedExitIsError | src-tauri/src/simulator.rs:226-236 | a failed exit is an error carrying stderr and the log, whatever files remain |
| Runner.MissingRawIsError | src-tauri/src/simulator.rs:238-241 | a successful exit without a `.raw` file is the missing-file error |
| Runner.OutcomeOkIff | src-tauri/src/simulator.rs:226-247 | results come exactly from a successful exit with a `.raw` file that decodes, and they are the decoded ones |
| Runner.FailuresAreDistinct | src-tauri/src/simulator.rs:226-247 | the error message tells a failed exit and a missing file apart from each other and from decoding errors |
| Runner.ConcludedFailures | src-tauri/src/simulator.rs:226-247 | the same for any decoding outcome of the three known kinds |
| Agent.Failure | src-tauri/src/websocket.rs:221-231 | a failed response echoes the request id, carries the message and no results |
| Agent.Success | src-tauri/src/websocket.rs:319-329 | a successful response echoes the request id and carries the results and no error |
| Agent.AppState.constructor | src-tauri/src/main.rs:32-45 | no path, not simulating, all counters zero, no id, no cancel, no process |
| Agent.AppState.RecordDetection | src-tauri/src/main.rs:93-99 | a detected path is stored; otherwise nothing changes |
| Agent.AppState.Status | src-tauri/src/main.rs:59-77 | the snapshot copies the fields; LTspice is available exactly when a path is known |
| Agent.AppState.PingStatus | src-tauri/src/websocket.rs:116-121 | `busy` exactly while simulating, `ready` otherwise |
| Agent.AppState.HandleHandshake | src-tauri/src/websocket.rs:166-211 | success exactly for an allowed origin; a refused origin learns no path and no analyses; an accepted one learns the path and the three analyses |
| Agent.AppState.Admit | src-tauri/src/websocket.rs:217-262 | a busy agent or a missing LTspice turns the request away unchanged; otherwise the request becomes the running one with the flag and process id cleared |
| Agent.AppState.ProcessStarted | src-tauri/src/simulator.rs:211-217 | the process id is stored, nothing else changes |
| Agent.AppState.Finish | src-tauri/src/websocket.rs:273-345 | the job state is reset; a cancellation wins over the result; only an uncancelled success is counted and timed |
| Agent.AppState.HandleCancel | src-tauri/src/websocket.rs:349-387 | success exactly when the id names the running simulation; then the flag is set and a started process killed; otherwise nothing changes |
| Agent.AppState.HandleSimulate | src-tauri/src/websocket.rs:214-346 | admission, the run and the end together: rejections change nothing; an admitted run leaves the agent idle, answers cancelled exactly when a matching cancel came, and counts only an uncancelled success |
| Agent.AppState.Connected | src-tauri/src/websocket.rs:45-49 | the counter goes up by one, wrapping as a `u32` |
| Agent.AppState.Disconnected | src-tauri/src/websocket.rs:155-159 | the counter goes down by one, never below zero |
| Session.RouteSkips | src-tauri/src/websocket.rs:70-134 | frames without a type, unknown types and simulations before a handshake are skipped; a simulation is routed only after a handshake; a malformed message has a known type |
| Session.Connection.constructor | src-tauri/src/websocket.rs:45-52 | a new connection counts itself (wrapping as a `u32`), has not shaken hands, and changes no other field |
| Session.Connection.Receive | src-tauri/src/websocket.rs:70-141 | per route: skip with no change; a handshake sets the flag to its outcome; a simulation starts with a progress message, only after a successful handshake; a ping reports busy or ready; a cancel is answered with whether it named the running simulation, and then sets the cancel flag and kills a started process, otherwise changes nothing; a malformed message, and only that, aborts, leaving the counter as it is, as the `?` does |
| Session.Connection.StepAt | src-tauri/src/websocket.rs:70-141 | frame `n` of the read loop: the flag follows the frames read; the abort comes exactly on a malformed message; the process killed is the running one when the frame is an accepted cancel; only the cancel flag can change, and only through such a cancel |
| Session.Connection.Run | src-tauri/src/websocket.rs:52-141 | the read loop: the flag follows the frames read; a simulation starts only while it is set; a reply aborts exactly when its frame is malformed, and the loop stops at the first abort; each frame's kill is the running process when that frame is an accepted cancel; the cancel flag ends set exactly when it was set or some frame cancelled the running simulation; the counter and every other field are untouched |
| Session.Connection.Close | src-tauri/src/websocket.rs:155-159 | a closing connection counts itself out with `saturating_sub(1)` and changes no other field |
| Session.HandshakeReplyReportsOrigin | src-tauri/src/websocket.rs:82-85 | the handshake reply's `success` is whether the origin is allowed |
| Session.HandshakeRouteIgnoresFlag | src-tauri/src/websocket.rs:81-86 | whether a frame is a handshake does not depend on the flag |
| Session.FlagIsLastHandshake | src-tauri/src/websocket.rs:52-134 | the flag is set exactly when the most recent handshake was accepted |
| Session.CancelSeenIff | src-tauri/src/websocket.rs:125-129 | the cancel flag a connection's frames set is set exactly when one of them cancels the running simulation |
| Session.AnswersExtend | src-tauri/src/websocket.rs:52-141 | one more answer, matching its frame, keeps the replies and kills in step with the frames |
| Session.Serve | src-tauri/src/websocket.rs:38-163 | as written: a simulation starts only while the most recent handshake is accepted; the loop stops at the first abort; the kills and the cancel flag as in the read loop, other job fields untouched; the counter is the wrapped increment when a malformed message ended the connection, and otherwise the saturating decrement of the wrapped increment (back where it started, except from `u32::MAX`, which ends at 0) |
| Session.PingWithoutTimestampIsMalformed | src-tauri/src/websocket.rs:114-115 | a ping without a `timestamp` has a known type but is malformed |
| Session.MalformedPingLeaks | src-tauri/src/websocket.rs:38-163 | as written, a connection whose message is a ping without a timestamp aborts and leaves the counter one higher |
| Session.ServeCountingOut | src-tauri/src/websocket.rs:38-163 | corrected: with the decrement on every way out of the loop, the counter ends where it started, except from `u32::MAX`, where the wrapping increment and the saturating decrement leave 0; kills and job fields as in `Serve` |

## Left out

- Reading and writing files, the temporary directory, spawning LTspice and waiting for it: a run's outcome is an input (`Runner.Run`, `Agent.Execution`).
- `process_includes` and `get_resources_dir`: copying bundled libraries depends on the file system. The netlist reaches `prepare_netlist` as given.
- `detect_ltspice`: probing install paths and `which`. Its result is the input of `Agent.AppState.RecordDetection`.
- `kill_process`: killing is returned as the process id to kill.
- UTF-16 decoding of the `.raw` file: the decoded header text is an input beside the bytes.
- Floating point: samples are their bytes, so the f32-to-f64 widening and the min/max logging are not modelled.
- Parsing text into JSON: a frame carries the parsed object. Duplicate keys and non-integer numbers in `u64` fields are not modelled. serde's derived readers also accept a message written as a JSON array of its fields in declaration order (`["a","ping",1]` is a valid ping); a frame carries only an object, so array-form messages are not modelled.
- A panic inside a spawned simulation task (the capacity overflow of the first finding): the task's end, with no answer sent and the job state left set, is not modelled; `Decode` makes the corrected size check.
- UUIDs and clock readings: each response gets one `Stamp`. The separate `now_ms` calls for the last-simulation time and the response timestamp are one value.
- Concurrency: the tokio tasks, the locks, the one-slot result channel and the order in which a spawned simulation's reply interleaves with other frames.
- Send failures: a failed send ends the loop like a closed peer (`Session.Connection.Close`). A failed progress send, which returns through `?`, is not modelled.
- Logging, including the variable-count mismatch warning.
- Text.Lower: lower-cases the ASCII capitals and the Kelvin sign U+212A (to `k`), the characters whose lower case is one ASCII letter; other case mappings are not modelled. The one other character whose lower case holds an ASCII letter, U+0130, becomes `i` followed by a combining dot, two characters; no keyword compared here (`.end`, `.backanno`, `.save`, `.options plotwinsize`, `transient analysis`, `ac analysis`, `dc`) has an `i` that is its last character, so that mapping cannot create a match, but the model does not capture the change in length.
- Agent.AppState.HandleSimulate: a cancel is taken to arrive after the LTspice process id is stored. A cancel that comes before the process starts, so that no kill is sent yet, is not interleaved.
- Agent.AppState.Finish: the elapsed time of the cancelled answer and of the normal answer is one value.

## Findings

| source | as written | input that shows it | evidently intended | confidence | as-written member | corrected member |
|---|---|---|---|---|---|---|
| src-tauri/src/simulator.rs:354-371 | `num_points * bytes_per_point` is a `usize` product; in a release build it wraps, so the size check can pass on data far too short | a header declaring 1 variable, `No. Points: 2305843009213693952` and double precision: the product is 2^64, which wraps to 0, and an empty data block passes; `Vec::with_capacity` at line 374 then asks for 2^64 bytes and panics inside the spawned simulation task, so no answer is sent and the state reset at websocket.rs:276-284 never runs | the check rejects any data block shorter than the whole records, with the "too short" error | not executed | RawFile.SizeCheckWraps | RawFile.ReadsSucceed |
| src-tauri/src/websocket.rs:82-126 | the `?` on each request's parse returns from `handle_connection` before the decrement at lines 155-159 | the text frame `{"id":"a","type":"ping"}`, a `ping` without a `timestamp`: the connection ends and the open-connection count stays one too high | every ending of a connection counts it out | not executed | Session.MalformedPingLeaks | Session.ServeCountingOut |
