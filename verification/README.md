# USB serial monitor: framing and connection state, modelled in Dafny

The monitor reads a device's serial output in the browser. Its two React hooks turn the text
stream into log entries and keep the connection state. `src/hooks/useSerialPort.jsx` is the
current hook and `src/hooks/useSerialPort.js` the earlier one. This project models the parts
of both hooks that are plain sequential logic:

- **`AnsiStrip`** models `stripAnsi`, a global replace of one regular expression. The match at
  a position is computed the way a backtracking engine tries alternatives (`MatchEndAt`). It is
  proved to be the longest string of the expression's language that starts there
  (`MatchIsLongest`). So ESC `12;x` loses only ESC `12`: the engine gives back the digit `2`
  to close the sequence. Stripping never lengthens a string. It is the identity on text without
  ESC (U+001B) or CSI (U+009B). It never deletes a newline.
- **`LineFraming`** models the current read loop. `Frame` is the reference cutting of a text
  into newline-terminated lines and a residue. The class `LineFramer` is the loop: `buffer`,
  the `output` log, `Feed` for one chunk, `Run` for a stream, `Flush` for the effect's
  teardown. It is proved to log `stripAnsi` of exactly the lines `Frame` cuts from everything
  received, however the stream was split into chunks.
- **`LegacyFraming`** models the earlier read loop. `WholeBufferFramer` logs the whole buffer
  as soon as it holds a newline. `Replay` is its reference definition over a stream. The
  lemmas prove it loses nothing and compare it with `Frame`.
- **`PortList`** models the `listPorts` filter and the `requestPort` list update, both built
  on JavaScript's `filter`.
- **`Session`** models the connection state the hooks keep: `connect`, `disconnect`,
  `requestPort`, `listPorts`, the port setter and the read loop's error path. Every browser
  call is a parameter saying how it settled.
- **`Strings`** and **`Wrappers`** hold shared helpers: `indexOf`, concatenation, the shape of
  a line, `Option`.

A logged line keeps its terminating `'\n'`: the chunks `"AB"`, `"C\n"` are logged as
`"ABC\n"`. The residue is flushed only by the effect's teardown (`useSerialPort.jsx:124-130`),
when the reader changes or the provider unmounts, not when the reader reports `done`. The
earlier hook never strips and never flushes.

## Model

| member | source | states |
|---|---|---|
| `Strings.IndexOf` | src/hooks/useSerialPort.jsx:104 | `indexOf('\n')`: -1 exactly when there is no newline; otherwise the position of the first newline |
| `Strings.LineByCount` | src/hooks/useSerialPort.jsx:103-106 | a cut line has exactly one newline, as its last character (`IsLine` is equivalent to counting) |
| `AnsiStrip.MatchEndAt` | src/hooks/useSerialPort.jsx:89 | the regex's match at a position, tried in backtracking order; a match starts with ESC or CSI and is at least two characters long |
| `AnsiStrip.MatchIsLongest` | src/hooks/useSerialPort.jsx:89 | the match taken is an escape sequence of the expression's language, and no longer one starts at that position; no match means no escape sequence starts there |
| `AnsiStrip.MatchNoNewline` | src/hooks/useSerialPort.jsx:89 | no match contains a newline |
| `AnsiStrip.StripAnsi` | src/hooks/useSerialPort.jsx:87-91 | the global replace by `''`; never longer than its input |
| `AnsiStrip.StripIdentity` | src/hooks/useSerialPort.jsx:87-91 | text with neither ESC nor CSI is returned unchanged |
| `AnsiStrip.StripKeepsNewlines` | src/hooks/useSerialPort.jsx:89 | the number of newlines is unchanged by stripping |
| `AnsiStrip.StripLine` | src/hooks/useSerialPort.jsx:105-110 | a cleaned line is still a line: one newline, at the end |
| `AnsiStrip.BacktrackingExample` | src/hooks/useSerialPort.jsx:89 | ESC `12;x` matches ESC `12` and strips to `;x` |
| `LineFraming.Frame` | src/hooks/useSerialPort.jsx:103-106 | the cutting after each newline; like the loop, which stops once `indexOf` finds none, it leaves a residue without a newline and no longer than the text |
| `LineFraming.FrameIsFraming` | src/hooks/useSerialPort.jsx:101-106 | conservation: the cut lines followed by the residue are the input; every cut is a line; the residue has no newline |
| `LineFraming.FrameUnique` | src/hooks/useSerialPort.jsx:103-106 | any split of a text into lines and a newline-free residue is the one the cutting finds |
| `LineFraming.FrameAppend` | src/hooks/useSerialPort.jsx:101-106 | chunking does not matter: cutting `s` and then the residue followed by `t` equals cutting `s + t` |
| `LineFraming.StripAll` | src/hooks/useSerialPort.jsx:109-110 | one cleaned entry per cut line, in order: entry `k` is `stripAnsi` of line `k` |
| `LineFraming.CutLines` | src/hooks/useSerialPort.jsx:103-111 | the `indexOf`/`slice` loop cuts exactly the lines of `Frame`, cleans them in order, and leaves `Frame`'s residue |
| `LineFraming.StripAllLines` | src/hooks/useSerialPort.jsx:109-110 | every cleaned log entry still ends in its newline and holds no other |
| `LineFraming.StripAllShorter` | src/hooks/useSerialPort.jsx:109 | a cleaned entry is never longer than the raw line |
| `LineFraming.LineFramer.constructor` | src/hooks/useSerialPort.jsx:84 | a loop starts with an empty buffer and keeps the framing invariant |
| `LineFraming.LineFramer.Feed` | src/hooks/useSerialPort.jsx:101-111 | one chunk: the log gains `stripAnsi` of each line cut from buffer + chunk, in order, and nothing else; the buffer becomes the residue; the invariant buffer = residue of everything received is kept |
| `LineFraming.LineFramer.Run` | src/hooks/useSerialPort.jsx:93-120 | over a stream of chunks, the log gains `stripAnsi` of exactly the lines of the whole stream, and the buffer is its residue, whatever the chunk boundaries |
| `LineFraming.LineFramer.Flush` | src/hooks/useSerialPort.jsx:124-130 | a non-empty buffer adds exactly one entry, `stripAnsi(buffer)`; an empty one adds none |
| `LineFraming.LineFramer.ClearOutput` | src/hooks/useSerialPort.jsx:161-163 | the log is emptied and the buffer is untouched |
| `LegacyFraming.Accept` | src/hooks/useSerialPort.js:85-95 | one chunk: an empty one changes nothing; at most one entry is appended and the earlier ones are kept; after a non-empty chunk the buffer holds no newline |
| `LegacyFraming.Replay` | src/hooks/useSerialPort.js:82-97 | the loop over a stream: at most one entry per chunk, and a buffer that started without a newline never holds one |
| `LegacyFraming.AcceptKeeps` | src/hooks/useSerialPort.js:85-95 | one chunk keeps the invariant: nothing lost, each entry holds a newline, the buffer none, earlier entries unchanged |
| `LegacyFraming.ReplayConserves` | src/hooks/useSerialPort.js:85-95 | the entries followed by the buffer are exactly the text received |
| `LegacyFraming.ReplayAppendOnly` | src/hooks/useSerialPort.js:89-90 | a longer stream only appends entries; those already logged stay in place |
| `LegacyFraming.EmptyChunkIgnored` | src/hooks/useSerialPort.js:85 | an empty chunk (the only falsy string) changes neither buffer nor entries |
| `LegacyFraming.ReplayVersusFrame` | src/hooks/useSerialPort.js:85-95 | the lines the current hook would cut from the same stream are exactly the lines inside the earlier hook's entries, and its residue is their tail followed by the buffer |
| `LegacyFraming.SplitLineReplayed` | src/hooks/useSerialPort.js:87-94 | the chunks `a\nb`, `c\n` are logged as the entries `a\nb` and `c\n` |
| `LegacyFraming.SplitLineFramed` | src/hooks/useSerialPort.jsx:103-106 | the same text is cut by the current hook into the lines `a\n` and `bc\n` |
| `LegacyFraming.WholeBufferFramer.constructor` | src/hooks/useSerialPort.js:76 | a loop starts with an empty buffer |
| `LegacyFraming.WholeBufferFramer.Feed` | src/hooks/useSerialPort.js:85-95 | an empty chunk changes nothing; otherwise it is appended, and a buffer holding a newline is logged whole and emptied; the log only grows, at its end |
| `LegacyFraming.WholeBufferFramer.Run` | src/hooks/useSerialPort.js:78-101 | over a stream, the log gains exactly the entries of `Replay`; the invariant holds |
| `LegacyFraming.WholeBufferFramer.Cleanup` | src/hooks/useSerialPort.js:108-111 | teardown leaves the log as it was: the residue is dropped, not flushed |
| `LegacyFraming.WholeBufferFramer.ClearOutput` | src/hooks/useSerialPort.js:141-143 | the log is emptied and nothing else changes |
| `PortList.KeepPort` | src/hooks/useSerialPort.jsx:25-28 | the filter test simplifies to "not both a USB vendor id and a Bluetooth service class" (identical at useSerialPort.js:20-24) |
| `PortList.ListedPorts` | src/hooks/useSerialPort.jsx:25-28 | `availablePorts.filter(...)`: never more ports than were granted (membership, count and order in `ListedPortsSpec`) |
| `PortList.ListedPortsSpec` | src/hooks/useSerialPort.jsx:24-28 | a granted port is listed exactly when it does not report both ids, as often as granted, in the browser's order |
| `PortList.ListedPortsStable` | src/hooks/useSerialPort.jsx:24-28 | filtering the listed ports again changes nothing |
| `PortList.Without` | src/hooks/useSerialPort.jsx:44 | `prev.filter(p => p !== port)`: never longer than `prev`, and the picked port no longer occurs |
| `PortList.WithRequested` | src/hooks/useSerialPort.jsx:44 | the list after a pick ends with the picked port, preceded by the old list without it (same at useSerialPort.js:40) |
| `PortList.RequestedOnce` | src/hooks/useSerialPort.jsx:44 | the picked port occurs exactly once, last; every other port occurs as often as before and in the same order |
| `PortList.RequestedTwice` | src/hooks/useSerialPort.jsx:44 | picking the same port again leaves the list unchanged |
| `Session.OpenRate` | src/hooks/useSerialPort.jsx:63 | the port is opened at the requested rate, or at 9600 when that is 0 |
| `Session.RequestErrorMessage` | src/hooks/useSerialPort.jsx:47-51 | a `NotFoundError` and only that gives "No compatible serial port selected"; every other error gives "Failed to access serial port" |
| `Session.SerialSession.constructor` | src/hooks/useSerialPort.jsx:8-13 | no ports, no selection, not connected, no error, 9600 baud, no reader |
| `Session.SerialSession.ListPorts` | src/hooks/useSerialPort.jsx:17-33 | no API: the "not supported" error; `getPorts` fails: "Failed to list serial ports"; otherwise the filtered ports replace the list; nothing else changes |
| `Session.SerialSession.RequestPort` | src/hooks/useSerialPort.jsx:35-53 | the error is cleared first; no API: "not supported"; a picked port is moved to the end and selected; a rejected picker sets the matching message and leaves list and selection |
| `Session.SerialSession.SelectPort` | src/hooks/useSerialPort.jsx:200 | the selection is set and nothing else changes |
| `Session.SerialSession.Connect` | src/hooks/useSerialPort.jsx:55-76 | with no selected port only the error "No port selected" is set; otherwise the port is opened at `OpenRate`; success stores the requested rate, marks the connection open, clears the error and keeps the new reader; failure sets "Failed to connect: " + the message |
| `Session.SerialSession.Disconnect` | src/hooks/useSerialPort.jsx:137-158 | whatever cancel and close do, the connection ends closed, with no reader and no error; close is called exactly when a port is selected and has a readable stream (same outcome at useSerialPort.js:114-139) |
| `Session.SerialSession.ReadFailed` | src/hooks/useSerialPort.jsx:112-117 | a read failure as written disconnects and ends with no error shown |
| `Session.SerialSession.ReadFailedReported` | src/hooks/useSerialPort.jsx:112-117 | the corrected failure path disconnects and keeps "Failed to read from port." as the error |
| `Session.ReadFailureAsWritten` | src/hooks/useSerialPort.jsx:112-117 | a session that connected and then failed to read shows no error |
| `Session.ReadFailureReported` | src/hooks/useSerialPort.jsx:112-117 | with the corrected path the same session shows "Failed to read from port." |

## Left out

- React itself is not modelled: state setters, effect scheduling, dependency arrays and the
  context provider. Each state variable is a field, and a setter call is an assignment.
- The `isCancelled` and `isMounted` flags are not modelled. The loops are taken as running
  until the stream ends, and a read after teardown is not modelled.
- LegacyFraming.WholeBufferFramer.Feed: the updater passed to `setOutput` (`useSerialPort.js:89-93`)
  reads `buffer` when React runs it, and the code empties `buffer` right after the call. The model
  logs the buffer as it was at the call. What React's scheduling could make it log instead is not
  modelled.
- Web Serial, streams and decoding are not modelled: `getPorts`, `requestPort`, `open`,
  `close`, `getInfo`, `pipeTo`, `TextDecoderStream`, `reader.read` and `reader.cancel`.
  Their outcomes are parameters, and chunks are already-decoded strings.
- `parseInt(selectedBaudRate) || 9600` (`useSerialPort.jsx:63`): the rate is taken as already
  parsed, and only the `|| 9600` fallback for 0 is modelled. `NaN` is not modelled.
- Session.SerialSession.Disconnect: the awaits between dropping the reader and clearing the
  flags are not modelled. The contract gives only the state after `disconnect` settles.
- The earlier hook's read error is only logged (`useSerialPort.js:98-100`); it changes no
  state, so it has no member.
- The listeners for ports being plugged in and out (`useSerialPort.jsx:165-187`) are not
  modelled. They only call `listPorts` and `disconnect`, which are modelled.
- Console logging is not modelled.
- A bounded log, matching a device to a port, and automatic reconnection are not modelled.
  None of them has code in either hook.
- Port identity: JavaScript's `!==` compares objects. The model compares an identity number
  together with the port's info record.

## Findings

| source | as written | input that shows it | evidently intended | confidence | as-written member | corrected member |
|---|---|---|---|---|---|---|
| src/hooks/useSerialPort.jsx:112-117 | the read loop's `catch` sets the error "Failed to read from port." and then calls `disconnect`, whose last step (line 157) sets the error back to `null` | a connected session whose `reader.read()` rejects, for example because the device was unplugged | the user is told the read failed, so the message stays after the teardown | not executed; the later `setError(null)` overrides the earlier message | `Session.ReadFailureAsWritten` (with `Session.SerialSession.ReadFailed`) | `Session.ReadFailureReported` (with `Session.SerialSession.ReadFailedReported`) |
