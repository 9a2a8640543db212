# RTMP capture and OBS stream-settings model

This project is a Dafny model of the core of a desktop tool. The tool
sniffs the TCP traffic of a live-streaming client. It extracts the RTMP
push server (`rtmp://…`) and the stream key (`stream-…?…=…`). It then
hands both to OBS Studio through obs-websocket v5.

The model has three parts, one per source file.

- **The capture object** (`RTMPCapture`, rtmp_capture.py) is
  `Capture.RtmpCapture`. It is a class with the source's collections:
  `capturedPackets`, `rtmpUrls`, `rtmpStreams` and `processedPackets`.
  - `PacketHandler` drops a frame without the IP/TCP/Raw layers, or a frame
    whose fingerprint `src:sport-dst:dport-len(payload)` was seen before.
    Otherwise it records the fingerprint and runs the command step. It then
    records every new URL that survives the filter chain, exactly once.
  - The class invariant `Valid` has three parts. Every known URL is a fixed
    point of the filter chain. Each URL appears in exactly one packet
    record. Every stream record is well formed.
  - URL matching and filtering live in `UrlExtraction`. The stream-name
    extraction of `parse_rtmp_commands` lives in `CommandExtraction`:
    - the bounded two-loop byte scan after `releaseStream`;
    - the five ordered text patterns;
    - the publish pattern.
- **The window** (`RTMPCaptureGUI`, gui_interface.py) is `Gui.CaptureGui`.
  It covers:
  - the auto-apply check and its background worker, modelled as a start
    step and a finish step;
  - the clear button;
  - the two result boxes and their refresh;
  - the first-line choice of the manual apply button.

  The coordinator's three fields are also modelled as a pure state machine
  (`AutoApply`). Lemmas over whole runs of events state the
  at-most-once-in-a-row guarantee and how the clear button re-arms it.
  `GuiText` models the boxes as text: one line per entry, read back with
  `strip()` and `split('\n')`.
- **The OBS controller** (`OBSController`, obs_controller.py) is
  `ObsControl.ObsController`. Its state is the `is_connected` flag, the
  presence of a socket, the messages written to the socket and the
  messages still to be read from it.
  - It performs the Hello → Identify → Identified handshake and the op-6
    request envelope of `send_command`.
  - The pure parts are `parse_rtmp_url` and the server/key normalisation of
    `set_stream_settings`.

Behaviour of the code that the model keeps as written:

- The look-behind `(?<!tc)` looks only at the two characters in front of
  `rtmp`. So in `tcUrl=rtmp://host/app` the URL is still matched. The
  parameter-name filter then sees only the URL, so it does not reject it.
  `tcUrl` values are therefore captured whenever they pass the other
  filters.
- The binary scan starts at each of the first 200 offsets after the
  command name, so a later start can cut into a run. A suffix of a run that
  was rejected as a version string can therefore be accepted
  (`CommandExtraction.ScanStarts`).
- The two `releaseStream` text patterns differ only in case, and so do the
  two publish patterns. Under `re.IGNORECASE` each pair matches the same
  text (`CommandExtraction.PublishSearchIgnoresCase`).
- `set_stream_settings` returns the raw response even when
  `requestStatus.result` is false. The auto-apply worker then records the
  pair as applied whenever any response arrives.
- A server without `rtmp://` is never split into server and key. It only
  gets the prefix.
- The clear button keeps the seen-frame fingerprints. A frame with the
  same fingerprint is therefore not processed again.
- The clear button resets the in-progress flag while a worker may still
  be running. A second worker can then start beside the first
  (`AutoApply.ClearWhileApplyingStartsSecondWorker`).

## Model

| member | source | states |
|---|---|---|
| Common.Strip | rtmp_capture.py:121 | `str.strip()` cuts only whitespace, and only before and after the remaining text, which itself neither starts nor ends with whitespace |
| UrlExtraction.UrlRestAt | rtmp_capture.py:113-114 | the host, optional port and path part of a URL match ends past its start, holds only URL characters and stops where the look-ahead allows |
| UrlExtraction.MatchUrlAt | rtmp_capture.py:112-115 | a match found at `i` starts with the scheme in any case, holds only URL characters, and ends where the look-ahead allows (whitespace, end of text or one of `"'>\;,`) |
| UrlExtraction.FindAll | rtmp_capture.py:117-118 | every `findall` match is longer than its scheme and consists of URL characters only |
| UrlExtraction.KeepUrlChars | rtmp_capture.py:124 | the character filter leaves only `[a-zA-Z0-9:/._-]`, keeps every URL character the input holds, and changes nothing in text already of that form |
| UrlExtraction.KeepUrlCharsAppend | rtmp_capture.py:124 | the filter runs one character at a time, in order: filtering `a + b` is filtering `a` then `b`, and a single character stays exactly when it is a URL character |
| UrlExtraction.AcceptClean | rtmp_capture.py:127-146 | a surviving URL contains no `tcurl`/`swfurl`/`pageurl` in any case, has at least 20 characters, starts with lower-case `rtmp://` or `rtmps://`, splits on `/` into at least 4 parts, and has a third part of 5 or more `[a-zA-Z0-9.-]` characters (so no `:`) |
| UrlExtraction.AcceptUrl | rtmp_capture.py:121-146 | what survives the chain is the stripped, character-filtered match |
| UrlExtraction.AcceptedUrlShape | rtmp_capture.py:121-146 | every accepted URL meets all of the acceptance conditions together |
| UrlExtraction.AcceptedUrls | rtmp_capture.py:112-146 | the URLs taken from a text view are exactly the pattern matches that the rejections let through, each exactly as matched, and each a fixed point of the chain |
| UrlExtraction.AcceptAll | rtmp_capture.py:119-146 | every match the chain accepts is listed as its cleaned form, everything listed comes from an accepted match, and it is a fixed point of the chain |
| UrlExtraction.AcceptAllAppend | rtmp_capture.py:119-146 | the matches are filtered one at a time in order: filtering `a + b` is filtering `a` then `b`, and one match gives its cleaned form or nothing |
| UrlExtraction.CleanFixesUrlText | rtmp_capture.py:121-124 | text made of URL characters is unchanged by strip plus character filter |
| UrlExtraction.AcceptIdempotent | rtmp_capture.py:121-146 | filtering an accepted URL again accepts it unchanged |
| UrlExtraction.MatchesAreClean | rtmp_capture.py:112-124 | a match of either pattern is unchanged by the cleaning step, so only the later checks can reject it |
| UrlExtraction.ExplicitPortRejected | rtmp_capture.py:139-146 | a URL whose host carries `:port` is always rejected |
| CommandExtraction.ScanWindowLoop | rtmp_capture.py:196-210 | the inner byte loop from one start offset returns exactly what the window specification finds from that offset |
| CommandExtraction.ScanAfterRelease | rtmp_capture.py:191-213 | the nested byte loops with their breaks return exactly the first name the scan specification finds |
| CommandExtraction.WindowSound | rtmp_capture.py:196-210 | a name found for one start offset is the ASCII text of an examined, delimiter-ended run that passed every test |
| CommandExtraction.WindowComplete | rtmp_capture.py:196-210 | when a start offset yields nothing, no run it examines passes the tests |
| CommandExtraction.ScanSound | rtmp_capture.py:191-213 | a name found by the scan comes from one of the first 200 start offsets, from a delimiter-ended run of name bytes that passed every test |
| CommandExtraction.ScanComplete | rtmp_capture.py:191-213 | when the scan finds nothing, no examined run of any of the first 200 offsets was acceptable |
| CommandExtraction.RunTextShape | rtmp_capture.py:199-208 | an accepted run's text has at least 20 characters, holds `?` and `=`, passes the version/`release` guard, and uses only name characters |
| CommandExtraction.ScannedNameShape | rtmp_capture.py:191-213 | the same shape holds for whatever the scan returns |
| CommandExtraction.ReleasePosition | rtmp_capture.py:179-183 | the first occurrence of `releaseStream` if there is one; else the first `releasestream` in the lowered payload; else the first lowered `release`; `-1` exactly when the lowered payload lacks `release` |
| CommandExtraction.AfterRelease | rtmp_capture.py:187-188 | the payload suffix from position plus offset, and empty past the end |
| CommandExtraction.BinaryNameShape | rtmp_capture.py:176-213 | the binary path reports only names of the accepted shape |
| CommandExtraction.OffsetMatchesPosition | rtmp_capture.py:179-188 | the 13-byte skip is used exactly when the position found holds `releaseStream` (in either spelling), the 7-byte skip only when it holds `release`; the scanned bytes are exactly those after that name |
| CommandExtraction.QueryAt | rtmp_capture.py:221-225 | a name-with-query group holds `?` and only stream-name characters |
| CommandExtraction.TextMatchAt | rtmp_capture.py:220-226 | the group of each text pattern holds `?` and only stream-name characters |
| CommandExtraction.Search | rtmp_capture.py:229 | `re.search` returns the group of the leftmost match, and `None` exactly when no position matches |
| CommandExtraction.TextFallback | rtmp_capture.py:228-237 | nothing exactly when no pattern's search result holds `?` and `=` and passes the guard; otherwise the search result of the first pattern whose result does, which has the stream-name shape |
| CommandExtraction.FallbackIsMatch | rtmp_capture.py:220-237 | a name the text path reports is the group of the leftmost match of the first pattern whose match is kept |
| CommandExtraction.TextStreamName | rtmp_capture.py:228-237 | the pattern loop with its break and reset returns the first kept match of the patterns in order |
| CommandExtraction.PublishMatchAt | rtmp_capture.py:259-262 | the group of either publish pattern, matched case-insensitively, is a non-empty run of `[a-zA-Z0-9_-]` |
| CommandExtraction.PublishSearch | rtmp_capture.py:266 | the group of the leftmost match of one publish pattern, and `None` exactly when no position matches |
| CommandExtraction.PublishSearchIgnoresCase | rtmp_capture.py:259-266 | under ignore-case, searching with `Publish` finds exactly what searching with `publish` finds |
| CommandExtraction.PublishStreamName | rtmp_capture.py:259-269 | the loop tries `publish` then `Publish` and stops at the first match; the result is the leftmost match of the `publish` pattern |
| CommandExtraction.ReleaseName | rtmp_capture.py:175-237 | the binary scan's name when the payload is non-empty and the scan finds one, otherwise the text patterns' result; either has `?` and `=`, passes the guard and uses only stream-name characters |
| CommandExtraction.ExtractCommand | rtmp_capture.py:172-288 | with `release` mentioned, a record exists exactly when a release name is found, and it is `stream-` plus that name; otherwise, with `publish`/`Publish` mentioned, exactly when the leftmost publish key is longer than 3, and it is that key; a frame with neither yields nothing |
| CommandExtraction.ReleaseMentionedIsLowerRelease | rtmp_capture.py:172 | the three-way release test is the same as `release` in the lowered text |
| CommandExtraction.ReleaseShadowsPublish | rtmp_capture.py:172-258 | a frame mentioning `release` in any case never yields a publish record |
| CommandExtraction.NoCommandNoRecord | rtmp_capture.py:285-288 | a `connect` frame, or one naming neither command, yields no record |
| Capture.Decode | rtmp_capture.py:92-99 | decoding keeps every ASCII byte as its own character, in place, and turns every other byte into a character above 127 |
| Capture.PrintableOnly | rtmp_capture.py:105 | the filtered text holds only codes 32..126, `\n`, `\r` and `\t`, keeps every such character of the input, and printable text passes unchanged |
| Capture.PrintableOnlyAppend | rtmp_capture.py:105 | the filter runs one character at a time, in order: filtering `a + b` is filtering `a` then `b`, and a single character stays exactly when it is printable |
| Capture.TextViewPrintable | rtmp_capture.py:92-105 | the text view is printable and filtering it again changes nothing |
| Capture.PrintablePayloadKept | rtmp_capture.py:92-105 | a payload of printable ASCII bytes is its own text view |
| Capture.NewUrls | rtmp_capture.py:148-149 | the URLs added from one frame are pairwise different, none was known before, each is a candidate, and every candidate is now known |
| Capture.DistinctUrlsCount | rtmp_capture.py:148-160 | with pairwise different URLs there are as many packet records as URLs |
| Capture.UrlRecords | rtmp_capture.py:150-160 | one packet record per new URL, carrying that URL and the frame's addresses, ports and size |
| Capture.ConsistentMeaning | rtmp_capture.py:121-160 | in a consistent capture every URL is accepted unchanged by the filter chain, every stream record is well formed, and URL and packet counts agree |
| Capture.RecordKeepsStructural | rtmp_capture.py:148-160 | recording a URL that was not yet known keeps the one-record-per-URL shape |
| Capture.StreamKeepsStructural | rtmp_capture.py:254 | appending a well-formed stream record keeps the shape |
| Capture.NewUrlsKeepAccepted | rtmp_capture.py:148-149 | adding accepted URLs keeps every known URL accepted |
| Capture.NewUrlsSnoc | rtmp_capture.py:148 | a further candidate is added exactly when it is neither known nor already added |
| Capture.NewRecordsKeepStructural | rtmp_capture.py:148-160 | recording a list of new, pairwise different URLs keeps the shape |
| Capture.ListSet | rtmp_capture.py:411 | listing the URL set yields each URL exactly once |
| Capture.RtmpCapture.constructor | rtmp_capture.py:42-48 | not capturing, all four collections empty, invariant holds |
| Capture.RtmpCapture.PacketsMatchUrls | rtmp_capture.py:148-160 | packet records and known URLs are equally many; every URL is a filter fixed point; every stream record is well formed |
| Capture.RtmpCapture.PacketHandler | rtmp_capture.py:78-166 | a frame without the layers, or with a known fingerprint, changes nothing; otherwise the fingerprint is added, the command step's record is appended, and exactly the new accepted URLs are added to the set and to the packet list in match order; the invariant is kept |
| Capture.CollectNewUrls | rtmp_capture.py:117-160 | the per-match loop adds to the seen set and to the packet list exactly the accepted URLs not seen before, once each, in order |
| Capture.RtmpCapture.RecordNewUrls | rtmp_capture.py:117-160 | the per-match loop adds each new accepted URL once, to both the URL set and the packet list, and keeps the one-record-per-URL shape |
| Capture.RtmpCapture.ParseRtmpCommands | rtmp_capture.py:168-291 | the binary-then-text release path and the publish path append exactly the record `ExtractCommand` yields, and nothing else changes |
| Capture.RtmpCapture.AppendStream | rtmp_capture.py:254 | appends one well-formed record and keeps the invariant |
| Capture.RtmpCapture.StartCapture | rtmp_capture.py:293-303 | while capturing nothing changes; otherwise capturing is switched on and the four collections are emptied |
| Capture.RtmpCapture.StopCapture | rtmp_capture.py:395-402 | capturing is off afterwards and the collections are kept |
| Capture.RtmpCapture.ClearResults | gui_interface.py:473-475 | the three result collections are emptied, the fingerprints and the flag kept |
| Capture.RtmpCapture.GetCapturedData | rtmp_capture.py:407-416 | copies of the lists, the URL set listed once each, and counts equal to the sizes; the URL count equals the packet count |
| ObsControl.ParseRtmpUrl | obs_controller.py:160-182 | an `rtmp://` URL with a `/` after the scheme is cut into server and key with `server + "/" + key` equal to the URL and no `/` in the key; anything else is `(url, "")` |
| ObsControl.ParseUnique | obs_controller.py:164-173 | any split into a scheme-prefixed server, `/` and a slash-free key is the one found |
| ObsControl.NormalizeStreamSettings | obs_controller.py:184-204 | the sent server always starts with `rtmp://`; the URL is split only when the given key is empty and the parsed key is not; otherwise the key passes through, a prefixed server is unchanged and an unprefixed one gets `rtmp://` in front |
| ObsControl.NormalizeStable | obs_controller.py:188-204 | normalising settings already sent (with a key) sends them again unchanged |
| ObsControl.IdentifyMessage | obs_controller.py:84-105 | the Identify has op 1 and rpcVersion 1, and carries authentication exactly when a password, a challenge and a salt are all present |
| ObsControl.RequestMessage | obs_controller.py:130-137 | the request has op 6, the command as `requestType`, the fixed request id, and the data or `{}` |
| ObsControl.SendKeepsOrder | obs_controller.py:73-146 | sending an Identify, or anything after an Identify, keeps every request behind an Identify |
| ObsControl.ObsController.constructor | obs_controller.py:19-28 | no socket, not connected, nothing sent |
| ObsControl.ObsController.Receive | obs_controller.py:77-78 | one read takes the next message; a closed connection gives none |
| ObsControl.ObsController.Identify | obs_controller.py:73-121 | succeeds exactly when there is a socket, the first message has op 0 and the second op 2; the Identify answering the Hello is sent only after a Hello; the messages read are consumed: none without a socket, one when it is not a Hello, up to two after a Hello |
| ObsControl.ObsController.ConnectWebsocket | obs_controller.py:56-71 | connected exactly when the socket opens and the handshake succeeds; the socket stays after a failed handshake |
| ObsControl.ObsController.SendCommand | obs_controller.py:123-146 | without a connection and a socket nothing is sent or read and the result is none; otherwise one op-6 request is sent and the next message is consumed and returned |
| ObsControl.ObsController.StartStreaming | obs_controller.py:148-150 | the connection is unchanged; when connected, exactly one `StartStream` request with `{}` is sent and the next message, if any, is consumed and returned; otherwise nothing is sent or read and the result is none |
| ObsControl.ObsController.StopStreaming | obs_controller.py:152-154 | the connection is unchanged; when connected, exactly one `StopStream` request with `{}` is sent and the next message, if any, is consumed and returned; otherwise nothing is sent or read and the result is none |
| ObsControl.ObsController.GetStreamStatus | obs_controller.py:156-158 | the connection is unchanged; when connected, exactly one `GetStreamStatus` request with `{}` is sent and the next message, if any, is consumed and returned; otherwise nothing is sent or read and the result is none |
| ObsControl.ObsController.SetStreamSettings | obs_controller.py:184-218 | the connection is unchanged; when connected, sends the normalised settings as an `rtmp_custom` service and returns the raw next message whatever its status; otherwise sends and reads nothing |
| ObsControl.ObsController.Disconnect | obs_controller.py:240-245 | not connected afterwards; the socket object and both message streams are untouched |
| GuiText.ShownLinesOfLines | gui_interface.py:364-365 | a box of clean lines shows exactly those lines |
| GuiText.FirstLineOfLines | gui_interface.py:663-676 | the first line read back from a box of clean lines is the first line put in |
| AutoApply.Tick | gui_interface.py:398-432 | a tick starts a worker, sets the flag and records the pair only when auto-apply is on, OBS is connected, nothing is in progress, both candidates exist and the pair differs from the last applied; otherwise nothing changes |
| AutoApply.Finish | gui_interface.py:437-458 | a truthy result records the worker's pair, a falsy one keeps the last pair, and the flag is cleared either way |
| AutoApply.ClearState | gui_interface.py:478-480 | both last-applied fields become none and the flag false |
| AutoApply.StepKeepsCoordinated | gui_interface.py:406-458 | ticks and finishes keep at most one worker, running exactly while the flag is set, with a pair different from the last applied one |
| AutoApply.NoPairAppliedTwiceInARow | gui_interface.py:425-441 | along any run without the clear button, the first pair recorded differs from the one before and no pair is recorded twice in a row |
| AutoApply.InitialCoordinated | gui_interface.py:31-33 | the start state is coordinated |
| AutoApply.ClearRearms | gui_interface.py:425-427 | after the clear button any pair found starts a worker again |
| AutoApply.ClearWhileApplyingStartsSecondWorker | gui_interface.py:406-480 | clearing while a worker runs lets a second worker start beside it |
| Gui.FirstServer | gui_interface.py:410-414 | the server candidate is the first URL holding `rtmp://`, and none exactly when no URL holds it |
| Gui.FirstStreamKey | gui_interface.py:417-422 | the key candidate is the first non-empty stream name starting with `stream-`, and none exactly when there is no such name |
| Gui.SelectServer | gui_interface.py:410-414 | the loop with its break finds the first server candidate |
| Gui.SelectStreamKey | gui_interface.py:417-422 | the loop with its break finds the first key candidate |
| Gui.AppendedShown | gui_interface.py:361-392 | appending clean lines to a box of clean lines shows the old lines and the new ones |
| Gui.ServerRefreshIdempotent | gui_interface.py:361-374 | refreshing the server box twice with the same URLs appends nothing the second time |
| Gui.StreamRefreshIdempotent | gui_interface.py:376-392 | refreshing the stream box twice with the same records appends nothing the second time |
| Gui.StreamNames | gui_interface.py:383-387 | collects exactly the non-empty `stream-` names of the records |
| Gui.AppendEach | gui_interface.py:371-374 | appends, one line each and each once, exactly the kept elements, after the existing text |
| Gui.ApplySelection | gui_interface.py:660-676 | nothing is sent when either box is blank; otherwise the first stripped line of each box |
| Gui.ApplySelectsFirstShown | gui_interface.py:663-676 | with boxes of clean lines, the manual apply sends the first server and stream name appended |
| Gui.ApplyRefusesEmptyBox | gui_interface.py:666-672 | with an empty box the manual apply sends nothing |
| Gui.CaptureGui.constructor | gui_interface.py:18-33 | a fresh capture, auto-apply on, nothing applied, nothing in progress, empty boxes |
| Gui.CaptureGui.CheckAutoApply | gui_interface.py:394-464 | the new state is one coordinator tick on the first candidates; a worker starts exactly under the tick's condition and never for the pair last applied |
| Gui.CaptureGui.FinishAutoApply | gui_interface.py:435-458 | the state is the coordinator's finish step for that worker |
| Gui.CaptureGui.ClearResults | gui_interface.py:466-485 | both boxes and the three result collections are emptied, the applied pair and flag reset, fingerprints kept |
| Gui.CaptureGui.UpdateServerInfo | gui_interface.py:361-374 | the old text is kept and each `rtmp://` URL not yet shown is appended once, nothing else |
| Gui.CaptureGui.UpdateStreamInfo | gui_interface.py:376-392 | the old text is kept and each `stream-` name not yet shown is appended once, nothing else |

## Left out

- Packet capture itself is not modelled: scapy sniffing, the raw-socket fallback (rtmp_capture.py:305-393), and the capture thread and its `join`. A frame reaches `PacketHandler` as a value.
- `Decode` models UTF-8 decoding with replacement only as far as the printable filter can tell. ASCII bytes stay, and everything else becomes a character the filter drops. The latin-1 and `str()` fallbacks can never be reached.
- The fingerprint string is kept as its five parts (`Capture.Fingerprint`). The text is determined by those parts and determines them.
- A record's `packet_size` is `len(packet)`, the size of the whole frame. The frame value carries that size as a number.
- The `timestamp` fields (`datetime.now()`) and the `protocol` field constant are left out of the records.
- The regular expressions are modelled as deterministic scanners. Each pattern's repeated classes are followed by a character outside the class, so backtracking cannot change a match.
- The exception handlers around `packet_handler` and `parse_rtmp_commands` are left out. Nothing in the modelled steps raises.
- The socket, JSON encoding, and the SHA-256/base64 computation of the authentication string are not modelled. The string is kept symbolic (`ObsControl.AuthProof`).
- ObsControl.ObsController.ConnectWebsocket: the host, port and URI string are not modelled. Whether the socket opens is a parameter.
- Process detection, enabling obs-websocket in the INI file, restarting OBS, the launcher, and the synchronous wrapper with its event loop are not part of this model.
- Threads and their races are not modelled. The auto-apply worker is a start step (`CheckAutoApply`) and a finish step (`FinishAutoApply`), and the display loop calls them in sequence.
- Gui.CaptureGui.FinishAutoApply: the truthiness of `set_stream_settings`' result is the boolean `applied`. An exception in the worker counts as `false`.
- Tk widgets, message boxes, the status label, logging and JSON export are left out.
- The boxes are modelled as their text only. Typing into a box by hand is not modelled. The refresh lemmas assume boxes of clean lines (non-empty, no whitespace), which is what the capture produces.
- Gui.CaptureGui.UpdateServerInfo and Gui.CaptureGui.UpdateStreamInfo: the source appends in set-iteration order. The contract fixes which lines are appended, each once, but not their order.
- Capture.RtmpCapture.GetCapturedData: `list(self.rtmp_urls)` has set-iteration order. The contract states which URLs are listed, but not their order.
