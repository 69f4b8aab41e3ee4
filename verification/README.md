# Verified model of opencode-beacon

opencode-beacon watches local coding-agent servers: it discovers them, keeps one task per
server that reads a server-sent event stream, and shows the sessions of all servers on one
dashboard. This project models the parts of it that carry state over time and proves what
they guarantee.

| files | what they model |
|---|---|
| `SseGrammar`, `SseFraming`, `SseDecoder`, `SseStream`, `FieldLaws` | the incremental event-stream decoder and the grammar of sections 9.2.5 and 9.2.6 of the WHATWG HTML Standard that it implements |
| `Journal` | the bounded journal of events kept while a snapshot is in flight |
| `Sessions`, `Aggregates` | session trees, their roots, and the work of a whole tree |
| `Matching`, `MatchingLaws` | the assignment of terminal clients (TUIs) to session roots as a function of sets, and its laws |
| `Locating`, `Matcher`, `MatchingRuns` | the lists, ranks, loops and maps that compute it, and what repeated calls do |
| `LocationLaws` | which TUIs a call attaches and what it says of the others, from their own fields |
| `Rows`, `Rebuild`, `Faces` | dashboard rows, the rebuild of the rows of a v2 server, and what they look like |
| `Clock`, `ClockRuns`, `Presence` | the busy clock of v1 rows, the redraw deadline, whole runs of the v1 dashboard, and which roots it shows |
| `Freezing` | the busy clock of v2 rows |
| `Lifecycle`, `Supervisor`, `SupervisorLaws` | the discovery supervisor, its server tasks and the reconnect protocol |
| `Discovery` | endpoint uniqueness and the merge of the two discovery backends |
| `Settling`, `Disconnects` | the discovery loop and its settling scans, and the loop together with the server tasks |
| `ClaudeLog`, `ClaudeTracking` | the reduction of Claude marker scans to events |
| `Memory`, `MemoryLaws` | the memory history window, its slope, and which control groups are tracked |
| `Attachment` | the TUIs kept across scans |
| `Ordering`, `Wrappers` | sorting, counting, and an option type |

Code that changes state step by step is a class or a method with loops, and its contract
ties the new state to a function or a relation of the old one; the properties are lemmas
about those. A run with several actors is a log: `Lifecycle`, `Settling` and `ClaudeLog` say
which logs are legal, the classes are proved to produce only legal logs under any
interleaving and any input, and the lemmas say what every legal log guarantees.

Conventions:

- Instants and durations are natural numbers of nanoseconds; a clock never runs backwards.
- Session ids, request ids, instance keys, endpoints, connection settings and paths are
  opaque values that are only compared. Sessions have unique ids and TUIs unique keys, which
  is what their producers deliver.
- UTF-8 and JSON decoding are arbitrary functions of the bytes (`SseGrammar.Codec`).
- The iteration order of hash maps is arbitrary; lists that the program sorts for display
  only are kept as maps or in any order.
- Files, processes, probes and timers are inputs: what they say is a parameter, when they
  fire is a nondeterministic choice.

Places where the program differs from its documentation, each stated by a lemma:

- `README.md:102-106` of the program promises that disconnected counters freeze. For v1 rows
  the absence is left out of the counter if and only if the root was busy when the
  connection was lost (`Clock.AbsenceLeftOutIff`). A v2 counter stays frozen if and only if
  the row is not rebuilt while the server is away (`Freezing.FrozenIffNotRebuilt`); the
  program rebuilds it at every sample of the attached terminals.
- One matching pass is not idempotent (`MatchingLaws.OnePassIsNotEnough`); it is exactly
  when no reciprocal match is left (`MatchingRuns.SecondCallIff`), and calls converge.
- "Newer" in the reconnect rule means a larger generation. The scan may have been in flight
  when the connection was lost (`docs/src/project/architecture.md:181-188`), and nothing more
  is claimed here.

## Model

| member | source | states |
|---|---|---|
| SseFraming.FrameEndFrom | src/client.rs:610-641 | The imperative scan, with or without the end-of-stream flag, finds the same frame as one pass of the line-ending automaton: the flag never changes the result. |
| SseFraming.ScanFindsFirst | src/client.rs:610-641 | What the scan returns is the first blank-line boundary of the buffer, and it returns nothing exactly when there is none. |
| SseFraming.ResumeEqualsRestart | src/client.rs:539-545 | Resuming at the remembered offset finds the same frame end as scanning the whole buffer, although the offset can lie inside a CR LF pair. |
| SseFraming.FruitlessScanIsSafe | src/client.rs:539-545 | After a fruitless scan the offset `len - 3` is safe whatever bytes arrive next. |
| SseFraming.ScanPersists | src/client.rs:540-565 | A frame end once found is not moved by bytes that arrive later. |
| SseFraming.LeadingEnding | src/client.rs:568-575 | The length of a leading line ending; a lone CR waits for its possible LF until the stream ends. |
| SseFraming.EarlyVerdictExact | src/client.rs:577-587 | An incomplete buffer is rejected if and only if no continuation gives a frame end at or below 1 MiB. |
| SseDecoder.ParseFrame | src/client.rs:643-665 | The field loop over a frame's re-split text computes the event that the standard's line interpretation gives, or the UTF-8 or JSON failure; the next rows say what that is. |
| FieldLaws.EveryLineSays | src/client.rs:647-660 | Every line is a comment or a field, whose value is what follows its colon and one optional space, and empty without a colon. |
| FieldLaws.FrameMeans | src/client.rs:643-665 | From the bytes alone: a frame gives the JSON value of its data fields joined by line feeds, unless the last of its event fields names something other than a message or there is no data; invalid UTF-8 and invalid JSON are failures. |
| FieldLaws.LinedSplits | src/client.rs:664 | Joining loses no value and runs none together: split at line feeds, the joined data are the values. |
| SseDecoder.FrameLinesOfGroup | src/client.rs:643-648 | Normalising and re-splitting a frame gives back exactly the lines of its group. |
| SseDecoder.DecodeAllMeetsReference | src/client.rs:528-665 | Frame-wise decoding of a whole buffer equals the reference grammar of lines and blank lines: every byte stream gives the same events, source byte counts and first failure. |
| FieldLaws.WrittenDelivered | src/client.rs:528-665 | Round trip: lines as a server writes them, ended by a blank line and within 1 MiB, are delivered first by the stream, as exactly one event with all their bytes, as nothing, or as the failure that they mean. |
| SseGrammar.SplitIsLossless | src/client.rs:610-641 | The reference's own split loses nothing: its lines, endings and unterminated tail put together are the input. |
| SseStream.Decoder.Feed | src/client.rs:241-242 | A chunk is appended and the resume offset stays safe. |
| SseStream.Decoder.StripEnding | src/client.rs:533-538 | A leading line ending leaves the buffer as a piece of its own and changes nothing that is delivered. |
| SseStream.Decoder.TakeFrame | src/client.rs:546-565 | One complete frame and its delimiter leave the buffer as one piece, which has no blank line inside; it is delivered, ignored or rejected as the reference says, and accounts for exactly its bytes. |
| SseStream.Decoder.DecodeNext | src/client.rs:528-566 | One call yields the next item of the reference for every continuation of the stream; pieces cut off so far and buffer are always the bytes received; without an item an unfinished frame within the limit is left. |
| SseStream.EventStream | src/client.rs:219-249 | Chunk independence: however the body is cut, the stream yields the reference's items for the concatenated bytes, then the transport failure if there was one and nothing failed before. Stripped endings, frames, delimiters and the remaining buffer put together are the input, the frames alone give the items, and an unterminated tail is dropped. |
| SseStream.DeliveredBounds | src/client.rs:540-565 | Every event accounts for at most 1 MiB + 3 bytes, only the last item can be a failure, and the events account for distinct bytes. |
| Journal.EventJournal.Push | src/monitor.rs:367-377 | Pushing one event after a permitted poll leaves the journal within its bounds. |
| Journal.EventJournal.Bootstrap | src/monitor.rs:1369-1410 | The buffered events are a prefix of the stream, never more than 1024 and fewer than 8 MiB + 1 MiB + 3 bytes; every poll takes the next one until the stream fails or the journal is full. |
| Journal.EventJournal.Drain | src/monitor.rs:1234-1275 | One poll takes an item and all those ready behind it, up to 1024, unless the stream fails or the journal is full; the journal stays equal to the state events consumed, and bounded. |
| Journal.EventJournal.Reconcile | src/monitor.rs:1210-1308 | For any timing of polls the journal is exactly the state events of the consumed prefix, within the same bounds, and nothing that the polls had ready is left behind while there is room. |
| Journal.KeptMeaning | src/monitor.rs:1234-1275 | Of the items consumed the journal holds all state events and nothing else, in their order. |
| Sessions.ResolveRoot | src/dashboard.rs:1327-1343 | The walk over parent links terminates on cyclic and missing parents and returns the root. |
| Sessions.RootMeaning | src/dashboard.rs:1327-1343 | The root is the parentless ancestor; a session whose links dangle or form a cycle has none and is its own root. |
| Sessions.RootIsIdempotent | src/dashboard.rs:1327-1343 | The root of a root is itself. |
| Sessions.TableIsOrderFree | src/dashboard.rs:1442-1445 | The session table does not depend on the order of the list. |
| Aggregates.AggregateRoots | src/dashboard.rs:1256-1293 | One aggregate for each root in id order; its request ids are the sorted, duplicate-free union over its tree. |
| Aggregates.AggregateV2Roots | src/dashboard.rs:1295-1325 | Each aggregate also counts the working sessions below its root, the root itself excluded. |
| Aggregates.AggregationConservesWork | src/dashboard.rs:1256-1325 | Busy aggregates plus the sum of the background counts equals the number of busy or retrying sessions. |
| Aggregates.AggregatesUnique | src/dashboard.rs:1256-1325 | The aggregates are determined by the set of sessions. |
| Matching.StagesAreSound | src/dashboard.rs:1474-1549 | After each of the four phases no TUI has two resolutions and no root two TUIs, and later phases keep what earlier ones decided. |
| Matching.PassIsInjective | src/dashboard.rs:1436-1567 | No two TUIs attach to one root, and every attached root is listed. |
| Locating.TuiLocationRoots | src/dashboard.rs:1711-1736 | The loop over the session list, sorted and freed of repeats, lists exactly the location roots of the session set. |
| LocationLaws.CandidatesAreLocated | src/dashboard.rs:1711-1742 | These are the roots of exactly the sessions whose directory or workspace is the TUI's working directory, its absolute startup directory, or its relative one taken from the working directory. |
| Locating.NewestByRank | src/dashboard.rs:1659-1706 | However the sort breaks ties, the comparison of the first two entries finds the root whose newest update is later than that of every other candidate, and finds none if there is no such root. |
| Locating.ResolveTuiFrom | src/dashboard.rs:1633-1709 | The resolution computed from the session list is the one defined on the session set. |
| Locating.CollectRoots | src/dashboard.rs:1446-1463 | The loop over the sessions collects all roots and the roots of working sessions. |
| MatchingLaws.OwnClaimDecides | src/dashboard.rs:1476-1502 | An explicit or continue claim is attached if it is alone on its root and refused with a hint otherwise; nothing else decides. |
| MatchingLaws.ExplicitOnly | src/dashboard.rs:1476-1502 | A TUI with an explicit session attaches to that session's root or to nothing. |
| MatchingLaws.StickyPersists | src/dashboard.rs:1504-1522 | The exact fate of a sticky pair: kept unless one command line claims its root or another sticky TUI wants it. |
| MatchingLaws.PassesConverge | src/dashboard.rs:1436-1567 | The order-free pass, fed its own attachments again and again, comes to rest after the number of TUIs + 1 rounds; the next rows carry this over to the calls and their sticky map. |
| MatchingRuns.CallsGrow | src/dashboard.rs:1436-1567 | A second call of the matcher on unchanged input keeps every attachment of the first, whatever else the sticky map holds. |
| MatchingRuns.AttachmentsSettle | src/dashboard.rs:1436-1567 | Over repeated calls on unchanged input the attachments are final after the number of TUIs + 1 calls. |
| MatchingRuns.CallsConverge | src/dashboard.rs:1436-1567 | One call later the whole outcome is final, hints of unattached TUIs included. |
| MatchingRuns.SecondCallIff | src/dashboard.rs:1436-1567 | A second call attaches more if and only if the first left a reciprocal match, by location or by activity. |
| MatchingLaws.OnePassIsNotEnough | src/dashboard.rs:1523-1549 | A concrete input on which a second pass attaches more than the first. |
| Matcher.TuiMatcher.ApplyClaims | src/dashboard.rs:1569-1594 | The counting loop attaches exactly the claims that are alone on a free root, and updates entries, used roots and sticky map alike. |
| Matcher.TuiMatcher.CollectOwnClaims | src/dashboard.rs:1475-1495 | The first loop lists the claims of the command lines and resolves TUIs whose session is not listed. |
| Matcher.TuiMatcher.CollectStickyClaims | src/dashboard.rs:1504-1515 | The sticky claims of unresolved TUIs whose root is still listed. |
| Matcher.TuiMatcher.ApplyReciprocalClaims | src/dashboard.rs:1596-1631 | Counting roots over the candidate lists attaches exactly the mutually unique pairs. |
| Matcher.TuiMatcher.Conclude | src/dashboard.rs:1551-1566 | What is left over is demoted to a hint and loses its sticky entry. |
| Matcher.TuiMatcher.ResolveTuis | src/dashboard.rs:1436-1567 | The whole pass over lists, index loops and mutable maps computes the order-free pass; afterwards a listed TUI has sticky entry r if and only if it is attached to r, and other instances' entries are untouched. |
| Matcher.OrderDoesNotMatter | src/dashboard.rs:1436-1736 | Permuting TUIs or sessions changes neither a resolution nor the sticky map, for the pass that collects, sorts, ranks and counts over lists. |
| LocationLaws.LocatedAttaches | src/dashboard.rs:1523-1535 | A TUI that names and asks for nothing attaches to the only root at its place, unless another TUI lies there, names the root or held it before. |
| LocationLaws.WorkingAttaches | src/dashboard.rs:1536-1549 | With several roots at its place it attaches to the only working one under the same conditions. |
| LocationLaws.AttachedLies | src/dashboard.rs:1523-1549 | And it attaches to nothing that is not at its place. |
| LocationLaws.AttachedOnlyIf | src/dashboard.rs:1523-1549 | And only without a choice: every other root at its place is held by somebody, or every other one at work if this one works, and no TUI that is left unattached has this root at its place. |
| LocationLaws.UnattachedIsTold | src/dashboard.rs:1551-1566 | If it stays unattached, the outcome says whether it has no root at its place, one that is contested, or several, then with a hint to the only working one or else to the one updated strictly last. |
| LocationLaws.ContinueAttaches | src/dashboard.rs:1676-1684 | A TUI that continues attaches to its only candidate, or to the one updated strictly last, unless another command line asks for it, whatever the sticky entries say. |
| LocationLaws.CallFollows | src/dashboard.rs:1436-1567 | The five rows above for any TUI of any call of the matcher. |
| LocationLaws.LoneTui | src/dashboard.rs:1436-1567 | A call for one TUI that asks for nothing attaches it to a root if and only if the root is the only one at its place, or the only one at work there; otherwise it is told what there is. |
| MatchingRuns.StickyTells | src/dashboard.rs:1551-1566 | After a call a listed TUI has a sticky entry if and only if it was attached, and for that root. |
| MatchingRuns.StickyElsewhere | src/dashboard.rs:1450 | Entries of other instances are untouched; those of unlisted TUIs go if and only if their root is not listed any more. |
| Rebuild.V2Dashboard.TakeRows | src/dashboard.rs:623-629 | The instance's rows are taken out of the list and indexed by key; other rows keep their order. |
| Rebuild.V2Dashboard.AttachRows | src/dashboard.rs:644-681 | The loop over the resolutions; the branches for a root without aggregate and for a root attached twice cannot be reached. |
| Rebuild.V2Dashboard.AddHeadless | src/dashboard.rs:682-708 | A headless row for each root with work that no TUI shows. |
| Rebuild.V2Dashboard.RebuildV2Rows | src/dashboard.rs:622-743 | The new rows are the attached, the headless and the unresolved ones of the current sessions and TUIs; without a projection the rows just go. |
| Rebuild.WorkIsCovered | src/dashboard.rs:622-743 | Every root that is attached or has work below it has exactly one row, no other session has one, and the row count is the number of TUIs plus the unattached active roots. |
| Rebuild.RowsTell | src/dashboard.rs:646-742 | Each row shows the foreground and background work and the requests of its root and the TUI attached to it, or a TUI that is attached to nothing. |
| Faces.AttachedShown | src/dashboard.rs:646-681 | Each attached TUI has a row with title, work, background count, requests and stale mark as reported of its root and of the TUI, which occurs as what is pending, or as ready if nothing works. A root that had a row keeps its marks and its count; one new on display counts since it was last seen idle, or else from now. |
| Faces.HeadlessShown | src/dashboard.rs:682-708 | So has each root with work in its tree that no TUI shows, marked as headless. |
| Faces.WaitingShown | src/dashboard.rs:709-742 | Each other TUI has a row with its place, its hint and its kind, which never counts and never calls for attention. |
| Faces.WaitingTells | src/dashboard.rs:709-742 | What that row says, from the sessions and the TUI alone. |
| Faces.OthersStay | src/dashboard.rs:623-629 | The rows of other instances stay and those of the instance go, row by row, in their order. |
| Faces.PreviousFound | src/dashboard.rs:623-629 | The row that the instance had for an id is the one that is brought up to date. |
| Rebuild.V2Dashboard.Disconnect | src/dashboard.rs:272-277 | The instance's rows take the loss, stale mark and frozen counter; all other rows stay. |
| Rebuild.V2Dashboard.Connect | src/dashboard.rs:266-271 | The instance's rows lose the stale mark and nothing else. |
| Rebuild.RebuildMeets | src/dashboard.rs:686-700 | A working root keeps its row through a rebuild, connected or not, and the row's clock meets the report of its aggregate without regard to the connection. |
| Freezing.ElapsedIsRunTime | src/dashboard.rs:186-202 | Over any history of losses, returns and rebuilds of a busy v2 row its counter grows by exactly the time during which it runs: not from a loss up to the next rebuild. |
| Freezing.FrozenIffNotRebuilt | src/dashboard.rs:355-363 | A v2 counter that ran when the connection was lost still shows that count if and only if no rebuild happened strictly before; from the first rebuild on it runs although the server is away. |
| Freezing.FreezeFails | src/dashboard.rs:697-700 | A concrete loss and rebuild after which a stale row counts on. |
| Rows.UpdateRow | src/dashboard.rs:1345-1384 | At every later instant: a frozen counter shows its frozen count plus the time since the report, a running one what it would have shown, one that turns busy the time since it was last seen idle, or else since now; a dismissal outlives only a report that finds the root idle with the same occurrence. |
| Clock.ElapsedIsLiveTime | src/dashboard.rs:186-202 | Within a busy period the counter grows by wall time less every span from a disconnect to the next report, and resuming never fails. |
| Clock.AbsenceLeftOutIff | src/dashboard.rs:1363-1378 | An absence of the server, with any number of returns before the next busy report, is left out of the counter if and only if the root was busy when the connection was lost; an idle one counts on from its last idle sighting. |
| ClockRuns.Follow | src/dashboard.rs:266-278 | Over any run of reports, losses and returns of any servers, the row of a session that stays a root goes through exactly the history that the steps of its own server make, each report with what it says of that root. |
| ClockRuns.RunShowsLiveTime | src/dashboard.rs:437-454 | So at every later instant such a row that stays busy shows its count at the start plus the time that does not lie between a disconnect and the next report. |
| Clock.RunningRowExact | src/dashboard.rs:1147-1156 | A running row shows the same minutes up to its deadline and others at it. |
| Clock.V1Dashboard.SetStale | src/dashboard.rs:745-756 | Every row of the instance is marked, and a running counter freezes when the mark is set. |
| Clock.V1Dashboard.Disconnect | src/dashboard.rs:272-277 | Running counters of the instance freeze; other rows are untouched. |
| Clock.V1Dashboard.Connect | src/dashboard.rs:266-271 | The stale mark goes, the counters stay frozen. |
| Clock.V1Dashboard.ApplyReady | src/dashboard.rs:457-511 | A ready attention makes a row that was there, or whose session is listed, idle since now, undismissed and ready under a new generation unless a question or a permission is pending; otherwise it waits for the next report. |
| Clock.V1Dashboard.ApplyProjection | src/dashboard.rs:401-454 | What a report makes of the row and the idle sighting of every key: vanished roots go, the others follow their aggregate, the stale mark is cleared; an attention waiting for a listed session is delivered and waits no longer, any other keeps waiting. |
| Presence.ReportShows | src/dashboard.rs:418-436 | From the sessions alone: after a report a root has a row if and only if it had one, works or retries, or a question or permission is pending in its tree; the row has the session's title, calls for the question, else for the permission, and is ready if nothing works; a dismissal lasts while the idle root calls for the same; a new row counts since the last idle sighting, or else from now. |
| Presence.ReportSights | src/dashboard.rs:419-421 | The report is an idle sighting of every root that does not work, and of no other. |
| Presence.ReportForgets | src/dashboard.rs:406-417 | A session that is no root any more has neither row nor sighting, and rows of other servers stay as they were. |
| Presence.ReportDelivers | src/dashboard.rs:444-453 | A waiting attention of a listed session makes its row ready, with what is pending in its tree. |
| Clock.V1Dashboard.NextRedraw | src/dashboard.rs:1133-1158 | No minutes on display change before the returned instant, and some do at it. |
| Lifecycle.LegalIsSane | src/monitor.rs:739-834 | At every point of the log at most one server is open at an endpoint. |
| Lifecycle.Bracketed | src/monitor.rs:739-846 | Whatever is said of a server is said between its discovery and its removal, and it is not found again before it was removed. |
| Lifecycle.EndpointsDoNotOverlap | src/monitor.rs:786-806 | While a server is open no other is found at its endpoint. |
| Lifecycle.ConsumersMirror | src/dashboard.rs:251-265 | Replaying the log gives endpoint maps, of the dashboard with its writes on discoveries and projections and of the attachment sampler, that hold exactly the open servers. |
| Lifecycle.SpeakerIsPlaced | src/dashboard.rs:367-374 | Every projection, loss and removal finds its sender at its endpoint and every discovery finds a free one, so no projection ever evicts another instance. |
| Lifecycle.ReconnectSafe | src/monitor.rs:1043-1106 | Between a disconnect and the next attempt the task was told of a scan newer than the one recorded; that scan found its key, and it is the last one told. |
| Lifecycle.GenerationsGrow | src/monitor.rs:888-904 | A task never hears of an older scan after a newer one. |
| Supervisor.Supervisor.Send | src/monitor.rs:320-340 | An event is appended unless the monitor is stopped. |
| Supervisor.TasksDoWhatIsAllowed | src/monitor.rs:986-1106 | The steps of the server tasks are exactly the task events that a legal log allows. |
| Supervisor.Supervisor.TaskStep | src/monitor.rs:986-1106 | One step of a server task keeps the log legal: it speaks, drops, or reconnects once a newer scan named its server. |
| Supervisor.Supervisor.Interfere | src/monitor.rs:1027-1074 | Any number of steps of any tasks, in any order, keep the log legal and leave the entries alone. |
| Supervisor.Supervisor.RemoveServer | src/monitor.rs:759-766 | Cancel and join come before the removal is announced, so no event of the task follows it. |
| Supervisor.Supervisor.CountMisses | src/monitor.rs:768-784 | Misses are reset, counted, or left alone while the backend is incomplete; a managed server is gone at once. |
| Supervisor.Supervisor.AdmitServer | src/monitor.rs:786-834 | A listed server enters if its key and endpoint are free and its settings are known. |
| Supervisor.Supervisor.Publish | src/monitor.rs:888-904 | Every running task hears of the scan and whether it found the task's server; then the scan counts as completed. |
| Supervisor.Supervisor.DiscoverOnce | src/monitor.rs:682-853 | Under any interference a completed scan leaves the entries that the pass demands and every task told, and has announced every diagnostic and the removal of every server that went or whose settings changed; a failed scan changes and publishes nothing but a diagnostic; an early stop leaves a legal log. |
| Supervisor.Supervisor.Run | src/monitor.rs:554-678 | Every scan is made and followed by its pass unless the monitor stops: a failed one is reported and changes nothing, and whoever goes is announced; the log is legal over the whole run. |
| SupervisorLaws.CompletePass | src/monitor.rs:733-846 | After a complete scan every server found is active with the settings found, and each other one has one miss more. |
| SupervisorLaws.MissedOnce | src/monitor.rs:768-784 | A server whose backend was scanned and did not find it, its endpoint uncontested, stays if and only if it is a procfs server without a miss, and then has one. |
| SupervisorLaws.MissedTwice | src/monitor.rs:768-846 | A procfs server goes exactly at the second complete scan in a row that does not find it. |
| SupervisorLaws.TwoScansConverge | src/monitor.rs:733-846 | From any state two complete scans in a row that find the same servers leave exactly those active. |
| SupervisorLaws.RunConverges | src/monitor.rs:554-853 | Over a run, whatever it started with: while the scans that succeed find the same servers, exactly those are active as soon as two have succeeded, and they stay so; scans that fail in between do no harm. |
| SupervisorLaws.IncompleteBackendIsolated | src/monitor.rs:739-784 | A server of a backend that could not be scanned keeps its entry, and goes if and only if a managed server takes its endpoint. |
| SupervisorLaws.FoundStays | src/monitor.rs:739-784 | A server found again with unchanged settings and an uncontested endpoint stays, its misses forgotten. |
| Discovery.RetainUniqueEndpoints | src/discovery.rs:657-677 | Exactly the servers whose endpoint occurs once are kept, in the order of their endpoints, with one diagnostic for each endpoint that occurs more often. |
| Discovery.ReportBackend | src/discovery.rs:333-370 | A backend reports exactly the probed servers with an unshared endpoint, each with its own settings, and one diagnostic for each shared endpoint. |
| Discovery.MergeBackendReports | src/monitor.rs:466-524 | Managed servers shadow procfs servers at their endpoint; the merged report has unique keys and endpoints, settings for every server and all diagnostics, and names the backend that failed. |
| Settling.SettlingIsBounded | src/monitor.rs:618-634 | Settling timers start at most three scans for each scan that saw a change. |
| Settling.RequestsAreServed | src/monitor.rs:578-676 | Whenever the loop blocks, every request and every mismatch of the gate before it was followed by the start of a full scan. |
| Settling.DiscoveryLoop.BeginScan | src/monitor.rs:579-601 | A scan takes note of all that is due, and the log grows by exactly the mismatch of the gate, the timer that ran out and the start; an elapsed timer counts as used, any other stays armed. |
| Settling.DiscoveryLoop.EndScan | src/monitor.rs:612-637 | A change arms the first settling scan: a fingerprint other than the last one, a first one that is not empty, or a gate that had changed; otherwise the next timer after the one that ran out is armed. |
| Settling.DiscoveryLoop.WaitTurn | src/monitor.rs:639-673 | The full interval, an unreadable gate or one that differs, each request and a settling timer that runs out all lead to a full scan; the log grows by exactly the blocking, which happens only when no scan is owed and nothing is due, the requests that arrive and what ends the wait. |
| Settling.DiscoveryLoop.Run | src/monitor.rs:554-678 | Turn by turn until one ends it: a pending scan is made and its result becomes the baseline; otherwise the loop blocks unless something is due, and what ends the wait decides whether a scan follows. The log only grows, is legal, and no settling scan is lost. |
| Disconnects.DisconnectsAreScanned | src/monitor.rs:879-886 | In any interleaving of the server tasks with the discovery loop, a full scan starts after every disconnect before the loop blocks again. |
| Disconnects.PartsAreLegal | src/monitor.rs:1041-1046 | In such an interleaving the tasks' log and the loop's log are legal, so all their laws hold together. |
| ClaudeLog.PidsAreUnique | src/claude.rs:351-373 | At every point of the log no two live sessions share a process id. |
| ClaudeLog.Alternates | src/claude.rs:369-461 | Found and Removed alternate for each key, and other events speak of a live session under its current session id. |
| ClaudeLog.ReadyMeansWorkDone | src/claude.rs:425-440 | A ready notice is given exactly when a session turns idle and its last known status in this incarnation was busy or waiting. |
| ClaudeTracking.Discover | src/claude.rs:100-128 | The first marker of each process id counts, and more than 1024 entries are an error. |
| ClaudeTracking.CollectedPids | src/claude.rs:109-124 | No two collected sessions share a process id. |
| ClaudeTracking.ClaudeTracker.Observe | src/claude.rs:392-462 | One observation makes the entry that the history demands; if the session is on the screen with another status, the change is announced with both, and a ready notice if and only if it is idle now and the last status known in this incarnation was busy or waiting; if it is on the screen as observed, nothing is said. |
| ClaudeTracking.ClaudeTracker.Transit | src/claude.rs:424-441 | A change of status arms or disarms the session and gives the notice that is due. |
| ClaudeTracking.ClaudeTracker.ApplySuccess | src/claude.rs:345-465 | A scan determines every entry: taken-over process ids and second misses go, sessions missed once turn stale, observed ones are fresh; every change of status it finds is announced, with its ready notice, and no other; replaying the log gives the same sessions, statuses and stale marks. |
| ClaudeTracking.ClaudeTracker.ApplyFailure | src/claude.rs:467-482 | A failure turns everything stale and counts no miss. |
| ClaudeTracking.ClaudeTracker.Run | src/claude.rs:339-483 | Any mix of scans and failures keeps the log legal and in agreement with the entries; each scan announces exactly the changes of status that it finds on the screen before it, each with the ready notice that is due. |
| Memory.PruneHistory | src/memory.rs:418-425 | The loop drops the samples that fell out of the window. |
| Memory.PrunedMeaning | src/memory.rs:418-425 | Pruning keeps exactly the samples of the last two hours. |
| Memory.CapSuffices | src/memory.rs:10-12 | Samples ten seconds apart within the window are never more than 721. |
| Memory.Append | src/memory.rs:191-212 | With samples ten seconds apart the cap removes nothing: the history is the pruned one plus the new sample. |
| Memory.SlopeFits | src/memory.rs:412-415 | No slope of 64-bit amounts leaves the 64-bit range, so the clamp never takes effect. |
| Memory.SlopeIsRate | src/memory.rs:409-415 | The slope times the whole seconds between the two samples is sixty times the change in bytes, short of a rest smaller than the seconds. |
| Memory.Slope | src/memory.rs:402-416 | The change per minute, truncated toward zero, since the newest sample at least half an hour old; none if there is no such sample. |
| Memory.CgroupMemorySampler.Register | src/memory.rs:117-142 | Registering sets the target of this instance alone, keeps the tracked groups equal to the referenced ones and touches no history. |
| Memory.CgroupMemorySampler.Remove | src/memory.rs:144-147 | So does removing an instance. |
| Memory.CgroupMemorySampler.ResolveAll | src/memory.rs:159-188 | Each instance is resolved anew, or keeps its last group. |
| Memory.CgroupMemorySampler.SampleGroups | src/memory.rs:188-213 | Exactly the groups in which an instance was found are sampled, and tracked groups equal referenced groups. |
| Memory.CgroupMemorySampler.SampleAll | src/memory.rs:158-262 | Every instance has a view; it is fresh only if this very call resolved and confirmed its group, names that group and shows the amount read at its path; its slope is that of the window. |
| MemoryLaws.FreshIff | src/memory.rs:188-262 | A view is fresh if and only if its instance was found in this call, and in its group an instance was found again where the group is read and the amount could be read; then it shows that amount. |
| MemoryLaws.GroupIsFresh | src/memory.rs:188-262 | If the instances of a group agree on its place, one of them is still there and the amount can be read, each of them has a fresh view of it. |
| MemoryLaws.GroupKept | src/memory.rs:190-213 | A readable group gets the amount, a sample of it and the larger peak; any other keeps what was known. |
| MemoryLaws.SamplesKept | src/memory.rs:180-213 | A group in which an instance was found keeps exactly the samples of the last two hours and the one just read; the samples of any other group stay as they are. |
| MemoryLaws.TargetRemembered | src/memory.rs:159-178 | An instance keeps its first known start time and the last group in which it was found. |
| MemoryLaws.ViewIsShared | src/memory.rs:216-231 | A view is marked as shared if and only if another instance is in the same group. |
| Attachment.AttachmentSampler.Observe | src/attachment.rs:137-174 | Over any legal sequence of events the targets are the endpoints of the open v2 servers, and every TUI kept belongs to one of them; exactly the TUIs of removed servers go. |
| Attachment.AttachmentSampler.ApplySuccess | src/attachment.rs:204-224 | A TUI found is fresh without misses, one that had no miss stays, stale and with one, any other not found goes; all that is listed belongs to open v2 servers. |
| Attachment.AttachmentSampler.ApplyFailure | src/attachment.rs:226-236 | A failed scan marks everything stale and gives nothing up. |

## Left out

- The byte order mark at the start of a stream, which the standard strips and the decoder does not.
- An `event:` field with an empty value: the standard treats it as a message, the decoder ignores the frame; the reference here follows the decoder.
- Other stream fields (`id`, `retry`), which the decoder ignores, and what the events mean once decoded.
- 32- and 64-bit wrap-around of generations, counters and ready generations, and saturation of miss counters: they are unbounded here; only the slope arithmetic of `Memory` is bounded.
- The session reducer, snapshots, reconciliation and attention events of a connection: a connected task just says something.
- Reconnect backoff and all delays: a timer may run out at any time.
- A task that has ended is a task that takes no further step.
- Rebuild.V2Dashboard.RebuildV2Rows: does not model the key collision of a session id that reads like `PID n`; such rows have ids of their own here, and the text of an unresolved row is its location and hint, not the formatted string.
- The loop of `apply_attachments` over all v2 servers and its removal of sticky entries of TUIs that are gone; the rebuild of one server is modelled.
- The v2 branch of `apply_projection`, whose only work besides the rebuild is to note idle sightings.
- Claude rows on the dashboard, focus targets, selection, dismissal keys, row order and everything that is drawn.
- Clock.V1Dashboard.ApplyProjection: does not model the order of rows; the rows are a map from instance and session.
- Discovery.ReportBackend: starts from the probe results; scanning procfs, reading registrations and probing are inputs, and so is the uniqueness of the keys they deliver.
- Discovery.MergeBackendReports: does not merge the listener fingerprints, and diagnostics are only counted.
- ClaudeTracking.Discover: does not sort the sessions by process id at the end; the outcome of a scan does not depend on their order.
- Memory.CgroupMemorySampler.SampleAll: of the memory values only the current amount is modelled.
- Attachment.AttachmentSampler.ApplySuccess: the list it returns is in no particular order; that a scan only reports TUIs connected to a target it was given is what the scan promises.
- Attachment.AttachmentSampler.Observe: does not model the v1 and Claude targets, which only serve focusing.
- Supervisor.Supervisor.Run: a shutdown in the middle of a blocked send is a send that fails.
