# clipall: a model of its core and what holds of it

clipall copies clipboard events between machines. Every node runs one event loop, remembers
recent events in two small bounded memories, sends through retrying senders, and transfers
files only when they are pasted. This project models those parts and proves what they keep.

| module | what it models |
|---|---|
| `Loop` | the event-ID ring and the echo buffer (`loop.go`) |
| `Node` | the event loop of one node, branch by branch (`node.go`) |
| `Accounting` | a node together with the history of its clipboard; loop prevention as a balance |
| `Network` | any number of nodes, their queues and connections; termination of propagation |
| `Cluster` | nodes, senders and byte streams together, which refine that network |
| `Mailbox` | the one-slot channel between the event loop and the paste handler (`node.go`) |
| `Peer` | the retrying sender as an interleaved step system (`peer.go`) |
| `Protocol` | the wire format, the decoder and the connection loop (`protocol.go`, `node.go`) |
| `HDrop` | the Windows file list and its UTF-16 (`hdrop.go`) |
| `FileSource` | creating and serving file offers (`file_sync.go`) |
| `OfferPath` | the checks on received offers, against lexical path cleaning (`file_sync.go`) |
| `Reporting` | the numbers given to the progress callback (`file_sync.go`) |
| `Staging` | receiving files into the staging directory (`file_sync.go`) |
| `StagingRuns` | whole runs of that: what they lose, and where something is staged (`file_sync.go`) |
| `Transfer` | the two ends of one file transfer (`file_sync.go`) |
| `MacDownload` | the state behind the lazy pasteboard (`clipboard_files_darwin.go`) |
| `MacPlacement` | finding conflict-free names for downloaded items (`clipboard_files_darwin.go`) |
| `MacMoves` | moving the items to those names (`clipboard_files_darwin.go`) |
| `MacCollisions` | which items can be lost, whatever the folder holds (`clipboard_files_darwin.go`) |
| `MacPaste` | a download, from the offer to the folder (`clipboard_files_darwin.go`) |
| `PasteHandler` | the paste loop on Windows (`clipboard_files_windows.go`) |
| `Wrappers`, `Bytes` | optional values and results; fixed-width integers and big-endian digits |

Objects that the program updates in place are classes. Their methods are proved equal to a
step function on values, and the theorems are about arbitrary runs of the step functions.

The main results, in the order in which they build on each other:

1. `Accounting.NoAmplification`: no content is announced more often than it was copied plus
   as often as one of its echo markers was lost, whatever the clock, the network, the user and
   the clipboard watcher do. A marker can expire, be evicted, or be used up by a user who copies
   the same content, so "echoes are ignored" is not true of the code; this balance is.
   `Node.OwnWriteIsSilent` has the case in which the echo is ignored for certain.
2. `Network.PropagationTerminates`: in every run of every network the number of propagation
   steps is bounded by copies, lost markers and failed writes. `Cluster.IsNetwork` runs the nodes,
   the senders of `peer.go` and their byte streams together and maps every such run to a run of
   that network, so that `Cluster.NeverAmplifies` and `Cluster.FallsSilent` hold of the whole system;
   `Cluster.BusyGoesOn` says that it does not fall silent early.
3. `Peer.EndToEnd`: over all reconnects, the receiver decodes the accepted messages in order
   with consecutive repeats only. It combines the sender's invariants with
   `Protocol.StreamDecodes`; `Node.AtMostOnce` says what such repeats do to the receiver.
4. `FileSource.ServedAsWalked`, `Node.ServedAsAnnounced` and `Transfer.InstalledAsServed`: what a
   receiver installs for an entry is the file that the source found and announced under it.
5. `Staging.Stager.Receive` ties the loop over an offer to the run it takes; `StagingRuns` is about
   arbitrary runs, `StagingRuns.EntryOutcome` about their steps, and `MacPaste.ReceiveAndPlace`
   combines them with `MacMoves.PlaceMacDownloadedPaths`.
6. `MacDownload.RequestsAnswered`, `MacDownload.RequestsDownload` and `PasteHandler.PublicationsStem`
   say from the events of a run alone what is downloaded, answered and published;
   `MacDownload.NoStaleResult` and `PasteHandler.SupersededNeverPublished` what never is.
7. `Protocol.MixedStreamDecodes`, `HDrop.AnyBytes`, `HDrop.AnyLayout`, `OfferPath.OffersAccepted` and
   `Mailbox.NothingElseGetsLost` are the main results of the other parts.

Each step function has a lemma beside it that gives the outcome of a step in the program's own
terms, with its literal constants: `Node.WatchOutcome`, `Node.SelectOutcome`, `Node.ReceiveOutcome`,
`Peer.NextIsSent`, `MacDownload.RequestsDownload`, `PasteHandler.ResultsPublish`,
`PasteHandler.OthersDoNot`, `StagingRuns.EntryOutcome` and `MacMoves.MoveEffectWhen`.

Where the code falls short of a property as one would first state it, the condition is exact:

- `Node.TimestampIsLater`: local timestamps increase exactly until int64 is exhausted.
- `HDrop.RoundTrip`: encoding accepts lists that decoding refuses, exactly those of more than 4096 paths.
- `Reporting.ProgressIff`: the reports of a run are monotone and within the announced total exactly
  when the bytes completed outgrew neither an int64 nor that total. `StagingRuns.TotalOverflows` is
  an accepted offer whose total is announced as a negative number, so that already the report of 0
  is beyond it. When the sizes fit, all is well (`Reporting.ProgressIffFits`).
- `StagingRuns.RunsKeepStagedIff`: for an offer in which no file is also a directory, no run loses
  what was complete or what it completed, if and only if files at one path have one size and no
  file has the path of another plus ".part". `StagingRuns.FetchesKeepStagedIff` says the same of
  single fetches, for every offer. `StagingRuns.AcceptedYetLost` gives two offers that validation
  accepts and that lose a file.
- `StagingRuns.RootsStaged`: after a success something exists at every returned root that has an
  entry, and, from an empty staging directory, at no other. `StagingRuns.RootWithoutEntry` gives accepted
  offers with a root that has no entry, and with a root listed twice.
- `MacCollisions.AccountedAnywhereIff`: for items with different names that are not in the folder
  yet, every item is where the returned list says, in any folder and however the moves go, if and
  only if none is named like the temporary copy of a name that a later item can get.
  `MacMoves.AccountedIff` is the same for given targets, and `MacMoves.TemporaryNameLoses` gives
  names that an accepted offer may have and that lose an item.
- `MacMoves.PlaceMacDownloadedPaths`: a staged path at which nothing exists stops the placement;
  what did exist is still where the list says, unless the items are in the destination folder
  already. `MacPaste.ReceivedIsPlaceable` has the offers for which everything exists: the roots are
  distinct, each has an entry, and none ends like a temporary copy.
- `PasteHandler.SupersededNeverPublished`: for a list of received offers, no run publishes the
  result of a superseded one if and only if their IDs are pairwise distinct.
  `PasteHandler.SupersededPublished` gives the run for any list with a repeated ID. On macOS the
  generations of `MacDownload.NoStaleResult` exclude this even for repeated IDs.

Modelling choices:

- xxhash is any function of the bytes; nothing depends on it being injective. Time is a parameter.
- The clipboard watcher reports user copies and remote writes at most once each and may coalesce
  them. After a remote write it reports what the clipboard then holds, which may differ from what was
  received; a clipboard that cannot be read back is taken to hold the content the event names. A
  notification that does not match an outstanding remote write counts as a user copy.
- Sources, payloads and streams are byte sequences; Go's string conversions are the identity on them.
- Upper- and lower-casing map characters one by one, by any function (which keeps digits, where names are compared).
- Paths use "/" and file systems are case-sensitive.
- Whatever the outside answers (dials, writes, disk operations, the clipboard, JSON) is an input,
  so every theorem is for all answers.

## Model

| member | source | states |
|---|---|---|
| `Loop.RingBuffer.Add` | loop.go:24-30 | writing one slot appends the ID to the history of adds |
| `Loop.RingBuffer.Contains` | loop.go:33-44 | the scan of the slots answers whether the ID is among the last min(k, 32) of k adds |
| `Loop.RecentHolds` | loop.go:11-30 | an ID is remembered until 32 more were added |
| `Loop.EchoBuffer.Add` | loop.go:62-75 | the marker is appended; the oldest is forgotten when 32 are stored |
| `Loop.EchoBuffer.Consume` | loop.go:79-96 | the in-place compaction drops all expired markers, removes and returns the oldest live match and keeps the rest in order |
| `Loop.TakeEchoMeans` | loop.go:79-96 | a notification is recognised exactly when a live marker of its type and hash is stored, and that marker is the one returned |
| `Loop.TakeEchoSnoc` | loop.go:83-93 | examining one more entry in the loop extends the functional result |
| `Loop.EveryMarkerOnce` | loop.go:62-96 | over any run each added marker is stored, returned or lost, exactly as often as it was added |
| `Loop.ExpiredIsPrefix` | loop.go:46-96 | under a clock that never runs back the buffer is sorted by expiry and its expired entries are a prefix |
| `Protocol.Encode` | protocol.go:48-69 | succeeds exactly within both size limits (1024 bytes, 10 MiB), yields the frame, and reports an oversized source first |
| `Protocol.PutHeader` | protocol.go:59-64 | the header fields sit at their offsets, numbers big-endian |
| `Protocol.WireLayout` | protocol.go:56-68 | the frame, byte by byte: 2, the type, eight bytes of content ID, eight of the timestamp as a two's complement, two and four of lengths, source, payload |
| `Bytes.FirstByteCountsMost` | protocol.go:61-64 | numbers are written with the most significant byte first |
| `Protocol.Decode` | protocol.go:74-142 | reads step by step what the parse of the remaining bytes says, and consumes exactly the frame |
| `Protocol.RoundTrip` | protocol.go:48-142 | a frame followed by any bytes decodes to its message as version 2, consuming exactly the frame |
| `Protocol.StrictPrefixFails` | protocol.go:76-131 | no strict prefix of a frame decodes |
| `Protocol.PrefixFree` | protocol.go:48-142 | when one frame is a prefix of another, their messages agree up to the version field |
| `Protocol.Canonical` | protocol.go:56-68 | accepted version 2 bytes are the one frame of their message, for negative timestamps too |
| `Protocol.LegacyUpgrade` | protocol.go:92-141 | an accepted version 1 message has no source and no timestamp and survives re-encoding unchanged otherwise |
| `Protocol.LegacyRoundTrip` | protocol.go:98-141 | every version 1 frame (1, a known type, eight bytes of ID, four of length, at most 10 MiB of payload), followed by any bytes, decodes to its message and consumes exactly 14 bytes and the payload |
| `Protocol.LegacyCanonical` | protocol.go:98-141 | and accepted version 1 bytes are the one such frame of their message |
| `Protocol.ParseIsLocal` | protocol.go:74-142 | the result does not depend on what follows the consumed bytes |
| `Protocol.ParseNeedsAll` | protocol.go:76-131 | every consumed byte is needed, also for version 1 |
| `Protocol.StreamDecodes` | protocol.go:74-142 | frames followed by a cut frame decode to exactly the messages of the frames, then to an error |
| `Protocol.MixedStreamDecodes` | protocol.go:74-142 | a stream of frames of both versions, cut off inside one, decodes to exactly the messages, then to an error |
| `Protocol.UniquelyDecodable` | protocol.go:48-142 | equal streams carry equal messages |
| `Protocol.PrefixOfStream` | protocol.go:74-142 | whatever part of a stream has arrived is complete frames followed by a cut one |
| `Protocol.HandleConn` | node.go:325-350 | delivers the decoded messages in order, up to an error or the first file fetch |
| `Protocol.DeliveredUpToFetch` | node.go:325-350 | what is delivered is all that comes before the first message of type 6 |
| `Peer.Peer.Send` | peer.go:123-129 | enqueues the message, or drops it when 16 are queued |
| `Peer.Peer.Close` | peer.go:132-139 | drops the connection at any moment, and nothing else |
| `Peer.Peer.Take` | peer.go:88-98 | the pending message is taken before the queue |
| `Peer.Peer.Prepare` | peer.go:100-110 | a message Encode refuses is skipped; without a connection the message becomes pending |
| `Peer.Peer.Write` | peer.go:111-118 | a failed write keeps the message pending, however much of it reached the wire |
| `Peer.NothingLostOrReordered` | peer.go:29-44 | in every interleaving: accepted sends minus refused ones are the written, then the held, then the queued messages, in FIFO order; the queue never exceeds 16 |
| `Peer.DuplicatesAreConsecutive` | peer.go:86-120 | in every interleaving: complete frames over all connections are the written messages in order, perhaps followed by the held one, with consecutive repeats only |
| `Peer.FramesAreAccepted` | peer.go:86-120 | only accepted, encodable messages are ever put on the wire |
| `Peer.ReceiverSees` | peer.go:115-118 | whatever part of a connection's bytes arrived decodes to its first frames, then to an error |
| `Peer.EndToEnd` | peer.go:29-120 | over all connections the receiver decodes a prefix of the accepted messages that Encode does not refuse, with consecutive repeats only, and misses none that was written |
| `Peer.NextIsSent` | peer.go:29-120 | after any run: the next message is completed on the newest connection while that is up; when it was closed, or failed after part of the frame, the same message is the first on a new connection |
| `Peer.RefusedIsSkipped` | peer.go:100-104 | after any run: a message Encode refuses leaves the sender without a trace on the wire |
| `Node.Node.MakeMessage` | node.go:63-76 | the message carries the hash, the source and the next timestamp |
| `Node.Node.Broadcast` | node.go:144-147 | the event is recorded once and sent to every peer |
| `Node.Node.OnWatch` | node.go:129-169 | the text and image branches take the step of a notification; peers get exactly what is announced |
| `Node.Node.OnFiles` | node.go:171-198 | the file branch takes the step of a selection; an offer is kept exactly when it is announced |
| `Node.Node.OnReceive` | node.go:200-273 | the incoming branches take the step of a received event |
| `Node.Node.AcceptOffer` | node.go:262-267 | the event is recorded, and the send after the drain finds room |
| `Node.WatchOutcome` | node.go:129-169 | a notification is ignored when it is empty or belongs to copied files, only uses up a marker when a live one of its type and hash is stored, and is announced otherwise, withdrawing offered files |
| `Node.SelectOutcome` | node.go:171-198 | an offer is announced with type 5 when its metadata is at most 10 MiB; in every other case nothing is offered |
| `Node.ReceiveOutcome` | node.go:200-273 | which received events change nothing; that a written one is recorded, withdraws offered files and leaves a marker for what the clipboard now holds, for five seconds, evicting the oldest of 32; that a wanted offer is recorded and accepted |
| `Node.OwnWriteIsSilent` | node.go:213-246 | from every state: what the clipboard held after a remote write is not announced when it is reported within five seconds, also when it differs from what was received, with fewer than 32 further writes between and no other notification of that type and hash |
| `Node.LateEchoIsAnnounced` | loop.go:46-96 | after five seconds it is announced like a copy of the user |
| `Node.AtMostOnce` | node.go:200-233 | an event the node recorded is applied again only after at least 32 other events were recorded |
| `Node.IneffectiveIsRetryable` | node.go:202-231 | an event changes the node exactly when it takes effect, so a failed clipboard write stays retryable, and repeating an applied event changes nothing |
| `Node.TimestampIsLater` | node.go:63-68 | the next timestamp is later exactly unless the last one was the largest int64 |
| `Node.LocalIDsDistinct` | node.go:60-76 | the IDs a node creates are pairwise distinct even if the clock stalls or runs back |
| `Node.OfferWithdrawn` | node.go:142-232 | whatever replaces the clipboard withdraws the offered files |
| `Node.ServedOffersWereAnnounced` | node.go:171-195 | after every iteration the servable files are those of the offer sent last, entry by entry |
| `Node.ServedAsAnnounced` | file_sync.go:159-186 | a request is served only for the offer that the last message sent announces, and the file opened has the metadata of the requested entry of that offer |
| `Node.EarlierOffersAreNotServed` | file_sync.go:69-157 | with fresh tokens, an offer is served only while no other was created after it, and with exactly its files |
| `Node.NewestOfferIsKept` | node.go:200-267 | in every run of the loop and the paste handler, the newest accepted offer waits in the mailbox or was the last to be taken, and is never drained |
| `Node.SentTypesAreKnown` | node.go:129-195 | every message a node sends has a type the decoder accepts |
| `Mailbox.Box.Drain` | node.go:263-266 | takes out what waits, if anything, without waiting |
| `Mailbox.Box.Put` | node.go:267 | puts the accepted offer into the slot, when there is room |
| `Mailbox.Box.Take` | clipboard_files_windows.go:255 | the paste handler receives what waits |
| `Mailbox.SendNeverBlocks` | node.go:263-267 | in every interleaving with the paste handler, the slot is empty from the drain to the send, so the send is enabled |
| `Mailbox.NothingElseGetsLost` | node.go:263-267 | in every interleaving, each accepted offer was taken, waits, is about to be sent, or was drained for a later one, exactly one of these; offers are taken in the order of their acceptance |
| `Mailbox.NewestIsKept` | node.go:263-267 | in every interleaving the newest offer is about to be sent, waits, or was the last to be taken; it is never drained |
| `Mailbox.AcceptingIsAtomic` | node.go:262-267 | nothing comes between drain and send, so every interleaving amounts to accepting and taking as whole steps |
| `Accounting.CountTaken` | loop.go:79-96 | consuming an echo removes the expired markers and one marker of its key, or there was none |
| `Accounting.NotifyBalanced` | node.go:129-169 | a notification keeps the balance, whether it is ignored, recognised or announced |
| `Accounting.ArriveBalanced` | node.go:200-245 | a remote write keeps the balance, also when it evicts a marker; what the watcher then reports is what the clipboard itself holds, whatever the node expects |
| `Accounting.AlwaysBalanced` | node.go:129-246 | in every run and for every content: copies + lost >= sent + unreported copies + max(0, outstanding echoes - stored markers) |
| `Accounting.NoAmplification` | node.go:129-246 | announcements never exceed user copies plus lost markers, content by content |
| `Accounting.RemoteContentStaysSilent` | node.go:213-242 | content that was not copied here is never announced here unless one of its markers was lost |
| `Network.StepPays` | node.go:129-246 | every propagation step uses up potential; only copies and failed writes add any |
| `Network.RunPays` | node.go:129-246 | over any run, propagation steps plus potential are at most copies plus twice the failed writes |
| `Network.PropagationTerminates` | node.go:129-246 | propagation steps are bounded by copies, lost markers and failed writes, for every network and every interleaving |
| `Network.BusyCanPropagate` | node.go:129-246 | in every reachable state with anything queued, on the wire or unreported, a propagation step that loses no message is possible (a notification may be coalesced), so a run ends only in silence |
| `Cluster.OwedMoves` | peer.go:86-129 | a sender's step takes the first message off what it owes, when that was written or refused by Encode, or leaves it all |
| `Cluster.UnreadMoves` | peer.go:111-118 | a sender's step adds one message to what its receiver has not decoded, when a frame was completed, or nothing |
| `Cluster.NextFrame` | node.go:327-335 | what a receiver decodes next from the bytes that arrived is the next frame of that connection |
| `Cluster.BroadcastQueues` | node.go:144-147 | a broadcast queues one copy for each configured peer, less those whose send buffer is full |
| `Cluster.IsNetwork` | node.go:118-273 | every run of nodes, senders and byte streams is a run of the network, with at least as much propagation and the same failed writes |
| `Cluster.NeverAmplifies` | node.go:129-246 | in the whole system no node announces a content more often than it was copied there or its markers were lost |
| `Cluster.BusyGoesOn` | peer.go:29-129 | while a sender that was not cancelled owes something, or something is not decoded or not reported, at most seven further steps, without user, cancellation or failure, do more work |
| `Cluster.FallsSilent` | node.go:129-246 | in the whole system writes, decoded messages and reported notifications are bounded by copies, lost markers and failed writes |
| `HDrop.Utf16RoundTrip` | hdrop.go:23-58 | decoding the code units of a string gives it back, surrogate pairs included |
| `HDrop.UnitsOfScalar` | hdrop.go:23 | a character below 0x10000 is one unit; any other is a high surrogate with the upper ten bits and a low one with the lower ten |
| `HDrop.LoneSurrogates` | hdrop.go:68 | a surrogate without its partner is decoded as the replacement character |
| `HDrop.LittleEndianWords` | hdrop.go:24-31 | each word of the list is written with its low byte first |
| `HDrop.EncodeHDrop` | hdrop.go:14-31 | succeeds exactly for non-empty NUL-free paths and yields the header and the double-NUL-terminated list |
| `HDrop.DecodeHDrop` | hdrop.go:35-79 | all accesses are in bounds for every byte sequence; the result is that of the parse |
| `HDrop.SplitWords` | hdrop.go:54-78 | the scan with its moving start yields the parsed list |
| `HDrop.RoundTrip` | hdrop.go:14-78 | decoding gives the encoded paths back exactly when there are at most 4096; longer lists are refused |
| `HDrop.AnyBytes` | hdrop.go:35-79 | an accepted list is valid and bounded, the last path check never fires, and re-encoding decodes to the same list |
| `HDrop.AnyLayout` | hdrop.go:35-78 | for any header with a flag bit set and any offset of the list: the entries up to the first empty one are returned, and the words after that are ignored |
| `HDrop.HeaderRefused` | hdrop.go:36-50 | short headers, offsets outside the data, byte strings and lists of an odd length are refused |
| `FileSource.FileProvider.Create` | file_sync.go:69-157 | offers exactly the selections with distinct proper roots and at most 4096 offerable entries; the offer lists, in order, the offered path, size, time and kind of each thing found, under the names of the selected roots, and agrees with the kept files; a failure leaves nothing to serve |
| `FileSource.FileProvider.Walk` | file_sync.go:100-133 | stops at the first entry that cannot be offered or exceeds the limit |
| `FileSource.FileProvider.Open` | file_sync.go:159-186 | serves exactly the current unexpired offer's unchanged regular files, by index |
| `FileSource.FileProvider.Serve` | file_sync.go:188-207 | the reply is the header and the first bytes of the file that Open finds, or the error header |
| `FileSource.SelectionsOffered` | file_sync.go:69-133 | the selections that are offered, in terms of the paths and of what the walks find |
| `FileSource.VisitsInOrder` | file_sync.go:82-133 | everything found below each selected path is offered, in order |
| `FileSource.ServedAsWalked` | file_sync.go:121-207 | what Create and Serve do together: a request for the k-th thing found is answered with 0, its size and its first bytes exactly when the offer is at most 24 hours old and it is a regular file that is still what the walk found; with 1 and eight zeros otherwise |
| `FileSource.ExpiryAgrees` | file_sync.go:222-224 | an offer that a receiver accepts by its clock is not expired at the source, and it is accepted until a second before |
| `FileSource.OfferSize` | file_sync.go:100-106 | a successful offer has 1 to 4096 entries |
| `OfferPath.ValidationSimplified` | file_sync.go:252-266 | the path check accepts exactly the paths without a backslash whose components are all valid |
| `OfferPath.ComponentsAllowed` | file_sync.go:268-286 | a component is allowed unless it is empty, ends with a dot or a space, holds a control character or one of seven punctuation marks, or is a device name up to its first dot |
| `OfferPath.OffersAccepted` | file_sync.go:215-248 | an offer is accepted exactly when it is of version 1, has 64 hexadecimal digits as ID and 1 to 4096 entries, is not expired, comes from a Tailscale address, every root is one allowed component, and every entry has a size and allowed components below a root |
| `OfferPath.CleanRelative` | file_sync.go:256-257 | a path of plain components is its own cleaning and not absolute |
| `OfferPath.StagedInside` | file_sync.go:330 | joining an accepted path to a clean directory appends its components and nothing else |
| `OfferPath.StagedInjectively` | file_sync.go:330 | different accepted paths are staged at different places |
| `OfferPath.StagedUnderRoot` | file_sync.go:233-248 | every entry of an accepted offer is staged at or below the staged path of an offered root |
| `Staging.FileTransferReader.Read` | file_sync.go:393-405 | passes on at most the limit, in order, and reports the running total for every non-empty read |
| `Staging.Stager.CopyN` | file_sync.go:444-454 | the temporary file grows by what was read; on success it holds exactly the first bytes of the stream |
| `Staging.Stager.Fetch` | file_sync.go:407-460 | succeeds exactly when the source sends enough and nothing is in the way; then the file holds exactly the first bytes sent; a failure changes nothing but the temporary file, and removes that when it can; a reply that does not fit changes nothing |
| `Staging.Stager.ReceiveOne` | file_sync.go:329-355 | succeeds exactly when the entry completes, and then takes the step of that entry; a file that is already complete is not fetched |
| `Staging.Stager.Receive` | file_sync.go:310-362 | succeeds exactly when every entry of an accepted offer completes, and takes the run of its steps; when the files get along, every intermediate state is exact, nothing complete is lost, and a retry fetches only what is missing or of the wrong size; the reports reach the bytes completed, and the announced total is the sum of the sizes |
| `Staging.HarmlessMeans` | file_sync.go:439 | files get along by their paths exactly when their targets and temporary names do |
| `Reporting.FileOfferStats` | file_sync.go:462-472 | counts the files and the directories; the byte count is the sum of the file sizes, wrapped to int64 |
| `Reporting.ProgressFetched` | file_sync.go:347-355 | the reports of a fetched file continue those of the offer |
| `Reporting.ProgressStaged` | file_sync.go:340-345 | an already staged file is reported once, on top of the rest |
| `Reporting.ProgressIff` | file_sync.go:310-356 | the reports of a run, finished or not, are monotone and within the announced total exactly when the bytes completed did not outgrow an int64 or that total |
| `Reporting.ProgressIffFits` | file_sync.go:310-356 | when the sizes fit in an int64 the reports of every run are monotone and within the total; those of a success end at it exactly then |
| `StagingRuns.FetchKeepsOther` | file_sync.go:439-459 | a completed fetch keeps another staged entry exactly when that is the same file with the same size, or has neither its path nor its temporary name |
| `StagingRuns.EntryOutcome` | file_sync.go:329-459 | in terms of the files before: an entry is received exactly when its directories can be made and, for a file that is not there with its size, all of it arrives and no directory has its name or temporary name; then the directories exist, the file is as it was or holds the first bytes sent, and no temporary file is left |
| `StagingRuns.FetchesKeepStagedIff` | file_sync.go:329-459 | for an offer: no fetch that can complete loses a staged entry, if and only if files at one path have one size and none has the path of another plus ".part" |
| `StagingRuns.RunsKeepStagedIff` | file_sync.go:329-355 | for an offer in which no file is a directory: no run, from any state and with any luck, loses an entry that was or became complete, under exactly the same condition |
| `StagingRuns.AcceptedYetLost` | file_sync.go:215-248 | two accepted offers of two files each whose fetches complete and lose the first file |
| `StagingRuns.TotalOverflows` | file_sync.go:313-318 | an accepted offer whose announced total is negative, so that every report of every run is beyond it from the first on |
| `StagingRuns.RootsStaged` | file_sync.go:329-361 | after a success something exists at every root that an entry has; from an empty staging directory, at no other |
| `StagingRuns.RootWithoutEntry` | file_sync.go:233-248 | accepted offers with a root that has no entry, or listed twice; a run that succeeds and leaves nothing at the root without an entry |
| `Transfer.InstalledAsServed` | file_sync.go:407-460 | whatever part of the reply arrives, a fetch completes only if the source serves the request with the size of the entry, and installs the first bytes of the file served |
| `Transfer.ServedIsInstalled` | file_sync.go:188-207 | when the reply arrives and can be written, the file served is installed byte for byte |
| `MacDownload.MacRemoteFileState.Set` | clipboard_files_darwin.go:501-510 | a new offer cancels the old one and starts a new generation |
| `MacDownload.MacRemoteFileState.Clear` | clipboard_files_darwin.go:512-521 | clearing cancels the offer and leaves none |
| `MacDownload.MacRemoteFileState.RequestDownload` | clipboard_files_darwin.go:537-565 | answers and changes the state as the step of a request does, which `RequestsAnswered` and `RequestsDownload` give from the events |
| `MacDownload.MacRemoteFileState.FinishDownload` | clipboard_files_darwin.go:601-614 | records the result and closes the channel only if the download still owns the state |
| `MacDownload.HistoryDecides` | clipboard_files_darwin.go:501-614 | the offer, the result and the download in flight are what the history of events says |
| `MacDownload.RequestsAnswered` | clipboard_files_darwin.go:537-547 | from the events alone: a request is not current unless the last set offer has its ID; then it is answered with the result, or pending, and exactly the first one starts a download |
| `MacDownload.RequestsDownload` | clipboard_files_darwin.go:548-564 | from the events alone: that one adds one download of the offer set, with a context that is alive; every other request changes nothing |
| `MacDownload.FirstRequestStarts` | clipboard_files_darwin.go:537-565 | after an offer with an ID was set and nothing replaced it: its first request starts its download, no later one starts another, and requests for other IDs are not current |
| `MacDownload.ChannelsCloseOnce` | clipboard_files_darwin.go:523-533 | in every interleaving the channel is present exactly while a download is in flight, and none is closed twice |
| `MacDownload.OneDownloadPerOffer` | clipboard_files_darwin.go:537-565 | each set starts at most one download |
| `MacDownload.NoStaleResult` | clipboard_files_darwin.go:601-614 | results are recorded in their own generation only, at most once per download, even when an ID is offered again |
| `MacDownload.OnlyCurrentContextLives` | clipboard_files_darwin.go:501-533 | the context of a download is cancelled exactly when its offer is no longer current |
| `MacDownload.ResultIsServed` | clipboard_files_darwin.go:537-614 | a download that completes in its own generation is recorded, and requests are answered with it |
| `MacPlacement.AttemptsDistinct` | clipboard_files_darwin.go:704-714 | the names tried are pairwise distinct after lower-casing |
| `MacPlacement.CopyNames` | clipboard_files_darwin.go:704-714 | the copies of "stem.ext" are tried as "stem (2).ext", "stem (3).ext" and so on; a name without a dot gets the number at its end |
| `MacPlacement.DecimalDenotes` | clipboard_files_darwin.go:713 | the digits denote the number, without a leading zero |
| `MacPlacement.NamesJudged` | clipboard_files_darwin.go:705-719 | a name that can be inspected is free exactly when nothing has it and no target before has it in any case, and is passed over otherwise |
| `MacPlacement.PassOver` | clipboard_files_darwin.go:713-720 | each name passed over uses up another existing path or reserved key |
| `MacPlacement.AvailableMacDestination` | clipboard_files_darwin.go:704-721 | finds the first free name within existing + reserved + 1 attempts, or fails at the first one that cannot be inspected |
| `MacPlacement.PlanTargets` | clipboard_files_darwin.go:667-677 | each target is the first name free of what exists and of the targets before it, so that they are absent and pairwise distinct regardless of case |
| `MacMoves.MoveAll` | clipboard_files_darwin.go:678-701 | stops at the first failure; the list is targets before it and staged paths from it on |
| `MacMoves.MoveEffectWhen` | clipboard_files_darwin.go:678-701 | an item that is there is moved unless the rename fails on one device, or the copy or its rename does on two; it leaves its source unless that cannot be removed, and nothing is left at the temporary name |
| `MacMoves.PlaceMacDownloadedPaths` | clipboard_files_darwin.go:666-702 | nothing moves unless all is planned; when the staged paths are distinct and none ends like a temporary copy, and all exist or none is in the folder already: every item that existed is where the returned list says, the list names nothing else that exists, success means that all existed, and bystanders are left alone |
| `MacMoves.NamesApart` | clipboard_files_darwin.go:686-720 | if no staged path ends like a temporary copy, no planned copy is made in the place of an item |
| `MacMoves.AccountedIff` | clipboard_files_darwin.go:678-701 | for given targets of existing items: every item is where the list says, however the moves go, if and only if the staged paths are distinct and no copy is made in the place of an item |
| `MacMoves.TemporaryNameLoses` | clipboard_files_darwin.go:686-699 | two names an accepted offer may have, which are both copied across devices and lose the first item |
| `MacCollisions.TriedUnique` | clipboard_files_darwin.go:710-714 | the numbered names tried for one item are never those tried for another |
| `MacCollisions.AccountedAnywhereIff` | clipboard_files_darwin.go:666-721 | for items with different names outside the folder: every item is where the list says, in any folder and however the moves go, if and only if no item is named like the temporary copy of a name that a later item can get |
| `MacPaste.ReceivedIsPlaceable` | clipboard_files_darwin.go:576-591 | when the roots of an accepted offer are distinct, each has an entry and none ends like a temporary copy, a success of receiving meets all that placement asks for |
| `MacPaste.ReceiveAndPlace` | clipboard_files_darwin.go:576-591 | receiving such an offer and placing what was received leaves the item of every root where the returned list says |
| `PasteHandler.Handler.OnOffer` | clipboard_files_windows.go:255-261 | an offer becomes current, or none is when the marker cannot be written |
| `PasteHandler.Handler.OnResult` | clipboard_files_windows.go:262-277 | the step of a result, which `ResultsPublish` gives; a paste is injected exactly when it is published |
| `PasteHandler.Handler.OnTick` | clipboard_files_windows.go:278-292 | a download starts exactly on a fresh paste of the current offer while none is running |
| `PasteHandler.PublicationsStem` | clipboard_files_windows.go:255-292 | every publication has its history: a fresh paste of the offer then current started the download, it ended without an error with the paths published, and then the marker matched and the clipboard took the files |
| `PasteHandler.ResultsPublish` | clipboard_files_windows.go:262-277 | after any run: a waiting result is published, with one paste, exactly when it is no error, an offer with its ID is current, the marker matches and the clipboard takes the files; otherwise only the download ends |
| `PasteHandler.ResultsWait` | clipboard_files_windows.go:284-290 | after any run: the end of a download puts its result, for the offer requested, into the channel |
| `PasteHandler.OthersDoNot` | clipboard_files_windows.go:255-292 | after any run: nothing but a result publishes or pastes; a download of the current offer starts exactly when the keys were up at the tick before and now are down, the marker matches and none is running; only offers and results change which offer is current |
| `PasteHandler.ResultSendNeverBlocks` | clipboard_files_windows.go:284-290 | running downloads plus queued results is 1 while downloading and 0 otherwise, so the send finds room |
| `PasteHandler.PublishedAtMostOnce` | clipboard_files_windows.go:262-277 | each received offer is published at most once, with one paste |
| `PasteHandler.SupersededNeverPublished` | clipboard_files_windows.go:255-277 | for a list of received offers: no run publishes the result of a superseded one, if and only if their IDs are pairwise distinct |
| `PasteHandler.SupersededPublished` | clipboard_files_windows.go:255-277 | a run that publishes the result of an offer for a later one under the same ID |
| `PasteHandler.PublishedForItsID` | clipboard_files_windows.go:270 | what is published belongs to a received offer that had the current ID, and to no later one |

## Left out

- AppKit, Carbon and Win32 calls, the progress window and the platform run loops: foreign calls and user interface. The test that the marker still matches is an input.
- Dialing, keepalive, deadlines and backoff: connecting, writing and failing are steps of the environment. A write without an error counts as written, not as delivered.
- The JSON and YAML codecs, xxhash, random tokens, and image decoding: functions or inputs of which nothing is assumed.
- Autostart, installation, onboarding, configuration and listen-host resolution: mostly single branches and string plumbing.
- Saving and pruning received images: simple next to the rest.
- Event IDs across restarts of a node or between nodes with the same hostname: the last timestamp is kept in memory only, so nothing is claimed.
- Pruning of old staging directories, and copying a directory tree across devices: an item that is moved is opaque.
- Symbolic links inside the staging directory, and other programs that change files while a transfer or a placement runs.
- Publishing downloaded paths back to the pasteboard on macOS and the Finder query that finds the destination: foreign calls after the modelled mutex section.
- The order of messages inside a send queue in `Network`: queues are multisets there, which allows more behaviours; `Peer` and `Cluster` have the exact queues.
- What the paste handlers do with an offer in the runs of `Accounting`, `Network` and `Cluster`: there nothing takes offers out of the mailbox, which no other part of a node reads.
- The closing of the file watcher's channel, after which the file branch is disabled.
- The blocking of readers on a full incoming channel of 32: a message waits in its connection instead.
- Staging.Stager.Receive: the claims about what is kept are for offers whose files get along; `StagingRuns.RunsKeepStagedIff` shows that less is not enough. What a failed iteration leaves beside the kept entries (directories, and a partial temporary file) is not given exactly.
- MacMoves.PlaceMacDownloadedPaths: the claim about where items are is for distinct staged paths none of which ends like a temporary copy; `MacCollisions.AccountedAnywhereIff` has the exact condition on the names.
- Network.PropagationTerminates: file offers count as copies of their metadata; what a receiver does with an accepted offer later is in `MacDownload` and `PasteHandler`, not in the network.
