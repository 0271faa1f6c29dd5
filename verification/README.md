# Verification of the byte-stream machines and the connection bookkeeping

This project models the parts of an event-driven web server in which state survives
between calls while data arrives in arbitrary pieces, and proves what the server relies on
there.

* **Multipart receiver.** `PostStream.Receiver` is the streaming receiver of
  multipart/form-data bodies (section 5.1.1 of RFC 2046, RFC 7578) with its hold-back buffer,
  header buffer, part list and counters updated in place. It is proved against the octet by
  octet machine of `MultipartMachine`. On that machine: what every run keeps
  (`MultipartProtocol`), that it may be fed in any pieces (`MultipartSplit`), what a handler
  hears up to its abort (`MultipartHearing`), which handlers cannot tell how a body was cut
  (`MultipartCuts`), which handler a run is compared with (`MultipartLens`), the exact payload
  (`NeedleScan`, `MultipartExactness`), what may stand before the first boundary
  (`MultipartPreamble`), what a part header leads to (`MultipartHeader`), and the round trip of
  whole bodies (`MultipartRoundTrip`).
  `MultipartRefinement` joins the piece-wise loops to the machine; `MultipartUpload` takes a
  body in any pieces through the receiver to the upload list. `FieldBuffers` has the bounded
  buffers of form fields.
* **Reverse proxy.** `ChunkedScanner` and `ChunkedGrammar` relate the restartable scanner to
  the chunked coding (section 7.1 of RFC 9112). `ProxyHeader`, `ProxyStream` and `ProxyTunnel`
  follow a response and a tunnel through partial sends, back-pressure and event registration,
  `ProxyUpgrade` the change from one to the other. The sockets of `ProxySocket` log what they
  have really taken, and conservation is stated over that log and the reads handed in.
* **Connections.** `LinkedLists` and `ConnGroups` have the intrusive lists and the
  reference-counted groups by source address, `ConnAdmission` the loop that makes room within a
  group, `SockList` the list of all sockets with its cursor and the total limit, `LoopClock`
  the clock without blocked time, `TimeoutSweep` the sweep over idle connections.
* **Websockets.** `WsFrames` and `WsReceiver` reassemble fragmented messages (section 5.4 of
  RFC 6455); `WsQueue` has the send queue and the question when a ping has left.
* **Hash map.** `HashTable` and `HashWalk` refine a plain map.

`Bytes`, `Sequences`, `Folding` and `Wrapping` hold what these share: octets, sequences, folds
over input, and arithmetic modulo 2^32.

Sockets are sources of arbitrary answers: a send may take any part of what it is given, a read
may bring any octets, and both may fail; the proofs hold for every such answer. Handlers,
header analysis, hash functions, the test for evictable connections, the probe for waiting
input and the UTF-8 test are arbitrary functions given as parameters. Regions that the program
protects with a mutex are single steps.

Pointer structures are modelled with one map for each pointer field, so that a list is what
its pointers spell; the other objects are classes with the program's fields. Ghost fields hold
what the fields stand for: the octets passed on, the plain map, the unbounded counter.

## Results that are not what one might expect

* `MultipartCuts.CutsUnseenIff`: over all runs of the operations of the receiver, the calls to
  an upload handler, joined to the octets of each file, and the part list do not depend on how
  the payload was cut exactly if, on the calls that can come up in such runs, the handler never
  aborts from within a chunk call and never decides by the cuts of the chunks before its call.
  An abort from a chunk call takes effect at the next cut (`ChunkAbortSeen`); `EndSeesCuts` has
  two octets and a handler that counts its chunks, in one piece reported and in two pieces
  failed. These runs cut the payload anywhere; the receiver itself makes only some of the cuts,
  since it holds back what may begin a delimiter. For the receiver the condition is enough: with
  such a handler it does what the octet by octet machine does, for every cutting of a body
  (`PostStream.Receiver.Feed`, `MultipartUpload.TwoCuttings`). With any other it does so as long
  as the upload is not aborted, and what was heard up to the abort is the beginning of what the
  machine tells.
* A body that breaks off inside a file ends it as one that failed (`PostStream.Receiver.Feed`,
  `MultipartRoundTrip.FileBreaksOff`). One that breaks off inside a form field leaves its entry
  as it is: only an open file is ended (lib/src/post_streaming.c:1080-1088).
* `MultipartPreamble.BoundaryFoundIff`: before the first boundary a mismatch empties the hold.
  A boundary that comes first is found exactly if nothing is held in front of it or the hold
  does not go on with a dash; otherwise it is hidden. `MultipartRoundTrip` holds on that
  condition. Whole lines in front of the boundary always meet it (`LinesAreHarmless`), a single
  dash does not (`PreambleCanHideBoundary`).
* `HashTable.LoadTestExact`: the load test is exact except in a table of 2^31 buckets, where
  its product wraps; `LoadTestMisses` is the case of as many entries as buckets.
* `WsQueue.PingOutExact`: for every distance between the counters, where the 32-bit
  comparison is right: for 2^31 chunks on either side, and again in every lap of 2^32 behind
  the ping. In the second half of each lap it denies a ping that is out (`PingForgotten`).
* `ProxyStream.Response.WholeBody`: with everything delivered, the client of a chunked response
  holds a complete body exactly if the scanner is done. A response whose backend closes early
  is finished all the same: `EarlyClose` ends so for every header and for any body octets that
  are not yet a complete body.

## Model

| member | source | states |
|---|---|---|
| `NeedleScan.SettleLongest` | lib/src/post_streaming.c:585-594 | What stays held is the longest end of the text that can still become the needle. |
| `NeedleScan.SettleExtends` | lib/src/post_streaming.c:585-594 | Backing up early and looking again later keeps the same octets as looking at all the text at once. |
| `NeedleScan.SettleMismatch` | lib/src/post_streaming.c:643-656 | Dropping one held octet and settling the rest on a mismatch loses no possible start of the needle. |
| `NeedleScan.UnfoundIsAbsent` | lib/src/post_streaming.c:608-659 | Not found up to here means that the needle occurs nowhere in the text, other than within what was there before. |
| `NeedleScan.FillEnd` | lib/src/post_streaming.c:608-659 | A search that ends has stopped at the first occurrence, or has taken everything and holds the longest end that may become the needle; given out and held together are the input. |
| `PostStream.Receiver.EmitPartData` | lib/src/post_streaming.c:472-576 | A piece goes to the handler as one chunk and is counted, or to the bounded buffer of its field, or nowhere after an abort. |
| `PostStream.Receiver.RebaseHold` | lib/src/post_streaming.c:585-594 | In place: gives out held octets until the rest is the longest possible start of the needle, and passes on exactly the others; a handler that aborts meanwhile has heard the beginning of them. |
| `PostStream.Receiver.ScanForNeedle` | lib/src/post_streaming.c:608-659 | The search in place over a piece of input: first occurrence or the whole piece, payload passed on exactly, or its beginning up to an abort. |
| `PostStream.Receiver.SkipToBoundary` | lib/src/post_streaming.c:608-659 | Before the first boundary the loop over the hold does what the octet by octet machine does, including the emptied hold on a mismatch. |
| `PostStream.Receiver.BeginPart` | lib/src/post_streaming.c:718-833 | An announced file starts with a call to the handler and an entry, a field with an entry, and there are never more than 64; nothing of it after an abort or for a discarded request; it fails exactly if nobody has aborted and the header cannot be read, and then no part is open. |
| `PostStream.Receiver.EndPart` | lib/src/post_streaming.c:838-869 | The handler hears one end with success only if nobody aborted; the result is noted in the entry of the open part and no other; no part is open afterwards. |
| `PostStream.Receiver.CollectPartHeader` | lib/src/post_streaming.c:876-917 | Header octets up to the empty line in a bounded buffer; too long is an error, but for a dropped part the buffer slides so that an empty line across the cut is still found. |
| `PostStream.Receiver.TakeCheck` | lib/src/post_streaming.c:1014-1050 | The two octets behind a boundary decide as in the octet by octet machine: end of body, end of part, or payload that is looked at again; up to an abort the handler has heard the beginning of the calls of the machine. |
| `PostStream.Receiver.Feed` | lib/src/post_streaming.c:924-1075 | A call with any piece gives the state, the outcome and the joined trace of the octet by octet machine: for every handler as long as the upload is not aborted and again in every call behind an abort, and always for a handler that is blind to the cuts on the calls that can come up. One that aborts within the call has heard, up to there, the beginning of the calls of the machine, and after an abort nothing is heard but a failed end. The answer is an error in the body, more to come, or its end, complete exactly if the last boundary was seen. Once the content length is reached no file is left without its end: one that was open hears that it failed, and its entry is a failed one with the octets received. There are never more than 64 entries, and an aborted upload has no error in its body any more. |
| `PostStream.Receiver.Finish` | lib/src/post_streaming.c:1080-1088 | An open file gets its one end, and none is open afterwards. |
| `PostStream.Receiver.FillUploadInfo` | lib/src/post_streaming.c:1097-1174 | The list handed on is, in body order, the files of the trace that ended well, each with the sum of its chunks: an entry is handed on exactly if it is that of a file that did not fail; the part list is empty afterwards. |
| `PostStream.Receiver.Receive` | lib/src/system_sockets.c:325-369 | Data is cut at the content length: the receiver gets exactly the rest of the body, what lies behind is left for the next request; a body that is through leaves no file without its end. |
| `MultipartMachine.CutExact` | lib/src/post_streaming.c:806-818 | A name of at most 256 octets goes into the part list as it is, a longer one with its first 256. |
| `FieldBuffers.HandedOnIff` | lib/src/post_streaming.c:1097-1174 | A name and length are handed on exactly if some entry is that of a file with them that did not fail. |
| `MultipartProtocol.ReplayInv` | lib/src/post_streaming.c:472-487 | Over every run, for every handler and every reading of the headers: the trace is (start chunk* end)* with at most one part open, nothing but failed ends follows an abort, and the part list says what the trace says. |
| `MultipartProtocol.EndCloses` | lib/src/post_streaming.c:838-869 | After any run, ending the part leaves none open: every start gets exactly one end. |
| `MultipartProtocol.EntriesStay` | lib/src/post_streaming.c:723-741 | No later operation alters the entry of a part that has ended, whether it creates an entry or not. |
| `MultipartProtocol.ReplayReported` | lib/src/post_streaming.c:1097-1174 | With no part open the list is exactly the files of the trace that ended well; a discarded request has neither calls nor entries. |
| `MultipartSplit.FeedSplit` | lib/src/post_streaming.c:924-1075 | Feeding a and then b gives the same machine state, position and failure as feeding both at once. |
| `MultipartSplit.FeedPieces` | lib/src/post_streaming.c:924-1075 | The same for any number of pieces. |
| `MultipartSplit.EndOfBody` | lib/src/post_streaming.c:1062-1074 | What a call adds to its octets: nothing, unless the body is through inside a file; then the call fails, the handler hears one failed end, and the entry is a failed one with the octets received. |
| `MultipartHearing.BeginsRun` | lib/src/post_streaming.c:924-1075 | Calls once made stay: what begins the trace of the machine begins it after any further octets. |
| `MultipartHearing.EmitFollows` | lib/src/post_streaming.c:472-487 | Passing payload on in pieces: the same book as in one piece up to the cuts, or after an abort from any of the calls a beginning of the calls. |
| `MultipartHearing.HeardEnds` | lib/src/post_streaming.c:838-869 | After an abort the end of the open part is at most a failed end, behind everything heard before. |
| `MultipartCuts.CutsUnseenIff` | lib/src/post_streaming.c:472-487 | Any two runs of the operations of the receiver that differ only in the cuts of their payload end with the same entries, abort and joined calls, exactly if on the calls that can come up no chunk call asks for an abort and no answer depends on the cuts before it. |
| `MultipartCuts.UncutUnseen` | lib/src/post_streaming.c:472-487 | For such a handler every run ends as the run without its cuts does. |
| `MultipartCuts.PieceBlindIsBlind` | lib/src/post_streaming.c:472-487 | A handler that never aborts from a chunk call and never decides by the cuts, on any trace whatever, meets the condition. |
| `MultipartCuts.ChunkAbortSeen` | lib/src/post_streaming.c:472-487 | A handler that aborts from any chunk call that can come up sees a cut behind it: what follows is counted or not. |
| `MultipartCuts.EndSeesCuts` | lib/src/post_streaming.c:838-869 | A handler that never aborts from a chunk call but counts its chunks at the end: two octets in one piece are a reported file, in two pieces a failed one. |
| `MultipartLens.NormalEmit` | lib/src/post_streaming.c:472-487 | For a handler blind to the cuts on the calls that can come up, and for any other while nothing is aborted, the joined trace after a chunk does not depend on the cuts before it. |
| `MultipartLens.CanonicalAnswer` | lib/src/post_streaming.c:838-869 | A handler that is blind to the cuts has one answer to the calls without them, which is its answer to every cutting of them. |
| `MultipartExactness.FalseDelimiter` | lib/src/post_streaming.c:1036-1050 | A boundary followed by neither CRLF nor two dashes is payload, and the two octets are looked at again. |
| `MultipartExactness.FalseBoundary` | lib/src/post_streaming.c:1036-1050 | In front of the first part such a boundary is none, and the search goes on behind it with nothing held. |
| `MultipartExactness.DataExact` | lib/src/post_streaming.c:1002-1050 | With a boundary free of CR, a part ends at its first delimiter that is followed by CRLF or two dashes, with exactly the octets before it as payload. |
| `MultipartExactness.DataConserved` | lib/src/post_streaming.c:1002-1050 | As long as no such delimiter is complete, payload passed on and octets held back are the input, and fewer are held back than a delimiter with the two octets behind it has. |
| `MultipartHeader.HeaderDecides` | lib/src/post_streaming.c:876-1000 | For every header of any length: behind an abort or the 64th part it is read over and nobody hears of it; else it is an error exactly if it has, with the CRLF of the boundary, 8192 octets or more or cannot be read. |
| `MultipartHeader.HeaderSkipped` | lib/src/post_streaming.c:886-912 | The buffer of a header that is dropped holds the end of what has come, enough to see the empty line across any slide, so that the header ends exactly with its first empty line. |
| `MultipartRoundTrip.RoundTrip` | lib/src/post_streaming.c:924-1075 | Any list of parts, rendered behind any lead that does not hide the first boundary and before any epilogue, is received completely: the first 64 with every payload unchanged, every call in order and every part in the list, all others without a call, an entry or an error, however long their headers. |
| `MultipartRoundTrip.SectionExact` | lib/src/post_streaming.c:949-1050 | One part of a body, from behind its boundary to the next: its calls, its entry and its payload. |
| `MultipartRoundTrip.SectionDropped` | lib/src/post_streaming.c:949-1050 | One part behind an abort or the 64th: only the abort remains of it. |
| `MultipartRoundTrip.FileBreaksOff` | lib/src/post_streaming.c:1062-1074 | A body that breaks off inside a file, at any octet: the handler hears its start, the payload but for fewer octets than a delimiter with the two octets behind it has, and that it failed; its entry is a failed one with that name and length. |
| `MultipartRoundTrip.UploadsExact` | lib/src/post_streaming.c:1097-1174 | The upload list of a rendered body is its files, in order, with their names, whole up to 256 octets, and their lengths. |
| `MultipartPreamble.BoundaryFoundIff` | lib/src/post_streaming.c:608-659 | For every valid boundary and every lead it does not occur in before its end: it is found exactly if the hold behind the lead is empty or does not go on with a dash, and is else hidden. |
| `MultipartPreamble.LinesAreHarmless` | lib/src/post_streaming.c:608-659 | Whole lines that do not contain the boundary never hide it. |
| `MultipartRoundTrip.PreambleCanHideBoundary` | lib/src/post_streaming.c:652-655 | The smallest case: one dash before the boundary hides it. |
| `MultipartUpload.Upload` | lib/src/post_streaming.c:924-1174 | From the wire to the request handler: any list of parts, rendered behind a harmless lead and cut into any pieces, goes through a new receiver completely; of the first 64 the handler hears every file with name and payload, and the upload list is their files in order with their names, whole up to 256 octets, and their lengths. |
| `MultipartUpload.FeedAll` | lib/src/post_streaming.c:924-1075 | Feeding the pieces of a body one call each leads to the state of its octets one by one, for every handler that does not abort and for every one that is blind to the cuts; any other has heard, up to its abort, the beginning of the calls of the machine for the whole body. Whatever the handler does, every file has its end then, and the last answer is complete exactly if the last boundary was seen; a body that breaks off inside a file ends it as a failed one. |
| `MultipartUpload.TwoCuttings` | lib/src/post_streaming.c:924-1075 | One body in any two cuttings, through two receivers: the same state but for the cuts, for a handler that is blind to them, and for any other if it aborts neither time. |
| `PostStream.Receiver.Protocol` | lib/src/post_streaming.c:472-487 | At any time and for any handler: the calls made so far keep the protocol, a part is open in them exactly while the receiver says so, and nothing but failed ends follows an abort. |
| `MultipartRefinement.ScannedRuns` | lib/src/post_streaming.c:1002-1012 | What the in-place search reports is a run of the octet by octet machine over the same octets. |
| `MultipartRefinement.HeaderTaken` | lib/src/post_streaming.c:986-1000 | So is what the header collection reports, with the part it opens. |
| `MultipartRefinement.CheckTaken` | lib/src/post_streaming.c:1014-1050 | So is the decision about the two octets behind a boundary. |
| `FieldBuffers.Append` | lib/src/post_streaming.c:489-576 | The total grows by the octets kept and never above 262144; a field stays within 65536 with room for a terminator; a piece is kept whole or cuts the field off for good; the buffer grows exactly when it has to, each time all it holds is copied, and less than twice the cap is copied in all, for every cutting. |
| `FieldBuffers.Grow` | lib/src/post_streaming.c:547-559 | The new size holds what is needed and is twice the old one or the full size. |
| `FieldBuffers.UploadsTurned` | lib/src/post_streaming.c:1097-1174 | Turning the list round and picking files gives the files in body order. |
| `ChunkedScanner.RunFinal` | lib/src/reverse_proxy.c:137-303 | Done and Error are final, whatever follows. |
| `ChunkedScanner.RunSane` | lib/src/reverse_proxy.c:137-303 | While data is skipped some is left, and the size never leaves its range, for every input. |
| `ChunkedScanner.RunData` | lib/src/reverse_proxy.c:216-229 | Skipping any stretch of chunk data at once is the same as taking its octets one by one. |
| `ChunkedScanner.Scanner.Follow` | lib/src/reverse_proxy.c:137-303 | In place, with chunk data skipped in one go: the state after any stretch is that of the octet by octet machine, so cuts do not matter. |
| `ChunkedGrammar.DigitIff` | lib/src/reverse_proxy.c:127-135 | The digits of a size and their values are those of 0123456789abcdef in either case, and no others. |
| `ChunkedGrammar.DoneAtTheEnd` | lib/src/reverse_proxy.c:137-303 | A body of the grammar is recognised with its last octet and not before. |
| `ChunkedGrammar.DoneIff` | lib/src/reverse_proxy.c:137-303 | Done exactly when a prefix of the input is a complete body of the strict grammar, with sizes below 2^63 in hexadecimal digits of either case. |
| `ChunkedGrammar.ErrorIff` | lib/src/reverse_proxy.c:137-303 | An error is given exactly when no continuation of the input could begin with a complete body any more. |
| `ChunkedGrammar.SenderRecognised` | lib/src/reverse_proxy.c:137-303 | Any list of non-empty chunks, encoded with any of the digits of their sizes as capitals, is done on its very last octet. |
| `ProxyHeader.FindHeaderEnd` | lib/src/reverse_proxy.c:2187-2202 | The end of the first empty line, if there is one. |
| `ProxyHeader.ForceConnectionClose` | lib/src/reverse_proxy.c:2632-2674 | In place: the first Connection value long enough becomes close and blanks, nothing else changes; otherwise nothing changes and there is none such. |
| `ProxyHeader.LowerExact` | lib/src/reverse_proxy.c:2632-2674 | The name of a header is compared without regard to case: exactly the capital letters are taken for the small ones. |
| `ProxyHeader.Spelling` | lib/src/reverse_proxy.c:2632-2865 | The name looked for, the value written and the line put in, as text. |
| `ProxyHeader.OverwrittenCloses` | lib/src/reverse_proxy.c:2632-2674 | The overwritten header has the same length and the same octets elsewhere, and tells the client to close. |
| `ProxyHeader.SplicedCloses` | lib/src/reverse_proxy.c:2798-2865 | So does the header with a new line of 19 octets before its empty line, the rest of it unchanged. |
| `ProxyHeader.InjectConnectionClose` | lib/src/reverse_proxy.c:2798-2865 | In place or in a larger buffer: the header is one of the two, the octets behind it are kept. |
| `ProxySocket.Socket.Send` | lib/src/reverse_proxy.c:1788-1794 | A send with any answer: the socket takes the octets that it says, from the front, and all of them if it is willing. |
| `ProxyStream.Response.Process` | lib/src/reverse_proxy.c:1777-1956 | What the socket of the client has taken and what waits in the buffer are together header and body; the counter of body octets counts exactly them; finished only when everything is out and the framing is complete, and then always, if the client takes what it gets. |
| `ProxyStream.Response.PassHeader` | lib/src/reverse_proxy.c:1777-1861 | An upgrade leaves for the tunnel with its header delivered and exactly the body octets that came with it in the buffer. |
| `ProxyUpgrade.EnterTunnel` | lib/src/reverse_proxy.c:1834-1861 | The tunnel takes over the response buffer: what came from the backend is the body behind the header; the socket of the client has taken the header and then what was flushed, the rest is backlog; if the tunnel goes on, both sockets are registered for what waits. |
| `ProxyTunnel.Connection.Enter` | lib/src/reverse_proxy.c:1846-1859 | The first flush and the first registration: a tunnel that goes on is conserved, tidy and armed. |
| `ProxyStream.Response.OnHeader` | lib/src/reverse_proxy.c:1044-1106 | Every octet read is received, while the buffer has room, and the header is gathered until its first empty line and no longer; from then on the response is refused, or the conserved text is that header, with the closing of the connection in force unless it upgrades, and the body received; framing and kind are those of the header. A failure has a cause. |
| `ProxyStream.Response.Begin` | lib/src/reverse_proxy.c:1624-1775 | From the gathered header to the streaming state: refused, upgrade, or plain with its framing, each body octet shown to the scanner once. |
| `ProxyStream.Response.OnBody` | lib/src/reverse_proxy.c:1107-1202 | What waits is sent first; else every octet read is received, goes past the scanner once and on to the client; header and framing stay, and nothing delivered is taken back. A close ends the response, with an error if its size is announced and not reached, a failed read is an error always. A finished chunked response is complete at the client exactly if the scanner is done. |
| `ProxyStream.Response.OnWritable` | lib/src/reverse_proxy.c:901-917 | Sending resumes where it stopped, with the same outcome as in the streaming state. |
| `ProxyStream.Response.WholeBody` | lib/src/reverse_proxy.c:1107-1202 | With everything delivered, the client holds the header and a complete chunked body exactly if the scanner is done. |
| `ProxyStream.EarlyClose` | lib/src/reverse_proxy.c:1044-1202 | Run through the handlers from a new response, with a client that takes everything: for any header and any pieces that are no complete body, a backend that closes then leaves the response finished, everything delivered, and no complete body with the client. |
| `ProxyTunnel.Connection.FlushToBackend` | lib/src/reverse_proxy.c:358-383 | Sends the backlog in parts; what was read is what the socket has taken and the backlog, before and after; a socket that takes everything leaves none. |
| `ProxyTunnel.Connection.FlushToClient` | lib/src/reverse_proxy.c:389-417 | The same towards the client, where octets taken count even when the send buffer is full then: the socket has taken exactly what left the backlog. |
| `ProxyTunnel.Connection.UpdateEvents` | lib/src/reverse_proxy.c:315-351 | A side is read exactly while nothing waits that came from it, and watched for writing exactly while something waits for it. |
| `ProxyTunnel.Connection.OnClient` | lib/src/reverse_proxy.c:951-1010 | The octets of the first reads, and of no others, are received in order; reading stops at a backlog, at a read without data, or when nothing more is pending; in both directions what was received is what the socket has taken and the backlog; the registration is right whenever the tunnel goes on, and it ends only for a cause. |
| `ProxyTunnel.Connection.OnBackend` | lib/src/reverse_proxy.c:1204-1272 | The same for an event on the backend: a read is received unless a backlog waits for the client, or, once the backlog towards the backend is gone, the client side is driven and its reads received as in `OnClient`. |
| `ProxyTunnel.Connection.Drained` | lib/src/reverse_proxy.c:315-351 | A backlog always has its drain armed and its source paused, and never are both sockets unwatched. |
| `LinkedLists.LinkCut` | lib/src/system_sockets_container.c:699-718 | Unlinking an element anywhere in a doubly linked list leaves the list of the others, well formed in both directions. |
| `LinkedLists.LinkAppend` | lib/src/system_sockets_container.c:220-237 | Appending at the tail adds the element at the end of the list. |
| `LinkedLists.ForestCut` | lib/src/system_sockets_container.c:656-675 | Unchaining a group leaves the chain of the others and touches no other chain. |
| `LinkedLists.AllCut` | lib/src/system_sockets_container.c:699-718 | Unlinking from one list leaves all other lists as they are. |
| `ConnGroups.Table.Acquire` | lib/src/system_sockets_container.c:625-653 | The group of the address gets one more hold; a new address gets a group of its own, recycled or new, held once; nothing else changes in the directory. |
| `ConnGroups.Table.Put` | lib/src/system_sockets_container.c:656-675 | A group leaves its bucket for the free list exactly when nothing uses it; all others stay where they are; it is always found in its bucket. |
| `ConnGroups.Table.Release` | lib/src/system_sockets_container.c:677-680 | One hold less, and the address is forgotten if that was its last use. |
| `ConnGroups.Table.Attach` | lib/src/system_sockets_container.c:686-697 | The connection is the first of its group, the hold has become a member, the transfer is noted. |
| `ConnGroups.Table.Detach` | lib/src/system_sockets_container.c:699-718 | The connection is gone from its group and nothing else; a connection in no group changes nothing. |
| `ConnGroups.Table.GroupInOrder` | lib/src/system_sockets_container.c:625-718 | The members form a well-formed doubly linked list of the counted length; the group is in the chain of the bucket that is the remainder of its hash by 256 exactly while members and holds are not both none, else on the free list; chains and free list are what the pointers spell. |
| `ConnGroups.Table.OneGroupPerAddress` | lib/src/system_sockets_container.c:625-653 | No two groups in use have the same address. |
| `ConnGroups.HoldKeepsGroup` | lib/src/system_sockets.c:1547-1608 | Over every run of acquire, release, attach and detach: while at least one hold is open, whichever of several it is, the address keeps its group, even if its last connection is closed, and the holds add up. |
| `ConnAdmission.PickVictim` | lib/src/system_sockets_container.c:789-802 | The evictable member with the oldest transfer, or none exactly if there is none. |
| `ConnAdmission.OneLess` | lib/src/system_sockets.c:1415-1428 | Every look at a connection, closed or noted as active, leaves one candidate less: the loop ends. |
| `ConnAdmission.Admit` | lib/src/system_sockets.c:1396-1445 | Room exactly if the group is below the limit at the end; every look was at the evictable member with the oldest transfer in a full group, at most one look for each candidate; a refusal means that every member is busy or was found in this call with input waiting. |
| `SockList.Sockets.Add` | lib/src/system_sockets_container.c:220-237 | A socket goes to the end of the list once; the client count follows. |
| `SockList.Sockets.Unlink` | lib/src/system_sockets_container.c:97-120 | A socket leaves the list; count, tail and cursor follow, the cursor is never left on it. |
| `SockList.PickGlobalVictim` | lib/src/system_sockets_container.c:1230-1258 | The oldest evictable connection among those passed, from the cursor on; the scan ends where it has for the first time looked at two windows, or at one with a victim passed, or passed as many sockets as there are clients, and eight more; the cursor stays on the list, where the scan has ended. |
| `SockList.WholeRound` | lib/src/system_sockets_container.c:1230-1258 | A scan all the way round without a victim means that no connection is evictable. |
| `SockList.EnsureTotalRoom` | lib/src/system_sockets.c:1455-1498 | Room exactly if the total is below the limit, or comes down even with one more; at most eight looks, each with the total at the limit or above and at the victim of a scan; those without input waiting are closed, each with its backend; without room, eight looks or a scan without a victim. |
| `SockList.ToldCloses` | lib/src/system_sockets.c:1455-1498 | Over the looks of a call nobody comes in, and who is gone was evictable and without input waiting, or the backend of such a one. |
| `SockList.Admit` | lib/src/reverse_proxy.c:2034-2039 | The socket comes in exactly if there is room, to a list that the looks have left; an admission never takes the total above the limit, and from above the limit it leaves a strictly smaller total. |
| `SockList.TotalBounded` | lib/src/system_sockets.c:1455-1498 | Over every allowed run the total stays within the larger of the limit and where it began. |
| `SockList.Serve` | lib/src/system_sockets.c:1455-1498 | Every run of admissions and closings on the list is an allowed run, in which only a socket admitted is new to the list, and its totals stay within the larger of the limit and where it began. |
| `SockList.TotalComesDown` | lib/src/system_sockets.c:1455-1498 | While the total is above the limit it falls by at least one for each admission. |
| `LoopClock.Clock.BeforeWait` | lib/src/system_sockets_container.c:889-906 | What the last round was busy beyond one second is taken out, modulo 2^32; how long to wait. |
| `LoopClock.Clock.AfterWait` | lib/src/system_sockets_container.c:911-924 | The reading is the exact clock modulo 2^32, with 1 in place of 0, and 0 without a clock. |
| `LoopClock.Clock.Round` | lib/src/system_sockets_container.c:889-924 | A round advances the clock by the time waited and at most one second of the time before; it never runs backwards. |
| `LoopClock.RunAdvance` | lib/src/system_sockets_container.c:889-924 | Over any run the clock advances by what was waited and at most a second per round. |
| `LoopClock.ExpiredExact` | lib/src/system_sockets_container.c:928-930 | A deadline is exact for stamps less than 2^32 seconds apart, but for the second the floor adds or takes. |
| `LoopClock.LaterExact` | lib/src/system_sockets_container.c:932-934 | The later of two stamps less than 2^31 seconds apart. |
| `TimeoutSweep.Sweeper.Collect` | lib/src/system_sockets_container.c:1137-1182 | The walk collects due sockets, at most 64 to close and 64 to ping; it says that there are more only when a batch is full, and else has them all. |
| `TimeoutSweep.Sweeper.Sweep` | lib/src/system_sockets_container.c:1137-1207 | Every socket is treated as it should be: a verdict to close closes it; a verdict to close it if idle closes it unless it was spared less than two ticks ago, or has input waiting and was not spared yet, and then it is marked as spared now; with nothing against it the mark goes. Only with more to do than a batch holds some are left as they were; then there are at least 64 fewer that are due, else none. |
| `TimeoutSweep.SweepOut` | lib/src/system_sockets_container.c:1209-1217 | Sweeps repeated in the same second end with nothing due. |
| `TimeoutSweep.SparedOnce` | lib/src/system_sockets_container.c:1150-1207 | Over the sweeps that reach a socket whose verdict stays, it is spared at most once, by the first and only with input waiting, and is gone after any sweep two seconds later (three where the floor of the clock takes one), whatever input is waiting then. |
| `TimeoutSweep.SweepRun` | lib/src/system_sockets_container.c:1137-1217 | Any run of sweeps over the list, overflowing ones among them, with any verdicts on the other sockets: a socket whose verdict stays is spared at most once, a full sweep three seconds or more after a full sweep finds it gone or closes it, and so does the first full sweep if no input was waiting up to then. |
| `TimeoutSweep.PingSettles` | lib/src/system_sockets_container.c:983-1027 | After its ping a websocket is kept by all further sweeps of that second. |
| `TimeoutSweep.PongDeadline` | lib/src/system_sockets_container.c:1006-1027 | Without an answer the socket is closed exactly from the pong time after the ping went out. |
| `TimeoutSweep.WsVerdict` | lib/src/system_sockets_container.c:983-1027 | The verdict on a websocket in unbounded seconds, for all stamps less than 2^31 seconds old: closed exactly if frames wait and neither their queueing nor the last transfer is recent enough, or it should have closed, or a ping that is out has not been answered in time; pinged exactly if nothing has come for the idle time; anything received since the ping settles it. |
| `WsQueue.WriteChunk` | lib/src/server_chunk_functions.c:34-66 | Text goes behind what is queued: the last chunk is filled up to 2000 octets before a new one follows, so that all new ones but the last are full, none is larger, and none but the last is touched. |
| `WsQueue.Queue.Append` | lib/src/server_chunk_functions.c:151-153 | Written and waiting together are everything queued, in order. |
| `WsQueue.Queue.SendPing` | lib/src/system_sockets_container.c:1112-1134 | The ping goes to the end of the queue, and its remembered place stands for that byte offset. |
| `WsQueue.Queue.SendHead` | lib/src/websocket_handler.c:84-118 | A chunk that is out is removed and counted, a partial send moves the position, everything else closes the connection; what counts as written is exactly what the socket has taken, so nothing is sent twice or out of order. |
| `WsQueue.Queue.OnWritable` | lib/src/websocket_handler.c:70-125 | The loop ends; what is written in it is exactly what the socket has taken in it, and stays a prefix of what was queued. |
| `WsQueue.LocatedOut` | lib/src/system_sockets_container.c:1066-1073 | In exact counters, the place test holds exactly when the number of octets written has reached the offset of the ping. |
| `WsQueue.LocatedShift` | lib/src/websocket_handler.c:88-97 | Removing a chunk keeps the place of the ping and its offset in step. |
| `WsQueue.LocatedGrown` | lib/src/server_chunk_functions.c:34-66 | So does appending, also to the chunk the ping is in. |
| `WsQueue.PingOutExact` | lib/src/system_sockets_container.c:1066-1073 | The 32-bit test says what the exact one says for 2^31 chunks on either side; further behind the ping exactly outside the second half of each lap of 2^32 (its last place excepted while the ping is still to be written there), and further ahead exactly inside. |
| `WsQueue.PingForgotten` | lib/src/system_sockets_container.c:1066-1073 | At every distance in the second half of a lap but its last place, the test denies a ping that is out. |
| `WsQueue.Queue.IsPingOut` | lib/src/system_sockets_container.c:1066-1073 | Within 2^31 chunks of the ping: out exactly when all octets up to its end are written, for every interleaving of the methods. |
| `WsFrames.StepData` | lib/src/websockets_send_recv.c:445-724 | A data frame is accepted exactly when it is in turn and its message stays within the limits: continuations without a start and starts within a message are rejected. |
| `WsFrames.StepControl` | lib/src/websockets_send_recv.c:726-790 | Pings and pongs between fragments leave the message alone; other control frames end the connection. |
| `WsFrames.Sound` | lib/src/websockets_send_recv.c:445-724 | While the connection lives, the data frames are messages cut into acceptable pieces, and exactly the joined pieces have been delivered. |
| `WsFrames.Complete` | lib/src/websockets_send_recv.c:445-724 | Messages cut up in any acceptable way, with pings and pongs anywhere, are delivered exactly. |
| `WsFrames.AcceptedIff` | lib/src/websockets_send_recv.c:445-790 | A sequence of frames is accepted exactly if it is such a sequence of messages. |
| `WsFrames.RunFaulted` | lib/src/websockets_send_recv.c:403-865 | Over every run the frame that ends the connection ends it for what it is: too big by itself or with its message, out of turn or no proper control frame, a text that is no UTF-8, a request to close, or a text in one frame that just reaches the limit; each exactly then. |
| `WsFrames.ControlsAnswered` | lib/src/websockets_send_recv.c:751-790 | Every ping is answered with its own payload, in order. |
| `WsFrames.RunBounded` | lib/src/websockets_send_recv.c:630-656 | The stored length is the sum of the kept fragments and stays below the limit, with at most 1024 frames, whatever is sent. |
| `WsReceiver.UnmaskedTwice` | lib/src/websockets_send_recv.c:470-478 | Unmasking undoes masking. |
| `WsReceiver.Unmask` | lib/src/websockets_send_recv.c:470-478 | The loop over the payload: each of the eight bits of each octet is set exactly if it differs from that bit of its octet of the mask. |
| `WsReceiver.UnmaskedExact` | lib/src/websockets_send_recv.c:470-478 | There is exactly one text under a mask: the one whose bits are set exactly where payload and mask differ. |
| `WsReceiver.Collect` | lib/src/websockets_send_recv.c:686-696 | The kept fragments are copied one behind the other. |
| `WsReceiver.Receiver.OnFrame` | lib/src/websockets_send_recv.c:445-790 | In place, for every complete frame: the fields are those of the machine after that frame with the text under its mask, bit by bit; an unmasked frame is a protocol error. |
| `WsReceiver.Receiver.OnStart` | lib/src/websockets_send_recv.c:446-562 | Likewise for a text or binary frame. |
| `WsReceiver.Receiver.OnContinue` | lib/src/websockets_send_recv.c:564-724 | Likewise for a continuation. |
| `HashTable.HashMap.Get` | lib/src/hashmap.c:231-261 | The value of the key cut to 4096 octets, or the null pointer. |
| `HashTable.HashMap.Put` | lib/src/hashmap.c:263-324 | A map update, also across a resize; the buckets are doubled exactly if a new key makes them more than three quarters full and there are fewer than 2^31 of them. |
| `HashTable.HashMap.Remove` | lib/src/hashmap.c:326-371 | A map removal, returning the value that was there. |
| `HashTable.MaskIsRemainder` | lib/src/hashmap.c:104-108 | For a power of two the mask gives the remainder, whatever the hash. |
| `HashTable.HashMap.InTheirBuckets` | lib/src/hashmap.c:104-324 | Every entry of the map stands in the bucket that is the remainder of its hash, and no other entry anywhere. |
| `HashTable.HashMap.ResizeIfNeeded` | lib/src/hashmap.c:113-164 | The same map, in twice the buckets exactly if they are more than three quarters full and fewer than 2^31. |
| `HashTable.Rehash` | lib/src/hashmap.c:139-156 | Moving every entry to its new bucket keeps the map. |
| `HashTable.MoveChain` | lib/src/hashmap.c:143-155 | Moving one chain adds exactly its entries. |
| `HashTable.LoadTestExact` | lib/src/hashmap.c:120-124 | For every count and capacity: when the 32-bit load test says what it should. |
| `HashTable.LoadTestMisses` | lib/src/hashmap.c:120-124 | It passes a table of 2^31 buckets with 2^31 entries. |
| `HashWalk.ForEachSorted` | lib/src/hashmap.c:408-451 | The walk visits every key of the map once, each behind those that are its beginnings or have the smaller octet where they first differ from it, with its value. |
| `HashWalk.LessIff` | lib/src/hashmap.c:400-406 | One key comes before another exactly if it is a proper beginning of it or has the smaller octet at the first place where they differ. |
| `HashWalk.CollectKeys` | lib/src/hashmap.c:433-441 | The collected keys are those of the map, each once. |

## Left out

- PostStream.Receiver.Feed: for a handler that sees the cuts, phase and held octets at the end of the one call in which the upload is aborted are not given, only the calls are; in every call before and after it they are those of the machine. The buffers of form fields are not part of it, because their limits count per emitted piece.
- PostStream.Receiver.BeginPart: the analysis of a part header is an arbitrary function of its octets; quoting and the choice among duplicate parameters are not modelled.
- WsQueue.Queue.IsPingOut: is the exact test for distances below 2^31 chunks; for a ping that is out it says how the answer goes on beyond.
- MultipartUpload.Upload: is for handlers that never abort; what the others hear is in `FeedAll` and `Protocol`.
- HashWalk.ForEachSorted: asks for fewer than 2^32 entries, the range of the counter that bounds the walk; the library sort is modelled by an insertion sort.
- ProxyStream.Response.OnHeader: how a header announces an upgrade and its framing is an arbitrary function of the header.
- TimeoutSweep.Sweeper.Sweep: the verdict on a socket is a given of each sweep, except that of websockets, which is modelled apart; a proxy backend that is closed with its client is not in the list.
- SockList.Admit: a socket that is in the list already is admitted without a change.
- Widths other than those named: lengths and counters of 32 or 64 bits that the program bounds by other limits are unbounded here.
- Allocation failure: the allocator ends the process instead of returning.
- Null arguments of the hash map functions, which return at once.
- Sockets, TLS, event back-ends, files, threads and mutexes themselves.
- Start of a stream: choice of the handler, authorisation and the size limit before a body is read.
- Request side of the proxy: header rewriting, forwarding headers, connecting to the backend, access log.
- Websocket stream handlers, growth of the input buffer, frame headers and extensions.
- Timeouts of proxy connections and plain requests: their deadlines use the same comparison as the websocket ones.
- Buffered multipart bodies, which follow other rules than streamed ones.
- Hash functions, templates, sessions, cookies, header printing and language bindings.
- Order of two steps in `ConnGroups.Table.Attach`: the transfer is noted before the links are set and not after, which nothing can observe.
