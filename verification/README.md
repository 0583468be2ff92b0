# Protocol stacks of restys: a Dafny model

This project models the protocol and resource-accounting code of the HTTP client library and proves what it keeps.

- **HTTP/2 receive flow control** (`Flow`, `ReceiveFlow`, `ReceiveBytes`, `PeerAgreement`, `ReceiveConn`): two levels of windows with batched credit, DATA processing, body reads and closes, the bytes they return, and a server behind two FIFO channels.
- **HTTP/2 send flow control and request bodies** (`SendFlow`, `SendConn`, `RequestBody`).
- **HTTP/2 buffering** (`DataBuffer`, `Pipe`): a byte queue over chunks with two ways to end.
- **HTTP/2 stream lifecycle** (`Lifecycle`, `LifecycleHistory`, `LifecycleConn`): IDs, limits, GOAWAY, resets and retries.
- **HTTP/2 framing** (`FrameCodec`, `FrameRules`, `HeaderBlocks`, `Framing`): ten frame types, splitting and reassembling header blocks.
- **The HTTP/1 connection pool** (`ConnPool`, `PoolSafety`, `PoolOwnership`, `PoolRuns`, `PoolOrder`, `PoolQueues`, `ConnQueue`, `Http1Transport`): a step for each region of code that holds a lock.
- **Chunked coding** (`Chunked`, `ChunkedGrammar`, `ChunkedIO`).
- **HTTP/3** (`Varint`, `Http3Frames`, `Http3Body`, `Http3Message`, `Http3Stream`): variable-length integers, SETTINGS, messages under a Content-Length and wherever they break off.
- **The parallel downloader** (`ParallelDownload`) and **bisect patterns** (`Bisect`, `BisectSyntax`).

`dafny verify dfyconfig.toml` checks all of it. Most parts have the same shape: functions on values say what an operation does,
classes with the source's fields and loops are proved to do just that, and the properties over all runs are lemmas about the functions.

What the code does not enforce is a hypothesis of the lemmas: the server's SETTINGS_MAX_FRAME_SIZE is in the legal range, the client
announces its default settings, `ConnectionFlow` + 65535 is at most 2^31-1, and exact conservation of credit needs that no body
overruns its length and none is closed twice (`ReceiveFlow.StepConservesIff` is the exact condition).

The code differs from its documentation or from a standard in these places, and the model follows the code:

- A SETTINGS_INITIAL_WINDOW_SIZE that overflows a stream's window is ignored, where section 6.9.2 of RFC 7540 asks for a connection error (`SendFlow.SettingsMoveAllIff` is the exact condition, `SendFlow.OverflowingSettingsAreIgnored` the family of runs).
- DATA after END_STREAM, before HEADERS or with a body on HEAD is dropped without charging or refunding a window, so the server never gets the bytes back, where section 6.9 of RFC 7540 has them counted (`PeerAgreement.ServerMissesNothingIff` is the exact condition, `PeerAgreement.EarlyDataIsNotReturned` a family of runs).
- writeHeaders does not look at the results of its Write calls, so a first frame that is too large, or depends on a stream ID of 2^31 or more, disappears without an error (`HeaderBlocks.BlockSurvivesIff` is the exact condition, `HeaderBlocks.LargeFirstFrameIsLost` and `HeaderBlocks.LargeDependencyIsLost` the families).
- CloseIdleConnections forgets the LRU index, and with it connections that wait to be swept (`PoolRuns.LostIff` is the exact condition, `PoolRuns.ConnectionIsLost` a run).
- A chunk-size line without digits ends a chunked body, where section 7.1 of RFC 9112 asks for a digit (`Chunked.TextEndsBodyIff` is the exact condition, `Chunked.EmptySizeLineIsTheEnd` shows such lines).
- An HTTP/3 body that is shorter than its Content-Length, or that breaks off inside a DATA frame below it, inside any frame header, inside a frame that is skipped, inside SETTINGS or before announced trailers, ends in a clean io.EOF, as does one with a SETTINGS frame that ends inside a setting; sections 4.1.2 and 7.1 of RFC 9114 call these errors (`Http3Message.CleanEndIff` and `Http3Message.CleanEndIsCompleteIff` are the exact conditions, `Http3Message.CutDataWithoutLength` and the seven lemmas after it the families).
- `lastIndex` is computed in floating point: 2^53 bytes are where the guarantee that it is right ends (`ParallelDownload.LastIndexIsLast`); from there on the file may lose its last segment or the merger may wait for ever (`ParallelDownload.DownloadIsWholeIff`, `ParallelDownload.LargeTotalLosesItsLastSegment`, `ParallelDownload.LargeTotalExpectsOneTooMany`, `ParallelDownload.LateMergerWaits`).
- The downloader's 64-bit sums overflow in the last range of some totals above 2^62 (`ParallelDownload.RangesCoverIff` is the exact condition, `ParallelDownload.LargeSegmentsOverflow` a family).
- A request body that is shorter than its declared Content-Length still ends its stream without an error, where section 8.1.2.6 of RFC 7540 calls the message malformed (`RequestBody.WriteRequestBody`).
- Bisect strings with a y inside a longer piece are accepted (`BisectSyntax.AcceptedIff`, `BisectSyntax.WrittenIff`); some of them match nothing (`BisectSyntax.LeadingYMatchesNothing`).

## Model

| member | source | states |
|---|---|---|
| `Flow.Inflow.Init` | internal/http2/flow.go:22-25 | A fresh receive window has everything available and nothing held back. |
| `Flow.Inflow.Add` | internal/http2/flow.go:33-53 | Credit is batched: nothing announced while little is held back, otherwise all of it; the 32-bit sums are exact and the panics lie outside the precondition. |
| `Flow.Inflow.Take` | internal/http2/flow.go:57-64 | Accepts exactly the amounts that fit what is available, and takes exactly that. |
| `Flow.TakeInflows` | internal/http2/flow.go:68-75 | Takes from both windows or from neither, and from both exactly when both have enough. |
| `Flow.SumLooksRightIffFits` | internal/http2/flow.go:113-120 | The wrap-around test on the wrapped int32 sum is exactly the question whether the true sum fits. |
| `Flow.CreditIsBatched` | internal/http2/flow.go:33-53 | A WINDOW_UPDATE carries at least 4096 bytes or as many as the peer has left; until then credit waits, and none is lost. |
| `Flow.Outflow.Available` | internal/http2/flow.go:93-99 | The smaller of the stream's and the connection's window, also when one is negative. |
| `Flow.Outflow.Take` | internal/http2/flow.go:101-109 | Takes from the stream and from the connection alike. |
| `Flow.Outflow.Add` | internal/http2/flow.go:113-120 | Accepts exactly the sums that fit an int32, and leaves the window alone otherwise. |
| `DataBuffer.ChunkSize` | internal/http2/databuffer.go:31-44 | The chunk chosen is one of the five size classes: the smallest that is large enough, or the largest when none is. |
| `DataBuffer.DataBuffer.Read` | internal/http2/databuffer.go:80-103 | Delivers the first bytes of the contents, as many as there is room for, and removes exactly them; an empty buffer is the error. |
| `DataBuffer.DataBuffer.FirstChunkEnd` | internal/http2/databuffer.go:105-110 | The unread part of the first chunk stays in bounds and is not empty while there are contents. |
| `DataBuffer.DataBuffer.FirstChunkIsPrefix` | internal/http2/databuffer.go:105-110 | What the first chunk holds unread is a prefix of the contents. |
| `DataBuffer.DataBuffer.ReadFirstChunk` | internal/http2/databuffer.go:84-101 | One round of Read: a chunk that is used up is dropped, and the contents lose exactly what was copied. |
| `DataBuffer.DataBuffer.Write` | internal/http2/databuffer.go:118-136 | Appends all of the data to the contents, over however many chunks that takes. |
| `DataBuffer.DataBuffer.LastChunkOrAlloc` | internal/http2/databuffer.go:138-149 | Returns the last chunk with room left, or a new one; the contents stay. |
| `DataBuffer.DataBuffer.WriteLastChunk` | internal/http2/databuffer.go:120-134 | One round of Write: a positive amount goes behind the contents. |
| `Pipe.Pipe.SetBuffer` | internal/http2/pipe.go:35-42 | A buffer installed on an open pipe that has none is the empty queue of the specification; an ended pipe ignores it. |
| `Pipe.Pipe.Len` | internal/http2/pipe.go:44-51 | The bytes still to be read, or those that were unread when the pipe was broken. |
| `Pipe.Pipe.Read` | internal/http2/pipe.go:55-79 | Breaking wins over data, data over closing; readFn runs at most once, as the close error is first returned. |
| `Pipe.Pipe.Write` | internal/http2/pipe.go:87-106 | Appends to an open pipe, and returns errClosedPipeWrite after a close or a break. |
| `Pipe.Pipe.CloseWithErrorAndCode` | internal/http2/pipe.go:120-145 | The first close error stays; what is buffered remains readable. |
| `Pipe.Pipe.BreakWithError` | internal/http2/pipe.go:116-145 | The first break error stays; what is buffered is counted as unread and thrown away. |
| `Pipe.DeliveredIsPrefix` | internal/http2/pipe.go:44-145 | Over every run the delivered bytes are a prefix of the accepted ones, and Len is accepted minus delivered as long as nothing was broken. |
| `Pipe.CloseDeliversEverythingFirst` | internal/http2/pipe.go:55-79 | After a close, the reader gets the error only once every accepted byte has been delivered. |
| `Pipe.ClosedAcceptsNothing` | internal/http2/pipe.go:87-106 | Once ended, no run accepts another byte. |
| `Pipe.BreakDeliversNothing` | internal/http2/pipe.go:111-145 | Once broken, no run delivers another byte. |
| `Pipe.ReadsDrain` | internal/http2/pipe.go:55-79 | Reads of positive sizes drain a closed pipe completely. |
| `Pipe.DeliveredOnlyGrows` | internal/http2/pipe.go:55-145 | Nothing delivered or accepted is taken back by later operations. |
| `Pipe.StepKeepsInv` | internal/http2/pipe.go:35-145 | The invariant of pipe and ledger holds after each operation. |
| `ReceiveFlow.DeliverKeepsBody` | internal/http2/transport.go:2777-2846 | Delivering a DATA frame charges both windows, and what is refunded, buffered or lost adds up to what was charged. |
| `ReceiveFlow.ReadKeepsBody` | internal/http2/transport.go:2652-2681 | Taking bytes from a body moves them from unread to in hand; an overrun loses exactly what was taken. |
| `ReceiveFlow.CreditReadKeepsBody` | internal/http2/transport.go:2682-2704 | The bytes in hand go back to the connection window, and to the stream window unless the body ended. |
| `ReceiveFlow.CreditCloseKeepsBody` | internal/http2/transport.go:2706-2742 | Close gives the unread bytes back to the connection window. |
| `ReceiveFlow.OneBodyChanges` | internal/http2/transport.go:2652-2858 | A step changes one body, the one it names, and the connection window. |
| `ReceiveFlow.StepKeepsConsistent` | internal/http2/transport.go:2652-2858 | Live streams, bodies and windows stay consistent at every step. |
| `ReceiveFlow.StepConservesIff` | internal/http2/transport.go:2652-2858 | A step conserves connection credit (available, held back and owed by bodies) if and only if it is neither an overrun nor a repeated close. |
| `ReceiveBytes.ReadsReturnTheStory` | internal/http2/transport.go:2646-2846 | Main: in every run every read returns exactly the next payload bytes of the DATA frames its stream received while open, as far as the Content-Length allows, and the right error. |
| `ReceiveBytes.NothingIsLost` | internal/http2/transport.go:2646-2846 | In every run what was returned is a prefix of what was received; as long as nothing failed the rest is what is buffered, and no more than the Content-Length was returned. |
| `ReceiveBytes.EOFMeansAll` | internal/http2/transport.go:2652-2681 | A reader that sees io.EOF has been given everything that was received, and exactly as much as was declared. |
| `ReceiveBytes.DataErrorIff` | internal/http2/transport.go:2744-2797 | DATA ends the connection if and only if its stream was never opened, or it exceeds a window it counts for. |
| `ReceiveBytes.DataAbortsIff` | internal/http2/transport.go:2777-2858 | DATA ends the reading of its stream if and only if it is out of place or the stream's pipe takes no more. |
| `ReceiveBytes.TableFollows` | internal/http2/transport.go:2194-2212 | The table has exactly the streams that were added and not forgotten, under IDs two apart. |
| `ReceiveBytes.StreamCreditIsConserved` | internal/http2/transport.go:2682-2704 | In every run a stream's window, its credit held back and the bytes it still has add up to what it began with, as long as it was not aborted, closed or overrun. |
| `PeerAgreement.StartAgrees` | internal/http2/transport.go:751-777 | After the preface, every window is at least what the server has been or will be told. |
| `PeerAgreement.WindowsInNumbers` | internal/http2/transport.go:751-777 | A stream begins with 4 MiB, the connection with what is configured on top of 65535. |
| `PeerAgreement.ServerSendsAgrees` | internal/http2/flow.go:33-75 | A server that sends within its windows keeps the agreement. |
| `PeerAgreement.ServerReceivesAgrees` | internal/http2/flow.go:33-53 | So does delivering SETTINGS, WINDOW_UPDATE or a new stream to it. |
| `PeerAgreement.AddStreamAgrees` | internal/http2/transport.go:2194-2204 | A new stream starts in agreement, because SETTINGS are ahead of it in the channel. |
| `PeerAgreement.ClientStepAgrees` | internal/http2/transport.go:2652-2858 | Every step of the client keeps the agreement: live, forgotten, aborted, padded and closed-pipe cases. |
| `PeerAgreement.NoErrorWhileAgreed` | internal/http2/transport.go:2744-2858 | While in agreement, no DATA frame raises FLOW_CONTROL_ERROR. |
| `PeerAgreement.PeerWithinWindowsIsNeverRefused` | internal/http2/transport.go:2744-2858 | Main: in every run, a server inside the windows it was told never makes the client raise FLOW_CONTROL_ERROR. |
| `PeerAgreement.CarefulNeverPanics` | internal/http2/flow.go:33-53 | inflow.add does not panic at a step that neither overruns nor closes twice. |
| `PeerAgreement.CreditIsConserved` | internal/http2/transport.go:2652-2858 | Main: over every such run the connection's credit equals the initial window. |
| `PeerAgreement.ServerMissesNothingIff` | internal/http2/transport.go:2777-2846 | Main: over every such run, the server's connection window with what is in flight equals the client's, if and only if no DATA with bytes arrived after END_STREAM, before HEADERS or with a body on HEAD. |
| `PeerAgreement.QuietServerHoldsHalf` | internal/http2/flow.go:33-53 | Once everything has been consumed and announced, the server holds more than half the window, not counting what the client dropped unaccounted: the server itself does when nothing was dropped so. |
| `PeerAgreement.EarlyDataIsNotReturned` | internal/http2/transport.go:2786-2792 | DATA of any length before HEADERS: all is quiet afterwards, and the server is short of exactly these bytes, 40000 of 65536 say. |
| `PeerAgreement.ClosingTwicePanics` | internal/http2/transport.go:2713-2717 | A concrete run: a second Close credits the unread bytes again, until inflow.add panics. |
| `PeerAgreement.OverrunLosesCredit` | internal/http2/transport.go:2661-2668 | A concrete run: an over-length body keeps the credit of the bytes it took. |
| `ReceiveConn.ClientConn.AddStreamLocked` | internal/http2/transport.go:2194-2204 | A new stream with its own window under the next ID; everything else stays. |
| `ReceiveConn.ClientConn.StreamByID` | internal/http2/transport.go:2881-2888 | Finds exactly the streams in the table whose reading was not aborted. |
| `ReceiveConn.ClientConn.ProcessHeaders` | internal/http2/transport.go:2580-2600 | Installs the body's buffer and length, or ends the stream. |
| `ReceiveConn.ClientConn.ProcessData` | internal/http2/transport.go:2744-2858 | processData with its connection errors and the WINDOW_UPDATEs it sends, exactly as ReceiveFlow.Do has it. |
| `ReceiveConn.ClientConn.RefundUnwantedData` | internal/http2/transport.go:2748-2776 | DATA for a forgotten stream is charged and given back to the connection at once. |
| `ReceiveConn.ClientConn.ProcessFoundData` | internal/http2/transport.go:2777-2800 | The checks on DATA for a stream in the table, in their order. |
| `ReceiveConn.ClientConn.DeliverData` | internal/http2/transport.go:2790-2858 | Charging both windows, padding refund, writing to the pipe. |
| `ReceiveConn.ClientConn.PourData` | internal/http2/transport.go:2801-2826 | The pipe takes the data or the stream is reset; either way the amount to refund is right. |
| `ReceiveConn.ClientConn.BodyReadTake` | internal/http2/transport.go:2652-2681 | The taking half of a body read, with the declared length. |
| `ReceiveConn.ClientConn.BodyReadCredit` | internal/http2/transport.go:2682-2704 | The crediting half, under the connection's lock. |
| `ReceiveConn.ClientConn.BodyCloseBreak` | internal/http2/transport.go:2706-2712 | Close breaks the pipe. |
| `ReceiveConn.ClientConn.BodyCloseCredit` | internal/http2/transport.go:2710-2729 | And gives its unread bytes back to the connection. |
| `ReceiveConn.ClientConn.ForgetStreamID` | internal/http2/transport.go:2206-2212 | The stream leaves the table; its body lives on. |
| `SendFlow.StepKeepsInv` | internal/http2/transport.go:1828-1862 | Each step keeps the books of grants and takes. |
| `SendFlow.BooksBalance` | internal/http2/transport.go:1828-3026 | Main: in every run, each window is its current initial size plus increments, minus bytes taken and, for a stream, minus the SETTINGS raises that were refused. |
| `SendFlow.TakesStayWithinGrants` | internal/http2/transport.go:1828-1862 | A take never exceeds what the server has granted, to the stream or to the connection. |
| `SendFlow.SettingsNeverUnderflow` | internal/http2/transport.go:2955-2973 | A SETTINGS delta never takes a stream window below -(2^31-1), so it never wraps downwards. |
| `SendFlow.SettingsMoveAllIff` | internal/http2/transport.go:2955-2973 | Main: after every run, a SETTINGS change moves every stream window by exactly the difference if and only if none would exceed 2^31-1; there is never an error. |
| `SendFlow.UpdateAcceptedIffFits` | internal/http2/transport.go:2998-3026 | WINDOW_UPDATE is accepted exactly when the sum fits an int32; otherwise it is a connection error for stream 0 and a stream error, ending the stream's reading, for a stream that is found; unknown and read-aborted streams ignore it. |
| `SendFlow.SizesAreTheServers` | internal/http2/transport.go:2947-2995 | In every run the initial window and the frame size in force are those the server named last, from 65535 and 16384 on. |
| `SendFlow.LargeInitialWindowIsRefused` | internal/http2/transport.go:2955-2965 | An initial window above 2^31-1 is a connection error, and no other is. |
| `SendFlow.GrantIsLargest` | internal/http2/transport.go:1848-1858 | A take is as large as what was asked, both windows and the frame size allow. |
| `SendFlow.TableFollows` | internal/http2/transport.go:2194-2212 | Only adding and forgetting change which streams there are; a step leaves the windows it does not name. |
| `SendFlow.OverflowingSettingsAreIgnored` | internal/http2/transport.go:2966-2969 | The other case, for any stream and any raise: the window is full, SETTINGS raise the initial size, the window stays, and no error comes. |
| `SendConn.ClientConn.AddStreamLocked` | internal/http2/transport.go:2194-2204 | The stream's window starts at the current initial size. |
| `SendConn.ClientConn.AwaitFlowControl` | internal/http2/transport.go:1828-1862 | One turn of the wait: the error of a dead stream; or tokens, a positive amount, at most what was asked, both windows and the frame size allow; or, exactly when there are none, another wait with nothing changed. |
| `SendConn.ClientConn.ProcessInitialWindow` | internal/http2/transport.go:2955-2973 | The loop moves every stream window by the same delta. |
| `SendConn.ClientConn.ProcessWindowUpdate` | internal/http2/transport.go:2998-3026 | Stream or connection, accepted or in error; unknown and read-aborted streams are ignored. |
| `SendConn.ClientConn.AbortRead` | internal/http2/transport.go:2876-2888 | After endStreamError a stream is not found any more; its windows stay. |
| `SendConn.ClientConn.ForgetStreamID` | internal/http2/transport.go:2206-2212 | The stream leaves the table. |
| `RequestBody.ScratchLen` | internal/http2/transport.go:1641-1658 | The scratch buffer is never empty, and within the frame size and the 512 KiB limit. |
| `RequestBody.ReadYields` | internal/http2/transport.go:1705-1735 | A read takes the next bytes of what the body yields. |
| `RequestBody.ReadPiece` | internal/http2/transport.go:1700-1745 | One round of reading: data in order, and the length checks against Content-Length. |
| `RequestBody.SendFrame` | internal/http2/transport.go:1756-1780 | One DATA frame of exactly what a state of SendFlow with an open window grants, with END_STREAM only when the data is out and is the last. |
| `RequestBody.SendPiece` | internal/http2/transport.go:1747-1780 | One piece goes out in order in frames within the size then allowed, with END_STREAM only on the last. |
| `RequestBody.FinishBody` | internal/http2/transport.go:1783-1822 | Trailers or an empty DATA frame end the stream. |
| `RequestBody.WriteRequestBody` | internal/http2/transport.go:1682-1822 | Main: on success exactly the body's bytes in order, one END_STREAM and nothing after it, and as many as declared if and only if the body yielded as many; in every case never more than the declared Content-Length. |
| `Lifecycle.StepKeepsInv` | internal/http2/transport.go:818-1596 | Stream table, requests and recorded failures agree after each step. |
| `Lifecycle.RunKeepsInv` | internal/http2/transport.go:818-2232 | Main: they agree in every run. |
| `Lifecycle.OpenAddsWhenAllowed` | internal/http2/transport.go:1577-1596 | A turn of the wait either adds nothing or adds the next ID, below the limit and with no mark against the connection. |
| `Lifecycle.AddedOnlyWhenAllowed` | internal/http2/transport.go:922-942 | Main: in every run a stream is added only below the limit then in force, without GOAWAY or close; IDs strictly increase and stay below 2^31. |
| `Lifecycle.NoneAddedAfterTheEnd` | internal/http2/transport.go:818-851 | After GOAWAY, close or do-not-reuse no run adds a stream. |
| `Lifecycle.ForgetFindsItsStream` | internal/http2/transport.go:2206-2212 | The panic "forgetting unknown stream id" is unreachable. |
| `Lifecycle.RetryableIsSafe` | internal/http2/transport.go:561-573 | Main: a retryable failure means HEADERS were never sent, or a GOAWAY excluded the stream, or the server reset it with REFUSED_STREAM or PROTOCOL_ERROR. |
| `Lifecycle.RoundTripOpt` | internal/http2/transport.go:457-508 | At most 8 attempts; each was resent after a failure that makes it safe to resend; it gives up only after the eighth, at a failure not to be retried, at a failing GetClientConn, or when the context ends during a wait; and returns the last attempt's failure or the context's error. |
| `LifecycleHistory.LimitIsTheServers` | internal/http2/transport.go:2947-2995 | In every run the concurrency limit is the one the server named last; until then 100, and 1000 after a first SETTINGS frame without one. |
| `LifecycleHistory.AddedBelowTheServersLimit` | internal/http2/transport.go:1577-1596 | Main: in every run a stream is added only below the limit that the server named last. |
| `LifecycleHistory.GoAwayCodeIsTheFirst` | internal/http2/transport.go:818-830 | The merged GOAWAY code is the first that is not NO_ERROR. |
| `LifecycleHistory.FailsForTheFirstReason` | internal/http2/transport.go:818-851 | Main: at every step, a request fails if and only if the step gives it a reason, with just that reason, and a first reason stays. |
| `LifecycleHistory.GoAwayAborts` | internal/http2/transport.go:831-850 | GOAWAY aborts exactly the streams above its last ID that had not failed, with the reason that says whether to retry, and leaves the others alone. |
| `LifecycleHistory.RetryableIff` | internal/http2/transport.go:561-573 | What fails is retried exactly when GOAWAY excluded it (but not the first stream after an error), or the server reset it with REFUSED_STREAM or PROTOCOL_ERROR, or it never got a stream. |
| `LifecycleHistory.MarksTell` | internal/http2/transport.go:818-942 | In every run the marks say exactly whether a GOAWAY, a shutdown, a do-not-reuse or a PROTOCOL_ERROR reset came, and whether the connection was closed or closed itself when idle. |
| `LifecycleHistory.CanTakeIff` | internal/http2/transport.go:922-942 | Main: in every run a connection can take a request if and only if nothing turned requests away or closed it, there is room under the server's limit and among the IDs, and it has not idled too long. |
| `LifecycleHistory.OpensIff` | internal/http2/transport.go:1577-1596 | A turn of the wait adds a stream if and only if the request still wants one, is admitted, and there is room. |
| `LifecycleHistory.PendingIsWaiting` | internal/http2/transport.go:1577-1596 | In every run pendingRequests is the number of requests that wait for a slot. |
| `LifecycleConn.ClientConn.IdleStateLocked` | internal/http2/transport.go:922-942 | True exactly when the connection can take a request. |
| `LifecycleConn.ClientConn.ReserveNewRequest` | internal/http2/transport.go:867-875 | Reserves exactly when the connection can take a request. |
| `LifecycleConn.ClientConn.AwaitOpenSlot` | internal/http2/transport.go:1577-1596 | One turn of the wait: leaves, is refused, enters with the next ID, or waits on, exactly as Lifecycle.Do has it. |
| `LifecycleConn.ClientConn.AddStreamLocked` | internal/http2/transport.go:2194-2204 | The next ID goes to the request. |
| `LifecycleConn.ClientConn.ForgetStreamID` | internal/http2/transport.go:2206-2232 | The stream leaves the table, and an idle connection that may not be reused closes, exactly as Lifecycle.Do has it. |
| `LifecycleConn.ClientConn.SetGoAway` | internal/http2/transport.go:818-851 | The loop over the table aborts exactly the streams above the last ID, with the right reason. |
| `LifecycleConn.ClientConn.ProcessResetStream` | internal/http2/transport.go:3028-3046 | The request fails with the server's code unless it failed before, and PROTOCOL_ERROR ends reuse. |
| `LifecycleConn.ClientConn.ProcessSettings` | internal/http2/transport.go:2947-2995 | The concurrency limit after a SETTINGS frame, and after the first one without it. |
| `FrameCodec.U24RoundTrip` | internal/http2/frame.go:361-375 | The 24-bit length survives. |
| `FrameCodec.U32RoundTrip` | internal/http2/frame.go:405-409 | So does every 32-bit field. |
| `FrameCodec.HeaderRoundTrip` | internal/http2/frame.go:240-252 | The reader derives the written header, and finds the payload and what follows it. |
| `FrameCodec.DataRoundTrip` | internal/http2/frame.go:655-762 | DATA with and without padding. |
| `FrameCodec.HeadersRoundTrip` | internal/http2/frame.go:1078-1190 | HEADERS with padding, and priority with its exclusive bit. |
| `FrameCodec.PriorityRoundTrip` | internal/http2/frame.go:1199-1240 | The five priority bytes. |
| `FrameCodec.PushPromiseRoundTrip` | internal/http2/frame.go:1331-1422 | PUSH_PROMISE with padding and the 31-bit promised ID. |
| `FrameCodec.GoAwayRoundTrip` | internal/http2/frame.go:957-984 | GOAWAY with its debug data. |
| `FrameCodec.SettingsRoundTrip` | internal/http2/frame.go:828-895 | Every setting of a list comes back at its index. |
| `FrameCodec.ValueIsFirstValue` | internal/http2/frame.go:816-826 | Value returns the first setting with the ID. |
| `FrameCodec.SettingsFrameRoundTrip` | internal/http2/frame.go:774-834 | A SETTINGS frame parses back exactly when its initial window size is in range. |
| `FrameCodec.NumberRoundTrip` | internal/http2/frame.go:1010-1048 | RST_STREAM and WINDOW_UPDATE. |
| `FrameCodec.PayloadRoundTrip` | internal/http2/frame.go:144-155 | Every written payload parses to the written fields, exactly when the reader accepts its settings. |
| `FrameCodec.FrameRoundTrip` | internal/http2/frame.go:240-409 | A written frame, followed by anything, reads back and leaves exactly what follows. |
| `FrameCodec.StreamRoundTrip` | internal/http2/frame.go:526-1422 | Main: any list of legal frames reads back as written with nothing left over. |
| `FrameRules.RefusedIff` | internal/http2/frame.go:634-1320 | Main: a frame is refused if and only if its size, its stream ID, its padding, its increment or its initial window breaks the rules of sections 6.1 to 6.10 of RFC 7540. |
| `FrameRules.ErrorsAre` | internal/http2/frame.go:634-1320 | And with which error code, of the stream or of the connection. |
| `FrameRules.TooLargeIff` | internal/http2/frame.go:526-545 | A frame is too large if and only if its length exceeds the limit. |
| `FrameRules.WrittenIff` | internal/http2/frame.go:634-1422 | A frame is written if and only if its stream IDs, increment and padding are legal and it fits 24 bits of length. |
| `FrameRules.BigEndian` | internal/http2/frame.go:361-409 | Integers go out most significant byte first. |
| `FrameRules.DataOnTheWire` | internal/http2/frame.go:722-762 | The bytes of DATA frames. |
| `FrameRules.PingOnTheWire` | internal/http2/frame.go:929-937 | The bytes of PING frames. |
| `FrameRules.SettingsOnTheWire` | internal/http2/frame.go:886-902 | The bytes of SETTINGS frames. |
| `FrameRules.ControlFramesOnTheWire` | internal/http2/frame.go:974-1048 | The bytes of RST_STREAM, WINDOW_UPDATE and GOAWAY frames. |
| `FrameRules.PriorityOnTheWire` | internal/http2/frame.go:1224-1240 | The bytes of PRIORITY frames. |
| `FrameRules.HeadersOnTheWire` | internal/http2/frame.go:1155-1190 | The bytes of HEADERS frames. |
| `FrameRules.PaddedHeadersOnTheWire` | internal/http2/frame.go:1155-1190 | The same with padding and priority. |
| `FrameRules.FragmentsOnTheWire` | internal/http2/frame.go:1301-1422 | The bytes of PUSH_PROMISE and CONTINUATION frames. |
| `HeaderBlocks.AcceptedIffContiguous` | internal/http2/frame.go:598-632 | Main: checkFrameOrder accepts exactly the sequences whose header blocks are contiguous. |
| `HeaderBlocks.ParsedAsTyped` | internal/http2/frame.go:1082-1089 | A parsed frame has the Go type its type byte says, and HEADERS and CONTINUATION are never on stream 0. |
| `HeaderBlocks.SplitIsWhole` | internal/http2/transport.go:1599-1623 | One HEADERS frame, then CONTINUATION frames, END_HEADERS on the last alone, fragments of just the limit but for the last. |
| `HeaderBlocks.ContinuationsReassemble` | internal/http2/frame.go:1625-1670 | CONTINUATION frames read back to the bytes they were cut from. |
| `HeaderBlocks.SplitReassembles` | internal/http2/frame.go:1625-1670 | Main: a split header block reads back whole, with its END_STREAM flag and everything behind it. |
| `HeaderBlocks.BlockSurvivesIff` | internal/http2/transport.go:1599-1623 | What really reaches the wire reads back if and only if the first frame, with its priority bytes, fits 24 bits of length and its dependency fits 31. |
| `HeaderBlocks.LargeFirstFrameIsLost` | internal/http2/transport.go:1599-1623 | Blocks it fails for: 2^24-1 bytes or more, with a priority, to a peer that allows frames of that size; of just that many nothing is written at all. |
| `HeaderBlocks.LargeDependencyIsLost` | internal/http2/transport.go:1599-1623 | With a configured dependency of 2^31 or more HEADERS is lost, whatever the block; of a block that fits one frame nothing is written at all. |
| `Framing.Framer.StartWrite` | internal/http2/frame.go:347-359 | The nine header bytes with the length still to come. |
| `Framing.Framer.EndWrite` | internal/http2/frame.go:361-381 | Writes the frame with its length, or nothing if it is too large. |
| `Framing.Framer.WriteDataPadded` | internal/http2/frame.go:722-762 | Succeeds exactly for legal arguments, and writes exactly the frame. |
| `Framing.Framer.WriteHeaders` | internal/http2/frame.go:1155-1190 | Succeeds exactly for legal arguments, and writes exactly the frame. |
| `Framing.Framer.WritePriority` | internal/http2/frame.go:1224-1240 | Succeeds exactly for legal arguments, and writes exactly the frame. |
| `Framing.Framer.WriteRSTStream` | internal/http2/frame.go:1264-1271 | Succeeds exactly for legal arguments, and writes exactly the frame. |
| `Framing.Framer.WriteSettings` | internal/http2/frame.go:886-893 | Writes the settings in order. |
| `Framing.Framer.WriteSettingsAck` | internal/http2/frame.go:899-902 | Writes an empty acknowledgement. |
| `Framing.Framer.WritePushPromise` | internal/http2/frame.go:1400-1422 | Succeeds exactly for legal arguments, and writes exactly the frame. |
| `Framing.Framer.WritePing` | internal/http2/frame.go:929-937 | Writes the eight bytes. |
| `Framing.Framer.WriteGoAway` | internal/http2/frame.go:974-980 | Masks the stream ID to 31 bits. |
| `Framing.Framer.WriteWindowUpdate` | internal/http2/frame.go:1040-1048 | Succeeds exactly for increments of 1 to 2^31-1. |
| `Framing.Framer.WriteContinuation` | internal/http2/frame.go:1301-1312 | Succeeds exactly for legal arguments, and writes exactly the frame. |
| `Framing.Framer.WriteHeaderBlock` | internal/http2/transport.go:1599-1623 | The loop writes exactly the frames of the split, minus those that are refused, up to the round in which the sticky write error shows. |
| `Framing.Framer.ReadFrame` | internal/http2/frame.go:526-584 | One frame that parses and comes in order, or the error, and the input behind it. |
| `Framing.Framer.CheckFrameOrder` | internal/http2/frame.go:598-632 | Accepts exactly what the order automaton does, and moves as it does. |
| `Framing.Framer.ReadMetaFrame` | internal/http2/frame.go:1625-1670 | The fragment loop gathers the whole block, under any frame size limit, or stops at the first error. |
| `Framing.ParsedInOrderIsContinuation` | internal/http2/frame.go:1662-1669 | Inside a header block the cast to *ContinuationFrame cannot fail. |
| `ConnQueue.WantConnQueue.PushBack` | transport.go:1716-1718 | Appends to the queue. |
| `ConnQueue.WantConnQueue.PopFront` | transport.go:1721-1733 | Takes the front of the queue over both stages, or nil exactly when it is empty. |
| `ConnQueue.WantConnQueue.PeekFront` | transport.go:1736-1744 | The front of the queue, or nil. |
| `ConnQueue.WantConnQueue.CleanFrontNotWaiting` | transport.go:1748-1757 | Drops exactly the leading waiters that no longer wait. |
| `ConnQueue.WantConnQueue.All` | transport.go:1772-1779 | Visits the queue in order. |
| `ConnQueue.DropDoneStep` | transport.go:1748-1757 | Popping a waiter that is done is the first step of dropping all of them. |
| `ConnPool.LeadingDone` | transport.go:1748-1757 | Where the first waiter stands that still waits. |
| `PoolSafety.DecKeeps` | transport.go:1940-1986 | Giving a place back hands it to a waiter whenever one waits, keeps the count exact and never underflows. |
| `PoolSafety.CloseKeepsDials` | transport.go:3579-3597 | Closing a connection gives its place back once. |
| `PoolSafety.DialReturnsKeepsDials` | transport.go:1917-1935 | So does a dial that failed or was not needed. |
| `PoolSafety.ConnectKeepsDials` | transport.go:1917-1935 | A dial that succeeds turns its place into the connection's. |
| `PoolSafety.QueueForDialKeepsDials` | transport.go:1872-1899 | A waiter dials at once below the limit, and queues only at it. |
| `PoolOwnership.DeliverKeeps` | transport.go:1653-1669 | Delivery to a waiter that waits keeps one owner and one outcome. |
| `PoolOwnership.CancelKeeps` | transport.go:1674-1691 | So does cancelling. |
| `PoolOwnership.RemoveKeeps` | transport.go:1562-1592 | Removing a connection takes it off its list and the index together. |
| `PoolOwnership.SweepKeeps` | transport.go:2596-2606 | So does the idle timer. |
| `PoolOwnership.EvictIsSweep` | transport.go:1445-1449 | Closing the oldest connection before unlinking it has the same effect as sweeping it. |
| `PoolOwnership.AddIdleKeeps` | transport.go:1428-1444 | A connection put back is in neither list nor index before, so the duplicate panics are unreachable. |
| `PoolOwnership.TryPutKeeps` | transport.go:1388-1462 | tryPutIdleConn keeps ownership, lists, index and both limits. |
| `PoolOwnership.DropStaleKeeps` | transport.go:1494-1515 | Dropping closed and too old connections off the end of a list keeps them in the index alone. |
| `PoolOwnership.TakeKeeps` | transport.go:1516-1530 | The newest usable connection goes to the waiter. |
| `PoolOwnership.QueueForIdleKeeps` | transport.go:1468-1552 | queueForIdleConn keeps the same. |
| `PoolOwnership.CloseIdleKeeps` | transport.go:1227-1238 | CloseIdleConnections keeps the same. |
| `PoolRuns.StepKeepsIdle` | transport.go:1354-1691 | Every step keeps ownership, lists, index and limits. |
| `PoolRuns.StepKeepsDials` | transport.go:1872-1986 | Every step keeps the counts and the dial queues, and does not panic. |
| `PoolRuns.RunKeepsInv` | transport.go:1354-1986 | Main: so does every run, from the empty pool, under every interleaving. |
| `PoolRuns.LimitHolds` | transport.go:1872-1986 | With a limit, the count is dials in progress plus open connections, at most the limit; who queues to dial queues at the limit. |
| `PoolRuns.OneOwner` | transport.go:1372-1691 | A connection is in one slot of one list, or in one channel, or in neither. |
| `PoolRuns.NoWaiterBesideIdle` | transport.go:1388-1552 | Nobody waits for an idle connection of a key that has one. |
| `PoolRuns.IdleLimitsHold` | transport.go:1428-1592 | Both idle limits hold, each list is in the index, and index extras were closed or too old. |
| `PoolRuns.CancelHandsBack` | transport.go:1674-1691 | A connection delivered to a waiter that gives up comes back out of its channel, ready to be put. |
| `PoolRuns.PutServesFirst` | transport.go:1388-1425 | A connection put back goes to the first waiter of its key that still waits, and to no list. |
| `PoolRuns.PutEnds` | transport.go:1427-1462 | When nobody waits it becomes idle, or is left to be closed, in exactly these cases; a negative MaxIdleConns closes it at once. |
| `PoolRuns.ListedIff` | transport.go:1427-1436 | Two connections are kept for a key unless MaxIdleConnsPerHost says otherwise. |
| `PoolRuns.ReturnsIff` | transport.go:1372-1379 | A connection is put back if and only if connections are kept at all and it is open. |
| `PoolRuns.DialsIff` | transport.go:1872-1899 | A request dials at once if and only if there is no limit or it is not reached. |
| `PoolOrder.RunInOrder` | transport.go:1443-1449 | In every run the idle lists and the index are in the order in which their connections were put back. |
| `PoolOrder.LatestPutIsServed` | transport.go:1493-1530 | Main: in every run a request for a key with a usable idle connection gets, of these, the one put back last. |
| `PoolOrder.PutThenGet` | transport.go:1385-1530 | A connection put back when nobody waits and there is room is the next to be used. |
| `PoolOrder.EarliestPutIsEvicted` | transport.go:1445-1449 | Main: in every run, what one connection put back makes leave the index was put back before all that stay, and is closed. |
| `PoolQueues.RunInLine` | transport.go:1540-1552 | In every run both kinds of queues are in the order of asking. |
| `PoolQueues.RunRegisters` | transport.go:1540-1552 | In every run every request that waits is in the queue of its key. |
| `PoolQueues.LongestWaitingIsServed` | transport.go:1388-1425 | Main: in every run a connection put back goes to the request for its key that has waited longest. |
| `PoolQueues.LongestQueuedDials` | transport.go:1955-1977 | Main: in every run the place of a connection that closes goes to the request queued to dial longest. |
| `PoolQueues.ClosingIff` | transport.go:1227-1233 | Connections are refused after CloseIdleConnections and kept again from the next request on. |
| `PoolRuns.PlaceServesFirst` | transport.go:1955-1977 | A place to dial that is given back goes to the first that still waits for one. |
| `PoolRuns.RequestGetsNewest` | transport.go:1493-1530 | A request gets the newest connection of its key that is open and not too old. |
| `PoolRuns.LostIff` | transport.go:1227-1238 | CloseIdleConnections newly leaves an open connection in no list, index or channel and with no goroutine, if and only if it was in the index, open, and not in the idle list of its key. |
| `PoolRuns.LostIsNotSwept` | transport.go:2596-2606 | The idle timer does nothing to such a connection: it stays open and counted. |
| `PoolRuns.OnlyCloseIdleAbandons` | transport.go:1227-1986 | Main: no step but that of CloseIdleConnections leaves an open connection with nobody. |
| `PoolRuns.AgedIsDropped` | transport.go:1494-1515 | A request that finds the newest idle connection too old takes it off its list still open. |
| `PoolRuns.AgedIsLost` | transport.go:1227-1238 | If CloseIdleConnections comes before the sweep, the sweep does nothing; otherwise it closes the connection. |
| `PoolRuns.ConnectionIsLost` | transport.go:1227-1515 | A run from the empty pool, for any keys and numbers, in which CloseIdleConnections leaves an open connection to nobody. |
| `Http1Transport.Transport.TryDeliver` | transport.go:1653-1669 | Delivers exactly to a waiter that still waits. |
| `Http1Transport.Transport.CancelWant` | transport.go:1674-1691 | Returns the delivered connection, or closes the channel. |
| `Http1Transport.Transport.QueueForDialLocked` | transport.go:1872-1899 | Dials at once below the limit, otherwise queues behind the waiters that still wait. |
| `Http1Transport.Transport.NextWaiting` | transport.go:1961-1968 | The loop pops waiters until one still waits. |
| `Http1Transport.Transport.DecConnsPerHost` | transport.go:1940-1986 | Hands the place to the first waiter that still waits, or lowers the count. |
| `Http1Transport.Transport.CloseConn` | transport.go:3579-3597 | Closes once, giving the place back. |
| `Http1Transport.Transport.RemoveIdleConnLocked` | transport.go:1562-1592 | The connection leaves index and list, the others keep their order; reports whether it was listed. |
| `Http1Transport.Transport.CloseConnIfStillIdle` | transport.go:2596-2606 | Unlinks and closes exactly the connections in the index. |
| `Http1Transport.Transport.EvictOldest` | transport.go:1445-1449 | The oldest connection leaves index and list, and is closed. |
| `Http1Transport.Transport.AddIdleConn` | transport.go:1428-1449 | The connection goes behind its list and in front of the index, and the oldest goes when there are too many. |
| `Http1Transport.Transport.CheckReusable` | transport.go:1372-1379 | A connection may be put exactly when idle connections are kept and it is not closed. |
| `Http1Transport.Transport.TryPutIdleConnLocked` | transport.go:1385-1462 | Hands over to the first waiter, or lists the connection, or refuses it; reports success exactly when it was taken. |
| `Http1Transport.Transport.SkipStale` | transport.go:1494-1515 | The loop leaves the list up to its newest usable connection. |
| `Http1Transport.Transport.QueueForIdleConn` | transport.go:1468-1552 | Takes the newest usable connection or registers the waiter, and reports which. |
| `Http1Transport.Transport.CloseIdleConnectionsLocked` | transport.go:1227-1233 | Takes every list and forgets the index. |
| `Chunked.ParseInvertsHex` | internal/chunked.go:245-264 | Main: parsing inverts hexadecimal printing for every 64-bit value, in at most 16 digits. |
| `Chunked.ValueBound` | internal/chunked.go:245-264 | Sixteen digits never exceed 64 bits. |
| `Chunked.DigitsAreHexadecimal` | internal/chunked.go:245-264 | The digits are 0 to 9, a to f and A to F with their values, and no other byte. |
| `Chunked.SizesInHexadecimal` | internal/chunked.go:245-264 | "1af" and "1AF" are 431, which is written as "1af". |
| `Chunked.DecodeSplits` | internal/chunked.go:103-121 | Reading a chunk in two pieces delivers the same. |
| `Chunked.DecodeChunk` | internal/chunked.go:205-229 | A written chunk is decoded to its data and what follows. |
| `Chunked.RoundTrip` | internal/chunked.go:47-234 | Main: writes then Close decode to the joined data, then io.EOF, leaving exactly what follows the last chunk line. |
| `Chunked.ChunkOnTheWire` | internal/chunked.go:205-229 | The bytes of a chunk. |
| `ChunkedGrammar.AcceptedIff` | internal/chunked.go:47-151 | Main: the reader delivers these bytes and then io.EOF if and only if the input is chunks with just these bytes and a line with the size zero. |
| `ChunkedGrammar.SizeIsTheDigits` | internal/chunked.go:130-179 | Spaces, tabs and a CR behind the digits of a size do not matter, and nothing does behind a semicolon. |
| `ChunkedGrammar.WrongEndIsMalformed` | internal/chunked.go:74-95 | Two bytes other than CRLF behind the data are an error. |
| `ChunkedGrammar.ShortData` | internal/chunked.go:103-121 | Data that ends early is delivered as far as it goes, with an unexpected end. |
| `ChunkedGrammar.LongLineIff` | internal/chunked.go:130-148 | A line is too long if and only if it has 4096 bytes or more. |
| `ChunkedGrammar.SizeRefusedIff` | internal/chunked.go:245-264 | A size is refused if and only if a byte among its first 17 is no digit or it has more than 16 digits. |
| `Chunked.ParsesToZeroIff` | internal/chunked.go:245-264 | A size parses to zero if and only if it is at most sixteen zeros, possibly none. |
| `Chunked.LineEndsBodyIff` | internal/chunked.go:47-61 | A line that was read ends the body if and only if, without its extension and trailing white space, it is such a size. |
| `Chunked.TextEndsBodyIff` | internal/chunked.go:47-151 | Main: for any text of a line, it ends the body where section 7.1 of RFC 9112 has a last chunk of up to sixteen digits, and besides exactly where there is no digit at all. |
| `Chunked.EmptySizeLineIsTheEnd` | internal/chunked.go:130-148 | Lines it happens for: blanks, or an extension alone, such as ";x". |
| `ChunkedIO.TrimTrailingWhitespace` | internal/chunked.go:153-158 | The longest prefix that does not end in whitespace. |
| `ChunkedIO.RemoveChunkExtension` | internal/chunked.go:173-179 | Everything before the first semicolon. |
| `ChunkedIO.ParseHexUint` | internal/chunked.go:245-264 | The digits' value, with the error for a bad byte among the first 17 or for too many digits; nothing is lost to the 64-bit shift. |
| `ChunkedIO.ReadChunkLine` | internal/chunked.go:130-151 | One line within 4096 bytes, and the errors for a long or missing one. |
| `ChunkedIO.ChunkedReader.BeginChunk` | internal/chunked.go:47-61 | Reading the size line does not change what is still delivered. |
| `ChunkedIO.ChunkedReader.EndChunk` | internal/chunked.go:74-95 | Nor does checking the end of a chunk. |
| `ChunkedIO.ChunkedReader.ReadInChunk` | internal/chunked.go:107-121 | Data returned plus data to come is what was to come. |
| `ChunkedIO.ChunkedReader.Read` | internal/chunked.go:72-124 | Main: returns the next bytes and, at the end, the error, whatever was buffered; nothing only when it has no room. |
| `ChunkedIO.ReadAll` | internal/chunked.go:72-124 | Reads of any positive sizes deliver exactly the stream. |
| `ChunkedIO.ChunkedWriter.Write` | internal/chunked.go:205-229 | Without an error, exactly one chunk, or nothing for no data. |
| `ChunkedIO.ChunkedWriter.Close` | internal/chunked.go:231-234 | The last chunk line. |
| `ChunkedIO.WriteThenRead` | internal/chunked.go:72-234 | Written, closed and read back: the same data, io.EOF, and the rest untouched. |
| `Varint.Len` | internal/quic-go/quicvarint/varint.go:145-164 | The shortest legal length. |
| `Varint.TopBitsFree` | internal/quic-go/quicvarint/varint.go:97-113 | The two top bits are free for the length. |
| `Varint.ParseInvertsEnc` | internal/quic-go/quicvarint/varint.go:73-113 | Main: every encoding in any legal length, followed by anything, parses back and takes its own bytes. |
| `Varint.EncInvertsParse` | internal/quic-go/quicvarint/varint.go:73-113 | And whatever parses is the encoding, in as many bytes, of what it parses to. |
| `Varint.SampleDecodings` | internal/quic-go/quicvarint/varint.go:73-94 | The sample decodings of appendix A.1 of RFC 9000. |
| `Varint.ReadInvertsEnc` | internal/quic-go/quicvarint/varint.go:23-70 | The byte reader recovers the same. |
| `Varint.Append` | internal/quic-go/quicvarint/varint.go:97-113 | The shortest encoding. |
| `Varint.AppendWithLen` | internal/quic-go/quicvarint/varint.go:117-142 | The encoding in the asked length. |
| `Varint.Parse` | internal/quic-go/quicvarint/varint.go:73-94 | The number and its length as the first byte announces, or which end of input it is. |
| `Varint.ByteReader.Read` | internal/quic-go/quicvarint/varint.go:23-70 | The same number, reading exactly its bytes one at a time. |
| `Http3Frames.GatherInvertsPairs` | internal/http3/frames.go:114-196 | Settings written in any map order are gathered again. |
| `Http3Frames.GatherKeepsOursApart` | internal/http3/frames.go:138-160 | The parser never files one of its own settings under the others. |
| `Http3Frames.SettingsRoundTrip` | internal/http3/frames.go:114-196 | Main: a SETTINGS frame reads back if and only if it fits 8 KiB and lists neither interpreted setting among the others. |
| `Http3Frames.HeaderRoundTrip` | internal/http3/frames.go:82-98 | DATA and HEADERS frame headers read back. |
| `Http3Message.FrameOnTheWire` | internal/http3/frames.go:28-80 | The frame types by the numbers of section 7.2 of RFC 9114. |
| `Http3Message.SettingsOnTheWire` | internal/http3/frames.go:138-160 | The settings by their numbers. |
| `Http3Message.DataOnTheWire` | internal/http3/frames.go:82-90 | The bytes of a DATA frame. |
| `Http3Message.SettingsTooLargeIff` | internal/http3/frames.go:114-118 | SETTINGS are too large if and only if they exceed 8 KiB. |
| `Http3Frames.WeightOfAnyOrder` | internal/http3/frames.go:170-180 | The announced length does not depend on the order of the map. |
| `Http3Stream.GatherSettings` | internal/http3/frames.go:124-162 | The settings loop over a payload, with its duplicate and value errors in the order of the payload. |
| `Http3Stream.ParseSettingsFrame` | internal/http3/frames.go:114-162 | At most 8 KiB, read whole, and nothing beyond it. |
| `Http3Stream.ParseNext` | internal/http3/frames.go:28-80 | The next DATA, HEADERS or SETTINGS frame: skips unknown frames whole, refuses reserved ones. |
| `Http3Stream.AppendSettings` | internal/http3/frames.go:170-196 | Writes the length it announces, and the settings in some order of the map. |
| `Http3Body.DemuxSplits` | internal/http3/http_stream.go:107-116 | Reading a DATA frame in two pieces delivers the same. |
| `Http3Message.DemuxIsMeaning` | internal/http3/http_stream.go:71-117 | Main: any sequence of frames of any type, the last one perhaps broken off anywhere, delivers the DATA payloads in order, up to the first frame that is refused. |
| `Http3Message.EveryStreamIsFrames` | internal/http3/frames.go:28-80 | Whatever bytes the peer sends are such a sequence, in exactly these bytes. |
| `Http3Message.InOrderMeans` | internal/http3/http_stream.go:71-117 | DATA, frames to skip and at most one trailer section that decodes, with no DATA behind it, deliver all their payloads and then what follows. |
| `Http3Message.BodyIsBounded` | internal/http3/body.go:39-67 | Of whole frames, the body delivers a prefix within the Content-Length; it ends in errTooMuchData if and only if they mean more, and otherwise delivers all of it and its error. |
| `Http3Message.ExcessIsRefused` | internal/http3/body.go:39-67 | Excess in whatever frame ends in errTooMuchData after exactly Content-Length bytes. |
| `Http3Message.CleanEndIff` | internal/http3/body.go:39-67 | Main: with or without a Content-Length, and wherever the stream breaks off, the body ends in io.EOF if and only if, behind frames in order, the stream ends quietly or a SETTINGS frame ends inside a setting, and the payloads up to there are within the Content-Length. |
| `Http3Message.CleanEndIsCompleteIff` | internal/http3/body.go:39-67 | Main: a complete message ends cleanly with all its payloads; a clean end is that of an incomplete one if and only if the stream breaks off unnoticed, falls short of its Content-Length, or holds a SETTINGS frame that ends inside a setting. |
| `Http3Message.CutDataWithoutLength` | internal/http3/body.go:54-67 | Without a Content-Length, every broken-off DATA frame ends cleanly. |
| `Http3Message.CutDataBelowLength` | internal/http3/body.go:54-67 | So does one below the Content-Length. |
| `Http3Message.ShortMessage` | internal/http3/body.go:54-67 | So does a whole message below its Content-Length. |
| `Http3Message.CutHeader` | internal/http3/frames.go:30-55 | So does any frame broken off inside its header, even behind exactly Content-Length bytes. |
| `Http3Message.CutSkipped` | internal/http3/frames.go:74-78 | So does a frame of an unknown type broken off anywhere. |
| `Http3Message.CutTrailers` | internal/http3/http_stream.go:92-100 | So do trailers that are announced and do not come, but not trailers of which some bytes come. |
| `Http3Message.CutSettings` | internal/http3/frames.go:114-123 | So does a broken-off SETTINGS frame, though a whole one is refused. |
| `Http3Message.ShortSetting` | internal/http3/frames.go:124-136 | So does a whole SETTINGS frame of one byte, whatever follows it. |
| `Http3Stream.Stream.NextHeader` | internal/http3/http_stream.go:76-104 | Parsing the next header does not change what is still delivered. |
| `Http3Stream.Stream.Read` | internal/http3/http_stream.go:71-117 | Data returned plus data to come is what was to come. |
| `Http3Stream.Stream.Write` | internal/http3/http_stream.go:123-130 | One DATA frame with its header. |
| `Http3Stream.Body.CheckContentLengthViolation` | internal/http3/body.go:39-52 | Violated exactly when the limit is reached and the frame has more. |
| `Http3Stream.Body.Read` | internal/http3/body.go:54-67 | Returns the next bytes within the limit; the error it returns is the one the body ends with. |
| `Http3Stream.ReadBody` | internal/http3/body.go:54-67 | Reads of any positive sizes deliver exactly the bounded body. |
| `Http3Stream.ReadMessage` | internal/http3/body.go:39-67 | Main: read with any positive sizes, any message, with or without a Content-Length and broken off anywhere or not, yields a prefix of what it means within the Content-Length; errTooMuchData if and only if the peer exceeded that; otherwise all of it and its end. |
| `Http3Stream.ReadWholeMessage` | internal/http3/body.go:39-67 | The payloads of whole frames come back exactly when they are within the Content-Length. |
| `ParallelDownload.Ranges` | parallel_download.go:237-259 | The loop's ranges are contiguous and disjoint, and cover exactly the resource, whenever its 64-bit sums fit. |
| `ParallelDownload.SmallTotalsFit` | parallel_download.go:240-257 | They do for every total of up to 2^62 bytes. |
| `ParallelDownload.OverflowIsAtTheLastRange` | parallel_download.go:240-257 | The first sum to overflow can only be that of the last range, and it does exactly when they do not all fit: its end is then negative, and the loop goes on. |
| `ParallelDownload.RangesCoverIff` | parallel_download.go:240-257 | Main: the ranges the loop has issued when it stops cover the resource if and only if its 64-bit sums fit. |
| `ParallelDownload.LargeSegmentsOverflow` | parallel_download.go:240-257 | They do not for segments above 2^62 bytes of a larger resource: the second of two ranges ends below zero. |
| `ParallelDownload.CeilSurvivesRounding` | parallel_download.go:234 | The ceiling of the rounded quotient is the ceiling of the exact one. |
| `ParallelDownload.LastIndexIsLast` | parallel_download.go:234 | Main: lastIndex is the index of the last range for every segment size, below 2^53 bytes. |
| `ParallelDownload.LargeTotalLosesItsLastSegment` | parallel_download.go:234 | At 2^53 the guarantee ends: 2^53+1 bytes in segments of 2^53 may, under the same rounding, lose their second segment. |
| `ParallelDownload.LargeTotalExpectsOneTooMany` | parallel_download.go:234 | Or the other way: 2^53+3 bytes in five equal segments may make lastIndex that of a sixth. |
| `ParallelDownload.MergedIsWhole` | parallel_download.go:185-209 | Segments in the order of their ranges make up the resource. |
| `ParallelDownload.StepKeepsInv` | parallel_download.go:38-67 | Every step of workers, notifiers and merger keeps the map, the notifications and the written prefix in agreement. |
| `ParallelDownload.NeverStuck` | parallel_download.go:50-67 | As long as something is to be written, some step is possible. |
| `ParallelDownload.StepsRunOut` | parallel_download.go:38-67 | Every step leaves fewer to come. |
| `ParallelDownload.MaximalRunMerges` | parallel_download.go:38-209 | However workers and notifications interleave, a run ends, and when it can go no further the file is the resource up to the end of the range of lastIndex. |
| `ParallelDownload.DownloadIsWholeIff` | parallel_download.go:38-259 | Main: when the download can go no further, the file is the resource if and only if lastIndex is the index of the last range. |
| `ParallelDownload.SmallDownloadIsWhole` | parallel_download.go:38-259 | Main: below 2^53 bytes the ranges of the loop, the lastIndex that doubles give, and every interleaving make the file the resource. |
| `ParallelDownload.LateMergerWaits` | parallel_download.go:50-67 | With a lastIndex behind the last range the merger never finishes. |
| `Bisect.MatchResultOf` | internal/bisect/bisect.go:365-373 | The loop finds the last condition that matches. |
| `Bisect.EndsInIsRemainder` | internal/bisect/bisect.go:365-373 | The masked comparison is ending in the digits. |
| `Bisect.CompiledMeans` | internal/bisect/bisect.go:115-134 | Main: the last matching condition decides as the set expression does, from left to right. |
| `Bisect.ParsePattern` | internal/bisect/bisect.go:238-304 | The scanning loop computes the scan that Bisect.ScanCompiles is about, for every string. |
| `Bisect.New` | internal/bisect/bisect.go:194-304 | Prefix letters, negation and scan, for every string, as Bisect.PatternMeans uses them. |
| `Bisect.ScanCompiles` | internal/bisect/bisect.go:238-304 | Main: a written pattern scans to its compiled form. |
| `Bisect.PatternMeans` | internal/bisect/bisect.go:194-362 | Main: behind any number of exclamation marks, exactly the denoted changes are reported, and exactly they, or exactly the others, are enabled. |
| `Bisect.DocumentedExample` | internal/bisect/bisect.go:125-134 | The example of the documentation means what it says. |
| `BisectSyntax.AcceptedIff` | internal/bisect/bisect.go:238-304 | Main: a string is accepted if and only if every piece between its signs has at least one and at most 64 bits of digits of its base, or of y not followed by 0 or 1, and no plus stands behind a minus; it compiles to a condition for each piece. |
| `BisectSyntax.AcceptedMeans` | internal/bisect/bisect.go:238-373 | Main: every accepted string means the set expression of its pieces, where a y makes zeros of itself and of the digits before it, a leading y means everything, and a leading y with a nonzero digit behind it means nothing. |
| `BisectSyntax.WrittenIff` | internal/bisect/bisect.go:115-134 | Main: a string is a pattern as documented, up to the case of its digits, if and only if it is accepted and every piece with a y in it is just that y. |
| `BisectSyntax.ExactIsWritten` | internal/bisect/bisect.go:238-304 | Such a string is the text of its reading, and compiles to it. |
| `BisectSyntax.TrailingYIsAccepted` | internal/bisect/bisect.go:270-274 | Digits followed by a y, such as "01y": accepted, read as ending in zeros, and no documented pattern. |
| `BisectSyntax.LeadingYMatchesNothing` | internal/bisect/bisect.go:270-288 | A digit above 1 behind a leading y, such as "xya": accepted, and no change ever matches. |

## Left out

- HPACK and QPACK: header blocks are opaque bytes, and trailers are accepted or refused by a parameter.
- Decoder limits in readMetaFrame (header list size, pseudo-header checks): only its fragment loop is modelled.
- Timers, contexts, goroutine scheduling, dumping and logging: reduced to steps that may come at any time, or dropped.
- TLS, QUIC, sockets: a QUIC stream and a bufio.Reader return any positive amount, in order, and then one error.
- Connections with `alt` set (HTTP/2 in the HTTP/1 pool): they stay listed while in use, and the accounting is not meant for them.
- Exact streamsReserved: a failed wait for a slot gives its reservation back twice in the code, and so in the model; no exactness is claimed.
- Stream receive windows other than the announced default of 4 MiB, and SETTINGS_MAX_FRAME_SIZE outside its legal range.
- END_STREAM for a request with trailers but without a body: no body writer runs, and nothing is claimed.
- The sticky write error (`werr`) of the HTTP/2 connection: when it shows is a parameter of Framing.Framer.WriteHeaderBlock; the other writes are modelled as accepted by the connection's buffer.
- The server's perspective of the HTTP/3 stream, unknown-frame handlers and datagrams.
- ClientConn is split into three classes by concern (ReceiveConn, SendConn, LifecycleConn), each with its own view of the stream table; that the three tables are one map is not part of the model.
- ReceiveConn.ClientConn.PourData: the pipe is held by value in a stream; that the pipe itself is a refined object over chunks is proved in the Pipe module.
- ReceiveConn.ClientConn.ProcessData: the same, one level up.
- Http1Transport.Transport.TryDeliver: connections and waiters are numbered records in maps, so aliasing between pointers is not captured; a connection's place is bookkeeping of the model, and a context is cleared exactly when its waiter is done.
- ConnQueue.WantConnQueue.PopFront: the slices are sequences; that tail reuses the backing array of head is not modelled. cleanFrontCanceled only prunes the list of dials in progress.
- Bisect.New: the mask is a remainder by a power of two; hashing, stacks and the dedup cache are not modelled, and errors carry no text.
- ParallelDownload.MaximalRunMerges: I/O errors, the temporary files and the wait group; no step of the model fails.
- ParallelDownload.LastIndexIsLast: doubles are real numbers with the guarantees of rounding to nearest, stated as the predicate Rounds.
- PoolRuns.RunKeepsInv: a round trip puts its connection back at most once, and getConn asks to dial at most once, as the order of their own goroutine has it.
- Framing.Framer.WriteHeaderBlock: what is written goes to the connection's buffer; whether a flush delivers it is not modelled. WriteRawFrame, frame reuse and invalidation are not modelled.
- RequestBody.WriteRequestBody: what the connection does while the body waits for flow control, flushing and 100-continue is arbitrary and may fail at any point; what a wait yields is the grant of some state of SendFlow with an open window.
- client_conn_pool.go, client.go, request.go, response.go, decode.go, header sorting, fingerprints, compression, digest, proxies: configuration or easy members.
