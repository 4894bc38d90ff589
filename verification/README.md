# Networking labs: a verified model

Four programs of the repository are modelled and their promises proved.

* **Turbo file transfer** (`Frame`, `LossInjector`, `Blocks`, `TurboClient`, `TurboServer`, `TurboProtocol`,
  `TurboProgress`, `TurboOutcome`, `TurboSessions`, `TurboStrays`, `TurboRuns`). The client and the server are classes
  whose methods follow the programs; each method is proved against a function on values. `TurboProtocol` lets both run
  over a network that may lose, repeat, delay and reorder datagrams, with any bytes in the memory the programs do not
  set, and shows exactly when a finished client holds the file and that the server never reports success early.
  `TurboProgress` takes the server's own loss injector as the only loss and bounds the number of timeouts. `TurboOutcome`, `TurboSessions`, `TurboStrays` and `TurboRuns` say, over all runs of the protocol, which
  transfers can end at all and which of them with something else than the file.
* **Overlay routing** (`Route`, `OverlaySetup`, `RelayChain`, `RelayOutcome`, `OverlayTraffic`, `OverlayRow`,
  `OverlayOutcome`, `OverlayBuffers`, `OverlayNetwork`, `OverlayMessages`). The route text and its hop-by-hop peeling;
  the distributed set-up with lost, repeated and failing messages; one relay and a row of relays of any length on its
  own; and the set-up together with the traffic over the processes it forks, in which its own late answers reach
  relaying processes as ordinary datagrams. `OverlaySetup`, `OverlayTraffic` and `OverlayOutcome` do this for texts that are read as they were
  sent; `OverlayBuffers`, `OverlayNetwork` and `OverlayMessages` add the routers' buffers, which may hold anything from
  before, so that a text need not read so, and carry the results over.
* **Audio playback** (`AudioPlayback`). The in-place buffer and the semaphore as a first-in first-out queue.
* **Checksum trailer** (`Checksum`). Server, C client and Java client of the TCP transfer.

`Paths` holds reachability in a transition system, `Ledgers` the book-keeping for payloads in flight, `Arithmetic` a few
facts about products and division.

Where the code falls short of its promise, the exact condition under which it keeps it is proved:

* With a loss number of zero or less the injector's burst never ends, so "no artificial loss" cannot be asked for with
  0. `TurboRuns.TransferEndsIff` gives the condition for a transfer to end, `TurboRuns.NoLossCannotBeAskedFor` an input
  that never does.
* An unused slot of the client's control array can make the server send an empty datagram, and the client reads past its
  buffer when one arrives before the first block. `TurboServer.EmptyAnswerIff` says which arrays do that;
  `TurboProtocol.FinishedMeansDeliveredIff` that a finished client holds the file exactly if no such read has found other
  bytes than the file's; `TurboRuns.WrongFileIff` says, in terms of file and block size, for which transfers one can, and
  `TurboRuns.WrongFileCanArrive` names a two-byte file for which it does.
* The client's memset counts bytes and leaves three quarters of its control array as they were.
  `TurboServer.AnsweredExactlyIff` says for which contents the server still answers exactly what is missing, and
  `TurboServer.QuarterSufficesIff` for which numbers of missing blocks it does so whatever the array held. With fewer
  missing blocks than a quarter of the slots `TurboProgress.CompletesAsWritten` bounds the number of timeouts.
* A relay compares end points by port alone, because both host texts live in the one static buffer of `inet_ntoa`.
  `RelayOutcome.RowDeliversIff` shows that a row delivers exactly when the two neighbours of every relay use different
  ports, and `RelayChain.TransparentIff` that a relay also needs its client to be the first to speak.
* A relay takes the first datagram it sees for its client's, and a late or repeated answer of the set-up can be that
  datagram. `OverlayNetwork.CanConverseIffNoStrayCameFirst` shows that a row which a set-up has left behind works exactly
  when the ports differ and no answer has come first at any of its processes; `OverlayNetwork.OneRepeatIsEnough` that one
  repeated answer is enough to break it, `OverlayNetwork.LinkedStaysClear` that none can once all processes have heard
  from their clients.
* A router does not terminate the text it receives, so what a longer text has left behind is read on.
  `Route.ReadsAsSentIff` says when it reads what it was sent, `OverlayBuffers.AllReadAsSentIff` for which routes and
  buffers all routers always do, and `OverlayBuffers.SetupSucceedsIff` that only routes without two routers on one host
  can be set up, and only if nothing is left in the routers' buffers that could be read on. `OverlayBuffers.RouterTwiceFails`
  is a route that cannot, `OverlayBuffers.StaleListFails` one that cannot because its router has served a longer one.
* The checksum is blind to everything that keeps the sum: `Checksum.PassesUnnoticedIff`, with the order of the bytes as
  an instance (`Checksum.ReorderingIsNotDetected`).

## Model

| member | source | states |
|---|---|---|
| Frame.RoundTrip | lab6/turboclient.c:392-405 | For every sequence number up to 9,999,999 and any data, bars included, atoi on the first 8 bytes and the scan for the first bar recover exactly the number and the data. |
| Frame.HeaderHasBarIff | lab6/turboserver.c:311-312 | The 8 copied header bytes contain the bar exactly for numbers up to 9,999,999. |
| Frame.EightDigitsAreRead | lab6/turboclient.c:392-395 | A number of eight digits is still read exactly from the 8 header bytes, although its bar is lost. |
| Frame.HeaderShape | lab6/turboserver.c:311-312 | The header of a number of up to seven digits is blanks, the digits and the bar, in 8 bytes. |
| Frame.HeaderOf4072 | lab6/turboserver.c:311-312 | The header of block 4072, character by character. |
| Frame.DigitsAreDecimal | lab6/turboserver.c:311 | What is printed for a number are its decimal digits without leading zeros. |
| Frame.AtoiReads | lab6/turboclient.c:395 | atoi on any text: white space, an optional sign, the decimal value of the digits up to the first other character. |
| LossInjector.CountersClosedForm | lab6/turboserver.c:356-374 | The two counters after n calls are a function of n modulo the period totalnum - 1 + lossnum. |
| LossInjector.DroppedClosedForm | lab6/turboserver.c:358-373 | Call n is dropped exactly when n modulo the period is at least totalnum - 1. |
| LossInjector.WindowDropsExactly | lab6/turboserver.c:358-373 | Any window of one period, wherever it starts, loses exactly lossnum datagrams. |
| LossInjector.BurstIsBounded | lab6/turboserver.c:362-373 | lossnum + 1 calls in a row are never all dropped. |
| LossInjector.NonPositiveLossNumberNeverRecovers | lab6/turboserver.c:364-373 | With a loss number of zero or less every call from totalnum - 1 on is dropped. |
| LossInjector.PastTheLossNumber | lab6/turboserver.c:362-373 | A burst whose count has passed its loss number never ends either, whatever that number is. |
| LossInjector.PastTheStretch | lab6/turboserver.c:358-361 | Calls with a totalnum below the count of datagrams drop nothing and change neither counter. |
| LossInjector.ExactlyTheSurvivorsGoOut | lab6/turboserver.c:356-380 | Of any list of datagrams exactly those whose calls are not dropped go out, once each and in order. |
| LossInjector.SendAllExtends | lab6/turboserver.c:375-380 | A list of calls only appends to what went out, and appends nothing that was not attempted. |
| Blocks.BlockFits | lab6/turboclient.c:361 | Every block is non-empty, lies inside the file, and ends where the next begins. |
| Blocks.BlocksDetermine | lab6/turboclient.c:410-420 | Two images of the file's size that agree block by block are equal. |
| Blocks.SpliceBlock | lab6/turboclient.c:412-418 | Copying one block to its place sets that block and leaves every other block alone. |
| Blocks.SumLenBound | lab6/turboclient.c:413-423 | The bytes of the received blocks never exceed the file, and reach its size exactly when every bit is set. |
| Blocks.MissingIsExact | lab6/turboclient.c:468-473 | The list of missing numbers is exactly the clear bits, each once, ascending. |
| TurboClient.TurboClient.constructor | lab6/turboclient.c:351-363 | The transfer starts with an all-zero file of the agreed size, an empty bitmap and no bytes counted. |
| TurboClient.TurboClient.FindBar | lab6/turboclient.c:399-404 | The scan stops at the first bar. |
| TurboClient.TurboClient.StoreBlock | lab6/turboclient.c:410-420 | A full block, or the rest of the file for the last one, is copied to its offset in place and counted. |
| TurboClient.TurboClient.OnFrame | lab6/turboclient.c:389-457 | One received frame changes map, bitmap, count, completion and outgoing closing marks as AfterFrame says. |
| TurboClient.TurboClient.CollectMissing | lab6/turboclient.c:462-487 | The loop fills the control array with the first missing numbers and leaves the other slots as they were. |
| TurboClient.TurboClient.OnTimeout | lab6/turboclient.c:459-505 | A timeout sends that array twice, or nothing when no block is missing. |
| TurboClient.TurboClient.Receive | lab6/turboclient.c:378-506 | The loop handles all arrivals and timeouts in the order they come until the file is complete; from the start, its state and what it has sent are as SessionIs says. |
| TurboClient.SessionIs | lab6/turboclient.c:378-506 | For any arrivals and timeouts from the start: a bit is set exactly if a frame with that number has arrived, the block is what came first for it and zero otherwise, the client has finished exactly if all numbers have come, and it has sent two arrays of the numbers missing then for each timeout before that and three closing marks when it was complete. |
| TurboClient.FaithfulSession | lab6/turboclient.c:423-456 | If all these frames carry the file's bytes, then a client that has finished holds the file. |
| TurboClient.FrameKeepsConsistent | lab6/turboclient.c:395-423 | A frame that carries its block keeps every set bit truthful and the count exact, and sets exactly its own bit. |
| TurboClient.FrameSetsItsBlock | lab6/turboclient.c:392-423 | Whatever is found in memory goes to the block whose number is read, if that had not arrived; no other block changes and the count stays exact. |
| TurboClient.EmptyReadsAsBlockZero | lab6/turboclient.c:380-395 | After an empty datagram the zeroed buffer reads as the number of the first block, whatever lies beyond it. |
| TurboClient.Accounting | lab6/turboclient.c:413-423 | The count stays within the file size; completion, full count, full bitmap and empty missing list coincide. |
| TurboClient.FinishedMeansIdentical | lab6/turboclient.c:423-456 | A consistent client that has finished holds the file byte for byte. |
| TurboClient.NackIsExact | lab6/turboclient.c:468-500 | Whatever the unused slots hold, the array asks for the first min(BLOCKSIZE, missing) missing numbers in ascending order and never begins with the closing mark; it names only blocks of the file exactly when no unused slot before the first negative one holds a number past the last block. |
| TurboClient.NackSkipsNothing | lab6/turboclient.c:474-485 | A missing number is left out only when the array is full, and then only one larger than all listed. |
| TurboServer.TurboServer.DropSendTo | lab6/turboserver.c:356-381 | One call advances the two globals and either appends the datagram to what went out or swallows it. |
| TurboServer.TurboServer.FillPassFrame | lab6/turboserver.c:311-313 | The send buffer holds the header and a whole block of the mapping. |
| TurboServer.TurboServer.PassIteration | lab6/turboserver.c:300-336 | One turn of the inner loop is one PassStep; its tail-copy branch cannot be reached. |
| TurboServer.TurboServer.FirstPass | lab6/turboserver.c:294-341 | The nested loops end for every size and block size, in the state that iterating PassStep gives. |
| TurboServer.TurboServer.FillAnswer | lab6/turboserver.c:63-73 | An answer is header, block and zero padding. |
| TurboServer.TurboServer.NackHandle | lab6/turboserver.c:40-98 | The closing mark is recognised; any other array is answered entry by entry through the injector. |
| TurboServer.TurboServer.Serve | lab6/turboserver.c:294-344 | The loop is left exactly if some control message begins with -1; what goes out is the first pass and then the calls for all messages before the first such one, in order, through the injector. |
| TurboServer.ControlsAreExact | lab6/turboserver.c:337-344 | The same of the state that the control messages lead to; nothing else changes. |
| TurboServer.WholeTransfer | lab6/turboserver.c:294-344 | From the first frame to the last answer the calls are those of the first pass and then those for the messages up to the closing mark. |
| TurboServer.FirstPassIsExact | lab6/turboserver.c:294-336 | The first pass attempts blocks 0 to numPackets - 1 once each in order, then the last frame once more. |
| TurboServer.PassTakes | lab6/turboserver.c:300-336 | Turn by turn, each of the first numPackets + 1 turns makes its one call, and the next one finds that nothing is left. |
| TurboServer.PassFrameIsFaithful | lab6/turboserver.c:310-314 | A first-pass frame carries its block whatever follows the file in the mapping, and that for the rest of the frame. |
| TurboServer.BlockFrameIsFaithful | lab6/turboserver.c:69-90 | An answer decodes to its number and to the block followed by zeros. |
| TurboServer.OneCallPerEntry | lab6/turboserver.c:61-94 | An array is answered by one call for each entry up to the first negative one, in order, empty datagrams included. |
| TurboServer.NackAnswersAreExact | lab6/turboserver.c:61-94 | An array that starts with k requests is answered by exactly one frame attempt per request, in order, and nothing else, if and only if a negative entry or the end of the array follows. |
| TurboServer.EmptyAnswerIff | lab6/turboserver.c:61-94 | The empty datagram is attempted exactly when a number past the last block comes before the first negative entry. |
| TurboServer.AnsweredExactlyIff | lab6/turboclient.c:462-500 | For any contents of the unused slots the server answers exactly the first missing blocks if and only if the array is full or its first unused slot is negative. |
| TurboServer.QuarterSufficesIff | lab6/turboclient.c:463 | With a quarter of the slots set, as memset leaves them, every timeout is answered exactly whatever the other slots hold if and only if fewer than BLOCKSIZE / 4 or at least BLOCKSIZE blocks are missing. |
| TurboProtocol.NextInv | lab6/turboclient.c:378-506 | Every step of either side over the unreliable network, with any bytes in unused memory, keeps the count exact, all blocks but the first truthful, and both sides' messages in order. |
| TurboProtocol.GenuineStep | lab6/turboclient.c:380-405 | In one step the first block goes wrong exactly if an empty datagram makes a client without it read other bytes past its buffer. |
| TurboProtocol.EmptyNeedsBeyond | lab6/turboserver.c:61-94 | An empty datagram goes out only after the client has sent an array with a number past the last block before the first negative slot. |
| TurboProtocol.NothingEmptyIsSent | lab6/turboclient.c:463 | With BLOCKSIZE 1, or fewer than BLOCKSIZE / 4 blocks, no empty datagram ever goes out, because what memset sets ends every list. |
| TurboProtocol.FinishedMeansDelivered | lab6/turboclient.c:395-423 | In every reachable state every set bit's block but the first agrees with the server's file, and a finished client holds the whole file exactly if its first block agrees too. |
| TurboProtocol.FinishedMeansDeliveredIff | lab6/turboclient.c:380-456 | Over whole runs a finished client holds the file exactly if no empty datagram ever reached it without the first block and made it read other bytes past its buffer. |
| TurboProtocol.NeverBeyondDelivers | lab6/turboclient.c:463 | For these sizes a finished client holds the file, in every reachable state and whatever memory holds. |
| TurboProtocol.CountIsAlwaysExact | lab6/turboclient.c:413-423 | In every reachable state recvSize is the length of the received blocks, at most fileSize, and equal to it exactly when nothing is missing. |
| TurboProtocol.ServerExitMeansDelivered | lab6/turboserver.c:51-54 | The server says the file is sent only in states where the client has finished with all blocks, and then the client has the file exactly if its first block agrees. |
| TurboProtocol.EveryDatagramIsReadable | lab6/turboclient.c:390-395 | Every datagram that can arrive in any run is one its receiver can process, or empty. |
| TurboProgress.RoundMakesProgress | lab6/turboclient.c:459-500 | A timeout round whose list is ended, by a full array or a negative slot, either shortens the missing list or uses up at least two drops of the current burst. |
| TurboProgress.CompletesWithin | lab6/turboserver.c:337-341 | With M blocks missing and loss number L of at least 1, M * (L / 2 + 1) rounds complete the transfer with the right file, if every list sent is ended, the condition of AnsweredExactlyIff. |
| TurboProgress.CompletesAsWritten | lab6/turboclient.c:462-500 | With fewer than BLOCKSIZE / 4 blocks missing what memset sets is enough for that, whatever the other slots hold. |
| TurboOutcome.CountersStartAfter | lab6/turboserver.c:38-39 | Any number of earlier calls leaves the counters in a state the outcome theorems cover. |
| TurboOutcome.PositiveLossNumberCompletes | lab6/turboserver.c:294-342 | From the handshake on, a positive loss number gives the right file within numPackets * (L / 2 + 1) timeouts, if every list sent is ended. |
| TurboOutcome.SmallTransfersComplete | lab6/turboclient.c:462-500 | For files of fewer than BLOCKSIZE / 4 blocks that holds of the program as it is, whatever the slots hold that memset does not reach. |
| TurboOutcome.PassUnderBudget | lab6/turboserver.c:358-373 | With a loss number of zero or less the first pass gets exactly the blocks below the budget across. |
| TurboOutcome.StarvedForEver | lab6/turboserver.c:364-373 | With a loss number of zero or less and more blocks than fit before the first drop, neither side is done in any reachable state, whatever the network does and memory holds, but for a single block with BLOCKSIZE 2 to 7. |
| TurboOutcome.StarvedInCleanRuns | lab6/turboserver.c:364-373 | The same for any number of blocks in runs in which the client never reads past its buffer. |
| TurboOutcome.CleanRunsDeliver | lab6/turboclient.c:423-456 | In runs in which the client never reads past its buffer a finished client holds the file. |
| TurboRuns.TransferEndsIff | lab6/turboserver.c:208 | Some run delivers the file without a read past the buffer exactly when the loss number is positive or all blocks fit before the first drop; beyond that only one-block transfers with BLOCKSIZE 2 to 7 can end, whose array has a second slot that memset does not reach; the server can leave its loop exactly when the client can finish. |
| TurboRuns.WrongFileIff | lab6/turboclient.c:462-500 | A client can finish with something else than the file exactly when it can finish at all, BLOCKSIZE is at least 2 and there are at least BLOCKSIZE / 4 blocks, rounded down. |
| TurboStrays.AnythingCanArrive | lab6/turboclient.c:380-420 | With such sizes, and if the loss number is positive, all blocks fit before the first drop or there is but one, the client can finish with any bytes at all for the first block. |
| TurboRuns.WrongFileCanArrive | lab6/turboclient.c:463 | After one handshake call and with loss number 1 a two-byte file can arrive as something else. |
| TurboRuns.TransferEndsAfterHandshakeIff | lab6/turboserver.c:255-272 | After n calls of dropsendto in the handshake a file can be delivered exactly when the loss number is positive or numPackets + n is at most 999; beyond that a transfer can end only as above. |
| TurboRuns.NoLossCannotBeAskedFor | lab6/turboserver.c:204-208 | With one handshake call and loss number 0 a file of 999 one-byte blocks can never be transferred. |
| TurboSessions.RoundReaches | lab6/turboclient.c:477-498 | A round whose list is ended is a sequence of protocol steps without a read past the buffer. |
| Route.BuildRoute | lab6/overlaybuild.c:83-114 | The builder's text is the encoding of dst, port and the routers, and goes to the last router given. |
| Route.Tokenise | lab6/overlayrouter.c:180-185 | The strtok loop yields all names of the text. |
| Route.Rebuild | lab6/overlayrouter.c:231-249 | The strcat loop encodes the names without the last. |
| Route.RouteRoundTripIff | lab6/overlaybuild.c:86-102 | Taking an encoded list apart gives the list back exactly when its names are non-empty and free of dollar signs. |
| Route.EncodeIsJoined | lab6/overlaybuild.c:86-102 | The text of a list is a dollar sign and each name followed by one. |
| Route.TokensSplit | lab6/overlayrouter.c:180-185 | The names that strtok finds in two texts with a dollar sign between are those of the first and then those of the second; with TokensOfName this says what it finds in any text, terminated or not. |
| Route.TokensOfName | lab6/overlayrouter.c:180-185 | A text without dollar signs is one name. |
| Route.RouterStep | lab6/overlayrouter.c:232-249 | For any text, the forwarded text holds the same names less the last, and its new last name is the one it is sent to. |
| Route.ReceivedAt | lab6/overlayrouter.c:155-158 | A datagram overwrites the front of the buffer byte by byte, and nothing behind it. |
| Route.ReadsAsSentIff | lab6/overlayrouter.c:155-185 | In a buffer that is never terminated a list reads as sent exactly when nothing but dollar signs is left behind it. |
| Route.SecondVisitReadsTheFirstList | lab6/overlayrouter.c:155-185 | The first k names of a list received in a buffer that holds the list read as the whole list again, so as sent only if they are the whole list. |
| OverlaySetup.PortRoundTrip | lab6/overlayrouter.c:187-188 | A printed port is read as a number, is not taken for a failure, and gives the port back. |
| OverlaySetup.PortSpelled | lab6/overlayrouter.c:204 | A name of decimal digits is taken for the port of that value, in 16 bits. |
| OverlaySetup.IsNumberIff | lab6/overlayrouter.c:81-85 | A text counts as a number exactly if it is empty, or white space, an optional sign and decimal digits to its end. |
| OverlaySetup.RouterProcess.constructor | lab6/overlayrouter.c:161-260 | A forked process ends up relaying, waiting with the shorter route forwarded, or gone, as Open says; for three names it relays to the port that the second one spells. |
| OverlaySetup.OpenIff | lab6/overlayrouter.c:191-260 | The process relays and has answered exactly for three names whose destination resolves, leaves in silence if it does not, and otherwise waits, having forwarded exactly if the router before resolves. |
| OverlaySetup.OpenRelaysTo | lab6/overlayrouter.c:200-207 | With three names it relays to the port that the second name spells on the host of the first. |
| OverlaySetup.RouterProcess.OnAnswer | lab6/overlayrouter.c:284-326 | An answer makes a waiting process relay and answer with its own port, report failure, or leave. |
| OverlaySetup.HearIff | lab6/overlayrouter.c:284-326 | For any text: it relays exactly on a number other than -1, to that port in 16 bits, and answers exactly on a number, with its own port or with A; on anything else it leaves in silence. |
| OverlaySetup.RouterProcess.OnTimeout | lab6/overlayrouter.c:268-277 | A timeout reports failure upstream. |
| OverlaySetup.NextInv | lab6/overlayrouter.c:150-333 | Every step of a set-up whose texts are read as sent keeps lineage, links, requests and answers in order. |
| OverlayMessages.MessagesCanBeTaken | lab6/overlayrouter.c:180-251 | Whatever the routers' buffers hold, in every reachable state each request reads as a destination and a router at least, and each answer to a process finds its next router resolved. |
| OverlayMessages.FailuresAreTimeouts | lab6/overlayrouter.c:268-277 | Failures are never passed on: in every step of a run each new one comes from a process that has just timed out, and each such process reports one. |
| OverlayBuffers.NextInv | lab6/overlayrouter.c:150-333 | Every step of the set-up with the routers' buffers keeps: each process holds the longest list for its host, all longer lists than a request's are in their routers' buffers, and a relaying process leads host by host to a list of three. |
| OverlayBuffers.StepsAgree | lab6/overlayrouter.c:155-185 | With routers on different hosts and harmless buffers the steps are exactly those of the set-up whose texts are read as sent. |
| OverlayBuffers.AllReadAsSentIff | lab6/overlayrouter.c:155-185 | For a route whose names resolve, all routers read all texts as sent in every run exactly when no two are on one host and nothing is left in their buffers that could be read on. |
| OverlayBuffers.SetupSucceedsIff | lab6/overlaybuild.c:191-198 | Whatever the routers' buffers hold at the start, the builder can get a port in some run exactly when the destination and every router resolve, no two routers are on one host and nothing is left in a router's buffer behind its list that could be read on. |
| OverlayBuffers.RouterTwiceFails | lab6/overlayrouter.c:155-185 | A route over one router twice resolves and could be set up if texts were read as sent, but can not be. |
| OverlayBuffers.StaleListFails | lab6/overlayrouter.c:150-185 | A route over one router that still holds a longer route resolves and could be set up if texts were read as sent, but can not be. |
| OverlayBuffers.SuccessMeansLinkedPath | lab6/overlayrouter.c:306-313 | Whatever the buffers held, if the builder gets a port, then one process per router, in route order and all on different hosts, relays to the port the next one opened, and the last one to the destination, at the port that the second name of the route spells. |
| OverlayBuffers.OnlyTheRouteIsVisited | lab6/overlayrouter.c:232-260 | From harmless buffers, in every reachable state every process there has been holds the longest list of first names of the route that leads to its host. |
| OverlayBuffers.OnlyTheRouteIsVisitedIff | lab6/overlayrouter.c:232-260 | For a route that resolves, with no two routers on one host, that is so in all runs exactly when the buffers are harmless. |
| RelayChain.RelayLoop.Turn | lab6/overlayrouter.c:348-407 | One turn of the relay loop learns the client or not and sends the bytes where OnDatagram says. |
| RelayChain.SentOnTo | lab6/overlayrouter.c:348-407 | After any senders a datagram goes, whoever sent it, to the sender of the first one if it comes from the server's port and to the server otherwise; the first one goes to the server, or nowhere if it comes from the server's port. |
| RelayChain.TransparentIff | lab6/overlayrouter.c:350-403 | After any sequence of senders a relay serves both directions exactly when its neighbours' ports differ and nobody but the client sent the first datagram. |
| RelayChain.RelayKeepsDirection | lab6/overlayrouter.c:394-403 | In a row with differing ports a relay never misroutes or reflects: up stays up, down stays down, one hop at a time. |
| RelayChain.RowIsTransparent | lab6/overlayrouter.c:348-407 | For rows of any length, in every reachable state and both directions, payloads sent and repeated are exactly those delivered, in flight or lost. |
| RelayOutcome.RowDeliversIff | lab6/overlayrouter.c:368-403 | Some run delivers a payload at the destination exactly when every relay's neighbours use different ports. |
| OverlayTraffic.NextTree | lab6/overlayrouter.c:348-407 | Every step of the set-up and its traffic keeps the tree: clients are what is below or a forked process, and datagrams travel between neighbours only. |
| OverlayTraffic.DestinationIsSpelled | lab6/overlayrouter.c:204 | The destination of a route is at the port that its second name spells. |
| OverlayTraffic.FouledStep | lab6/overlayrouter.c:350-374 | In one step a process takes someone else for its client exactly when an answer is the first datagram it relays. |
| OverlayTraffic.FouledIff | lab6/overlayrouter.c:350-374 | Over whole runs a process has taken someone else for its client exactly when an answer once reached it while it relayed and had no client. |
| OverlayRow.NextInv | lab6/overlayrouter.c:348-407 | Every step keeps both ledgers balanced where ports differ and the row is clear, keeps the destination's payloads above a place that is not linked, and the client's below a place with equal ports. |
| OverlayMessages.TrafficFindsNoWaitingProcess | lab6/overlayrouter.c:266-267 | Whatever the routers' buffers hold, no packet is ever on its way to a process that still waits for an answer. |
| OverlayNetwork.SuccessIsAsSent | lab6/overlayrouter.c:155-185 | Whatever the buffers held at the start, a state of the whole network after a success is one of the network that reads every text as sent. |
| OverlayNetwork.RowIsTransparent | lab6/overlayrouter.c:306-407 | In every reachable state after a success the row is one distinct relaying process per router, each with the place before it or a forked process for its client; with differing ports all payloads of the client, and on a clear row all of the destination, are delivered, in flight on the row or lost by the network. |
| OverlayNetwork.CanConverseIff | lab6/overlayrouter.c:350-403 | After a success any payload can go up and any answer come back exactly when neighbours' ports differ and no process of the row has taken someone else for its client. |
| OverlayNetwork.CanConverseIffNoStrayCameFirst | lab6/overlayrouter.c:350-374 | The same in terms of the run: exactly when ports differ and no answer ever reached a process of the row before its client's first datagram. |
| OverlayNetwork.OneRepeatIsEnough | lab6/overlayrouter.c:358-372 | In every reachable state after a success, a repeat of the next process's own answer at a process without a client makes every later exchange impossible. |
| OverlayNetwork.LinkedStaysClear | lab6/overlayrouter.c:376-405 | Once all processes of a row with differing ports have their clients, both ends can talk in every later state. |
| OverlayNetwork.CanConnectIff | lab6/overlaybuild.c:191-198 | From the builder's request on, whatever the routers' buffers hold, some run delivers payloads at both ends exactly when the destination and every router resolve, no two routers are on one host, nothing is left in a router's buffer behind its list that could be read on and, with a single router, the two ends use different ports. |
| AudioPlayback.AudioListener.constructor | lab5/audiolisten.c:385-404 | Playback starts with an empty buffer, a zero semaphore and a running stream. |
| AudioPlayback.AudioListener.PacketHandler | lab5/audiolisten.c:183-230 | A packet is appended in place and counted, or ends the stream; after the end it is ignored. |
| AudioPlayback.AudioListener.PlayItBack | lab5/audiolisten.c:148-163 | One payload, or the rest, is written to the device and the remaining bytes are moved to the front. |
| AudioPlayback.AudioListener.PlaybackHandler | lab5/audiolisten.c:135-146 | A tick plays one payload, or what there is, under the semaphore while the stream runs, and without it afterwards; it takes one off the semaphore exactly in the first case. |
| AudioPlayback.AudioListener.Drain | lab5/audiolisten.c:415-419 | The final loop plays exactly what is buffered in ceil(level / payload) calls. |
| AudioPlayback.AudioListener.Listen | lab5/audiolisten.c:403-419 | For any interleaving of handlers with a closing packet the device ends up with exactly the stream. |
| AudioPlayback.Fifo | lab5/audiolisten.c:148-212 | Bytes played so far followed by bytes buffered are exactly the bytes received, in every interleaving. |
| AudioPlayback.TickPlays | lab5/audiolisten.c:135-156 | After any run with packets of at most a payload a tick gives the device exactly the first min(payload, level) buffered bytes, so some if there are any, and takes one off the semaphore while the stream runs. |
| AudioPlayback.PacketWaits | lab5/audiolisten.c:183-212 | After any run a packet goes behind the buffered bytes and is counted once, unless it is or follows the closing one. |
| AudioPlayback.TurnedAwayOnlyWhenEmpty | lab5/audiolisten.c:137-142 | While the stream runs the level is at most semaphore times payload, so a tick that does nothing finds an empty buffer. |
| AudioPlayback.SemaphoreCountsPayloads | lab5/audiolisten.c:210-212 | With full-size packets the level is exactly semaphore times payload. |
| AudioPlayback.DrainTakesExactly | lab5/audiolisten.c:415-419 | After the end, n ticks empty the buffer exactly when n is at least ceil(level / payload). |
| AudioPlayback.WholeStreamIsPlayed | lab5/audiolisten.c:411-419 | Closed stream plus drain means the device was given the whole stream. |
| Checksum.SendFile | lab3/fileserver.c:273-296 | For every file and every sequence of read sizes the server writes the file and then, as eight big-endian bytes, the sum of its byte values less 256 for each byte of at least 128, modulo 2^64. |
| Checksum.SignedIs | lab3/fileserver.c:276-280 | A byte is added as the number from -128 to 127 that differs from it by a multiple of 256. |
| Checksum.TrailerIs | lab3/fileserver.c:276-296 | Byte i of the trailer is the digit of that word for 256 to the power of 7 - i. |
| Checksum.ReceiveFile | lab3/fileclient.c:293-344 | For every re-chunking the client stores exactly the bytes on the wire, and reports no file exactly when there are none. |
| Checksum.ValidateC | lab3/fileclient.c:153-203 | The verdict is 1 exactly when the last eight bytes are these digits for the bytes before them. |
| Checksum.ValidateJava | lab5/FileClient.java:251-306 | The Java verdict, in wrapping signed arithmetic with shift and or, is the same condition. |
| Checksum.ShiftOrAppends | lab5/FileClient.java:281-286 | Shifting a long by a byte and or-ing the next one in appends a big-endian digit, wrap-around included. |
| Checksum.Download | lab3/fileclient.c:293-364 | Every download stores file and trailer and is accepted. |
| Checksum.AcceptsIff | lab3/fileclient.c:169-199 | A payload with eight trailing bytes is accepted exactly when they are its trailer. |
| Checksum.SentIsAccepted | lab3/fileserver.c:293-296 | What the server sends for any file is accepted. |
| Checksum.OneChangedByteIsDetected | lab3/fileclient.c:169-199 | Changing any one byte of what was sent, in file or trailer, makes the check reject. |
| Checksum.PassesUnnoticedIff | lab3/fileclient.c:169-199 | A payload with the trailer of another one is accepted exactly when the two sums are the same 64-bit word. |
| Checksum.ReorderingIsNotDetected | lab3/fileserver.c:276-280 | Putting the file's bytes in another order keeps the check accepting. |

## Left out

- Sockets, fork, signals, select timing, DNS lookups, mmap and files: sends and receives are operations on sequences of messages, name resolution is a map, mapped files are arrays.
- Turbo handshake, secret keys, file names, configuration parsing: the model starts after the handshake with an agreed size and block size and with the loss counters in any state it can leave.
- Turbo sizes: fileSize and BLOCKSIZE are at least 1, there are at most 1,000,000 blocks (the bitmap's size), `seq*BLOCKSIZE` does not wrap 32 bits, and the counters do not overflow an int.
- TurboServer.EmptyAnswerIff: for numbers whose product with BLOCKSIZE does not wrap 32 bits, which restricts what the unused slots of a control array hold; a number like 2^32 / BLOCKSIZE wraps at lab6/turboserver.c:78, and the program then sends a frame where the model has an empty datagram.
- Turbo buffers: the client's receive buffer is taken to hold BLOCKSIZE + 8 bytes, which its declaration at lab6/turboclient.c:358 does not provide.
- Turbo control array: where BLOCKSIZE is not a multiple of 4, memset reaches one slot in part, which is then taken to hold anything.
- Turbo read past the buffer: where the client scans beyond its receive buffer, the memory there is taken to hold a bar and a block's worth of bytes, whatever they are; without a bar the scan has no defined end.
- Turbo trailing frame: the extra frame at lab6/turboserver.c:321 is taken to repeat the previous one, because the buffer it sends is not refilled there.
- Turbo foreign datagrams: only the two sides' own datagrams arrive.
- Turbo edges: the first pass reads a whole last block, past the end of the file and of the mapping (lab6/turboserver.c:313), and is taken to find some bytes there; a timeout before any frame has set `from` (lab6/turboclient.c:493) is taken to reach the server.
- OverlaySetup: texts that `strtol` would read as octal or hexadecimal numbers are not distinguished, since no router prints one; buffer limits on the route text, the out-of-bounds write to `forwards` at lab6/overlaybuild.c:98, routes of fewer than two names, and reuse of a port by a later process of the same run are not modelled.
- OverlayBuffers.SetupSucceedsIff: for routes of fewer than 65,535 names, one port each, although the program's own text buffer ends far below that. What was in a buffer is taken to be followed by zero bytes.
- OverlayBuffers.OnlyTheRouteIsVisited: for buffers that are harmless at the start; from others a process can be forked for names of another route, as OverlayBuffers.OnlyTheRouteIsVisitedIff says.
- OverlayNetwork.CanConnectIff: for routes of fewer than 65,533 names.
- OverlayTraffic, RelayChain: the destination sends only after it has heard from a relaying process, because it has no address before; besides the client, the destination and the processes of one set-up nobody sends to a relaying process.
- AudioPlayback: handlers are atomic, the buffer is large enough for every packet of the run, and the statistics messages, logs and plots are absent.
- Checksum: C's char is signed, `write` writes everything it is given, and stored files have at least eight bytes, as every file from the server has.
- The chat, ping, traffic, plotting and shell programs, the audio server and the other copies of the same checksum and tunnel code: no further hard property.
