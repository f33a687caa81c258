# Verified model of the ESP32-P4 Linux port

A Dafny model of the parts of the port where one wrong step is hard to see: the esp-hosted network driver, the
display blit, the sensor panel's number formatting and plot, the CLIC trap shim, the boot shim and the wedge tracer.
`dafny verify dfyconfig.toml` checks everything.

Where the C or assembly code updates state step by step, the model has a class or an array with methods in the same
order (`Adapter`, `SpiContext`, `SdioContext`, `Framebuffer`, `History`, `Core`, `Psram`, `Tracer`), each tied by its
contract to a function of the old state. The theorems are about those functions and about runs of them.

| Files | Subject |
|---|---|
| `CommandChannel*`, `CommandLedger`, `CommandAdapter` | command pool, queues and the single command in flight |
| `SpiTransport*` | three priority classes, pause and resume |
| `Framing*` | header, padding, checksum, receive checks |
| `Sdio*` | transmit credit and receive length over wrapping counters |
| `Blit` | tiled 90-degree rotation with vertical shift |
| `FixedPoint*` | fixed-point printer and parser |
| `Screen`, `Sparkline*` | clipped fill, history window, plot |
| `TrapShim*` | mcause and mstatus across nested traps, origin test |
| `BootImage`, `BootShim` | page-wise loading, DTB patching (header fields of section 5.2 of the Devicetree Specification) |
| `WedgeTrace*`, `WedgeTracer` | persistent rings and the dump of the next boot |
| `Arithmetic`, `Basics`, `Queues` | shared vocabulary |

Machine integers are unbounded here and every wrap the code relies on is written as `%`; the trap shim uses 32-bit
vectors. C's division is written out where it truncates toward zero (`Sparkline.TruncDiv`).

## Findings

- Release and recycle take the lock separately. If the work queue sends a command in between, its slot has no owner
  left: nothing clears it and nothing is ever sent again (`CommandChannelRuns.OrphanIsForever`, with a run in
  `LateSendRun`). `CommandChannelAtomic` states the stronger invariant under the assumption that the two are one step.
- After 2^32 checkouts the sequence number repeats and a waiter whose command was never sent clears another one's slot
  (`CommandChannelRuns.AliasRun`).
- The checksum catches every single-byte error but one kind: byte 5, the high half of the payload length, when the
  bytes newly included happen to cancel (`FramingProofs.SingleByteErrors`, `UncaughtError`).
- A failing send is reachable and leaves a node both free and held (`CommandChannelRuns.FailedSendRun`).
- The transmit pause can strand a network device, even the only one: it is restarted only by packets that carry it in
  `cb->priv`, which commands and reallocated data packets do not. Fewer than 20 LOW packets of any other kind are
  harmless, 20 are not (`SpiTransportProofs.EveryStopIsUndone`, `StrandedFromInit`).
- An SDIO probe or resume assumes ten free buffers and keeps the cached credit of before. It is safe iff the true credit
  has room for both errors; for usual credits, iff at least ten buffers are free and the stale cache is at most ten
  (`SdioProofs.RestartIsSafeIff`, `AssumedTen`, with an unsafe case in `ResumeOverpromises`).
- A user task whose tp equals the kernel's is taken for the kernel and loses the SCRATCH invariant
  (`TrapShimProofs.OriginTestIsExact`, `SharedTpLosesTheKernel`).
- The wedge dump shows fewer than the last min(n, 32) of n records only just after the 32-bit counter wraps
  (`WedgeTraceProofs.DumpIsFullIff`).
- The sparkline needs only h >= 6 and w >= 4 to stay inside its rectangle, and w >= 4 is needed.

Where comments and code disagree the code is modelled: the mask in the exit shim clears bits 30 to 27 and not 31; the
stored cause of an ecall is 8 and not 0xB, as the later signal patch also says; PT_TP holds the tp of the interrupted
code, which is what SCRATCH holds after the swap and not before it.

## Model

| member | source | states |
|---|---|---|
| `CommandChannelProofs.StepKeepsInv` | patches/linux/0008-net-wireless-esp-hosted-ng-spi.patch:1719-1781 | one critical section of any caller, of the work queue or of the receive path keeps the lock-granularity invariant (one place per node, no duplicates, flags and code of queued nodes, checkout numbers, the in-flight record) if and only if it is not a failing send |
| `CommandChannelProofs.FailedSendBreaks` | patches/linux/0008-net-wireless-esp-hosted-ng-spi.patch:2183-2192 | a failing send leaves its waiter holding a node that is also in the free queue |
| `CommandChannelRuns.FailedSendRun` | patches/linux/0008-net-wireless-esp-hosted-ng-spi.patch:2183-2192 | a run from the initial state leads to such a send |
| `CommandChannelProofs.PendingHeadIsSendable` | patches/linux/0008-net-wireless-esp-hosted-ng-spi.patch:2148-2168 | the head of the pending queue has an skb, a non-zero code and the queued flag |
| `CommandLedger.Append` | patches/linux/0008-net-wireless-esp-hosted-ng-spi.patch:1770-1781 | queueing one more checkout keeps the ledger: queued = sent, waiting or withdrawn, exactly one of them |
| `CommandLedger.Send` | patches/linux/0008-net-wireless-esp-hosted-ng-spi.patch:2148-2172 | sending the head keeps the ledger and the first-in first-out order |
| `CommandLedger.Withdraw` | patches/linux/0008-net-wireless-esp-hosted-ng-spi.patch:1748-1757 | withdrawing a waiting checkout keeps the ledger and the order of the others |
| `CommandChannelHistory.StepAccounts` | patches/linux/0008-net-wireless-esp-hosted-ng-spi.patch:1770-1781 | every critical section keeps the ledger; it keeps the order too if it queues at default priority |
| `CommandChannelHistory.StepFlies` | patches/linux/0008-net-wireless-esp-hosted-ng-spi.patch:1945-1955 | every critical section keeps sends and owner releases alternating |
| `CommandChannelRuns.RunIsGood` | patches/linux/0008-net-wireless-esp-hosted-ng-spi.patch:1719-1781 | all of the above together hold after any run of critical sections in which no send fails |
| `CommandChannelRuns.QueuePartition` | patches/linux/0008-net-wireless-esp-hosted-ng-spi.patch:1719-1781 | in every reachable state a node is free, pending or in its caller's hands, no queue holds a node twice, a pending node is marked and sendable, and a node in flight under the checkout that was sent is not marked, whatever its waiter has done since |
| `CommandChannelRuns.NeverBranchIsDead` | patches/linux/0008-net-wireless-esp-hosted-ng-spi.patch:2161-2168 | in every reachable state the branch of `esp_cmd_work` that meets an unsendable command is not taken |
| `CommandChannelRuns.NothingLost` | patches/linux/0008-net-wireless-esp-hosted-ng-spi.patch:2128-2172 | in every reachable state each queued checkout is sent, waiting or withdrawn, once, and never sent after its withdrawal |
| `CommandChannelRuns.DispatchOrder` | patches/linux/0008-net-wireless-esp-hosted-ng-spi.patch:1770-1781 | with default priorities, on every run: dispatches followed by what waits = queueing order with only withdrawn commands removed |
| `CommandChannelRuns.HighPriorityIsNext` | patches/linux/0008-net-wireless-esp-hosted-ng-spi.patch:1770-1781 | in every reachable state with an empty slot, a command queued at high priority is the next one sent |
| `CommandChannelRuns.SingleFlight` | patches/linux/0008-net-wireless-esp-hosted-ng-spi.patch:1936-1955 | in every reachable state sends and releases strictly alternate, and before the 32-bit counter wraps each release is made by the very checkout that was sent |
| `CommandChannelRuns.ReleaseClearsExactly` | patches/linux/0008-net-wireless-esp-hosted-ng-spi.patch:1945-1955 | a release clears the slot iff the caller's checkout number equals the sent one modulo 2^32; within 2^32 checkouts iff they are the same checkout |
| `CommandChannelRuns.UnsentWaiterIsHarmless` | patches/linux/0008-net-wireless-esp-hosted-ng-spi.patch:1936-1955 | a waiter whose command was never sent leaves the command in flight alone |
| `CommandChannelRuns.WrappedCounterAliases` | patches/linux/0008-net-wireless-esp-hosted-ng-spi.patch:1700-1703 | the 2^32 bound is needed: a holder 2^32 checkouts later clears a slot it never owned |
| `CommandChannelRuns.AliasRun` | patches/linux/0008-net-wireless-esp-hosted-ng-spi.patch:1700-1703 | a run from the initial state gets there: after 2^32 reuses of a node a waiter whose command was never sent clears another checkout's slot |
| `CommandChannelRuns.AttendedStep` | patches/linux/0008-net-wireless-esp-hosted-ng-spi.patch:1923-1955 | a critical section leaves the slot with a live owner iff it is not a send of a command whose waiter has released and not yet recycled it |
| `CommandChannelRuns.AttendedRun` | patches/linux/0008-net-wireless-esp-hosted-ng-spi.patch:1923-1955 | a run keeps an owner for the slot throughout iff it contains no such late send |
| `CommandChannelRuns.OrphanIsForever` | patches/linux/0008-net-wireless-esp-hosted-ng-spi.patch:2128-2136 | after a late send the slot is never cleared and nothing is ever sent again, whatever happens, until 2^32 further checkouts |
| `CommandChannelRuns.LateSendRun` | patches/linux/0008-net-wireless-esp-hosted-ng-spi.patch:1923-1955 | such a run exists from the initial state; it leaves the slot with a command whose node is free |
| `CommandChannelAtomic.SettledForever` | patches/linux/0008-net-wireless-esp-hosted-ng-spi.patch:1945-1955 | with release and recycle in one step, on every run: a current command is neither free nor pending, its `cmd_seq` is the recorded one, the response attached to its node is the last skb that arrived since it was sent and no other node has one, `cmd_resp` is the code its caller asked for exactly when there is one and 0 otherwise, and releases carry exactly the sent checkout, with no bound on the run |
| `CommandChannelAtomic.SettledFromInit` | patches/linux/0008-net-wireless-esp-hosted-ng-spi.patch:2091-2111 | in particular on every run from the initial pool |
| `CommandChannelAtomic.RetireEffect` | patches/linux/0008-net-wireless-esp-hosted-ng-spi.patch:1923-1955 | what release, reset and re-free of a node add up to |
| `CommandAdapter.Adapter.constructor` | patches/linux/0008-net-wireless-esp-hosted-ng-spi.patch:2091-2111 | recycling the zeroed pool one by one builds the initial channel |
| `CommandAdapter.Adapter.GetFreeCmdNode` | patches/linux/0008-net-wireless-esp-hosted-ng-spi.patch:1719-1746 | the in-place checkout takes the oldest free node or reports none; the whole new adapter state is given |
| `CommandAdapter.Adapter.PrepareCommandRequest` | patches/linux/0008-net-wireless-esp-hosted-ng-spi.patch:2244-2286 | a bad code or an empty pool changes nothing; otherwise the oldest free node is taken and carries the code asked for |
| `CommandAdapter.Adapter.QueueCmdNode` | patches/linux/0008-net-wireless-esp-hosted-ng-spi.patch:1770-1781 | head or tail of the pending queue by priority; nothing else changes |
| `CommandAdapter.Adapter.ResetCmdNode` | patches/linux/0008-net-wireless-esp-hosted-ng-spi.patch:1748-1768 | a queued node leaves the pending queue; code and skbs are cleared; the queued flag stays |
| `CommandAdapter.Adapter.RecycleCmdNode` | patches/linux/0008-net-wireless-esp-hosted-ng-spi.patch:1923-1934 | reset followed by the free queue's tail |
| `CommandAdapter.Adapter.ReleaseIfOwner` | patches/linux/0008-net-wireless-esp-hosted-ng-spi.patch:1945-1955 | the slot and `cmd_resp` are cleared for the owner only |
| `CommandAdapter.Adapter.CmdWork` | patches/linux/0008-net-wireless-esp-hosted-ng-spi.patch:2113-2206 | all four outcomes: busy, empty, unsendable head, send with success or failure |
| `CommandAdapter.Adapter.ProcessCmdResp` | patches/linux/0008-net-wireless-esp-hosted-ng-spi.patch:2288-2323 | the arriving skb itself is attached to the current command and `cmd_resp` becomes its code, or nothing changes when there is none |
| `Framing.ComputeChecksum` | patches/linux/0008-net-wireless-esp-hosted-ng-spi.patch:5212-5223 | the loop computes the byte sum modulo 2^16 |
| `Framing.BuildFrame` | patches/linux/0008-net-wireless-esp-hosted-ng-spi.patch:6161-6220 | the in-place header building yields the frame that `FrameBytes` gives byte by byte |
| `Framing.TrimRxBuf` | patches/linux/0008-net-wireless-esp-hosted-ng-spi.patch:8673-8710 | in bytes: exactly the buffers with interface below 5, non-zero length, offset 12 to 16 and an end within 1600 are cut to offset plus length; others are refused unchanged |
| `Framing.ProcessRxPacket` | patches/linux/0008-net-wireless-esp-hosted-ng-spi.patch:6848-6868 | the checksum test and the removal of header and padding |
| `FramingProofs.RoundTrip` | patches/linux/0008-net-wireless-esp-hosted-ng-spi.patch:6161-6220 | every sendable payload, on every interface, checksum on or off, comes back unchanged whatever follows the frame in the 1600-byte transfer |
| `FramingProofs.FrameBytes` | patches/linux/0008-net-wireless-esp-hosted-ng-spi.patch:6161-6220 | every built frame in bytes: packed interface and number, little-endian length and offset, checksum over the rest, zeros in reserved bytes and padding, then the payload |
| `Framing.UnwrappedBytes` | patches/linux/0008-net-wireless-esp-hosted-ng-spi.patch:6848-6868 | the receiver in bytes: which bytes the checksum test covers and compares, and where interface, number, type and payload are read |
| `FramingProofs.EthernetFits` | patches/linux/0008-net-wireless-esp-hosted-ng-spi.patch:6161-6170 | every payload of 1 to 1514 bytes is sendable, with offset 13 to 16 and a frame length divisible by 4 |
| `FramingProofs.SingleByteErrors` | patches/linux/0008-net-wireless-esp-hosted-ng-spi.patch:6855-6865 | with checksums on, any change of any one byte of any frame the receiver accepts is dropped, length and offset fields included, except that byte 5 passes iff the change moves the checked sum by a multiple of 2^16 (never if it changes by one) |
| `FramingProofs.LengthErrorIff` | patches/linux/0008-net-wireless-esp-hosted-ng-spi.patch:6848-6865 | a changed length or offset byte is accepted iff the buffer is still well formed and the checked sum moves by a multiple of 2^16 |
| `FramingProofs.BuiltFramesAreValid` | patches/linux/0008-net-wireless-esp-hosted-ng-spi.patch:6161-6220 | the error law applies to every built frame |
| `FramingProofs.UncaughtError` | patches/linux/0008-net-wireless-esp-hosted-ng-spi.patch:6855-6865 | the exception is real: every four-byte payload has a transfer in which its length may grow by 512 unnoticed |
| `SpiTransport.SpiContext.WritePacket` | patches/linux/0008-net-wireless-esp-hosted-ng-spi.patch:8567-8620 | each verdict and the whole new transport state; a refusal frees the skb and changes at most the stopped queues |
| `SpiTransport.SpiContext.ProcessRxBuf` | patches/linux/0008-net-wireless-esp-hosted-ng-spi.patch:8673-8725 | a valid buffer is queued in its class with its id, cut to the offset plus length of its header bytes; any other changes nothing |
| `SpiTransport.SpiContext.Dequeue` | patches/linux/0008-net-wireless-esp-hosted-ng-spi.patch:8746-8767 | the oldest skb of the highest class leaves; the counter goes down, not below zero, and its device resumes below 20 |
| `SpiTransport.SpiContext.SpiWork` | patches/linux/0008-net-wireless-esp-hosted-ng-spi.patch:8732-8826 | one work item for all GPIO levels and transfer outcomes: which skbs are taken, queued and freed |
| `SpiTransport.SpiContext.ReadPacket` | patches/linux/0008-net-wireless-esp-hosted-ng-spi.patch:8537-8566 | the oldest packet of the highest non-empty class, or none |
| `SpiTransportProofs.Conservation` | patches/linux/0008-net-wireless-esp-hosted-ng-spi.patch:8567-8826 | on every run and per class, accepted = sent followed by queued and frames let in = handed up followed by queued, where what is let in is read off the arriving bytes; every skb written or allocated for a transfer is queued or was freed by the driver, once; every receive buffer was let in or freed, once |
| `SpiTransportProofs.OnlyFramesComeUp` | patches/linux/0008-net-wireless-esp-hosted-ng-spi.patch:8673-8725 | on every run from the initial transport each skb queued for `read_packet` or handed up is a whole frame: the first offset plus length bytes of a buffer that arrived, with its id, in the class of its interface |
| `SpiTransportProofs.FrameComesUp` | patches/linux/0008-net-wireless-esp-hosted-ng-spi.patch:8537-8725 | a built frame, followed by anything in its transfer, is handed up as it was sent and unpacks to the payload it was built from |
| `SpiTransportProofs.WorkWhen` | patches/linux/0008-net-wireless-esp-hosted-ng-spi.patch:8732-8767 | a work item does nothing unless the slave is ready and has data or a packet is queued; otherwise it sends and frees the head of one class, or a blank buffer if nothing is queued |
| `SpiTransportProofs.StrictPriority` | patches/linux/0008-net-wireless-esp-hosted-ng-spi.patch:8746-8752 | a packet is sent only when every higher class is empty, and it is the oldest of its class |
| `SpiTransportProofs.ReadPriority` | patches/linux/0008-net-wireless-esp-hosted-ng-spi.patch:8537-8566 | the same for packets handed up |
| `SpiTransportProofs.NoLostWakeup` | patches/linux/0008-net-wireless-esp-hosted-ng-spi.patch:8595-8614 | on every run `tx_pending` is at most the LOW queue's length; and for every m, while at most m LOW packets do not carry a device in `cb->priv`, a stop of that device leaves at least 20 - m of its own queued |
| `SpiTransportProofs.EveryRunFromInit` | patches/linux/0008-net-wireless-esp-hosted-ng-spi.patch:8567-8826 | conservation and order hold on every run from the initial transport; if every LOW packet carries the device's `cb->priv`, a stop leaves at least 20 LOW packets queued |
| `SpiTransportProofs.DrainRestarts` | patches/linux/0008-net-wireless-esp-hosted-ng-spi.patch:8753-8767 | draining restarts a stopped device iff one of its packets stands at position `tx_pending - 20` of the sending order or later |
| `SpiTransportProofs.DrainRestartsIfFew` | patches/linux/0008-net-wireless-esp-hosted-ng-spi.patch:8753-8767 | with fewer than 20 LOW packets that do not carry the device's `cb->priv` draining always restarts it |
| `SpiTransportProofs.EveryStopIsUndone` | patches/linux/0008-net-wireless-esp-hosted-ng-spi.patch:8595-8614 | so no stop is for good on any run from the initial transport that keeps below 20 of them at all times |
| `SpiTransportProofs.ForeignBacklogStrands` | patches/linux/0008-net-wireless-esp-hosted-ng-spi.patch:8595-8607 | a device stopped when the last 20 counted packets are not its own stays stopped after everything has drained |
| `SpiTransportProofs.StrandedFromInit` | patches/linux/0008-net-wireless-esp-hosted-ng-spi.patch:8595-8607 | the bound of 20 is sharp and one device is enough: a run of 102 events from the initial transport, with 20 packets that carry no device or another one, strands it |
| `Sdio.SdioContext.SlaveGetTxBufferNum` | patches/linux/0008-net-wireless-esp-hosted-ng-spi.patch:7362-7387 | the cached credit becomes the 12-bit difference of token and count; a failed read leaves it |
| `Sdio.SdioContext.IsSdioWriteBufferAvailable` | patches/linux/0008-net-wireless-esp-hosted-ng-spi.patch:7763-7800 | the retry loop reserves exactly when polling reaches the demand, with both attempts written out in `ReserveSteps` |
| `Sdio.ReserveSteps` | patches/linux/0008-net-wireless-esp-hosted-ng-spi.patch:7763-7800 | the register is read only while the cache is below the need, at most twice; a failed read leaves the cache; the need is taken from it or nothing is |
| `SdioProofs.BufNeededIsExact` | patches/linux/0008-net-wireless-esp-hosted-ng-spi.patch:7871-7875 | the driver reserves and counts what the slave fills: one buffer for each 2048 bytes begun |
| `Sdio.SdioContext.TxOne` | patches/linux/0008-net-wireless-esp-hosted-ng-spi.patch:7871-7915 | one packet: reserve, write, and count one buffer for each 2048 bytes begun, only if written |
| `Sdio.SdioContext.GetLenFromSlave` | patches/linux/0008-net-wireless-esp-hosted-ng-spi.patch:7418-7432 | both branches compute the counter difference modulo 2^20 |
| `Sdio.SdioContext.ReadChunks` | patches/linux/0008-net-wireless-esp-hosted-ng-spi.patch:7653-7691 | the block and remainder loop terminates, makes exactly the transfers due up to the first failure (all whole 512-byte blocks, then the rest), and the receive counter follows the bytes read |
| `Sdio.TransferCovers` | patches/linux/0008-net-wireless-esp-hosted-ng-spi.patch:7664-7675 | a transfer ends at the end of the command window and carries the bytes wanted, rounded up to a word |
| `Sdio.SdioContext.ReadPacket` | patches/linux/0008-net-wireless-esp-hosted-ng-spi.patch:7600-7710 | result, transfers and counter for an idle slave, a bus error, a bad header and a good packet |
| `Sdio.HeaderBytes` | patches/linux/0008-net-wireless-esp-hosted-ng-spi.patch:7694-7708 | the header test in bytes: length 1 to 2048 and offset 12 to 16 |
| `SdioProofs.CreditSafety` | patches/linux/0008-net-wireless-esp-hosted-ng-spi.patch:7763-7800 | on every run the buffers the slave fills, one for each 2048 bytes begun of each written packet, never exceed those it granted, nor does the cached credit exceed what is left |
| `Sdio.SdioContext.GetFirmwareData` | patches/linux/0008-net-wireless-esp-hosted-ng-spi.patch:7529-7572 | probe and resume take both counters from the slave, stop at the first read that fails, and never touch the cached credit |
| `SdioProofs.SafeForeverIff` | patches/linux/0008-net-wireless-esp-hosted-ng-spi.patch:7763-7800 | for any count and cached credit: no later run sends more than was granted iff the true credit has room for the cache and for the host's lag, the buffers it takes for sent beyond the truth modulo 4096 |
| `SdioProofs.TooLittleRoomOverruns` | patches/linux/0008-net-wireless-esp-hosted-ng-spi.patch:7871-7915 | without that room, sending one packet after another ends with more sent than was granted |
| `SdioProofs.RestartIsSafeIff` | patches/linux/0008-net-wireless-esp-hosted-ng-spi.patch:7561-7567 | the same for what a probe or resume leaves, whatever was granted, sent and cached before |
| `SdioProofs.AssumedTen` | patches/linux/0008-net-wireless-esp-hosted-ng-spi.patch:7561-7567 | with a token of ten or more a probe or resume is safe iff at least ten buffers are free and the stale cache is at most ten (more for credits of 4106 and above, in steps of 4096) |
| `SdioProofs.RefreshIsSafe` | patches/linux/0008-net-wireless-esp-hosted-ng-spi.patch:7380-7387 | a register read never shows more than the true credit, and shows it exactly iff that is below 4096 |
| `SdioProofs.RefusalIsHonest` | patches/linux/0008-net-wireless-esp-hosted-ng-spi.patch:7763-7800 | a packet is refused only if the slave would need more buffers for it than are free, if the last read worked and the credit is below 4096 |
| `SdioProofs.ResumeOverpromises` | patches/linux/0008-net-wireless-esp-hosted-ng-spi.patch:8061-8092 | with every granted buffer used, a resume promises ten more |
| `SdioProofs.ReceiveLengthIsExact` | patches/linux/0008-net-wireless-esp-hosted-ng-spi.patch:7418-7432 | the length is the whole backlog iff that is below 2^20, and reading it brings the counter level with the register |
| `SdioProofs.ReadsNeverOverrun` | patches/linux/0008-net-wireless-esp-hosted-ng-spi.patch:7600-7710 | on every run of slave output and packet reads, failing ones included, the host never reads more than was put out and its counter stays the number read modulo 2^20 |
| `SdioProofs.ReadCatchesUpIff` | patches/linux/0008-net-wireless-esp-hosted-ng-spi.patch:7653-7691 | after any such run a read without a failure takes all that is there iff that is below 2^20 |
| `Blit.BlitFb` | patches/linux/0003-drm-mipi-dsi-esp32p4.patch:1462-1530 | the four nested loops leave every destination cell equal to its rotated and shifted source pixel and write nothing beyond |
| `Blit.PlacedMeans` | patches/linux/0003-drm-mipi-dsi-esp32p4.patch:1515-1526 | in plain indices: row r, column c shows row (c + 16) mod H of the window, column W - 1 - r |
| `Blit.BlitTile` | patches/linux/0003-drm-mipi-dsi-esp32p4.patch:1517-1524 | one tile fills its cells and leaves finished ones as they are |
| `Blit.SquareIsBijection` | patches/linux/0003-drm-mipi-dsi-esp32p4.patch:1462-1530 | on a square panel of any size cells and window pixels determine each other, with the inverse written out |
| `Blit.WideIsNotInjective` | patches/linux/0003-drm-mipi-dsi-esp32p4.patch:1462-1530 | on a panel wider than high two columns show the same row |
| `Blit.WindowRecovered` | patches/linux/0003-drm-mipi-dsi-esp32p4.patch:1462-1530 | every pixel of the visible source window can be read back from the panel |
| `FixedPoint.FmtFixed` | patches/buildroot/overlay-src/sensorpanel.c:293-318 | the text, right-aligned as `PaddedShape` says, cut to `max - 1` and closed with NUL; bytes after it are untouched |
| `FixedPointProofs.PaddedShape` | patches/buildroot/overlay-src/sensorpanel.c:311-316 | as long as the larger of width and text, spaces in front, the text at the end |
| `FixedPoint.FmtScratch` | patches/buildroot/overlay-src/sensorpanel.c:293-310 | the scratch array ends up holding the text reversed, within its 32 bytes |
| `FixedPoint.ScratchSuffices` | patches/buildroot/overlay-src/sensorpanel.c:302-310 | at most 21 of the 32 scratch bytes are used for every int but the smallest and 0 to 9 decimals |
| `FixedPoint.ParseFixed` | patches/buildroot/overlay-src/sensorpanel.c:260-284 | sign, digits, optional fraction cut or padded to the scale, with the value given by `ParsedIsFloor` and the failures by `RefusedIff`; and exactly when every step stays within `int`, where C defines the result |
| `FixedPointProofs.ParseNumeral` | patches/buildroot/overlay-src/sensorpanel.c:260-284 | what the parser makes of any numeral, with any number of fraction digits, in units of the last place |
| `FixedPointProofs.ParsedIsFloor` | patches/buildroot/overlay-src/sensorpanel.c:260-284 | for every accepted string: the digits before and after the point as one number, times 10^d over 10 to the number of digits after the point, rounded down, the sign applied last, anything after the numeral ignored |
| `FixedPointProofs.RefusedIff` | patches/buildroot/overlay-src/sensorpanel.c:260-284 | a string is refused iff no digit follows its optional sign |
| `FixedPointProofs.NegativeReads` | patches/buildroot/overlay-src/sensorpanel.c:271-284 | "-0.59" to one place is -5: extra digits are cut, toward zero |
| `FixedPointProofs.PrintedTexts` | patches/buildroot/overlay-src/sensorpanel.c:288-318 | the example of the comment, 31.98, and -0.50 |
| `FixedPointProofs.PrintThenParse` | patches/buildroot/overlay-src/sensorpanel.c:260-318 | for every value and number of places, parsing the printed text gives the value back |
| `FixedPointProofs.PrintedStaysInRange` | patches/buildroot/overlay-src/sensorpanel.c:260-318 | for every int but the smallest and up to nine places no step of parsing the printed text leaves `int`, and it gives the value back |
| `FixedPointProofs.FormattedThenParsed` | patches/buildroot/overlay-src/sensorpanel.c:260-318 | with a buffer that is large enough, parsing what `fmt_fixed` wrote gives the value back iff the width asked for no padding; padded text is refused |
| `FixedPointProofs.PrintIsInjective` | patches/buildroot/overlay-src/sensorpanel.c:293-318 | two values never share a text |
| `FixedPointProofs.ParseThenPrint` | patches/buildroot/overlay-src/sensorpanel.c:260-318 | printing what was parsed from a canonical numeral gives the numeral back |
| `FixedPointProofs.PrintIsCanonical` | patches/buildroot/overlay-src/sensorpanel.c:293-318 | the printer writes canonical numerals only |
| `Screen.Framebuffer.FillRect` | patches/buildroot/overlay-src/sensorpanel.c:179-190 | the clipped loops paint exactly the visible cells of the rectangle as asked for, before clipping |
| `Screen.FillMeans` | patches/buildroot/overlay-src/sensorpanel.c:179-190 | pixel by pixel: visible cells inside the rectangle take its colour, all others stay |
| `Screen.Rgb565Fields` | patches/buildroot/overlay-src/sensorpanel.c:43-46 | the five, six and five highest bits of the channels, red first |
| `Screen.FillAllFrame` | patches/buildroot/overlay-src/sensorpanel.c:179-190 | a cell that no rectangle of a list covers keeps its colour |
| `Sparkline.History.HistPush` | patches/buildroot/overlay-src/sensorpanel.c:401-421 | the shifted window and the extents after one more sample, and exactly when every step stays within `int` |
| `Sparkline.DrawSparkline` | patches/buildroot/overlay-src/sensorpanel.c:423-451 | the drawing loops paint exactly the listed rectangles, in order |
| `SparklineProofs.WindowIsSuffix` | patches/buildroot/overlay-src/sensorpanel.c:401-408 | after any pushes the history is the last min(n, 20) samples, oldest first |
| `SparklineProofs.ExtentsBracket` | patches/buildroot/overlay-src/sensorpanel.c:409-420 | the extents bracket every sample and are at least 40 apart, also after widening with C's truncating division |
| `SparklineProofs.ExtentsExact` | patches/buildroot/overlay-src/sensorpanel.c:409-420 | the extents are the lowest and highest sample if these are 40 apart, else 20 either side of their middle, truncated |
| `SparklineProofs.ColumnOf` | patches/buildroot/overlay-src/sensorpanel.c:433-433 | sample i stands at i nineteenths of the width between the margins, rounded to the left |
| `SparklineProofs.HeightOf` | patches/buildroot/overlay-src/sensorpanel.c:434-435 | its height over the lower margin is its share of the range, rounded down |
| `SparklineProofs.MarginsReached` | patches/buildroot/overlay-src/sensorpanel.c:434-435 | samples at the extents stand on the lower and the upper margin |
| `SparklineProofs.HigherIsHigher` | patches/buildroot/overlay-src/sensorpanel.c:434-435 | no sample is drawn below a lower one |
| `SparklineProofs.DrawnExactly` | patches/buildroot/overlay-src/sensorpanel.c:423-449 | background, tick, then the lines between neighbouring samples in order, and nothing else |
| `SparklineProofs.SegmentExact` | patches/buildroot/overlay-src/sensorpanel.c:436-447 | a line has one 3-by-3 block more than its longer side has steps, one around each interpolated point, none from a point left of the screen |
| `SparklineProofs.LerpMeans` | patches/buildroot/overlay-src/sensorpanel.c:444-445 | each interpolated coordinate is the exact share of the way, rounded toward the start |
| `SparklineProofs.LineIsConnected` | patches/buildroot/overlay-src/sensorpanel.c:436-447 | a segment starts on one sample, ends on the next, and successive blocks are at most one pixel apart in either axis |
| `SparklineProofs.PlotStaysInside` | patches/buildroot/overlay-src/sensorpanel.c:423-451 | for w >= 4 and h >= 6 every pixel of every rectangle lies inside the plot |
| `SparklineProofs.NarrowPlotSpills` | patches/buildroot/overlay-src/sensorpanel.c:433-447 | the width bound is sharp: with w < 4 two samples already paint outside |
| `SparklineProofs.SparklineKeepsTheRest` | patches/buildroot/overlay-src/sensorpanel.c:401-451 | drawing any history with its extents changes no framebuffer cell outside the plot's rectangle |
| `SparklineProofs.SmallSamplesInRange` | patches/buildroot/overlay-src/sensorpanel.c:409-420 | samples below 2^30 in magnitude never take the extents out of `int` |
| `Sparkline.Position` | patches/buildroot/overlay-src/sensorpanel.c:433-435 | the position of a sample, and exactly when every step of it stays within `int` |
| `SparklineProofs.SampleInRangeIff` | patches/buildroot/overlay-src/sensorpanel.c:433-435 | on any plot of up to 32768 pixels each way that is exactly when the range and the scaled height of the sample do |
| `SparklineProofs.LineStaysInRange` | patches/buildroot/overlay-src/sensorpanel.c:436-447 | on such a plot no step of a line between samples leaves `int` |
| `TrapShim.Core.HandleException` | patches/linux/0001-riscv-esp32p4-baseline.patch:157-184 | the entry sequence: tp and SCRATCH, rebuilt status, vector index; the cause saved in the new frame and the vector are given bit by bit |
| `TrapShim.Core.RetFromException` | patches/linux/0001-riscv-esp32p4-baseline.patch:298-400 | the exit sequence: origin test, SCRATCH, status and rebuilt mcause |
| `TrapShim.Classify` | patches/linux/0001-riscv-esp32p4-baseline.patch:237-290 | bit by bit: interrupts keep the raw cause and have no vector; code 11 is stored as 8 but takes vector 11; other exceptions lose bits 23 to 16 only |
| `TrapShimProofs.StatusBits` | patches/linux/0001-riscv-esp32p4-baseline.patch:157-184 | the saved status has MPP and MPIE from bits 29 to 27 of the cause and is the status otherwise |
| `TrapShimProofs.CauseBits` | patches/linux/0001-riscv-esp32p4-baseline.patch:357-400 | the rebuilt cause has MPP and MPIE from the status, zeros in bits 30 and 23 to 16, and the stored bits otherwise |
| `TrapShimProofs.EcallReadsAsSyscall` | patches/linux/0001-riscv-esp32p4-baseline.patch:237-290 | on every run the frame of a machine-mode ecall reads 8 until a signal clears it, whatever is nested inside it |
| `TrapShimProofs.ExitFields` | patches/linux/0001-riscv-esp32p4-baseline.patch:357-400 | for every saved status and every stored cause the returned mcause has MPP and MPIE of the status, no MPIL, no MINHV, and INT of the cause |
| `TrapShimProofs.StepKeepsInv` | patches/linux/0001-riscv-esp32p4-baseline.patch:157-400 | traps, returns, interrupt-enable changes, signal deliveries and user tp changes keep every open frame restorable, as long as no user task takes the kernel's tp |
| `TrapShimProofs.ReturnRestores` | patches/linux/0001-riscv-esp32p4-baseline.patch:298-400 | a return hands back the hart the innermost open trap interrupted, apart from mcause |
| `TrapShimProofs.TrapAndReturn` | patches/linux/0001-riscv-esp32p4-baseline.patch:327-400 | a trap, any nested run and the matching return restore privilege, interrupt enable, tp, SCRATCH and frames, with mcause as required, even if the stored cause became 8 or 0 |
| `TrapShimProofs.EveryTrapIsUndone` | patches/linux/0001-riscv-esp32p4-baseline.patch:157-400 | the same for every trap of every run that starts in a kernel thread or a user task |
| `TrapShimProofs.OriginTestIsExact` | patches/linux/0001-riscv-esp32p4-baseline.patch:85-110 | the `regs->tp` test is right iff a trapping user task's tp is not the kernel's |
| `TrapShimProofs.SharedTpLosesTheKernel` | patches/linux/0001-riscv-esp32p4-baseline.patch:298-307 | a user task that once returned with the kernel's tp makes the kernel run on a user tp at its next trap |
| `TrapShimProofs.ClearedCauseIsNotAnInterrupt` | patches/linux/0014-riscv-signal-mcause-hardening.patch:27-39 | a cleared cause returns as an exception, all ones would return as an interrupt |
| `BootShim.Psram.LoadPartition` | linux-native/main/main.c:93-126 | for any size and page the page-wise loop equals a flat copy; it fails iff a page it needs cannot be mapped, and then changes nothing outside the target |
| `BootShim.ProbeKernelSize` | linux-native/main/main.c:135-170 | 0 iff the header cannot be mapped or bytes 48 to 55 are not "RISCV" and three zeros; otherwise the little-endian size at byte 16, or the partition's if that is zero or too large |
| `BootShim.Psram.ReplaceNeedle` | linux-native/main/main.c:491-501 | the loop replaces the first placeholder and only that one, or changes nothing |
| `BootShim.Psram.PatchDtb` | linux-native/main/main.c:468-501 | a bad header is refused unchanged; otherwise the DTB in place becomes the patched one |
| `BootShim.AppMain` | linux-native/main/main.c:365-514 | the jump is reached iff header, pages, root file system and DTB header are all good, and PSRAM then holds the kernel of the probed size with the patched DTB over it |
| `BootShim.NothingElseChanges` | linux-native/main/main.c:372-384 | a kernel that ends below the DTB is intact, the DTB is in place and the rest of PSRAM is as before |
| `BootShim.KernelIntactIff` | linux-native/main/main.c:20-21 | the kernel survives the DTB steps iff it agrees with the patched DTB wherever it reaches past 8 MB, in particular if it does not reach that far |
| `BootImage.PatchIsLocal` | linux-native/main/main.c:483-501 | the DTB changes at most in the 8 bytes of the first placeholder, which decode big-endian to address and size, never in the magic; without a placeholder it does not change |
| `BootImage.HeaderBytes` | linux-native/main/main.c:135-170 | the kernel header's magic and size, byte by byte |
| `BootImage.DtbHeaderBytes` | linux-native/main/main.c:468-481 | a DTB is accepted iff it starts with d0 0d fe ed and its big-endian size is between 16 and the partition's |
| `BootImage.CellsDecode` | linux-native/main/main.c:486-491 | the four replacement bytes decode big-endian to the word |
| `WedgeTracer.Tracer.IrqEntry` | patches/linux-diagnostics/0025-esp32p4-wedge-trace.patch:147-165 | one record enters the slot of the counter modulo 1024 and the history; nothing happens before the tracer is armed |
| `WedgeTracer.Tracer.TickEntry` | patches/linux-diagnostics/0025-esp32p4-wedge-trace.patch:167-204 | one tick enters the slot of the counter modulo 4 and the history with its own number |
| `WedgeTracer.Tracer.DumpRecs` | patches/linux-diagnostics/0025-esp32p4-wedge-trace.patch:227-234 | the dump loop prints the last 32 slots below the counter, or all there are |
| `WedgeTracer.Tracer.Init` | patches/linux-diagnostics/0025-esp32p4-wedge-trace.patch:236-268 | the next boot dumps the newest records of the previous boot's history if its magic is found, and starts with an empty one |
| `WedgeTraceProofs.RecordedHolds` | patches/linux-diagnostics/0025-esp32p4-wedge-trace.patch:147-165 | after any number of interrupts the ring holds the newest 1024 records in their slots, whatever it held before |
| `WedgeTraceProofs.DumpMatchesHistory` | patches/linux-diagnostics/0025-esp32p4-wedge-trace.patch:206-234 | the dump equals the newest min(n mod 2^32, 32) records of the full history, oldest first |
| `WedgeTraceProofs.DumpIsFullIff` | patches/linux-diagnostics/0025-esp32p4-wedge-trace.patch:206-234 | all of the last min(n, 32) records are shown iff n < 2^32 or n mod 2^32 >= 32 |
| `WedgeTraceProofs.TornRecordIsInvisible` | patches/linux-diagnostics/0025-esp32p4-wedge-trace.patch:155-161 | a reset in the middle of a record does not change the dump |
| `WedgeTraceProofs.TicksShown` | patches/linux-diagnostics/0025-esp32p4-wedge-trace.patch:206-225 | from the fourth tick on the slots are the last four ticks, rotated by the counter |

## Left out

- Failing skb allocation and leaks on error returns in the driver: documented latent bugs. A failing send is modelled
  only as the one step that breaks the command channel's invariant.
- Matching of responses to commands, liveness of a queued command, the driver-active, init-done and OTA gates, and the
  advisory waiters: the code promises none of the first two, the rest only add refusals.
- Memory order inside a critical section: each is one step. Stamping the code on a node is its own step,
  outside locks; the skb and the queued flag of a fresh node, also set after the unlock, belong to its checkout step.
- SPI: `write_packet` and the dequeue are single steps, as the counter and the queues are separately atomic in the
  driver. The model is the driver of patch 0008; a later patch counts every class and pads transfers. A purge ends a
  run. A set `cb->priv` is taken to have a net device; flow control says nothing about a stopped
  device behind 20 or more LOW packets that do not carry it. Freeing is recorded where the driver calls it, not acted out.
- Framing: Bluetooth HCI packets, headroom reallocation and the lookup of the receiving device. Payloads are below
  65520 bytes, where the 16-bit length is exact; the transport's own limit is 1588.
- SDIO: queue selection, pausing and the disabling of the adapter after a failed read. A failing write is taken to use
  up no slave buffer. A packet shorter than a header counts as dropped. What the rounded-up last transfer reads beyond the packet
  is not kept.
- Blit: cache flush and the choice of the frame buffer. The panel is at least as wide as high, as the source column
  would otherwise be negative.
- Sensor panel: integers are unbounded; for the parser, the history and the sample positions the model says exactly when
  C's would overflow, for the clipped fill it does not. `FixedPoint.FmtFixed` covers every int but INT_MIN. Text drawing and sensor reading are input and output.
- Trap shim: patch 0001 with the signal change of 0014, not the later patches that force MPIE or change user mode.
  Context switches, the rest of the saved registers, the stack switch and the hardware's CLIC latch are not part of it.
  The swap of tp and SCRATCH and the restore of SCRATCH are upstream code that the patch only describes. A return is
  not itself interrupted. Rewriting of the saved status is covered by `TrapShimProofs.ExitFields` and not by the runs.
- Boot shim: finding partitions, cache write-back, the root file system's prewalk and the jump. Rounding down to a page
  is written with `%`, which for the power-of-two page size is the code's mask. Partitions hold at least
  the bytes their headers are read from.
- Wedge tracer: cache write-back, and the words of a tick sample as an uninterpreted list.
