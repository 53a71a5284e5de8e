# OpenSBI: verified models

OpenSBI is the machine-mode firmware of RISC-V systems. This project models the parts of it that carry hard
properties, and proves them in Dafny 4.11. `dafny verify dfyconfig.toml` checks everything.

- **Division on quads** (`Arith`, `Qdivrem`, `SignedDivision`). `__qdivrem` is Knuth's Algorithm D on arrays of four
  digits in base 2^h. The digit width stays a parameter. The methods work on the same arrays, in the same steps, as
  the source; the numbers that the arrays denote are related to the steps by lemmas on digit strings.
- **Remote fences** (`Fifo`, `TlbInfo`, `TlbProtocol`, `TlbSafety`, `TlbProgress`, `TlbQueue`, `TlbUnserved`). The
  queue is a class that refines a bounded sequence. The protocol of `sbi_tlb.c` and `sbi_ipi.c` is a transition system
  with any number of harts and one step for each atomic operation or locked section, under sequential consistency.
  Safety (conserved acknowledgements, a flush at every target between the post to it and the return of the call) and
  progress (no lost event, no deadlock, bounded work) hold in every run.
- **Ticket lock, coldboot handshake, hart lifecycle** (`TicketLock`, `TicketProgress`, `Coldboot`, `Hsm`). Three more
  transition systems, proved over every interleaving and any number of harts; the handshake also with IPIs from
  elsewhere at any time.
- **Flattened devicetrees** (`Seqs`, `FdtFormat`, `FdtBytes`, `FdtMemory`, `FdtWriter`, `FdtTree`, `FdtEdit`,
  `FdtCommute`, `FdtNames`, `FdtTreeEdit`, `FdtVisit`, `FdtInPlace`). The structure and strings blocks of sections 5.4
  and 5.5 of the Devicetree Specification v0.3 as bytes, the sequential writer, the reader, the in-place editor and
  the nop editor. What a reader meets is a sequence of events (`Decode`); a tree flattens to events in one way only.
  Writer and editors are classes over one byte array, proved against what a reader then meets.
- **Overlays** (`FdtMerge`, `FdtOverlay`, `FdtPhandle`, `FdtNodes`, `FdtFixups`, `FdtExact`, `FdtWithin`,
  `FdtLocalRefs`, `FdtApply`). The merge of an overlay into a base blob, the move of the overlay's phandles above
  those of the base, the update of the references that `__local_fixups__` lists, and where these references point in
  the merged tree. Each is a function on trees, about which the theorems speak, and a method on blobs that is proved
  to do what the function says.
- **Domains and PMP** (`Blocks`, `Domain`, `DomainSort`, `DomainConflict`, `DomainMerge`, `DomainExact`, `Pmp`,
  `HartMask`). Power-of-two regions, the access check, the in-place sort and merge, which conflicts the sort meets,
  when merging is harmless, the encoding into the registers of section 3.7.1 of the RISC-V Privileged Architecture
  v1.12, the agreement of the hardware's decision with the check, the registration of domains, and whom an IPI
  reaches.
- **Words and wide arithmetic** (`Words`, `Bitmap`, `Wide`). Bit searches over bitmaps of any length, and 128- and
  256-bit arithmetic.

Where the code and its comments or documentation differ, or what one would expect of it fails, the models follow the
code:

- `find_last_bit` is documented to return the first set bit; it returns the last.
- `is_region_subset` takes the end of the second region from the order of the first, so that a conflict means equal base
  and equal flags (`Domain.ConflictMeans`). The sort loop misses some of these conflicts: which ones, depends on the
  order of the list (`DomainConflict.RefusedInEveryOrder`, `DomainConflict.RefusedInSomeOrder`).
- `tlb_process_count` handles one entry more than its argument says (`TlbQueue.HelpsTwice`).
- A wider range that ends level with the queued one is not coalesced with it (`TlbInfo.LevelEndsMissed`).
- Coalescing does not recognise the (0, 0) form of a full flush, ranges that wrap, and ranges whose loop does not visit
  every page (`TlbInfo.PlainIsExact`). They are exactly the requests with which some call can return unserved
  (`TlbUnserved.ServedExactly`).
- `fdt_subnode_offset` lets a name without a unit address match a node with one, and so does an overlay; that is harmless
  exactly for overlays that `FdtMerge.Fit` (`FdtMerge.FitExactly`).
- Sums of 32 bits wrap unnoticed in `fdt_next_tag` (`FdtFormat.CallsGiveChunks`, `FdtFormat.EndsExactly`), `fdt_add_string_`
  (`FdtWriter.RoomExact`) and `fdt_setprop_inplace_namelen_partial` (`FdtFixups.AdmitsExactly`).
- A waiting hart may test `coldboot_done` without bound when an IPI that is not the waker's is pending
  (`Coldboot.WaitingTurns`), as the start of a domain's boot hart can send it before the flag is set.
- The merging of root regions can change what is allowed (`DomainMerge.ListedBlockChanges`) when a listed region is also
  put together from smaller ones (`DomainExact.OptimizedExactly`).
- For machine mode the PMP hardware and `sbi_domain_check_addr` do not always agree (`Pmp.MachineModeExact`).

## Model

| member | source | states |
|---|---|---|
| Qdivrem.QDivRem | lib/utils/libquad/qdivrem.c:84-278 | for every dividend and divisor of four digits of any width h > 0: u = q·v + r with r < v; by zero, the remainder is the dividend |
| Qdivrem.EstimateWithinOne | lib/utils/libquad/qdivrem.c:201-226 | Knuth's theorem: with a nonzero leading divisor digit, the quotient of the leading three digits by the leading two, cut off at B - 1, is the true quotient digit or one more |
| Qdivrem.EstimateDigit | lib/utils/libquad/qdivrem.c:209-226 | step D3, with the jump into the loop body, ends with the three-digit by two-digit quotient, cut off at B - 1 |
| Qdivrem.BorrowStep | lib/utils/libquad/qdivrem.c:233-237 | in wrap-around arithmetic, (B - HHALF(t)) & (B - 1) is the borrow of the true difference, and HHALF(t) is nonzero exactly when there is one |
| Qdivrem.MultiplySubtract | lib/utils/libquad/qdivrem.c:233-239 | D4 leaves in place the digits and the borrow of a digit-by-digit subtraction of qhat times the divisor |
| Qdivrem.SubDigitsMeaning | lib/utils/libquad/qdivrem.c:233-237 | those digits are the difference of the numbers, up to the borrow times the weight of the leading digit |
| Qdivrem.LeadingBorrow | lib/utils/libquad/qdivrem.c:238-246 | the D5 test on the last difference holds exactly when qhat times the divisor exceeds the dividend; the digits then are that difference modulo one more digit |
| Qdivrem.LeadingCarry | lib/utils/libquad/qdivrem.c:247-253 | one add-back undoes the negative difference, the dropped carry being the borrow of D4 |
| Qdivrem.QuotientDigit | lib/utils/libquad/qdivrem.c:201-255 | D3 to D6 for one position: the digit is the true quotient and the remainder is left in place; other digits do not change |
| Qdivrem.DivideDigits | lib/utils/libquad/qdivrem.c:192-256 | the loop on j keeps the account: dividend = digits found so far times divisor, plus what is left |
| Qdivrem.Shl | lib/utils/libquad/qdivrem.c:66-74 | the digits written are those of the left shift |
| Qdivrem.ShlMeaning | lib/utils/libquad/qdivrem.c:62-74 | when nothing falls out on the left, the number is multiplied by 2^sh |
| Qdivrem.NormalisePair | lib/utils/libquad/qdivrem.c:183-191 | D1 multiplies both numbers by the same power of two and makes the leading divisor digit at least B / 2, for every width |
| Qdivrem.Denormalise | lib/utils/libquad/qdivrem.c:258-269 | dividing the remainder of the shifted pair by the power of two gives quotient and remainder of the pair itself |
| Qdivrem.Collect | lib/utils/libquad/qdivrem.c:258-277 | the tail loop and the assembly of the results give the quotient and the remainder of the original numbers |
| Qdivrem.ShortDivide | lib/utils/libquad/qdivrem.c:152-164 | division by one digit, as the unrolled steps perform it |
| SignedDivision.DivDi3 | lib/utils/libquad/divdi3.c:47-64 | the quotient truncated toward zero; the least quad by -1, the one quotient that is no quad, wraps to the least quad |
| SignedDivision.ModDi3 | lib/utils/libquad/moddi3.c:47-66 | the remainder with the dividend's sign that belongs to the truncated quotient; by zero the dividend |
| SignedDivision.TruncatedUnique | lib/utils/libquad/divdi3.c:43-64 | C's truncating division is determined by a = q·b + r, a remainder smaller than the divisor, and the sign of the remainder |
| SignedDivision.TruncatedMeaning | lib/utils/libquad/divdi3.c:43-64 | the quotient and remainder that the wrappers return are that division |
| SignedDivision.QuotientIsQuad | lib/utils/libquad/divdi3.c:43-64 | the truncated quotient of two quads is a quad unless the least quad is divided by -1 |
| Fifo.Ring.Enqueue | lib/sbi/sbi_fifo.c:61-72 | refused exactly when full; otherwise the queue grows at the end and the older entries stay |
| Fifo.Ring.Dequeue | lib/sbi/sbi_fifo.c:175-198 | refused exactly when empty; otherwise the oldest entry leaves the queue |
| Fifo.Ring.InplaceUpdate | lib/sbi/sbi_fifo.c:124-155 | the ring, wrapped around or not, is left as the scan of the queued entries, oldest first, leaves the sequence |
| Fifo.ScanUpdateFirst | lib/sbi/sbi_fifo.c:124-155 | the scan rewrites the first entry that the callback accepts and no other; without such an entry nothing changes |
| TlbInfo.LocalFlush | lib/sbi/sbi_tlb.c:36-191 | the call returns exactly when its page loop ends, and then the fences executed remove exactly what the request asks for, whatever the fence kind |
| TlbInfo.LoopEnds | lib/sbi/sbi_tlb.c:53-55 | the 64-bit counter of the page loop reaches the size exactly when that is at most 2^64 - 4096; otherwise the loop is endless |
| TlbInfo.UpgradedEnds | lib/sbi/sbi_tlb.c:347-353 | after the upgrade no loop is endless, if the limit is at most 2^64 - 4096 |
| TlbInfo.UpgradeCovers | lib/sbi/sbi_tlb.c:347-353 | turning a long range into a flush of everything flushes all that was asked for, and once is enough |
| TlbInfo.WiderCovers | lib/sbi/sbi_tlb.c:274-297 | for plain ranges, containment of intervals is containment of the pages the flush loops visit |
| TlbInfo.CoalesceSound | lib/sbi/sbi_tlb.c:274-339 | the entry that coalescing leaves covers the queued and the new request, and waits for the senders of both |
| TlbInfo.CoalesceExactly | lib/sbi/sbi_tlb.c:274-339 | requests that do not wrap coalesce exactly if they are of one kind and one range lies in the other, but a wider new one only if it also ends behind the queued one; what is left is the entry with the wider range and the waiters of both, otherwise the entry as it was |
| TlbInfo.LevelEndsMissed | lib/sbi/sbi_tlb.c:286-295 | for example, a wider request that ends with the queued one does not coalesce |
| TlbInfo.PlainIsExact | lib/sbi/sbi_tlb.c:274-297 | among all requests, aligned or not, coalescing is safe, whether the request is queued first or second, exactly for those whose loop visits every page that the range meets, that do not wrap and are not the (0, 0) form |
| TlbInfo.Loser | lib/sbi/sbi_tlb.c:274-297 | for every other request, the plain request for at most one page that it loses to, or makes lose |
| TlbInfo.UnalignedEntryLoses | lib/sbi/sbi_tlb.c:274-297 | for example, a queued unaligned range absorbs a page that its loop never visits |
| TlbSafety.StepKeepsInv | lib/sbi/sbi_tlb.c:214-391 | every atomic step of every hart keeps the protocol invariant |
| TlbSafety.AcksConserved | lib/sbi/sbi_tlb.c:220-229 | in every reachable state each waiting hart has exactly one token, in a queued entry, in the part of an entry still to be acknowledged, or in its own sync word, and a hart that does not wait has none |
| TlbSafety.AckNeverSpins | lib/sbi/sbi_tlb.c:227-228 | the exchange that sets a sync word finds it clear, and the waiter's request has been satisfied by then |
| TlbSafety.MergedOk | lib/sbi/sbi_tlb.c:317-339 | the entry left by coalescing in the running system owes each of its waiters, old and new, a flush that covers what it asked for |
| TlbSafety.OwnFlushStep | lib/sbi/sbi_tlb.c:363-366 | a hart that targets itself flushes on the spot and waits for nobody |
| TlbSafety.RequestServed | lib/sbi/sbi_tlb.c:341-410 | when a remote fence call returns, every target has, since the request was posted to it, flushed for something that covers the whole request, even if it was absorbed or upgraded |
| TlbQueue.RequestCoalesces | lib/sbi/sbi_tlb.c:341-372 | in every run: a request is coalesced with the first queued entry that it can be coalesced with, so that the queue does not grow, and without one goes on to be appended |
| TlbQueue.RequestAppends | lib/sbi/sbi_tlb.c:372-390 | in every run: it is appended at the end, unless the queue holds 8 entries, and then the caller handles entries of its own |
| TlbQueue.IdleActs | lib/sbi/sbi_tlb.c:402-410 | in every run an idle hart may ask for any acceptable flush at any harts, and takes a pending IPI |
| TlbQueue.HelpsTwice | lib/sbi/sbi_tlb.c:231-246 | in every run: each time it does so, and each time it waits for a sync, it handles two entries, unless it finds its queue empty before |
| TlbUnserved.ServedExactly | lib/sbi/sbi_tlb.c:274-410 | a coalescable request may be issued, among callers that are careful otherwise, with every call that returns served in every run, exactly when it is plain after the upgrade: its loop visits all its pages, it does not wrap and is not the (0, 0) form |
| TlbUnserved.Unserved | lib/sbi/sbi_tlb.c:274-410 | for any two requests of which one absorbs the other without covering it, a run in which a call returns unserved |
| TlbUnserved.WholeFlushUnserved | lib/sbi/sbi_tlb.c:274-339 | for example, a request of the (0, 0) form is absorbed by a request for one page and returns with one page flushed |
| TlbProgress.NoLostEvent | lib/sbi/sbi_ipi.c:53-73 | in every reachable state a hart with a non-empty queue is draining it, has an IPI it will take, or has a sender about to raise one |
| TlbProgress.StepWork | lib/sbi/sbi_tlb.c:214-391 | without new requests every step reduces the outstanding work, except turns of the waiting loops, which leave it the same |
| TlbProgress.NoDeadlock | lib/sbi/sbi_tlb.c:258-272 | unless all harts are at rest, some hart, running alone, reduces the outstanding work within three steps |
| TlbProgress.BoundedWork | lib/sbi/sbi_tlb.c:214-391 | in a stretch of a run without new requests, the useful steps are bounded by the outstanding work at its beginning |
| TicketLock.PackParts | lib/sbi/riscv_locks.c:22-72 | in the packed word, the AMOADD of 1 << 16 draws the next ticket modulo 2^16 without touching the owner, and the shifted comparison of trylock tests owner = next |
| TicketLock.FirstComeFirstServed | lib/sbi/riscv_locks.c:22-77 | in every run of at most 2^16 harts the word is the pair of unbounded counters modulo 2^16, harts enter in the order of their tickets, and at most one is inside |
| TicketLock.TrylockExact | lib/sbi/riscv_locks.c:22-46 | the load finds the lock free exactly when nobody holds or awaits it; success is an acquisition with nobody in line |
| TicketLock.FirstInLineEnters | lib/sbi/riscv_locks.c:48-77 | when the lock is free and somebody waits, the first in line enters by its own next steps |
| TicketProgress.HistoriesAreRuns | lib/sbi/riscv_locks.c:22-77 | the tickets taken, the entries and the releases that these results speak of are those that the actions and states of the run show |
| TicketProgress.DrawWaits | lib/sbi/riscv_locks.c:48-60 | who draws a ticket gets in line behind all others |
| TicketProgress.AnybodyMayAsk | lib/sbi/riscv_locks.c:22-60 | a hart outside may ask in either way, and trylock goes on after a failed SC |
| TicketProgress.HeadCanMove | lib/sbi/riscv_locks.c:48-77 | the first in line, or the holder, always has a step |
| TicketProgress.WaiterServed | lib/sbi/riscv_locks.c:48-77 | in every run: whoever has ticket number k has had the lock and given it back when the heads of the line have made five steps for each ticket up to it, whatever the others do |
| TicketProgress.TrylockDecides | lib/sbi/riscv_locks.c:22-46 | in every run: trylock gives up exactly if somebody held or awaited the lock at its LR; otherwise it gets the lock, unless its SC fails spuriously or somebody wrote the word since, and then it tries again |
| TicketLock.TooManyHarts | lib/sbi/riscv_locks.c:48-72 | for every number of harts above 2^16 there is a run that lets two of them in |
| TicketLock.SafeExactlyWhen | lib/sbi/riscv_locks.c:22-77 | the lock excludes in every run exactly when at most 2^16 harts use it |
| Coldboot.OneWinnerCoversSleepers | lib/sbi/sbi_init.c:161-227 | in every run, whatever IPIs come from elsewhere, at most one hart boots cold, and a hart asleep without an IPI has the waker still ahead of it or the lottery still to be drawn |
| Coldboot.SweepSignals | lib/sbi/sbi_init.c:203-227 | in every run: while the winner wakes the others nobody marks or unmarks itself, and it sends an IPI to exactly the harts that are marked |
| Coldboot.StepLowers | lib/sbi/sbi_init.c:161-227 | every step but a turn of the waiting loop, a test that fails or a return from WFI before coldboot_done is set, uses up one of finitely many; these turns and IPIs use up none |
| Coldboot.SomebodyReady | lib/sbi/sbi_init.c:161-227 | until all harts are past the handshake, some hart has such a step before it |
| Coldboot.StuckIsDone | lib/sbi/sbi_init.c:161-227 | where no hart can take a step, all are past the handshake |
| Coldboot.UsefulBounded | lib/sbi/sbi_init.c:161-227 | the useful steps of a run are bounded, whatever IPIs are sent and pending |
| Coldboot.WaitingTurns | lib/sbi/sbi_init.c:181-187 | the turns are not: with an IPI pending before coldboot_done is set, two steps of a waiting hart lead back to the same state |
| Coldboot.EverybodyGetsThrough | lib/sbi/sbi_init.c:494-500 | with an eligible hart, every hart is past the handshake after boundedly many rounds in which each hart has its turn, whatever IPIs come from elsewhere |
| Coldboot.ColdIsEligible | lib/sbi/sbi_init.c:494-503 | in every run only a hart whose next mode is supported boots cold |
| Coldboot.OneBootsCold | lib/sbi/sbi_init.c:494-503 | after these rounds exactly one hart has booted cold, an eligible one, and all others have come through the wait |
| Hsm.OnlyEdges | lib/sbi/sbi_hsm.c:212-314 | in every step of every run a hart's state moves only along the coded edges, and only STOPPED is left by another hart's doing |
| Hsm.NobodyHangs | lib/sbi/sbi_hsm.c:96-106 | in every run the hang branches of next-jump, resume-start and resume-finish are not taken, and a halt IPI during exit changes nothing |
| Hsm.StartsMatchStops | lib/sbi/sbi_hsm.c:243-290 | in every run the starts of a STOPPED hart are its exits from STOPPED, and match its arrivals there, less the one it is still in, all counted from the run |
| Hsm.StartServed | lib/sbi/sbi_hsm.c:254-290 | in every run: a STOPPED hart that is started runs in STARTED after at most four moves of its own, whatever the others do |
| Hsm.StopServed | lib/sbi/sbi_hsm.c:212-237 | in every run: a running hart that stops is STOPPED after its next move |
| Hsm.SuspendServed | lib/sbi/sbi_hsm.c:373-435 | in every run: a hart that suspends is SUSPENDED, and runs in STARTED again after at most four moves, through the warm boot or straight back |
| Hsm.MoveEnabled | lib/sbi/sbi_hsm.c:96-106 | a hart on the way to STARTED or STOPPED always has a move |
| Hsm.RunningActs | lib/sbi/sbi_hsm.c:243-314 | a running hart may start any hart, and stop or suspend itself |
| Hsm.ExitGoes | lib/sbi/sbi_hsm.c:212-237 | an exiting hart is off, or back at the warm boot if the platform cannot switch it off |
| Hsm.WarmWakeResumes | lib/sbi/sbi_hsm.c:324-371 | a hart that wakes through the warm-boot address runs again only by sbi_hsm_hart_resume_finish |
| Hsm.ResumeRestores | lib/sbi/sbi_hsm.c:324-371 | a non-retentive suspend resumes with MIE, and SSIP and STIP of MIP, as they were, whatever happened in between |
| FdtFormat.ReadTag | lib/utils/libfdt/fdt.c:165-217 | the loop over the name and the bounds checks, in sums of 32 bits, find the tag that the bytes spell, or the same error |
| FdtFormat.TagStands | lib/utils/libfdt/fdt.c:165-217 | a tag at a multiple of 4 is read the same whatever surrounds it |
| FdtFormat.TagIsStretch | lib/utils/libfdt/fdt.c:165-217 | conversely, a tag that is read is a stretch of bytes of its own, unless it is a property whose length makes the sum wrap |
| FdtBytes.TagSpelt | lib/utils/libfdt/fdt.c:165-217 | what is accepted, from the bytes: one of the five tags in big-endian, with its name up to a NUL, or its length, name offset and value, inside the block, and the next offset rounded up to four |
| FdtBytes.TagRefused | lib/utils/libfdt/fdt.c:165-217 | what is refused, from the bytes: FDT_ERR_TRUNCATED exactly if the tag's cell is not in the block; FDT_ERR_BADSTRUCTURE exactly for an unknown tag, a name without NUL, or a property whose length is not in the block or that ends behind it |
| FdtFormat.LongNext | lib/utils/libfdt/fdt.c:190-217 | for the lengths from 2^32 - 12 on the sum wraps: the next tag is sought at most 12 bytes further on |
| FdtFormat.EndsExactly | lib/utils/libfdt/fdt.c:165-217 | the walk ends, with FDT_END or an error, exactly when none of its calls meets a property of the length 2^32 - 12 |
| FdtFormat.LongNeverEnds | lib/utils/libfdt/fdt.c:190-217 | a walk that meets such a property stays there, so that no number of calls brings it to FDT_END |
| FdtFormat.LongBlock | lib/utils/libfdt/fdt.c:190-217 | such a block, of eight bytes |
| FdtFormat.FindString | lib/utils/libfdt/fdt.c:311-321 | the first place where the name stands with its NUL, also as the tail of a longer name; none exactly when it stands nowhere |
| FdtBytes.StringSpelt | lib/utils/libfdt/fdt_ro.c:34-98 | a string is read up to the first NUL, and refused exactly if there is none |
| FdtFormat.WalkAll | lib/utils/libfdt/fdt.c:165-217 | a block of tags ended by FDT_END is walked to its end, every tag once |
| FdtFormat.CallsAreWalk | lib/utils/libfdt/fdt.c:165-217 | however many calls it takes: a walk that ends is the walk over tags that are stretches of bytes, exactly when no property length wraps |
| FdtFormat.CallsGiveChunks | lib/utils/libfdt/fdt.c:165-217 | a walk that ends has met no wrapped length exactly when the block is a list of tags, each a stretch of its own, ended by FDT_END |
| FdtFormat.WalkGivesChunks | lib/utils/libfdt/fdt.c:165-217 | the tags of such a walk, one behind the other, and FDT_END behind them |
| FdtFormat.ReadBlob | lib/utils/libfdt/fdt_ro.c:34-98 | reading tag by tag, with names resolved, gives the events of the blob |
| FdtWriter.Writer.Begin | lib/utils/libfdt/fdt_sw.c:219-234 | refused exactly when the buffer is too small or already finished; otherwise the block means one event more |
| FdtWriter.Writer.EndNode | lib/utils/libfdt/fdt_sw.c:236-248 | the same for the end of a node |
| FdtWriter.Writer.Property | lib/utils/libfdt/fdt_sw.c:293-335 | the same for a property, whether its name is new, shared or undeduplicated; when there is no room, structure and strings are as before; only a name that the whole blob could not hold is stored outside |
| FdtWriter.Writer.AddString | lib/utils/libfdt/fdt_sw.c:250-265 | the name comes in front of the strings, or is refused for want of room; it is stored outside the buffer exactly when it would not fit into the buffer beside the strings alone |
| FdtWriter.RoomExact | lib/utils/libfdt/fdt_sw.c:256-262 | the 32-bit test passes exactly when there is room or the subtraction wraps, and then the store stays in the free gap exactly when strings and name together fit into the blob |
| FdtWriter.StrayName | lib/utils/libfdt/fdt_sw.c:256-262 | for example, with a blob of 64 bytes, 40 of them taken, a name of 100 characters passes the test and goes in front of the buffer |
| FdtWriter.Writer.FindAddString | lib/utils/libfdt/fdt_sw.c:276-291 | the name is found or put in front of the strings, and the negative offset returned resolves to it |
| FdtWriter.FrontStringKeeps | lib/utils/libfdt/fdt_sw.c:250-265 | strings added in front leave the names of all earlier tags as they were |
| FdtWriter.Writer.FixNames | lib/utils/libfdt/fdt_sw.c:362-376 | the fix-up loop adds the size of the strings to every name offset and touches nothing else |
| FdtWriter.FixedDecodes | lib/utils/libfdt/fdt_sw.c:362-376 | after it the names resolve, from the front, to what they resolved to before |
| FdtWriter.Writer.Complete | lib/utils/libfdt/fdt_sw.c:337-384 | round trip: walking the finished blob, names resolved, gives exactly the accepted calls in order; failure is exactly lack of room and changes nothing |
| FdtTree.FlattenUnique | lib/utils/libfdt/fdt.c:243-309 | two trees with the same events are the same tree |
| FdtTree.FlattenPut | lib/utils/libfdt/fdt_rw.c:202-394 | an edit at a node changes the node's own events and no others |
| FdtEdit.TagAt | lib/utils/libfdt/fdt.c:165-217 | at the offset of a tag the walk gives that tag and the offset of the next |
| FdtEdit.SplicedBlock | lib/utils/libfdt/fdt_rw.c:83-95 | other tags in place of some: the rest of the block is read as before |
| FdtEdit.GetProperty | lib/utils/libfdt/fdt_ro.c:394-422 | the search ends at the first property of that name, FDT_NOP tags skipped, before any other tag |
| FdtEdit.NextNode | lib/utils/libfdt/fdt.c:243-281 | the next node or the end of the current one, so that searches go on from there with the same result |
| FdtEdit.SubnodeOffset | lib/utils/libfdt/fdt_ro.c:225-242 | the first child at depth 1 that answers to the name, with or without its unit address |
| FdtEdit.NodeEnd | lib/utils/libfdt/fdt_wip.c:73-81 | the offset behind the node's FDT_END_NODE |
| FdtEdit.Blob.Splice | lib/utils/libfdt/fdt_rw.c:54-95 | bytes are exchanged in place, with everything behind them and the strings moved; refused exactly when there is no room |
| FdtEdit.Blob.SetProp | lib/utils/libfdt/fdt_rw.c:276-289 | tags and strings after setting a property; on failure both are as before, the name added for it included |
| FdtEdit.Blob.DelProp | lib/utils/libfdt/fdt_rw.c:318-331 | the property's tag is gone, the others stand |
| FdtEdit.Blob.AddSubnode | lib/utils/libfdt/fdt_rw.c:333-375 | the new node's two tags stand behind the parent's properties |
| FdtEdit.Blob.DelNode | lib/utils/libfdt/fdt_rw.c:382-394 | the tags of the node and all below it are gone |
| FdtEdit.Blob.NopNode | lib/utils/libfdt/fdt_wip.c:83-94 | they are FDT_NOP tags of the same total size |
| FdtCommute.PropLookup | lib/utils/libfdt/fdt_ro.c:394-422 | a lookup in tags that mean a property list gives the first property of that name in the list |
| FdtCommute.SetPropTree | lib/utils/libfdt/fdt_rw.c:276-289 | tags edited by setting a property mean the tree with the property set at the node and nothing else changed |
| FdtCommute.DelPropTree | lib/utils/libfdt/fdt_rw.c:318-331 | the same for deleting: the first property of that name goes; FDT_ERR_NOTFOUND exactly when there is none |
| FdtCommute.SubnodeTree | lib/utils/libfdt/fdt_ro.c:225-242 | the child found is the first in the tree that answers to the name, and only then |
| FdtNames.NodeNameEqExactly | lib/utils/libfdt/fdt_ro.c:13-31 | a node answers to a name exactly if it is called so, or if the name has no @ and the node is called so, an @ and more |
| FdtNames.FirstChildExactly | lib/utils/libfdt/fdt_ro.c:225-242 | the child found is the first whose name, or whose part in front of its first @ when the name asked for has none, is the name; none exactly if there is no such child |
| FdtNames.SubnodeByName | lib/utils/libfdt/fdt_ro.c:225-242 | the same on the tags of the blob |
| FdtCommute.AddSubnodeTree | lib/utils/libfdt/fdt_rw.c:333-375 | the same for adding: an empty first child; refused exactly when a child already answers to the name |
| FdtCommute.DelNodeTree | lib/utils/libfdt/fdt_rw.c:382-394 | deleting the node's tags, or replacing them by FDT_NOP, means the tree without the node |
| FdtCommute.DecodedBlock | lib/utils/libfdt/fdt.c:165-217 | a block that can be read is a list of tags that mean what was read |
| FdtTreeEdit.SetProperty | lib/utils/libfdt/fdt_rw.c:276-289 | on a blob holding a tree: afterwards it holds the tree with the property set at that node, which keeps its offset; refused exactly when the room is less than what the node's properties and the strings say it takes, and then the tree is unchanged |
| FdtTreeEdit.SetCosts | lib/utils/libfdt/fdt_rw.c:228-289 | whether there is room can be told from the tree: the growth of the value, or a whole property, and the name if the strings lack it |
| FdtTreeEdit.DeleteProperty | lib/utils/libfdt/fdt_rw.c:318-331 | afterwards the blob holds the tree without the first property of that name |
| FdtTreeEdit.AddNode | lib/utils/libfdt/fdt_rw.c:333-380 | afterwards the blob holds the tree with a new first child, at the offset returned, its parent where it was; refused exactly when a child answers to the name or the two tags do not fit |
| FdtTreeEdit.FindNode | lib/utils/libfdt/fdt_ro.c:225-248 | the offset returned is that of the first child answering to the name |
| FdtTreeEdit.DeleteNode | lib/utils/libfdt/fdt_rw.c:382-394 | afterwards the blob is read as the tree without the node |
| FdtTreeEdit.NopOutNode | lib/utils/libfdt/fdt_wip.c:83-94 | the blob is read as the tree that fdt_del_node leaves, while every tag outside the node keeps its offset |
| FdtTreeEdit.StaysLocated | lib/utils/libfdt/fdt_rw.c:333-375 | after an edit behind its own tag a node is where it was |
| FdtOverlay.ApplyNode | lib/utils/libfdt/fdt_overlay.c:557-602 | afterwards the base blob holds the recursive merge at the target, whose offset stays valid through all nested insertions; with the room that the overlay's nodes and properties add up to it cannot fail |
| FdtMerge.MergePropsValue | lib/utils/libfdt/fdt_overlay.c:563-580 | the overlay's properties win, the others stay |
| FdtMerge.MergeKidsSibling | lib/utils/libfdt/fdt_overlay.c:582-599 | each child of the merged node is the base's, the overlay's, or the two merged |
| FdtMerge.MergeMeaning | lib/utils/libfdt/fdt_overlay.c:557-602 | if the names fit, level by level: for every path of names and every property the overlay's value if it has one, else the base's; a node exists exactly if it did in one of them |
| FdtMerge.MisfitLoses | lib/utils/libfdt/fdt_overlay.c:587-593 | where the names do not fit, a property of the overlay is lost |
| FdtMerge.FitExactly | lib/utils/libfdt/fdt_overlay.c:557-602 | the names fit exactly when every overlay with these names, whatever its properties, is merged right; the condition is that each sibling in turn finds no child or one of exactly its name, and so on in the child merged into |
| FdtMerge.OmittedAddressLosesNode | lib/utils/libfdt/fdt_overlay.c:587-593 | for example, merging "a" goes into "a@1" |
| FdtPhandle.MaxIsMax | lib/utils/libfdt/fdt_ro.c:114-140 | no node has a larger phandle |
| FdtPhandle.MaxIsReached | lib/utils/libfdt/fdt_ro.c:114-140 | some node has it |
| FdtNodes.FindMaxPhandle | lib/utils/libfdt/fdt_ro.c:114-140 | the loop over the nodes of the blob finds the greatest phandle of the tree |
| FdtNodes.TagsMaxIs | lib/utils/libfdt/fdt.c:243-281 | the walk from FDT_BEGIN_NODE to FDT_BEGIN_NODE meets all nodes of the tree and no others |
| FdtPhandle.AdjustShifts | lib/utils/libfdt/fdt_overlay.c:116-177 | every node keeps its place and its phandle moves by delta, without wrapping |
| FdtExact.AdjustExactly | lib/utils/libfdt/fdt_overlay.c:116-177 | the phandles can be moved exactly if at every node the first property of either name, if there is one, has four bytes and a cell with cell + delta below 2^32 - 1 |
| FdtExact.NodeExactly | lib/utils/libfdt/fdt_overlay.c:116-168 | at one node phandle is tried before linux,phandle; a value of another length gives FDT_ERR_BADPHANDLE, a cell that is too large FDT_ERR_NOPHANDLES |
| FdtExact.AdjustFails | lib/utils/libfdt/fdt_overlay.c:156-177 | otherwise the error is that of the first node, in the order of the recursion, whose phandles cannot be moved |
| FdtInPlace.SetInPlace | lib/utils/libfdt/fdt_wip.c:13-31 | the bytes of a property change in place, its length and all offsets stay; every answer of the source, and stores outside, told from the property |
| FdtInPlace.StillLocated | lib/utils/libfdt/fdt_wip.c:13-31 | after an edit in place every node is where it was |
| FdtInPlace.AdjustNode | lib/utils/libfdt/fdt_overlay.c:156-177 | the recursion over the blob leaves the tree with its phandles moved, or gives the same error |
| FdtVisit.VisitProp | lib/utils/libfdt/fdt_ro.c:201-223 | the next property, FDT_NOP tags skipped, with its name and value |
| FdtVisit.FirstKid | lib/utils/libfdt/fdt.c:283-292 | the first child of the node in the tree |
| FdtVisit.NextKid | lib/utils/libfdt/fdt.c:294-309 | the next sibling in the tree, past all that is below the node |
| FdtPhandle.DisjointFromBase | lib/utils/libfdt/fdt_overlay.c:193-199 | with delta the base's maximum and overlay phandles of at least 1, no relocated phandle is one of the base's |
| FdtFixups.UpdateReferences | lib/utils/libfdt/fdt_overlay.c:242-282 | one property: the loop over the listed offsets adds delta to each, and fails exactly when one lies outside the value or the fix-up is not whole cells |
| FdtFixups.AdmitsExactly | lib/utils/libfdt/fdt_wip.c:25-26 | the 32-bit test is right for all offsets but the last four, which wrap |
| FdtFixups.AddAllListed | lib/utils/libfdt/fdt_overlay.c:254-282 | each listed cell grows by delta exactly once |
| FdtFixups.AddAllElsewhere | lib/utils/libfdt/fdt_overlay.c:254-282 | bytes outside the listed cells stay |
| FdtFixups.NodeUpdated | lib/utils/libfdt/fdt_overlay.c:220-306 | the recursion over both trees adds to exactly the cells listed for each property, once for each time that they are listed |
| FdtFixups.UpdateExactly | lib/utils/libfdt/fdt_overlay.c:220-306 | it succeeds exactly when every fix-up has its node and its property, is whole cells, and lists cells that lie in the value |
| FdtExact.UpdateFails | lib/utils/libfdt/fdt_overlay.c:220-306 | otherwise the error is FDT_ERR_BADOVERLAY, unless a fix-up lists one of the last four offsets of 32 bits |
| FdtExact.RelocateExactly | lib/utils/libfdt/fdt_overlay.c:193-343 | an overlay can be relocated exactly if all its phandles can be moved, all that its fix-ups name is there, and, when delta is not 0, they name no phandle |
| FdtExact.NamesAre | lib/utils/libfdt/fdt_overlay.c:162-168 | the names are phandle, linux,phandle and __local_fixups__ |
| FdtFixups.Relocated | lib/utils/libfdt/fdt_overlay.c:193-343 | phandles, then references: every node keeps its place, every property its name and length; a phandle grows by delta once, any other value by delta at the listed cells |
| FdtFixups.PhandlesMove | lib/utils/libfdt/fdt_overlay.c:193-343 | whatever the fix-ups list, every phandle moves by delta |
| FdtFixups.ReferencesKept | lib/utils/libfdt/fdt_overlay.c:193-343 | a listed reference points, after the relocation of the overlay, at exactly the nodes it pointed at before |
| FdtFixups.UnlistedKept | lib/utils/libfdt/fdt_overlay.c:193-343 | a byte that is in no listed cell and no phandle stays |
| FdtFixups.ListedPhandleFails | lib/utils/libfdt/fdt_overlay.c:220-306 | an overlay whose fix-ups list a cell of one of its own phandles is refused, unless delta is 0 |
| FdtFixups.FixupsAsGiven | lib/utils/libfdt/fdt_overlay.c:193-343 | moving the phandles changes nothing that the fix-ups list |
| FdtFixups.FixupsUntouched | lib/utils/libfdt/fdt_overlay.c:220-306 | the fix-ups stay as they are while they are read, unless one of them stands for their own node |
| FdtLocalRefs.UpdateNodeInPlace | lib/utils/libfdt/fdt_overlay.c:220-306 | the recursion over the blob, fix-ups and tree in one buffer, does to the tree what the recursion over it does that reads each fix-up when its turn comes, or gives the same error |
| FdtLocalRefs.RelocateInPlace | lib/utils/libfdt/fdt_overlay.c:193-343 | put together, for every overlay: the blob holds the overlay relocated in this way, or the error is the same |
| FdtWithin.RelocateApart | lib/utils/libfdt/fdt_overlay.c:193-343 | when no fix-up stands for the node of the fix-ups, that is the relocation of the tree by fix-ups that stay as they are given |
| FdtApply.ReferencesArrive | lib/utils/libfdt/fdt_overlay.c:830-882 | after the relocation and the merge, a listed reference points at exactly those nodes below the target at which it pointed in the overlay and whose phandle the merge carries over, and at no node that the base had |
| FdtApply.MergedPhandle | lib/utils/libfdt/fdt_overlay.c:557-602 | the phandle of a merged node is the overlay's if that is in a property called phandle or the base has none there, else the base's |
| FdtApply.ApplyFragment | lib/utils/libfdt/fdt_overlay.c:830-882 | the greatest phandle, the relocation and the merge on two blobs: the base holds the merge of the relocated fragment, or the error is that of the relocation and the base is as it was |
| Blocks.Log2Roundup | lib/sbi/sbi_math.c:12-23 | the least exponent whose power reaches x, capped at 64 |
| Domain.MemregionInit | lib/sbi/sbi_domain.c:75-102 | an aligned power-of-two block around the range, of the least order, unless the least block ends at the top of the address space, where the whole space is taken |
| Domain.RangeTest | lib/sbi/sbi_domain.c:86-91 | the wrap-around test of the loop holds exactly when the block holds the range and does not end at the top |
| Domain.CheckAddr | lib/sbi/sbi_domain.c:104-141 | the loop decides by the first matching region |
| Domain.SortedDecides | lib/sbi/sbi_domain.c:104-141 | on a sorted list without equal blocks, that is the decision of the smallest visible region around the address |
| Domain.DecisionUnique | lib/sbi/sbi_domain.c:104-141 | there is one such decision |
| Domain.ConflictMeans | lib/sbi/sbi_domain.c:156-182 | as coded, two valid regions conflict exactly when they have equal base and flags and are not both the whole space: nesting is no conflict |
| DomainSort.Sort | lib/sbi/sbi_domain.c:251-274 | the exchange sort in place |
| DomainSort.SortSorts | lib/sbi/sbi_domain.c:251-274 | its result is a permutation in the order of (order, base) |
| DomainSort.ConflictMissed | lib/sbi/sbi_domain.c:257-265 | for example, a swap keeps the loop from comparing a conflicting pair |
| DomainConflict.SortedExact | lib/sbi/sbi_domain.c:257-265 | on a sorted list a conflict is met exactly when there is one |
| DomainConflict.PeacefulSorts | lib/sbi/sbi_domain.c:251-274 | a list without conflicts is sorted, whatever its order |
| DomainConflict.NeighboursFound | lib/sbi/sbi_domain.c:257-265 | a conflict between neighbours in the order is met, whatever the order of the list |
| DomainConflict.DescendingExact | lib/sbi/sbi_domain.c:257-265 | on a descending list no other conflict is met |
| DomainConflict.RefusedInEveryOrder | lib/sbi/sbi_domain.c:251-274 | distinct regions are refused in every order of the list exactly when two neighbours in the sorted order conflict |
| DomainConflict.RefusedInSomeOrder | lib/sbi/sbi_domain.c:251-274 | they are refused in some order exactly when two of them conflict |
| DomainMerge.MergedIsUnion | lib/sbi/sbi_domain.c:502-506 | a merged region holds exactly the addresses of its two halves |
| DomainMerge.MergeDecides | lib/sbi/sbi_domain.c:502-514 | a merge changes no decision when the merged block was not listed before |
| DomainMerge.OneMerge | lib/sbi/sbi_domain.c:502-514 | on an unambiguous list one merge changes no decision, and the list stays unambiguous |
| DomainMerge.MergePass | lib/sbi/sbi_domain.c:495-515 | one pass in place, on any list, leaves what the scan of the sequence leaves |
| DomainMerge.ScanGood | lib/sbi/sbi_domain.c:495-515 | on an unambiguous list the scan changes no decision and brings no conflict, and without a merge no neighbours can be merged |
| DomainMerge.Optimize | lib/sbi/sbi_domain.c:484-516 | sorting and merging in place, on any list, end as the recursion on sequences does, and fail on the same list |
| DomainMerge.OptimizedGood | lib/sbi/sbi_domain.c:484-516 | on a list in which no listed region is put together from smaller ones: it succeeds if no two regions conflict; then sbi_domain_check_addr answers, for every address, mode and access, what the original regions decide, and no neighbours can be merged; on failure the regions left still decide the same |
| DomainExact.OptimizedExactly | lib/sbi/sbi_domain.c:484-516 | that condition is exact: of valid, distinct regions without conflicts, every part is optimized into a list without equal blocks that decides the same, exactly when no region is put together from smaller ones |
| DomainMerge.ListedBlockChanges | lib/sbi/sbi_domain.c:484-516 | a list of four regions, accepted, whose optimization takes away the right to read a byte |
| DomainMerge.TiledOnce | lib/sbi/sbi_domain.c:502-506 | on such a list a block is put together in one way at most |
| Pmp.Ctz | lib/sbi/riscv_asm.c:230-243 | the number of zeros at the end, 64 for zero |
| Pmp.Registers.Set | lib/sbi/riscv_asm.c:245-296 | the entry holds the flags, mode and address code; every other packed entry is as before; refused exactly for bad numbers or sizes |
| Pmp.Registers.Get | lib/sbi/riscv_asm.c:298-352 | the entry as decoded |
| Pmp.GetInvertsSet | lib/sbi/riscv_asm.c:245-352 | decoding inverts encoding up to the alignment of the address, for all sizes from 2^2 to 2^64 |
| Pmp.WithByteIs | lib/sbi/riscv_asm.c:274-276 | writing one byte of a configuration register leaves the other seven |
| Pmp.EntryIsRegion | lib/sbi/sbi_hart.c:210-232 | a programmed entry matches exactly the addresses of its region |
| Pmp.HardwareRefinesCheck | lib/sbi/sbi_hart.c:195-235 | for every address and S- or U-mode access, the first-match hardware decision equals the software check without its MMIO test |
| Pmp.PlainIsCheck | lib/sbi/sbi_domain.c:104-141 | the software checks with and without that test differ by the MMIO attribute of the deciding region alone |
| Pmp.MachineModeExact | lib/sbi/sbi_hart.c:195-235 | for machine mode the two agree, for all addresses and accesses, exactly when no region without the M-mode flag stands first at an address whose first M-mode region denies some access |
| Pmp.MachineModeDiffers | lib/sbi/sbi_hart.c:195-235 | a table for which they do not |
| Pmp.Configure | lib/sbi/sbi_hart.c:195-235 | the regions that pass the granularity and range tests go in order into the first entries; all other entries stay |
| Pmp.ProgrammedExactly | lib/sbi/sbi_hart.c:205-232 | a region is programmed exactly if it is in range and fewer regions in range than there are entries stand before it, into the entry with that number; one that is out of range is passed over |
| Pmp.InRangeMeans | lib/sbi/sbi_hart.c:225-226 | in range are regions no smaller than the granularity whose address in the register is below the greatest that it can hold |
| Pmp.ConfiguredDecides | lib/sbi/sbi_hart.c:195-235 | from entries that are off, the hardware afterwards decides as the software check does on the regions that were programmed |
| Pmp.ConfiguredAgrees | lib/sbi/sbi_hart.c:195-235 | put together: when all regions fit, configuring makes hardware and software agree |
| HartMask.AssignedMask | lib/sbi/sbi_domain.c:47-65 | bit k of the word is hart hbase + k of the mask, also where the 64 harts lie in two words |
| HartMask.InterruptibleMask | lib/sbi/sbi_hsm.c:69-94 | exactly the assigned harts that are started or suspended; an error exactly past the last hart |
| HartMask.SendMany | lib/sbi/sbi_ipi.c:83-114 | exactly the harts asked for that are targets are signalled, each once and in increasing order, across words and for a broadcast |
| HartMask.Registry.Register | lib/sbi/sbi_domain.c:387-457 | table and masks agree afterwards, within the possible harts; exactly the requested possible harts move to the domain; every error leaves table and masks alone |
| HartMask.Registry.OneDomain | lib/sbi/sbi_domain.c:430-454 | a hart of the table is in exactly one registered domain's mask, any other hart in none |
| HartMask.Registry.SendFrom | lib/sbi/sbi_ipi.c:83-114 | a call on behalf of a hart signals exactly the requested, interruptible harts of its own domain |
| HartMask.Init | lib/sbi/sbi_domain.c:610-617 | after the root domain is registered every valid hart is in its mask and no invalid one is |
| Words.Ffs | include/sbi/sbi_bitops.h:80-109 | the first set bit of a word |
| Words.Fls | include/sbi/sbi_bitops.h:160-189 | the last set bit of a word |
| Bitmap.FindFirstBit | lib/sbi/sbi_bitops.c:22-43 | the first set bit below size, or size |
| Bitmap.FindFirstZeroBit | lib/sbi/sbi_bitops.c:52-73 | the first clear bit below size, or size |
| Bitmap.FindNextBit | lib/sbi/sbi_bitops.c:117-154 | the first set bit from offset on, with partial first and last words, or size |
| Bitmap.FindNextZeroBit | lib/sbi/sbi_bitops.c:162-200 | the first clear bit from offset on, or size |
| Bitmap.FindLastBit | lib/sbi/sbi_bitops.c:82-109 | the last set bit below size, or size |
| Bitmap.NextUnique | lib/sbi/sbi_bitops.c:117-154 | a search has one right answer |
| Bitmap.ForEachSetBit | include/sbi/sbi_bitops.h:191-194 | the body runs on exactly the set bits, each once, in increasing order |
| Wide.JamJam | include/sbi_utils/softfloat/primitives.h:81-99 | jamming shifts compose: by c and then by d is by c + d |
| Wide.ShiftRightJam64 | include/sbi_utils/softfloat/primitives.h:92-96 | the general 64-bit shift, for every distance, is the exact shift with a sticky bit |
| Wide.ShortShiftRightJam64 | include/sbi_utils/softfloat/primitives.h:53-54 | the short shift, which masks what falls off, is the same for the distances 1 to 63 |
| Wide.ShortAgrees | include/sbi_utils/softfloat/primitives.h:53-96 | so the two functions agree on these distances |
| Wide.ShiftRightJam32 | include/sbi_utils/softfloat/primitives.h:71-75 | the same for 32 bits |
| Wide.ShortShiftRightJam128 | include/sbi_utils/softfloat/primitives.h:336-349 | the 128-bit shift over two words is the exact shift of the whole number with a sticky bit |
| Wide.Add128 | include/sbi_utils/softfloat/primitives.h:486-493 | the sum modulo 2^128 through the carry comparison |
| Wide.Sub128 | include/sbi_utils/softfloat/primitives.h:521-529 | the difference modulo 2^128 through the borrow comparison |
| Wide.AddSub | include/sbi_utils/softfloat/primitives.h:486-529 | they undo each other, also where both wrap |
| Wide.Mul64ByShifted32To128 | include/sbi_utils/softfloat/primitives.h:555-563 | the exact product a · b · 2^32 |
| Wide.CarryRecovered | include/sbi_utils/softfloat/primitives.h:584-593 | the carry out of the low product is recovered from 32 of its bits |
| Wide.Mul128By32 | include/sbi_utils/softfloat/primitives.h:583-593 | the product modulo 2^128 |
| Wide.Mul128To256M | include/sbi_utils/softfloat/opts-GCC.h:88-106 | the whole 256-bit product, with the carries of the middle and low sums; nothing is lost above |

## Left out

- Qdivrem.QDivRem: digits are naturals below 2^h and longs are naturals that wrap modulo 2^(2h); division by zero, which the source provokes, is a value of its own.
- Fences and the weak memory model: each atomic or locked section is one step of a sequentially consistent system.
- TlbSafety.RequestServed: assumes that callers pass, where coalescing applies, ranges that are plain once upgraded; `TlbUnserved.ServedExactly` shows that this is exactly what is needed when the limit is a page or more.
- TlbProgress.NoDeadlock: a flush is one step, so its loop is taken to end; `TlbInfo.UpgradedEnds` says for which limits it does.
- Harts that stop in the middle of a remote fence; the set of running harts is fixed.
- The HFENCE.VVMA forms act on the VMID in hgatp; saving and restoring that register is not modelled.
- Fifo.Ring.Enqueue: the 16-bit widths of `avail` and `tail` are not modelled; the queues of the firmware have 8 entries.
- IPI events other than the TLB event, the PMU counters and the platform's IPI devices.
- Coldboot.EverybodyGetsThrough: a boot that fails and hangs in `init_coldboot`, and the platform's own hang at start, are not modelled; a return from WFI without an IPI pending goes back to WFI and is no step.
- Hsm.OnlyEdges: the start parameters next_addr, next_arg1 and next_mode, and errors of the platform's start and suspend calls, are not modelled.
- The memory reservation block, `fdt_resize`, `fdt_open_into`, `fdt_pack`, versions before 17 and blobs whose blocks are out of order.
- FdtFormat.ReadTag: header fields are fields of a class, not bytes. `FdtFormat.Walk` and `FdtFormat.Decode` accept no block with a property of 2^32 - 12 bytes or more; what the source does with one is said by `FdtFormat.Calls`.
- FdtWriter.Writer.Property: names are shorter than 2^32 - 1 bytes, buffers and values below 2^31 bytes. Nothing is said of the blob after a store outside the buffer (status Outside), nor of the store itself.
- FdtInPlace.SetInPlace: nothing is said after a store outside the property (Astray; Wild in `FdtPhandle.Outcome`), which takes an offset of 2^32 - 4 or more.
- `fdt_set_name`, `fdt_appendprop`, `fdt_nop_property`, paths, aliases, string lists and the other lookups of `fdt_ro.c`: they would add only easy members.
- FdtApply.ApplyFragment: base and overlay are different buffers, both holding trees, and the target is given. Finding the target of a fragment, `__fixups__` and `__symbols__`, and references from one fragment into another, are not modelled.
- FdtWithin.RelocateApart: its condition is sufficient. For an overlay in which a fix-up stands for the node `__local_fixups__` itself, the theorems of `FdtFixups` and `FdtApply` about `Relocate` say nothing of the code; what it does then is `FdtWithin.RelocateWithin`.
- FdtLocalRefs.RelocateInPlace: the overlay has one root.
- FdtFixups.ReferencesKept: the cells listed for one property do not overlap; a cell listed twice is moved twice, as `FdtFixups.NodeUpdated` says.
- DomainMerge.OptimizedGood: needs lists in which no listed region is put together from smaller ones, and no two equal blocks; `DomainExact.OptimizedExactly` says why. The firmware-region and next-address tests of `sanitize_domain` are not modelled.
- Pmp.HardwareRefinesCheck: top-of-range entries, which the firmware never programs, match nothing; an access is one byte; registers are 64 bits wide without read-only bits. W without R, which section 3.7.1 reserves, is taken as writing without reading.
- HartMask.Registry.Register: whether `sanitize_domain` accepts the domain is a parameter.
- HartMask.SendMany: the states of the harts do not change during the call, and what a signal does to its target is the subject of `TlbProtocol`.
- Wide.Mul128To256M: the little-endian word order of RISC-V.
- Floating-point emulation, traps, CSR probing, console, timer, PMU, UART, GPIO, I2C, PLIC, ACLINT, reset and platform code.
