# Mushix, modelled and verified in Dafny

Mushix is a small x86_64 UEFI kernel. This project models the six parts of it that carry hard
correctness properties, and proves those properties. Each part has the same shape: an imperative
model in the form of the source (classes, arrays, loops, fields updated in place), a specification
on values that the methods are proved against, and theorems about the specification.

| part | modules | what is proved |
|---|---|---|
| page-table mapper | `PageTable`, `Mapper`, `InitPaging` | `create_mapping` is the update of a partial map from pages to frames; the tables stay a tree |
| heap allocator | `Rounding`, `Blocks`, `Heap`, `HeapRuns`, `Allocator` | first fit over headers in raw memory; payloads, headers and padding never overlap in any run |
| xHCI rings | `Trbs`, `RingProtocol`, `RingStores`, `RingMemory`, `CommandRings`, `EventProtocol`, `RingStates` | both kinds of ring are FIFO queues under their exact flow-control conditions, a transfer ring down to its single stores on every other lap; the corner cases are reached |
| completion delivery | `Waiters`, `Mailboxes`, `EventRings`, `Requests`, `Delivery`, `DeliveryRuns`, `DeliveryProgress`, `Drivers` | no completion is lost, doubled or misdelivered in any run; the controller's lag is bounded; every run that gives enough turns answers the request; the objects refine the protocol |
| executor | `Schedules`, `Executors` | conservation, fairness and exact draining time of the round-robin queue |
| drawing, descriptors, bit fields | `Lines`, `Pixels`, `Graphics`, `Descriptors`, `BitFields`, `VolatileWord` | rounding bounds and exact framing, a parser round trip, lens laws |

`Bits` holds machine words and bit operations; `Results` and `Sequences` hold small shared notions.
`dafny verify dfyconfig.toml` checks everything.

## How the model is set up

**Numbers.** What a method promises is said twice: through the specification function its proofs use,
and, where a caller would ask, in plain numbers and bits that name no function of the model (alignment
and room in bytes, flag bits of a page, ring addresses, event types, pixel ranges, byte places).

**Words.** Machine words are numbers with their range as a subset type. Masks, shifts, `|` and `!`
are defined bit by bit in `Bits`, and what they do to a number is proved, not assumed: so the
page-table entry is a frame address and flags (`EntryIsWord`, `EntryMasks`, `EntryOr` show that this
is the 64-bit word and its masks), and alignment by `& !(align - 1)` is rounding down.

**Mapper.** Table frames are a memory of 512-entry tables by physical address. `Box::new` for a new
table takes the next frame of a supply; when the supply is empty the outcome is `Abort`, which stands
for the allocation-error handler that stops the kernel. The four nested loops share one address and
differ only in their level, so they are one method, `MapTable`: a loop with the source's exit test,
whose body (`MapEntry`) goes one table down into the loop of the next level, or at level 1 writes one
entry (`MapOne`).
`PML4.CreateMapping` needs only that `phys + addr` never leaves the 64-bit word, the overflow the
source would stop at. `PageCount` states what the loops map for every pair of addresses, including
empty, unaligned and over-long ranges: at least one page, none past the last entry of the table.

**Allocator.** `FirstFitAllocator` keeps its headers in a memory of 8-byte words, inside the memory
it hands out, and walks the list through that memory. Clients write into the payloads they hold.
The order of the four header fields, which Rust leaves open, is chosen by the model. Clients are
expected to be legal: regions given once, layouts that are valid, only live pointers freed, stores
only into held memory.

**Rings.** In `RingProtocol` a push is one step with respect to the controller; `RingStores` takes it
apart into its stores (clear, entry, cycle bit, link) with looks of the controller between them, on
the laps where our slots carry the cycle bit 0. `Consumer` and `Producer` are the controller's sides,
after sections 4.9.2 to 4.9.4 and 6.4.4.1 of the xHCI specification; the controller's test for a full
event ring compares its next slot with ERDP. `RingStates` gives runs that reach the corner cases.

**Delivery.** A system is any number of rings (command and transfer rings), one event ring and one
list of waiters. Between two awaits the driver is one step: push, doorbell, register. The controller
takes entries when it likes, posts a report for each entry that asks for one, and may post unrelated
events. A ring carries one request at a time: a transfer ring is borrowed `&mut` until its request's
await returns, and all commands of a controller come from the one task that serves its ports in turn
(src/xhci.rs:106-160). Every awaited request is reported as complete. `DeliveryProgress` bounds the
turns any run needs to give before a request is answered. `Drivers.Machine` is the objects: the ring
objects, the event ring with its list of waiters, the future of each open request, and the
controller's places in the rings. Its methods take a state of the protocol as a ghost and leave the
objects in the next one; a future that is ready is dropped, which takes the last owning reference
from its waiter.

**Executor.** A task is given by what its polls turn out to do in the run at hand: what each spawns,
and which one is ready. `Run(n)` is the first n rounds of the endless loop.

## What the proofs found

- **A fifteenth pending entry can stall a transfer ring.** "Ring full" never fires. A push is safe
  exactly when fewer than 15 entries wait, and fewer than 14 if the controller stands before the link
  (`CanPushByLag`, `PushEnqueuesExactlyWhenSafe`, `FifteenthPushCanStall`); a run of safe pushes leads to
  that state (`StallIsReached`). The driver stays at 4 (`EveryRunDelivers`), so it never gets there.
- **The clearing store before a push is visible on every second lap.** A controller waiting at that
  slot would take a zeroed entry if and only if `cycle_state_ours` is true (`ZeroedSlotSeen`), and a run
  leads to that state (`ZeroedSlotIsReached`). On the laps where it is false no store before that of the
  cycle bit changes what the controller can take (`EveryStoreKeepsFifo`, `SetCycleEnqueues`).
- **ERDP names the last event popped, not the next one.** After the first pop the controller is held
  back at 14 waiting events (`HeldBackAtFourteen`); a run gets there (`HoldIsReached`).
- **The transfer type of a setup stage is taken from the request number, not from the request type.**
  It is right exactly when their top bits agree (`TransferTypeIsRight`); every request for a
  descriptor, an IN transfer, is marked OUT (`DescriptorRequestMarkedOut`).
- **`extract_bits` loses the top bit at widths of 64 or more**; it returns the shifted word exactly when
  that is below 2^63 (`ExtractOfWholeWord`). Its unit tests use only values below that bound.

## Model

| member | source | states |
|---|---|---|
| PageTable.EntryIsWord | src/x86.rs:78-82 | entries (frame, flags) and 64-bit words determine each other |
| PageTable.EntryMasks | src/x86.rs:87-122 | frame, flags and the present bit are what the masks `!ATTR_MASK`, `ATTR_MASK` and `1 << 0` leave of the word |
| PageTable.EntryOr | src/x86.rs:127-136 | building an entry is `phys OR attr` |
| PageTable.IndexBits | src/x86.rs:178-183 | `calc_index` is the shift and mask of the source, and the digit of the page number at that level |
| PageTable.IndexPlaces | src/x86.rs:178-183 | the shifts are 39, 30, 21 and 12, from the root down |
| PageTable.WalkByBits | src/x86.rs:116-122 | the processor's walk from the root is by bits 39 to 47, 30 to 38, 21 to 29 and 12 to 20 of the address |
| PageTable.FlagBits | src/x86.rs:57-69 | present and writable are set unless the attribute is NotPresent, write-through and cache disable exactly for ReadWriteIo, and no other bit |
| PageTable.IndicesSpellPage | src/x86.rs:178-183 | the four indices of an address are its page number in base 512 |
| PageTable.LeafPathInjective | src/x86.rs:178-183 | different pages use different leaves |
| PageTable.NodeHasPlace | src/x86.rs:116-122 | a walk from the root only meets tables of the tree, each at its own place |
| PageTable.ReachedFromOneEntry | src/x86.rs:131-146 | a reachable table is pointed to by exactly one present entry of the tables above it |
| PageTable.PopulatedWellFormed | src/x86.rs:131-139 | linking a fresh table keeps the tree shape |
| PageTable.PopulatedLeaf | src/x86.rs:131-139 | linking a fresh table changes no leaf, so no translation |
| PageTable.LeafWrittenWellFormed | src/x86.rs:123-130 | writing a leaf entry keeps the tree shape |
| PageTable.LeafWrittenLeaf | src/x86.rs:123-130 | one leaf write changes exactly one leaf: no two paths alias |
| Mapper.PML4.constructor | src/x86.rs:196-204 | a new table maps no page |
| Mapper.PML4.Populate | src/x86.rs:131-139 | fails exactly on a present entry; otherwise links a zeroed table and keeps every translation |
| Mapper.PML4.EnsurePopulated | src/x86.rs:140-146 | after it the entry is present; it never fails, and changes nothing if the entry was present |
| Mapper.PML4.TableMut | src/x86.rs:116-122 | the table an entry points to, or an error when it is not present |
| Mapper.PML4.SetPage | src/x86.rs:123-130 | fails exactly on an unaligned address, changing nothing; otherwise exactly one page of the view changes |
| Mapper.PopulateKeeps | src/x86.rs:131-146 | the whole invariant (tree, reachability, words, view) survives a new table |
| Mapper.SetPageKeeps | src/x86.rs:123-130 | the whole invariant survives a leaf write, and the view is updated at one page |
| Mapper.MapRangeAt | src/x86.rs:214-245 | the update of a range sends page `first + k` to `phys + 4096 * k` with the attribute, and leaves every other page as it was |
| Mapper.ExitTest | src/x86.rs:228-231 | the test `index + 1 >= 512 or addr >= virt_end` leaves a loop exactly when the next page is not in this table or there is none |
| Mapper.BoundariesCrossed | src/x86.rs:214-245 | entering a table costs a frame only when a 2 MiB, 1 GiB or 512 GiB boundary was crossed |
| Mapper.PML4.MapOne | src/x86.rs:223-231 | the body of the innermost loop maps the next page of the range |
| Mapper.PML4.MapEntry | src/x86.rs:215-227 | the body of a loop at any level maps the pages below one entry that are in the range, or stops where the source's `?` does |
| Mapper.PML4.MapTable | src/x86.rs:214-244 | a loop at any level maps the pages of its table that are in the range, in order, and terminates |
| Mapper.PML4.CreateMapping | src/x86.rs:205-246 | on success the processor reads `phys + 4096 * k` for page k of the range, with bits 0 and 1 set and bits 3 and 4 exactly for a device (or nothing, for NotPresent), and every other page as before, with one leaf write per page; it fails only for an unaligned `phys`, and then no translation changes; a bound on the frames it needs |
| Mapper.MapRangeIsRead | src/x86.rs:205-246 | the update of the view, as the processor's walk reads it, flag bit by flag bit |
| Mapper.AddressIsMapped | src/x86.rs:205-246 | a mapped virtual address leads to the physical address as far from `phys` as it is from the start of the range |
| Mapper.FramesEnoughIs | src/x86.rs:131-146 | the bound on frames: three, and one for every 2 MiB, 1 GiB and 512 GiB boundary between the first page and the last |
| InitPaging.EndOfMemory | src/init.rs:37-48 | 4 GiB, or the highest end of any conventional, loader code or loader data memory, whatever other descriptors say |
| InitPaging.IdentityWithoutPageZero | src/init.rs:49-54 | two mapping calls composed: identity below the end, nothing at page 0 and beyond |
| InitPaging.MapAllMemory | src/init.rs:35-55 | the four-level walk through the tables built at boot translates every page but page 0 that starts below the end of memory to itself, present, writable and cached, and no other page |
| Rounding.RoundUpIsLeast | src/allocator.rs:17-21 | defined exactly for 1 <= v <= 2^63, and then the least power of two that is not below v |
| Rounding.RoundDownIsMask | src/allocator.rs:91 | `x & !(align - 1)` is rounding down to a multiple of a power of two |
| Blocks.NeedsAreAligned | src/allocator.rs:58-60 | for every valid layout the sizes compared are multiples of 32 and their sum stays below 2^64: no decision on a wrapped value |
| Blocks.RoomForHeaders | src/allocator.rs:91-111 | the block handed out fits with its own header and the old one: the assertion in `provide` cannot fail |
| Blocks.SplitTilesBlock | src/allocator.rs:84-113 | `provide` replaces a block by two or three whole blocks laid end to end over it, a padding gap always holding a header |
| Blocks.AllocateIsFirstFit | src/allocator.rs:153-173 | null exactly when no block serves; otherwise the first that serves is split and all others stay |
| Blocks.AllocationServesRequest | src/allocator.rs:84-113 | the pointer is a multiple of the caller's alignment and its block holds at least the requested bytes |
| Blocks.NullExactlyWithoutRoom | src/allocator.rs:153-173 | null exactly when every free block has fewer bytes than the least power of two from 32 up that holds the request, plus 64, plus the larger of the alignment and 32 |
| Blocks.RoomSuffices | src/allocator.rs:153-173 | a free block of twice the size plus the alignment plus 128 bytes is always enough |
| Blocks.NothingForNoBytes | src/allocator.rs:17-21 | a request of size 0 is refused and changes nothing |
| Blocks.PlacedHighest | src/allocator.rs:91-98 | the bytes handed out are the highest aligned place in the first free block with room, in a block of exactly the rounded size and a header |
| Heap.TilesTotal | src/allocator.rs:84-113 | the sizes of the blocks add up to the regions given |
| Heap.BlocksApart | src/allocator.rs:84-113 | blocks at different places of the list are disjoint |
| Heap.AllocateTiles | src/allocator.rs:153-173 | allocation keeps every region exactly tiled |
| Heap.ReleaseTiles | src/allocator.rs:145-149 | release keeps every region exactly tiled |
| Heap.ReleaseAt | src/allocator.rs:145-149 | only the block whose bytes start at the pointer changes, and only to free |
| Heap.AddTiles | src/allocator.rs:182-202 | adding a region apart from the others keeps the tiling |
| HeapRuns.StepKeepsInv | src/allocator.rs:141-202 | every legal operation keeps the tiling, and stored words stay in live payloads |
| HeapRuns.EveryRunIsSafe | src/allocator.rs:141-202 | in every run payloads are pairwise disjoint, no header lies in a payload, and no memory is lost |
| HeapRuns.StoredValueSurvives | src/allocator.rs:141-202 | what a client stored stays until it stores there again or frees the block, whatever else happens |
| Allocator.ChainSpliced | src/allocator.rs:92-111 | cutting one block in memory replaces it in the list the headers form, and no other |
| Allocator.ChainReleased | src/allocator.rs:145-149 | clearing one flag in memory releases that block and no other |
| Allocator.ProvidedFrom | src/allocator.rs:84-113 | after the cut the headers in memory form the list of the first-fit allocation, and no live word changed |
| Allocator.FirstFitAllocator.CutAt | src/allocator.rs:90-111 | the header writes of `provide` leave exactly the headers of the pieces, and touch nothing outside the block |
| Allocator.FirstFitAllocator.Provide | src/allocator.rs:84-113 | nothing happens unless the block serves; then it is split and the aligned pointer returned |
| Allocator.FirstFitAllocator.AllocWithOptions | src/allocator.rs:153-173 | the walk through memory does what first fit does to the block list, and no live word changes; a pointer is a multiple of the caller's alignment and holds the bytes asked for; null, the block chosen and the place in it are stated in bytes |
| Allocator.FirstFitAllocator.WalkHeaders | src/allocator.rs:157-172 | the loop over the headers does the same to the memory |
| Allocator.FirstFitAllocator.Dealloc | src/allocator.rs:145-149 | the block whose header ends at the pointer becomes free, every other block stays, and no live word changes |
| Allocator.FirstFitAllocator.AddFreeFromDescriptor | src/allocator.rs:182-202 | the bytes from the start, or from 4096 if that is 0, to the end of the descriptor become one free block in front, if they are more than one page; otherwise nothing changes |
| Allocator.FirstFitAllocator.Execute | src/allocator.rs:141-202 | any sequence of legal operations on raw memory refines the run on block lists and ends safe |
| BitFields.FitsIsBound | src/volatile.rs:50-54 | the range check accepts exactly the values below 2^width |
| BitFields.BitOfField | src/volatile.rs:59-62 | bit i of a field is bit shift + i of the word, and the field has no bit from its width up |
| BitFields.BitOfWithField | src/volatile.rs:50-58 | after a write the bits of the field are those of the value, and every other bit is as before |
| BitFields.ReadAfterWrite | src/volatile.rs:50-62 | a field reads back what was written |
| BitFields.OtherFieldKept | src/volatile.rs:50-62 | a field that shares no bit keeps its value |
| BitFields.WriteWhatWasRead | src/volatile.rs:50-62 | writing back what was read changes nothing |
| BitFields.LastWriteWins | src/volatile.rs:50-62 | of two writes to a field only the second counts |
| BitFields.ExtractIsField | src/bits.rs:3-12 | for a field inside the word `extract_bits` is `read_bits` |
| BitFields.ExtractOfWholeWord | src/bits.rs:3-12 | for widths of 64 and more the result is the shifted word, the shift cast to 32 bits, if and only if that is below 2^63 |
| BitFields.ExtractBeyondWord | src/bits.rs:8-9 | shifts from 64 up leave nothing, except that they are cast to 32 bits first |
| BitFields.ExtractLosesTopBit | src/bits.rs:8 | the word 2^63 gives 0 |
| VolatileWord.Volatile.WriteBits | src/volatile.rs:50-58 | accepts exactly values below 2^width and changes nothing when it rejects |
| VolatileWord.Volatile.ReadBits | src/volatile.rs:59-62 | the field's value, below 2^width |
| Trbs.TrbBits | src/xhci.rs:1685-1706 | the parts of a TRB are the bit fields the accessors read and write in its control word |
| Trbs.LinkBits | src/xhci.rs:1685-1705 | an entry is a link by type 6 in bits 10 to 15, and toggles by bit 1 |
| Trbs.LinkEntry | src/xhci.rs:1678-1684 | the link built holds the ring's address and the control word 0x1802 |
| RingProtocol.NewRing | src/xhci.rs:1820-1832 | 15 zeroed entries, a link back to the first, and a first lap whose free entries carry 0 |
| RingProtocol.PushOutcomes | src/xhci.rs:1787-1818 | what a push does to any ring, well-formed or not: when it is refused, and what is written and returned otherwise, in numbers |
| RingProtocol.PushFills | src/xhci.rs:1787-1818 | on a well-formed ring no error return can be taken: the push fills the slot at the index, flips the link at the end of a lap, and keeps the ring well-formed |
| RingProtocol.CanPushByLag | src/xhci.rs:1787-1818 | a push is safe exactly below 15 waiting entries, and below 14 when the controller stands before the link |
| RingProtocol.PushEnqueues | src/xhci.rs:1787-1818 | a safe push appends its entry to the queue of entries not taken |
| RingProtocol.PushEnqueuesExactlyWhenSafe | src/xhci.rs:1787-1818 | and an unsafe one does not: the condition is exact |
| RingProtocol.PollDequeues | src/xhci.rs:1779-1818 | a controller that follows cycle bits and the toggling link takes the entries in order and sees nothing only when all are taken |
| RingProtocol.NextIsTaken | src/xhci.rs:1779-1818 | while entries wait, two looks take the next one |
| RingProtocol.ZeroedSlotSeen | src/xhci.rs:1799-1803 | the clearing store is visible to a waiting controller if and only if `cycle_state_ours` is true |
| RingProtocol.FifteenthPushCanStall | src/xhci.rs:1811-1815 | 14 entries wait and the controller is before the link: one more push succeeds, and the controller then sees nothing |
| RingProtocol.RingIsFifo | src/xhci.rs:1779-1832 | over every run the entries taken followed by those waiting are the entries pushed, in order, each once, across any number of laps |
| RingStates.StallIsReached | src/xhci.rs:1787-1818 | a run of safe pushes and looks leads to 14 waiting entries with the controller before the link, where one more push succeeds and stalls it |
| RingStates.ZeroedSlotIsReached | src/xhci.rs:1799-1803 | a run leads to a controller that waits at the slot the next push clears, and takes the cleared slot for an entry |
| RingStores.EntryStoreKeeps | src/xhci.rs:1799-1806 | on laps with the bit 0 the clearing store and the store of the entry leave the queue as it was, wherever the controller is |
| RingStores.SetCycleEnqueues | src/xhci.rs:1811 | the store of the cycle bit appends the entry to the queue, at the end of a lap as well |
| RingStores.TurnLinkKeeps | src/xhci.rs:1812-1815 | the store into the link leaves the queue as it was |
| RingStores.StoresMakeThePush | src/xhci.rs:1787-1818 | the stores one after the other make the ring `push` makes |
| RingStores.EveryStoreKeepsFifo | src/xhci.rs:1787-1818 | over every run of single stores and looks between them the entries taken followed by those waiting are the entries pushed |
| CommandRings.PushCounts | src/xhci.rs:1787-1818 | after n pushes the index is n mod 15 and the cycle bit the parity of the lap; push n returns base + 16 * (n mod 15) |
| RingMemory.EntryOfBytes | src/xhci.rs:1662-1670 | the 16 bytes of an entry, 8 of data and 4 and 4, say which entry it is |
| RingMemory.BytesOfSlot | src/xhci.rs:1619-1625 | the entry in slot k takes bytes 16 * k to 16 * k + 15 of the ring |
| RingMemory.PushedBytes | src/xhci.rs:1787-1818 | the 16 bytes from the returned address on hold the entry pushed, with its cycle bit; they lie before the link, the last 16 of the 256 bytes, and no other byte before it changes |
| CommandRings.AddressesDistinct | src/xhci.rs:1790-1794 | any 15 consecutive pushes return different addresses |
| CommandRings.TrbRing.AdvanceIndex | src/xhci.rs:1626-1633 | an error and no change when the bit is set already; otherwise one bit is set and the index moves, modulo the length |
| CommandRings.TrbRing.AdvanceIndexNoToggle | src/xhci.rs:1610-1616 | the same without setting a bit |
| CommandRings.CommandRing.constructor | src/xhci.rs:1820-1832 | an empty ring with a toggling link to its start |
| CommandRings.CommandRing.PushEntry | src/xhci.rs:1787-1818 | the stores into the slot array do what the protocol's push does, error returns included |
| CommandRings.CommandRing.Push | src/xhci.rs:1787-1818 | on a valid ring it succeeds, and the nth push returns base + 16 * (n mod 15), counted from 0 |
| EventProtocol.ErdpBits | src/xhci.rs:1494-1498 | the new register value is the slot's address with the old low four bits |
| EventProtocol.PopDequeues | src/xhci.rs:1487-1504 | `pop` never fails, returns the oldest event, or nothing exactly when none waits, and leaves ERDP naming the slot it read |
| EventProtocol.PostEnqueues | src/xhci.rs:1487-1504 | a controller that respects ERDP overwrites no event that was not popped |
| EventProtocol.PostEnqueuesExactlyBelow16 | src/xhci.rs:1487-1504 | without that check, a post goes to the end of the queue exactly when fewer than 16 events wait |
| EventProtocol.HeldBackAtFourteen | src/xhci.rs:1492-1496 | after a pop the controller is held back exactly at 14 waiting events |
| EventProtocol.EventRingIsFifo | src/xhci.rs:1453-1504 | over every run the events popped followed by those waiting are the events posted, in order, each once: for a controller that respects ERDP, and for any that never gets more than 16 ahead |
| RingStates.HoldIsReached | src/xhci.rs:1492-1496 | 15 posts and a pop leave 14 events waiting and the controller held back |
| Waiters.DeliverToFirst | src/xhci.rs:1507-1517 | an event goes to at most one waiter, the earliest live one that matches |
| Waiters.MatchesBits | src/xhci.rs:1846-1875 | a condition looks at the data, at bits 10 to 15 and at bits 24 to 31 of the control word, each only if it is given |
| Waiters.RemoveStaleKeepsLive | src/xhci.rs:1527-1542 | removing stale indices from the highest down leaves exactly the live waiters, in order |
| EventRings.EventRing.HasNextEvent | src/xhci.rs:1546-1549 | whether the slot at the index carries the cycle bit waited for |
| EventRings.EventRing.Pop | src/xhci.rs:1487-1504 | the object does what the protocol's pop does |
| EventRings.EventRing.RegisterWaiter | src/xhci.rs:1550-1553 | the waiter goes to the end of the list |
| EventRings.EventRing.HandOut | src/xhci.rs:1507-1517 | the loop over the waiters delivers to the first acceptor only |
| EventRings.EventRing.StaleIndices | src/xhci.rs:1527-1539 | the indices of the waiters that are gone, highest first |
| EventRings.EventRing.RemoveStale | src/xhci.rs:1527-1542 | exactly the live waiters stay, in order |
| EventRings.EventRing.Poll | src/xhci.rs:1505-1545 | one round pops one event, delivers it to the first live match, and sweeps the list, after which every waiter left is live; without an event no waiter changes |
| EventRings.EventFuture.constructor | src/xhci.rs:2002-2014 | the future's waiter is registered, live and empty when the constructor returns |
| EventRings.EventFuture.Poll | src/xhci.rs:2039-2050 | ready with the first event handed to the waiter, or pending |
| EventRings.EventFuture.Drop | src/xhci.rs:1998-2001 | one owning reference less, and nothing else changes |
| EventRings.LiveAreKept | src/xhci.rs:1527-1542 | a waiter whose future exists is not removed, and none is added |
| Requests.CallersMakeRequests | src/xhci.rs:1369-1449 | in each caller's list of entries exactly the awaited one asks for a report, none is a link, and at most one follows it |
| Requests.SetupFields | src/xhci.rs:2188-2240 | every field of a setup stage is at its place in the entry |
| Requests.StageFields | src/xhci.rs:2243-2330 | data, status and bulk entries carry the buffer and the low 32 bits of its size, and their control words are spelled out: type, direction, reports |
| Requests.DescriptorStages | src/xhci.rs:1394-1419 | request 6 with 0x80, the descriptor's type over its index as the value, the language as the index and the low 16 bits of the size; then the buffer; then status out |
| Requests.NoDataStages | src/xhci.rs:1369-1392 | the given request with no length, then status in |
| Requests.TransferTypeIsRight | src/xhci.rs:2219-2231 | the transfer type matches the direction of the request type if and only if the request number has the same top bit, or there is no data |
| Requests.DescriptorRequestMarkedOut | src/xhci.rs:1403-1412 | every request for a descriptor with data is marked OUT |
| Requests.WakesAt | src/xhci.rs:2015-2036 | the waiter of a request takes an event exactly if its data is the address of the awaited entry and its type is 33 for a command, 32 for a transfer |
| Requests.SendCommand | src/xhci.rs:1334-1339 | the command is pushed and, unless that fails, a waiter is registered in the same step that wakes exactly on events of type 33 naming the address pushed to |
| Requests.SendNormal | src/xhci.rs:457-462 | the same for a transfer of one entry, with events of type 32 |
| Requests.RequestNoData | src/xhci.rs:1369-1392 | setup and status are pushed, and the waiter wakes exactly on events of type 32 naming the status entry |
| Requests.RequestDescriptor | src/xhci.rs:1394-1419 | setup, data and status are pushed, and the waiter wakes exactly on events of type 32 naming the data entry |
| Mailboxes.DeliverBox | src/xhci.rs:1505-1517 | an event reaches the mailbox whose condition it matches, and changes no other |
| Mailboxes.SweepBox | src/xhci.rs:1527-1542 | removing waiters that are gone loses no mailbox |
| Mailboxes.SettleAt | src/xhci.rs:2039-2050 | with one live waiter to a condition, a future that is ready and dropped spends exactly its own waiter |
| Delivery.PushAllEnqueues | src/xhci.rs:1787-1818 | while few entries wait no push of a request fails or overwrites, and all its entries are queued at the addresses returned |
| Delivery.SubmitKeepsInv | src/xhci.rs:1369-1449 | making a request keeps the protocol's invariant: its report is due, and its waiter is the only one for it |
| Delivery.AdvanceKeepsInv | src/xhci.rs:1487-1504 | so does any look of the controller, a report moving from the ring to the event ring |
| Delivery.StrayKeepsInv | src/xhci.rs:1846-1875 | so does any event that is no report on a ring's entry |
| Delivery.DeliverReport | src/xhci.rs:1505-1517 | a report reaches the waiter of the request it is about, which is registered and live, and no other |
| Delivery.PollEventsKeepsInv | src/xhci.rs:1505-1545 | so does a round of event handling, the report moving to the mailbox |
| Delivery.PollFutureKeepsInv | src/xhci.rs:2039-2050 | so does a poll of a future, which resolves with that report |
| Delivery.StepKeepsInv | src/xhci.rs:1334-1449 | every step of driver, controller and event handling keeps the invariant |
| DeliveryRuns.LagIsBounded | src/xhci.rs:1369-1449 | the controller is at most 4 entries behind on a transfer ring and 1 on a command ring |
| DeliveryRuns.EveryRunDelivers | src/xhci.rs:1334-1449 | in every run the futures of a ring give the events posted for it, in order, each on the entry its request waited for, with at most one on its way |
| DeliveryRuns.EveryRequestIsQueued | src/xhci.rs:1369-1449 | in every run no push of a request fails or overwrites an entry the controller has not taken |
| DeliveryRuns.DrainEvents | src/xhci.rs:1505-1545 | as many rounds of event handling as events wait take in all of them |
| DeliveryRuns.EveryRequestCanComplete | src/xhci.rs:1334-1449 | from every reachable state every open request can complete, with the event on its own entry |
| DeliveryProgress.LooksPost | src/xhci.rs:1369-1449 | in any run, looks at the ring as many as its waiting entries and the link need post the report |
| DeliveryProgress.PollsHand | src/xhci.rs:1505-1545 | in any run, rounds of event handling as many as events stand before it put the report into its mailbox |
| DeliveryProgress.PollResolves | src/xhci.rs:2039-2050 | in any run, one poll of the future then gives the event |
| DeliveryProgress.EveryRunAnswers | src/xhci.rs:1334-1449 | every run that has 9 looks of the controller at the ring, then 15 rounds of event handling, then a poll of the future, among any other steps, gives the open request the event on its own entry |
| Drivers.Machine.constructor | src/xhci.rs:1820-1832 | new rings, an empty event ring and no futures are the protocol's start |
| Drivers.Machine.Submit | src/xhci.rs:1369-1449 | pushing a request's entries and keeping its future is the protocol's request |
| Drivers.Machine.HandleEvents | src/xhci.rs:1505-1545 | a round of `poll` on the event ring object is the protocol's round, and loses no waiter whose future exists |
| Drivers.Machine.Await | src/xhci.rs:2039-2050 | polling a future, and dropping it when ready, is the protocol's poll, with the same event |
| Drivers.Machine.Look | src/xhci.rs:1779-1818 | a controller that reads the ring's slots and writes its report into the event ring's memory does the protocol's look |
| Drivers.Machine.Stray | src/xhci.rs:1846-1875 | so does one that writes an event nobody waits for |
| Drivers.Machine.Execute | src/xhci.rs:1334-1449 | any run of the protocol done by the objects leaves them in its last state: the objects refine the protocol |
| Schedules.PolledInTurn | src/executor.rs:87-109 | whatever is spawned meanwhile, the task at position k is polled after exactly k rounds, and those before it in their order |
| Schedules.RoundsBalance | src/executor.rs:84-109 | spawned tasks are queued or completed, none lost and none doubled, after any number of rounds |
| Schedules.SpawnedStandBefore | src/executor.rs:90-107 | after a round the tasks that waited come first, then those spawned during the poll, and last the polled task unless it is ready |
| Schedules.ExactlyOnePlace | src/executor.rs:84-109 | each spawned task is queued or completed, never both |
| Schedules.NotPolledAgain | src/executor.rs:95-104 | a completed task is never polled again |
| Schedules.Drains | src/executor.rs:87-109 | the queue is empty after n rounds if and only if n is at least the number of polls of all tasks and of what they spawn |
| Schedules.DrainedCompletes | src/executor.rs:87-109 | and then everything spawned has completed |
| Schedules.YieldLetsOthersRun | src/executor.rs:117-131 | a future that yields is resumed after each other queued task had exactly one turn |
| Executors.Executor.Enqueue | src/executor.rs:78-86 | the task goes to the end of the queue, which is made on first use |
| Executors.Executor.PopFront | src/executor.rs:90 | the front task, or nothing exactly when the queue is empty |
| Executors.Global.SpawnGlobal | src/executor.rs:159-162 | the task is queued, and the executor made if there was none |
| Executors.Global.RunOnce | src/executor.rs:90-107 | one iteration of the loop is one round of the schedule, spawns during the poll going before the task itself |
| Executors.Global.Run | src/executor.rs:87-109 | the first n iterations are n rounds |
| Executors.Yield.Poll | src/executor.rs:121-128 | pending the first time, ready ever after |
| Lines.SlopeRounds | src/graphics.rs:66-76 | in the first octant the result is the true height rounded to the nearest integer |
| Lines.NoStepDropped | src/graphics.rs:91-99 | over the range of either loop `flat_map` drops no step: one point per step, in order, each at the rounded height |
| Lines.LinePointInBox | src/graphics.rs:86-101 | points stay in the bounding box of the ends, start at the first end, and would reach the second |
| Lines.ConsecutivePointsTouch | src/graphics.rs:86-101 | consecutive points are different 8-neighbours |
| Lines.PointsDistinct | src/graphics.rs:86-101 | no point is drawn twice, and the second end is not drawn |
| Lines.WithinHalfPixel | src/graphics.rs:66-101 | every point is within half a pixel of the line, for all eight octants |
| Pixels.IndexInjective | src/graphics.rs:13-17 | different pixels are different words of the buffer |
| Pixels.FilledExactly | src/graphics.rs:58-62 | the words of the rectangle get the color, every other word stays |
| Pixels.RectIsRectangle | src/graphics.rs:58-62 | these words are exactly the pixels from (px, py) to (px + w - 1, py + h - 1) |
| Pixels.RectCount | src/graphics.rs:58-62 | there are w * h of them |
| Pixels.PlottedExactly | src/graphics.rs:38-41 | the words of the points get the color, every other word stays |
| Pixels.HitIsPoint | src/graphics.rs:38-41 | a pixel is hit exactly when it is one of the points |
| Pixels.FilledIsDrawn | src/graphics.rs:58-62 | pixel by pixel: the color from (px, py) to (px + w - 1, py + h - 1), everything else as before, whether on the screen or behind its edge |
| Pixels.PlottedIsDrawn | src/graphics.rs:86-101 | pixel by pixel: the color on the points, everything else as before |
| Graphics.Bitmap.PixelAt | src/graphics.rs:13-31 | word y * pixels_per_line + x exactly when 0 <= x < width, x < pixels_per_line and 0 <= y < height; the word is in the buffer |
| Graphics.Bitmap.DrawPoint | src/graphics.rs:38-41 | one word changes, or an error and nothing does |
| Graphics.Bitmap.FillRect | src/graphics.rs:43-64 | fails, changing nothing, exactly when the first or the last corner is outside these ranges; otherwise exactly the pixels of the rectangle get the color |
| Graphics.Bitmap.FillScreen | src/init.rs:98-104 | filling the whole screen succeeds and colors it |
| Graphics.Bitmap.LineInside | src/graphics.rs:78-101 | a line between points on the screen stays on the screen |
| Graphics.Bitmap.DrawLine | src/graphics.rs:78-101 | fails, changing nothing, exactly when an end is outside these ranges; otherwise exactly the points of the line get the color, as many as the larger of the two distances |
| Descriptors.LayoutOfBytes | src/xhci.rs:2341-2397 | fields written as bytes are read back, whatever follows |
| Descriptors.BytesOfLayout | src/xhci.rs:2341-2397 | and reading loses no byte of a layout |
| Descriptors.FieldPlaces | src/xhci.rs:2341-2397 | kinds 2, 4 and 5 are configuration, interface and endpoint, and which byte is which field |
| Descriptors.NextReads | src/xhci.rs:2411-2436 | when `next` gives an item, nothing, or is out of range, by the bytes at the index |
| Descriptors.WalkReadsAll | src/xhci.rs:2408-2436 | concatenated well-formed descriptors are read in order, each once, and the walk ends behind the last byte |
| Descriptors.WalkSplits | src/xhci.rs:2408-2436 | conversely, a buffer walked to its exact end by descriptors that are long enough is such a concatenation |
| Descriptors.WalkStops | src/xhci.rs:2408-2436 | where every walk stops: behind the lengths of all it yielded, at the end, at a layout cut short, at a single last byte, or at a length of 0 |
| Descriptors.DescriptorIterator.Next | src/xhci.rs:2411-2436 | an item and a step by its length byte; no item at the end or for a layout cut short; out of range at a single last byte |
| Descriptors.DescriptorIterator.Collect | src/xhci.rs:810-811 | ends unless a descriptor of length 0 is met, and gives all items |

## Left out

- Inline assembly, CR3 and TLB handling, segment and interrupt tables, PCI, ACPI, UEFI, HPET, serial and text output: device and machine plumbing without state worth proving.
- xHC register setup, doorbells, port resets, scratchpad buffers and USBSTS writes: side effects on the device.
- Memory fences and the spin count of `Mutex`: the kernel is single-core and cooperative, so the code between two awaits is one step.
- RingStores.EveryStoreKeepsFifo: on laps with `cycle_state_ours` true a push stays one step, because there the clearing store is visible (`ZeroedSlotSeen`).
- Pushing entries of type Link: no caller does; `RingProtocol.Push` models the code for them, but the ring theorems exclude them.
- Requests the controller reports as failed, or never reports: delivery is proved for runs in which awaited requests are completed; a stalled endpoint keeps its remaining entries.
- DeliveryProgress.EveryRunAnswers: that the controller and the executor give these turns is not derived; `PolledInTurn` gives the fairness of the executor, the controller's is its own.
- Completion codes of events and what the drivers do with the data: the protocol does not depend on them.
- Mapper.PML4.CreateMapping: tables inherited from firmware with 2 MiB or 1 GiB pages are not modelled; the table is one built from `PML4::new`.
- Mapper.PML4.MapTable: one method for the loops of all levels, entered again where the source nests; each source loop is its loop at that level.
- Allocator.FirstFitAllocator.Store: memory is written in aligned words of 8 bytes, not byte by byte.
- Allocator.FirstFitAllocator.Dealloc: freeing a pointer that is not live is outside the model, as it is undefined for the source.
- EventRings.EventRing.Pop: ERDP is known; before `set_erdp` the source would panic.
- Lines.SlopeRounds: integers are unbounded; the products of the source overflow 64 bits only for screens of 2^31 pixels and more.
- Graphics.Bitmap.FillRect: the buffer is one of words, each pixel four bytes.
- Executors.Global.Run: the loop has no end; the model is its first n iterations, for every n. Results of tasks are only printed and are not modelled.
- `block_on` and the sleep future: a loop over one task and a clock.
- The setters of `EndpointContext` and other finite encodings: easy members on top of `BitFields`.
- `src/trb.rs`: not part of the built crate.
- Fonts, text drawing and the test pattern: clients of the functions modelled here.
