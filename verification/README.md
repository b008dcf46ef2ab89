# HalOS kernel model

A Dafny 4.11 model of the parts of the HalOS kernel that hold shared, mutable state, with proofs
of what they keep. `dafny verify dfyconfig.toml` checks all of it.

## What is modelled

`Words` holds machine words, the option type, and bitwise and and or, which several parts use.

**The heap** (`HeapSizes`, `Heap`, `HeapLaws`, `HeapBytes`, `HeapRuns`). Boundary tags are objects
in two linked structures at once: the chain of left and right neighbours inside each page block,
and the doubly linked free lists by size class. One invariant covers both structures, the sizes
and the counters of whole blocks, and every run of malloc, free and realloc keeps it. A pointer is
represented by its tag; the page layer lends fresh contiguous blocks or answers NULL, and the
parameter `offer` is its answer.

**Frames, tables and pages** (`Bits`, `Frames`, `Paging`, `Vmm`, `VmmRuns`, `VmmDma`,
`HeapHook`). Two bitmap allocators held in bytes, and two-level page tables whose directory and tables are frames found by frame
number. The joint invariant says that every live kernel page is marked, translates to a frame in
use, shares that frame with no other page, and that no frame of a table is handed out. `VmmDma` adds
dma_alloc and dma_free, which map a run of pages anew and do not always keep that invariant, and
`HeapHook` the heap's hook, which takes its pages one by one.

**TCP** (`Segments`, `TcpOptions`, `TcpSteps`, `Tcp`). `Segments` and `TcpSteps` give sending,
acknowledging, retransmitting and each state's handler as functions on the fields of a connection.
`Tcp` holds the connections, the timers and the loops over them, proved against those functions.
Sequence numbers are 32-bit; a connection remembers in a ghost field whether they have run over.
Whether there is memory for a queue entry or a timer is left open, so the proofs hold either way. An
application may send, read and close, as the shell's telnet does.

**FAT32 reading** (`Division`, `Fat`). A chain of clusters is a partial function from positions to
bytes; the reading loops and the directory cursor are proved against it, for cyclic chains and
failing drives too. The allocation table is an input, because the driver never fills it from disk.

**Network layers** (`Checksum`, `Ipv4`, `Arp`). The one's complement checksum of RFC 1071, the
IPv4 header and dotted addresses, the ARP cache as a table, and the queue of packets that wait.

**Text and numbers** (`Path`, `Numerals`, `Printf`, `PrintfLoops`, `Arith`). The path resolver of
the shell, formatted output of integers, characters and strings, and the integer square root,
primality and gcd.

## Where code and comments disagree

The model follows the code. These differences are theorems here:

- `src/mm/pmm.c:274-276` lacks braces, so `pmm_free_block` returns on every path and
  `vmm_free_page` never gives a frame back (`Vmm.PageAllocator.FreePage`).
- `src/mm/pmm.c:112` walks whole bytes only, so the frames of a last partial byte are never handed
  out one by one (`Frames.FrameAllocator.AllocBlock`; `Frames.TakeSingles` for a machine with 1025).
- `src/mm/vmm.c:387-396` maps a run from vmm_alloc_contiguous to other frames and forgets its own, so
  dma_free cannot give them back (`VmmDma.DmaAllocAndFree`). When vmm_alloc_contiguous answers NULL
  the loop maps over the first pages of memory and their images in the kernel; the live pages keep
  their frames exactly if none of those images is live (`VmmDma.LowDamage`, `VmmDma.DmaAlloc`;
  `VmmDma.LivePageLost` when the zone takes the last frame).
- `src/drivers/net/tcp.c:228-251` limits retransmissions to five, but a data segment is queued anew
  with each retransmission, so the limit does not work for it while memory lasts
  (`Segments.GivenUpIff`).
- The comments at `src/drivers/net/tcp.c:514-521` speak of repeated acknowledgements and of the oldest
  segment. `last_ack` is written in WAIT_FOR_ACK only, so in every run it is 0 as long as a connection
  is established (`Tcp.Run`, `TcpSteps.Quiet`): what a peer repeats when it misses something does not
  set a fast retransmission off, only the third packet that acknowledges 0 does. What then goes out is
  the newest entry's data, which without an application is always the empty segment
  (`TcpSteps.FastRetransmission`; `TcpSteps.OldestNotSent` for two segments of an application). And as
  it goes out under `next_seq`, no number is ever sent a second time, neither by a fast retransmission
  nor by a sweep (`TcpSteps.NeverSentAgain`).
- `src/drivers/net/tcp.c:258` sends a FIN when the timer of a handshake is due, and a FIN takes a
  number, so the acknowledgement that the peer owes for the SYN completes the handshake exactly if no
  sweep has found the timer due before (`TcpSteps.OwedAckCompletes`).
- `src/mm/liballoc_hook.c:28-43` answers the first of n pages taken one by one, though they need not be
  consecutive: they are the n lowest unmarked pages, so exactly if no marked page lies among the n from
  the lowest one on. Else the block the heap is told of covers pages of others, and giving it back, or giving
  up half way, frees theirs and keeps its own (`HeapHook.LiballocAlloc`, `HeapHook.ConsecutiveIff`,
  `HeapHook.UndoneIff`; `HeapHook.Gap` for two pages).
- `src/drivers/net/tcp.c:501-512` can never be reached from an established connection
  (`Tcp.Stack.HandleEstablished`), and `tcp_checksum` pads an odd segment on the wrong side
  (`Checksum.TcpChecksumIff`; `Checksum.OddByte` for one byte).
- `src/libs/printf.c:280` drops the minus of a decimal number exactly if '-' is not among the flags
  and precision, or width with '0', is at least 32, so that zeros fill the scratch buffer; the text
  then reads as the opposite number (`Numerals.MinusKept`, `Printf.ConversionReadsBack`;
  `Numerals.MinusLost` for -1 with precision 32).
- `src/drivers/fat.c:363` uses sector number 0 as the mark of an empty buffer, which is safe exactly
  if the directory's first sector is not number 0 (`Fat.Cursor.ReadNextEntry`, `Fat.NeverSectorZero`).
- `resolve_path` joins an empty path and a relative one to an absolute path, so going to "" and then
  to b is going to ""/b exactly if b climbs out of the whole directory (`Path.ComposedEmpty`,
  `Path.ComposedIff`).
- `src/drivers/net/ipv4.c:27` reads a part of an address into an int, so 4294967296.0.0.1 is taken for
  0.0.0.1 (`Ipv4.RunsOver`); `Ipv4.InetLaw` says which texts are accepted.

## Model

| member | source | states |
|---|---|---|
| `HeapSizes.GetExp` | src/mm/liballoc.c:39-63 | the size class of a block is -1 below 256 and else the n with 2^n <= size < 2^(n+1) |
| `HeapSizes.ExponentBounds` | src/mm/liballoc.c:39-63 | the size class is pinned down by those two bounds alone |
| `HeapSizes.GetBin` | src/mm/liballoc.c:420-422 | the list a free tag goes to is the larger of 8 and the class of its space |
| `HeapSizes.PagesForFits` | src/mm/liballoc.c:236-245 | the pages asked for hold the request exactly if the request with its header does not wrap around 2^32 |
| `HeapSizes.WorthSplitting` | src/mm/liballoc.c:343-352 | the unsigned remainder cast to int is positive and has a class exactly if at least 256 bytes remain behind a second header |
| `Heap.Allocator.Malloc` | src/mm/liballoc.c:273-375 | fails exactly if no free tag of the list fits and no pages are had; takes the first tag that fits; the new allocation has the size asked for and less than two headers and 256 bytes to spare; all other live allocations stay, clear of every header there was or is; the joint invariant of chains, lists and counters holds again |
| `Heap.Allocator.Free` | src/mm/liballoc.c:377-463 | exactly this allocation stops being live; the others are clear of every header there was or is; a whole block goes back to the page layer exactly if five of its class stand by, with the very page count it was lent with; the joint invariant holds again |
| `Heap.Allocator.HeadersStayClear` | src/mm/liballoc.c:273-463 | an allocation that is live before and after holds none of the bytes of any header there was or is |
| `Heap.Allocator.FindFit` | src/mm/liballoc.c:298-312 | the first tag of the list with room for the request and a second header, or none if there is none |
| `Heap.Allocator.AllocateNewTag` | src/mm/liballoc.c:229-271 | a new block of the pages lent, one tag over all of it, apart from every other block |
| `Heap.Allocator.SplitTag` | src/mm/liballoc.c:200-225 | the tag and its new right neighbour tile exactly what the tag covered, and the neighbour is on the right list |
| `Heap.Allocator.Trim` | src/mm/liballoc.c:343-363 | excess space is split off exactly if the rest beyond a second header is at least 256 bytes |
| `Heap.Allocator.Coalesce` | src/mm/liballoc.c:400-417 | after the two loops the tag has no free neighbour and covers what the freed tag and its free neighbours covered; at most the freed tag and its right neighbour are gone, so neither loop goes round twice |
| `Heap.Allocator.MeltLeft` | src/mm/liballoc.c:172-183 | the left neighbour covers both, and the chain skips the melted tag |
| `Heap.Allocator.AbsorbRight` | src/mm/liballoc.c:185-198 | the tag covers both, and the right neighbour is off its list |
| `Heap.Allocator.UnsplitIffLast` | src/mm/liballoc.c:424-451 | a tag without neighbours is the whole of its block, and only then |
| `Heap.Allocator.Count` | src/mm/liballoc.c:424-451 | the counter of the class grows by one exactly for a whole block |
| `Heap.Allocator.InsertTag` | src/mm/liballoc.c:133-155 | the tag becomes the head of its list, doubly linked, the rest unchanged |
| `Heap.Allocator.RemoveTag` | src/mm/liballoc.c:157-170 | the tag is on no list, and chains, lists, bins and counters are sound but for it |
| `Heap.Allocator.Unlink` | src/mm/liballoc.c:157-170 | the tag leaves its list, whose other members keep their order and links, and carries index -1 and no links |
| `HeapLaws.LiveRangesDisjoint` | src/mm/liballoc.c:365 | bytes of different live allocations never overlap, nor do they overlap any tag header |
| `HeapLaws.LiveInsideBlock` | src/mm/liballoc.c:200-225 | a live allocation lies inside its page block |
| `HeapLaws.BlocksAreTiled` | src/mm/liballoc.c:172-225 | from the left end the chain of right neighbours tiles the block exactly, without gap or overlap |
| `HeapLaws.NeighboursNotBothFree` | src/mm/liballoc.c:400-417 | of two neighbouring tags at most one is free |
| `HeapLaws.FreeListExact` | src/mm/liballoc.c:133-170 | each list holds exactly the free tags of its class, each once, linked both ways |
| `HeapLaws.CountersExact` | src/mm/liballoc.c:326-331 | the counter of a class is the number of whole blocks in its list and never exceeds five |
| `HeapBytes.Memory.Copy` | src/mm/liballoc.c:74-97 | copying by words and then by bytes copies exactly the n bytes and changes no other |
| `HeapBytes.Realloc` | src/mm/liballoc.c:479-508 | on success the first min(old size, new size) bytes are kept; other live allocations keep their bytes; when malloc fails the old allocation is freed nevertheless |
| `HeapRuns.HoldsAfter` | src/mm/liballoc.c:273-508 | replacing one pointer of a client's table replaces exactly one live allocation |
| `HeapRuns.Client.Run` | src/mm/liballoc.c:273-508 | every run of malloc, free and realloc on live pointers keeps the joint invariant, and the table holds exactly the live allocations |
| `Bits.SetBit` | src/mm/pmm.c:151-158 | setting a bit of a byte array sets one flag and leaves the others |
| `Bits.CountUpdate` | src/mm/pmm.c:60-102 | changing one flag changes the count of set flags by exactly that flag |
| `Bits.MarkedBack` | src/mm/vmm.c:318-322 | marking a clear run and clearing it again gives back the very same flags |
| `Frames.AlignUpCovers` | src/mm/pmm.c:348 | rounding an address up covers it exactly if it is at most 2^32 - 4096 |
| `Frames.FrameAllocator.constructor` | src/mm/pmm.c:17-31 | an empty bitmap of as many frames as the memory has |
| `Frames.FrameAllocator.Reserve` | src/mm/pmm.c:33-44 | the low megabyte, the kernel and the bitmap are in use, so frame 0 is never free |
| `Frames.FrameAllocator.MarkUsedRegion` | src/mm/pmm.c:60-80 | exactly the frames counted by the region's length are marked, and the counter is the number of set bits |
| `Frames.FrameAllocator.MarkUnusedRegion` | src/mm/pmm.c:82-102 | exactly those frames come free, and the counter follows |
| `Frames.FrameAllocator.AllocBlock` | src/mm/pmm.c:104-133 | the lowest free frame of the whole bytes of the bitmap, NULL exactly if there is none; the frames of a last partial byte are never found |
| `Frames.NoneSeen` | src/mm/pmm.c:112-131 | no frame is left to the search exactly if all of the whole bytes are in use |
| `Frames.LastFrame` | src/mm/pmm.c:112 | of 1025 frames the last one alone is free and not found |
| `Frames.TakeSingles` | src/mm/pmm.c:18-54 | from the state after pmm_init single allocations lead there: 1024 frames in use, the last one free, and none to be had |
| `Frames.FrameAllocator.FindContiguousFreeBlocks` | src/mm/pmm.c:135-149 | the lowest run of free frames, or none exactly if there is none |
| `Frames.FrameAllocator.AllocContiguous` | src/mm/pmm.c:160-179 | fails exactly if no run of that length exists; else marks exactly the lowest run; never answers NULL for a run |
| `Frames.FrameAllocator.FreeContiguous` | src/mm/pmm.c:181-210 | frees the run if all of it is in use, and otherwise nothing |
| `Frames.FrameAllocator.FreeBlocks` | src/mm/pmm.c:272-326 | frees nothing, because the unbraced test in pmm_free_block returns on every path |
| `Frames.FrameAllocator.Pass` | src/mm/pmm.c:242-266 | one pass finds the lowest run from its start on, also when frames counted before it were free, since it then begins at a frame in use |
| `Frames.FrameAllocator.AllocBlocks` | src/mm/pmm.c:228-270 | next fit fails exactly if there is no run of that length anywhere, although it starts at a cursor; it marks exactly the lowest run at or behind the cursor, or else the lowest of all; a tail run is never joined with a head run |
| `Frames.FrameAllocator.AllocBlocksInRange` | src/mm/pmm.c:339-391 | the lowest run inside the rounded address range, or NULL exactly if there is none |
| `Frames.FrameAllocator.AllocAndFree` | src/mm/pmm.c:160-210 | freeing what was just allocated restores bitmap and counter |
| `Paging.EntryLaw` | src/mm/paging.c:131 | with flags below 4096 the bitwise or of frame, flags and present bit keeps each of them apart |
| `Paging.SameEntryPages` | src/mm/paging.c:41-43 | two addresses share a table entry exactly if they are the same page, or the same page of directory slots 0 and 768 |
| `Paging.WithTableKeeps` | src/mm/paging.c:93-117 | a fresh zeroed table in an empty slot changes no translation |
| `Paging.PageTables.EnsureTable` | src/mm/paging.c:93-117 | fails exactly if the slot is empty and no frame is left; a new table costs one frame and changes no translation |
| `Paging.WithEntryKeeps` | src/mm/paging.c:119-131 | writing one entry changes the translation of exactly the pages that share it |
| `Paging.MappedLaw` | src/mm/paging.c:88-137 | after a mapping the page, and its image if it lies in directory slot 0 or 768, lead to the frame plus the offset, and every other address goes where it went |
| `Paging.BootLaw` | src/mm/paging.c:29-43 | the boot tables translate the first four megabytes, and their image at the kernel's base, to themselves and nothing else |
| `Paging.PageTables.VirtToPhys` | src/mm/vmm.c:145-168 | the translation of the tables; 2^32 - 1 means that there is none, unless the address is the last of its page |
| `Paging.PageTables.MapPage` | src/mm/paging.c:88-137 | fails exactly if the directory slot is empty and no frame is left for a table; on success the pages that share the entry are retranslated and no others, and exactly this slot has gained a table; on failure nothing changed |
| `Paging.PageTables.UnmapPage` | src/mm/paging.c:139-161 | the page, with what shares its entry, loses its translation and no other does |
| `Paging.PageTables.Init` | src/mm/paging.c:16-46 | succeeds exactly if two frames are left, and then the tables satisfy the boot law |
| `Vmm.KernelPagesApart` | src/mm/vmm.c:299-347 | different pages of the kernel's gigabyte never share a table entry |
| `Vmm.BoundPages` | src/mm/vmm.c:175-205 | binding one more page keeps every live page marked, translated and on a frame in use |
| `Vmm.UnmappedPages` | src/mm/vmm.c:207-248 | unmapping one page leaves every other live page as it was |
| `Vmm.GrewOnly` | src/mm/vmm.c:299-376 | frames taken and freed again leave behind only the tables made in between |
| `Vmm.CountGrew` | src/mm/paging.c:93-117 | as many more frames are in use as there are new tables |
| `Vmm.PageAllocator.AllocPage` | src/mm/vmm.c:175-205 | NULL exactly if every page is marked, no frame is left, or the directory slot of the lowest unmarked page is empty and only one frame is left; else the lowest unmarked page on the lowest frame; a failure loses a frame exactly in the last of these cases |
| `Vmm.PageAllocator.FreePage` | src/mm/vmm.c:207-248 | the page is unmapped and unmarked, but its frame never comes free |
| `Vmm.PageAllocator.AllocContiguous` | src/mm/vmm.c:299-347 | NULL exactly if there is no run of pages, no run of frames, or there are more empty directory slots under the lowest run of pages than frames left beside the run; else the lowest run of pages on the lowest run of frames, page k on frame k; without a run everything is exactly as before; when a page cannot be mapped, exactly which and what stays taken |
| `Vmm.RunHadIff` | src/mm/vmm.c:299-347 | the condition for success at the lowest run of pages and the lowest run of frames |
| `Vmm.SuppliedStuck` | src/mm/vmm.c:332-342 | a page of the run cannot be mapped only if the empty slots under the run outnumber the frames left |
| `Vmm.PageAllocator.FreeContiguous` | src/mm/vmm.c:349-376 | pages and frames of a live run come free and exactly its pages lose their translation |
| `Vmm.PageAllocator.RunTranslated` | src/mm/vmm.c:326-341 | page start + k translates to the k-th page behind the run's first physical address, on a frame that is in use and holds no table |
| `Vmm.PageAllocator.AllocAndFree` | src/mm/vmm.c:299-376 | allocating a run and freeing it restores both bitmaps and the unmapped status of every page up to new tables, whose number is what the count of used frames has grown by; a failed allocation changes no live page |
| `VmmRuns.HoldsMore` | src/mm/vmm.c:299-347 | a new run joins the client's table without sharing a page with any other |
| `VmmRuns.HoldsLess` | src/mm/vmm.c:349-376 | giving a run back takes exactly its pages out of the table |
| `VmmRuns.Client.Run` | src/mm/vmm.c:175-376 | every run of the four operations keeps both bitmaps in agreement with the translation: live pages are marked, on frames in use, no two on the same frame, and no table frame is handed out |
| `VmmDma.DmaAlloc` | src/mm/vmm.c:378-398 | NULL exactly if the zone has no run of frames or vmm_alloc_contiguous can have none besides; else the lowest run of pages on the lowest run of frames of the zone, and the lowest run of frames that came with the pages stays in use; the joint invariant survives exactly if the zone has no such run, or the pages can be had, or no live page is the image of one mapped over |
| `VmmDma.ZoneHadIff` | src/mm/vmm.c:384-387 | the condition for success at the lowest run of frames of the zone |
| `VmmDma.RemapRun` | src/mm/vmm.c:388-395 | moving a live run to spare frames page by page keeps the joint invariant, makes no table and changes no other kernel page |
| `VmmDma.MapLow` | src/mm/vmm.c:387-395 | run at address 0 the loop sends the first pages of memory to the frames of the zone and changes no kernel page but their images |
| `VmmDma.LowDamage` | src/mm/vmm.c:387-395 | after that the live pages still are on their frames if and only if none of them is among the first n |
| `VmmDma.LivePageLost` | src/mm/vmm.c:386-396 | 512 frames, number 300 alone free, as many pages, page 0 live: dma_alloc of one page takes the last frame, gets no page, and the condition fails |
| `VmmDma.DmaFree` | src/mm/vmm.c:400-425 | nothing changes for the addresses and sizes it refuses; otherwise pages and frames of the run come free and exactly its pages lose their translation |
| `VmmDma.DmaGone` | src/mm/vmm.c:378-425 | what allocation and release leave behind: pages and live pages as before, the frames of the zone free, the frames that came with the pages in use |
| `VmmDma.DmaAllocAndFree` | src/mm/vmm.c:378-425 | the round trip loses exactly as many frames as the run has pages, besides new tables |
| `HeapHook.LiballocAlloc` | src/mm/liballoc_hook.c:19-51 | gets the n lowest unmarked pages exactly if there are n with frames for them and for the tables they lack, and answers the first; a call that fails after i pages frees the i pages from the first one on, whosever they are |
| `HeapHook.ConsecutiveIff` | src/mm/liballoc_hook.c:29-45 | the n lowest unmarked pages are consecutive exactly if no marked page lies among the n from the lowest one on |
| `HeapHook.HadIffEnough` | src/mm/liballoc_hook.c:31 | the next page is to be had exactly if pages, frames and tables suffice for one more |
| `HeapHook.UndoneIff` | src/mm/liballoc_hook.c:36-39 | giving up leaves live what was live before exactly if the pages got were consecutive |
| `HeapHook.BorrowAndReturn` | src/mm/liballoc_hook.c:19-67 | liballoc_alloc and liballoc_free together leave live what was live before exactly if no marked page lay among the n from the lowest unmarked one on |
| `HeapHook.Gap` | src/mm/liballoc_hook.c:29-45 | pages 1 and 3 free, page 2 taken: two pages are not consecutive |
| `Segments.SentInOrder` | src/drivers/net/tcp.c:336-429 | sending keeps the retransmission queue newest first and disjoint below next_seq, as long as no sequence number has run over, whether or not the entry could be queued |
| `Segments.OrderedPairs` | src/drivers/net/tcp.c:399-428 | any two entries of such a queue cover disjoint numbers, the older one the lower |
| `Segments.KeptIsNewest` | src/drivers/net/tcp.c:536-553 | an acknowledgement removes exactly an oldest part of the queue and keeps precisely the entries with ack < seq + length |
| `Segments.SendsAbut` | src/drivers/net/tcp.c:371-428 | after sends alone the queue abuts without gaps up to next_seq, which has grown by the numbers sent |
| `Segments.AbutsCovers` | src/drivers/net/tcp.c:399-428 | in a queue without gaps every number from the oldest entry to next_seq is in some entry |
| `Segments.RetriedInOrder` | src/drivers/net/tcp.c:226-265 | retransmission by a sweep keeps the queue in order and the state |
| `Segments.GivenUpIff` | src/drivers/net/tcp.c:228-251 | the retry limit works for an entry without data; a data segment is queued afresh each time and given up only after five sweeps in a row without memory |
| `Segments.RetriedNumbers` | src/drivers/net/tcp.c:254-264 | each due sweep without data takes one sequence number |
| `TcpOptions.ProcessOptions` | src/drivers/net/tcp.c:154-198 | the loop computes the parse of the option bytes, for every sequence of bytes |
| `TcpOptions.ParsedEncoded` | src/drivers/net/tcp.c:154-198 | of every well-formed list of options (section 3.1 of RFC 9293), end mark and padding or not, the parse finds the last segment size, capped at 1460 |
| `TcpOptions.ParsedBound` | src/drivers/net/tcp.c:184 | no bytes whatever raise the segment size above 1460 |
| `TcpSteps.AckDropsOldest` | src/drivers/net/tcp.c:514-553 | the ESTABLISHED handler drops exactly the oldest entries the acknowledgement covers, also after a fast retransmission |
| `TcpSteps.NeverSentAgain` | src/drivers/net/tcp.c:218-278 | over every run of packets, due timers and what applications send no segment starts below the end of any entry that waited, so no number is sent twice while the numbers do not run over |
| `TcpSteps.TurnLater` | src/drivers/net/tcp.c:336-429 | one packet, due timer or request of an application sends nothing below next_seq, lets it go on, and keeps the queue in order |
| `TcpSteps.FastRetransmission` | src/drivers/net/tcp.c:514-530 | an established connection sends again exactly at the third packet that acknowledges 0, and then the newest entry's data under next_seq: the oldest entry's data exactly if the two are alike, and nothing but the empty segment if no application has sent |
| `TcpSteps.TurnQuiet` | src/drivers/net/tcp.c:620-624 | last_ack stays 0 but in WAIT_FOR_ACK, and without an application nothing with data waits before a request has been answered |
| `TcpSteps.OldestNotSent` | src/drivers/net/tcp.c:514-530 | an application sends "a" and "b"; three packets that acknowledge 0 bring out "b" again, numbered 12 |
| `TcpSteps.EstablishedOutcome` | src/drivers/net/tcp.c:488-596 | an established connection goes to LAST_ACK on FIN, else to WAIT_FOR_ACK on a request, else stays; it is never left in CLOSE_WAIT; its queue stays in order |
| `TcpSteps.ReplyLaw` | src/drivers/net/tcp.c:431-481 | headers and page go out back to back; the headers announce the length of the file, which is that of the second segment exactly if the file is below 65536 bytes |
| `TcpSteps.WaitingInOrder` | src/drivers/net/tcp.c:598-636 | the WAIT_FOR_ACK handler keeps the queue in order |
| `TcpSteps.OnePacketPerEntry` | src/drivers/net/tcp.c:598-636 | an acknowledgement of everything drops one entry for each packet that carries it |
| `TcpSteps.GoneWithLastEntry` | src/drivers/net/tcp.c:610-619 | so the connection goes with the packet that meets the last entry, and not before |
| `TcpSteps.OwedAckCompletes` | src/drivers/net/tcp.c:258 | in SYN_RECEIVED and LAST_ACK the acknowledgement owed for our SYN-ACK or FIN completes the state if and only if no sweep has found the timer due since |
| `Tcp.Connection.AckQueue` | src/drivers/net/tcp.c:536-553 | the loop keeps exactly the entries not acknowledged, in order |
| `Tcp.Stack.FindConnection` | src/drivers/net/tcp.c:64-78 | the loop finds the connection that matches and was opened last |
| `Tcp.LookupLaw` | src/drivers/net/tcp.c:64-78 | nothing is found exactly if no connection matches, else a listed one that does |
| `Tcp.Stack.CancelTimer` | src/drivers/net/tcp.c:86-100 | the first timer of the connection goes |
| `Tcp.WithoutTimerLaw` | src/drivers/net/tcp.c:86-100 | with one timer each, exactly the timers of other connections stay |
| `Tcp.Stack.Remove` | src/drivers/net/tcp.c:102-127 | exactly this connection and its timer go, and the invariant of lists and timers holds |
| `Tcp.Stack.SendSegment` | src/drivers/net/tcp.c:336-429 | the segment put out, the new next_seq and the new queue are those of the specification |
| `Tcp.Stack.Sweep` | src/drivers/net/tcp.c:216-281 | the timers left, the segments sent and every connection are those of a timer by timer specification over the state before |
| `Tcp.Untouched` | src/drivers/net/tcp.c:216-281 | a connection without a due timer comes through a sweep as it was |
| `Tcp.SweptNext` | src/drivers/net/tcp.c:221-280 | one timer's round of the sweep decides about its own connection only |
| `Tcp.Stack.Process` | src/drivers/net/tcp.c:514-595 | state, queue, numbers, segments and timer after the ESTABLISHED handler are those of the specification |
| `Tcp.Stack.HandleEstablished` | src/drivers/net/tcp.c:488-596 | the sweep inside the handler never touches the connection being handled, which is still listed in the end; the timers are those the sweep leaves and, for a request answered by a page, one more if there was memory |
| `Tcp.Stack.HandleSynSent` | src/drivers/net/tcp.c:733-751 | exactly a SYN-ACK for next_seq establishes the connection |
| `Tcp.Stack.HandleSynReceived` | src/drivers/net/tcp.c:752-759 | exactly an acknowledgement of next_seq establishes the connection, which then owns no timer |
| `Tcp.Stack.HandleWaiting` | src/drivers/net/tcp.c:598-636 | removed exactly if its last entry is acknowledged, else changed as specified |
| `Tcp.Stack.HandleLastAck` | src/drivers/net/tcp.c:638-644 | removed exactly on an acknowledgement of next_seq |
| `Tcp.Stack.Open` | src/drivers/net/tcp.c:696-722 | one new connection in SYN_RECEIVED with the peer's segment size, its SYN-ACK sent, and its timer added if there was memory |
| `Tcp.Stack.HandlePacket` | src/drivers/net/tcp.c:646-776 | a packet changes its own connection and the timers as specified for its state, with the segments specified, and removes it exactly on the last acknowledgement; besides only connections with a due timer change; a SYN to a listening port opens a connection exactly if there is memory for it; a bad offset or any other unclaimed packet is answered by one reset and changes nothing; a reset removes exactly its connection |
| `Tcp.Stack.Connect` | src/drivers/net/tcp.c:778-797 | one new connection in SYN_SENT without a timer, its SYN sent, exactly if there is memory for it |
| `Tcp.Stack.Say` | src/shell/shell.c:647-677 | what an application sends on an established connection goes out and is queued as specified |
| `Tcp.Run` | src/drivers/net/tcp.c:200-281 | over every run of packets, sweeps, listens, connects and what applications send, read and close each connection owns at most one timer, every timer points to a listed connection in SYN_RECEIVED, WAIT_FOR_ACK or LAST_ACK, queues without wrap-around are in order, and last_ack is 0 but in WAIT_FOR_ACK |
| `Fat.EndsOnce` | src/drivers/fat.c:109-111 | behind its end a chain has nothing more |
| `Fat.Advance` | src/drivers/fat.c:68-79 | the cluster that holds the byte at the offset, or the chain is too short for it |
| `Fat.ReadCluster` | src/drivers/fat.c:84-107 | one cluster's part of the request, exactly the chain's bytes, and why it stopped |
| `Fat.ReadFile` | src/drivers/fat.c:52-115 | true exactly if the request is in size and every byte of it can be had, and then the buffer is that slice of the chain; what was written before a failure is right too; it ends on cyclic chains |
| `Fat.OnlyShortChains` | src/drivers/fat.c:52-115 | without disk errors a request in size fails only if the chain ends before its last byte |
| `Fat.JoinedSlice` | src/drivers/fat.c:47-50 | the sectors of a chain laid end to end are its bytes |
| `Fat.ReadIsPart` | src/drivers/fat.c:81-114 | what a read returns is that part of the sectors laid end to end |
| `Fat.NeverSectorZero` | src/drivers/fat.c:47-50 | a cluster from 2 on never lies at sector 0 if the data start above it; cluster 0 does exactly if the data start at twice the sectors per cluster |
| `Fat.Cursor.ReadNextEntry` | src/drivers/fat.c:366-400 | the next record, or nothing if it is the last, unreadable or starts with 0; only a first sector numbered 0 shows the unfilled buffer instead |
| `Fat.Cursor.ReadAll` | src/drivers/fat.c:347-400 | up to the first nothing, the k-th call returns the k-th record of the chain |
| `Checksum.IpChecksum` | src/drivers/net/ipv4.c:11-22 | for every 16-bit length the result is the complement of the one's complement sum of the words |
| `Checksum.NoOverflow` | src/drivers/net/ipv4.c:13-18 | the 32-bit accumulator cannot overflow |
| `Checksum.TwoFolds` | src/drivers/net/ipv4.c:19-20 | two folds take in every carry of a 32-bit sum |
| `Checksum.OnesSumIsFolded` | src/drivers/net/ipv4.c:13-20 | adding with end-around carry word by word is adding first and folding then |
| `Checksum.StoredVerifies` | src/drivers/net/ipv4.c:104-105 | storing the checksum in a zero word of the buffer makes the checksum of the whole buffer 0 |
| `Checksum.ByteOrder` | src/drivers/net/ipv4.c:11-22 | the little-endian checksum stored natively has the bytes of the big-endian definition, odd lengths included |
| `Checksum.TcpChecksum` | src/drivers/net/tcp.c:296-334 | the complement of the folded sum over pseudo-header and segment, the odd byte in the upper half |
| `Checksum.TcpChecksumIff` | src/drivers/net/tcp.c:326-329 | it is the checksum of RFC 9293 exactly if the length is even or the last byte is 0 |
| `Checksum.OddByte` | src/drivers/net/tcp.c:326-329 | for the segment of one byte 1 the sums are 256 and 1 |
| `Ipv4.FilledHeader` | src/drivers/net/ipv4.c:93-105 | every field of the header in place, and the checksum of the header is 0 |
| `Ipv4.InetAddr` | src/drivers/net/ipv4.c:24-56 | the loop computes the parse of the text, each part in a 32-bit int |
| `Ipv4.InetLaw` | src/drivers/net/ipv4.c:24-56 | of all texts exactly those are read that have four parts between dots, each digits whose number modulo 2^32 is at most 255 or at least 2^31 |
| `Ipv4.DottedAddress` | src/drivers/net/ipv4.c:24-56 | four parts of at most nine digits give the address with those bytes, or a refusal exactly if one is above 255; 255.255.255.255 reads as a refusal too |
| `Ipv4.ShortPart` | src/drivers/net/ipv4.c:32-43 | a part of at most nine digits cannot run over |
| `Ipv4.RunsOver` | src/drivers/net/ipv4.c:43 | 4294967296.0.0.1 is taken for 0.0.0.1 |
| `Arp.TableLaw` | src/drivers/net/arp.c:124-147 | used slots of the cache are exactly the entries of the table |
| `Arp.TableSize` | src/drivers/net/arp.c:137 | the table is full exactly if every slot is used |
| `Arp.UpdatedTable` | src/drivers/net/arp.c:139-145 | writing the first slot that is free or has the address is an update of the table |
| `Arp.FoundInTable` | src/drivers/net/arp.c:105-113 | the search for a real address is a lookup of a fresh entry in the table |
| `Arp.Network.Update` | src/drivers/net/arp.c:124-147 | the table changes at its own address only, and not at all if it is full and the address is new |
| `Arp.Network.Lookup` | src/drivers/net/arp.c:88-122 | answers what the cache knows about the owner, the gateway for a foreign address; a failed search for the gateway asks for it |
| `Arp.Network.StoreAndFind` | src/drivers/net/arp.c:88-147 | a stored address is found for exactly the next 30000 ticks |
| `Arp.Network.QueuePacket` | src/drivers/net/arp.c:149-168 | the packet is added at the end, or nothing changes |
| `Arp.Network.Send` | src/drivers/net/ipv4.c:57-110 | a packet that fits goes out at once to its owner, with length, number, protocol, source and destination in its header and a valid checksum, or it is queued and the owner asked for; a larger one is dropped |
| `Arp.Network.LocalIff` | src/drivers/net/ipv4.c:70-75 | with a mask of j ones and then zeros the next hop is the destination itself exactly if its first j bits are ours |
| `Arp.SwappedOut` | src/drivers/net/arp.c:183-190 | filling a place from the end takes exactly that packet out |
| `Arp.Network.Retry` | src/drivers/net/arp.c:170-193 | at one tick the packets sent and those kept are the ones there were, exactly the resolved ones are sent, and the loop ends |
| `Path.Tokenizer.Next` | src/libs/string.c:309-337 | successive calls give the nonempty parts between slashes |
| `Path.TokensConcat` | src/libs/string.c:309-337 | where a slash stands between two texts their tokens do not run together |
| `Path.ResolvedCanonical` | src/shell/shell.c:384-457 | the result is absolute, in upper case, and has no empty, "." or ".." component |
| `Path.Idempotent` | src/shell/shell.c:384-457 | resolving a resolved path changes nothing |
| `Path.Composed` | src/shell/shell.c:384-457 | going to a and from there to a relative b is going to a/b, for every nonempty a |
| `Path.ComposedEmpty` | src/shell/shell.c:390-393 | for an empty a and a relative b that law holds exactly if b climbs out of every component of the directory |
| `Path.ComposedIff` | src/shell/shell.c:384-457 | the law holds for every relative b exactly if a is not empty or the directory is the root |
| `Path.WalkFrom` | src/shell/shell.c:411-430 | a walk from a directory is the walk from nowhere behind what its climbs leave |
| `Path.Combine` | src/shell/shell.c:386-407 | the 512-byte buffer holds the joined path as far as it goes |
| `Path.Split` | src/shell/shell.c:409-429 | the component stack is the walk over the tokens; its 256 places never run out |
| `Path.Write` | src/shell/shell.c:431-454 | the longest row of leading components that fits is written, never more than the buffer |
| `Path.ResolvePath` | src/shell/shell.c:384-457 | the canonical path if both buffers hold it, else that of the leading components they hold |
| `Arith.Sqrt` | src/libs/math.c:65-75 | the exact floor of the square root for 0 <= a < 2^31 - 1 |
| `Arith.MeanStep` | src/libs/math.c:69-73 | each step is strictly smaller but never below the root, and its sum does not overflow |
| `Arith.PrimeByRoot` | src/libs/math.c:100-106 | no divisor up to the root means no divisor at all |
| `Arith.IsPrime` | src/libs/math.c:94-108 | 1 exactly for primes |
| `Arith.GcdLoop` | src/libs/math.c:110-119 | the greatest common divisor of the absolute values, up to sign |
| `Arith.NextTraps` | src/libs/math.c:115 | no round leads to the remainder of -2^31 by -1 but from those two arguments |
| `Arith.GcdLaw` | src/libs/math.c:110-119 | it divides both, and every common divisor divides it |
| `Numerals.DigitsDenote` | src/libs/printf.c:312-320 | the digits denote the number in its base |
| `Numerals.WordDigits` | src/libs/printf.c:302-319 | a 32-bit number fits the 32-byte scratch buffer in every base |
| `Numerals.ScratchDenotes` | src/libs/printf.c:232-297 | without '#' the scratch buffer holds digits that denote the number, and then the sign |
| `Numerals.MinusKept` | src/libs/printf.c:234-294 | the minus of a decimal number is kept, and its text reads as that number, exactly if the text is left-justified or precision and, with zero padding, width are below 32; else the text reads as the opposite |
| `Numerals.MinusLost` | src/libs/printf.c:241-244 | precision 32 turns -1 into 1 |
| `Numerals.UnsignedReadsBack` | src/libs/printf.c:232-323 | without '#' the text of a number without a minus reads as that number in its base, whatever flags, width and precision |
| `Printf.ConversionReadsBack` | src/libs/printf.c:782-878 | an integer conversion without '#' writes a text that reads as its argument if and only if the argument is not negative or zeros do not fill the scratch buffer |
| `Printf.ReadBack` | src/libs/printf.c:188-197 | a number written with %u is read back by _atoi |
| `PrintfLoops.Output.Out` | src/libs/printf.c:130-136 | characters beyond the buffer are counted but not written |
| `PrintfLoops.Output.OutRev` | src/libs/printf.c:200-229 | padding in front, the buffer backwards, padding behind |
| `PrintfLoops.Output.NtoaFormat` | src/libs/printf.c:232-297 | zeros, prefix and sign as specified, never beyond the scratch buffer |
| `PrintfLoops.Output.NtoaLong` | src/libs/printf.c:300-323 | writes the text of the number |
| `PrintfLoops.Output.WriteDigits` | src/libs/printf.c:312-320 | the loop leaves the digits, least significant first |
| `PrintfLoops.Output.Atoi` | src/libs/printf.c:189-197 | the number at the start of the text in 32-bit arithmetic |
| `PrintfLoops.Output.PutFormat` | src/libs/printf.c:651-987 | puts out exactly the text of the format |
| `PrintfLoops.Output.Vsnprintf` | src/libs/printf.c:640-994 | the returned length does not depend on the buffer's size; the buffer gets as much of the text as fits before the end mark; nothing behind it is written |

## Left out

- Heap.Allocator.Malloc: sizes from 2^32 - 32 on are outside its contract, because the size with its header wraps around there; HeapSizes.PagesForFits says that this is exactly when too few pages are asked for.
- Heap.Allocator.Free: takes live pointers and NULL only; what the magic number catches of other pointers is not modelled.
- Heap: tag headers are objects, apart from the bytes of `HeapBytes`; the lazy initialisation, the lock and calloc are not modelled.
- HeapBytes.Realloc: when malloc fails the copy to address 0 is modelled as a copy to the first bytes of memory.
- Heap: relies on the contiguous blocks that its interface promises; `HeapHook` says when the hook at `src/mm/liballoc_hook.c:28-43` delivers them.
- HeapHook.LiballocFree: is stated for blocks inside the kernel's pages.
- Frames.FrameAllocator.constructor: a memory size that wraps around when rounded up to frames is excluded, since it would leave no frames.
- Frames.FrameAllocator.MarkUnusedRegion: regions that reach frame 0 are excluded, because no caller frees it and every allocator relies on it.
- Frames.FrameAllocator.FreeContiguous: ranges whose end wraps around 2^32 frames are excluded.
- Paging.PageTables.Init: the loop at `src/mm/paging.c:36` writes 2048 entries into a table of 1024; the model writes the 1024 there are.
- Paging: table contents are reached by frame number and not through the tables' own translation; TLB flushes and the switch to paging are not modelled.
- Vmm.PageAllocator.FreeContiguous: is stated for runs that are live on consecutive frames, which is what vmm_alloc_contiguous hands out.
- Vmm: vmm_map_mmio, the functions for user space and the boot ordering in vmm_init are not modelled.
- Tcp.Stack.Sweep: the give-up branches unlink the timer a second time after remove_connection has done so; the model has one removal.
- Tcp.Stack.Connect: the new connection starts from a cleared block, which the code does not do; addresses and random numbers are parameters.
- Tcp.Stack.HandlePacket: one tick for all clock readings of a call; the contents of the receive buffer are not modelled, only its length counter, so neither is what happens beyond its 4096 bytes.
- Tcp.Stack.Reply: what the file system answers is a parameter; the stack buffer for a segment is taken to be large enough.
- Tcp.Stack.SendSegment: the checksum field is treated in `Checksum`, apart from the segment.
- Fat.ReadFile: requests whose size and place in the first sector add up to 2^32 or more are excluded, since the copy would leave its sector buffer; a volume with no sectors per cluster is excluded, since the code divides by it.
- Fat: long names, short name formatting, fat32_find_file and fat32_init_volume are not modelled.
- Checksum: buffers are sequences of bytes, so the alignment of 16-bit loads is not visible.
- Ipv4.InetAddr: an int that overflows is taken to wrap around, as the processor does; the language leaves it open.
- Arith.GcdLoop: excludes -2^31 and -1 as arguments, in either order, since their remainder traps.
- Arp.Network.Send: payloads for which the 16-bit total length wraps around are excluded; the request frame's bytes are not modelled.
- Arp.Network.Retry: clock readings within one call are the same tick.
- Path.Tokenizer.Next: strtok's position is the text behind it, so the end marks it writes into the buffer are not visible.
- Path.ResolvePath: directories of 512 characters and more, and components above 12 characters, are excluded, because their buffers would be left.
- Arith.Sqrt: 2^31 - 1 is excluded, since its first sum overflows.
- Printf: floating point conversions and formats that end inside a directive have no text; an argument of the wrong kind counts as 0 or the empty string; lengths stay below 2^32.
- Numerals.ScratchDenotes: is stated without '#', whose prefix can take the place of digits.
- Console, graphics, games, the command loop, telnet, interrupts, port input and output, and the network card itself: no checkable result.
- pow, factorial, sum, lcm and the one-line functions of `src/libs/math.c`: easy.
