# Verified models of PS2 Launcher's core components

PS2 Launcher draws a menu on one thread while another loads files, so most of what can go wrong in it goes wrong
between two threads, inside a shared buffer, or when a table outlives the list it points into. This project models
those components in Dafny and proves, for every input or every run, what the rest of the program relies on.

| file | models |
|---|---|
| `Utf8.dfy` | the UTF-8 automaton of `include/utf8.h`, against sections 3 and 4 of RFC 3629 |
| `Atlas.dfy`, `AtlasSurface.dfy`, `AtlasState.dfy`, `AtlasHeap.dfy` | the glyph atlas of `src/atlas.c`: guillotine allocator, pixel copy, both together, and the nodes and buffer updated in place |
| `GlyphCache.dfy`, `FontCache.dfy` | the paged glyph cache of `src/fntsys.c` on top of up to four atlases |
| `Ioprp.dfy` | the IOPRP archive rewriter of `src/ioprp.c`, writing into the buffer its own directory lives in |
| `BgmRing.dfy` | the background-music ring of `src/sound.c` |
| `IoQueue.dfy`, `IoProtocol.dfy` | the request list of `src/ioman.c`, and every interleaving of its users with the worker |
| `TexCache.dfy` | the texture cache of `src/texcache.c`, and every interleaving of it with the worker |
| `Zso.dfy`, `ZsoReader.dfy` | the ZSO container of `pc/ziso.py`, written and read |
| `GameRefs.dfy` | stable game handles of `src/opl.c` |
| `Config.dfy`, `ConfigSet.dfy` | configuration sets of `src/config.c`: map, text form, dirty bit, and the linked list |
| `Bdm.dfy`, `BdmPoll.dfy` | debouncing and deferred scans of `src/bdmsupport.c`, and polls interrupted by events |
| `History.dfy` | the play history of `src/OSDHistory.c` |
| `Cheats.dfy` | cheat masks and code lists of `src/cheatman.c` |
| `Bytes.dfy`, `Prelude.dfy` | byte buffers, optional values and clipped texts, shared by the above |

Code that updates objects or arrays in place is modelled by classes and methods on arrays; each method is specified
by a function on values, and what the program promises is proved about that function. Threads are modelled as steps
of a state machine, one step per access to shared state or critical section unless "Left out" says otherwise, and the
theorems hold for every sequence of steps.

`dafny verify dfyconfig.toml` checks the whole project.

## Where the code does not do what one would expect

For each of these there is a lemma with a concrete input or run, and one that says exactly when the property holds.

- `ioBlockOps(1)` does not keep the queue empty if a thread was between the block test and the enqueue of
  `ioPutRequest` (`IoProtocol.PutSlipsPastTheBlock`; exactly then: `IoProtocol.BlockHoldsExactly`).
- A texture request refused by a blocked queue pins its cache slot for good (`TexProtocol.SomeSlotIsLost`); every other
  pinned slot can be released (`TexProtocol.LostExactlyWhenRefused`).
- The music threads can deadlock on shutdown if the two may be interleaved at will (`BgmRing.SomeRunDeadlocks`; exactly
  when: `BgmRing.StuckExactly`, `BgmRing.LeavingDecides`). With the thread priorities the program sets they cannot, and
  every run that goes on as long as it can ends with `bgmStop` returned (`BgmRing.PriorityRunsDoNotDeadlock`,
  `BgmRing.ShutdownIsBounded`, `BgmRing.MaximalRunHasStopped`).
- A ZSO file whose last block is compressed can be unreadable: the reader takes that block's length from the size of
  the image, which may be too short, or below -1, where reading is an error (`ZsoReader.LastBlockIsLost`,
  `ZsoReader.LastReadFails`, both at a concrete codec and image in `ZsoReader.ToyImagesAreLost`; exactly when:
  `ZsoReader.RoundTrip`). An image of more than 505 blocks of 2048 bytes of
  which only the last one compresses is never restored (`ZsoReader.MostlyPlainImage`).
- Configuration keys of 32 or more characters are never found again and pile up (`Config.LongKeyExample`; exactly these:
  `Config.PutIsUpdateExactly`). Entries whose key starts with a blank, or with a line feed in key or value, do not
  survive a save (`Config.BlankKeyExample`, `Config.BrokenKeyExample`; exactly these: `Config.PrintRoundTrip`).
- An event that interrupts a poll between its test and its assignment becomes stable at once instead of after 180 frames
  (`BdmPoll.SomeEventIsSwallowed`; exactly then: `BdmPoll.EveryAdvanceIsDueExactly`), and an unmount that comes between
  the assignment and the clearing of its flag is forgotten and waits for 180 frames (`BdmPoll.SomeUnmountIsForgotten`;
  exactly then: `BdmPoll.UnmountIsActedOnExactly`).
- The play history evicts a least launched record, but not always the oldest of these (`History.TieBreakGoesWrong`;
  exactly when it does: `History.TieBreakIsRight`).

## Model

| member | source | states |
|---|---|---|
| `Utf8Table.ByteClass` | include/utf8.h:21-30 | the first 256 table entries, as laid out in rows, give every byte its class |
| `Utf8Table.Transition` | include/utf8.h:31-36 | the table rows give the successor of every state and class |
| `Utf8.Decoder.Decode` | include/utf8.h:38-49 | one call is one step of the automaton on state and code point |
| `Utf8.CodePoints` | src/fntsys.c:608-612 | the drawing loop emits what a run of the automaton emits, and tells whether it ended in ACCEPT |
| `Utf8.AcceptsExactlyWellFormed` | include/utf8.h:38-49 | a run from ACCEPT ends in ACCEPT if and only if the bytes are well formed by the grammar of section 4 of RFC 3629 |
| `Utf8.DecodeInvertsEncode` | include/utf8.h:38-49 | for every sequence of scalar values, decoding its encoding (section 3 of RFC 3629) emits that sequence |
| `Utf8.Decodes` | include/utf8.h:38-49 | for every byte string: what is emitted are the scalar values of its longest encoded prefix, and the state says what the rest is: nothing, an unfinished character, or malformed |
| `Utf8.RejectIsFinal` | include/utf8.h:31-36 | REJECT is never left and emits nothing |
| `Rfc3629.WellFormedIsEncoded` | include/utf8.h:21-36 | a well-formed byte string is the encoding of some scalar values |
| `Rfc3629.EncodedIsWellFormed` | include/utf8.h:21-36 | the encoding of any scalar values is well formed, so that grammar and encoding agree |
| `Guillotine.RefusesExactlyWhenFull` | src/atlas.c:49-83 | NULL is returned exactly when no free leaf anywhere in the tree fits, despite pruning at inner nodes |
| `Guillotine.PlaceIsFirstFit` | src/atlas.c:49-83 | the tree search is first fit on the list of free boxes: the first one that is large enough is cut, the request gets its top left corner, and the two strips left take its place, the thicker one spanning the box |
| `Guillotine.AreaIsConserved` | src/atlas.c:49-83 | placed area plus free area is the area of the atlas |
| `Guillotine.Tiles` | src/atlas.c:49-83 | every pixel of the box belongs to exactly one placed rectangle or free leaf, and no other pixel to any |
| `Guillotine.PlaceIsInside` | src/atlas.c:49-83 | a placed rectangle has the size asked for and lies inside the box |
| `Guillotine.PlaceIsFresh` | src/atlas.c:49-83 | it is disjoint from every rectangle placed before |
| `Guillotine.PlaceAddsOne` | src/atlas.c:49-83 | placed rectangles are the former ones and the new one, as a multiset |
| `Guillotine.PlaceKeepsValid` | src/atlas.c:49-83 | the tree stays a guillotine partition, and a refusal leaves it as it was |
| `Guillotine.EveryRunIsSafe` | src/atlas.c:49-83 | after any sequence of requests the placed rectangles are pairwise disjoint, inside the atlas, and area is conserved |
| `AtlasHeap.Node.constructor` | src/atlas.c:13-27 | a new node is a free leaf |
| `AtlasHeap.Node.Place` | src/atlas.c:49-83 | the in-place recursion does to the tree of nodes what `Place` does to the tree value, returns the node whose corner is the rectangle's, and changes nothing when it returns NULL |
| `Surface.CopyBlock` | src/atlas.c:147-168 | the copy loop writes exactly the rows of the block |
| `Surface.CopyIsShown` | src/atlas.c:147-168 | the copied block can be read back |
| `Surface.CopyKeeps` | src/atlas.c:147-168 | every block apart from it still reads as before |
| `AtlasHeap.Atlas.constructor` | src/atlas.c:85-111 | a new atlas is one free leaf over a zeroed buffer |
| `AtlasHeap.Atlas.CopyData` | src/atlas.c:147-168 | writes the bitmap into the buffer, or nothing for an unknown pixel format |
| `AtlasHeap.Atlas.Place` | src/atlas.c:170-185 | tree and pixels change as `PlaceBitmap` says, with the one-pixel margin |
| `AtlasState.PlacingIsSafe` | src/atlas.c:170-185 | a placement keeps the pixels of all earlier ones and shows its own; it is refused exactly without a bitmap or without room |
| `AtlasState.PixelsAre` | src/atlas.c:147-168 | byte for byte, pixel (j, i) of a bitmap placed at (x, y) is pixel (x + j, y + i) of the atlas |
| `AtlasState.PixelSizes` | src/atlas.c:128-145 | four bytes for 32 and 24 bits, two for 16, one for a palette index, none for any other format |
| `FontCache.Font.PreparePage` | src/fntsys.c:138-170 | the page exists afterwards and no character's entry has changed |
| `FontCache.Font.Search` | src/fntsys.c:410-442 | a bitmap goes to the first atlas with room, all before it being full; it is refused only when all four are full or there is no bitmap |
| `FontCache.Font.CacheGlyph` | src/fntsys.c:444-491 | a valid entry is returned unchanged, otherwise the character's rendering is cached with its metrics and stamped; no other character's entry changes; failure leaves the entry alone |
| `FontCache.Font.Flush` | src/fntsys.c:114-136 | entries, pages and atlases are given up together |
| `GlyphTable.GlyphsDoNotOverlap` | src/fntsys.c:410-491 | two valid glyphs in one atlas never share a pixel, and no valid glyph refers to a freed atlas |
| `GlyphTable.GlyphIsLegible` | src/fntsys.c:410-491 | a valid glyph's pixels are still its bitmap |
| `GlyphTable.GrowthKeepsGlyphs` | src/fntsys.c:410-442 | atlases that only gain stamps keep every cached glyph right |
| `GlyphTable.StoreKeepsTable` | src/fntsys.c:444-491 | writing one entry changes that character alone and keeps the table |
| `GlyphTable.SeatKeepsTable` | src/fntsys.c:410-442 | the newest stamp becomes a character's own without anyone losing theirs |
| `Ioprp.PatchImage` | src/ioprp.c:32-67 | walking the output directory gives the same names and extinfo sizes in order; the files named CDVDMAN, CDVDFSV and EESYNC are the modules given for them, every other file but the directory is byte for byte the file of the old archive, gaps are zero, and the returned length is the end |
| `Ioprp.TurnKeepsInv` | src/ioprp.c:44-64 | one round of the loop, including the one that copies the input directory over the output directory being written, keeps the rewritten entries, files and gaps |
| `Ioprp.InvPreserves` | src/ioprp.c:32-67 | what the loop keeps amounts to the preservation of meaning |
| `Ioprp.ArchiveIsFeasible` | src/ioprp.c:32-67 | a well-formed archive and a large enough buffer leave room for every file and entry |
| `Ioprp.Aligned` | src/ioprp.c:99-118 | sizes are rounded up to multiples of 16 |
| `Ioprp.StartsAre` | src/ioprp.c:99-118 | files start at multiples of 16, each behind the one before it with fewer than 16 bytes between them |
| `Ioprp.EntryFields` | src/ioprp.c:6-11 | a directory entry is ten bytes of name up to a zero, two of extended info size and four of file size, low byte first |
| `Ioprp.Turn` | src/ioprp.c:45-61 | the four writes of a round have their effect even where file and entry overlap |
| `BgmRing.StepKeepsInv` | src/sound.c:287-348 | every step of either thread or of `bgmStop` keeps tokens, pointers and wake-ups in order |
| `BgmRing.EveryRunIsSafe` | src/sound.c:287-348 | in every run the 16 tokens are conserved, and slots are played once each in ring order |
| `BgmRing.EveryRunIsDecoded` | src/sound.c:312-348 | in every run the reads of each batch add up to exactly 4096 bytes unless the last one failed, and then the threads are told to end; batches follow each other around the ring, and the slots published are exactly those of decoded batches |
| `BgmRing.ClaimStopsExactly` | src/sound.c:318-322 | a batch grows by one free slot at a time until it reaches the end of the ring or no slot is free |
| `BgmRing.DecoderGoesOnExactly` | src/sound.c:343 | another round is made if and only if nobody asked the threads to end and music is enabled |
| `BgmRing.MusicGoesOn` | src/sound.c:287-348 | with priorities, from every reachable state in which music is enabled, nobody asked the threads to end and the decoder is in its loop, some run plays another buffer |
| `BgmRing.PlayedSlotIsNotClaimed` | src/sound.c:295-337 | the slot being played is never in the decoder's claimed range |
| `BgmRing.StuckExactly` | src/sound.c:500-524 | nothing can move exactly when both threads have ended or the decoder waits for a token that no one will return |
| `BgmRing.LeavingDecides` | src/sound.c:287-348 | whether the decoder is lost is decided when the player leaves: it is waiting with no token free |
| `BgmRing.WedgedForever` | src/sound.c:500-524 | a lost decoder stays lost and `bgmStop` never returns |
| `BgmRing.PriorityRunsDoNotDeadlock` | src/sound.c:409-430 | when the player has priority, as the thread parameters say, no run deadlocks before both threads have ended |
| `BgmRing.EveryPriorityRunCanStop` | src/sound.c:500-524 | from every state that a run with priorities reaches, some further run with priorities lets `bgmStop` return |
| `BgmRing.OnwardHelps` | src/sound.c:500-524 | until `bgmStop` has returned some step is possible under the priorities that brings its return nearer |
| `BgmRing.ShutdownIsBounded` | src/sound.c:287-348 | once the flag is set the threads and `bgmStop` together make a bounded number of steps, in every interleaving in which no read returns nothing |
| `BgmRing.MaximalRunHasStopped` | src/sound.c:500-524 | with priorities, a run that cannot go on has seen both threads end and `bgmStop` return |
| `BgmRing.SomeRunDeadlocks` | src/sound.c:500-524 | without priorities some run does |
| `IoQueue.RequestList.Enqueue` | src/ioman.c:214-245 | a request is appended behind all others unless it has type 2 or 4 and an equal one is queued; head and tail stay in order |
| `IoQueue.RequestList.Dequeue` | src/ioman.c:133-141 | the head is unlinked, and the tail is NULL exactly when the list is empty |
| `IoQueue.RequestList.RemoveKind` | src/ioman.c:252-289 | exactly the requests of one kind are unlinked and counted, every other one stays as often as it was there |
| `IoQueue.WithoutIsTheRest` | src/ioman.c:252-289 | what a removal leaves are the requests of the other kinds, all of them, in their order |
| `IoProtocol.StepIsQueueStep` | src/ioman.c:115-147 | each critical section acts on the queue as the list operation it contains |
| `IoProtocol.StepKeepsInv` | src/ioman.c:115-289 | every step of every thread keeps conservation, no double deferred updates, the running handler at the head, and the wake-up condition |
| `IoProtocol.EveryRunIsSafe` | src/ioman.c:115-289 | in every run: handled then queued requests are the accepted ones not removed, in order; no deferred update is queued twice; an empty queue means no handler is running; no request waits for a sleeping worker without a wake-up pending or on its way |
| `IoProtocol.EveryPutIsAccepted` | src/ioman.c:205-249 | in every run the accepted requests are those that were put, in the order in which they reached the queue, less only requests of type 2 or 4 that had an equal one queued at that moment |
| `IoProtocol.HeadIsHandled` | src/ioman.c:115-147 | from every reachable state the head request can be brought to its end |
| `IoProtocol.BlockHoldsExactly` | src/ioman.c:348-373 | after `ioBlockOps(1)` the queue stays empty and no handler runs if and only if no thread is past the block test |
| `IoProtocol.PutSlipsPastTheBlock` | src/ioman.c:205-214 | a run in which a request lands in the blocked queue |
| `TexCache.SearchFindsOldest` | src/texcache.c:144-154 | the search ends at the first of the oldest slots that are neither pinned nor touched in this frame |
| `TexCache.ImageCache.FindVictim` | src/texcache.c:144-154 | the loop finds that slot, or none exactly when there is none |
| `TexCache.ImageCache.GetTexture` | src/texcache.c:119-175 | a slot that still belongs to the caller is drawn if and only if it is filled and its load did not fail; pending, failed, delayed, full and claiming calls change slots, UID and cache id exactly so, and a slot is claimed if and only if the caller has none, need not wait and some slot may be evicted |
| `TexCache.ImageCache.LoadImage` | src/texcache.c:20-48 | a load fills its slot with the image, or marks it as failed, and releases it, unless the slot was reused |
| `TexProtocol.StepKeepsInv` | src/texcache.c:20-175 | every step of either thread keeps: each request under way pins its slot, each pinned slot has its request, filled slots hold their value's image |
| `TexProtocol.EveryRunIsSafe` | src/texcache.c:20-175 | in every run a texture handed out was loaded for the value its caller passed when it got its UID, the reuse guard never fires, and no pinned slot or slot handed out in this frame is about to be evicted |
| `TexProtocol.DrawnStays` | src/texcache.c:119-172 | a texture handed out is not touched before the next frame |
| `TexProtocol.RefusedSlotIsLost` | src/texcache.c:171 | a slot whose request the queue refused stays pinned in every run |
| `TexProtocol.WaitingSlotsAreServed` | src/texcache.c:119-175 | in every run a waiting slot has its request under way if and only if that request was not refused |
| `TexProtocol.RequestIsServed` | src/texcache.c:20-48 | from every reachable state a request that was not refused can be brought to its end, which releases its slot |
| `TexProtocol.RequestIsShown` | src/texcache.c:20-175 | from every reachable state a pending request that was not refused and whose load has not failed can be brought to where its own caller is handed the image of the value it asked for |
| `TexProtocol.ShownExactly` | src/texcache.c:20-175 | a pinned request can still be shown if and only if it was not refused and its load has not failed |
| `TexProtocol.NewcomerClaims` | src/texcache.c:136-172 | a caller without a slot that need not wait is given an oldest evictable slot for its own value, whenever there is one |
| `TexProtocol.LostExactlyWhenRefused` | src/texcache.c:171 | a pinned slot can be released again if and only if its request was not refused |
| `TexProtocol.SomeSlotIsLost` | src/texcache.c:171 | a run that loses the slot of a one-slot cache |
| `TexProtocol.UninterruptedSearch` | src/texcache.c:144-154 | the search step by step, if not interrupted, is the search of the cache |
| `TexProtocol.UninterruptedLoad` | src/texcache.c:20-48 | the load step by step, if not interrupted, is the load of the cache |
| `Zso.SetAlign` | pc/ziso.py:210-216 | pads up to the next multiple of the alignment |
| `Zso.CompressOneByOne` | pc/ziso.py:219-317 | writes the file that the layout describes, or gives up exactly when it must |
| `Zso.CompressBatched` | pc/ziso.py:249-286 | for any batch size and any codec, the same file byte for byte |
| `Zso.StoringIsLayout` | pc/ziso.py:287-308 | storing blocks one after the other gives the layout, unless a compressed block's offset reaches the top bit |
| `Zso.GivesUpExactly` | pc/ziso.py:219-317 | compression gives up exactly when a header field or an index entry does not fit, or a compressed block lies at an offset that has the top bit set |
| `Zso.PlainExactly` | pc/ziso.py:287-308 | a block is stored plain if and only if compression does not get it below the threshold |
| `Zso.WriteIndex` | pc/ziso.py:310-317 | the index replaces the zeros behind the header, and fails exactly on an entry of more than 32 bits |
| `ZsoReader.Decompress` | pc/ziso.py:130-192 | the reading loops compute the image in a file, or nothing where they give up, an impossible read length included |
| `ZsoReader.TrimLoop` | pc/ziso.py:62-71 | bytes are cut off the end until the codec accepts |
| `ZsoReader.TrimIsLongest` | pc/ziso.py:62-71 | what is accepted is the longest prefix that the codec accepts, and nothing if and only if it accepts none |
| `ZsoReader.BadHeaderIsRefused` | pc/ziso.py:130-146 | a file with a wrong magic number, header size or version, or with size or block size zero, is refused |
| `ZsoReader.WrittenIsSound` | pc/ziso.py:219-317 | header, index and every piece of a written file are found again by the reader |
| `ZsoReader.IndexIncreases` | pc/ziso.py:295-311 | index entries strictly increase up to the last block |
| `ZsoReader.HeaderIs` | pc/ziso.py:219-246 | the bytes of the header: magic number, size 24, image size, block size, version 1 and the shift of the offsets |
| `ZsoReader.LastEntryIsEnd` | pc/ziso.py:310-317 | the last index entry, shifted back, is the length of the file up to its low bits |
| `ZsoReader.NeighboursTellLength` | pc/ziso.py:287-317 | for every block the difference of neighbouring index entries, shifted back, is its stored length and the gap behind it, for the last block up to the low bits of the file length |
| `ZsoReader.MarkedExactly` | pc/ziso.py:287-308 | in the index exactly the blocks that are stored plain have their top bit set |
| `ZsoReader.ReadIs` | pc/ziso.py:159-173 | what is read of a block is its stored bytes and fewer than `1 << align` padding bytes; of a last block that is not covered a proper prefix, or nothing when the length is below -1 |
| `ZsoReader.RoundTrip` | pc/ziso.py:130-317 | the image is restored if and only if the last block is plain, or `total - pos` covers it or is -1 |
| `ZsoReader.MostlyPlainImage` | pc/ziso.py:164-173 | an image of n blocks of 2048 bytes of which only the last one compresses, to L bytes, is restored if and only if L + 4n is at most 2020 |
| `ZsoReader.LastBlockIsLost` | pc/ziso.py:164-173 | twenty blocks whose last one is cut short |
| `ZsoReader.LastReadFails` | pc/ziso.py:164-173 | 600 blocks whose last one is asked for with length -380 |
| `ZsoReader.ToyImagesAreLost` | pc/ziso.py:164-173 | a concrete codec and two images that meet these conditions |
| `GameRefs.PassIsFaithful` | src/opl.c:1051-1103 | one merge pass from any stale table gives different games different handles, each holding its own row; a game is passed over only when the table is full |
| `GameRefs.EveryRowIsShown` | src/opl.c:1051-1103 | as long as the table has room, a row is led to by some item of the merged list if and only if its list is enabled and merged; one item is shown for each such row |
| `GameRefs.JobsAreListed` | src/opl.c:1051-1074 | the rows of enabled merged lists are entered by mode and row, each once |
| `GameRefs.MergedHandlesResolve` | src/opl.c:261-327 | each handle of a merged list resolves to its own row, and after the lists changed to the game's new row, or to nothing when it is gone |
| `GameRefs.ReorderedHandlesResolve` | src/opl.c:261-327 | however the lists are reordered after a merge, each handle resolves to the row its game has then |
| `GameRefs.HandleLasts` | src/opl.c:204-327 | through any run of rebuilds, reorderings and lookups a game keeps its handle and is given the same one again |
| `GameRefs.HandleResolves` | src/opl.c:261-320 | a handle finds its game wherever it is |
| `GameRefs.IdRoundTrip` | src/opl.c:253-271 | an item id gives back its table index |
| `GameRefs.MakeExactly` | src/opl.c:222-240 | a game is given the first reference of its mode with its startup or title, empty ones aside, else a new one; none if and only if there is no such reference and the table is full |
| `GameRefs.MakeStores` | src/opl.c:242-253 | the reference then holds mode, row and the texts cut to 11 and 127 characters, and no other one changes |
| `GameRefs.ResolveExactly` | src/opl.c:269-320 | a reference resolves if and only if some row has its startup or title: to the row it remembers if that is one, else to the first, which it then remembers |
| `GameRefs.RefTable.EnsureCapacity` | src/opl.c:186-202 | the table has room afterwards and the same contents |
| `GameRefs.RefTable.MakeId` | src/opl.c:204-254 | finds or appends the reference and updates it |
| `GameRefs.RefTable.ResolveItem` | src/opl.c:261-327 | an encoded id gives the source and row that its reference finds, a plain one the fallback list's row; the table changes as `Resolve` says |
| `GameRefs.RefTable.Merge` | src/opl.c:1051-1103 | the nested loops are one pass over all rows of the merged lists |
| `Config.PutIsUpdate` | src/config.c:280-301 | a key of at most 31 characters is set as in a map |
| `Config.PutIsUpdateExactly` | src/config.c:280-301 | a valid key is set as in a map if and only if it has at most 31 characters |
| `Config.PutIsInPlace` | src/config.c:280-301 | a key that is there keeps its place, a new one is appended, and an empty key or one with an equals sign changes nothing |
| `Config.LongKeyDuplicates` | src/config.c:125-161 | a longer key keeps the keys distinct exactly when its clipped form is new, and never twice |
| `Config.LongKeyExample` | src/config.c:125-161 | a key of 32 characters, set twice, is there twice |
| `Config.RemoveIsMinus` | src/config.c:367-398 | removal takes the key out of the map |
| `Config.RemoveIsInPlace` | src/config.c:367-398 | the other entries stay in order |
| `Config.MergeIsOverride` | src/config.c:400-407 | merging is the override of one map by another |
| `Config.MapIsLookup` | src/config.c:149-161 | the map is what looking up finds |
| `Config.PrintRoundTrip` | src/config.c:541-568 | reading the written file gives back exactly the visible entries, in order, if and only if none has a key that starts with a blank, or a line feed in key or value |
| `Config.TextSplits` | src/util.c:286-375 | the lines of a written text are the lines it was made of, if they hold no line feed and are no comments |
| `Config.LineEnds` | src/util.c:286-375 | any text is cut at its line feeds, and lines that start with a hash are dropped |
| `Config.ReturnIsCut` | src/util.c:342 | a carriage return before the line feed is cut |
| `Config.LastLineEnds` | src/util.c:286-375 | a last line without a line feed counts |
| `Config.GroupIsPrefixed` | src/config.c:474-506 | lines indented under a prefix are read as entries with the prefix and an underscore in front of their keys, in order |
| `Config.OuterLine` | src/config.c:487-488 | an assignment that is not indented ends the prefix |
| `Config.OtherLine` | src/config.c:100-117 | a line with neither an assignment nor a prefix changes nothing |
| `Config.BlankKeyIsLost` | src/config.c:72-97 | an entry whose key starts with a blank comes back under another key |
| `Config.BlankKeyExample` | src/config.c:72-97 | one such entry |
| `Config.BrokenKeyIsLost` | src/util.c:286-375 | an entry with a line feed in its key comes back without what is before the line feed |
| `Config.BrokenKeyExample` | src/util.c:286-375 | one such entry |
| `Config.SkippedWriteLosesNothing` | src/config.c:510-568 | after a load and any run of changes, loads and writes that may fail, the file reads back as the visible entries after every `configWrite` that can open it, also when the dirty bit makes it skip the write |
| `Config.UnmarkedPut` | src/config.c:280-301 | setting a value without setting the dirty bit changes nothing visible |
| `Config.PutMarksExactly` | src/config.c:280-301 | setting a value of at most 255 characters sets the dirty bit if and only if something visible changes |
| `Config.LongValueMarks` | src/config.c:280-301 | a longer value always sets it, hidden keys aside |
| `Config.RemoveMarksExactly` | src/config.c:367-398 | removal sets the dirty bit if and only if something visible changes |
| `ConfigSet.Set.SetStr` | src/config.c:280-301 | the list and the dirty bit change as the map operation says, with head and tail in order |
| `ConfigSet.Set.RemoveKey` | src/config.c:367-398 | every entry with the key is unlinked in place |
| `ConfigSet.Set.MergeFrom` | src/config.c:400-407 | the entries of another set, or of the set itself, are set one by one |
| `ConfigSet.Set.ReadLines` | src/config.c:474-506 | reading lines one by one, prefixes included |
| `ConfigSet.Set.ReadFile` | src/config.c:468-508 | the set after reading a file is what its lines, prefixes included, make of it, and is unmodified |
| `ConfigSet.Set.Write` | src/config.c:541-568 | the text written, none when the set is unmodified, and failure with the dirty bit left set when the file cannot be opened |
| `Bdm.EveryAdvanceIsDue` | src/bdmsupport.c:249-268 | in every run from the start, of events and uninterrupted polls, the stable generation advances only with an unmount pending or after 180 frames without an event, and each device's retry counter counts its failed reads up to 5 |
| `BdmPoll.EveryAdvanceIsDueExactly` | src/bdmsupport.c:249-268 | wherever events interrupt a poll of less than 180 frames: what it is about to make stable is due (an unmount pending, or no event for 180 frames) if and only if no event came since the poll tested the generation, or an unmount is pending |
| `BdmPoll.EveryAdvanceWasTested` | src/bdmsupport.c:249-268 | the generation that the poll tested had been quiet for 180 frames, or an unmount was pending then |
| `BdmPoll.EventsAreCounted` | src/bdmsupport.c:88-102 | during a poll the generation is the tested one plus the events since the test |
| `BdmPoll.SomeEventIsSwallowed` | src/bdmsupport.c:260-265 | a run in which an event zero frames old is about to become stable |
| `BdmPoll.UnmountIsActedOnExactly` | src/bdmsupport.c:249-268 | an unmount that arrives at any moment has become stable when the poll under way and the next one are through, if and only if it did not come between the assignment and the clearing of the flag |
| `BdmPoll.SomeUnmountIsForgotten` | src/bdmsupport.c:265-266 | a run in which an unmount is forgotten |
| `BdmPoll.UninterruptedPoll` | src/bdmsupport.c:249-268 | a poll that is not interrupted changes the counters as the poll of `Bdm` does |
| `Bdm.NoEarlyRead` | src/bdmsupport.c:303-408 | a deferred list read does not happen before its ready frame unless a refresh is forced or the device is initialised |
| `Bdm.FailureBacksOff` | src/bdmsupport.c:431-442 | the k-th failed read in a row defers the next one by min(900, 180k) frames |
| `Bdm.FirstScanWaits` | src/bdmsupport.c:323-332 | a device that has just appeared is first read after 300 frames |
| `Bdm.ChangeIsStable` | src/bdmsupport.c:249-337 | a poll reports a change only with stable counters; after the answer 1 the list is ready unless deferred anew, after -1 the device is gone and nothing is deferred |
| `Bdm.AnswersExactly` | src/bdmsupport.c:223-344 | a poll answers 1 if and only if a scan is due and the device is not gone, and -1 if and only if it is gone and the poll gets as far as finding out |
| `Bdm.PollSettlesExactly` | src/bdmsupport.c:249-267 | a poll makes the generation stable if and only if it is stable already, an unmount is pending or 180 frames have gone by since it was noted |
| `Bdm.PollLeaves` | src/bdmsupport.c:269-337 | what a poll makes of a device: nothing while its read is deferred or it is at rest, else visibility, path, deferral by 300 or 180 frames and retries are brought up to date |
| `Bdm.EventIsDebounced` | src/bdmsupport.c:88-102 | after an event the next poll makes the generation stable if and only if an unmount is pending |
| `Bdm.QuietSettles` | src/bdmsupport.c:249-267 | in every run without an event between two polls 180 frames apart, the second has made the generation stable |
| `Bdm.ReadsExactly` | src/bdmsupport.c:394-442 | a list is read if and only if its device is shown, the counters are stable and nothing is deferred |
| `Bdm.DeferredReadHappens` | src/bdmsupport.c:303-442 | when the frame comes that a read was deferred to, a poll reports it and the read takes place |
| `Bdm.Monitor.NeedsUpdate` | src/bdmsupport.c:223-337 | the step-by-step poll with its early returns changes counters and device as `Poll` says and answers as `Answer` says |
| `History.EveryRunIsCounted` | src/OSDHistory.c:186-260 | a record is what its launches make it: after n of them the count is min(n, 63), the mask has bit 0 and the bits drawn at the 14th, 24th, 34th, 44th and 54th, the last of these is the shift, 7 from the 64th on, and the date is that of the last launch; names stay distinct |
| `History.NewcomerReplaces` | src/OSDHistory.c:225-261 | a new name takes a blank slot if there is one, else replaces a record with the least count, and is refused exactly when all records are used up |
| `History.OthersStay` | src/OSDHistory.c:186-217 | a launch of a known name leaves all other records alone |
| `History.EveryBlankCanBeDrawn` | src/OSDHistory.c:225-261 | each blank slot is the one that some draw gives to a new name |
| `History.VictimIs` | src/OSDHistory.c:169-185 | the scan ends at a record with the least launch count |
| `History.TieBreakIsRight` | src/OSDHistory.c:174-185 | the victim is an oldest one of these if and only if the first of them is, or one of them is older than every record before them that had no record before it with fewer launches |
| `History.TieBreakGoesWrong` | src/OSDHistory.c:174-185 | a table for which it is not |
| `History.Count` | src/OSDHistory.c:174-217 | the loop counts the launch and finds the victim of the table as it was |
| `History.AddRecord` | src/OSDHistory.c:169-261 | the whole update, in place |
| `Cheats.MaskRoundTrip` | src/cheatman.c:75-160 | saving then loading gives every cheat its switch back and enables every master code |
| `Cheats.MaskDigitIs` | src/cheatman.c:127-160 | the mask has one digit for four cheats, the first of them in its lowest bit, set if and only if the cheat is switched off and no master code |
| `Cheats.HexValueIs` | src/cheatman.c:88-94 | exactly the sixteen digits count, in either case |
| `Cheats.HexCharIs` | src/cheatman.c:148 | digits are written in lower case |
| `Cheats.MasterNames` | src/cheatman.c:38-48 | names that start with the two prefixes are master codes |
| `Cheats.OrdinaryNames` | src/cheatman.c:38-48 | names that only come close are not |
| `Cheats.UnusedStayEnabled` | src/cheatman.c:75-160 | slots behind the end of the table load as enabled |
| `Cheats.Save` | src/cheatman.c:127-160 | the loops build the mask, or remove it when nothing is switched off |
| `Cheats.Load` | src/cheatman.c:75-102 | the loop enables exactly what the mask says, up to the first character that is no digit |
| `Cheats.SetList` | src/cheatman.c:162-201 | the list is a prefix of all active codes, 254 pairs at most, each as address and value, with zeros behind it up to 510 words |
| `Cheats.ListedExactly` | src/cheatman.c:181-197 | the active codes are those of enabled cheats and master codes, each up to its first zero address |
| `Cheats.ListedInOrder` | src/cheatman.c:181-197 | the codes of an earlier cheat come first, each cheat's in their order |

## Left out

- Rendering, dialogs, menus, pads, networking, module loading, launching and disk access: glue around libraries, not modelled.
- Memory exhaustion, and the starting and tearing down of threads: never happen in these models; both music threads and the I/O worker are running from the start, and `ioEnd` and the worker's exit are not modelled.
- Numbers are unbounded where the program's counters would wrap only after years of running: frames, generations, UIDs, and `width + 1` in `atlasPlace`. The code point accumulator of the UTF-8 decoder is a natural number reduced as the 32-bit word is.
- BgmRing.StepKeepsInv: the two threads and `bgmStop` are step functions on a state value, not methods; only the first slot of a claimed batch is decoded, so nothing is claimed about the contents of the others.
- IoProtocol.StepKeepsInv: threads are steps on a state value; a critical section is one step, although `ioPutRequest` links the first node of an empty list before it fills it and the worker reads the head unlocked; the refusal of a type without handler, which touches nothing, and `ioRemoveRequests` called from a handler, which would block on itself, are not modelled; one thread blocks and unblocks.
- TexProtocol.StepKeepsInv: a caller presents -1 or a UID that the cache gave to it; several caches share one worker in the program, while one is modelled. Destroying a cache with requests queued is not modelled.
- FontCache.Font.CacheGlyph: the font holds its atlases as numbered values rather than references, so that sharing of one atlas object by two fonts is outside the model.
- Ioprp.PatchImage: asks for what the rewriter takes for granted: names ending inside their field, files inside the image, an empty first entry, a second entry covering the directory and its terminator, and an output buffer that is large enough.
- ZsoReader.RoundTrip: LZ4 is any codec that restores what it compressed, refuses it with padding behind it and does not restore it from less; offsets stay below 2^31 units, as the format needs. Where no prefix is accepted the reader loops for ever, and the model returns nothing.
- Zso.CompressBatched: the threshold is at most 100, which the option parser ensures; progress output is left out.
- GameRefs.PassIsFaithful: games have non-empty startups of at most 11 and titles of at most 127 characters that are distinct within a mode; for longer or shared names only single calls are described (`GameRefs.MakeExactly`, `GameRefs.ResolveExactly`).
- ConfigSet.Set.ReadLines: lines that overflow the reader's key, value or prefix buffers, which are then not terminated, are not modelled.
- Config.PrintRoundTrip: the buffer that `readFileBuffer` refills, and so lines of more than 4095 characters, are not part of this model, and neither are files changed by someone else.
- Bdm.EveryAdvanceIsDue: a poll is one step there; `BdmPoll` cuts its use of the counters into single accesses. Sounds, themes, languages and the loading of optional modules are left out.
- Bdm.FailureBacksOff: holds for any reader of lists; the one in `src/supportbase.c:379-473` never reports failure, so that in this program the branch is not taken.
- History.EveryRunIsCounted: the two random draws are given; the bit drawn is a free one, which is when the drawing loop ends. Names have at most 15 characters; file and memory-card access is left out.
- Cheats: parsing of cheat files is not modelled.
