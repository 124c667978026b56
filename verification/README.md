# Models of the media drivers

Dafny models of the parts of a Linux media driver tree whose correctness is not obvious
from the code, with proofs of what they promise.

- **Media graph** (`MediaGraph`, `Traversal`, `LinkTables`, `LinkSetup`, `LinkRuns`,
  `GraphWalks`, `Pipelines`, `PipelineRuns`, `MediaEntity`): entities, pads, links and
  mirrored backlinks, link arrays that move when they grow, a depth-first traversal with a
  stack of sixteen slots and no visited set, nested pipeline counters, link setup with driver
  callbacks, and what whole runs of these calls do.
- **Media device** (`MediaNodes`, `EntityIds`): minor numbers and reference counts of device
  nodes, entity numbers and their enumeration.
- **Bt87x audio** (`Bt87x`, `Bt87xChip`): the compiler from a period layout to a cyclic DMA
  program, an interpreter for such programs, and the line counter of the interrupt handler.
- **SAA7146 capture** (`ClipTable`, `Clipping`, `PageTables`, `Overlay`, `VideoDevice`,
  `BufferQueue`, `Scaler`, `I2cCodec`, `I2cTransfer`): clip table, page tables, ownership of
  the DMA channels with suspended previews, the buffer queue, scaler registers, I2C packing.
- **Intel HEX converter** (`IntelHex`, `HexText`, `HexLanguage`, `HexAddresses`, `HexRender`,
  `Firmware`, `Ihex2fw`): the parser with its running checksum, exactly which texts it accepts,
  the ordered record list, and the padded big-endian writer, with the addresses the format
  specifies beside those computed. The text
  format is that of the Intel Hexadecimal Object File Format Specification, Revision A
  (1988), sections "General Record Format", "Extended Segment Address Record" and
  "Extended Linear Address Record".

`Basics`, `Arithmetic` and `Bits` hold what the models share. A 32-bit word is the set of its
one bits, so that or-ing is union and a field is read bit by bit.

State that the drivers update in place is a class whose methods are proved against functions
of the old state; what the drivers promise is proved about these functions. Kernel services
(memory, registration, callbacks of other drivers, user copies) are parameters that say
whether they succeed or what they answer. Locks are taken as given: each call is one step.

Where code, comments and format differ the models follow the code, and say what it does:

- A preview whose window is refused, or whose overlay cannot be enabled, makes the driver free
  channels of a null handle (`StartPreview`).
- The planar page-table builder repeats the first page of a longer scatter entry
  (`ReachesAllExactly`).
- The single-table builder adds the offset of a buffer that does not start on a page to an
  address that has it already (`UnalignedStart`).
- Unsigned comparisons of 16-bit edges make a clip rectangle left of the window clip all of
  its lines across the window (`LeftRectangleClips`); `TableAgrees` says exactly which
  rectangles are clipped as asked.
- Addresses of data lines are added to a segment base without the wrap-around at 64 KiB that
  the format asks for, so the second byte of a line may land 64 KiB too high
  (`SegmentEndMisplaced`); `ConversionMeetsFormat` says exactly when bytes land where the
  format has them.
- A character that is no digit is read as 0 where a digit is expected, so texts are accepted
  that the format does not have (`ParsesExactly` says which).
- Stopping a pipeline that was never started leaves counters that no starts explain
  (`StopNeedsStart`, `ExplainedExactly`).
- Reducing by about 1138:1 or more makes the column scaler divide by zero (`CalculateVScale`).

## Model

| member | source | states |
|---|---|---|
| `Traversal.StepProgress` | linux/drivers/media/media-entity.c:170-193 | one link looked at shrinks the remaining links at the top depth and changes none below, so the 15 remaining-link counts decrease lexicographically on every finite graph, cycles included |
| `Traversal.StepKeeps` | linux/drivers/media/media-entity.c:170-193 | looking at one link, whether it is skipped, pushed or dropped at full depth, leaves the sequence of entities still to be returned unchanged |
| `Traversal.TrailsExact` | linux/drivers/media/media-entity.c:159-196 | the trail list has exactly the link sequences that never step straight back and stay within 15 entities |
| `Traversal.TrailsNoRepeats` | linux/drivers/media/media-entity.c:159-196 | the trail list has each of them once |
| `Traversal.WalkCountsTrails` | linux/drivers/media/media-entity.c:138-196 | on every graph an entity is returned as often as such trails lead to it, hence exactly once if and only if one does |
| `Traversal.ParallelLinksVisitTwice` | linux/drivers/media/media-entity.c:159-196 | two enabled links between the same entities make the traversal return one of them twice |
| `Traversal.WalkVisitsComponent` | linux/drivers/media/media-entity.c:138-196 | on a forest whose lines have at most 15 entities a traversal returns every entity reachable through enabled links exactly once and nothing else |
| `Traversal.WalkReachesNear` | linux/drivers/media/media-entity.c:102-196 | on every graph an entity is returned if and only if a line of at most 15 entities, along enabled links and never straight back, leads to it |
| `Traversal.WalkVisitsExactly` | linux/drivers/media/media-entity.c:102-196 | on a forest a traversal returns its component exactly once each if and only if no line from its start has more than 15 entities |
| `Traversal.WalkDepthFirst` | linux/drivers/media/media-entity.c:147-196 | what lies beyond an entity on a line from the start is returned before it |
| `GraphWalks.WalkStart` | linux/drivers/media/media-entity.c:138-144 | a started traversal has all of the walk before it |
| `GraphWalks.WalkNext` | linux/drivers/media/media-entity.c:159-196 | on any graph each call returns the next entity of the walk, and none exactly at its end |
| `GraphWalks.Descend` | linux/drivers/media/media-entity.c:170-193 | the inner loop ends on every finite graph, stays within the stack and keeps what is still to be returned |
| `GraphWalks.Advance` | linux/drivers/media/media-entity.c:171-192 | one pass of the loop does one step of the stack machine |
| `LinkTables.ReverseInvolution` | linux/drivers/media/media-entity.c:366-371 | the reverse of the reverse of a live slot is that slot, on a different entity, with equal source, sink and flags |
| `LinkTables.WiredView` | linux/drivers/media/media-entity.c:338-376 | link tables whose slots are paired give a graph that is well formed and can be followed from both ends of every link |
| `LinkTables.MovedDone` | linux/drivers/media/media-entity.c:319-333 | once every partner has been told, the moved array is wired as the old one was |
| `LinkTables.LinkCreated` | linux/drivers/media/media-entity.c:338-376 | filling link and backlink after both arrays may have moved keeps all tables wired and adds the link at both ends |
| `LinkTables.LinkUndone` | linux/drivers/media/media-entity.c:360-364 | taking back the link when the backlink finds no memory leaves the graph as it was |
| `LinkTables.FlagsWired` | linux/drivers/media/media-entity.c:397-398 | writing flags to a link and its reverse keeps all tables wired |
| `LinkTables.LinksReported` | linux/drivers/media/media-device.c:154-169 | num_links - num_backlinks is the number of live slots whose link starts at the entity |
| `LinkTables.OneEndReported` | linux/drivers/media/media-device.c:154-169 | of the two slots of a link exactly one starts at its entity, so all entities together report each link once |
| `MediaEntity.MediaDevice.InitEntity` | linux/drivers/media/media-entity.c:52-78 | a new last entity with num_pads pads, room for num_pads + extra_links links and none yet, all others as they were; nothing changes without memory |
| `MediaEntity.MediaDevice.Grow` | linux/drivers/media/media-entity.c:319-333 | the array has two more slots at a new place and all partners point there |
| `MediaEntity.MediaDevice.AddLink` | linux/drivers/media/media-entity.c:317-336 | a new last slot, after a move exactly if the array was full; nothing changes without memory |
| `MediaEntity.MediaDevice.CreateLink` | linux/drivers/media/media-entity.c:338-376 | the graph gains the link at both ends or, exactly if a full array finds no memory, does not change; tables stay wired, pads stay, and only a full array of the two ends gets two more slots |
| `MediaEntity.MediaDevice.SetupLinkNotify` | linux/drivers/media/media-entity.c:379-401 | flags change at both ends unless an entity refuses; its answer is returned; both entities are told, the sink only if the source agrees, and a source that had agreed is given the old flags again |
| `MediaEntity.MediaDevice.AskDrivers` | linux/drivers/media/media-entity.c:384-395 | which entity is asked, whose refusal is returned, and what each was told last |
| `LinkSetup.EarlyAnswer` | linux/drivers/media/media-entity.c:424-442 | when each answer is given at once: 0 for the flags in force, -EINVAL for any other change than of ENABLED alone or of an immutable link, -EBUSY for a link that is not dynamic and has a streaming end; drivers are asked in all other cases |
| `LinkSetup.GrantedExactly` | linux/drivers/media/media-entity.c:424-467 | a request is granted if and only if it is not answered at once and neither the media device nor an entity refuses |
| `MediaEntity.MediaDevice.SetupLink` | linux/drivers/media/media-entity.c:417-467 | which value is returned, that flags change exactly if the request is granted, who is asked, and that drivers that agreed are left with the flags in force |
| `MediaEntity.MediaDevice.EnumLinks` | linux/drivers/media/media-device.c:154-169 | what is reported are source, sink and flags of exactly the live slots whose link starts at the entity, in slot order, num_links - num_backlinks of them |
| `LinkRuns.StepKeeps` | linux/drivers/media/media-entity.c:52-78 | an init, create or setup call, failing or not, keeps every link of the graph in its slot, with its pads and all flags but ENABLED, and an immutable one as it was |
| `LinkRuns.TraceKeeps` | linux/drivers/media/media-entity.c:317-467 | between any two points of any run of such calls every link of the earlier point is kept so |
| `MediaEntity.MediaDevice.BuildAll` | linux/drivers/media/media-entity.c:317-467 | every run of init, create and setup calls, with allocations failing anywhere, can be made from an idle device such as a new one; all tables stay wired, and each call takes the step its arguments and the state before it ask for |
| `Pipelines.ConflictMeans` | linux/drivers/media/media-entity.c:227-231 | a start warns if and only if it visits an entity that was in another pipeline before |
| `Pipelines.IdleStreams` | linux/drivers/media/media-entity.c:217-265 | the counting invariant holds on every supported graph while nothing streams |
| `Pipelines.StartKeeps` | linux/drivers/media/media-entity.c:217-234 | a start counts in exactly the component of its entity, once each |
| `Pipelines.StopKeeps` | linux/drivers/media/media-entity.c:249-265 | stopping a streaming entity undoes the last start that covers it and no other |
| `Pipelines.StopNeedsStart` | linux/drivers/media/media-entity.c:249-265 | counters stay explicable after a stop if and only if its entity streams |
| `Pipelines.SwitchKeeps` | linux/drivers/media/media-entity.c:440-442 | switching links between two idle entities leaves the component of every streaming entity as it was |
| `MediaEntity.MediaDevice.PipelineStart` | linux/drivers/media/media-entity.c:217-234 | every entity of the walk is counted in and gets the pipeline; warns exactly on a conflict |
| `MediaEntity.MediaDevice.PipelineStop` | linux/drivers/media/media-entity.c:249-265 | every entity of the walk is counted out, and its pipeline is cleared when its count reaches zero |
| `MediaEntity.MediaDevice.Run` | linux/drivers/media/media-entity.c:217-467 | on every graph a run of starts, stops and setups takes links and counters where the composition of these calls does, each start and stop over the walk of its entity at that time |
| `PipelineRuns.RunSound` | linux/drivers/media/media-entity.c:217-467 | over every run of starts, stops of streaming entities and setups on a forest of non-dynamic links with lines of at most 15 entities, each count is the number of outstanding starts that cover its entity, and pipe is set exactly while it is positive |
| `PipelineRuns.RunCounts` | linux/drivers/media/media-entity.c:217-265 | over such a run the count of an entity changes by the starts less the stops whose component, when they were called, has it |
| `PipelineRuns.RunPipes` | linux/drivers/media/media-entity.c:217-265 | over such a run a streaming entity belongs to the pipeline of the last start that covers it, and any other entity to none |
| `PipelineRuns.RunOutstanding` | linux/drivers/media/media-entity.c:217-265 | as many starts are outstanding as were made and not stopped |
| `PipelineRuns.ExplainedExactly` | linux/drivers/media/media-entity.c:249-265 | the counters can be explained by starts all along a run if and only if each stop is of an entity that streams then |
| `MediaNodes.FreeMinorIsFree` | linux/drivers/media/media-devnode.c:214-220 | the minor found is the least free one, and none is found only if all 256 are in use |
| `MediaNodes.RunSound` | linux/drivers/media/media-devnode.c:58-75 | over every run of register (failing or not), unregister, open and close no two nodes share a minor, and a minor is in use exactly while its node is registered or open |
| `MediaNodes.StaysClosed` | linux/drivers/media/media-devnode.c:131-165 | once a node is unregistered every open of it fails, whatever else happens, until it is registered anew |
| `MediaNodes.KeepsMinor` | linux/drivers/media/media-devnode.c:58-75 | a call that leaves a node its references leaves it its minor, and no other node gets that |
| `MediaNodes.RunKeepsMinor` | linux/drivers/media/media-devnode.c:58-75 | over every run during which a node has references it keeps its minor and no other node ever gets it |
| `MediaNodes.RunExplained` | linux/drivers/media/media-devnode.c:131-281 | after every run from the start, whether a node is registered and how many files it has open is what the calls and their answers add up to |
| `MediaNodes.MinorsExplained` | linux/drivers/media/media-devnode.c:58-281 | after every run from the start a minor is in use exactly while the node it was given to is, by the calls and answers alone, registered or open, and no two such nodes share one |
| `MediaDevnode.Minors.RegisterNode` | linux/drivers/media/media-devnode.c:208-259 | takes the least free one of 256 minors, gives it back if a later step fails, and answers -ENFILE exactly if none is free |
| `MediaDevnode.Minors.UnregisterNode` | linux/drivers/media/media-devnode.c:271-281 | drops the registration and its reference; does nothing to a node that is not registered |
| `MediaDevnode.Minors.OpenNode` | linux/drivers/media/media-devnode.c:131-165 | an open of a registered node that is answered with 0 takes a reference, one whose own open fails leaves none, and any other node answers -ENXIO |
| `MediaDevnode.Minors.CloseNode` | linux/drivers/media/media-devnode.c:168-181 | drops a reference; the last one frees the minor |
| `MediaDevnode.Minors.RunAll` | linux/drivers/media/media-devnode.c:58-281 | every run of calls does to bitmap and nodes what it does to the state machine, with the same answers |
| `EntityIds.RegisterExactly` | linux/drivers/media/media-device.c:345-361 | registering keeps the list ascending and below entity_id if and only if the entity has no number yet or one above all in the list |
| `EntityIds.NextIsNext` | linux/drivers/media/media-device.c:65-85 | asking for the entity after one of the list gives the one behind it, or none after the last |
| `EntityIds.EntityList.RegisterEntity` | linux/drivers/media/media-device.c:345-361 | the number given is the entity's own or else entity_id, which stays above all numbers given and never goes down |
| `EntityIds.EntityList.UnregisterEntity` | linux/drivers/media/media-device.c:371-382 | takes one entity off the list and keeps the others in order |
| `EntityIds.EntityList.FindEntity` | linux/drivers/media/media-device.c:65-85 | the first entity with the number asked for or, with bit 31 set, above it; none only if there is none |
| `EntityIds.EntityList.Enumerate` | linux/drivers/media/media-device.c:65-85 | asking for the next entity again and again visits every registered entity once, in list order |
| `EntityIds.EntityList.RunAll` | linux/drivers/media/media-device.c:345-382 | every history of registrations without a number and of removals keeps the list ascending and below entity_id, and gives no number twice |
| `Bt87x.LineSize` | linux/sound/pci/bt87x.c:250-272 | a line takes one WRITE for each page it touches |
| `Bt87x.ProgramFits` | linux/sound/pci/bt87x.c:147-148 | for 1 to 255 periods of 1 to 4092 bytes the program fits MAX_RISC_SIZE |
| `Bt87x.LargestFills` | linux/sound/pci/bt87x.c:147-148 | the largest layout needs exactly MAX_RISC_SIZE bytes, a page |
| `Bt87x.WriteDecodes` | linux/sound/pci/bt87x.c:258-267 | the fields or-ed into a WRITE word do not overlap: opcode, length, line marks, interrupt and both status nibbles can be read back |
| `Bt87x.TransferIsBuffer` | linux/sound/pci/bt87x.c:255-271 | no WRITE crosses a page, and it transfers the buffer bytes it stands for |
| `Bt87x.Simulates` | linux/sound/pci/bt87x.c:115-133 | executing the encoded words of an instruction does what the instruction is for |
| `Bt87x.LineRuns` | linux/sound/pci/bt87x.c:250-272 | a line starts once, transfers its bytes in order, ends once and raises one interrupt that reports i*16/periods |
| `Bt87x.ProgramRuns` | linux/sound/pci/bt87x.c:232-281 | run from its start for any number of laps, the program in memory does that many laps and is at its start again |
| `Bt87x.LapTransfersBuffer` | linux/sound/pci/bt87x.c:247-273 | a lap transfers buffer bytes 0 to periods*period_bytes once each, in order |
| `Bt87x.LapReports` | linux/sound/pci/bt87x.c:259-264 | the interrupts of a lap, one a line, report i*16/periods for lines 0, 1, 2 and so on |
| `Bt87x.LapMarked` | linux/sound/pci/bt87x.c:258-267 | a lap has as many line starts and line ends as periods |
| `Bt87x.ResyncFinds` | linux/sound/pci/bt87x.c:337-349 | if the status reports the block of line i the counter is in range and in that block; it is the next line exactly if that is in the block, else the block's first line; with at most 16 lines it is i |
| `Bt87x.ResyncInRange` | linux/sound/pci/bt87x.c:337-349 | the counter stays in range if and only if the reported block is not beyond that of the last line |
| `Bt87x.HandlerCounts` | linux/sound/pci/bt87x.c:337-349 | n interrupts that report the n lines after the counter move it by n, around the buffer, for any number of lines |
| `Bt87x.HandlerSettles` | linux/sound/pci/bt87x.c:337-349 | however far the counter was off, once interrupts of successive lines have reported two different blocks it is the line of the last one |
| `Bt87x.HandlerFollowsProgram` | linux/sound/pci/bt87x.c:232-349 | fed with the interrupts of the running program, the handler has the right line from the end of the first lap on, whatever the counter was |
| `Bt87xChip.Chip.EmitLine` | linux/sound/pci/bt87x.c:250-272 | the inner loop writes the instructions of one line |
| `Bt87xChip.Chip.EmitLines` | linux/sound/pci/bt87x.c:247-273 | the outer loop writes the instructions of all lines |
| `Bt87xChip.Chip.CreateRisc` | linux/sound/pci/bt87x.c:232-281 | memory holds the encoded program, without a write beyond the page; refused without memory, and then nothing changes |
| `Bt87xChip.Chip.Interrupt` | linux/sound/pci/bt87x.c:340-346 | the line counter after an interrupt |
| `ClipTable.NormalMeans` | linux/drivers/media/common/saa7146_hlp.c:370-381 | normalising an extent keeps the pixels at or after 0 that the application meant |
| `ClipTable.FlippedMeans` | linux/drivers/media/common/saa7146_hlp.c:382-384 | flipping turns line p into line height - 1 - p |
| `ClipTable.CoversExact` | linux/drivers/media/common/saa7146_hlp.c:422-442 | the unsigned comparisons are right at every 16-bit coordinate if and only if the span is empty or has both edges at or after the origin |
| `ClipTable.EntryReads` | linux/drivers/media/common/saa7146_hlp.c:410-444 | the mask of an entry can be read back, and its coordinate modulo 65536 |
| `ClipTable.EntryLayout` | linux/drivers/media/common/saa7146_hlp.c:410-444 | the upper half of an entry is its coordinate, and bit j of the lower half is set exactly if span j covers that |
| `ClipTable.LookupFinds` | linux/drivers/media/common/saa7146_hlp.c:410-444 | the mask at the last entry at or before p has the bits of exactly the spans shown there: those that cover the last edge at or before p |
| `ClipTable.RightShows` | linux/drivers/media/common/saa7146_hlp.c:410-444 | a span that meets the condition for its axis (it is empty, reaches the window with both edges, starts beyond it, spans it from an edge listed at 0, or is marked at no edge) is shown at exactly the coordinates inside it |
| `ClipTable.WrongShows` | linux/drivers/media/common/saa7146_hlp.c:410-444 | any other span is shown wrongly at some coordinate of the window |
| `ClipTable.BeforeOriginCovers` | linux/drivers/media/common/saa7146_hlp.c:370-444 | a span that ends before the origin is shown at every coordinate of the window |
| `Clipping.BubbleSort` | linux/drivers/media/common/saa7146_hlp.c:315-323 | the items are sorted in place and have the same values |
| `Clipping.Eliminate` | linux/drivers/media/common/saa7146_hlp.c:326-332 | one of each value is kept, in order |
| `Clipping.SortAndEliminate` | linux/drivers/media/common/saa7146_hlp.c:305-335 | strictly ascending with the same value set; a count of 0 becomes 1 and a negative one is refused |
| `Clipping.Collect` | linux/drivers/media/common/saa7146_hlp.c:362-397 | the normalised rectangles and their edge lists |
| `Clipping.MarkSpan` | linux/drivers/media/common/saa7146_hlp.c:418-444 | the bit of a rectangle is set in exactly the entries it covers |
| `Clipping.TableAgrees` | linux/drivers/media/common/saa7146_hlp.c:337-444 | for every pixel of the window the two masks found have in common exactly the bits of the rectangles that contain it, if and only if each rectangle is clean: right on both axes, or clipped nowhere and to be clipped nowhere |
| `Clipping.ReachingClean` | linux/drivers/media/common/saa7146_hlp.c:370-444 | rectangles with both edges of both axes at or after the origin are clean, so the table of any of them is right |
| `Clipping.LeftRectangleClips` | linux/drivers/media/common/saa7146_hlp.c:370-444 | a rectangle left of the window is shown in every column, so each of its lines is clipped across the window and the table is wrong |
| `Clipping.EdgeAtOriginMatters` | linux/drivers/media/common/saa7146_hlp.c:382-444 | whether a flipped rectangle taller than the window is clipped right depends on the edges of the other rectangles |
| `Clipping.BuildTable` | linux/drivers/media/common/saa7146_hlp.c:337-444 | for 1 to 16 rectangles all entries lie in the words fetched, and if edges and window stay apart in 16 bits the table agrees with the rectangles if and only if these are clean |
| `PageTables.TableReaches` | linux/drivers/media/common/saa7146_core.c:265-273 | going through the table reaches the byte that going through the scatter list does |
| `PageTables.ReachesAllExactly` | linux/drivers/media/common/saa7146_video.c:314-318 | for a list of whole pages the table reaches every byte if and only if, in the planar builder, no entry is longer than a page |
| `PageTables.UnalignedStart` | linux/drivers/media/common/saa7146_core.c:259-273 | read at its offset, the planar table has the first byte of a buffer at any offset, the single table exactly if the offset is 0 |
| `PageTables.PartReaches` | linux/drivers/media/common/saa7146_video.c:328-355 | a table copied from the page in which a plane starts, read at its offset, reaches every byte of the plane |
| `PageTableBuilders.BuildSingle` | linux/drivers/media/common/saa7146_core.c:250-290 | one entry per page, the rest filled with the last page, every byte of the buffer reached |
| `PageTableBuilders.CutTables` | linux/drivers/media/common/saa7146_video.c:332-355 | the second and third table are parts of the first as it was before it was cut short, even if the copying reads one word beyond it; the rest of each table repeats its last page |
| `PageTableBuilders.BuildPlanar` | linux/drivers/media/common/saa7146_video.c:263-355 | for 4:2:0 and 4:2:2 frames of up to 1024 pages each plane's table and offset reach every byte of the plane; other depths are refused and change nothing |
| `Overlay.Exclusive` | linux/drivers/media/common/saa7146_fops.c:6-40 | the channels in use are the disjoint union of those the handles own |
| `Overlay.FirstChannel` | linux/drivers/media/common/saa7146_video.c:103-198 | the first channel is owned by the handle in charge and no other |
| `Overlay.StartGranted` | linux/drivers/media/common/saa7146_video.c:103-163 | a preview is granted if and only if the handle has a window, does not capture and no other handle owns one of the first two channels; then it owns exactly these |
| `Overlay.StopGranted` | linux/drivers/media/common/saa7146_video.c:166-198 | a stop ends the handle's own preview and is refused by its capture and by another handle's preview |
| `Overlay.BeginGranted` | linux/drivers/media/common/saa7146_video.c:382-441 | a capture is granted if and only if each other handle that owns a channel it needs only previews; it then owns all three channels or, for packed formats, the first, and remembers the preview |
| `Overlay.EndGranted` | linux/drivers/media/common/saa7146_video.c:443-498 | the end of a capture gives its channels back and brings back the preview it suspended with both channels; another handle is refused |
| `Overlay.VbiGranted` | linux/drivers/media/common/saa7146_vbi.c:376-390 | the third channel is granted to a VBI handle if and only if no handle owns it |
| `Overlay.VbiFreed` | linux/drivers/media/common/saa7146_vbi.c:438-448 | a closed VBI handle gives the third channel back and changes nothing else |
| `Overlay.OpenFresh` | linux/drivers/media/common/saa7146_video.c:1321-1342 | a new handle owns nothing |
| `Overlay.CloseFrees` | linux/drivers/media/common/saa7146_video.c:1345-1361 | a closed handle owns nothing, and what it suspended comes back |
| `Overlay.SettingsGranted` | linux/drivers/media/common/saa7146_video.c:864-987 | when format and standard changes are granted, and that they change nothing otherwise |
| `Overlay.RunSound` | linux/drivers/media/common/saa7146_video.c:103-198 | after every run of preview, capture, format, standard, open, close and VBI calls vv->resources is the disjoint union of what the handles own |
| `Overlay.CaptureGoesOn` | linux/drivers/media/common/saa7146_video.c:864-882 | nothing but its own end stops a capture, changes what it suspended, or the format it was granted channels for |
| `Overlay.PreviewComesBack` | linux/drivers/media/common/saa7146_video.c:382-498 | whatever happens during a capture, its end restores the suspended preview with the same owner and channels |
| `Overlay.CloseExactly` | linux/drivers/media/common/saa7146_video.c:1345-1361 | closing a handle leaves a sound state if and only if its preview is not suspended |
| `VideoDevice.Device.ResGet` | linux/drivers/media/common/saa7146_fops.c:6-28 | grants free channels, refuses taken ones, and grants without change if the handle owns any of them |
| `VideoDevice.Device.ResFree` | linux/drivers/media/common/saa7146_fops.c:30-40 | gives channels back; that the handle owns them is a precondition all callers meet |
| `VideoDevice.Device.StartPreview` | linux/drivers/media/common/saa7146_video.c:103-163 | answer and state after the call, and that channels of a null handle are freed exactly if the window is refused or the overlay cannot be enabled after they were granted |
| `VideoDevice.Device.StopPreview` | linux/drivers/media/common/saa7146_video.c:166-198 | answer and state after the call |
| `VideoDevice.Device.VideoBegin` | linux/drivers/media/common/saa7146_video.c:382-441 | suspends a preview and captures, or restores it with owner and channels and refuses |
| `VideoDevice.Device.VideoEnd` | linux/drivers/media/common/saa7146_video.c:443-498 | frees exactly the channels granted and restores a suspended preview |
| `VideoDevice.Device.SetFmtCapture` | linux/drivers/media/common/saa7146_video.c:864-882 | refused while the handle captures |
| `VideoDevice.Device.SetFmtOverlay` | linux/drivers/media/common/saa7146_video.c:884-913 | a running preview is restarted and still owned |
| `VideoDevice.Device.SetStd` | linux/drivers/media/common/saa7146_video.c:942-987 | refused during a capture; a preview is suspended and restored |
| `VideoDevice.Device.VideoClose` | linux/drivers/media/common/saa7146_video.c:1345-1361 | ends what the handle does and forgets it |
| `VideoDevice.Device.OpenVbi` | linux/drivers/media/common/saa7146_vbi.c:376-390 | a VBI handle gets the third channel or is not opened |
| `VideoDevice.Device.CloseVbi` | linux/drivers/media/common/saa7146_vbi.c:438-448 | gives the third channel back |
| `VideoDevice.Device.RunAll` | linux/drivers/media/common/saa7146_video.c:103-498 | every run of calls does to masks, status and handle pointers what it does to the state machine |
| `BufferQueue.NextPlaced` | linux/drivers/media/common/saa7146_fops.c:64-183 | every call leaves each submitted buffer in exactly one place, as its state says |
| `BufferQueue.OrderExactly` | linux/drivers/media/common/saa7146_fops.c:64-83 | a call keeps completion in submission order if and only if it does not submit while others wait and none is current |
| `BufferQueue.RunInOrder` | linux/drivers/media/common/saa7146_video.c:1364-1379 | without timeouts completion is in submission order and nothing waits unless a buffer is current |
| `BufferQueue.RunLined` | linux/drivers/media/common/saa7146_fops.c:64-157 | after every run without timeouts, from the calls alone: of the buffers submitted so many are done as interrupts could finish, the next one is current and the others wait in order |
| `BufferQueue.OutcomeExactly` | linux/drivers/media/common/saa7146_fops.c:85-183 | over every run a buffer is done if and only if an interrupt came while it was current, and has failed if and only if a timeout did |
| `BufferQueue.TimeoutStalls` | linux/drivers/media/common/saa7146_fops.c:159-183 | a timeout starts no other buffer; the next interrupt starts the first that waits |
| `BufferQueue.DmaQueue.Queue` | linux/drivers/media/common/saa7146_fops.c:64-83 | the buffer becomes current or waits last |
| `BufferQueue.DmaQueue.Finish` | linux/drivers/media/common/saa7146_fops.c:85-106 | the current buffer gets its outcome; that there is one is a precondition all callers meet |
| `BufferQueue.DmaQueue.ActivateNext` | linux/drivers/media/common/saa7146_fops.c:108-157 | the first waiting buffer, if any, becomes current |
| `BufferQueue.DmaQueue.IrqDone` | linux/drivers/media/common/saa7146_video.c:1364-1379 | the current buffer is done and the next one is started |
| `BufferQueue.DmaQueue.TimeOut` | linux/drivers/media/common/saa7146_fops.c:159-183 | the current buffer has failed and no other is started |
| `BufferQueue.DmaQueue.Perform` | linux/drivers/media/common/saa7146_fops.c:64-183 | every interleaving does to the queue what it does to its view and keeps buffers in one place |
| `Scaler.Prescale` | linux/drivers/media/common/saa7146_hlp.c:88-115 | the loop ends with the least value from the ratio on, at most 64, that brings the line below 768 pixels, or 384 when flipped |
| `Scaler.RatioMeans` | linux/drivers/media/common/saa7146_hlp.c:88-93 | the ratio is how often the new width goes into the old one, and 1 for lines that do not shrink |
| `Scaler.FineScaleFits` | linux/drivers/media/common/saa7146_hlp.c:127-130 | the fine scale value has 12 bits for reductions up to 64:1 |
| `Scaler.FineScaleMeans` | linux/drivers/media/common/saa7146_hlp.c:125-130 | the fine scale value less the prescale value is the longest step, in 1024ths, that goes through the prescaled line in out_x steps; 1024 for a line that stays as it is |
| `Scaler.BandwidthMeans` | linux/drivers/media/common/saa7146_hlp.c:158-170 | the filter is off exactly at 0x400 and grows at 0x600, 0x680 and 0x700 |
| `Scaler.CalculateHScale` | linux/drivers/media/common/saa7146_hlp.c:63-184 | the values set by the driver's table, flip bit and filter byte of the other words, a zero width refused, and for reductions up to 64:1 which bits of the register words hold each value |
| `Scaler.HScaleBy` | linux/drivers/media/common/saa7146_hlp.c:63-184 | the same for every table whose coefficients fit |
| `Scaler.TopByteReads` | linux/drivers/media/common/saa7146_hlp.c:175-176 | the filter byte can be read back and leaves what the column scaler put below it |
| `Scaler.TablesGood` | linux/drivers/media/common/saa7146_hlp.c:39-60 | the driver's tables have 64 entries and their coefficients fit their fields |
| `Scaler.DivisorExactly` | linux/drivers/media/common/saa7146_hlp.c:265-279 | 1024 less the increment is not 0 if and only if 9 * in_y < 10240 * (out_y + 1) |
| `Scaler.InterpolatedMeans` | linux/drivers/media/common/saa7146_hlp.c:249-253 | the increment is by how many 1024ths the longest step that takes out_y + 1 steps through the frame exceeds a line |
| `Scaler.AccumulatedMeans` | linux/drivers/media/common/saa7146_hlp.c:262-265 | the increment is the part of the lines dropped, in 1024ths, rounded down at a tenth and then up |
| `Scaler.SequenceMeans` | linux/drivers/media/common/saa7146_hlp.c:270-279 | the sequence length is how often the part kept goes into the part dropped |
| `Scaler.AccumulatedFits` | linux/drivers/media/common/saa7146_hlp.c:265-279 | the increment is at most 1008 for reductions up to 64:1 |
| `Scaler.CalculateVScale` | linux/drivers/media/common/saa7146_hlp.c:209-302 | the values set by the driver's table for every height, by interpolation or accumulation as the ratio says, zooming refused, a division by zero exactly if 9 * in_y >= 10240 * (out_y + 1), and for reductions up to 64:1 which bits of the register words hold each value |
| `Scaler.VScaleBy` | linux/drivers/media/common/saa7146_hlp.c:209-302 | the same for every table whose coefficients fit |
| `I2cCodec.SetReadsBack` | linux/drivers/media/common/saa7146_i2c.c:59-69 | a byte and a tag put into an empty slot can be read back |
| `I2cCodec.SetKeepsOthers` | linux/drivers/media/common/saa7146_i2c.c:59-69 | they touch no other slot of the word |
| `I2cCodec.StoppedReads` | linux/drivers/media/common/saa7146_i2c.c:77-81 | the last byte keeps its value, its tag becomes STOP, other slots are untouched |
| `I2cCodec.HeadSymbolAt` | linux/drivers/media/common/saa7146_i2c.c:58-62 | every message begins with its address byte, tagged START |
| `I2cCodec.DataSymbolAt` | linux/drivers/media/common/saa7146_i2c.c:65-71 | data byte j of message k is a fixed symbol of the transfer, tagged CONT |
| `I2cCodec.HeadTold` | linux/drivers/media/common/saa7146_i2c.c:53-63 | in the words written every message starts with twice its address, plus 1 to read, tagged START |
| `I2cCodec.DataTold` | linux/drivers/media/common/saa7146_i2c.c:65-82 | in the words written every data byte follows in order, tagged CONT, or STOP for the very last one |
| `I2cCodec.RoundTrip` | linux/drivers/media/common/saa7146_i2c.c:91-110 | writing back a packed transfer changes no byte, even if messages share memory |
| `I2cCodec.ReadsArrive` | linux/drivers/media/common/saa7146_i2c.c:91-110 | whatever the table holds, each byte arrives where its message has it, if messages do not share memory |
| `I2cTransfer.Prepare` | linux/drivers/media/common/saa7146_i2c.c:27-85 | the words counted up front, ceil(total/3), hold exactly the transfer, no other word is written, and too long a transfer is refused without a change |
| `I2cTransfer.Cleanup` | linux/drivers/media/common/saa7146_i2c.c:91-110 | memory after the bytes of all messages are written back |
| `I2cTransfer.PrepareAndCleanup` | linux/drivers/media/common/saa7146_i2c.c:27-110 | preparing and cleaning up leaves every byte of memory unchanged |
| `HexText.LineReads` | linux/firmware/ihex2fw.c:154-187 | a line spelled with digits of either case and a right checksum is read as length, address, kind and data it was written for |
| `HexText.ItemAsks` | linux/firmware/ihex2fw.c:190-243 | such a line files a record at the sum of base and address, sets the base, ends the file or is skipped, as its kind says |
| `HexText.TextParses` | linux/firmware/ihex2fw.c:130-246 | parsing a text written for a file gives its records in file order at the sums of base and address, whatever stands between lines and after the last |
| `HexText.DataLayout` | linux/firmware/ihex2fw.c:154-187 | the bytes of a data line, narrow and wide, before its checksum |
| `HexText.AddressLayout` | linux/firmware/ihex2fw.c:190-243 | the bytes of lines of kinds 1 to 5 |
| `IntelHex.SwappedMeans` | linux/firmware/ihex2fw.c:226-237 | on either kind of host, the bytes filed for a start address are the word that the line spells |
| `HexLanguage.ParsesExactly` | linux/firmware/ihex2fw.c:130-246 | a text parses to records if and only if, from its start, it has lines for a file with these records, each with a right checksum and with characters that are no digits standing for 0; every other text is refused |
| `HexLanguage.LineRefused` | linux/firmware/ihex2fw.c:179-243 | a text is refused if after good lines there is one whose last byte is not its checksum, whose kind is unknown, or whose address or length its kind does not admit |
| `HexLanguage.CutRefused` | linux/firmware/ihex2fw.c:143-174 | a text that is cut short anywhere before the end of its last line is refused |
| `HexLanguage.EndMissing` | linux/firmware/ihex2fw.c:143-152 | a text without a last line is refused |
| `HexAddresses.LoadedAsSpecified` | linux/firmware/ihex2fw.c:190-243 | the bytes of the loaded records are, in order, those the format has, at the addresses it has them, if and only if no data line under a segment base goes beyond 64 KiB and none under a linear base beyond 4 GiB |
| `HexAddresses.PermutedAsSpecified` | linux/firmware/ihex2fw.c:190-243 | the same for the records in any order |
| `HexAddresses.SegmentEndMisplaced` | linux/firmware/ihex2fw.c:208-219 | a file of three lines whose last byte belongs at 0x10000 and is loaded at 0x20000 |
| `HexRender.RenderedLine` | linux/firmware/ihex2fw.c:154-187 | every line of the format can be written, with its checksum, so that it is read as itself |
| `HexRender.RenderParses` | linux/firmware/ihex2fw.c:130-246 | any records, with addresses below 4 GiB, and 1 to 255 bytes, or 65526 in wide files, can be written as text, and parsing it gives these records |
| `Firmware.FiledInOrder` | linux/firmware/ihex2fw.c:250-259 | without sorting records stay in file order |
| `Firmware.FiledPermutation` | linux/firmware/ihex2fw.c:250-259 | with sorting the list is an address-sorted permutation |
| `Firmware.FiledReverses` | linux/firmware/ihex2fw.c:250-259 | with sorting records at one address come out last filed first |
| `Firmware.StoredWhole` | linux/firmware/ihex2fw.c:267-274 | a record takes six bytes, its data and zeros up to a multiple of four, and is written whole if and only if it has at most 65526 bytes |
| `Firmware.DecodeStream` | linux/firmware/ihex2fw.c:261-280 | reading the padded big-endian stream back gives the records |
| `Ihex2fw.NextLine` | linux/firmware/ihex2fw.c:143-187 | finds and reads the next line without reading outside the text, and leaves the checksum at 0 after a good one |
| `Ihex2fw.Converter.FileRecord` | linux/firmware/ihex2fw.c:250-259 | the list after a record is put before the first one whose address is not smaller, or last |
| `Ihex2fw.Converter.Obey` | linux/firmware/ihex2fw.c:190-243 | what each kind of line does and which lines are refused |
| `Ihex2fw.Converter.ProcessIhex` | linux/firmware/ihex2fw.c:130-246 | for every text the records of its parse are filed, and it fails exactly on the texts that do not parse |
| `Ihex2fw.Converter.OutputRecords` | linux/firmware/ihex2fw.c:261-280 | the stream of the list |
| `Ihex2fw.ConversionRoundTrip` | linux/firmware/ihex2fw.c:130-280 | writing a file as text, converting it and decoding the stream gives the records loaded, in file order or as a sorted permutation |
| `Ihex2fw.RecordsRoundTrip` | linux/firmware/ihex2fw.c:130-280 | writing any such records as text, converting it and decoding the stream gives these records, in order or as a sorted permutation |
| `Ihex2fw.ConversionMeetsFormat` | linux/firmware/ihex2fw.c:130-280 | a converted file has every byte where the format has it, in file order or sorted, if and only if no data line goes beyond its segment or the 4 GiB |

## Left out

- The traversal stack is a value that each step replaces, because the driver keeps it in a local structure; its sixteen slots are the sentinel and fifteen frames.
- Link arrays that move are told apart by a generation number; a pointer into an old array is a slot with an old generation.
- num_links, num_backlinks and stream_count are unbounded; wrap-around at 16 and 32 bits is not modelled.
- Links from an entity to itself, creating links while entities stream, and switching dynamic links while they stream are outside what the pipeline counters are promised for.
- Registering a node anew while it still has open files is not modelled: the driver would overwrite a node in use.
- Locking, and the window between finding a minor and registering its node, are not modelled; each call is one step.
- PipelineRuns.RunSound: the counters are explained for runs whose stops are of entities that stream, because `ExplainedExactly` shows that they are explained by no starts after another stop.
- VideoDevice.Device.RunAll: previews are started with windows that are accepted, because after a refused one the driver goes on with a null handle.
- Clipping.BuildTable: agreement is decided for windows below 65536 pixels and lines and for rectangles whose edges lie less than 65536 before the end of the window, because others cannot be told apart by the 16 bits of an entry.
- PageTableBuilders.BuildPlanar: planes are reached for lists of whole pages with entries of at most one page, because others are mistranslated (`ReachesAllExactly`); frames of more than 1024 pages, which the tables cannot hold, are excluded. A frame of exactly 1024 pages makes it read one word beyond the first table; that word is a parameter and reaches no byte of a plane.
- Scaler.CalculateVScale: the field modes are both fields of a frame or single ones, because the driver refuses others when a format or window is set (saa7146_video.c:779-781 and 850-852).
- Scaler.CalculateHScale: lines are below 24576 pixels, because the prescaler cannot bring longer ones below its limit.
- BufferQueue: a buffer that is submitted again counts as a new submission; cancelling queues is not modelled.
- HexAddresses.LoadedAsSpecified: before the first base line a file may be read with a segment or a linear base of 0, as the format leaves open; the condition is stated for both.
- Ihex2fw.Converter.ProcessIhex: memory for records is always found, and line numbers in messages are not modelled.
- Register writes, RPS programs, vertical flip of DMA addresses, VBI workaround, I2C status polling and retries: they depend on hardware that is not described.
- PCI probing, interrupt registration, ALSA and V4L2 registration, ioctl dispatch, user copies, file handling and options of the converter: plumbing or input and output.
- media_entity_find_link, media_entity_remote_source, module use counts, control tables, other drivers of the tree: they would only add easy members.
