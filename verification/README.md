# vvmux verification

vvmux is a terminal multiplexer that relays media. Programs inside a pane talk to an *inner presenter*
(`src/media.rs`); a *bridge* (`src/bridge.rs`) shows what they present to an *outer presenter* under its own
identities. This project models the parts of vvmux whose correctness does not show in any single function and proves
what they promise:

- **Rectangles and damage** (`Region`, `Damage`). Occluders are subtracted from rectangles exactly, fragments are
  merged to a normal form, and a sweep counts the distinct pixels of overlapping updates. The reference is a plain set
  of points (`PointSets`). All coordinates have the source's integer types, so every unchecked operation of the source
  carries a proof that it stays in range.
- **Raster updates over two hops** (`RasterFrames`, `Pixels`, `InnerRaster`, `BridgeRaster`, `RasterChain`,
  `RasterBudget`, `BridgeBudget`). Rows are copied in place, the inner presenter composes deltas, the bridge
  re-originates them; the two hops are put together into one system whose runs include every loss. Both damage budgets
  are accounts over a source's whole life, and decide exactly which deltas are accepted and which are sent on.
- **The inner presenter's state** (`MediaCredit`, `MediaState`, `MediaLedger`, `MediaRecovery`, `MediaScene`,
  `MediaFlush`, `MediaReturns`, `MediaSync`, `MediaRequests`, `MediaCommits`, `MediaFrame`, `MediaServer`, `MapSums`).
  `MediaState` defines what each critical section under the lock does. The next five prove, for every run of the
  critical sections in any order, that credit is conserved and comes back, that a lost video recovers with a keyframe,
  that retained bytes and the scene stay consistent, and what is forwarded after a flush. The four after them say
  without those definitions, in terms of the protocol, what exactly becomes of a record, a delivery, a keyframe
  request, a transaction and a disconnect, and that nothing else changes. `MediaServer` is the same state as a class:
  its methods are proved to do all this in place, and each of them finds and leaves the lock with all accounts in
  order.
- **Reconciliation** (`Reconcile`, `OuterBridges`). Whatever the outer presenter showed, after a snapshot is reconciled
  it shows that snapshot, through id tables that are inverse to each other; what need not be recreated keeps its outer
  id, and no id is ever reused.
- **Control requests** (`Control`). Requests, replies and timeouts of several threads; a reply is never misrouted, and
  exactly one situation makes a correct presenter's reply close the connection.
- **Layout and screen** (`Layout`, `LayoutGeometry`, `LayoutLimits`, `Cells`, `Hyperlinks`, `Screen`, `ScreenText`). A
  weighted split tree that fits its area tiles it; a close always leaves a tree that fits, a split exactly when the
  split pane has two cells, a resize exactly when the shrunk side still has room for all its panes. A split or a close
  moves no other pane, and a border moves by one cell in the direction of the key. The screen diff, run by a terminal,
  has the effect of a full repaint, and shows the screen exactly when its double-width characters are whole. Cursor
  movement and renditions mean what ECMA-48, sections 8.3.21 (CUP) and 8.3.117 (SGR), say.
- **Streams** (`ClientInput`, `FloatEdit`, `KeyChords`, `BigEndian`, `Framing`, `RenderFraming`, `WireLayout`,
  `BodyAssembly`). Input parsing does not depend on how the stream was cut into reads, and keys and mouse reports mean
  what they should; bodies cut into records arrive whole, over a fixed layout on the wire.

`Arithmetic`, `FixedWidth`, `PointSets`, `MapSums`, `Sorting` and `Wrappers` hold what the models share.

Five results are about the code rather than for it. Each comes with a run that ends in the failure, and with the exact
condition under which it happens:

- **A resize can lose the layout.** `resize` checks that the two sides of the moved border keep the minimum
  (`src/layout.rs:588-647`), not that the panes inside the shrunk side still fit. On 200 by 24 cells five vertical
  splits, each of the last pane, are accepted; with the first pane focused, the 92nd Right reports a change after which
  the innermost split has one cell, and `place` calls `clamp(1, 0)` (`src/layout.rs:526-528`), which panics:
  `LayoutLimits.ResizeLosesTheLayout`. The moved tree fits if and only if the shrunk side fits its new rectangle:
  `Layout.MovedTreeFits`.
- **A flush silences anything but a video.** `FLUSH` sets the desynchronized flag of any source
  (`src/media.rs:3028-3055`), but only a video packet clears it (`src/media.rs:3892-3909`), and a record is forwarded
  only while it is clear (`src/media.rs:3926-3930`). With the way to the bridge free, a flushed source is ever
  forwarded again if and only if it is a video: `MediaFlush.FlushedForwardsIffVideo`. Rasters and audio thereby lose
  what they had before the flush, `MediaFlush.FlushTakesTheWay`; images are never forwarded live, flushed or not. A
  run that shows it: `MediaFlush.RasterIsSilenced`.
- **A full set of abandoned requests turns a late reply into a protocol error.** A timeout that finds 4096 abandoned
  requests drops the id altogether (`src/bridge.rs:2526-2529`), and the late reply then closes the connection. While at
  most 4096 requests are unclaimed this is the only way a correct presenter's reply can do so:
  `Control.AnswerClosesIffLost`, `Control.LostOnlyWhenFull`; without that bound, `Control.AnswerExactly`. 4097 requests
  that time out one after the other lead there: `Control.LateAnswerCloses`.
- **A source id that is used again can lose credit.** Destroying a source leaves its deliveries pending
  (`src/media.rs:4243-4257`), and a new source may take the id at once (`src/media.rs:3282-3284`). The old delivery
  then gives its credit back to the new source, whose own delivery finds too little charged and gives back nothing
  (`src/media.rs:1525-1531`). Every pending delivery is covered by what its source has charged until a source is
  created under an id for which deliveries are pending, and from then on no longer: `MediaReturns.StepCoversIff`. In
  the run `MediaReturns.ReusedIdLosesCredit` a source ends up with 96 of its 100 bytes of credit although nothing is
  pending, and it never has more again: `MediaReturns.NeverWholeAgain`.
- **A title with a double-width character is never shown.** `draw_frame` and `draw_text` write one cell a character
  (`src/screen.rs:39-88`), so a double-width character of a pane's title stands without its right half, and no terminal
  can show that screen, whatever is sent to it: `ScreenText.WideTitleIsNeverShown`. The repaint shows a screen if and
  only if it is well formed, `ScreenText.DiffShowsIffWellFormed`; with a frame drawn over it, if and only if none of the
  title's characters that have room is a double-width one, `ScreenText.FramedScreenIsShownIff`.

## Model

| member | source | states |
|---|---|---|
| Region.New | src/region.rs:16-28 | A rectangle is built exactly when its sides are positive and its edges are representable, and has the requested geometry |
| Region.FromCells | src/region.rs:40-47 | The 32.32 rectangle of a cell rectangle holds exactly the sub-cell points of its cells, and is missing exactly when the cell rectangle is empty |
| Region.Intersect | src/region.rs:49-55 | The intersection holds exactly the common points and is missing exactly when the rectangles are disjoint; no operation overflows |
| Region.PiecesExact | src/region.rs:58-86 | The pieces around a hole are at most four, pairwise disjoint, inside the base and cover exactly the base without the hole |
| Region.Subtract | src/region.rs:58-86 | The local vector filled by the code is that list of pieces, with every edge computed in range |
| Region.FragmentsAreExact | src/region.rs:91-109 | After all holes: exactly the points of the base outside every hole, pairwise disjoint, in normal form, areas adding up to the base minus the covered union |
| Region.ExactArea | src/region.rs:91-109 | Disjoint fragments that cover the rest of a base have the area of the base minus the area of the union of the holes inside it |
| Region.SubtractAll | src/region.rs:91-109 | When fragments are returned they are that exact rest and at most `cap`; nothing is returned exactly when some intermediate list exceeds `cap` |
| Region.FirstMerge | src/region.rs:114-146 | The two scanning loops find the first mergeable pair in either order, or prove there is none |
| Region.OrderAndCoalesce | src/region.rs:114-146 | Sorting, merging and restarting in place terminates and gives the coalesced normal form of the input |
| Region.CoalescedCovers | src/region.rs:114-146 | Merging keeps the covered point set |
| Region.CoalescedArea | src/region.rs:114-146 | Merging keeps the total area |
| Region.CoalescedDisjoint | src/region.rs:114-146 | Merging keeps rectangles pairwise disjoint |
| Region.CoalescedIsNormal | src/region.rs:114-146 | The result is sorted and no two of its rectangles can be merged in either order |
| Region.CoalescedIgnoresOrder | src/region.rs:114-146 | Every permutation of the input gives the same list |
| Region.CoalescedIsIdempotent | src/region.rs:114-146 | Coalescing a result again changes nothing |
| Damage.HorizontalEdges | src/media.rs:3543-3603 | Sorting and deduplicating gives exactly the upper and lower edges, strictly increasing |
| Damage.BandIntervals | src/media.rs:3543-3603 | The intervals of a band cover exactly the columns of the rectangles that span it |
| Damage.MergeIntervals | src/media.rs:3543-3603 | Merging ordered intervals keeps the covered columns and separates the intervals |
| Damage.TotalWidth | src/media.rs:3543-3603 | The summed widths are the number of distinct columns, without overflow |
| Damage.BandStep | src/media.rs:3543-3603 | Between neighbouring edges the damage is a product of columns and rows |
| Damage.RasterDamagePixels | src/media.rs:3543-3603 | For in-bounds, possibly overlapping operations the sweep never reports an overflow and returns the number of distinct pixels in their union |
| Damage.PlainDamagePixels | src/bridge.rs:2213-2226 | The bridge's count is the sum of all areas, or an overflow error exactly when it leaves 64 bits |
| Damage.DamageIsAtMostSum | src/media.rs:3543-3603 | The sweep's count never exceeds the bridge's plain sum |
| Pixels.CopyRows | src/media.rs:3605-3653 | The in-place row loops, in whichever direction, equal one simultaneous copy from the image before the operation, for every overlap |
| Pixels.OverwriteRows | src/media.rs:3605-3653 | Writing the payload rows in place gives the overwritten image |
| Pixels.ApplyRasterDeltaOperation | src/media.rs:3605-3653 | One operation applied in place is the operation applied to the old image as a whole |
| Pixels.ApplyOperations | src/media.rs:3745-3748 | An operation list applied in place is the fold of its operations |
| Pixels.AppliedPixel | src/media.rs:3605-3653 | A pixel inside the target takes the payload or the old source pixel, every other pixel keeps its value |
| Pixels.UndamagedPixel | src/media.rs:3605-3653 | Pixels outside the damaged region survive a whole operation list |
| Pixels.ChangesAreCharged | src/media.rs:3543-3653 | A delta never changes more pixels than the damage it is charged for |
| InnerRaster.RasterSource.PrepareRaster | src/media.rs:3660-3769 | Every accept, reject and error decision of preparation, with the composed image of an accepted delta built in place |
| InnerRaster.RasterSource.PrepareDelta | src/media.rs:3695-3769 | A delta on the retained frame is rejected exactly when its pixels and those spent in the window exceed eight images; otherwise it is composed in place and accepted, in sequence |
| InnerRaster.RasterSource.IngestRaster | src/media.rs:3836-3860 | What an ingested raster record leaves retained and which body goes towards the bridge |
| InnerRaster.IngestKeepsValid | src/media.rs:3660-3769 | The retained image keeps the source's dimensions |
| InnerRaster.DemandHolds | src/media.rs:974-999 | While a full frame is demanded no delta changes the image or reaches the bridge, and only an accepted full frame lifts the demand |
| RasterBudget.AccountIsExact | src/media.rs:3731-3769 | Over a source's whole life the damage counter is the number of pixels touched by the deltas accepted since the window started, and at most eight images |
| RasterBudget.DeltaExactly | src/media.rs:3695-3769 | A delta in a source's life is accepted, rejected or an error exactly as known, owed, continued, within the window's account, in sequence and within quota; with the resulting image, reason and body to forward |
| RasterBudget.FullExactly | src/media.rs:3660-3694 | A full frame is accepted exactly when it has the source's dimensions and all its pixels, in sequence and within quota |
| RasterBudget.DemandLasts | src/media.rs:974-999 | After a demand no list of deltas changes the image, the window or what is sent, until a full frame is accepted |
| BridgeRaster.NoInnerIdCrosses | src/bridge.rs:1519-1611 | What the bridge writes and remembers does not depend on any inner frame identity |
| BridgeRaster.RasterRelay.ReoriginateRaster | src/bridge.rs:1519-1611 | Full frame, delta on the own chain, or nothing when the chain cannot continue |
| BridgeRaster.RasterRelay.MediaChunk | src/bridge.rs:1415-1492 | The chain moves only when the writer takes the body; a broken chain asks for a full frame |
| BridgeRaster.RasterRelay.TakeFullFrameRequest | src/bridge.rs:1494-1513 | A full frame is requested when the chain broke or the outer presenter asked; from then on no list of bodies without a full frame sends anything |
| BridgeRaster.SilentUntilFull | src/bridge.rs:1519-1611 | Without a chain no delta is sent, and neither chain nor frame ids move, until a full frame comes |
| BridgeBudget.ChainIsAccounted | src/bridge.rs:1519-1611 | Over an outer source's whole life the chain's epoch, base and damage are those of the bodies sent since the chain and its window started, at most four images |
| BridgeBudget.ChunkExactly | src/bridge.rs:1415-1492 | A delta is sent, dropped with a request for a full frame, or an error exactly as the chain carries it, under the next identity and based on the last one |
| BridgeBudget.RequestIsOwed | src/bridge.rs:1494-1513 | A full frame is asked for exactly when a body was dropped since requests were last drained |
| RasterChain.NextKeepsStructure | src/bridge.rs:1415-1611 | Every step, lossy ones included, keeps the outgoing chain linked and every body inside the image |
| RasterChain.ChainIsLinked | src/bridge.rs:1519-1611 | In every run each accepted delta is based on the previously accepted outer frame of the same epoch |
| RasterChain.EveryBodyIsAccepted | src/media.rs:3660-3769 | An outer presenter accepts every body of such a chain and retains the last one |
| RasterChain.NextKeepsInStep | src/media.rs:3936-3956 | A lossless step keeps the replayed outer image equal to what the bridge has seen |
| RasterChain.StaysInStep | src/client.rs:717-720 | Lossless runs with requests drained between chunks stay in step |
| RasterChain.FullFrameResynchronises | src/bridge.rs:1430-1492 | A queued full frame restores agreement after any history |
| RasterChain.ImagesAgree | src/client.rs:977 | After a full frame and any lossless run, while an outgoing chain exists, replaying the outer bodies gives the inner retained image |
| RasterChain.EveryRun | src/bridge.rs:1519-1611 | From the start, in every run, the chain is linked and each body accepted |
| Cells.AttributesRoundTrip | src/screen.rs:207-305 | A terminal that reads a style's codes has exactly that style's attributes, whatever it had before |
| Hyperlinks.LinksArePassedOnIffRead | src/screen.rs:192-252 | A cell's link is passed on exactly when a terminal reads it back from its spelling, whatever follows; otherwise the text has no link |
| Hyperlinks.ReadIsSpelled | src/screen.rs:243-252 | Whatever link a terminal reads was spelled so, without control characters |
| Hyperlinks.CloseIsRead | src/screen.rs:207-209 | The sequence in front of each style ends the link in force |
| Screen.AnsiDiff | src/screen.rs:105-160 | The nested loops produce the repaint of the changed runs |
| Screen.DiffShowsCurrent | src/screen.rs:105-160 | Run on a terminal that shows the old buffer, or a full redraw on any terminal of the size, the output leaves it showing the new buffer |
| Screen.DiffEqualsFullRedraw | src/screen.rs:105-160 | The incremental repaint and a full redraw leave the same screen |
| Screen.ShiftedCharacterIsOneRun | src/screen.rs:105-160 | A double-width character that moves by one column is repaired inside one run |
| Screen.SetNarrowKeepsWellFormed | src/screen.rs:23-37 | Drawing a single-width cell anywhere, over either half of a wide one, keeps the buffer well formed |
| Screen.SetWideKeepsWellFormed | src/screen.rs:23-37 | Drawing a double-width character and its right half keeps the buffer well formed |
| Screen.SetCellAt | src/screen.rs:23-37 | The effect of a drawn cell on every cell of the buffer |
| Screen.ScreenBuffer.Set | src/screen.rs:23-37 | The cell array is updated in place accordingly, and nothing happens outside the buffer |
| Screen.ScreenBuffer.DrawText | src/screen.rs:39-56 | The loop draws a character a cell and stops at the right margin |
| Screen.ScreenBuffer.DrawFrame | src/screen.rs:58-88 | Edges, sides, corners and then as much of the title as fits are drawn in place |
| ScreenText.TextExactly | src/screen.rs:39-56 | Text replaces its cells, blanks what it cuts and touches nothing else; the screen stays well formed exactly when no character of it on the screen is a double-width one |
| ScreenText.FrameExactly | src/screen.rs:58-88 | The same for a frame, whose cells are its border with the title from the third column to the third last |
| ScreenText.DiffShowsIffWellFormed | src/screen.rs:105-160 | The output leaves the terminal showing the new buffer exactly when that is well formed, incremental or full |
| ScreenText.FramedScreenIsShownIff | src/screen.rs:58-160 | With a frame drawn over a well-formed screen, exactly when no character of the title that has room is a double-width one |
| ScreenText.WideTitleIsNeverShown | src/screen.rs:81-87 | A frame of 8 by 2 cells with such a title, which no output at all makes a terminal show |
| Layout.FirstSize | src/layout.rs:650-688 | A side of at least two cells is cut into two nonempty parts, without overflow for weights up to 65535 |
| Layout.AreasAgree | src/layout.rs:512-688 | The rectangles used for resizing are those used for placing, and they cut the area in two |
| Layout.GeometryTiles | src/layout.rs:436-569 | A tree of distinct panes on an area with two cells for every split partitions the area into one nonempty rectangle per pane |
| Layout.Place | src/layout.rs:512-569 | Filling the map gives every pane its rectangle of that partition |
| Layout.ContainsIsMembership | src/layout.rs:429-434 | A tree contains a pane exactly when it is listed |
| Layout.ReplaceLeafInserts | src/layout.rs:571-586 | The new pane comes right after the pane it splits, all others keep their order |
| Layout.SplitFits | src/layout.rs:442-467 | After a split the tree fits the area if and only if it did before and the split pane had two cells on the axis |
| Layout.ClosePanes | src/layout.rs:469-494 | Closing removes exactly the pane and keeps the order of the rest, leaving nothing when it was the only one |
| Layout.CloseFits | src/layout.rs:469-494 | After a close the survivors still fit the same area |
| Layout.FitsLarger | src/layout.rs:512-569 | A tree that fits an area fits every larger one |
| Layout.ResizeContains | src/layout.rs:588-647 | The first result of a resize tells whether the pane is in the tree |
| Layout.ResizeMovesOneBorder | src/layout.rs:588-647 | A change is reported exactly when some enclosing split has a border that can move; then the weights of the innermost such split change and nothing else, otherwise nothing |
| Layout.MovedBorder | src/layout.rs:588-647 | The border moved by exactly one cell in favour of the focused side and both sides keep the minimum |
| Layout.ResizeMovesWhenPossible | src/layout.rs:588-647 | No change is reported only when no enclosing split has a border that can move |
| Layout.WithWeightsShape | src/layout.rs:588-647 | New weights change neither the panes nor the tree around the split |
| Layout.OthersStay | src/layout.rs:588-647 | When the resized split still fits its own area, the whole tree fits and the panes outside that split keep their rectangles |
| Layout.WithWeightsFits | src/layout.rs:588-647 | After new weights for one split, the tree fits the area if and only if that split fits its own rectangle |
| Layout.MovedTreeFits | src/layout.rs:588-647 | A resized tree fits its area if and only if the side that shrank fits its new rectangle |
| LayoutLimits.RowFits | src/layout.rs:512-569 | A row of halvings fits exactly when its width exceeds a power of two in the number of splits |
| LayoutLimits.SplitsAreAccepted | src/layout.rs:442-467 | On 200 by 24 cells five splits of the last pane are possible and accepted, no pane too small |
| LayoutLimits.ResizeLosesTheLayout | src/layout.rs:588-647 | 92 resizes of that row are each reported as a change; the tree fits up to the 91st and not after the 92nd |
| Layout.TiledLayout.GeometryOf | src/layout.rs:436-440 | The computed map is the partition |
| Layout.TiledLayout.SplitPane | src/layout.rs:442-467 | On a pane with two cells on the axis: a successful split adds exactly one pane and leaves every pane at least 4 by 2 content; a failed one changes nothing |
| Layout.TiledLayout.ClosePane | src/layout.rs:469-494 | Exactly that pane disappears and the rest still tile the area |
| Layout.TiledLayout.Resize | src/layout.rs:496-500 | The stored tree changes exactly when a border can move, by that move; it fits its area afterwards if and only if the shrunk side does |
| LayoutGeometry.SplitGeometry | src/layout.rs:442-467 | A split cuts the focused pane's rectangle in two halves along the axis, the new pane gets the right or lower one, and no other pane moves |
| LayoutGeometry.CloseGeometry | src/layout.rs:469-494 | The other side of the closed pane's split takes over the rectangle of both, and no other pane moves |
| LayoutGeometry.BorderMoves | src/layout.rs:588-647 | A border moves exactly when the key's direction crosses it, away from the focused pane, and both sides keep six columns or four rows; then by one cell in that direction |
| MediaCredit.ConsumeBalances | src/media.rs:1486-1509 | A charge moves credit from outstanding to charged; a refused record leaves the ledger as it was |
| MediaCredit.ReturnBalances | src/media.rs:1511-1561 | Returned credit leaves the charge and becomes outstanding, byte for byte; a hidden source gets its packets back, a visible one its whole packet window; only a return of more than is charged gives nothing |
| MediaLedger.TakeAllConserves | src/media.rs:1577-1594 | Releasing any list of deliveries in any order conserves every source's credit |
| MediaLedger.IngestConserves | src/media.rs:3819-4070 | An ingest, accepted or refused, conserves credit |
| MediaLedger.StepConservesCredit | src/media.rs:1486-1594 | Every critical section keeps all ledgers balanced and conserves the credit of every surviving source |
| MediaLedger.CreditIsConserved | src/media.rs:893-949 | Over any run a source lives through: outstanding plus charged bytes equal the window, the packet sum only grows within its window, and initial credit plus grants minus use equals what is outstanding |
| MediaLedger.CreditSinceCreation | src/media.rs:3289-3313 | From creation on: the byte window and one packet, plus grants, minus use |
| MediaLedger.EnqueueKeepsQueue | src/media.rs:4022-4046 | An admitted delivery keeps the byte counter exact, above the limit only when it is alone |
| MediaLedger.StepKeepsQueue | src/media.rs:4024-4118 | Every critical section keeps the queue counter exact |
| MediaLedger.QueueStaysExact | src/media.rs:1577-1594 | In every reachable state queued bytes are the sum over the pending deliveries and exceed the limit only for a single one |
| MediaReturns.TakenInFull | src/media.rs:1511-1594 | A pending delivery whose source has it covered gives back exactly its bytes and its packet |
| MediaReturns.StepCoversIff | src/media.rs:3274-3345 | From a state in which all pending deliveries are covered, a step leads out exactly by creating a source under an id with deliveries pending |
| MediaReturns.PendingIsCharged | src/media.rs:1577-1594 | In every reachable state without such a creation, every source has charged what its pending deliveries hold |
| MediaReturns.StaysCharged | src/media.rs:1486-1561 | What a source has charged beyond its pending deliveries stays charged for its whole life |
| MediaReturns.ReusedIdLosesCredit | src/media.rs:4243-4257 | A possible run that uses a source id again while a delivery is pending, and ends with no delivery pending and four bytes charged |
| MediaReturns.NeverWholeAgain | src/media.rs:1525-1531 | However that run goes on, the source never has more than 96 of its 100 bytes again |
| MediaRecovery.IngestHoldsLoss | src/media.rs:3892-3969 | An ingest leaves the loss of other sources alone and never forwards audio linked to a lossy video |
| MediaRecovery.VideoIngestHoldsLoss | src/media.rs:3892-3969 | A visible video that lost synchronization forwards nothing but a keyframe of at least its minimum epoch |
| MediaRecovery.OtherStepsKeepLoss | src/media.rs:4024-4111 | No critical section but an ingest clears a loss |
| MediaRecovery.StepHoldsLoss | src/media.rs:3892-3969 | One step of a run keeps a visible lossy video blocked or forwards its recovery keyframe |
| MediaRecovery.NextForwardedIsAKeyframe | src/media.rs:3892-3969 | While a video stays visible after a loss, whatever happens, the next packet forwarded for it is a keyframe of at least the minimum epoch then in force, and no linked audio is forwarded before |
| MediaRecovery.LossesDesynchronize | src/media.rs:893-949 | A failed handover or delivery, an exhausted budget, a flush and a list of requests of which at least one is emitted for the source all cause such a loss |
| MediaSync.LossExactly | src/media.rs:893-949 | After any step a source has lost synchronization if and only if the step is one that loses it, or it had lost it and the step is no keyframe that ends the loss |
| MediaSync.CompletedExactly | src/media.rs:893-949 | A keyframe is asked for exactly when a delivery failed and its source is a visible video that has not ended; only that source loses synchronization and only its credit changes |
| MediaSync.IngestExactly | src/media.rs:3819-4118 | For every record: whether it is paid, taken, wanted by the bridge and queued; what it leaves retained, queued and synchronized; and which credit it costs, keeps charged or gives back |
| MediaRecovery.EmissionsDesynchronize | src/media.rs:1038-1121 | However long the list of keyframe requests, one emission for a video leaves it desynchronized at the end of the list |
| MediaRecovery.FlushSilencesOtherKinds | src/media.rs:3028-3055 | After a flush a raster or audio source is never forwarded again, in any run |
| MediaFlush.ForwardsIffRecoverable | src/media.rs:3892-3969 | With the way free, some record of a source would be queued at once if and only if it is a video, or a raster or audio source that is synchronized together with the video it is linked to |
| MediaFlush.FlushedForwardsIffVideo | src/media.rs:3028-3055 | With the way free, a flushed source is ever forwarded again, after any run it lives through, if and only if it is a video |
| MediaFlush.FlushTakesTheWay | src/media.rs:3028-3055 | A synchronized raster or audio source could be forwarded right before the flush and cannot right after it; a video can |
| MediaFlush.RasterIsSilenced | src/media.rs:3028-3055 | A possible run from the start in which a raster's frame is forwarded, and after a flush the same frame is taken and dropped |
| MediaRecovery.RequestUsesRoom | src/media.rs:1038-1121 | An emitted keyframe request raises the minimum epoch or replaces a transport-loss reason; a damped one changes nothing; the minimum never decreases |
| MediaRequests.RequestExactly | src/media.rs:1038-1121 | A request is damped exactly when what is pending covers it, and otherwise emitted exactly when someone can be written to; afterwards exactly the keyframes that satisfy it and the earlier demands end the loss |
| MediaRequests.ReasonsMerge | src/media.rs:1082-1095 | Reasons merge in any order and grouping, from a transport loss as the weakest to a failed decoder as the strongest |
| MediaRecovery.AtMostThreeEmissions | src/media.rs:1038-1121 | Between packets, without an explicit minimum, any list of requests to any sources causes at most three NEED_KEYFRAME records for one source |
| MediaRecovery.ThreeIsReached | src/media.rs:1038-1121 | Three records are possible |
| MediaScene.ReplaceRetained | src/media.rs:3970-4005 | Replacing one retained body keeps the retained-byte account exact and within its limit |
| MediaScene.IngestKeepsScene | src/media.rs:3819-4070 | An ingest, also one refused for its quota, keeps the scene valid |
| MediaScene.CreateKeepsScene | src/media.rs:3240-3345 | A created source keeps both quotas and the account |
| MediaScene.CommitKeepsScene | src/media.rs:4132-4170 | A transaction is all or nothing, keeps the node quota and shows only existing sources of its producer |
| MediaCommits.CommitExactly | src/media.rs:4132-4193 | A transaction is accepted exactly when each mutation makes sense in its turn, the structure is valid and what remains is within the quota; then every node is as the last mutation about it says, and all others are untouched |
| MediaCommits.CleanupExactly | src/media.rs:4259-4318 | A disconnect leaves the nodes of others untouched; its own stay exactly as posters, at their last anchor; sources stay exactly while a producer or node keeps them |
| MediaScene.RemoveKeepsScene | src/media.rs:4243-4257 | A destroyed source takes its retained bytes and its nodes along |
| MediaScene.PruneEstablishesScene | src/media.rs:4302-4318 | After pruning every source is alive and the account still exact |
| MediaScene.CleanupKeepsScene | src/media.rs:4259-4300 | A disconnect, with or without kept posters, leaves a valid scene |
| MediaScene.RevokeKeepsScene | src/media.rs:445-469 | Revoking a pane leaves a valid scene |
| MediaScene.ClearAnchorsKeepsScene | src/media.rs:582-604 | Clearing anchors leaves a valid scene |
| MediaScene.StepKeepsScene | src/media.rs:3970-4318 | Every critical section keeps the scene valid |
| MediaScene.SceneStaysValid | src/media.rs:4132-4318 | In every reachable state retained bytes equal the sum over the sources within the limit, every node's source exists, quotas hold, and every source has a live producer or a node |
| MediaFrame.FieldsExactly | src/media.rs:1699-1726 | Apart from credit, synchronization and keyframe demands, a source that lives through a step other than an ingest changes only what a flush, an end of stream or a playback request sets |
| MediaFrame.ProducersExactly | src/media.rs:582-604 | Which producers there are after each step, and which anchors they know |
| MediaFrame.VisibilityExactly | src/media.rs:688-716 | Sources become visible by a projection or when created in an active pane, and hidden by a projection or a deactivation, in no other step |
| MediaFrame.CreationExactly | src/media.rs:3274-3345 | A source is created exactly when there is a place, one record fits and the id is free; with one packet and a whole window of credit, stopped, synchronized and empty |
| MediaFrame.NodesExactly | src/media.rs:445-469 | Which nodes a destroyed source, cleared anchors and a revoked pane take away, and that no other step does and none is changed |
| MediaFrame.SourcesExactly | src/media.rs:4302-4318 | Which sources there are after each step |
| MediaFrame.DeliveriesExactly | src/media.rs:1577-1594 | Deliveries leave the queue only in the steps that name them |
| MediaServer.StepKeepsConsistent | src/media.rs:445-469 | Scene, retained bytes, credit ledgers and queue counter are in order after every critical section that found them so: what each method of the class requires and ensures |
| MediaServer.VirtualVivid.ConsumeSourceCredit | src/media.rs:1486-1509 | The ledger of the source is charged in place |
| MediaServer.VirtualVivid.PrepareCreditReturn | src/media.rs:1511-1561 | Charged credit is taken off the charge in place and granted in full, with the top-up of a visible source; only a return of more than is charged gives nothing |
| MediaServer.VirtualVivid.TakeAll | src/media.rs:1577-1594 | The loop releases the deliveries one after the other |
| MediaServer.VirtualVivid.IngestRecord | src/media.rs:3819-3835 | The locked part of an ingest: outcome, effect and credit of every record exactly as stated by `MediaSync.IngestExactly`; all accounts stay in order |
| MediaServer.VirtualVivid.IngestChargedRecord | src/media.rs:3836-4005 | Decoding, quota and storing of a charged record |
| MediaServer.VirtualVivid.DispatchRecord | src/media.rs:4022-4066 | Queueing towards the bridge, or returning the credit and losing synchronization |
| MediaServer.VirtualVivid.HandoverFailed | src/media.rs:4084-4118 | A full actor queue takes the delivery back and desynchronizes a video |
| MediaServer.VirtualVivid.CompleteBridgeDelivery | src/media.rs:893-949 | A completed delivery leaves the queue and returns its credit; a keyframe is asked for exactly when it failed and its source is a visible video that has not ended, and only that source loses synchronization |
| MediaServer.VirtualVivid.CancelSourceDeliveries | src/media.rs:1611-1629 | Exactly the deliveries of one source leave the queue, their credits released in whatever order they were listed |
| MediaServer.VirtualVivid.DeactivateBridge | src/media.rs:875-891 | Nothing stays visible or queued, every credit is released, playing videos lose synchronization, and all accounts stay in order |
| MediaServer.VirtualVivid.FlushSource | src/media.rs:3028-3055 | A flush starts a new sequence at the requested epoch; with the way free, the source is forwarded ever again exactly when it is a video; all accounts stay in order |
| MediaServer.VirtualVivid.ApplyInnerEos | src/media.rs:1699-1726 | An ended timed source retains nothing; the counter of retained bytes is not touched and is still their sum |
| MediaServer.VirtualVivid.ProjectSnapshot | src/media.rs:609-716 | Visible are exactly the sources with a producer or a placed node in the panes; exactly the deliveries of the others are given up, under the new visibility |
| MediaServer.VirtualVivid.RequestKeyframeRecoveries | src/media.rs:1038-1121 | The loop answers the requests one by one and counts emitted and damped ones |
| MediaServer.VirtualVivid.RequestKeyframeRecovery | src/media.rs:1038-1121 | One request is emitted, damped or ignored, with the merged reason |
| MediaServer.VirtualVivid.CreateSource | src/media.rs:3274-3345 | Quota, size and id checks before a source is inserted, visible at once in an active pane; quotas, credit and retained bytes stay in order |
| MediaServer.VirtualVivid.ApplyTransaction | src/media.rs:4132-4170 | The copy replaces the nodes exactly when every mutation makes sense in its turn, structure and quota are valid; then each node is as the last mutation about it says |
| MediaServer.VirtualVivid.RemoveSource | src/media.rs:4243-4257 | The source, its bytes and its nodes are removed; retained bytes stay the sum over the sources and no node is left without its source |
| MediaServer.VirtualVivid.PruneOrphanedSources | src/media.rs:4302-4318 | The loop drops exactly the sources that neither a producer nor a node keeps alive |
| MediaServer.VirtualVivid.CleanupProducer | src/media.rs:4259-4300 | Only anchored still pictures that may be kept survive their producer |
| MediaServer.VirtualVivid.RevokePane | src/media.rs:445-469 | Exactly the producers of the pane are gone, no node of the pane is left, and every remaining source is alive and accounted for |
| MediaServer.VirtualVivid.ClearAnchors | src/media.rs:582-604 | Anchors of the pane and the nodes retained at anchors are gone |
| Control.ControlState.WriteRecord | src/bridge.rs:412-457 | A request is registered before it is written and unregistered when the write fails; reuse and overflow are refused |
| Control.ControlState.RouteReply | src/bridge.rs:312-339 | A reply is stored, discarded as abandoned, or closes the connection |
| Control.ControlState.WaitReplyTurn | src/bridge.rs:2477-2549 | One turn of a waiter: its reply exactly when that has the expected object and type and is no error, the reason of a close, patience, or a timeout that abandons the request |
| Control.StepKeepsValid | src/bridge.rs:412-457 | Every interleaving keeps pending, stored, abandoned and lost requests disjoint and every stored reply the presenter's answer to its own request |
| Control.AnswerClosesIffLost | src/bridge.rs:312-339 | With at most 4096 unclaimed requests an answer closes the connection exactly when its request was lost |
| Control.AnswerExactly | src/bridge.rs:312-339 | Whatever the number of unclaimed requests: an answer closes the connection exactly when its request was lost or 4096 replies wait, and otherwise is kept for its waiter or dropped as abandoned |
| Control.BeginExactly | src/bridge.rs:412-457 | The next request is registered exactly while fewer than 4096 are pending, under an id never used before |
| Control.ClosesOnce | src/bridge.rs:312-339 | The first reason for which the connection closes stands |
| Control.LostOnlyWhenFull | src/bridge.rs:2520-2536 | A request is lost exactly by a timeout that finds the abandoned set full |
| Control.LateAnswerCloses | src/bridge.rs:2520-2536 | A possible run of 4097 requests, one at a time, each written and timed out, after which the late answer to the last closes the connection as an unknown request |
| Control.WaiterGetsItsOwnReply | src/bridge.rs:2491-2517 | On an open connection a waiter gets the presenter's answer to its own request exactly when that fits, otherwise the error of the first thing that does not, and waits exactly while there is no answer and no timeout |
| Control.OnlyTheTransportCloses | src/bridge.rs:312-339 | Over every run within the bounds no reply closes the connection as unknown or duplicate |
| Control.TimeoutsAreBounded | src/bridge.rs:2520-2536 | Up to 4096 timeouts in a row are such a run |
| Reconcile.IdsAreInjective | src/bridge.rs:1680-1700 | Distinct sources and distinct nodes have distinct outer ids |
| Reconcile.MirrorsExactly | src/bridge.rs:1136-1150 | What agreement after a reconciliation means: each source has its kind, its link and its playing state at the presenter, each node its source and layout, and the presenter has nothing else |
| Reconcile.RecreateIsLeast | src/bridge.rs:998-1024 | Exactly what is new or of another kind is recreated, with the audio linked to it: the least such set |
| Reconcile.CreatedShows | src/bridge.rs:1688-1845 | A creation under the next id is accepted, is linked to the video's current outer id and disturbs nothing |
| Reconcile.CreationOrderIsStable | src/bridge.rs:1680-1687 | Sources are created in a stable order of videos, pictures and audio: a further source comes right after all that may precede it |
| Reconcile.VideosComeFirst | src/bridge.rs:1680-1687 | In creation order every video precedes any audio |
| Reconcile.ForgottenShows | src/bridge.rs:1026-1057 | After the obsolete entries are dropped the kept sources are exactly a part of the new snapshot already shown, links included |
| Reconcile.PlayedShows | src/bridge.rs:2009-2047 | A play or pause request for a shown timed source is accepted and changes only its state |
| Reconcile.PlaybackSettles | src/bridge.rs:1111-1120 | Kept or recreated, a source ends up playing as the snapshot says |
| Reconcile.DestroyedShows | src/bridge.rs:1130-1143 | Destroying an obsolete source that no node shows loses no node |
| Reconcile.LinksFollow | src/bridge.rs:1130-1143 | When the obsolete sources are gone every audio link is in order |
| OuterBridges.NextIsReady | src/bridge.rs:1680-1700 | The next source in creation order is new, and the video it is linked to is there |
| OuterBridges.BuildingGoesOn | src/bridge.rs:1920-1975 | Each node request is valid for the presenter and keeps node ids unique and unused before |
| OuterBridges.NodesAvoidObsolete | src/bridge.rs:1109-1143 | After the node transaction no node shows a source that is to be destroyed |
| OuterBridges.PlaybackIsSettled | src/bridge.rs:1111-1120 | After both playback passes all playing states are those of the snapshot |
| OuterBridges.OuterBridge.FindRecreate | src/bridge.rs:998-1024 | The fixed-point loop finds exactly the new or changed sources and the audio linked to them |
| OuterBridges.OuterBridge.ForgetObsolete | src/bridge.rs:1026-1057 | Exactly the obsolete entries leave the tables |
| OuterBridges.OuterBridge.CreateSources | src/bridge.rs:1680-1904 | All new sources exist at the presenter under ids above the counter, the others keep theirs, unless ids run out |
| OuterBridges.OuterBridge.ReconcileNodes | src/bridge.rs:1906-2007 | One transaction makes the presenter's nodes exactly the list; nodes that stay keep their ids |
| OuterBridges.OuterBridge.UpdatePlayback | src/bridge.rs:1283-1307 | Changes of playing and of the play request are passed on, and nothing else |
| OuterBridges.OuterBridge.DestroyObsolete | src/bridge.rs:1130-1143 | The obsolete sources disappear and no node with them |
| OuterBridges.OuterBridge.Reconcile | src/bridge.rs:948-1150 | A valid snapshot is reconciled while ids last; afterwards sources, links, playing states and nodes equal it under inverse id tables. Sources outside the recreate set and nodes that stay keep their ids; every other id was never used before, and used ids are never forgotten |
| OuterBridges.OuterBridge.ReconcileAll | src/bridge.rs:948-1150 | After any sequence of successful reconciliations the presenter shows the latest snapshot, and every id in the tables belonged to the same source or node at the start or was never used until then |
| ClientInput.StepsAppend | src/client_input.rs:156-259 | Cutting the input anywhere does not change the parsed events |
| ClientInput.PlainInputPasses | src/client_input.rs:156-259 | Bytes outside any key chord reach the pane unchanged |
| ClientInput.MouseRoundTrip | src/client_input.rs:290-318 | Every well-formed SGR report is read back with zero-based coordinates, and a coordinate of zero is refused |
| ClientInput.PrefixParser.Feed | src/client_input.rs:156-259 | Flattened to bytes, the output of one read is that of the byte-wise parser |
| ClientInput.PrefixParser.FeedAll | src/client_input.rs:156-259 | Any chunks give the events of the whole stream |
| KeyChords.KeyActs | src/client_input.rs:220-253 | After the prefix each key does what it is configured or listed to do, the prefix key is passed on once, any other does nothing, and the parser is back where it started |
| KeyChords.CloseIsConfirmed | src/client_input.rs:160-166 | A pane is closed on `y` or `Y` and on no other answer |
| KeyChords.ArrowsAct | src/client_input.rs:320-335 | Arrow keys after the prefix move the focus in their direction, and with the control modifier resize |
| KeyChords.StrangeSequencesDoNothing | src/client_input.rs:167-178 | Any other sequence after the prefix is swallowed, at most seven bytes of it |
| KeyChords.NothingIsSwallowed | src/client_input.rs:179-219 | Without prefix and report, every byte reaches the pane in order or is held back |
| KeyChords.OnlyReportsAreHeld | src/client_input.rs:179-219 | Held back is only what may still become a mouse report, fewer than 64 bytes |
| KeyChords.ReportsArrive | src/client_input.rs:179-219 | A mouse report fed to the parser arrives as that event |
| KeyChords.NumbersExactly | src/client_input.rs:290-318 | A coordinate or button is read exactly when it is a number of 16 bits, perhaps with a plus sign |
| KeyChords.EditKeysExactly | src/client_input.rs:89-102 | In the edit mode arrows step by one cell, with shift by five, and no other sequence is recognized |
| KeyChords.EditBytesExactly | src/client_input.rs:26-69 | Outside a sequence Enter commits, ESC is held back and any other byte is passed on |
| FloatEdit.PrefixesAreExact | src/client_input.rs:104-118 | The prefix test accepts exactly the beginnings of recognized sequences |
| FloatEdit.ScanAppend | src/client_input.rs:26-69 | Cutting the stream anywhere does not change its segments |
| FloatEdit.EveryByteIsAccounted | src/client_input.rs:26-69 | Each byte is passed on in order, held back, or part of exactly one recognized sequence |
| FloatEdit.FloatEditScanner.ScanRead | src/client_input.rs:26-69 | Commands, forwarded bytes and held bytes of a read are those of one cutting of the stream |
| FloatEdit.FloatEditScanner.ScanReads | src/client_input.rs:26-69 | Any chunks give the commands and forwarded bytes of the whole stream up to the first Commit |
| FloatEdit.FloatEditScanner.Expire | src/client_input.rs:71-80 | Only a lone ESC that waited long enough becomes a Cancel |
| FloatEdit.FloatEditScanner.Reset | src/client_input.rs:83-86 | Held bytes are handed back |
| BigEndian.WordRoundTrips | src/ipc.rs:679-701 | Words survive network byte order |
| Framing.ReadsWhatWasWritten | src/ipc.rs:679-701 | A reader takes back exactly what a writer may send and names the error of everything else |
| Framing.AcceptsOnlyRecords | src/ipc.rs:679-701 | Whatever is accepted is byte for byte a sendable record with the expected sequence number |
| Framing.StreamRoundTrip | src/ipc.rs:679-751 | A whole stream of records is accepted in sequence |
| Framing.MediaRoundTrip | src/ipc.rs:929-968 | Decoding inverts encoding on consistent chunks and refuses every other |
| Framing.MediaDecodesOnlyEncodings | src/ipc.rs:929-968 | Only a chunk's own encoding decodes to it |
| Framing.ChunksAreSendable | src/ipc.rs:820-853 | Every chunk of a body is consistent and its record respects the ceiling |
| Framing.DecodesChunks | src/ipc.rs:820-968 | The records of a body decode to its chunks |
| Framing.RecordWriter.WriteRawParts | src/ipc.rs:719-751 | One record is written whole, or an error and nothing |
| Framing.RecordWriter.WriteMediaRecord | src/ipc.rs:758-768 | One media record is written whole, or nothing |
| Framing.RecordWriter.SendMediaRecord | src/ipc.rs:820-853 | A body is sent whole exactly when its length fits 32 bits and one payload byte fits a record |
| Framing.RecordReader.ReadRaw | src/ipc.rs:679-701 | The reader advances exactly past an accepted record |
| WireLayout.RecordLayout | src/ipc.rs:719-751 | Sequence number, type, flags and length lie in this order in the sixteen header bytes, most significant byte first |
| WireLayout.MediaLayout | src/ipc.rs:758-768 | The fields of a media record lie at their offsets in its forty header bytes, with the last mark in bit 0 |
| WireLayout.RenderLayout | src/ipc.rs:770-795 | The fields of a terminal record lie at their offsets in its 24 header bytes, with the full mark in bit 0 and the last mark in bit 1 |
| WireLayout.SequenceCounts | src/ipc.rs:719-751 | Sequence numbers count records modulo 2^64 |
| WireLayout.ChunkSizes | src/ipc.rs:820-885 | Chunks are as large as the ceiling allows, up to 128 KiB of a body and 256 KiB of a frame |
| WireLayout.MediaChunksAreFull | src/ipc.rs:820-853 | Every chunk but the last is full, the last is empty only with the body, and chunk `i` starts at `i` times the size |
| WireLayout.RenderChunksAreFull | src/ipc.rs:856-885 | Every record of a frame but the last is full |
| RenderFraming.RenderRoundTrip | src/ipc.rs:970-993 | Terminal records decode to what was encoded |
| RenderFraming.RenderDecodesOnlyEncodings | src/ipc.rs:970-993 | Only a terminal record's own encoding decodes to it |
| RenderFraming.FrameChunksAreExact | src/ipc.rs:856-885 | The records of a frame give its bytes back, with the full mark only on the first and the last mark only on the last |
| RenderFraming.FrameArrives | src/ipc.rs:856-993 | A reader with the same ceiling takes the whole frame back |
| RenderFraming.SendRenderRecord | src/ipc.rs:856-885 | A frame is sent whole exactly when one payload byte fits a record |
| BodyAssembly.BodyAssembler.MediaChunk | src/bridge.rs:1348-1385 | A chunk touches only its own source's body; gaps, overruns and short bodies are refused |
| BodyAssembly.SourcesAreIndependent | src/bridge.rs:1348-1385 | What happens to a source depends only on its own chunks |
| BodyAssembly.DeliveriesReassemble | src/bridge.rs:1348-1385 | Bodies sent one after the other for a source come back whole and in order |
| BodyAssembly.InterleavingsReassemble | src/bridge.rs:1348-1385 | Under any loss-free interleaving every source receives exactly the bodies sent to it, and nothing fails or is left over |
| BodyAssembly.EveryBodyArrives | src/ipc.rs:820-968 | From the writer's stream through reader and decoder, the assembled bodies are those sent |

## Left out

- Sockets, threads, condition variables, clocks, heartbeats and the process, registry and authentication files. Each
  critical section is one step, times are parameters, a timeout is a step that may always be taken.
- The codecs and checks of `vivid_protocol` are not part of this model. Parsed bodies are values; a parsed delta is
  taken to stay inside its image, a fresh media sequence to be at epoch zero, the sequence check, the structure check
  of a scene and the validation of a snapshot are inputs or assumed contracts, and encoded lengths are parameters
  where only their comparison matters.
- Source and scene revisions, milestones, metrics, play requests inside the inner presenter and the media trace: the
  sections that update them are modelled without them, and their counters are taken not to be exhausted.
- On Windows a node may be committed before its anchor is seen (`src/media.rs:4185-4190`); the model is of the other
  platforms.
- Image decoding and hashing are an input to an ingest; image-cache hits are not modelled.
- The registry of source waits, and EOS, delegated pane contexts, capture policies, descriptors, source losses and
  session replacement in reconciliation.
- The outer presenter of reconciliation is stricter than `src/media.rs:3282-3284`: it refuses an id that was ever used,
  not only one in use.
- Failing or unanswered control requests during reconciliation: the presenter answers each of them, so the waits for
  replies are not separate steps.
- Video forwarding across hidden periods: a keyframe ingested while hidden clears the loss, so recovery is stated for
  the time a source stays visible.
- Image equality after lost raster deliveries: the bridge does not compare the inner base, so only the chain is claimed
  there.
- Layout.TiledLayout.SplitPane: a focused pane with fewer than two cells on the axis is excluded, because `clamp`
  panics there; `SplitFits` says that this is exactly when the new tree does not fit. The source recurses into boxed
  nodes it updates in place; the tree is a value here and the class stores the new tree, so sharing of nodes is not
  modelled.
- Screen.AnsiDiff: works on tokens for cursor movement, style and characters; of their spelling only that of hyperlinks
  is modelled, and the width of characters is a table given as a parameter.
- ClientInput.PrefixParser.Feed: one byte is handled by a method of its own instead of the body of the loop.
- FloatEdit.FloatEditScanner.ScanRead: the branch for a command that ends the mode inside a sequence is omitted,
  because no sequence stands for such a command.
- BodyAssembly.BodyAssembler.MediaChunk: only bodies of sources that are not image-cache hits.
- What a terminal shows instead of a screen that is not well formed, and `draw_terminal` (`src/screen.rs:90-102`), which
  copies the cells of a pane.
- MediaServer.VirtualVivid.ProjectSnapshot: whether the coordinates of an anchored node are in range is an input, and
  the snapshot it returns is not modelled, only what it does to the state.
- Overflow of `usize` lengths, which no body in memory reaches.
- The floating layer, directional focus, automation chunks, the connection preface, configuration, gateway and command
  line.
