# Verification model of the OMAP hardware composer, heap tracker and camera buffers

This project models the parts of the TI OMAP hardware abstraction layer that compute something hard
to see by reading, and proves what they are for.

**The 2D regionizer** (`hwc/rgz_2d.c`). A z-ordered list of layers becomes a list of clipped blits.
Pixels are premultiplied colours over exact reals, a framebuffer is a function from screen points to
pixels, and a blit is a step on one pixel (`Blits.Step`). The reference is the painter's algorithm
(`Painter.Compose`). Paint mode is proved equal to it. Region mode draws cell by cell, and only where
something may have changed; `Runs.EveryRunIsRight` says exactly when that is enough, for every run of
region frames, repainted frames and resets over two alternating framebuffers: all frames are right
when shown if and only if each of them is `Runs.Faultless`, a condition on the layer lists alone.
`Stacks` proves why it is the right one: two layer lists show the same pixel, whatever the buffers
hold, exactly if the same reads can be seen, from the top down. `Blits.SourcePointDisplayed` ties the
reads to what a layer's transform means, and `Runs.StillRunRests` says that region mode is worth it: a
screen that stands still is no longer drawn.

**The overlay planner** (`hwc/hwc.c`). Layers are split between display pipes and one framebuffer
plane. `Frames.DisplayShowsList` says that blending the planes by z-order shows the painted list;
`Frames.OverlaysNeverShared` says that the four overlays are never asked of two displays at once, and
that cloning, once granted, is really done; `Frames.SecondFrameServed` says what the external display
then shows. `Planner.RendersAllExactly` says exactly when "the display can render all", and
`Planner.NoLayerLost` when that loses no layer. `Crop` is the window cropping, `HdmiModes` the fitting of
a picture into a mode and the choice of a mode by a packed score.

**Both together**: `EndToEnd.ShowFrames` plays any sequence of frames on the device and the
regionizer, each prepared, blitted or reset, and posted. `EndToEnd.FaultlessRunDisplayed` says of all
those runs that after every blitted frame, if the frames have been faultless up to it, the overlays
over the framebuffer display the painted list; `EndToEnd.EveryFrameDisplayed` says so of every frame, be
it blitted, composed by SGX, or all overlays, unless a layer slips through. Whoever has to fill the
framebuffer does, exactly one of the two, and every image and overlay finds its buffer in the list
that is posted.

**The heap tracker** (`heaptracker.c`): two intrusive linked lists on real references, with a bounded
first-in-first-out quarantine.

**Camera buffers** (`camera/BaseCameraAdapter.cpp`, `camera/NV12_resize.c`): the reference counts that
decide when the camera gets a shared buffer back, and fixed-point bilinear scaling, which keeps every
picture that bilinear interpolation should keep, luma and both chroma channels
(`Resize.LumaKept`, `Resize.ChromaKept`).

## How to read it

| file | what it holds |
|---|---|
| `Geometry`, `Pixels`, `Layers`, `Rotation` | rectangles, C's division, colours, layers, quarter turns |
| `SortUnique` | in-place sort and duplicate removal |
| `Blits`, `Painter`, `Stacks`, `Cells` | what a blit does, what a frame should show, what decides a pixel, what a cell is |
| `DirtyTracking` | dirty counts and the damaged area, and why skipped pixels are right |
| `Regions`, `Output`, `BlitList`, `Progress` | cutting the screen, filling the blit buffer, batches, cell after cell |
| `Regionizer`, `Runs`, `Witnesses` | the regionizer object, whole runs, runs that end with a wrong picture |
| `Planner`, `Planes`, `Device`, `Frames` | planning as mathematics, planes as pictures, the device's methods, frames over time |
| `EndToEnd` | planner and regionizer together |
| `Crop`, `HdmiModes`, `HeapTracker`, `FrameCounts`, `Resize` | as named |

Code that updates state is a class or a method with loops, proved against functions and predicates;
the lemmas are about those. `asked`, `ycuts`, `xcuts`, `nodes`, `known`, `live`, `lost`, `refills` and
`switched` are ghost state that the methods keep up to date.

## Where the code falls short, exactly

- Incremental region mode. A pixel that is drawn is right exactly if every image to be seen there may be
  cut out along the pixel's cell (`Stacks.VisiblyDrawable`); one that is skipped is right exactly if the
  same can be seen in the current frame as in the frame its framebuffer holds. With unique identities,
  the layers that cover a pixel outside the damaged area have changed exactly if a layer that was away
  for one frame had its old place there (`DirtyTracking.UndamagedCoverExactly`).
  `DirtyTracking.Steady` is sufficient for skipped pixels and concerns only which layers follow on
  which: identities are unique in a frame; an identity keeps its blending mode, and its z-order relative
  to overlapping layers; a layer that was away for one frame has not moved. `Witnesses.StaleRun` has a
  run of three accepted frames for each condition, in which the third frame breaks that condition alone
  and is shown wrong; uniqueness is broken there in the frame that the framebuffer holds.
- Mirrored NV12 layers: a piece of one shows the right pixels exactly if it is centred
  (`Blits.PieceReadsLayer`). `Witnesses.MirroredCut` is an accepted frame that shows one column of a
  video where another belongs. Paint mode has no such condition.
- Overlays for an RGB layer under a docking transform (`Planner.SlipsThrough`): the aggregate test lets
  it through, the test of the single layer refuses it, and it is shown nowhere
  (`Frames.LayerLost` prepares such a frame).
- While mirroring, the overlays do not get a pipe each exactly if clones are made and two layers that
  both need scaling are the whole picture (`Device.MirrorPipes`, part of the contract of `Prepare`;
  `Frames.MirrorCollision` prepares such a frame).
- Cutting a crop on both sides of one axis: the source that stays is within one pixel of its share, but
  what goes on the far side can exceed its share by almost two (`Crop.CutInProportion`;
  `Crop.FarCutTooLarge` has a case of more than one).
- Stopping a recording loses a buffer exactly if it is held by several video consumers only
  (`FrameCounts.StopKeepsOwned`); with two video subscribers any buffer can come to that
  (`FrameCounts.TwoVideoSubscribersLose`).
- Scaling a picture up: the chroma taps stay in their plane exactly if the last one does
  (`Resize.ChromaInsideExactly`). For even inputs they do whenever the output is below twice the input
  size less one, and leave it at that size (`Resize.ChromaFitsBelow`). Chroma rows are written
  at a pitch of twice the halved width, which is the output stride exactly if the width is even
  (`Resize.ChromaPitchExactly`).

## What is taken for granted

- Formats without alpha read as opaque (`Blits.OpaqueFormats`), and a layer without blending has an
  opaque colour where the display blends planes (`Planes.Consistent`).
- Layers carrying the clear hint are not blended (`Regionizer.HintsUnblended`). The layer loop sets the
  hint only that way (hwc/hwc.c:1686), so it holds of every list it hands on (`EndToEnd.HintsKept`).
- No layer of a frame asks for COVERAGE blending (`EndToEnd.NoCoverage`): the layer loop counts it as
  blended (hwc/hwc.c:312), the regionizer does not (hwc/rgz_2d.c:156).
- A handle stands for one content of its buffer, as the dirty tracking itself assumes.

## Model

| member | source | states |
|---|---|---|
| SortUnique.BSort | hwc/rgz_2d.c:819-831 | the first `len` entries become sorted and keep their multiplicities; the rest of the array is untouched |
| SortUnique.SettleNext | hwc/rgz_2d.c:824-829 | one comparison, with its exchange, settles one more entry against entry `i`: what came before stays sorted, and what has been compared is not above it |
| SortUnique.Backfill | hwc/rgz_2d.c:841-850 | back-filling in place keeps order and the set of values, leaves the next value right after the current one, and stops exactly at the last value |
| SortUnique.BUnique | hwc/rgz_2d.c:836-855 | terminates and leaves a strictly increasing prefix of the returned length with exactly the original values |
| SortUnique.SortAndUnique | hwc/rgz_2d.c:884-885 | both passes on any non-empty array: a strictly increasing prefix with exactly the values that went in |
| SortUnique.BackfillKeeps | hwc/rgz_2d.c:848-849 | overwriting repeats by the next larger value changes neither order nor the set of values |
| SortUnique.TailRepeats | hwc/rgz_2d.c:845-846 | when the scan stops early, what lies beyond the kept prefix only repeats its last value |
| Pixels.OverAssociative | hwc/rgz_2d.c:641-644 | source-over on premultiplied colours is associative, which lets two layers be blended in one command |
| Pixels.OverOpaque | hwc/rgz_2d.c:155-156 | an opaque colour hides what is below it |
| Rotation.NormalIsRemainder | hwc/rgz_2d.c:316-322 | adding 360 after C's truncating remainder gives the mathematical remainder for negative angles too |
| Rotation.NormalAdds | hwc/rgz_2d.c:316-322 | normalised angles add up modulo 360 |
| Rotation.ViewHoldsTurnedPoints | hwc/rgz_2d.c:299-348 | a rotated view holds a turned point exactly if the rectangle holds the point |
| Rotation.TurnsCompose | hwc/rgz_2d.c:299-348 | turning by one angle and then by another is turning by their sum |
| Rotation.ViewsCompose | hwc/rgz_2d.c:305-348 | rotated views compose: a view of a view is the view by the sum of the angles |
| Rotation.ViewsInvert | hwc/rgz_2d.c:369-377 | turning a view back by the negative angle gives the rectangle it came from |
| Blits.SrcRectHoldsSourcePoints | hwc/rgz_2d.c:350-388 | for an unscaled layer the source rectangle of a piece holds the source point of exactly the pixels of the piece |
| Blits.SrcRectInsideCrop | hwc/rgz_2d.c:350-388 | a piece inside the display frame only reads inside the source crop |
| Blits.TurnedSourceReads | hwc/rgz_2d.c:465-531 | with the source turned, every pixel of a piece reads the same source pixel as the whole layer does |
| Blits.TurnedTargetReads | hwc/rgz_2d.c:609-620 | with the destination turned the other way, as for NV12, the source pixel read is the right one exactly if the piece is centred |
| Blits.MirroredPieceExact | hwc/rgz_2d.c:1519-1531 | a piece of a mirrored unscaled layer reads the right source pixel exactly if the piece is centred |
| Blits.PieceReadsLayer | hwc/rgz_2d.c:588-628 | the command that draws a piece reads, at any pixel, what the whole layer shows there, exactly if the layer is scaled or the piece centred |
| Blits.TouchesRegion | hwc/rgz_2d.c:537-553 | the clip of a command limits it to the pixels of its region, also when the destination is turned |
| Blits.CopyStep | hwc/rgz_2d.c:588-628 | a copy command puts what the piece reads inside its region and leaves every other pixel alone |
| Blits.BlendStep | hwc/rgz_2d.c:635-690 | a blend command puts what the piece reads over what was there, inside its region only |
| Blits.BlendPairStep | hwc/rgz_2d.c:669-685 | the merged first command puts the upper layer over the lower one, whatever was there before |
| Blits.ClearStep | hwc/rgz_2d.c:696-733 | a clear command leaves transparent pixels inside its rectangle and touches nothing else |
| Blits.SourcePointDisplayed | hwc/rgz_2d.c:1508-1531 | every pixel of an unscaled layer shows the pixel of its crop that the transform puts there: flips first, then a quarter turn clockwise, for all eight transforms |
| Blits.ScaledCorners | hwc/rgz_2d.c:465-531 | the request for a scaled layer covers its frame, and stretches the corners of the crop to the corners where the transform puts them |
| Blits.CropCornerDisplayed | hwc/rgz_2d.c:588-628 | turning the source, or the destination the other way for NV12, and flipping comes to the transform |
| Painter.ReplacesHides | hwc/rgz_2d.c:140-158 | the layers at which the walk stops do not depend on anything below them |
| Painter.ReplacesExactly | hwc/rgz_2d.c:140-158 | the walk stops exactly at the layers that hide what is below them, whatever the buffers hold |
| Painter.ComposeSelected | hwc/rgz_2d.c:1339-1345 | inside a horizontal region, painting only the layers that meet it is painting all layers |
| Painter.DirtySelected | hwc/rgz_2d.c:1339-1345 | and the layers that meet it show the same dirt as all layers do |
| Stacks.ComposeIsBlend | hwc/rgz_2d.c:140-158 | painting from the back is blending what is read from the top down to the first layer that hides the rest |
| Stacks.FirstDifferenceShows | hwc/rgz_2d.c:140-158 | two different stacks of reads can be told apart by lighting the read where they first differ |
| Stacks.ShownAlikeExactly | hwc/rgz_2d.c:140-158 | two layer lists show the same at a pixel, whatever the buffers hold, exactly if they have the same stack there |
| Stacks.PiecesRightExactly | hwc/rgz_2d.c:588-628 | the pieces of a cell show what whole layers show at a pixel exactly if every image to be seen there may be cut out for the cell |
| DirtyTracking.IndexOf | hwc/rgz_2d.c:1020-1033 | the first layer with the identity, never the background, or -1 if there is none |
| DirtyTracking.DamageHolds | hwc/rgz_2d.c:980-1017 | the damaged area holds every on-screen pixel of every frame that was added |
| DirtyTracking.DamageOnScreen | hwc/rgz_2d.c:991-1001 | the damaged area never leaves the screen |
| DirtyTracking.DamageWithin | hwc/rgz_2d.c:980-1017 | the damaged area is inside every rectangle that holds the on-screen parts of all frames that were added |
| DirtyTracking.TrackingKeepsAges | hwc/rgz_2d.c:1117-1123 | whatever the frames are, a count that has come down means that the layer was in the frame before with the same content |
| DirtyTracking.AgainAges | hwc/rgz_2d.c:1036-1067 | when the same frame comes again, and no layer has moved since the target frame, all dirty counts come down |
| DirtyTracking.StillScreenRests | hwc/rgz_2d.c:1090-1174 | when one frame is presented four times in a row, with unique identities, the fourth time no pixel is redrawn, whatever was shown before |
| DirtyTracking.CleanLayerUnchanged | hwc/rgz_2d.c:1036-1067 | a dirty count of zero means that the previous and the target frame have the same content, whatever the identities; the first layer of the target with that identity has the same place, and with unique identities the same content |
| DirtyTracking.UndamagedCoverExactly | hwc/rgz_2d.c:1125-1173 | with unique identities, outside the damaged area the current and the target frame cover a pixel with the same layers exactly if no layer that was away for one frame had its old place there |
| DirtyTracking.CleanPixelUnchanged | hwc/rgz_2d.c:1583-1602 | where no visible layer is dirty, and the frames are steady, the same reads can be seen in the current and the target frame |
| DirtyTracking.NotRedrawnIsRight | hwc/rgz_2d.c:1090-1174 | at a pixel that is not redrawn, steady frames have the same reads to be seen; `Runs.PixelRightExactly` says that this is exactly what being right takes |
| DirtyTracking.NoTargetRedrawsAll | hwc/rgz_2d.c:1104-1129 | after a reset every pixel counts as dirty or damaged, so all are redrawn |
| Cells.DirtyCellPixel | hwc/rgz_2d.c:1590-1600 | one dirty decision for a cell is right for each of its pixels |
| Cells.BottomBare | hwc/rgz_2d.c:1604-1617 | discarding the background under other layers does not change what they show |
| Cells.AboveHoleBare | hwc/rgz_2d.c:1619-1630 | a clear hint at the bottom may be dropped, since what is above it is painted onto transparency |
| Cells.DrawPair | hwc/rgz_2d.c:1641-1651 | the merged command draws a cell up to the second covering layer |
| Cells.DrawBlend | hwc/rgz_2d.c:1675-1681 | one more blend draws the cell up to the next covering layer, piece by piece |
| Cells.DrawnAll | hwc/rgz_2d.c:1675-1675 | when no covering layer is left above, the cell shows the composition of all pieces |
| BlitList.BltList.Get | hwc/rgz_2d.c:1756-1768 | every command asked for is recorded; the buffer equals the record until it is full, after which the last slot is used again |
| BlitList.ReplayFaithful | hwc/rgz_2d.c:1563-1568 | replaying a bracketed command list from the declared changes alone reconstructs every command |
| BlitList.ChangesSuffice | hwc/rgz_2d.c:1683-1718 | the declared change flags suffice to go from one layer of a cell to the next, through scaling and turned NV12 destinations |
| BlitList.QueuedConcat | hwc/rgz_2d.c:1723-1726 | closed batches follow each other without interfering |
| BlitList.FenceLast | hwc/rgz_2d.c:1841-1845 | making the last command synchronous keeps batches bracketed and effects the same, and makes it the only synchronous one |
| Output.GetLayerOps | hwc/rgz_2d.c:145-162 | counts the layers from the top down to the first one that hides the rest, and finds it |
| Output.GetLayerOpsNext | hwc/rgz_2d.c:164-171 | the next covering layer above, or -1 if there is none |
| Output.SubregionBlit | hwc/rgz_2d.c:1570-1735 | appends commands that redraw exactly the pixels of the cell that need it, in closed batches; fails exactly if no layer meets the cell |
| Output.EmitCell | hwc/rgz_2d.c:1604-1733 | the commands for a dirty cell leave the composition of its pieces in it, write nowhere else, and are no more than there are layers |
| Output.FirstImage | hwc/rgz_2d.c:1604-1630 | passing over the background and a clear hint finds the layer to begin with, or that there is nothing but a hole |
| Output.EmitBatch | hwc/rgz_2d.c:1634-1726 | two or more layers become one bracketed batch that draws all of them |
| Output.FirstCommand | hwc/rgz_2d.c:1638-1664 | the two lowest layers are drawn by one command if neither is scaled or NV12, else the lowest is copied |
| Output.BeginBatch | hwc/rgz_2d.c:1638-1672 | the opening command draws the cell up to its layer and declares what the next one may change |
| Output.NextOfBatch | hwc/rgz_2d.c:1675-1720 | each further command draws one more layer and declares every field it changes |
| Output.RestOfBatch | hwc/rgz_2d.c:1674-1721 | the loop draws the cell up to the topmost covering layer within one open batch |
| Output.CloseBatch | hwc/rgz_2d.c:1723-1726 | a batch of one becomes a single command, a longer one is ended, with the same effect |
| Output.CellRedrawn | hwc/rgz_2d.c:1583-1602 | the decision for the whole cell agrees with the per-pixel meaning of dirty and damaged |
| Regions.XCuts | hwc/rgz_2d.c:867-886 | the offsets fit their fixed array and end up as the increasing sequence of exactly the edges |
| Regions.GenBlitRegions | hwc/rgz_2d.c:857-911 | every rectangle is written inside its array; it is the cell if the layer meets the cell and zero otherwise |
| Regions.CellFits | hwc/rgz_2d.c:1308-1316 | a cell is wholly inside or wholly outside any rectangle whose clipped edges are among the cuts |
| Regions.RegionCells | hwc/rgz_2d.c:1332-1356 | every cell is indivisible for all its layers and for the damaged area, with the background underneath |
| Regions.CellHoldsPixel | hwc/rgz_2d.c:1303-1356 | the cell a pixel falls into is determined by the frame and the damaged area: neighbouring edges around it |
| Progress.CellsPartition | hwc/rgz_2d.c:1290-1356 | each screen pixel lies in exactly one cell, whose non-zero rectangles name exactly the layers that cover the pixel; the cell meets the damaged area exactly if the pixel does |
| Progress.OneCell | hwc/rgz_2d.c:1290-1356 | no two cells hold the same pixel |
| Progress.CellNames | hwc/rgz_2d.c:1339-1356 | the non-zero rectangles of a cell name exactly the layers that cover its pixels |
| Progress.BackgroundEverywhere | hwc/rgz_2d.c:1575-1581 | on the screen the background covers every cell, so the case the source calls impossible is impossible |
| Progress.SpanningGapless | hwc/rgz_2d.c:1575-1581 | if every layer reaches the rows of the screen no cell is without a layer |
| Progress.DrawingCell | hwc/rgz_2d.c:1818-1822 | one more cell brings its pixels up to date and leaves all others as they were |
| Progress.LastRow | hwc/rgz_2d.c:1807-1823 | after the last region the whole screen is up to date |
| Regionizer.FrameOfState | hwc/rgz_2d.c:1219-1249 | an accepted list is stored as the background followed by images with a buffer and unblended clear hints, mirror images only in NV12 |
| Regionizer.CandidateStored | hwc/rgz_2d.c:1219-1249 | every candidate of the list is stored in its turn, with its identity, geometry and blending, and its own buffer if it is to be blitted |
| Regionizer.ValidExactly | hwc/rgz_2d.c:924-955 | what can be blitted: a layer that is not to be skipped, with a buffer in one of six formats, a mirror image only in NV12 |
| Regionizer.FrameIndexed | hwc/rgz_2d.c:1200-1227 | images are numbered in order after the overlays of the list |
| Regionizer.HandlesPosted | hwc/rgz_2d.c:1831-1839 | in the buffers of the overlays followed by those collected, the index of every image leads to its buffer |
| Regionizer.Rgz.constructor | hwc/rgz_2d.c:1971-1978 | a new regionizer has nothing stored |
| Regionizer.Rgz.Release | hwc/rgz_2d.c:1971-1978 | forgets both stored frames and the regions |
| Regionizer.Rgz.FindLayer | hwc/rgz_2d.c:1020-1033 | the search loop returns the first layer with the identity |
| Regionizer.Rgz.HandleDirtyRegion | hwc/rgz_2d.c:1090-1174 | sets the dirty counts and the damaged area that tracking defines from the previous and the target frame |
| Regionizer.Rgz.InHwcCheck | hwc/rgz_2d.c:1186-1270 | succeeds exactly if there is a candidate, all can be blitted and there is room; then the frame is tracked, stored, and its images numbered after the overlays; the framebuffers take turns |
| Regionizer.Rgz.BuildFrame | hwc/rgz_2d.c:1204-1253 | builds the frame of the list, or reports exactly the lists that do not fit |
| Regionizer.Rgz.StoreFrame | hwc/rgz_2d.c:1255-1269 | the tracked frame replaces the target state, and the states stay valid |
| Regionizer.Rgz.InHwc | hwc/rgz_2d.c:1272-1359 | fails exactly if the edges could overflow the fixed arrays; else leaves regions that belong to the current frame |
| Regionizer.Rgz.YCuts | hwc/rgz_2d.c:1303-1320 | the horizontal cuts are the increasing sequence of exactly the clipped edges, inside the fixed array |
| Regionizer.Rgz.OutRegion | hwc/rgz_2d.c:1793-1860 | succeeds exactly if no cell is without a layer and the blit slots suffice, which they do for four layers and the background; then the commands redraw exactly the pixels that need it, batches are bracketed and only the last command is synchronous; every image finds its buffer among those handed on |
| Regionizer.Rgz.RowsOut | hwc/rgz_2d.c:1807-1823 | the loop over the regions stops exactly at a region with a gap, else it brings the whole screen up to date |
| Regionizer.Rgz.CellsOut | hwc/rgz_2d.c:1809-1822 | the cells of one region are brought up to date in order, or the first without a layer stops the output |
| Regionizer.Rgz.CellOut | hwc/rgz_2d.c:1810-1822 | one more cell brings its pixels up to date, unless no layer meets it |
| Regionizer.Rgz.OutPaint | hwc/rgz_2d.c:735-792 | the commands leave the painter's composition whatever was on the screen before, and every image finds its buffer among those handed on |
| Regionizer.Rgz.Submit | hwc/rgz_2d.c:1841-1852 | succeeds exactly if the blit buffer did not run full; the last command becomes the fence |
| Regionizer.Rgz.CollectHandles | hwc/rgz_2d.c:1831-1839 | the buffers handed on are those of the image layers, in order |
| Regionizer.PaintNext | hwc/rgz_2d.c:746-776 | one more command of paint mode paints one more whole layer, mirror images included |
| Runs.BlitLayers | hwc/hwc.c:1419-1537 | accepts only lists that can be blitted, and surely those painted or with few layers that reach the screen; a failure resets the regionizer; success in either mode leaves the contract of that mode and the stored frames one step on, and buffers that every image finds after those of the overlays |
| Runs.AskRegions | hwc/rgz_2d.c:1952-1960 | asking for regions is refused exactly when the list cannot be blitted, if there are few layers that reach the screen; else the frame is tracked against the previous and the target frame |
| Runs.BlitFrame | hwc/hwc.c:1419-1537 | every call, with its two framebuffers, is an event of the machine whose runs are considered |
| Runs.Play | hwc/hwc.c:1419-1537 | every sequence of calls on a fresh regionizer is a run, with the events that the calls ask for |
| Runs.PixelRightExactly | hwc/rgz_2d.c:1583-1602 | what an incremental frame leaves at a pixel is right, whatever the buffers hold, exactly if the pixel is faultless |
| Runs.RegionFrameRight | hwc/rgz_2d.c:1258-1267 | one incremental frame makes the target framebuffer right on the whole screen exactly if it is faultless |
| Runs.NextKeepsRight | hwc/hwc.c:1744-1756 | after any event all stored frames are what their framebuffers show exactly if the event was faultless |
| Runs.EveryRunIsRight | hwc/rgz_2d.c:969-978 | in every run from a reset, all frames so far were right when shown exactly if all of them were faultless |
| Runs.DisciplinedRun | hwc/rgz_2d.c:969-978 | runs of steady frames without unscaled mirror images are right throughout |
| Runs.StillRunRests | hwc/rgz_2d.c:1583-1602 | in every run, the commands for the fourth of four equal region frames leave their framebuffer alone |
| Runs.RegionRefinesPaint | hwc/rgz_2d.c:735-792 | with nothing stored, region mode and paint mode leave the same pixel from any contents exactly if all that can be seen there may be cut out along its cell |
| Witnesses.ReturningConditions | hwc/rgz_2d.c:1125-1129 | a layer that is away for one frame and returns elsewhere breaks one condition alone |
| Witnesses.ReturningClean | hwc/rgz_2d.c:1125-1129 | and then its old place is neither damaged nor dirty |
| Witnesses.FadingClean | hwc/rgz_2d.c:1057-1064 | a layer that only changes its blending mode is not redrawn |
| Witnesses.ReorderingClean | hwc/rgz_2d.c:1090-1155 | two overlapping layers that trade places are not redrawn |
| Witnesses.TwinsClean | hwc/rgz_2d.c:1020-1033 | of two layers with one identity the second one can go without its place being redrawn |
| Witnesses.StaleRun | hwc/rgz_2d.c:1090-1174 | in every run of three region frames that tells one of these four stories, the first two frames are right, the third breaks one condition alone and is shown wrong |
| Witnesses.Tell | hwc/hwc.c:1419-1537 | and the regionizer accepts all its frames, so there are such runs |
| Witnesses.UprightOffCentre | hwc/rgz_2d.c:1519-1531 | an upright mirror image is cut wrongly as soon as the piece is nearer to one side |
| Witnesses.MirroredCut | hwc/rgz_2d.c:606-620 | a first frame with a mirrored NV12 layer under a strip that cuts it shows column 0 of the video where column 3 belongs, whatever the buffers hold |
| Witnesses.ShowCut | hwc/hwc.c:1419-1537 | and the regionizer accepts that frame |
| Planner.CountsSpeak | hwc/hwc.c:964-1023 | what the aggregate counts say about each single layer: validity, kind, and running memory |
| Planner.StatsCount | hwc/hwc.c:964-1023 | each count is the number of valid layers it is named after: valid, needing a scaler, of a kind, dockable, protected |
| Planner.StatsFind | hwc/hwc.c:1014-1018 | a count is positive exactly if the list has such a layer |
| Planner.RendersAllExactly | hwc/hwc.c:1093-1115 | the aggregate test, said of the layers themselves: all are valid, overlays, scalers and memory suffice, and transform and colour order allow it |
| Planner.AcceptedRender | hwc/hwc.c:1660-1672 | every accepted layer passed its own test, and is a special one if SGX is forced |
| Planner.AcceptedFit | hwc/hwc.c:1673-1679 | the accepted layers together fit into the memory slot |
| Planner.LowestChosen | hwc/hwc.c:1660-1672 | with or without a framebuffer, the lowest layers become overlays as long as they can be rendered and fit |
| Planner.RenderableExactly | hwc/hwc.c:1093-1137 | when the display can render all, a layer passes its own test exactly if it does not slip through |
| Planner.NextAccepted | hwc/hwc.c:1117-1137 | when all are to be overlays and all so far have been accepted, there is room for the next one, and it is accepted unless it slips through |
| Planner.ChooseShape | hwc/hwc.c:1660-1738 | accepted layers are valid, in order and within the overlay limit; the framebuffer is somewhere among them |
| Planner.AllChosen | hwc/hwc.c:1616-1620 | if no layer slips through, the loop accepts every layer in order |
| Planner.NoLayerLost | hwc/hwc.c:1616-1727 | when all layers are to be overlays, all become overlays exactly if none slips through the aggregate test |
| Planner.ScalersCounted | hwc/hwc.c:1003-1005 | if all accepted layers need a scaler, the count of scaled layers bounds how many there are |
| Planes.DisplayIs | hwc/hwc.c:1733-1735 | blending planes by z-order is painting the overlays below, the framebuffer, and the overlays above it |
| Planes.FbOnTop | hwc/hwc.c:1660-1738 | the framebuffer with its holes, over all accepted overlays, shows the painted list at every step of the loop |
| Planes.AboveFb | hwc/hwc.c:1672-1687 | an overlay left above the framebuffer is opaque and has a hole below it, so its place in the stack does not matter |
| Planes.SplitPreservesPicture | hwc/hwc.c:1660-1784 | however the loop distributes the layers, the display shows the painter's composition of the list |
| Planes.AllOverlaysPicture | hwc/hwc.c:1616-1620 | without a framebuffer the overlays alone are the painted list |
| Device.HwcDevice.GatherStatistics | hwc/hwc.c:964-1023 | the loop computes the aggregate counts of the list |
| Device.HwcDevice.DecideSupportedCloning | hwc/hwc.c:1025-1091 | shares the four overlays out: reserves, limits, grants and the transform in force for docking, mirroring and neither, no count negative |
| Device.HwcDevice.BeginFrame | hwc/hwc.c:1611-1624 | statistics, cloning, who composes and colour order, consistently |
| Device.HwcDevice.Prepare | hwc/hwc.c:1594-1908 | z-orders are complete and distinct; GFX never scales; pipes are distinct unless mirroring, and while mirroring exactly unless clones were made of two scaled layers that are the whole picture; the external display gets clones of the right overlays, and how many, exactly; no overlay is asked of both displays; the list is marked as the loop decides; a framebuffer is filled by exactly one of blitter and SGX; colour order and the transform left in force |
| Device.HwcDevice.Set | hwc/hwc.c:2024-2025 | the composition becomes the last one, and the books stay within the overlays there are |
| Device.TransformInForce | hwc/hwc.c:1037-1066 | the transform in force is that of the mirror if there is one, also while docking; docking wins only if there is something to dock |
| Device.OverlaysSuit | hwc/hwc.c:1117-1137 | every overlay of a prepared frame suits the display: no BGR on a TV, only videos turned, special layers if SGX is forced, and layers and framebuffer in the colour order that is set |
| Device.OverlaysFit | hwc/hwc.c:1673-1679 | the layers shown by overlays fit into the memory slot together |
| Device.FbNeeded | hwc/hwc.c:1630-1658 | there is a framebuffer exactly if SGX was to compose or everything was blitted |
| Device.LayerLoop | hwc/hwc.c:1660-1738 | the loop makes the planned choices, keeps z-orders, pipes and the largest dockable overlay in order, and writes the composition type and clear hint of every layer |
| Device.PlanLayer | hwc/hwc.c:1660-1738 | one turn of the loop takes the plan of `i` layers to the plan of `i + 1` |
| Device.AddOverlay | hwc/hwc.c:1675-1726 | an accepted layer gets the next overlay, z-order and pipe, and may become the largest dockable one |
| Device.SkipLayer | hwc/hwc.c:1727-1736 | a layer that is composed starts the framebuffer or moves it to the top |
| Device.MoveFbUp | hwc/hwc.c:1733-1735 | the framebuffer goes to the top by lowering each overlay it passes by one |
| Device.KeepGfxUnscaled | hwc/hwc.c:1704-1712 | the GFX pipe goes to the first layer that does not need scaling, and nothing else moves |
| Device.FinalPipes | hwc/hwc.c:1740-1742 | after the last correction pipes are distinct and the GFX pipe carries no scaled or NV12 layer |
| Device.SetupFb | hwc/hwc.c:1761-1784 | the framebuffer gets its place in the stack and its pipe; all overlays stay as planned |
| Device.InternalStacked | hwc/hwc.c:1860-1870 | the z-orders of the internal display are 0, 1, ... once each |
| Device.PlannedPipes | hwc/hwc.c:1700-1742 | planned overlays keep to the pipes below those reserved for the other display |
| Device.SetUpInternal | hwc/hwc.c:1653-1784 | the internal display's overlays, planned or blitted, with complete z-orders, the pipes of the plan, and these below the reserved ones; and the marks of the list |
| Device.CloneLayer | hwc/hwc.c:1144-1182 | a clone takes the last free pipe and a z-order above the internal stack; it fails exactly if all overlays are used |
| Device.CloneExternalLayer | hwc/hwc.c:1184-1223 | the docked overlay or dock image goes on the pipe kept back, above the internal stack; a display that accepts no mode is switched off |
| Device.MirrorAll | hwc/hwc.c:1836-1841 | clones the overlays in order until all are done or the overlays run out |
| Device.ZStackDoubles | hwc/hwc.c:1176-1177 | a mirrored stack on top of the first has complete and distinct z-orders |
| Device.CloneLayers | hwc/hwc.c:1786-1843 | docking adds the docked overlay or the dock image on the kept-back pipe, exactly when it may; mirroring copies the stack above itself; neither touches the internal overlays |
| Device.DockedExactly | hwc/hwc.c:1788-1842 | the external display gets as many overlays as there are to mirror, or one if there is a dockable overlay or a forced dock image, exactly if cloning may be done and a mode is accepted; else none |
| Device.MirrorPipesExactly | hwc/hwc.c:1700-1843 | while mirroring, with or without clones, all pipes exist, GFX does not scale, and pipes collide exactly if clones were made of two scaled layers that are the whole picture |
| Device.FrameFacts | hwc/hwc.c:1857-1882 | both displays together: complete z-orders, distinct pipes unless mirroring, and every hand-over bound |
| Device.CompleteFrame | hwc/hwc.c:1740-1882 | after the loop and the blits, whatever the blitter and the external mode answer: as for `Prepare`, with the exact number of clones, the exact condition for their pipes, and SGX in charge exactly of a framebuffer that was not blitted |
| Frames.DisplayShowsList | hwc/hwc.c:1660-1784 | the internal display shows the painter's composition of the list, with or without a framebuffer |
| Frames.MirrorCollision | hwc/hwc.c:1740-1742 | preparing two scaled layers while mirroring, with nothing shown before, gives four overlays fewer than four pipes |
| Frames.TurnedBegun | hwc/hwc.c:1109-1111 | docked upside down, a video and an RGB layer count as all renderable, but the RGB layer slips through and is not accepted |
| Frames.LayerLost | hwc/hwc.c:1616-1727 | preparing those two layers leaves no framebuffer and no overlay that shows the second one |
| Frames.PostFrame | hwc/hwc.c:1594-2025 | preparing and posting a frame is a turn of the runs considered, with the books it leaves and what the external display could take |
| Frames.Post | hwc/hwc.c:1970-2025 | posting a prepared frame is a turn, which leaves the books of the composition |
| Frames.OverlaysNeverShared | hwc/hwc.c:1032-1083 | in every run: internal plus external is at most 4 within a frame and across frames both ways; cloning wanted twice is granted in full, and the external display then gets all it can take |
| Frames.WantedFor | hwc/hwc.c:1037-1072 | docking wants one overlay exactly if there is a dockable layer or a forced dock image, mirroring two |
| Frames.ProtectedAllOrNothing | hwc/hwc.c:1789-1790 | a frame with a protected layer is cloned only if the external display gets all the overlays it wants |
| Frames.ServeFrame | hwc/hwc.c:1786-1843 | as soon as there is room, all that is asked for or something if nothing is protected, the docked display shows exactly one overlay, the largest dockable layer shown, and the mirror a copy of everything |
| Frames.SecondFrameServed | hwc/hwc.c:1068-1075 | which is so from the second frame on that asks for it |
| EndToEnd.HintsKept | hwc/hwc.c:1680-1690 | a list marked by the loop has no clear hint on a blended layer, and none at all if SGX composes nothing |
| EndToEnd.LoopHandsOn | hwc/hwc.c:1660-1738 | without COVERAGE blending, the list as the loop marks it has its overlays and hints exactly where the plan accepts a layer, and where that layer is not blended |
| EndToEnd.FrameIsBlitted | hwc/rgz_2d.c:1219-1249 | the painter's composition of the regionizer's frame is the list with its overlays left out and their places cleared where hinted |
| EndToEnd.BlittedIsFb | hwc/hwc.c:1660-1738 | that is exactly the framebuffer the overlays of the plan need |
| EndToEnd.BlittedFrameDisplayed | hwc/hwc.c:1638-1784 | a framebuffer that shows the blitted list, under the overlays prepared for the frame or alone when everything is blitted, displays the painted list |
| EndToEnd.ShowFrame | hwc/hwc.c:1594-2025 | preparing, blitting or resetting, and posting one frame is a turn of the device and an event of the regionizer, on the very list that the loop marked; it is blitted if it surely can be; whoever is in charge fills the framebuffer; overlays and images find their buffers |
| EndToEnd.ShowFrames | hwc/hwc.c:1594-2025 | every sequence of frames, from nothing shown, is a run of the composer that answers what was asked |
| EndToEnd.PostBuffers | hwc/hwc.c:1991-2010 | the list of buffers that is posted: those of the overlays in order, then those of the blitter, without the slot of a blitted framebuffer |
| EndToEnd.OverlaysCounted | hwc/hwc.c:1679-1689 | the loop marks as many overlays as the plan has, which is what the regionizer counts |
| EndToEnd.FaultlessRunDisplayed | hwc/hwc.c:1638-1784 | in every run of the composer, after each blitted frame up to which all frames were faultless, the display shows the painted list |
| EndToEnd.OverlayFrameDisplayed | hwc/hwc.c:1616-1727 | and after each frame that needs no framebuffer, if no layer slips through |
| EndToEnd.SgxFrameDisplayed | hwc/hwc.c:1683-1687 | and after each frame whose framebuffer SGX composes as the hints say |
| EndToEnd.EveryFrameDisplayed | hwc/hwc.c:1594-2025 | so every frame of every run of the composer displays its painted list, up to the first fault, if no layer slips through |
| EndToEnd.SkippedGoesToSgx | hwc/hwc.c:1471-1477 | a frame with a layer to be skipped is never blitted, and SGX composes its framebuffer |
| Crop.AxesOfDisplay | hwc/hwc.c:621-627 | which source axis runs along each display axis, and in which direction, for every rotation and mirroring |
| Crop.AlignFlipsBackwards | hwc/hwc.c:621-627 | aligning flips exactly the axes that run backwards, and realigning undoes it |
| Crop.CutAxis | hwc/hwc.c:629-655 | one axis: the window becomes its visible part; the near cut and what stays of the source are within one pixel of their exact shares, the far cut within two, truncation included |
| Crop.Shares | hwc/hwc.c:646-655 | the second cut is measured against what the rounded first cut left; what stays is still within one pixel of its share, and what goes within two |
| Crop.FarCutTooLarge | hwc/hwc.c:646-655 | and more than one pixel too much can go |
| Crop.CutAxes | hwc/hwc.c:629-655 | the loop succeeds exactly if both axes keep something, and cuts both |
| Crop.FailsExactly | hwc/hwc.c:630-654 | the loop gives up at an axis exactly if nothing of the window can be seen, or the visible share of the source is less than a pixel, in either direction |
| Crop.SharedSurvives | hwc/hwc.c:630-654 | a window whose visible part has a pixel of the source or more is never given up |
| Crop.RealignedAxis | hwc/hwc.c:657-668 | back in buffer coordinates the crop is inside the old one and not empty |
| Crop.CropToRect | hwc/hwc.c:600-671 | succeeds exactly if something is left on both axes; then the window is its visible part and the crop is cut in proportion, inside the old crop, not empty, and within one pixel of its exact share; nothing changes on failure or when all is visible |
| HdmiModes.Closeness | hwc/hwc.c:824-828 | the ratio of two numbers is at most full scale, and full scale when they are equal |
| HdmiModes.NearerIsBetter | hwc/hwc.c:823-843 | and it grows as they come nearer, from either side |
| HdmiModes.MeritsInRange | hwc/hwc.c:819-843 | each field fits its bits, since the picture fits the mode |
| HdmiModes.ScoreIsPacked | hwc/hwc.c:810-846 | the 32-bit score is the seven preferences side by side, without overflow, and never zero |
| HdmiModes.ScoreOrders | hwc/hwc.c:810-846 | comparing scores is comparing the preferences lexicographically: CEA, upscale, same mode, scaling, leftover, frame rate reached, frame rate closeness |
| HdmiModes.PerfectUnbeaten | hwc/hwc.c:810-846 | a CEA mode of exactly the size of the picture, at 60 hertz or what is meant by 59, is beaten by nothing but the mode to be kept |
| HdmiModes.RememberedIsPreferred | hwc/hwc.c:915-916 | the mode preferred is the one whose complement was remembered |
| HdmiModes.FittedShape | hwc/hwc.c:543-568 | the picture fitted into a mode is inside it and fills it one way; the other way it keeps its shape up to half a pixel, or takes the shape of the screen within the tolerance |
| HdmiModes.ShapeFills | hwc/hwc.c:888-894 | a picture of the shape that a mode claims fills it |
| HdmiModes.EligibleDrivable | hwc/hwc.c:896-909 | a mode is considered exactly if it has a size and a clock, is progressive or interlaced, and the picture can be scaled to it |
| HdmiModes.External.PickMode | hwc/hwc.c:877-931 | the loop finds the first mode that can be driven and that no other such mode beats, or none exactly if none can be driven |
| HdmiModes.External.SetBestHdmiMode | hwc/hwc.c:848-962 | the display is switched to that mode only on a change; without one the answer is whether the picture can be scaled to the present size; an empty size changes nothing |
| HeapTracker.HdrList.Add | heaptracker.c:162-171 | the block becomes the newest of a well-formed doubly linked list |
| HeapTracker.HdrList.Del | heaptracker.c:173-184 | exactly the block leaves the list, which stays well-formed with its length |
| HeapTracker.Tracker.Add | heaptracker.c:186-196 | the block is tagged and tracked as the newest allocation; the quarantine is untouched |
| HeapTracker.Tracker.Del | heaptracker.c:198-208 | succeeds exactly if the tag says allocated, and then takes exactly that block out |
| HeapTracker.Tracker.DelFromBacklog | heaptracker.c:304-318 | takes exactly the block out of quarantine and clears its tag |
| HeapTracker.Tracker.AddToBacklog | heaptracker.c:331-345 | the block joins the quarantine, of which the newest 50 stay |
| HeapTracker.Tracker.EvictOldest | heaptracker.c:338-343 | the loop frees the oldest blocks until the limit holds |
| HeapTracker.Tracker.Malloc | heaptracker.c:347-359 | a fresh tracked block, or nothing changes |
| HeapTracker.Tracker.Free | heaptracker.c:361-400 | an allocated block moves to the quarantine; NULL, a second free and a foreign tag change neither list |
| HeapTracker.Tracker.Unlist | heaptracker.c:417-449 | the block leaves whichever list has it |
| HeapTracker.Tracker.Realloc | heaptracker.c:402-459 | size zero frees, NULL allocates, a quarantined block is revived; when memory runs out the block is lost to the tracker |
| HeapTracker.Tracker.DelLeak | heaptracker.c:320-329 | the newest allocation leaves the list without a look at its tag |
| HeapTracker.Tracker.FreeLeakedMemory | heaptracker.c:476-503 | terminates with both lists empty and every tracked block really freed |
| HeapTracker.Serve | heaptracker.c:347-459 | every malloc, free and realloc on a tracker adds a block to the quarantine, takes one out or leaves it, exactly depending on the call and the tag of the block |
| HeapTracker.QuarantineKeepsNewest | heaptracker.c:331-345 | over any sequence of such calls the quarantine holds the blocks freed last and not revived, newest first, and lacks at most one place for each revival |
| FrameCounts.CameraAdapter.UsePreviewBuffers | camera/BaseCameraAdapter.cpp:353-368 | a new session: the queueable buffers are the camera's, the others are held once |
| FrameCounts.CameraAdapter.GetFrameRefCount | camera/BaseCameraAdapter.cpp:1367-1408 | the count of a buffer in the table of its frame type, -1 for other types |
| FrameCounts.CameraAdapter.SetFrameRefCount | camera/BaseCameraAdapter.cpp:1410-1449 | replaces the count of a known buffer in the table of its frame type; unknown buffers are left out |
| FrameCounts.CameraAdapter.SetInitFrameRefCount | camera/BaseCameraAdapter.cpp:1310-1365 | every type in the mask counts its subscribers, types that share a table in mask order; NULL is an error |
| FrameCounts.CameraAdapter.SendFrame | camera/BaseCameraAdapter.cpp:1241-1308 | calls exactly the counted subscribers, or fails without a call |
| FrameCounts.CameraAdapter.SendFrameToSubscribers | camera/BaseCameraAdapter.cpp:1177-1237 | sends the types of the mask in order up to the first that fails |
| FrameCounts.CameraAdapter.ReturnFrame | camera/BaseCameraAdapter.cpp:255-326 | a positive count goes down by one; the camera is asked to fill the buffer exactly on the last return; a count of zero stays |
| FrameCounts.CameraAdapter.StartVideoCapture | camera/BaseCameraAdapter.cpp:1451-1480 | every preview buffer gets a video count of zero, unless recording is on already |
| FrameCounts.CameraAdapter.StopVideoCapture | camera/BaseCameraAdapter.cpp:1482-1512 | gives back each held buffer once, hands on exactly those with one video holder and no other, and forgets the video counts |
| FrameCounts.DeliveryReachesAll | camera/BaseCameraAdapter.cpp:1310-1365 | a buffer just counted in reaches every subscriber its counts promise exactly if each type in the mask has one |
| FrameCounts.LastReturnExactly | camera/BaseCameraAdapter.cpp:275-318 | a return is the last one exactly if somebody held the buffer before it and nobody does after it |
| FrameCounts.RefilledExactlyOnce | camera/BaseCameraAdapter.cpp:255-326 | for any interleaving of preview and video returns while recording, the camera gets a buffer back exactly once, on the return that makes both counts zero |
| FrameCounts.StepKeepsOwned | camera/BaseCameraAdapter.cpp:255-326 | no step asks the camera to fill a buffer it has, and it has exactly the buffers nobody holds, with one exception, both directions |
| FrameCounts.StopKeepsOwned | camera/BaseCameraAdapter.cpp:1482-1512 | stopping loses a buffer exactly if it is held by several video consumers only |
| FrameCounts.TwoVideoSubscribersLose | camera/BaseCameraAdapter.cpp:1482-1512 | with two video subscribers a delivery, the return of the preview and a stop leave the buffer with nobody, the camera included |
| FrameCounts.NoBufferLost | camera/BaseCameraAdapter.cpp:1482-1512 | with at most one video subscriber no run of deliveries, returns, starts and stops loses a buffer or hands one over twice |
| FrameCounts.Handle | camera/BaseCameraAdapter.cpp:255-326 | each delivery, return, start and stop on an adapter makes exactly the step of the runs considered, and asks the camera to fill exactly the buffers it frees, once each |
| FrameCounts.PlayRun | camera/BaseCameraAdapter.cpp:1451-1512 | played on an adapter, such a run asks the camera only for buffers it does not have, once each, and leaves it with exactly those nobody holds |
| Resize.TableIsBilinear | camera/inc/NV12_resize.h:64-88 | the weight table is exactly bilinear interpolation in eighths |
| Resize.WeightBounds | camera/inc/NV12_resize.h:64-88 | all weights are at most 64 and the four of a position sum to 64 |
| Resize.Accumulate | camera/NV12_resize.c:137-169 | the 16-bit accumulator never wraps around |
| Resize.MixBetween | camera/NV12_resize.c:137-176 | an output value lies between the least and the greatest of its four taps |
| Resize.MixTaps | camera/NV12_resize.c:124-176 | the byte written is the interpolation of the four taps |
| Resize.StepBound | camera/NV12_resize.c:117-134 | a step product stays below the input size in 512ths, so its 32 bits suffice |
| Resize.SurfaceSample | camera/NV12_resize.c:113-176 | an output sample is the value, at its position in eighths and rounded down, of the bilinear surface through its four taps |
| Resize.TapsInsideExactly | camera/NV12_resize.c:103-134 | at any output size every luma tap is inside the frame exactly if the input has two samples that way |
| Resize.ChromaInsideExactly | camera/NV12_resize.c:192-229 | all chroma taps are inside their plane exactly if the last one is |
| Resize.ChromaFitsBelow | camera/NV12_resize.c:192-229 | for even inputs they are whenever the output is below twice the input size less one, and not at that size |
| Resize.ChromaPitchExactly | camera/NV12_resize.c:287-294 | chroma rows keep to the output stride exactly if the width is even |
| Resize.LumaRow | camera/NV12_resize.c:113-181 | one row of output samples, and nothing else written |
| Resize.ResizeLuma | camera/NV12_resize.c:110-182 | every byte of the output plane is its interpolated sample, or what was there before |
| Resize.ResizeChroma | camera/NV12_resize.c:192-295 | the same for the interleaved chroma plane |
| Resize.ResizeFrame | camera/NV12_resize.c:25-307 | succeeds exactly for two images of the format with a non-empty input; then both planes are interpolated, else nothing is written |
| Resize.LumaKept | camera/NV12_resize.c:101-182 | a luma plane that shows a bilinear surface shows it after scaling, at every sample of the window |
| Resize.ChromaKept | camera/NV12_resize.c:184-285 | and so do Cb and Cr, each its own surface in its own bytes |

## Left out

- Hardware and platform: ioctl, `Post2`, EGL, uevents, threads, locks, properties, logging, SVG output and the `bvdirect` test modes. Answers of the hardware (`Outcome`, `possible`, `available`, `moves`, `scalable`) are inputs.
- Integer width in the composer: coordinates, areas and counters of `hwc/hwc.c` and `hwc/rgz_2d.c` are unbounded integers, as overflow needs sizes beyond any display. `HdmiModes` and `Resize` model the widths, since the arithmetic depends on them.
- `noblend`: the debugging switch that turns blending off is taken to be off, as `blit_layers` sets it.
- Pixel formats of blits: format conversion, strides, and the formats and flip flags in batched changes belong to the blitter driver. The batch results cover operation, sources, rectangles, orientation, clip and scaling mode. Blending mode COVERAGE is copied, as the code does.
- Scaled reads (`Textures.scaled`): what the scaler computes is an unknown function of the whole request, the same for every piece of a layer.
- Blits.Entry: a command names a source by its handle, where the source writes the index of the buffer; that the index leads to that handle is stated of the frame (`Regionizer.Finds`). How overlays address the posted buffers is left to the kernel.
- Slot reuse in the blit buffer: when it is full, a reused slot keeps stray fields of its last use. The output then fails, so only success is described.
- Sharing of layer records: regions hold layers by value, where the source keeps pointers into the current frame, which nothing changes before output.
- Memory for regions: `calloc` in `rgz_in_hwc` is taken to succeed; failure takes the same path as too many edges.
- `is_valid_layer`, `can_scale` and display matrices: their results are fields of the model's layers, and a function of size and clock for modes. `get_max_dimensions` computes in reals instead of floats. Sizes are taken to be small enough for 32 bits (`HdmiModes.Timing.Small`).
- S3D layouts: a build option with its own overlays.
- Dropping a frame while a TV has no mode (`num_ovls = 0`): the overlays that are then not shown keep to the same bounds.
- `crop_to_rect` on a negative source crop, which no layer has.
- Posts that are skipped or fail: the regionizer moves on when a frame is prepared, and nothing resets it if `hwc_set` then has no display (hwc/hwc.c:1958) or `Post2` fails (hwc/hwc.c:2018). Runs take every accepted frame to be executed.
- Clear hints from earlier frames: the caller is taken to hand lists over without any.
- HeapTracker.Tracker.Realloc: the block lost when the real allocator fails is recorded as lost, because the code leaks it.
- Heap tracker guards, poisoning, backtraces, `calloc`'s product and corrupted headers: diagnostics, or memory outside the model. A freed block is taken to keep its cleared tag, as the tracker assumes when it reads it.
- FrameCounts.CameraAdapter.ReturnFrame: a lookup of an unknown buffer is excluded, because the key-value table it uses leaves it undefined; so is a video return after recording stopped.
- FrameCounts.CameraAdapter.StopVideoCapture: the order in which buffers are visited is left open, where the source goes by key.
- Camera states and commands other than those that switch recording and buffers, and callbacks that run while a frame is being sent.
- Resize.ResizeFrame: the dereference of a missing image before the check for it, and crops of size zero, are excluded as undefined in C; output strides below the width are excluded too.
