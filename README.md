# Palm detector: a Dafny model of the image pipeline

The palm detector reads frames from a camera or from a photo. It finds the user's face and
learns skin colour from a patch below the eyes. It then classifies every frame pixel as skin
or not and merges the skin map with Canny edges. It refines each candidate hand contour by
snapping its points to nearby edge pixels, and passes each qualifying hand to an external
comparison program.

This project models the parts of that pipeline that are decision logic, not OpenCV or
foreign code:

- `geometry.dfy` (`Geometry`): points, OpenCV-style rectangles (right and bottom edges
  exclusive) and colour pixels.
- `ring_search.dfy` (`RingSearch`): `getNearestCannyPoint`. It scans square rings of growing
  radius around a contour point for an edge pixel. Without an anchor it picks the first
  ring's best pixel by the source's axis rule. With an anchor (the previous assigned pixel)
  it picks by the summed distance.
- `contour.dfy` (`ContourRefiner`): `mergeLogic`, the choice of the start point, the forward
  and backward walks of `handRecognition`, and its size filter.
- `skin.dfy` (`SkinStage`): the choice of the largest face, the skin patch, the
  six-classifier training schedule, and per-pixel skin labelling.
- `merge.dfy` (`RunFill`): `mergePixelsAndCanny`. Along each row (or column), every run of
  non-edge cells that is closed by an edge cell is painted black or white by the majority
  of the skin map in that run.
- `camera.dfy` (`CameraDevice`): the capture device wrapper and its count of failed reads.
  A failure is reported only when it brings the count to 24.
- `pipeline.dfy` (`Pipeline`): the `processImage` state machine. It is a pure step function
  `Next` over the processor's flags, plus the `ImageProcessor` class whose `ProcessImage` and
  `Dispatch` methods are proved to follow it.
- `paths.dfy` (`ImagePaths`): `getImageName`, `getImagePath`, the file name `saveImage`
  chooses, and the white border `handRecCommands` draws.

Arrays are `array2` with `Length0` as rows (y) and `Length1` as columns (x). Pixel access
`at(Point)` reads row `p.y`, column `p.x`. Work done by OpenCV, by the trained pixel
classifiers or by the operating system enters the model as a parameter (an `Outcome`, a
`train` function, a `Classifiers` record of predicates, a `readOk` flag).

## Model

| member | source | states |
|---|---|---|
| RingSearch.Margin | BioidentificationSystem/ImageProcessor.cpp:884-886 | a ring of radius j fits inside the edge map exactly when j is at most the margin to the nearest border |
| RingSearch.Reach | BioidentificationSystem/ImageProcessor.cpp:882-886 | the scan covers radii 1..r with r at most eps; every ring up to r fits and, if r < eps, ring r+1 does not |
| RingSearch.RingPoint | BioidentificationSystem/ImageProcessor.cpp:887-899 | every position of the ring walk lies at Chebyshev distance exactly j from the centre |
| RingSearch.RingIndex | BioidentificationSystem/ImageProcessor.cpp:887-899 | every pixel at Chebyshev distance j is visited by the ring walk (inverse of RingPoint) |
| RingSearch.PickNoAnchor | BioidentificationSystem/ImageProcessor.cpp:902-909 | the unanchored pick is one of the collected hits |
| RingSearch.PickAnchored | BioidentificationSystem/ImageProcessor.cpp:910-920 | the anchored pick skips the anchor and has a cost no larger than any other hit or the starting value |
| RingSearch.GetNearestCannyPoint | BioidentificationSystem/ImageProcessor.cpp:878-924 | the method's loops compute NearestCanny, the search specified ring by ring |
| RingSearch.ScanRing | BioidentificationSystem/ImageProcessor.cpp:887-921 | one ring scan appends exactly ring j's edge pixels to the collected list; when it ends the search its pixel is the specified result, otherwise the search continues unchanged from ring j + 1 |
| RingSearch.CollectRing | BioidentificationSystem/ImageProcessor.cpp:887-899 | collecting one ring appends exactly its edge pixels, in walk order |
| RingSearch.PickByAxis | BioidentificationSystem/ImageProcessor.cpp:902-909 | the loop over the hits computes PickNoAnchor |
| RingSearch.PickByCost | BioidentificationSystem/ImageProcessor.cpp:910-920 | the loop over the hits computes PickAnchored |
| RingSearch.RingHitsComplete | BioidentificationSystem/ImageProcessor.cpp:887-899 | every edge pixel on the walked part of a ring is collected |
| RingSearch.RingHitsSound | BioidentificationSystem/ImageProcessor.cpp:887-899 | every collected pixel is an edge pixel on that ring |
| RingSearch.ScannedSound | BioidentificationSystem/ImageProcessor.cpp:882-900 | every pixel collected up to radius j is an edge pixel at distance 1..j |
| RingSearch.ScannedComplete | BioidentificationSystem/ImageProcessor.cpp:882-900 | every edge pixel at distance 1..j is collected by radius j |
| RingSearch.ScannedEmpty | BioidentificationSystem/ImageProcessor.cpp:882-900 | nothing is collected up to radius j iff no edge pixel lies at distance 1..j |
| RingSearch.ScannedPrefix | BioidentificationSystem/ImageProcessor.cpp:882-900 | the collection only grows as the radius grows |
| RingSearch.SearchWithoutAnchorNone | BioidentificationSystem/ImageProcessor.cpp:900-909 | without an anchor the search finds nothing iff no edge pixel is within reach |
| RingSearch.FirstHitFound | BioidentificationSystem/ImageProcessor.cpp:900-909 | reaching a ring with an edge pixel, the unanchored search returns a pixel and the collected list is non-empty |
| RingSearch.FirstHitRing | BioidentificationSystem/ImageProcessor.cpp:900-909 | without an anchor the search stops at the first ring holding an edge pixel and picks from it |
| RingSearch.SearchWithoutAnchorFound | BioidentificationSystem/ImageProcessor.cpp:900-909 | a found pixel lies on the first ring that has an edge pixel |
| RingSearch.FirstHitNearest | BioidentificationSystem/ImageProcessor.cpp:900-909 | when ring j is the first holding an edge pixel, the returned pixel is collected and no collected pixel is nearer in Chebyshev distance |
| RingSearch.NearestWithoutAnchor | BioidentificationSystem/ImageProcessor.cpp:878-924 | without an anchor: no point iff no edge pixel within reach; otherwise an edge pixel and no edge pixel is strictly closer in Chebyshev distance |
| RingSearch.AnchoredStep | BioidentificationSystem/ImageProcessor.cpp:910-920 | one anchored ring keeps the best-by-cost choice over everything scanned so far |
| RingSearch.SearchWithAnchor | BioidentificationSystem/ImageProcessor.cpp:910-923 | the anchored search ends with the best-by-cost choice over all rings within reach |
| RingSearch.NearestWithAnchor | BioidentificationSystem/ImageProcessor.cpp:878-924 | with an anchor: no point iff no edge pixel within reach; otherwise an edge pixel whose cost is at most that of every other edge pixel within reach except the anchor |
| RingSearch.NearestIsNearbyEdge | BioidentificationSystem/ImageProcessor.cpp:878-924 | any found point is an edge pixel at Chebyshev distance 1..eps, with every ring up to it inside the map |
| RingSearch.SearchKeepsOrFinds | BioidentificationSystem/ImageProcessor.cpp:882-922 | the ring-by-ring search keeps the pick so far or returns an edge pixel within eps rings |
| RingSearch.KeepStep | BioidentificationSystem/ImageProcessor.cpp:900-922 | one ring either ends an unanchored search on an edge pixel within eps rings, or hands the search on to the next ring with the previous pick or an edge pixel within eps rings |
| RingSearch.SearchEmptyRing | BioidentificationSystem/ImageProcessor.cpp:888-901 | a ring that fits but adds no edge pixel leaves the pick and moves on to the next ring |
| RingSearch.SearchStops | BioidentificationSystem/ImageProcessor.cpp:882-886 | past ring eps, or at a ring that leaves the map, the search returns its pick so far |
| RingSearch.NearestCanny | BioidentificationSystem/ImageProcessor.cpp:878-924 | getNearestCannyPoint returns (-1, -1) or an edge pixel at Chebyshev distance 1..eps |
| RingSearch.ScannedAllSound | BioidentificationSystem/ImageProcessor.cpp:887-899 | every collected pixel is an edge pixel at Chebyshev distance 1..j |
| RingSearch.NoRadiusFindsNothing | BioidentificationSystem/ImageProcessor.cpp:882-886 | a radius below 1 finds nothing |
| RingSearch.PickNoAnchorNotManhattanNearest | BioidentificationSystem/ImageProcessor.cpp:904-908 | the axis rule can pick a hit farther in Manhattan distance than another hit on the same ring |
| ContourRefiner.MergeStep | BioidentificationSystem/ImageProcessor.cpp:863-876 | one merge step keeps the length of the merged contour |
| ContourRefiner.MergeLogic | BioidentificationSystem/ImageProcessor.cpp:863-876 | only the current index may change; an edge point stays and becomes the new anchor; otherwise the point is kept or replaced by the anchored nearest edge pixel |
| ContourRefiner.MergeStepLocal | BioidentificationSystem/ImageProcessor.cpp:863-876 | a merge step keeps every point either unchanged or moved to a nearby edge pixel, and keeps edge points in place |
| ContourRefiner.Nears | BioidentificationSystem/ImageProcessor.cpp:806 | one unanchored nearest pixel per contour point |
| ContourRefiner.NearsAt | BioidentificationSystem/ImageProcessor.cpp:806 | entry i is the unanchored nearest edge pixel of point i |
| ContourRefiner.StartScan | BioidentificationSystem/ImageProcessor.cpp:797-820 | a found start index lies inside the contour |
| ContourRefiner.StartPoint | BioidentificationSystem/ImageProcessor.cpp:797-820 | a found start index lies inside the contour |
| ContourRefiner.WalkForward | BioidentificationSystem/ImageProcessor.cpp:822-826 | the forward walk keeps the contour's length |
| ContourRefiner.WalkBackward | BioidentificationSystem/ImageProcessor.cpp:827-830 | the backward walk keeps the contour's length |
| ContourRefiner.RefineContour | BioidentificationSystem/ImageProcessor.cpp:797-831 | the start search and the two walks compute Refined |
| ContourRefiner.Refined | BioidentificationSystem/ImageProcessor.cpp:797-831 | the merged contour has the contour's length, and it is the contour itself when no start point is found |
| ContourRefiner.FindStartPoint | BioidentificationSystem/ImageProcessor.cpp:797-820 | the start-point loop returns the start index and assigned pixel of the specified scan StartPoint |
| ContourRefiner.BypassForward | BioidentificationSystem/ImageProcessor.cpp:822-826 | the forward loop from startPoint + 1 produces the specified forward walk |
| ContourRefiner.BypassBackward | BioidentificationSystem/ImageProcessor.cpp:827-830 | the backward loop from startPoint - 1, restarting from the assigned pixel, produces the specified backward walk |
| ContourRefiner.WalkForwardLocal | BioidentificationSystem/ImageProcessor.cpp:822-826 | the forward walk keeps every point local and leaves the indices before it untouched |
| ContourRefiner.WalkBackwardLocal | BioidentificationSystem/ImageProcessor.cpp:827-830 | the backward walk keeps every point local and leaves the indices after it untouched |
| ContourRefiner.RefinedIsLocal | BioidentificationSystem/ImageProcessor.cpp:797-831 | each refined point is its original or a nearby edge pixel, edge points stay, and the start point is not moved |
| ContourRefiner.StartScanFirstOnEdge | BioidentificationSystem/ImageProcessor.cpp:800-805 | the scan stops at the first point that lies on an edge |
| ContourRefiner.FirstOnEdgeStarts | BioidentificationSystem/ImageProcessor.cpp:797-820 | if some point lies on an edge, the first such point is the start, anchored to itself |
| ContourRefiner.StartScanBest | BioidentificationSystem/ImageProcessor.cpp:806-819 | with no point on an edge, the scan keeps the earliest point whose nearest edge pixel is closest in Manhattan distance |
| ContourRefiner.StartStep | BioidentificationSystem/ImageProcessor.cpp:806-819 | one step of the start scan never moves the start index past the current point, and a held pixel belongs to an earlier point |
| ContourRefiner.BestStartExtend | BioidentificationSystem/ImageProcessor.cpp:806-819 | one more step of the scan keeps the earliest closest start among the points seen so far |
| ContourRefiner.EarliestClosestStarts | BioidentificationSystem/ImageProcessor.cpp:797-820 | with no point on an edge, the start is the earliest point with the smallest Manhattan gap to its nearest edge pixel |
| ContourRefiner.NothingFoundKeepsContour | BioidentificationSystem/ImageProcessor.cpp:821-831 | when no point is on or near an edge, the contour is left as it is |
| ContourRefiner.WalkForwardNoRadius | BioidentificationSystem/ImageProcessor.cpp:822-826 | with a radius below 1 the forward walk changes nothing |
| ContourRefiner.WalkBackwardNoRadius | BioidentificationSystem/ImageProcessor.cpp:827-830 | with a radius below 1 the backward walk changes nothing |
| ContourRefiner.NoRadiusKeepsContour | BioidentificationSystem/ImageProcessor.cpp:797-831 | with a radius below 1 the refined contour is the original |
| ContourRefiner.PhotoModeQualifies | BioidentificationSystem/ImageProcessor.cpp:771-774 | in photo processing mode a box qualifies iff both sides exceed 50; photo mode never rejects a box the face window accepts |
| ContourRefiner.Qualifies | BioidentificationSystem/ImageProcessor.cpp:771-774 | outside photo processing mode a face rectangle of width 0 admits no contour |
| ContourRefiner.DefaultFaceWindow | BioidentificationSystem/ImageProcessor.cpp:771-774 | with a 150x150 face and threshold 2 a box qualifies iff both sides are strictly between 75 and 300 |
| ContourRefiner.NoFaceNoHand | BioidentificationSystem/ImageProcessor.cpp:771-774 | outside photo processing mode, a face of width 0 lets no contour through |
| ContourRefiner.HandRecognitionContours | BioidentificationSystem/ImageProcessor.cpp:760-861 | succeeds iff every qualifying contour's comparison succeeds; then the applicants are the refined qualifying contours in order |
| ContourRefiner.ApplicantsCount | BioidentificationSystem/ImageProcessor.cpp:768-775 | one applicant per qualifying contour |
| ContourRefiner.Applicants | BioidentificationSystem/ImageProcessor.cpp:768-857 | the contours handed on for comparison: at most one per contour, and without contour display each is one of the input contours |
| SkinStage.LargestFace | BioidentificationSystem/ImageProcessor.cpp:450-456 | the chosen face has the largest area, is the earliest of that area, and is the empty rectangle when no face has positive area |
| SkinStage.NoFaceIsEmpty | BioidentificationSystem/ImageProcessor.cpp:450-456 | with no face of positive area the face rectangle stays empty |
| SkinStage.CornersRect | BioidentificationSystem/ImageProcessor.cpp:470 | a rectangle built from two corners has non-negative sides and holds its first corner unless it is empty |
| SkinStage.SkinRectInsideFace | BioidentificationSystem/ImageProcessor.cpp:470 | the skin patch is the 60x21 rectangle at (45, 75), inside the 150x150 face |
| SkinStage.TruncDiv | BioidentificationSystem/ImageProcessor.cpp:486 | C++ integer division, truncating toward zero |
| SkinStage.Sensitivities | BioidentificationSystem/ImageProcessor.cpp:486-492 | six sensitivities, the k-th being 50 + (k+1) * ((paramS - 50) / 6) |
| SkinStage.DefaultSensitivities | BioidentificationSystem/ImageProcessor.cpp:486-492 | with the default paramS of 100 the sensitivities are 58, 66, 74, 82, 90, 98 |
| SkinStage.SensitivitiesTowardS | BioidentificationSystem/ImageProcessor.cpp:486-492 | the sensitivities step from 50 toward paramS without passing it |
| SkinStage.PatchPixelsAt | BioidentificationSystem/ImageProcessor.cpp:478-485 | the flattened pixel list holds the patch's pixel (i, j), as RGB, at index i * cols + j |
| SkinStage.CollectPixels | BioidentificationSystem/ImageProcessor.cpp:478-485 | the loops collect the patch's pixels row by row as RGB |
| SkinStage.TrainPixelClassifier | BioidentificationSystem/ImageProcessor.cpp:475-496 | trained iff all six classifiers train on the patch with their scheduled sensitivity |
| SkinStage.Depth | BioidentificationSystem/ImageProcessor.cpp:516-546 | the number of classifiers passed is at most 6, and 0 iff the first-checked classifier rejects the colour |
| SkinStage.LabelOf | BioidentificationSystem/ImageProcessor.cpp:516-546 | a pixel's label is 0 iff no classifier accepted it |
| SkinStage.LabelLadder | BioidentificationSystem/ImageProcessor.cpp:498-549 | a label is one of 0, 100, 130, 160, 190, 220, 250, and the binary map is 255 iff the label is not 0 |
| SkinStage.SkinLabel | BioidentificationSystem/ImageProcessor.cpp:513-545 | a label is one of 0, 100, 130, 160, 190, 220, 250, and pixels inside the face rectangle keep 0 |
| SkinStage.SkinBin | BioidentificationSystem/ImageProcessor.cpp:513-520 | the binary map is 0 or 255, and 255 exactly when the pixel is outside the face and the level-100 classifier accepts it |
| SkinStage.Colorized | BioidentificationSystem/ImageProcessor.cpp:501-545 | pixels inside the face keep the frame's colour; a changed pixel is pure green at level 100 or more |
| SkinStage.NestedDepthCounts | BioidentificationSystem/ImageProcessor.cpp:516-546 | when the classifiers are nested, the depth is the number of classifiers that accept the colour |
| SkinStage.PixelRecognition | BioidentificationSystem/ImageProcessor.cpp:498-549 | fresh label, binary and colorized images of the frame's size, each cell given by the per-pixel rule |
| SkinStage.RecognizeRow | BioidentificationSystem/ImageProcessor.cpp:511-547 | after row i every sample of rows 0..i holds its label, mask and colour, and later rows still hold their initial values |
| SkinStage.ClassifyPixel | BioidentificationSystem/ImageProcessor.cpp:507-545 | the label of one pixel, its binary value, and its colorized value (green of the label's strength on skin) |
| RunFill.NextSep | BioidentificationSystem/ImageProcessor.cpp:679-740 | the first edge cell at or after k, or the line's end |
| RunFill.LastCorner | BioidentificationSystem/ImageProcessor.cpp:679-740 | the start of the run of non-edge cells that ends at j |
| RunFill.Count | BioidentificationSystem/ImageProcessor.cpp:729-736 | a run's black or white tally is at most its length |
| RunFill.MergedLine | BioidentificationSystem/ImageProcessor.cpp:679-740 | one merged line has the line's length |
| RunFill.RunFilled | BioidentificationSystem/ImageProcessor.cpp:714-728 | at an edge cell, every cell of the run it closes takes the run's fill colour |
| RunFill.TailKept | BioidentificationSystem/ImageProcessor.cpp:679-740 | the cells after the last edge cell of a line are left as they were |
| RunFill.MergedLineCells | BioidentificationSystem/ImageProcessor.cpp:679-740 | edge cells and the open tail keep their value; a cell of a closed run becomes 0 or 255 |
| RunFill.MergedLineMajority | BioidentificationSystem/ImageProcessor.cpp:714-728 | a closed run is painted 0 iff it holds more black than white skin cells, and 255 otherwise |
| RunFill.RunIsUniform | BioidentificationSystem/ImageProcessor.cpp:714-728 | all cells of one closed run get the same colour |
| RunFill.MergedCellValues | BioidentificationSystem/ImageProcessor.cpp:697-737 | one pass leaves every cell at its old value, 0 or 255, and never rewrites a separator cell |
| RunFill.MergeLine | BioidentificationSystem/ImageProcessor.cpp:697-737 | one pass over line i makes it the merged line and leaves every other line unchanged |
| RunFill.ScanLine | BioidentificationSystem/ImageProcessor.cpp:697-737 | after the scan of line i, the cells before its last separator hold their merged values, the later ones their old values, and no other line changes |
| RunFill.MergeCell | BioidentificationSystem/ImageProcessor.cpp:714-736 | one sample either closes the current run, painting it with its majority colour and resetting the counts, or adds to the black or white count; the cells of the other lines do not change |
| RunFill.CloseRun | BioidentificationSystem/ImageProcessor.cpp:714-728 | at an edge sample j, painting the run behind it with the majority colour leaves every cell of line i before j + 1 at its merged value, the rest of the line as it was, and every cell off line i unchanged |
| RunFill.FillRun | BioidentificationSystem/ImageProcessor.cpp:719-725 | the run [lo, hi) of line i is painted and nothing else changes |
| RunFill.MergePixelsAndCanny | BioidentificationSystem/ImageProcessor.cpp:679-740 | horizontally: a fresh copy of the dilated map; vertically: the previous result; in both cases each line becomes its merged line |
| RunFill.HorizontalPassColumns | BioidentificationSystem/ImageProcessor.cpp:691-737 | once the horizontal pass has merged every row of the dilated copy, each column of the result is the horizontally merged column that the vertical pass reads |
| RunFill.RowMerged | BioidentificationSystem/ImageProcessor.cpp:691-737 | row r of the matrix the horizontal pass leaves: the merged row over a clone of the dilated map, one cell per column |
| RunFill.HorizontalColumn | BioidentificationSystem/ImageProcessor.cpp:691-737 | column c of that matrix, the line the vertical pass then reads, one cell per row |
| RunFill.TwoPassColumn | BioidentificationSystem/ImageProcessor.cpp:358-368 | column c after the case 0 to case 1 fall-through: the vertical merge of the horizontally merged column, one cell per row |
| RunFill.TwoPassCells | BioidentificationSystem/ImageProcessor.cpp:358-368 | after both passes a separator of the dilated map keeps its value, and every other cell is 0, 255 or its dilated value |
| RunFill.TwoPassMerge | BioidentificationSystem/ImageProcessor.cpp:358-368 | entering the merge switch at its first case yields a fresh matrix of the maps' shape whose every column is the vertical merge of the horizontally merged dilated map |
| RunFill.FillColor | BioidentificationSystem/ImageProcessor.cpp:716-718 | a run is painted black or white, and white when the black and white counts tie |
| CameraDevice.Reports | BioidentificationSystem/Camera.cpp:21-36 | one report per read attempt |
| CameraDevice.ReadStep | BioidentificationSystem/Camera.cpp:21-36 | a good read clears the failure count; a failed read adds one, and the read is reported as failed exactly when the count reaches 24 |
| CameraDevice.FailsAfter | BioidentificationSystem/Camera.cpp:21-36 | the failure counter after a series of reads: all failures add their number; after any success it is below the number of reads |
| CameraDevice.FailureRunReports | BioidentificationSystem/Camera.cpp:21-36 | a run of n failures raises the count by n, and the k-th is reported iff it brings the count to 24 |
| CameraDevice.OnlyTwentyFourthFailureReported | BioidentificationSystem/Camera.cpp:21-36 | from a fresh count, only the 24th consecutive failure is reported |
| CameraDevice.PastThresholdSilent | BioidentificationSystem/Camera.cpp:28-31 | once the count is past 24, failures are never reported again |
| CameraDevice.SuccessResets | BioidentificationSystem/Camera.cpp:34-35 | a successful read clears the count and reports success |
| CameraDevice.Camera.constructor | BioidentificationSystem/Camera.cpp:5-12 | device 0, count 0, closed |
| CameraDevice.Camera.Open | BioidentificationSystem/Camera.cpp:14-19 | open iff the device could be opened |
| CameraDevice.Camera.TakeFrame | BioidentificationSystem/Camera.cpp:21-36 | the count and the result follow ReadStep; a successful read stores the image |
| CameraDevice.Camera.Close | BioidentificationSystem/Camera.cpp:38-42 | the device ends closed and nothing else changes |
| CameraDevice.Camera.GetFrame | BioidentificationSystem/Camera.cpp:44-50 | a fresh copy of the stored frame |
| Pipeline.Trace | BioidentificationSystem/ImageProcessor.cpp:432-436 | a dispatch that ends before the outcomes run out ends at Stop |
| Pipeline.Next | BioidentificationSystem/ImageProcessor.cpp:176-424 | one processImage step: only a successful hand recognition with start stage MERGE_PIXELS_AND_CANNY leads there, a set stop flag is never cleared, the start stage and photo mode are never changed, and Stop changes nothing |
| Pipeline.Visits | BioidentificationSystem/ImageProcessor.cpp:176-437 | one visited stage per step of the dispatch |
| Pipeline.StopHaltsImageStages | BioidentificationSystem/ImageProcessor.cpp:245-424 | every image stage entered with the stop flag set goes to Stop and changes nothing |
| Pipeline.StopIsSticky | BioidentificationSystem/ImageProcessor.cpp:181-244 | no step clears the stop flag; only CloseCam, a failed OpenCam or GetFrame on a closed camera sets it |
| Pipeline.StopDrains | BioidentificationSystem/ImageProcessor.cpp:176-437 | with the stop flag set, a dispatch reaches Stop within three steps |
| Pipeline.LostFaceClearsTraining | BioidentificationSystem/ImageProcessor.cpp:245-266 | no face: back to GetFrame with the classifier untrained and an empty face; a face: on to GetSkinColor with the flag unchanged |
| Pipeline.NoCascadeCloses | BioidentificationSystem/ImageProcessor.cpp:249-253 | without a loadable cascade FindFace closes the camera |
| Pipeline.SkinColorRoutes | BioidentificationSystem/ImageProcessor.cpp:267-282 | GetSkinColor goes to training iff untrained, and to pixel recognition iff trained |
| Pipeline.TrainingOutcome | BioidentificationSystem/ImageProcessor.cpp:283-296 | failed training closes the camera; the trained flag is the training result |
| Pipeline.ReadFailureCloses | BioidentificationSystem/ImageProcessor.cpp:198-244 | the failure that reaches 24 closes the camera; any other read moves on, and the count follows the camera rule |
| Pipeline.HandRecognitionLoops | BioidentificationSystem/ImageProcessor.cpp:407-424 | after a successful hand recognition with the stop flag down the pipeline returns to the start stage; a raised stop flag or a failed recognition goes to STOP |
| Pipeline.StopEndsDispatch | BioidentificationSystem/ImageProcessor.cpp:425-436 | dispatching from Stop processes nothing |
| Pipeline.MergeNeverDispatched | BioidentificationSystem/ImageProcessor.cpp:312-349 | MergePixelsAndCanny is never visited unless it is the entry or the start stage |
| Pipeline.ImageProcessor.constructor | BioidentificationSystem/ImageProcessor.cpp:6-29 | untrained, merge count 0, not in photo mode, default kernel parameter, closed camera with count 0, fresh mask matrices of one shape |
| Pipeline.ImageProcessor.SetStop | BioidentificationSystem/ImageProcessor.h:35-36 | only the stop flag changes; the three mask matrices are kept, so the merge-stage invariant holds exactly when it held before |
| Pipeline.ImageProcessor.Stopped | BioidentificationSystem/ImageProcessor.h:37-38 | returns the stop flag |
| Pipeline.ImageProcessor.SetStartState | BioidentificationSystem/ImageProcessor.h:40-41 | only the start stage changes; the three mask matrices are kept, so the merge-stage invariant holds exactly when it held before |
| Pipeline.ImageProcessor.GetStartState | BioidentificationSystem/ImageProcessor.h:42-43 | returns the start stage |
| Pipeline.ImageProcessor.SetKernelParamS | BioidentificationSystem/ImageProcessor.h:97-98 | sets the kernel parameter and marks the classifier untrained; the mask matrices and the merge-stage invariant are kept |
| Pipeline.ImageProcessor.SetPixelClassifierTrained | BioidentificationSystem/ImageProcessor.h:101-102 | only the trained flag changes; the three mask matrices are kept, so the merge-stage invariant holds exactly when it held before |
| Pipeline.ImageProcessor.SetFrame | BioidentificationSystem/ImageProcessor.h:90-91 | stores the frame and clears the face rectangle; the mask matrices and the merge-stage invariant are kept |
| Pipeline.ImageProcessor.SetPhotoMode | BioidentificationSystem/ImageProcessor.cpp:48-52 | only the photo mode flag changes; the three mask matrices are kept, so the merge-stage invariant holds exactly when it held before |
| Pipeline.ImageProcessor.SetPhotoProcessingMode | BioidentificationSystem/ImageProcessor.h:74-75 | only the photo processing mode flag changes; the three mask matrices are kept, so the merge-stage invariant holds exactly when it held before |
| Pipeline.ImageProcessor.TakePhoto | BioidentificationSystem/ImageProcessor.cpp:54-62 | the counter and the result follow the camera's counting rule, a good read stores its image as the frame, and the open state and device number are kept |
| Pipeline.ImageProcessor.DetectFace | BioidentificationSystem/ImageProcessor.cpp:439-465 | false iff no cascade can be loaded; otherwise the face rectangle becomes the largest detection |
| Pipeline.ImageProcessor.MergeStage | BioidentificationSystem/ImageProcessor.cpp:358-373 | the switch falls through: from merge count 0 the result is a fresh matrix whose every column is the vertical merge of the horizontally merged dilated map (TwoPassColumn); from 1 every column of the existing matrix is merged vertically; any other count leaves the matrix as it was; the count ends at 0 |
| Pipeline.ImageProcessor.ProcessImage | BioidentificationSystem/ImageProcessor.cpp:176-424 | one stage's new flags and next stage are exactly those of Next; a good GET_FRAME read on an open camera stores its image as the frame, and otherwise the frame is kept; the device number is kept; a MERGE_PIXELS_AND_CANNY stage that is not stopped leaves the merged matrix MergeStage states, and every other stage leaves the matrix unchanged |
| Pipeline.ImageProcessor.CameraStage | BioidentificationSystem/ImageProcessor.cpp:181-244 | the camera stages (close, open, read a frame) leave exactly the flags and next stage of Next; a good read on an open camera stores its image as the frame, and otherwise the frame is kept; the device number and the three mask matrices are kept |
| Pipeline.ImageProcessor.FindFaceStage | BioidentificationSystem/ImageProcessor.cpp:245-266 | the face stage leaves exactly the flags and next stage of Next: stop, a missing cascade, a lost face (training cleared) or a found face |
| Pipeline.ImageProcessor.RouteStage | BioidentificationSystem/ImageProcessor.cpp:267-424 | every later stage leaves exactly the flags and next stage of Next, and a set stop flag routes to STOP |
| Pipeline.ImageProcessor.ImageProcState | BioidentificationSystem/ImageProcessor.cpp:31-46 | switching on resets the flags and opens the camera; switching off closes it; the frame, the device number and the merged matrix and its contents are kept |
| Pipeline.ImageProcessor.Dispatch | BioidentificationSystem/ImageProcessor.cpp:176-437 | the dispatch loop ends with the stage, flags and step count of Trace; the skin mask and dilated maps and the device number are kept, and a dispatch that never visits MERGE_PIXELS_AND_CANNY leaves the merged matrix and its contents unchanged |
| ImagePaths.FirstSlash | BioidentificationSystem/general.cpp:99-103 | the index of the first '/', with none before it |
| ImagePaths.SegmentsClean | BioidentificationSystem/general.cpp:99-111 | splitting with SkipEmptyParts yields only non-empty, '/'-free parts |
| ImagePaths.SegmentsOfJoin | BioidentificationSystem/general.cpp:105-111 | splitting a join of clean parts gives the parts back |
| ImagePaths.JoinOfSegments | BioidentificationSystem/general.cpp:105-111 | joining the parts of a canonical path gives the path back |
| ImagePaths.SegmentsAtFirstSlash | BioidentificationSystem/general.cpp:101 | splitting on '/' yields the part before the first slash followed by the parts of the rest |
| ImagePaths.CanonicalAfterSlash | BioidentificationSystem/general.cpp:101 | the rest of a canonical path after its first slash is canonical too |
| ImagePaths.JoinCanonical | BioidentificationSystem/general.cpp:105-111 | a join of clean parts has no leading, trailing or doubled '/' |
| ImagePaths.NameIsClean | BioidentificationSystem/general.cpp:99-103 | the image name is non-empty and free of '/' |
| ImagePaths.GetImageName | BioidentificationSystem/general.cpp:99-103 | the image name is one of the path's non-empty, '/'-free parts |
| ImagePaths.PathShape | BioidentificationSystem/general.cpp:105-111 | the image path is "/" for a one-part path, and otherwise a canonical path plus one '/' |
| ImagePaths.GetImagePath | BioidentificationSystem/general.cpp:105-111 | the image path is non-empty and ends in '/' |
| ImagePaths.PathNameRoundTrip | BioidentificationSystem/general.cpp:99-111 | for a canonical path of two or more parts, path + name is the original path |
| ImagePaths.SingleSegmentGainsSlash | BioidentificationSystem/general.cpp:105-111 | a one-part path does not round-trip: "a.bmp" becomes "/a.bmp" |
| ImagePaths.Decimal | BioidentificationSystem/general.cpp:75-79 | a non-empty string of decimal digits |
| ImagePaths.DecimalRoundTrip | BioidentificationSystem/general.cpp:75-79 | reading the digits back gives the number |
| ImagePaths.DecimalValueSnoc | BioidentificationSystem/general.cpp:75-79 | appending a digit multiplies the value by ten and adds the digit |
| ImagePaths.SaveImageName | BioidentificationSystem/general.cpp:70-83 | the file name starts with the directory; an empty name gives the time in milliseconds plus ".bmp"; a missing directory or a failed write gives "" |
| ImagePaths.SaveImage | BioidentificationSystem/general.cpp:70-83 | the result is empty exactly when the directory is missing or the write fails; otherwise it starts with the directory |
| ImagePaths.WhitenBorder | BioidentificationSystem/general.cpp:113-125 | a fresh copy whose outermost rows and columns are white and whose interior equals the spot |

## Left out

- OpenCV operators are not modelled: colour conversion, histogram equalisation, cascade detection, resize, Canny, dilation, erosion, opening, `findContours`, `boundingRect`, `drawContours`, `approxPolyDP` and `bitwise_not`. Their results are inputs: `Outcome` fields, edge maps, contours, boxes.
- The trained pixel classifiers are predicates on colours (`Classifiers`, and `train` as a function parameter). Their internals are not part of this model.
- The face crop and resize to 150x150, and the crop of the skin patch, are not modelled. The patch is a parameter.
- The public slots `setSkinColor` and `setSkinColorRect` are left out. They only replace the skin patch and its rectangle, and the patch that `trainPixelClassifier` learns from is already a parameter of `TrainPixelClassifier`.
- `makeExp` is left out. It sets `doRGBArray`, which makes the next skin stage dump a 256x256x256 table of classifier levels for colour-space export. The table is floating point and only written out; no later stage reads it.
- Floating point is left out: the hand threshold, `result.toDouble()`, `setHandThres`, `setApproxPoly` and the clock. `SaveImage` takes the current time as a parameter. The size filter's `* 0.5` factors need no floating point: they are modelled exactly, as integer comparisons of twice the side.
- File and process I/O is left out: the log file, `saveImage`'s image write and directory creation (given as flags), and `handRecCommands` after the border (directory changes, file deletion, launching the comparison programs, reading their output). The comparison's success is the `commandOk` parameter.
- Threads, mutexes, OpenMP and Qt signals (`emit error`, `photoModeChanged`, frame-ready signals) are left out. Only sequential behaviour is modelled.
- C++ exceptions are left out. A thrown `handRecCommands` becomes a `false` entry of `commandOk`.
- Qt user-interface files, settings dialogs and all commented-out code are not modelled.
- The setters for Canny, morphology and merge parameters (`setLowThreshold`, `setRatio`, `setAperture`, `setDilateSize`, `setErodeSize`, `setOpenedMatSize`, `setCannyContourMergeEps`, `setTopHandThres`, `setApertureFilter`) are left out. They only store a value that the left-out OpenCV calls consume; `eps` and `topHandThres` are parameters of the model.
- CameraDevice.Camera.TakeFrame: after a failed read, OpenCV empties the frame. The model keeps the previous frame, because the frame's content after a failure belongs to the capture library.
- Pipeline.ImageProcessor.constructor: the source leaves `stop` and `startState` uninitialised. The model states nothing about them until they are set.
- Pipeline.ImageProcessor.ProcessImage: each stage's image work is summarised by an `Outcome` (whether the device opens, whether a frame is read, the detections, whether training succeeds, whether a hand is recognised). The stage bodies are modelled separately, in `SkinStage`, `RunFill`, `ContourRefiner` and `CameraDevice`.
- RingSearch.GetNearestCannyPoint: the cursor that walks each ring is modelled as a ring index (`RingPoint`), not as four moving coordinates. The visiting order is the same.
