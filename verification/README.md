# Verified models of the racing stack's algorithmic cores

Dafny 4.11 models of the small algorithms under the ROS, rollout and map tooling,
with proofs of what their documentation promises. `dafny verify dfyconfig.toml`
checks the whole project. Stamps and sequence numbers are integers, everything
measured is an exact real.

Where the source updates state, the model is a class or an in-place method proved
equal to a function over values; the theorems are about those functions, over every
input, every run or every reachable state.

| files | models |
|---|---|
| DevkitSpec, DevkitAssembler | the 13-topic frame assembler: one message in, completed frames out |
| DevkitPairing, DevkitThrottleLoss, DevkitThrottleHistory | no frame ever mixes bursts, and exactly what this asks of throttle |
| DevkitAccounting | every id emitted, dropped or buffered, once, in order |
| DevkitLossless, DevkitLossy | a lossless stream loses nothing, up to an exact lead; once synced, losses cost just their own bursts |
| Alignment, Aligner, AlignmentProofs, AlignmentExact | the streaming estimate matcher with pruning, and its offline meaning |
| Coverage | availability as a measure of time |
| Geometry, Folds, FoldProofs, FoldOverlaps | crossings of a closed polyline and the cutting of its folds, in both implementations; where a wall may still overlap itself |
| Scanline | even-odd fill by difference arrays |
| NearestEdges, NearestLimits, CellEdges | bucketed nearest-edge search and its limit; distance to the nearest occupied cell |
| Laps, LapProofs, LapTallies | lap accounting by phase unwrapping, in C++ and in Python |
| Session, SessionProofs, SessionReplies | reset handshake, throttle loop and published commands |
| Spurs, Bridges | peeling a skeleton to its loops; bridging a bound's unobserved stretches |
| Selection, SelectionExact | reverse dependencies and fail-closed test selection |
| Sweep | walls with discs cut out |
| Tracks, TrackRoundTrip, TrackWalls, Supervisor | the track frame and the safety supervisor's latch |
| Options, Sets, Products, Reals | shared small types and facts |

## What does not hold as written

Each has an input that shows it and a condition that is exact, for fold removal exact
where nothing is cut.

- "Nothing is ever paired across frames" (the assembler): false when throttle skips a
  burst while learning and another topic does too. `ThrottleLossMixes` is such a run;
  `HistoryExact` proves that the histories of throttle deliveries that keep every run
  whole are exactly those that never skip a burst forward.
- Fold removal leaves a wall that does not cross itself: parallel segments may overlap
  unseen, as in `FlatKept`. `FoldsRemovedExact` proves that a wall returned uncut meets
  itself nowhere exactly when no parallel segments of it overlap, and that a wall with
  none to begin with comes back so after any cuts; a cut may also take an overlap away
  with its loop, as in `OverlapCut`.
- A cut wall is clear of the discs: false for a segment of no length inside one, which
  is kept, as in `SpeckKept`. `OutsideClear` proves these are the only exceptions.
- The bucketed search equals brute force: false for edges over two buckets, as in
  `FaceMissed`. `SearchExactIff` proves that two buckets are exactly the limit for edges
  at large, `FacesExactIff` that one metre is for the cells of a map, whose faces are all
  the search is given.
- A pose and its track frame are inverses: false beyond the ends of a segment, as in
  `OutsideBendLost`. `PoseExact` gives exactly the poses that come back, `OffsetExact`
  the arc lengths and offsets.
- Live alignment equals offline alignment: false for a sample that truth overtook while
  a late estimate would still have covered it, as in `LiveDiffers`. `LiveIsOffline`
  proves this is the only difference.
- Availability is a fraction: false for a negative window with estimates in range, which
  the code accepts, as in `NegativeAvailability`. `AvailabilityIsFraction` gives the
  exact condition.
- A stale command always stops the car: a command marked as never received is passed
  whatever its age, as in `UnreceivedPasses` and as the header's comment intends.
  `OldStoppedExact` gives exactly the old commands that are stopped.

## Model

| member | source | states |
|---|---|---|
| DevkitPairing.NoCrossFramePairing | ros_ws/src/racing_sim_autodrive/racing_sim_autodrive/devkit.py:140-315 | for any deliveries in any interleaving, lost, late, repeated or out of order: if throttle is not lost while learning, the offsets in use are the publisher's and every frame handed out holds, topic by topic, the 13 values of the one burst its id names and that burst's lidar header stamp, and the burst passes the checks |
| DevkitPairing.BuildExact | ros_ws/src/racing_sim_autodrive/racing_sim_autodrive/devkit.py:283-315 | a burst is built exactly when all its source stamps lie within 75 ms of each other, the header stamps of the five topics that have one do too, and the two positions agree |
| DevkitPairing.HandedExact | ros_ws/src/racing_sim_autodrive/racing_sim_autodrive/devkit.py:283-315 | whatever is built from a burst holds that burst's value in each slot and its lidar header stamp |
| DevkitPairing.OfferPairs | ros_ws/src/racing_sim_autodrive/racing_sim_autodrive/devkit.py:140-170 | one message keeps this, and hands out only such frames: learning or synced, dead, late, restarting or backlogged |
| DevkitPairing.LearnPairs | ros_ws/src/racing_sim_autodrive/racing_sim_autodrive/devkit.py:210-280 | learning, over all its turns, only ever adopts the true offsets and only hands out such frames |
| DevkitPairing.ClosedHeads | ros_ws/src/racing_sim_autodrive/racing_sim_autodrive/devkit.py:229-246 | a closed burst no topic missed holds the 13 messages of one burst, from the order of the source stamps alone |
| DevkitPairing.TrustedHeads | ros_ws/src/racing_sim_autodrive/racing_sim_autodrive/devkit.py:221-248 | an unclosed burst trusted only because its offsets match the candidate is one burst too |
| DevkitPairing.StartsFaithful | ros_ws/src/racing_sim_autodrive/racing_sim_autodrive/devkit.py:119-126 | a new assembler satisfies the invariant |
| DevkitPairing.ThrottleGapExact | ros_ws/src/racing_sim_autodrive/racing_sim_autodrive/devkit.py:229-249 | the offsets that one closed burst between two queued throttles shows are sure to be the true ones exactly when no throttle between them was lost |
| DevkitThrottleHistory.HistoryExact | ros_ws/src/racing_sim_autodrive/racing_sim_autodrive/devkit.py:140-280 | for every history of throttle deliveries: all runs with it from the start, of every publisher whose values have their topics' shapes and whatever the other topics deliver or lose, hand out whole bursts only, if and only if no throttle skips a burst forward |
| DevkitThrottleHistory.PairExact | ros_ws/src/racing_sim_autodrive/racing_sim_autodrive/devkit.py:140-280 | so with throttle delivering bursts a then b, a < b, every such run of every such publisher is whole if and only if b is a + 1 |
| DevkitThrottleHistory.NoSkipWhole | ros_ws/src/racing_sim_autodrive/racing_sim_autodrive/devkit.py:140-280 | a history that never skips forward, restarts included, keeps every run of every publisher whole |
| DevkitThrottleLoss.SkipMixes | ros_ws/src/racing_sim_autodrive/racing_sim_autodrive/devkit.py:210-280 | wherever a throttle history skips, some run with it, of a publisher whose values have their topics' shapes, hands out a frame of two bursts: every other topic in order, steering aside with any choice of the bursts between |
| DevkitThrottleLoss.ThrottleLossMixes | ros_ws/src/racing_sim_autodrive/racing_sim_autodrive/devkit.py:210-280 | one such run, from the start, every value of its topic's shape: throttle loses burst 1 alone and steering the bursts on either side of it, nothing else |
| DevkitAccounting.OfferKeeps | ros_ws/src/racing_sim_autodrive/racing_sim_autodrive/devkit.py:140-208 | every message keeps the books: each id offered since the sync is exactly one of emitted, dropped or buffered, drops are counted once, ids handed out rise, what stays buffered is incomplete at its oldest frame |
| DevkitAccounting.RunKeeps | ros_ws/src/racing_sim_autodrive/racing_sim_autodrive/devkit.py:140-208 | every reachable state satisfies the invariant and has nothing left to hand out |
| DevkitAccounting.DeadNeverBuffered | ros_ws/src/racing_sim_autodrive/racing_sim_autodrive/devkit.py:181-187 | no reachable state buffers a dead frame, so the drain's dead-frame branch is unreachable |
| DevkitAccounting.DrainRises | ros_ws/src/racing_sim_autodrive/racing_sim_autodrive/devkit.py:181-208 | the drain hands out ids in strictly increasing order, past all handed out before, and records exactly them |
| DevkitAccounting.SyncKeeps | ros_ws/src/racing_sim_autodrive/racing_sim_autodrive/devkit.py:263-279 | ending the learning phase starts balanced books whatever was queued |
| DevkitAccounting.LearnRises | ros_ws/src/racing_sim_autodrive/racing_sim_autodrive/devkit.py:210-280 | what learning hands out rises and is what the new sync's history records |
| DevkitLossless.LosslessStream | ros_ws/src/racing_sim_autodrive/racing_sim_autodrive/devkit.py:140-315 | a clean stream with nothing lost comes out as bursts 1, 2, 3 ... up to the last one every topic has delivered: that many frames, each holding its own burst slot by slot, ids one by one (burst 0 teaches), as long as no topic comes to be more than 64 bursts past what the assembler has read |
| DevkitLossless.Deliver | ros_ws/src/racing_sim_autodrive/racing_sim_autodrive/devkit.py:140-170 | in such a stream, one delivery hands out a burst exactly when it completes the slowest topic's next one |
| DevkitLossless.LeadExact | ros_ws/src/racing_sim_autodrive/racing_sim_autodrive/devkit.py:140-170 | that lead is exact: in every state of such a stream a topic's next burst is taken as its part, the state after it the stream's own, exactly when it is no more than 64 past what has been read; one more restarts a synced assembler and makes a learning one let go of its oldest |
| DevkitLossy.StreamThenLosses | ros_ws/src/racing_sim_autodrive/racing_sim_autodrive/devkit.py:140-315 | from the start, a stream that loses nothing until the offsets are known and anything after: of the bursts from 1 to the last all topics are past, exactly those no topic passed over come out, each once, in order and whole; each other is counted dropped once; nothing restarts |
| DevkitLossy.LossyStream | ros_ws/src/racing_sim_autodrive/racing_sim_autodrive/devkit.py:140-208 | the same from any synced state such a stream reaches, whatever is lost and however the topics interleave |
| DevkitLossy.LossesExact | ros_ws/src/racing_sim_autodrive/racing_sim_autodrive/devkit.py:172-179 | the bursts given up are just those some topic went past without delivering |
| DevkitLossy.DrainUnharmed | ros_ws/src/racing_sim_autodrive/racing_sim_autodrive/devkit.py:181-208 | the drain hands out every burst without a loss up to the slowest topic's, and stops there |
| DevkitLossy.KillMissed | ros_ws/src/racing_sim_autodrive/racing_sim_autodrive/devkit.py:172-179 | a gap gives up each burst in it once, and counts it once however many topics lose it |
| DevkitAssembler.Assembler.constructor | ros_ws/src/racing_sim_autodrive/racing_sim_autodrive/devkit.py:106-126 | the fresh state |
| DevkitAssembler.Assembler.Resync | ros_ws/src/racing_sim_autodrive/racing_sim_autodrive/devkit.py:128-133 | clears everything but the counters and counts the resync |
| DevkitAssembler.Assembler.Lose | ros_ws/src/racing_sim_autodrive/racing_sim_autodrive/devkit.py:172-179 | every lost sequence's frame dies once, and its parts go |
| DevkitAssembler.Assembler.Drain | ros_ws/src/racing_sim_autodrive/racing_sim_autodrive/devkit.py:181-208 | the object computes the specified drain, in place |
| DevkitAssembler.Assembler.Learn | ros_ws/src/racing_sim_autodrive/racing_sim_autodrive/devkit.py:210-280 | the learning loop computes the specified learning, in place |
| DevkitAssembler.Assembler.Offer | ros_ws/src/racing_sim_autodrive/racing_sim_autodrive/devkit.py:140-170 | the object's next state and frames are the specified ones, and `emitted` counts them |
| AlignmentProofs.PruningInvisible | ros_ws/src/racing_evaluation/racing_evaluation/localization.py:135-192 | for every interleaving with ordered truth, discarding estimates changes no pair ever handed out, late and out-of-order estimates included |
| AlignmentProofs.LiveExact | ros_ws/src/racing_evaluation/racing_evaluation/localization.py:135-192 | every truth sample comes out once, in order, with the offline estimate unless truth moved past the window before an estimate caught up |
| AlignmentProofs.LiveIsOffline | ros_ws/src/racing_evaluation/racing_evaluation/localization.py:116-208 | the live pairs equal the offline pairs exactly when no sample the estimates do cover was overtaken |
| AlignmentProofs.AlignExact | ros_ws/src/racing_evaluation/racing_evaluation/localization.py:195-208 | offline alignment of any two lists is the declarative interpolation, truth by truth |
| AlignmentExact.AlignAnswers | ros_ws/src/racing_evaluation/racing_evaluation/localization.py:105-113 | for any two lists, every offline pair: the first estimate of the truth's stamp; failing one, a pose as far from one neighbour to the next in place as the stamp is in time, turned the same share of their shorter turn, if they are no further apart than the window; failing both, none |
| AlignmentExact.LiveAnswers | ros_ws/src/racing_evaluation/racing_evaluation/localization.py:105-192 | every live pair likewise, or none where truth overtook it |
| AlignmentExact.EstimateExact | ros_ws/src/racing_evaluation/racing_evaluation/localization.py:105-181 | the declared answer at any stamp, exactly |
| AlignmentExact.WrapIsShort | ros_ws/src/racing_evaluation/racing_evaluation/localization.py:100-102 | the wrapped angle is the angle less whole turns, at most half of one, the even one of two halves |
| AlignmentExact.SortStable | ros_ws/src/racing_evaluation/racing_evaluation/localization.py:202-205 | poses of one stamp come out of the sort in the order they went in |
| AlignmentProofs.LiveDiffers | ros_ws/src/racing_evaluation/racing_evaluation/localization.py:116-208 | for every window a concrete stream, estimates and truth each in stamp order, whose live pairs are not the offline ones |
| AlignmentProofs.SortSorts | ros_ws/src/racing_evaluation/racing_evaluation/localization.py:202-205 | the sort by stamp orders the poses and keeps them all |
| AlignmentProofs.DecideOnView | ros_ws/src/racing_evaluation/racing_evaluation/localization.py:150-181 | a decision at or past the horizon reads only what pruning keeps |
| AlignmentProofs.ViewOfInsert | ros_ws/src/racing_evaluation/racing_evaluation/localization.py:135-139 | inserting late commutes with pruning, as far as any later decision can see |
| Aligner.Create | ros_ws/src/racing_evaluation/racing_evaluation/localization.py:126-133 | a window that is not positive is refused, any other gives an empty aligner |
| Aligner.Aligner.AddEstimate | ros_ws/src/racing_evaluation/racing_evaluation/localization.py:135-139 | the two parallel lists stay parallel and the pairs and next state are the specified ones |
| Aligner.Aligner.AddTruth | ros_ws/src/racing_evaluation/racing_evaluation/localization.py:141-144 | likewise for a truth sample |
| Aligner.Aligner.Flush | ros_ws/src/racing_evaluation/racing_evaluation/localization.py:146-148 | likewise for the final flush |
| Aligner.Aligner.EstimateAt | ros_ws/src/racing_evaluation/racing_evaluation/localization.py:150-169 | the bisections find the specified neighbours and decide as specified |
| Aligner.Aligner.Resolve | ros_ws/src/racing_evaluation/racing_evaluation/localization.py:171-181 | resolves from the head while decided, then discards |
| Aligner.Aligner.DiscardUnneededEstimates | ros_ws/src/racing_evaluation/racing_evaluation/localization.py:183-192 | removes the specified prefix of both lists |
| Aligner.Align | ros_ws/src/racing_evaluation/racing_evaluation/localization.py:195-208 | refuses exactly the windows that are not positive, else returns the offline alignment |
| Coverage.Availability | ros_ws/src/racing_evaluation/racing_evaluation/localization.py:350-385 | refuses exactly the empty intervals; the loop's sums are the uncovered time, the stale gaps and the largest gap, attained |
| Coverage.AvailabilityIsMeasure | ros_ws/src/racing_evaluation/racing_evaluation/localization.py:368-381 | the covered moments are ordered disjoint pieces inside the interval whose lengths sum to availability times the interval |
| Coverage.AvailabilityIsFraction | ros_ws/src/racing_evaluation/racing_evaluation/localization.py:381 | availability lies in [0, 1] exactly when the window is not negative or no estimate fell in the interval |
| Coverage.NegativeAvailability | ros_ws/src/racing_evaluation/racing_evaluation/localization.py:361-381 | a window of -1 and one estimate midway give availability -1 |
| Coverage.WholeIsUnbroken | ros_ws/src/racing_evaluation/racing_evaluation/localization.py:374-381 | availability is exactly 1 exactly when every moment is within the window after an estimate |
| FoldProofs.FoldsRemoved | raceline/raceline/geometry.py:85-133 | on any wall: in a clean result no two non-adjacent, non-parallel segments share a point (parallel ones are for the rows below), surviving points keep their input order, tips are crossings, every removed point lay within the bound of its crossing, points, flags and reaches stay parallel; a refusal names a loop over the bound |
| FoldOverlaps.FoldsRemovedExact | raceline/raceline/geometry.py:85-133 | for every wall and bound: a clean result has no two non-adjacent segments with length sharing a point, parallel or not, exactly when no parallel ones of it do, and so whenever no parallel ones of the input do; an input with no crossing listed comes back as it is, meeting itself nowhere exactly when no parallel ones of it do |
| FoldOverlaps.UnseenExact | raceline/raceline/geometry.py:54-82 | a wall with no crossing listed has no two non-adjacent segments with length sharing a point exactly when it has no parallel ones that do |
| FoldOverlaps.CutKeepsApart | raceline/raceline/geometry.py:121-132 | a cut makes no overlap: if no two non-adjacent parallel segments with length shared a point before it, none do after |
| FoldOverlaps.CutSegments | raceline/raceline/geometry.py:121-132 | every segment of a cut ring is a stretch of one named segment the ring had |
| FoldOverlaps.RemovalKeepsApart | raceline/raceline/geometry.py:108-133 | so from any wall on, through all the cuts |
| FoldOverlaps.OverlapCut | raceline/raceline/geometry.py:108-133 | the input's condition is no more than sufficient once a loop is cut: a wall of any size that overlaps itself and comes back, after two cuts, meeting itself nowhere |
| FoldOverlaps.FlatKept | raceline/raceline/geometry.py:74-76 | whatever the bound, the ring folded flat onto itself overlaps and comes back as it is |
| FoldProofs.RemovalKeeps | raceline/raceline/geometry.py:108-133 | the same from any intermediate wall: what every cut keeps |
| FoldProofs.EachPointOnce | raceline/raceline/geometry.py:111-132 | each input point survives once or is removed by one cut, never both |
| FoldProofs.CutBalances | raceline/raceline/geometry.py:121-132 | a cut takes the loop out and puts the crossing in, as multisets |
| FoldProofs.LargerBoundSame | raceline/raceline/geometry.py:115-120 | a larger bound accepts whatever a smaller one did, with the same wall |
| FoldProofs.RemovingAgain | raceline/raceline/geometry.py:108-110 | a clean wall is a fixed point |
| Folds.CutShortens | raceline/raceline/geometry.py:108-133 | every cut strictly shortens the ring, so the final raise is out of reach for a non-empty wall |
| Folds.RemoveFoldsCuts | raceline/raceline/geometry.py:85-133 | the loop with its three parallel arrays computes the specified removal; only the empty wall reaches the last raise |
| Folds.ReportedExact | raceline/raceline/geometry.py:108-110 | the tips and reaches handed back are the flagged points of the clean wall, all of them, in order, each with its own reach |
| Folds.RemoveFoldsImporter | sim/track_importer.py:104-137 | the importer's loop gives the same ring as the other implementation, or refuses where it does |
| Geometry.Crossings | raceline/raceline/geometry.py:54-82 | searching only near pairs lists all crossings, in order |
| Geometry.FirstCrossing | sim/track_importer.py:62-101 | trying all pairs gives the head of that list |
| Geometry.FilterLosesNothing | raceline/raceline/geometry.py:60-68 | two crossing segments have midpoints within the longest segment's length |
| Geometry.CrossingsGenuine | raceline/raceline/geometry.py:69-82 | every listed pair is a crossing |
| Geometry.CrossingsComplete | raceline/raceline/geometry.py:69-82 | every crossing is listed |
| Geometry.CrossingsOrdered | raceline/raceline/geometry.py:69 | the list is in lexicographic order |
| Geometry.MeetExact | raceline/raceline/geometry.py:73-81 | the segment test finds a point just when the segments are not parallel and share one, and it finds that point |
| Geometry.CrossingExact | raceline/raceline/geometry.py:71-81 | so a pair is listed just when it is not adjacent, not parallel and shares a point |
| Geometry.NoCrossingsExact | raceline/raceline/geometry.py:54-82 | the list is empty exactly when no two non-adjacent, non-parallel segments share a point; parallel segments are never listed, touching or not |
| Geometry.FlatUnseen | raceline/raceline/geometry.py:74-76 | a ring folded flat onto itself, two of its non-adjacent segments overlapping, has no crossing listed |
| Geometry.FirstIsLeast | sim/track_importer.py:97-101 | its head is the least crossing pair |
| Scanline.InsideRing | sim/track_importer.py:157-185 | for every ring, row and column the difference-array fill is the parity of the edges crossing right of the cell centre |
| Scanline.InRingExact | sim/track_importer.py:157-185 | told from the ring's points: inside is an odd number of sides with one end above the point and the other not, that have a point at its height right of it |
| Scanline.XAtExact | sim/track_importer.py:173-177 | the crossing of a side with a row it straddles is the one point of the side at that height |
| Scanline.CentreMidway | sim/track_importer.py:166-181 | a cell's centre is midway between its corners |
| Scanline.RasteriseCorridor | sim/track_importer.py:188-206 | free exactly where the centre is inside the outer ring and outside the inner one |
| Scanline.CountCrossings | sim/track_importer.py:166-182 | the accumulated arrays count, per row and column, exactly the crossings |
| Scanline.FillRow | sim/track_importer.py:183-185 | the prefix sums of a row give its cells |
| Scanline.BeyondIsRight | sim/track_importer.py:178-181 | the clipped ceiling puts a crossing past a column exactly when it is right of the centre |
| Scanline.DifferenceIsRight | sim/track_importer.py:181-185 | total less prefix is the count to the right |
| Scanline.RowParity | sim/track_importer.py:168-170 | a closed ring straddles every row an even number of times |
| Scanline.SidesAgree | sim/track_importer.py:183-185 | counting on the left gives the same answer |
| Scanline.AnyStart | sim/track_importer.py:168 | the start vertex does not matter |
| Scanline.AnyDirection | sim/track_importer.py:168-177 | nor does the direction |
| NearestLimits.FacesExactIff | ros_ws/src/racing_evaluation/racing_evaluation/map_accuracy.py:112-187 | for every length of a cell: on all grids, with all points, the search over the grid's own faces answers with the exact minimum if and only if a cell is at most two buckets, one metre, long |
| NearestLimits.SearchExactIff | ros_ws/src/racing_evaluation/racing_evaluation/map_accuracy.py:148-187 | for every bound on the edges' extents: all points are answered with the exact minimum over all edges, for all lists of points and of edges within the bound, if and only if it is at most two buckets |
| NearestLimits.FaceMissed | ros_ws/src/racing_evaluation/racing_evaluation/map_accuracy.py:148-187 | two faces of one cell length over a metre, and two points: the whole search returns the distance of the face it saw though the other is nearer |
| NearestLimits.MapHasFaces | ros_ws/src/racing_evaluation/racing_evaluation/map_accuracy.py:112-129 | for every cell length over a metre a grid has just those two faces |
| NearestLimits.NeverLooked | ros_ws/src/racing_evaluation/racing_evaluation/map_accuracy.py:163-186 | an edge filed out of reach of a find that stops the search is never among those looked at |
| NearestEdges.NearestDistance | ros_ws/src/racing_evaluation/racing_evaluation/map_accuracy.py:148-187 | the bucketed search, whatever the edges, returns for every point the answer the rows above are about, the exact minimum where all edges are short |
| NearestEdges.LookedExact | ros_ws/src/racing_evaluation/racing_evaluation/map_accuracy.py:163-186 | among short edges the list the growing search ends on holds the nearest of all, from any reach on |
| NearestEdges.SearchCell | ros_ws/src/racing_evaluation/racing_evaluation/map_accuracy.py:163-186 | the growing-ring loop ends and gives each point of the cell the least over the edge list specified |
| NearestEdges.SearchedEnough | ros_ws/src/racing_evaluation/racing_evaluation/map_accuracy.py:171-180 | what was found within reach is the global minimum once it is closer than the searched part |
| NearestEdges.CloseEdgeNearCell | ros_ws/src/racing_evaluation/racing_evaluation/map_accuracy.py:175-178 | an edge within n buckets has its midpoint within n + 1 cells |
| NearestEdges.Gather | ros_ws/src/racing_evaluation/racing_evaluation/map_accuracy.py:167-170 | collects exactly the indexes filed within reach |
| NearestEdges.GroupByCell | ros_ws/src/racing_evaluation/racing_evaluation/map_accuracy.py:155-157 | files every index under its own cell |
| NearestEdges.PointSegmentDistance | ros_ws/src/racing_evaluation/racing_evaluation/map_accuracy.py:132-145 | each distance is the minimum over the chosen edges |
| NearestEdges.EdgeDistanceLeast | ros_ws/src/racing_evaluation/racing_evaluation/map_accuracy.py:138-145 | the clamped projection is the edge's nearest point |
| NearestEdges.WallEdges | ros_ws/src/racing_evaluation/racing_evaluation/map_accuracy.py:112-129 | returns the faces between a free and an occupied cell, all of them and no others |
| NearestEdges.FaceShared | ros_ws/src/racing_evaluation/racing_evaluation/map_accuracy.py:112-129 | a face is, point by point, what its two cells share |
| NearestEdges.FacesShortExact | ros_ws/src/racing_evaluation/racing_evaluation/map_accuracy.py:112-129 | a grid's faces reach no further than two buckets along an axis exactly when a cell is at most one metre |
| LapProofs.RunExact | ros_ws/src/racing_metrics/src/metrics_accumulator.cpp:77-128 | while each move is under half a track, the distance travelled is the true one, exactly, until completion; repeated instants are among the samples |
| LapProofs.RepeatDropped | ros_ws/src/racing_metrics/src/metrics_accumulator.cpp:86-92 | a sample of a repeated instant is invisible to the run, whatever else it says |
| LapProofs.LapsExact | ros_ws/src/racing_metrics/src/metrics_accumulator.cpp:121-133 | the laps recorded are the whole laps of the greatest true progress, up to the number asked for; lap times sum to the last lap's end |
| LapTallies.RunReports | ros_ws/src/racing_metrics/src/metrics_accumulator.cpp:77-143 | over any samples, refused and repeated ones included: the clearance is the least of the samples that count, collisions and saturations are the rises of their flags among those, and the tracking errors are theirs, in order |
| LapProofs.RunKeeps | ros_ws/src/racing_metrics/src/metrics_accumulator.cpp:77-143 | over any samples, refused ones included, the books balance: lap times sum to the last lap's end, laps recorded match the greatest distance, completion is the count |
| LapProofs.ObservationKeeps | ros_ws/src/racing_metrics/src/metrics_accumulator.cpp:77-143 | one sample keeps them and records one lap at most |
| LapProofs.LappedOnce | ros_ws/src/racing_metrics/src/metrics_accumulator.cpp:125-130 | the lap loop runs at most once a sample |
| LapProofs.CountedIsFloor | ros_ws/src/racing_metrics/src/metrics_accumulator.cpp:122-130 | laps recorded are the floor of the greatest distance over the length, capped |
| LapProofs.Agreement | sim/rollout.py:43-65 | for one lap and strictly increasing times both implementations agree on distance, completion, its sample and the lap time, all run long |
| Laps.UnwrapExact | ros_ws/src/racing_metrics/src/metrics_accumulator.cpp:109-116 | the half-length rule recovers every move under half a turn, and none over half |
| Laps.NormalizedIsFloored | ros_ws/src/racing_metrics/src/metrics_accumulator.cpp:95-98 | the shifted fmod is the floored remainder the rollout uses |
| Laps.CreateAccumulator | ros_ws/src/racing_metrics/src/metrics_accumulator.cpp:63-74 | refuses exactly no laps or no length |
| Laps.MetricsAccumulator.Observe | ros_ws/src/racing_metrics/src/metrics_accumulator.cpp:77-143 | the object's next state, and whether it threw, are the specified ones |
| Laps.CreateLap | sim/rollout.py:33-41 | refuses exactly a track of no length |
| Laps.CenterlineLap.Update | sim/rollout.py:43-65 | the object's next state and answer are the specified ones |
| SessionProofs.ResetExact | ros_ws/src/racing_sim_autodrive/racing_sim_autodrive/bridge.py:304-421 | after any interleaving, a reply carries Reset True exactly on the first frame after one or more requests |
| SessionProofs.EventKeeps | ros_ws/src/racing_sim_autodrive/racing_sim_autodrive/bridge.py:304-421 | every event keeps: the command held is True exactly while the reset is awaited, the values published strictly alternate |
| SessionProofs.LevelIsLastRequest | ros_ws/src/racing_sim_autodrive/racing_sim_autodrive/bridge.py:304-307 | the requested level is up exactly when the last event was a request |
| SessionProofs.ReanchoredWhileAwaiting | ros_ws/src/racing_sim_autodrive/racing_sim_autodrive/bridge.py:366-398 | while a reset is awaited every frame leaves the integral zero and the odometry at the ground truth, at rest |
| SessionProofs.AnchoredUntilReleased | ros_ws/src/racing_sim_autodrive/racing_sim_autodrive/bridge.py:366-398 | over any run, every frame from the one after a reset fired through the releasing one ends with the integral zero and the odometry at the ground truth |
| SessionProofs.Run | ros_ws/src/racing_sim_autodrive/racing_sim_autodrive/bridge.py:304-421 | every reachable state satisfies the invariant: True and False strictly alternate among the values published, the last being True exactly while the session awaits |
| SessionProofs.AwaitExact | ros_ws/src/racing_sim_autodrive/racing_sim_autodrive/bridge.py:372-387 | in every run, after a frame that fired and frames alone since: the session still waits exactly when none of them is a normal frame after a seen effect, or normal and the 120th or later |
| SessionProofs.RequestRestarts | ros_ws/src/racing_sim_autodrive/racing_sim_autodrive/bridge.py:304-421 | a request changes nothing but the level, whatever is awaited, and the next frame starts the wait and its count afresh |
| SessionProofs.OnFrameShape | ros_ws/src/racing_sim_autodrive/racing_sim_autodrive/bridge.py:333-421 | what one frame makes of the handshake |
| SessionProofs.IntegralBounded | ros_ws/src/racing_sim_autodrive/racing_sim_autodrive/control.py:36-56 | in every reachable state the integral is within limit + V / gain + ki E T |
| SessionProofs.ThrottleKeepsBound | ros_ws/src/racing_sim_autodrive/racing_sim_autodrive/control.py:36-56 | one update keeps that bound, and its output is within the limit |
| SessionReplies.SteeringExact | ros_ws/src/racing_sim_autodrive/racing_sim_autodrive/control.py:59-63 | steering times the full angle is the angle asked for, sign and all, held at the full angle beyond it |
| SessionReplies.ThrottleExact | ros_ws/src/racing_sim_autodrive/racing_sim_autodrive/control.py:36-56 | throttle is feedforward, proportional part and integral, held at the limit; zero at no speed asked for |
| SessionReplies.IntegralExact | ros_ws/src/racing_sim_autodrive/racing_sim_autodrive/control.py:44-53 | the integral takes in the error over the step but for an error pushing further into the limit |
| SessionReplies.SpeedExact | ros_ws/src/racing_sim_autodrive/racing_sim_autodrive/core.py:198-217 | the speed over the step is the wheels' mean roll; none without a step, with a wheel gone backwards or while a reset is awaited |
| SessionReplies.StepExact | ros_ws/src/racing_sim_autodrive/racing_sim_autodrive/bridge.py:309-316 | the step is the positive time between frames by the clock in use, none otherwise |
| SessionReplies.OdometryExact | ros_ws/src/racing_sim_autodrive/racing_sim_autodrive/bridge.py:388-402 | odometry is the ground truth at rest, advanced, or held, by whether a reset is awaited and a speed known |
| Session.CreateLoop | ros_ws/src/racing_sim_autodrive/racing_sim_autodrive/control.py:20-31 | refuses exactly the gains and limits that are not positive |
| Session.ThrottleLoop.Update | ros_ws/src/racing_sim_autodrive/racing_sim_autodrive/control.py:36-56 | the object computes the specified update |
| Session.ResetLatch.Next | ros_ws/src/racing_sim_autodrive/racing_sim_autodrive/control.py:72-75 | fires on a rising edge only |
| Session.BridgeSession.RequestReset | ros_ws/src/racing_sim_autodrive/racing_sim_autodrive/bridge.py:304-307 | raises the level, nothing else |
| Session.BridgeSession.OnSimFrame | ros_ws/src/racing_sim_autodrive/racing_sim_autodrive/bridge.py:333-421 | the object's next state and reply are the specified ones, latch and loop included |
| Session.DevkitCommands.FromStep | ros_ws/src/racing_sim_autodrive/racing_sim_autodrive/devkit.py:329-337 | publishes True on a fired reset, False when the wait is over, and remembers the last |
| Spurs.PruneSpurs | raceline/raceline/extract.py:177-190 | in-place peeling ends at the greatest part in which every pixel has two neighbours: it is such a part, and holds every other |
| Spurs.FindEnds | raceline/raceline/extract.py:183-187 | the window count of at most 2 marks exactly the pixels with at most one neighbour, borders included |
| Spurs.WindowIsDegree | raceline/raceline/extract.py:183-186 | the 3 x 3 sum of a set pixel is its neighbour count plus one |
| Spurs.EndlessSurvives | raceline/raceline/extract.py:178-180 | peeling all ends at once never touches an endless part |
| Spurs.LoopEndless | raceline/raceline/extract.py:178-180 | every closed loop is endless, so it survives untouched |
| Bridges.FindBridges | raceline/raceline/extract.py:337-383 | every point within the margin of an unobserved one lies on exactly one bridge and no other point does; each bridge ends on points clear of the margin and is allowed; refused exactly where all the bound is such a stretch, or at a stretch not allowed |
| Bridges.Grow | raceline/raceline/extract.py:355-357 | marks exactly the points within the margin, round the bound |
| Bridges.FindRuns | raceline/raceline/extract.py:364-372 | the index scan lists exactly the maximal runs, in order |
| Bridges.RunGrounded | raceline/raceline/extract.py:373-375 | a run read in rotated order is a stretch round the bound between two points clear of it, the seam included |
| Bridges.BridgesExact | raceline/raceline/extract.py:362-375 | the runs' stretches cover the marked points once each |
| CellEdges.CellEdgeDistance | raceline/raceline/geometry.py:141-162 | for every point the candidates within reach give the least distance over all the cells' squares; infinite exactly without cells |
| CellEdges.CellDistance | raceline/raceline/geometry.py:157-161 | measuring the candidates alone gives the least over all |
| CellEdges.NearestIsCandidate | raceline/raceline/geometry.py:147-149 | the nearest square's centre is always within the nearest centre's distance and half a diagonal |
| CellEdges.CellDistanceLeast | raceline/raceline/geometry.py:160-161 | the clipped offset is no longer than the way to any point of the square |
| CellEdges.CellDistanceAttained | raceline/raceline/geometry.py:160-161 | and one of its points is that close |
| Selection.ReverseDependents | scripts/changed_scope.py:132-151 | for each package exactly the others reachable over one or more reversed dependencies, cycles included |
| Selection.Reach | scripts/changed_scope.py:142-148 | the work list ends with exactly the transitive users |
| Selection.DirectUsers | scripts/changed_scope.py:136-139 | inverts the manifests |
| Selection.SelectReady | scripts/changed_scope.py:338-398 | the loop over the paths computes the specified selection |
| Selection.Place | scripts/changed_scope.py:356-378 | the rules for one path, first match deciding |
| SelectionExact.SelectExact | scripts/changed_scope.py:338-398 | the whole selection in strings: everything exactly for no change, no lap, a path that forces it or no rule places, a test nobody claims, or a wanted test that does not exist; else exactly the keys selected and the tests wanted |
| SelectionExact.TriggerExact | scripts/changed_scope.py:32-59 | a path forces everything exactly when it is one of the eleven named files, or is or ends in /package.xml or /CMakeLists.txt, or starts with docker/ or tests/golden/; under config/ only the map itself does |
| SelectionExact.AskExact | scripts/changed_scope.py:356-378 | what one path asks for, in strings: owners and users of its package by key, or its test id |
| Selection.ScopedIsSound | scripts/changed_scope.py:338-398 | a scoped result has the lap, every changed tier-3 test, and every test of each implementation that owns a changed path or uses its package |
| Selection.ScopedIsMinimal | scripts/changed_scope.py:338-398 | and nothing else: every test in it exists and was asked for by a changed path |
| Selection.SelectionMonotone | scripts/changed_scope.py:338-398 | more paths never turn everything into something, nor drop a test or an implementation |
| Selection.UsersSelected | scripts/changed_scope.py:132-151 | with the computed closure, an implementation whose package needs a changed package, however far down, has its tests selected |
| Selection.PackageForExact | scripts/changed_scope.py:62-66 | a path is a package's exactly when it is ros_ws/src/package/ and more |
| Selection.SystemTestExact | scripts/changed_scope.py:230 | a path names a tier-3 test exactly when it is the prefix, four digits, an underscore, a name without slashes and .py |
| Selection.SplitJoin | scripts/changed_scope.py:63 | splitting at slashes undoes joining |
| Sweep.OutsideClear | raceline/raceline/verify.py:197-232 | some kept point is strictly inside a disc exactly when a zero-length segment lies inside one: those alone are kept uncut |
| Sweep.NothingLost | raceline/raceline/verify.py:197-232 | every point of a segment outside all discs is on a kept piece, or in a gap between neighbouring spans of at most the tolerance |
| Sweep.SpeckKept | raceline/raceline/verify.py:207-219 | a segment of no length at the centre of a disc is kept |
| Sweep.KeptOrdered | raceline/raceline/verify.py:218-228 | over any spans, overlapping or nested, the kept pieces follow each other without overlap, each of positive length |
| Sweep.KeptClear | raceline/raceline/verify.py:218-228 | no piece meets the inside of any span |
| Sweep.KeptComplete | raceline/raceline/verify.py:218-228 | whatever no span covers is kept or in a gap within the tolerance |
| Sweep.SpanExact | raceline/raceline/verify.py:207-216 | a disc's clipped span covers exactly the segment's points inside it |
| Sweep.SortSpansSorts | raceline/raceline/verify.py:222 | the spans are sorted and none lost |
| Sweep.SpanList | raceline/raceline/verify.py:206-216 | the loop over the discs collects their spans |
| Sweep.SweepSpans | raceline/raceline/verify.py:221-228 | the sweep with its running end produces exactly the specified pieces |
| Sweep.OutsideDiscs | raceline/raceline/verify.py:197-232 | whole segments first, then the pieces of the others |
| Tracks.FromPoints | ros_ws/src/racing_common/src/track.cpp:67-107 | accepts exactly the lists it should, refuses at the first fault, and builds unit vectors and cumulative starts that join point to point, round the seam when closed |
| Tracks.FindFrenet | ros_ws/src/racing_common/src/track.cpp:113-149 | the loop over the segments finds the specified first nearest one |
| Tracks.FrenetNearest | ros_ws/src/racing_common/src/track.cpp:113-149 | no point of the centreline is nearer than the one chosen |
| Tracks.FrenetNamesFoot | ros_ws/src/racing_common/src/track.cpp:138-177 | the arc length returned names that very point, vertices and the seam included |
| TrackRoundTrip.OffsetExact | ros_ws/src/racing_common/src/track.cpp:113-177 | an arc length and any offset d come back, the arc length wrapped, exactly when every earlier segment is further than d either way and no later one closer; at a vertex the segment before it reads them, so there must be no offset or no bend |
| Tracks.RoundTrip | ros_ws/src/racing_common/src/track.cpp:113-177 | on any track, self-crossing too, a point of the centreline itself comes back with zero offset and an arc length naming the same point |
| Tracks.ArcLengthRecovered | ros_ws/src/racing_common/src/track.cpp:113-177 | on a simple centreline the wrapped arc length itself comes back, 0 and not the length at the seam |
| Tracks.PoseExact | ros_ws/src/racing_common/src/track.cpp:113-177 | a position comes back exactly when it projects inside its nearest segment and, projecting on the very end, lies on the segment's line or the next segment goes the same way |
| TrackRoundTrip.OutsideBendLost | ros_ws/src/racing_common/src/track.cpp:113-177 | every position off the outside of a right-angled bend, beyond the first straight and before the second, is lost |
| Tracks.InteriorRecovered | ros_ws/src/racing_common/src/track.cpp:113-177 | so every position projecting short of its segment's end comes back |
| TrackWalls.InsideAtNearest | ros_ws/src/racing_common/src/track.cpp:199-225 | on any track, inside means the offset plus half the width within the left wall and less it within the right, at an arc length of a centreline point none is nearer than |
| TrackWalls.InsideExact | ros_ws/src/racing_common/src/track.cpp:199-225 | on a simple centreline inside is exactly that at the arc length asked for, the walls told from the stations |
| TrackWalls.WallsExact | ros_ws/src/racing_common/src/track.cpp:210-223 | the widths at an arc length are those that move from each station's own left and right to the next one's in proportion |
| TrackWalls.StationWalls | ros_ws/src/racing_common/src/track.cpp:210-223 | at a station they are its own left and right |
| TrackWalls.OffsetIsLeft | ros_ws/src/racing_common/src/track.cpp:141-149 | the offset read is how far the position lies to the left of its segment, negative to the right |
| TrackWalls.PlacedLeft | ros_ws/src/racing_common/src/track.cpp:170-177 | a position asked for at an offset lies that far to the left, square to its segment |
| TrackWalls.WrappedExact | ros_ws/src/racing_common/src/track.cpp:152-161 | an arc length is moved by whole laps into the track, or held to the ends of an open one |
| Tracks.CentreInside | ros_ws/src/racing_common/src/track.cpp:199-225 | the centreline itself is always inside |
| Tracks.SegmentAtHolds | ros_ws/src/racing_common/src/track.cpp:162-169 | the binary search's predecessor is the segment whose stretch holds the arc length |
| Supervisor.PassedOnly | ros_ws/src/racing_safety_supervisor/src/supervisor.cpp:34-84 | over any run, a decision moves the car only with no stop since the last clear, fresh input, motion within the limits, and the car's left side within the left wall and its right side within the right one, as the stations give them at its nearest centreline point |
| Supervisor.LatchedStop | ros_ws/src/racing_safety_supervisor/src/supervisor.cpp:34-88 | from any request or stale input to the next clear every decision is zero with the stop bit |
| Supervisor.LatchExact | ros_ws/src/racing_safety_supervisor/src/supervisor.cpp:34-88 | the latch is up exactly when a request or stale input came since the last clear |
| Supervisor.DecisionExact | ros_ws/src/racing_safety_supervisor/src/supervisor.cpp:34-84 | every decision is within the limits; each bit says exactly what was done; no bit exactly when the command passed as it came |
| Supervisor.MovesOnly | ros_ws/src/racing_safety_supervisor/src/supervisor.cpp:39-84 | a decision that moves the car is the clamped command, fresh, unlatched and inside |
| Supervisor.OldStoppedExact | ros_ws/src/racing_safety_supervisor/src/supervisor.cpp:39-47 | a command older than the timeout is stopped in every state exactly when it is marked as received, or the limits leave it no motion |
| Supervisor.UnreceivedPasses | ros_ws/src/racing_safety_supervisor/src/supervisor.cpp:39-84 | a command never received, however old, within the limits passes as it came from a car inside |
| Supervisor.Create | ros_ws/src/racing_safety_supervisor/src/supervisor.cpp:24-32 | refuses exactly the negative limits |
| Supervisor.Supervisor.Evaluate | ros_ws/src/racing_safety_supervisor/src/supervisor.cpp:34-84 | the object's decision and latch are the specified ones |
| Supervisor.Supervisor.RequestEmergencyStop | ros_ws/src/racing_safety_supervisor/src/supervisor.cpp:86 | raises the latch |
| Supervisor.Supervisor.ClearEmergencyStop | ros_ws/src/racing_safety_supervisor/src/supervisor.cpp:88 | lowers it |

## Left out

- Floating point: rounding, NaN, infinities and overflow; reals are exact, so the determinant threshold 1e-15 and the length guards 1e-18 and 1e-300 become tests against zero.
- Square roots and trigonometry: distances and reaches are compared squared; `hypot` and `sqrt` enter as functions assumed right where they are used; headings, `wrap_angle` of track poses, the pose transforms and the odometry step are given functions or absent.
- DevkitPairing.NoCrossFramePairing: assumes throttle is not lost while learning, because without it the claim is false of the code; DevkitThrottleHistory.HistoryExact says when exactly.
- DevkitLossless.LosslessStream: assumes every burst passes the checks and, for the bursts to come out, no topic more than 64 past what has been read (DevkitLossless.LeadExact); what losses cost once synced is DevkitLossy.LossyStream's.
- DevkitLossy.LossyStream: assumes every burst passes the checks and no topic restarts or runs more than 64 past the slowest; after a loss while still learning, liveness is not claimed, because a gap queued at the moment of sync holds the drain until the backlog resets it.
- DevkitAssembler.Assembler.Offer: leaves out `first_seen`, `_in_error` and logging, and the relabelling of the 13 values into the sample record; headers exist for headered topics only.
- AlignmentProofs.LiveExact: assumes estimates arrive in stamp order, as the class documents; PruningInvisible does not.
- Coverage.AvailabilityIsMeasure: assumes the window is not negative; AvailabilityIsFraction says what happens otherwise.
- Geometry.Crossings: lists none on the empty ring, where the source fails before looking; likewise Geometry.FirstCrossing.
- FoldOverlaps.FoldsRemovedExact: for a wall that is cut, the condition on the input is sufficient; an overlap may leave with a cut loop (FoldOverlaps.OverlapCut).
- Folds.RemoveFoldsImporter: excludes the empty ring, on which the importer's search fails with an index error.
- Folds.RemoveFoldsCuts: the largest reach is found by squared distance, and the message texts are not modelled.
- NearestEdges.NearestDistance: assumes points and edges are not empty, on which the source fails; on longer edges it promises the search's own answer alone, because that is then not the minimum (NearestLimits.SearchExactIff, NearestLimits.FacesExactIff).
- Scanline.InsideRing: assumes a positive resolution, by which the source divides.
- LapProofs.LapsExact: assumes samples none of which is refused, with one true progress an instant that moves under half a length from sample to sample; a refused sample has already overwritten the last time, which Laps.MetricsAccumulator.Observe models.
- Laps.MetricsAccumulator.Observe: provenance, the percentile and the JSON summary are not modelled, and counters are unbounded.
- Session.BridgeSession.OnSimFrame: decoding, scans and the track state are not modelled; the lock is one atomic read-and-clear.
- Spurs.PruneSpurs: works on the array it is given, where the source first copies it to zeros and ones and returns it scaled.
- Bridges.FindBridges: is one contour's bridges as index pairs; which points are unobserved is given, the curve's length and turn limits are a given predicate, and drawing is absent.
- CellEdges.CellEdgeDistance: the tree's queries are scans, and the square root is a function right where it is used.
- Selection.ReverseDependents: assumes every dependency named is a package of the tree, as the manifests are read; otherwise the source raises KeyError.
- Selection.SystemTestExact: digits are ASCII, where the pattern admits any Unicode digit.
- Selection.SelectReady: globbing is a given predicate, and the sorted tuples and the explanations are sets or absent; which unclaimed test the reason names is not modelled.
- Sweep.NothingLost: gaps are measured in the segment's parameter, as the source's tolerance is.
- Tracks.FromPoints: reading YAML and the format checks, curvature and headings are not modelled; the double's epsilon bound on lengths is kept.
- Tracks.ArcLengthRecovered: assumes the centreline never meets itself; RoundTrip does not.
- Supervisor.Supervisor.Evaluate: time points are integers and the state's heading and velocity are absent.
- The order of Python's dictionaries and sets, except where it decides a result.
- Shells around these cores: ROS nodes, launch files, sockets, threads, git, rendering, maps on disk.
- `RunningError`, relative pose errors, `curvature_at`, the stall watch and Pure Pursuit: easier members, or repeats of the arguments above.
