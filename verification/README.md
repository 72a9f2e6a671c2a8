# SparseEMG electrode-placement optimiser in Dafny

This project models the optimiser that places EMG, EDA and ECG electrodes on a forearm
drawing, and proves properties of the model. The optimiser is the JavaScript code under
`js/AnnealingClasses`. The project also models the list helpers of the Python server
that rank, select and remap channels.

The model follows the program's structure, one module per component:

- `Base`: shared pieces. These are `Option`, points, `parseInt` as truncation and
  `Math.ceil`. A `Numerics` record stands for `Math.sqrt`, `Math.acos`, `Math.exp`
  and `Math.PI`, with a `Sane` predicate for the few laws the proofs need.
- `Geometry` (`Utils.js`): the shoelace area, flat and paired coordinate arrays, and
  point-to-segment distance. It also has ray casting with the five-point electrode
  stencil, segment intersection, the vector angle, the forearm dimensions and the
  lowest-weight index.
- `SeededRandom` (`Math.seededRandom`): the linear congruential generator. Its state is
  threaded through the generator explicitly.
- `Combinations` (`combine` / `generateCombinations`).
- `MonotoneChain` (`ConvexHullFixed.js`) and `GrahamScan` (`ConveHullCalculator.js`):
  the two convex hulls.
- `Electrodes` and `ElectrodeLayout` (`Electrode.js`, `ElectrodeLayout.js`): the
  electrode record, its area, and the coordinates, hull and JSON copy of a layout.
- `KeyPoints` (`KeyPointCalculator.js`): EMG keypoint pairs and the six ECG keypoints.
- `Energy` (`EnergyCalculator.js`): the muscle triplets and the EDA and ECG scores. It
  also has both system-energy functions and the score object they leave behind.
- `LayoutGenerator` (`ElectrodeLayoutGenerator.js`): the ECG table, the initial random
  layout, the neighbour step and the baseline layout.
- `Annealing` (`SA_Optimizer.js`): the acceptance test, lower-bound penalties, the three
  optimisers' trial step, the cooling schedule and the returned layout.
- `Sensors` (`SensorControls.js`): the weight array and the channel counts.
- `Rankings` and `Training` (`server/app.py`): the thresholded intersection of rankings,
  the arrangement by most frequent index, gap filling and the longest active run, and
  the top-z channel choice and channel remapping.

JavaScript crashes (reading a field of `undefined`, an index past the end) become
`None` or an error constructor. NaN is `None` inside a `Num`. The canvas, the DOM
fields, `Math.random()` and the neighbour and energy calls of the annealing loop are
parameters.

Two faults of the source are carried by rule parameters, so the model holds both the
code as written and its evident intent. `SeededRandom.IndexRule` (a field of the
generator's `Env`) chooses between the index draw `seededRandom(0, n)` as written and
an index in [0, n). `GrahamScan.PopRule` (a field of the energy's `Setup`) chooses
between the Graham pop as written, which can throw, and a pop that stops at the pivot.
The contracts state what each rule does.

## Model

| member | source | states |
|---|---|---|
| Base.Trunc | js/AnnealingClasses/Utils.js:78-79 | `parseInt` of a coordinate is the integer part, rounding toward zero |
| Base.Ceil | js/AnnealingClasses/EnergyCalculator.js:547-551 | `Math.ceil` is the least integer not below its argument |
| Electrodes.GetArea | js/AnnealingClasses/Electrode.js:53-59 | circle gives 3.14·size², square gives size², any other shape gives undefined |
| Electrodes.GetAreaIgnoresStoredFields | js/AnnealingClasses/Electrode.js:31-59 | the area getter depends on neither the stored area nor the position given to the constructor |
| Electrodes.GetAreaNonNegative | js/AnnealingClasses/Electrode.js:53-59 | a defined area is non-negative, and a circle's area is 3.14 times the square's of the same size (3.14, not π) |
| ElectrodeLayout.Coordinates | js/AnnealingClasses/ElectrodeLayout.js:36-43 | one [x, y] pair per electrode, same length, same order |
| ElectrodeLayout.CoordinatesUpdate | js/AnnealingClasses/ElectrodeLayout.js:36-43 | moving one electrode changes exactly its own pair of coordinates |
| ElectrodeLayout.ConvexHull | js/AnnealingClasses/ElectrodeLayout.js:45-49 | the hull has between 2 and n vertices, all electrode centres; fewer than two electrodes give no hull; the scan throws exactly when the pop as written is used and the written scan underflows on the centres |
| ElectrodeLayout.EncodeElectrode | js/AnnealingClasses/ElectrodeLayout.js:51-54 | one electrode serialises to seven fields |
| ElectrodeLayout.Encode | js/AnnealingClasses/ElectrodeLayout.js:51-54 | serialising a layout writes one object per electrode |
| ElectrodeLayout.Decode | js/AnnealingClasses/ElectrodeLayout.js:51-54 | a parsed layout has one electrode per seven serialised fields; anything else is rejected |
| ElectrodeLayout.DecodeEncode | js/AnnealingClasses/ElectrodeLayout.js:51-54 | parsing the serialised layout gives back exactly the layout |
| ElectrodeLayout.AcceptNeighbour | js/AnnealingClasses/ElectrodeLayoutGenerator.js:51-54 | the deep copy, taken by serialising and parsing back, is value-equal to the layout it copies |
| Geometry.Flatten | js/AnnealingClasses/Utils.js:90-99 | the flat array interleaves x and y of each point, twice as long |
| Geometry.Pairs | js/AnnealingClasses/Utils.js:101-115 | an even-length flat array groups into points in order; an odd-length one gives the empty list |
| Geometry.PairsOfFlatten | js/AnnealingClasses/Utils.js:90-115 | pairing after flattening is the identity on point lists |
| Geometry.FlattenOfPairs | js/AnnealingClasses/Utils.js:90-115 | flattening after pairing is the identity on even-length arrays |
| Geometry.XCoords | js/AnnealingClasses/Utils.js:238-246 | the entries at even positions, in order |
| Geometry.YCoords | js/AnnealingClasses/Utils.js:248-255 | the entries at odd positions, in order |
| Geometry.CoordsOfFlatten | js/AnnealingClasses/Utils.js:238-255 | splitting a flattened point list recovers its x column and its y column |
| Geometry.PolygonArea | js/AnnealingClasses/Utils.js:70-86 | the area is non-negative and twice it is the absolute shoelace sum of the truncated vertices |
| Geometry.PathSumReverse | js/AnnealingClasses/Utils.js:76-83 | walking a closed path backwards negates its shoelace sum |
| Geometry.PolygonAreaReversal | js/AnnealingClasses/Utils.js:70-86 | listing the vertices in reverse order gives the same area |
| Geometry.PolygonAreaTruncates | js/AnnealingClasses/Utils.js:70-86 | the area sees only the `parseInt` values of the coordinates |
| Geometry.RectanglePoints | js/AnnealingClasses/Utils.js:413-431 | the four corners top-left, top-right, bottom-right, bottom-left of the w×h rectangle centred at (x, y) |
| Geometry.CornersPairs | js/AnnealingClasses/Utils.js:413-431 | the flat corner list pairs up into exactly those four corners |
| Geometry.RectangleArea | js/AnnealingClasses/Utils.js:413-431 | a rectangle with integer corners has shoelace area width × height |
| Geometry.PointInsidePolygon | js/AnnealingClasses/Utils.js:286-303 | the toggling loop computes the parity of crossed edges; an empty polygon contains nothing |
| Geometry.CountStep | js/AnnealingClasses/Utils.js:292-300 | each edge flips the inside flag exactly when the ray crosses it |
| Geometry.BelowAllVerticesOutside | js/AnnealingClasses/Utils.js:286-303 | a point level with or below every vertex crosses no edge, so it is outside |
| Geometry.CheckElectrodeCompletelyInsideShape | js/AnnealingClasses/Utils.js:399-410 | true exactly when the centre and the four points centre ± w, centre ± h are inside; false for an empty polygon |
| Geometry.ClosestPoint | js/AnnealingClasses/Utils.js:515-546 | the measured point lies on the segment (clamped parameter in [0, 1]); a zero-length segment falls back to its first end |
| Geometry.ClosestPointIsNearest | js/AnnealingClasses/Utils.js:515-546 | no point of the segment is nearer to p than the clamped projection |
| Geometry.ClampUnit | js/AnnealingClasses/Utils.js:215-236 | the cosine passed to `acos` is clamped into [-1, 1] and unchanged inside it |
| Geometry.VectorAngle | js/AnnealingClasses/Utils.js:215-236 | NaN exactly when a vector has zero length, otherwise an angle in [0, π] |
| Geometry.SegmentIntersection | js/AnnealingClasses/Utils.js:448-477 | `false` exactly for a zero-length segment, parallel segments, or a crossing parameter outside [0, 1] on either segment; otherwise the point at parameter ua along the first segment |
| Geometry.IntersectionOnBothSegments | js/AnnealingClasses/Utils.js:448-477 | a reported point lies on both segments, though it is computed from the first alone |
| Geometry.CommonPointFound | js/AnnealingClasses/Utils.js:448-477 | a point common to two non-parallel segments is always reported, at its parameter along the first |
| Geometry.ForearmDimensions | js/AnnealingClasses/Utils.js:579-588 | two horizontal and two vertical extents of the corner array, all non-negative |
| Geometry.ForearmDimensionsTranslation | js/AnnealingClasses/Utils.js:579-588 | the dimensions do not change when the trapezoid is moved |
| Geometry.LowestWeightIndex | js/AnnealingClasses/Utils.js:363-373 | the index of the first minimum weight; 0 for an empty list |
| SeededRandom.NextSeed | js/AnnealingClasses/Utils.js:131-139 | the generator state stays in [0, 233280) |
| SeededRandom.SeededRandom | js/AnnealingClasses/Utils.js:131-139 | the draw advances the state and lies between the floors of min and of max (1 when max is 0), strictly below max when min is the lower bound |
| SeededRandom.IndexAsWritten | js/AnnealingClasses/ElectrodeLayoutGenerator.js:146-147 | `seededRandom(0, n)` never picks index 0: its value lies in [1, n] |
| SeededRandom.IndexAsWrittenInRange | js/AnnealingClasses/Utils.js:131-139 | `seededRandom(0, n)` names a valid index exactly when n ≥ 2 and the next state is not 0; otherwise it yields n itself |
| SeededRandom.SeedBeforeZeroIsReachable | js/AnnealingClasses/Utils.js:131-139 | the state 22643 is followed by state 0 |
| SeededRandom.IndexAsWrittenOutOfRange | js/AnnealingClasses/ElectrodeLayoutGenerator.js:251 | after state 22643 the written draw yields n, one past the last index |
| SeededRandom.IndexAsWrittenTwoCandidates | js/AnnealingClasses/ElectrodeLayoutGenerator.js:260-262 | with two in-path ECG pairs the neighbour always picks the second |
| SeededRandom.PickIndex | js/AnnealingClasses/Utils.js:131-139 | `seededRandom(n, 0)` always yields a valid index below n |
| SeededRandom.PickIndexReachesZero | js/AnnealingClasses/ElectrodeLayoutGenerator.js:146-147 | at the state where the written draw overflows, the intended draw picks index 0 |
| Combinations.CombosAreSelections | js/AnnealingClasses/Utils.js:483-493 | every visited index list is strictly increasing, of length r, within range |
| Combinations.CombosComplete | js/AnnealingClasses/Utils.js:483-493 | every such selection is visited |
| Combinations.CombosCount | js/AnnealingClasses/Utils.js:483-493 | exactly C(n − start, r) selections are visited |
| Combinations.CombosSorted | js/AnnealingClasses/Utils.js:483-493 | selections come out in strictly ascending lexicographic order |
| Combinations.CombosDistinct | js/AnnealingClasses/Utils.js:483-493 | no selection is visited twice |
| Combinations.Split | js/AnnealingClasses/Utils.js:495-512 | `split(" ")` yields at least one piece |
| Combinations.SplitJoin | js/AnnealingClasses/Utils.js:495-512 | splitting undoes joining when no value contains a space |
| Combinations.GenerateCombinations | js/AnnealingClasses/Utils.js:495-512 | one non-empty result per visited selection |
| Combinations.GenerateCombinationsSelects | js/AnnealingClasses/Utils.js:495-512 | for r ≥ 1 and space-free values there are C(n, r) results, the k-th being the values at the k-th increasing selection |
| Combinations.GenerateCombinationsOfZero | js/AnnealingClasses/Utils.js:495-512 | r = 0 gives the single result [""] |
| Combinations.GenerateCombinationsTooMany | js/AnnealingClasses/Utils.js:495-512 | r > n gives no result |
| MonotoneChain.InsertSorted | js/AnnealingClasses/ConvexHullFixed.js:68-70 | inserting by the x-then-y comparison keeps a sequence sorted |
| MonotoneChain.SortXY | js/AnnealingClasses/ConvexHullFixed.js:48 | the sort is a permutation ordered by x, then y |
| MonotoneChain.SortedUnique | js/AnnealingClasses/ConvexHullFixed.js:48 | two sorted permutations of the same points are equal, so stability is irrelevant |
| MonotoneChain.PopNonLeft | js/AnnealingClasses/ConvexHullFixed.js:51-53 | popping leaves a prefix whose last two points turn strictly left of the new point |
| MonotoneChain.PushConvex | js/AnnealingClasses/ConvexHullFixed.js:51-54 | pushing after the pops keeps the chain strictly convex and made of input points |
| MonotoneChain.BuildChain | js/AnnealingClasses/ConvexHullFixed.js:50-55 | the chain loop keeps every consecutive triple turning strictly left and ends at the last point |
| MonotoneChain.ConvexHull | js/AnnealingClasses/ConvexHullFixed.js:47-66 | the hull holds only input points, at most 2n − 2 of them, and is empty for at most one point |
| MonotoneChain.HullFrom | js/AnnealingClasses/ConvexHullFixed.js:63-65 | dropping the last point of each chain and concatenating keeps input points, at most 2n − 2 |
| MonotoneChain.ConvexHullChains | js/AnnealingClasses/ConvexHullFixed.js:47-66 | both chains are strictly convex, run between the extreme sorted points, and lose their last point before concatenation |
| MonotoneChain.ConvexHullOfOne | js/AnnealingClasses/ConvexHullFixed.js:63-65 | a single point has an empty hull |
| MonotoneChain.ConvexHullOfTwo | js/AnnealingClasses/ConvexHullFixed.js:47-66 | two points with distinct x give both, leftmost first, whatever the input order |
| MonotoneChain.ConvexHullOrderIndependent | js/AnnealingClasses/ConvexHullFixed.js:47-66 | the hull depends only on the multiset of points |
| GrahamScan.PivotIndex | js/AnnealingClasses/ConveHullCalculator.js:35-49 | -1 for no points, otherwise the first point of lowest y, ties to the lowest x |
| GrahamScan.PivotIsLowestLeftmost | js/AnnealingClasses/ConveHullCalculator.js:59 | the pivot lies below or level-and-left of every point |
| GrahamScan.PushKeeps | js/AnnealingClasses/ConveHullCalculator.js:83-95 | pushing after the pops keeps every retained turn clockwise (ccw < 0) |
| GrahamScan.GrahamAsWritten | js/AnnealingClasses/ConveHullCalculator.js:56-100 | a returned hull starts with the sentinel and the pivot, has 2..n clockwise vertices from the input; the underflow is an outcome |
| GrahamScan.RemainderFacts | js/AnnealingClasses/ConveHullCalculator.js:62-72 | after removing the pivot the remainder has n − 1 input points |
| GrahamScan.HullFromStack | js/AnnealingClasses/ConveHullCalculator.js:99-100 | `slice(0, m)` keeps between 2 and n input points |
| GrahamScan.Graham | js/AnnealingClasses/ConveHullCalculator.js:56-100 | with the pop bounded at the pivot every input of two or more points yields such a hull |
| GrahamScan.GrahamAgrees | js/AnnealingClasses/ConveHullCalculator.js:79-96 | wherever the written scan returns, the bounded scan returns the same hull |
| GrahamScan.Scan | js/AnnealingClasses/ConveHullCalculator.js:56-100 | only the pop as written throws, exactly where the written scan underflows; otherwise both pops give the bounded scan's hull |
| GrahamScan.ScanAgrees | js/AnnealingClasses/ConveHullCalculator.js:80-96 | where the unbounded pop loop never underflows, the bounded one builds the same stack |
| GrahamScan.CollinearUnderflow | js/AnnealingClasses/ConveHullCalculator.js:79-91 | three points on a vertical line drive the written scan below the sentinel |
| KeyPoints.MirroredPair | js/AnnealingClasses/KeyPointCalculator.js:44-57 | the mirrored pair is centred on the mirror point |
| KeyPoints.ShiftPair | js/AnnealingClasses/KeyPointCalculator.js:59-78 | shifting moves the centre by dx and keeps the pair's offset |
| KeyPoints.FcrPair | js/AnnealingClasses/KeyPointCalculator.js:44-57 | the FCR pair is symmetric about its keypoint on TL–BR |
| KeyPoints.BrPair | js/AnnealingClasses/KeyPointCalculator.js:59-67 | the BR pair is centred 5 left of the TR–BR midpoint |
| KeyPoints.PlPair | js/AnnealingClasses/KeyPointCalculator.js:80-89 | the PL pair is symmetric about its keypoint on the TL–wrist-midpoint line |
| KeyPoints.PqPair | js/AnnealingClasses/KeyPointCalculator.js:91-101 | the PQ pair is level, 25 apart and centred 25 above the wrist midpoint |
| KeyPoints.FcuPair | js/AnnealingClasses/KeyPointCalculator.js:69-78 | the FCU pair is centred 5 right of its keypoint on TL–BL |
| KeyPoints.SelectedFromComplete | js/AnnealingClasses/KeyPointCalculator.js:230-284 | every selected muscle is listed, in the fixed muscle order |
| KeyPoints.EmgKeyPoints | js/AnnealingClasses/KeyPointCalculator.js:230-284 | two keypoints per selected muscle in the order FCR, BR, PL, PQ, FCU, ids "<M>1"/"<M>2", at that muscle's pair |
| KeyPoints.AllMusclesSelected | js/AnnealingClasses/KeyPointCalculator.js:230-284 | all five muscles selected give ten keypoints |
| KeyPoints.EcgGuardAlwaysHolds | js/AnnealingClasses/KeyPointCalculator.js:190-228 | the type guard holds whatever the last type is |
| KeyPoints.EcgKeyPoints | js/AnnealingClasses/KeyPointCalculator.js:190-228 | appends exactly ecg1..ecg6 at the corner and mid-side offsets, earlier entries untouched; an empty set throws |
| Energy.AngleCost | js/AnnealingClasses/EnergyCalculator.js:75-81 | in [0, 1] for angles ≥ 0, 0 at 0 degrees, and full exactly from 60 degrees on |
| Energy.AngleCostMonotone | js/AnnealingClasses/EnergyCalculator.js:75-81 | the cost never falls as the angle grows |
| Energy.IedQualityRises | js/AnnealingClasses/EnergyCalculator.js:83-90 | the quality curve rises up to the optimal spacing |
| Energy.IedCost | js/AnnealingClasses/EnergyCalculator.js:83-90 | the cost is clipped to at most 1 and positive below the optimal spacing |
| Energy.IedCostFalls | js/AnnealingClasses/EnergyCalculator.js:83-90 | below the optimal spacing the cost never rises as the electrodes move apart |
| Energy.DistanceCost | js/AnnealingClasses/EnergyCalculator.js:426-432 | in [0, 1], zero exactly on [25, 60], full beyond 60 |
| Energy.FoldedDegrees | js/AnnealingClasses/EnergyCalculator.js:407-410 | an angle in [0, π] folds into [0, 90] degrees |
| Energy.AngleAndDistance | js/AnnealingClasses/EnergyCalculator.js:404-448 | NaN exactly when the angle is; rejected exactly at folded angles ≥ 60; otherwise the third entry is the mean of the other two and below 1 |
| Energy.LineMuscleScore | js/AnnealingClasses/EnergyCalculator.js:357-450 | rejected when both electrodes are farther than the width from the muscle line or either is within 5 of the innervation zone, otherwise the angle-and-distance triplet |
| Energy.PqScore | js/AnnealingClasses/EnergyCalculator.js:188-260 | rejected when an electrode is above the muscle top or both are farther than 30 from its line; no innervation-zone test |
| Energy.MuscleScore | js/AnnealingClasses/EnergyCalculator.js:630-673 | the pair's first id picks the muscle; every triplet's third entry lies in [0, 1] |
| Energy.EdaScore | js/AnnealingClasses/EnergyCalculator.js:548-560 | in [0, 1], and below 1 only for pairs at most 60 apart covering at least 140 glands |
| Energy.EdaScoreFalls | js/AnnealingClasses/EnergyCalculator.js:548-560 | among close enough pairs the farther one scores no worse |
| Energy.EcgSnr | js/AnnealingClasses/EnergyCalculator.js:580-604 | defined exactly for the five ordered pairs, each SNR in (0, 17.44] |
| Energy.EcgScore | js/AnnealingClasses/EnergyCalculator.js:606-616 | NaN exactly for unlisted pairs, otherwise in [0, 1) and 0 exactly for the best pair ecg3/ecg4 |
| Energy.EcgScoreOrder | js/AnnealingClasses/EnergyCalculator.js:606-616 | a higher SNR never scores worse |
| Energy.Plus | js/AnnealingClasses/EnergyCalculator.js:679-697 | a sum is NaN when either side is |
| Energy.Times | js/AnnealingClasses/EnergyCalculator.js:679-697 | a product is NaN when either side is, even against weight 0 |
| Energy.TallyFrom | js/AnnealingClasses/EnergyCalculator.js:629-687 | the pair loop throws exactly when it reads a missing partner |
| Energy.TallyCounts | js/AnnealingClasses/EnergyCalculator.js:629-687 | the loop counts every muscle pair and every EDA and ECG pair once |
| Energy.TallyReadouts | js/AnnealingClasses/EnergyCalculator.js:675-686 | EDA and ECG entries change only when such a pair is scored, and then hold a score in range |
| Energy.TallyKeepsBounds | js/AnnealingClasses/EnergyCalculator.js:629-687 | with sane numerics and non-negative weights each term stays within its weight |
| Energy.HullArea | js/AnnealingClasses/EnergyCalculator.js:688-690 | a non-negative hull area; a throw exactly for fewer than two electrodes or, under the pop as written, a scan that underflows; with the pop stopped at the pivot only for fewer than two |
| Energy.AreaScore | js/AnnealingClasses/EnergyCalculator.js:782-788 | the hull term is non-negative; normalised to the baseline it is capped at the weight; 0/0 gives NaN |
| Energy.WeightedShare | js/AnnealingClasses/EnergyCalculator.js:679-697 | a weight times a score in [0, 1] lies between 0 and the weight |
| Energy.Combine | js/AnnealingClasses/EnergyCalculator.js:692-701 | without a muscle pair the total and EMG mean are NaN; otherwise bounded by the weights, and the area entry is untouched without an area weight |
| Energy.LayoutEnergy | js/AnnealingClasses/EnergyCalculator.js:704-796 | an energy call throws exactly on an unpaired last electrode, fewer than two electrodes, or a hull scan as written that underflows |
| Energy.CollinearLayoutThrows | js/AnnealingClasses/EnergyCalculator.js:688-690 | three electrodes centred on one vertical line make the hull area and every energy call throw under the scan as written |
| Energy.LayoutEnergyParts | js/AnnealingClasses/EnergyCalculator.js:704-796 | a returning call combines the pair loop's totals with a non-negative hull area |
| Energy.TallyFacts | js/AnnealingClasses/EnergyCalculator.js:721-779 | a whole pass counts the pairs, keeps the entries of absent modalities and stays within the bounds |
| Energy.LayoutEnergyReadout | js/AnnealingClasses/EnergyCalculator.js:704-796 | the score object keeps the entries of absent modalities, and the EMG mean is NaN without muscles and in [0, 1] otherwise |
| Energy.LayoutEnergyBounds | js/AnnealingClasses/EnergyCalculator.js:704-796 | the total is non-negative, and for the normalised area at most the weights the scored pairs can reach |
| Energy.EmgMean | js/AnnealingClasses/EnergyCalculator.js:789-790 | `total / selected_muscles` is NaN exactly for 0 muscles or a NaN sum, and a mean of [0, 1] scores is in [0, 1] |
| Energy.ModesAgreeWithoutArea | js/AnnealingClasses/EnergyCalculator.js:626-796 | without a positive area weight both energy functions agree |
| LayoutGenerator.MuscleIds | js/AnnealingClasses/ElectrodeLayoutGenerator.js:172-197 | ids "<M>1", "<M>2" per muscle, in order |
| LayoutGenerator.Disc | js/AnnealingClasses/ElectrodeLayoutGenerator.js:152-157 | a circular electrode of the kind's size centred at the point with the given kind and id |
| LayoutGenerator.EcgTable | js/AnnealingClasses/ElectrodeLayoutGenerator.js:79-85 | five table entries built from the six ECG keypoints |
| LayoutGenerator.Initialize | js/AnnealingClasses/ElectrodeLayoutGenerator.js:69-88 | sixteen keypoints and five table entries whose keypoints are ECG keypoints carrying the entry's ids |
| LayoutGenerator.TableIdsMatch | js/AnnealingClasses/ElectrodeLayoutGenerator.js:79-85 | each table entry's keypoints carry its electrode ids |
| LayoutGenerator.InPath | js/AnnealingClasses/ElectrodeLayoutGenerator.js:90-100 | exactly the table positions whose two keypoints lie inside the shape |
| LayoutGenerator.FarCount | js/AnnealingClasses/ElectrodeLayoutGenerator.js:184-189 | all electrodes are counted exactly when all lie more than 15 away |
| LayoutGenerator.Sample | js/AnnealingClasses/ElectrodeLayoutGenerator.js:176-196 | a found position passes the stencil in shape and forearm and keeps more than 15 from every electrode |
| LayoutGenerator.Place | js/AnnealingClasses/ElectrodeLayoutGenerator.js:176-196 | at most one electrode is appended, of the given kind, size and id, at an admissible position |
| LayoutGenerator.SampleAll | js/AnnealingClasses/ElectrodeLayoutGenerator.js:172-197 | the existing electrodes stay; each new one is admissible; a complete run carries the ids in order |
| LayoutGenerator.SampledChain | js/AnnealingClasses/ElectrodeLayoutGenerator.js:172-197 | one placement followed by the rest keeps the earlier electrodes, admissibility and the id order |
| LayoutGenerator.ArrangementsAgree | js/AnnealingClasses/ElectrodeLayoutGenerator.js:116-237 | two arranged layouts of one combination agree on every kind and on every id outside the ECG pair |
| LayoutGenerator.FindKeyPoint | js/AnnealingClasses/ElectrodeLayoutGenerator.js:365 | `find` returns a keypoint with the id, or undefined exactly when none has it |
| LayoutGenerator.KeyPointsFor | js/AnnealingClasses/ElectrodeLayoutGenerator.js:363-369 | the keypoints of the ids in order; a throw exactly when one is missing |
| LayoutGenerator.EcgStart | js/AnnealingClasses/ElectrodeLayoutGenerator.js:143-159 | the first two electrodes are the ECG pair of one in-path table entry, a lone entry taken directly; as written, with several entries the draw never takes entry 0 and throws exactly when it runs past the last |
| LayoutGenerator.DrawIndex | js/AnnealingClasses/ElectrodeLayoutGenerator.js:146 | as written the index draw lies in [1, n] and is a valid index exactly when n ≥ 2 and the next state is not 0; the intended draw is always a valid index |
| LayoutGenerator.EmgStart | js/AnnealingClasses/ElectrodeLayoutGenerator.js:162-199 | the EMG electrodes are appended after the ECG part, each inside the shape, ids in muscle order; a throw exactly for a missing keypoint |
| LayoutGenerator.EdaStart | js/AnnealingClasses/ElectrodeLayoutGenerator.js:204-229 | up to two EDA electrodes appended, each admissible, named EDA1 and EDA2 |
| LayoutGenerator.InitialLayout | js/AnnealingClasses/ElectrodeLayoutGenerator.js:102-240 | the input comes back unchanged exactly when ECG is asked for and no table pair lies in the shape; as written the ECG draw throws exactly when it runs past the in-path list; otherwise a missing EMG keypoint throws; a placed result is arranged ECG, EMG, EDA, full size and feasible |
| LayoutGenerator.PlacedFacts | js/AnnealingClasses/ElectrodeLayoutGenerator.js:116-237 | the three phases with the final count check produce a feasible arranged layout |
| LayoutGenerator.PartsArranged | js/AnnealingClasses/ElectrodeLayoutGenerator.js:116-229 | ECG, EMG and EDA parts of the combination's shape concatenate to an arranged layout |
| LayoutGenerator.Neighbour | js/AnnealingClasses/ElectrodeLayoutGenerator.js:242-346 | the neighbour is one of the described moves and an empty layout throws; as written electrode 0 is never chosen, a one-electrode layout throws, the draw throws when the next state is 0, and the ECG re-pick never takes entry 0 |
| LayoutGenerator.NeighbourKeepsFeasible | js/AnnealingClasses/ElectrodeLayoutGenerator.js:242-346 | the neighbour of a feasible layout is feasible |
| LayoutGenerator.MoveKeepsFeasible | js/AnnealingClasses/ElectrodeLayoutGenerator.js:258-337 | every neighbour move keeps feasibility |
| LayoutGenerator.EcgMoveKeepsFeasible | js/AnnealingClasses/ElectrodeLayoutGenerator.js:259-273 | rewriting slots 0 and 1 from an in-path pair keeps feasibility |
| LayoutGenerator.SingleMoveKeepsFeasible | js/AnnealingClasses/ElectrodeLayoutGenerator.js:274-336 | resampling one EMG or EDA electrode, same kind and id, admissibly, keeps feasibility |
| LayoutGenerator.EmgStaysInShape | js/AnnealingClasses/ElectrodeLayoutGenerator.js:274-336 | resampling one electrode admissibly keeps every EMG electrode inside the shape |
| LayoutGenerator.SameKindsAndIds | js/AnnealingClasses/ElectrodeLayoutGenerator.js:294-326 | moving one electrode keeps the layout arranged |
| LayoutGenerator.Baseline | js/AnnealingClasses/ElectrodeLayoutGenerator.js:348-386 | the baseline is table entry 1, the EMG keypoints, then EDA 40 and 100 above the wrist; a throw exactly for a missing keypoint |
| LayoutGenerator.BaselineLayout | js/AnnealingClasses/ElectrodeLayoutGenerator.js:355-379 | the three parts over the found keypoints form the baseline |
| LayoutGenerator.BaselineParts | js/AnnealingClasses/ElectrodeLayoutGenerator.js:355-379 | the ECG pair, the copied EMG keypoints and the two EDA electrodes concatenate to the baseline |
| LayoutGenerator.ArrangedMusclePairs | js/AnnealingClasses/EnergyCalculator.js:721-779 | on an arranged layout the energy loop meets one muscle pair per selected muscle and no unpaired electrode |
| Annealing.Minus | js/AnnealingClasses/SA_Optimizer.js:120 | the energy difference is NaN when either energy is |
| Annealing.Accept | js/AnnealingClasses/SA_Optimizer.js:78-91 | NaN deltas are refused, downhill moves always taken, uphill moves refused at temperature 0, equal energy taken at positive temperature |
| Annealing.AcceptMonotone | js/AnnealingClasses/SA_Optimizer.js:83-88 | a smaller random draw accepts whatever a larger one accepts |
| Annealing.LowerBound | js/AnnealingClasses/SA_Optimizer.js:73-75 | the bound is non-negative, at most 1 for non-negative percentages, and 0 exactly from 100 percent on |
| Annealing.Penalise | js/AnnealingClasses/SA_Optimizer.js:201-217 | a penalty is added only above the bound and never lowers the energy |
| Annealing.LbEnergy | js/AnnealingClasses/SA_Optimizer.js:199-217 | the lower-bound energy is at least the area score, and equals it when no score is above its bound |
| Annealing.LbEnergyIsAreaPlusPenalties | js/AnnealingClasses/SA_Optimizer.js:199-217 | it is the area score plus exactly the penalties of the scores above their bounds |
| Annealing.PenalisedReadout | js/AnnealingClasses/SA_Optimizer.js:304-318 | each score is raised only when above its bound; the area score is unchanged |
| Annealing.WeightedLbEnergy | js/AnnealingClasses/SA_Optimizer.js:319-320 | the weighted energy is defined exactly when all four scores are |
| Annealing.WeightedLbEnergyMonotone | js/AnnealingClasses/SA_Optimizer.js:319-320 | with non-negative weights, no worse scores give no higher energy |
| Annealing.LbWeightStartAsWritten | js/AnnealingClasses/SA_Optimizer.js:290-291 | the starting energy as written is defined exactly when all four scores are |
| Annealing.LbWeightStartMismatch | js/AnnealingClasses/SA_Optimizer.js:290-291 | as written, a neighbour with the very same scores counts as an improvement on the start |
| Annealing.LbWeightStartConsistent | js/AnnealingClasses/SA_Optimizer.js:290-324 | the corrected start is scored by the loop's formula, so a neighbour with the very same scores does not replace the best layout; outside the weighted lower-bound mode both starts agree |
| Annealing.ModeWeights | js/AnnealingClasses/SA_Optimizer.js:160 | lower-bound mode overwrites the three modality weights with 0.33 and keeps the area weight |
| Annealing.ModeEnergy | js/AnnealingClasses/SA_Optimizer.js:196-217 | weight mode compares the energy itself; lower-bound mode compares a value defined exactly when the area score is |
| Annealing.LowestStartAsWritten | js/AnnealingClasses/SA_Optimizer.js:264-266 | only the weighted lower-bound optimiser starts its best layout at the start; the others leave it empty |
| Annealing.LowestStart | js/AnnealingClasses/SA_Optimizer.js:264-271 | the corrected best layout starts at the start layout |
| Annealing.Step | js/AnnealingClasses/SA_Optimizer.js:109-126 | one trial counts once, accepts at most twice, replaces the best only on a strict improvement, and moves exactly when accepted |
| Annealing.StepTracked | js/AnnealingClasses/SA_Optimizer.js:108-127 | a trial keeps the run's bookkeeping invariant |
| Annealing.Optimize | js/AnnealingClasses/SA_Optimizer.js:97-367 | counts, the best energy never above the start and no visit below it, the returned best layout carries the reported lowest energy (it is the start with the start energy or a visited layout with that energy), the returned layout, the level count, when the schedule ends or hangs, and that every visited layout keeps any property the neighbour preserves |
| Annealing.RunLevel | js/AnnealingClasses/SA_Optimizer.js:108-127 | one level runs ⌈stabilizer⌉ trials and keeps the bookkeeping invariant |
| Annealing.NoImprovement | js/AnnealingClasses/SA_Optimizer.js:114-118 | when no visited energy beats the start, the best layout is still the starting one |
| Annealing.AnswerVisited | js/AnnealingClasses/SA_Optimizer.js:243-260 | a returned layout other than the start was visited |
| Annealing.EmptyAnswerAsWritten | js/AnnealingClasses/SA_Optimizer.js:97-157 | as written, weight mode returns the empty array when nothing beats the start |
| Annealing.GeneratorNeighbour | js/AnnealingClasses/ElectrodeLayoutGenerator.js:242-346 | the generator as the loop's neighbour call throws exactly when `generateNeighbourLayout` does |
| Annealing.GeneratorKeepsFeasible | js/AnnealingClasses/ElectrodeLayoutGenerator.js:242-346 | the generator's neighbour preserves feasibility, so from a feasible start the optimiser visits only feasible layouts |
| Sensors.DefaultWeightsShareOne | js/AnnealingClasses/SensorControls.js:50-52 | the default modality weights add up to 1 and lie in [0, 1] |
| Sensors.GetWeights | js/AnnealingClasses/SensorControls.js:80-83 | the later declaration returns the stored array unchanged |
| Sensors.SetWeights | js/AnnealingClasses/SensorControls.js:85-93 | the four values are stored at indices 0 to 3 |
| Sensors.SetWeightsForgets | js/AnnealingClasses/SensorControls.js:85-93 | the result does not depend on what was stored before |
| Sensors.SetWeightAt | js/AnnealingClasses/SensorControls.js:95-123 | entry i becomes a/100 and the others are unchanged |
| Sensors.SetWeightAtCommutes | js/AnnealingClasses/SensorControls.js:95-123 | setters of different entries commute; a second set of one entry overrides the first |
| Sensors.SettersAgree | js/AnnealingClasses/SensorControls.js:85-123 | the four single setters amount to `setWeights` of the scaled values |
| Sensors.NormalizedWeights | js/AnnealingClasses/SensorControls.js:72-74 | each stored weight divided by 100 |
| Sensors.NormalizedRoundTrip | js/AnnealingClasses/SensorControls.js:72-93 | percentages stored by `setWeights` normalise back to the fractions |
| Sensors.NormalizedShares | js/AnnealingClasses/SensorControls.js:72-74 | percentages adding to 100 normalise to weights adding to 1, and non-negative stay non-negative |
| Sensors.SetterThenNormalized | js/AnnealingClasses/SensorControls.js:72-123 | a single setter's percentage is divided by 100 twice on its way to the energy |
| Sensors.SensorChannels | js/AnnealingClasses/SensorControls.js:54-70 | EMG channels equal the selected muscles; EDA and ECG count 1 exactly when switched on |
| Sensors.TotalNumberOfElectrodes | js/AnnealingClasses/SensorControls.js:125-135 | a one-element array holding 2·EMG + 2·EDA + 1·ECG |
| Sensors.NumReferenceElectrodes | js/AnnealingClasses/SensorControls.js:155-160 | one reference per EMG and per ECG channel |
| Sensors.TotalAgainstGenerator | js/AnnealingClasses/SensorControls.js:125-153 | the total agrees with the generator's count exactly when ECG is off; EDA never changes the reference count |
| Rankings.Unique | server/app.py:184 | `np.unique` is increasing and has the same members |
| Rankings.Lookup | server/app.py:186-188 | found exactly when some entry has the item |
| Rankings.LookupAt | server/app.py:182-188 | with distinct keys every entry is what its key looks up |
| Rankings.Holders | server/app.py:183-188 | the holders of x are exactly the rankings below n that contain it |
| Rankings.HoldersAll | server/app.py:219-229 | x is in each of the first n rankings exactly when it has n holders |
| Rankings.Record | server/app.py:186-188 | a new item gets a fresh entry at the end; entries never move |
| Rankings.RecordDistinct | server/app.py:186-188 | recording keeps one entry per item |
| Rankings.RecordLookup | server/app.py:186-188 | recording appends i to x's holders and changes no other item |
| Rankings.RecordAllLookup | server/app.py:185-188 | recording distinct items appends i to exactly their holders |
| Rankings.RecordAllAppends | server/app.py:225-229 | recording one ranking appends its new items at the end of the table, in increasing order |
| Rankings.TableLookup | server/app.py:222-229 | under each item the table holds exactly the rankings that contain it |
| Rankings.TableDescribes | server/app.py:222-229 | keys are distinct and each looks up exactly its holders |
| Rankings.TableSeenOrder | server/app.py:222-229 | the table lists items by the first ranking that holds them, ties in increasing order |
| Rankings.Frequent | server/app.py:232 | the items kept are those with enough holders, in table order |
| Rankings.FrequentLookup | server/app.py:232 | an item is kept exactly when its entry has at least the required number of holders |
| Rankings.FrequentDistinct | server/app.py:232 | the kept items are distinct |
| Rankings.FrequentSeenOrder | server/app.py:232 | filtering by the number of holders keeps that order |
| Rankings.FindIntersectionMeaning | server/app.py:203-234 | an item is returned exactly when it occurs in at least `int(threshold·k)` rankings; at threshold 1.0 exactly when it is in every ranking |
| Rankings.FindIntersectionDistinct | server/app.py:203-234 | each item is returned once |
| Rankings.FindIntersectionOrder | server/app.py:218-232 | items come out in order of the first ranking that holds them, ties in increasing order |
| Rankings.FirstIndex | server/app.py:198 | the first position of x |
| Rankings.Positions | server/app.py:196-198 | one first position per listed ranking |
| Rankings.PlaceAllPositions | server/app.py:194-199 | every returned item carries the first positions of its own holders |
| Rankings.WithIndicesMeaning | server/app.py:160-201 | the same items as `find_intersection`, each with its first position in every ranking that holds it, in ranking order |
| Rankings.Distinct | server/app.py:250-252 | the keys of the count dictionary in order of first appearance |
| Rankings.MaxFromFirst | server/app.py:254 | the scan finds the first key of largest count |
| Rankings.MostFrequent | server/app.py:254 | Python's `max` raises exactly for no index |
| Rankings.MostFrequentMeaning | server/app.py:250-254 | the most frequent index occurs, none occurs more, and every earlier-seen index occurs strictly less |
| Rankings.Assign | server/app.py:255 | a repeated item keeps its place and takes the new index |
| Rankings.AssignItems | server/app.py:255 | one entry per item, exactly adding the assigned one |
| Rankings.FrequencyDictItems | server/app.py:247-255 | the dictionary holds one entry per item of the pairs |
| Rankings.FrequencyDict | server/app.py:247-255 | a throw exactly when some item comes with no index |
| Rankings.LastWith | server/app.py:248-255 | the pair whose index survives the overwrites: it carries the item and no later pair does |
| Rankings.AssignEntries | server/app.py:255 | after an assignment every entry is the new one or an untouched entry of another item |
| Rankings.FrequencyDictIndex | server/app.py:247-255 | an entry of an item some pair carries holds the most frequent index of the last such pair; other entries are the starting ones |
| Rankings.FrequencyDictOfDistinct | server/app.py:247-255 | with distinct items the dictionary gains one entry per pair, in pair order |
| Rankings.InsertSorted | server/app.py:258 | inserting by index keeps the entries sorted |
| Rankings.InsertKeepsTies | server/app.py:258 | inserting an entry puts it ahead of the entries with the same index |
| Rankings.SortByIndex | server/app.py:258 | the sort is a permutation ordered by index |
| Rankings.SortByIndexStable | server/app.py:258 | entries with equal index keep their dictionary order |
| Rankings.ArrangeByMaxOccurrence | server/app.py:236-262 | a throw exactly when some item comes with no index |
| Rankings.ArrangeMeaning | server/app.py:236-262 | each item once, ordered by most frequent index, ties in dictionary order; each entry's index is the most frequent index of the last pair with its item, and with distinct items the dictionary lists every pair's item and most frequent index in pair order |
| Rankings.ArrangedByKey | server/app.py:236-262 | the arranged items never decrease in their most frequent index |
| Rankings.DictKeys | server/app.py:247-255 | every dictionary entry's index is its item's most frequent index |
| Training.FillGaps | server/app.py:477-480 | the in-place left-to-right loop equals the rule "active, or an interior window between two active ones" |
| Training.FilledKeepsActive | server/app.py:477-480 | active windows stay active, interior gaps close, inactive end windows stay inactive |
| Training.RunFrom | server/app.py:482-495 | the maximal run of active windows starting at p |
| Training.RunTo | server/app.py:484-492 | a stretch of active windows ending at an inactive one or the end is the run |
| Training.RunsClosed | server/app.py:489-492 | a closed run ends the runs of all its windows |
| Training.LongestRun | server/app.py:482-495 | the first longest run, all of it active; (0, 0) when no window is active |
| Training.SegmentGesture | server/app.py:477-499 | (start·w, (start + len)·w) for the first longest run of the gap-filled mask |
| Training.TakeLast | server/app.py:396 | `s[-z:]`: the last z items, all items for z = 0 or z beyond the length |
| Training.ZRange | server/app.py:383-390 | z runs over 2 .. min(21, n) − 1 when optimising further, otherwise only n |
| Training.Selections | server/app.py:390-396 | each candidate trains on the last z ranked channels |
| Training.TrainedChannelsAsWritten | server/app.py:390-428 | the last candidate's channels are returned whatever the accuracies; with no candidate the unbound return name raises |
| Training.TrainedChannels | server/app.py:376-428 | the corrected choice exists exactly when there is a candidate |
| Training.BestAtIsBest | server/app.py:390-424 | scanning the candidates and keeping a strictly better one finds one that none beats |
| Training.TrainedChannelsIsBest | server/app.py:376-428 | the corrected choice is some candidate's channels, and no candidate scores higher |
| Training.LastCandidateWins | server/app.py:418-424 | with a best first candidate, the code as written still returns the last |
| Training.TrimRanking | server/app.py:578-579 | the ranking is cut to its last `no_of_channels` entries only under the stated condition |
| Training.TakeLastTwice | server/app.py:578-579 | the last z of the last z' channels are the last min(z, z') |
| Training.Remap | server/app.py:583-587 | with a channel list each selected position maps to its channel, raising for a position outside it; without one nothing changes |
| Training.MapThrough | server/app.py:584-587 | the list comprehension maps each position to its channel, and raises exactly for a position outside the list |
| Training.RemapIdentity | server/app.py:583-587 | remapping through the area's own positions changes nothing |

## Left out

- Rendering, DOM reads, `swal` dialogs and `getBBox`: the shape, the forearm trapezoid, the bounding box, the lower-bound fields and the schedule options are parameters.
- `Math.sqrt`, `Math.acos`, `Math.exp` and `Math.PI` are fields of a `Numerics` record. Only the laws `Sane` names are assumed of them. Floating-point rounding is not modelled; numbers are reals.
- `Math.random()` in the acceptance test is a parameter of the annealing method. So are the neighbour and energy calls, either of which may throw, and `Optimize` states what holds for every choice of them. `Annealing.GeneratorNeighbour` is the layout generator in the neighbour's role.
- `getKeyPointOnTheLine` (Utils.js:259-280) is an oracle parameter. Its slope division and canvas fallback are not modelled.
- The angular comparator of the Graham scan (ConveHullCalculator.js:69-72) divides by zero for level points. The sorted remainder is therefore a parameter, of which only being the other input points is required.
- The ConvexHullFixed.js `computeConvexHull` wrapper, which reads a global and p5 vectors, is not part of this model.
- Module globals that persist between calls are fresh per call in the model: `lowestElectrodeSet`, `startingStep`, the in-path ECG list, and the counters. Within one call the score object is threaded through explicitly.
- `optimizeLayout` (SA_Optimizer.js:369-381) is the `Mode` parameter of `Annealing.Optimize`. `optimizeLayoutForArea` (383-428) runs the same loop as the weight-based optimiser, so it is covered by that mode.
- `getOptions`, `getNormalizedAreaWeight` (an empty body returning undefined) and the first, overridden `getWeights` are not modelled.
- `getEDAScore` (EnergyCalculator.js:562-571) is a reporting helper that the energy functions do not call; it is not modelled.
- Drawing, region and nearest-square helpers of Utils.js are not modelled: they touch SVG or read undefined variables. Neither are `getPointArrayFromElectrodeSet` (it reads `.len` and returns an empty list), `getRandomInt` and `getElectrodesWithinShape`, which the optimiser core does not call. `areAllEMGKeyPointsWithinShape` (Utils.js:550-577, called at ElectrodeLayoutGenerator.js:164) has no member of its own: `LayoutGenerator.EmgStart` looks up the EMG keypoints and tests each one's stencil against the shape itself.
- The `Electrode` constructor and its getters are the datatype constructor and its fields, so they store and return values verbatim by construction. `getDistanceBetweenPoints` is `Base.Dist`, the oracle square root of the squared distance.
- The Graham scan mutates its argument (ConveHullCalculator.js:62-72). Values are immutable in the model, and `ElectrodeLayout.ConvexHull` is computed from a fresh coordinate list, as in the source. The hull therefore cannot change the electrode set, and this is not stated as a separate property.
- `parseInt` is modelled on numbers of ordinary magnitude as truncation toward zero. Its string-based behaviour for huge or tiny numbers is not modelled.
- `np.unique`, rankings and channel ids are modelled on integers.
- The classifier training, cross-validation, filtering, RMS, mutual information, SHAP and the websocket in server/app.py are not modelled. The accuracy of each candidate is a function parameter.
- Annealing.Optimize: when the cooling factor is not positive the source loops forever or throws on a later energy call. The model reports `Hangs` without distinguishing the two.
- MonotoneChain.ConvexHull: bounds the hull by 2n − 2 points rather than n. The chains are proved strictly convex, but the combined count bound is left at this weaker form.
- LayoutGenerator.Sample: the 20000-try budget is the recursion measure. The sampled coordinates follow the seeded generator.

## Findings

| source | as written | input that shows it | evidently intended | confidence | as-written member | corrected member |
|---|---|---|---|---|---|---|
| js/AnnealingClasses/ElectrodeLayoutGenerator.js:146 | `Math.seededRandom(0, n)` passes max = 0, which becomes 1, so the draw lies in [1, n] | generator state 22643: the next state is 0 and the draw is n, one past the last in-path pair | `Math.seededRandom(n, 0)`, an index in [0, n) | medium, not executed | SeededRandom.IndexAsWrittenOutOfRange | SeededRandom.PickIndexReachesZero |
| js/AnnealingClasses/SA_Optimizer.js:290 | the starting energy adds `weights[1] + EDAScore` where the loop multiplies | weights (0.2, 0.5, 0.3, 0.5), all scores 0: start 0.5, identical neighbour 0 | `weights[1] * EDAScore`, as at line 319 | high, not executed | Annealing.LbWeightStartMismatch | Annealing.LbWeightStartConsistent |
| js/AnnealingClasses/ConveHullCalculator.js:83-90 | the pop loop has no lower limit on m, so collinear input pops to m = 0 and reads `points[-1]` | points (0,0), (0,1), (0,2) | stop popping at the pivot (m = 1) | high, not executed | GrahamScan.CollinearUnderflow | GrahamScan.GrahamAgrees |
| js/AnnealingClasses/SA_Optimizer.js:97-157 | the weight-based optimiser never sets the best layout before the loop | any start that no neighbour beats strictly: the result is the empty array | start the best layout at the start layout, as line 266 does | medium, not executed | Annealing.EmptyAnswerAsWritten | Annealing.AnswerVisited |
| server/app.py:421-424 | every candidate overwrites the "best" model and channels without comparing accuracies | ten channels, accuracy 0.9 for z = 2 and 0.5 otherwise: channels 1..9 are returned, not 8, 9 | keep a candidate only when its accuracy beats `best_accuracy` | medium, not executed | Training.LastCandidateWins | Training.TrainedChannelsIsBest |
