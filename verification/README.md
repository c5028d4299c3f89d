# Verification of the fraud-detection worker

The worker turns a card transaction into a 14-lane integer vector, finds its five nearest
reference vectors with a partitioned KD-tree, and answers with the share of frauds among them.
It claims to be exact: the tree, its pruning and its early stop must return what a loop over all
references returns, ties included. This project models that path in Dafny, from the bytes of a
connection to the verdict and to the index file, and proves that it keeps the claim. Where the
claim needs a condition (references safe for the early stop, rows that the SIMD kernel of the
shipped build measures right, requests on which the two vectorizers agree, streams whose
declared ends fit an int), the exact condition is proved in both directions, with inputs on the
failing side. The search is modelled with either kernel as a parameter.

## Reading order

| module | what it models | main result |
|---|---|---|
| Numbers, Sequences, Bytes | machine integers, permutations, byte texts | |
| Distance | the scalar and the SIMD kernel | `SimdAgrees`, `KernelSafeIff` |
| Nearest, Ranks, BestFive, Brute | the five least candidates, the five-slot structure, the reference loops | `BestIsNearest`, `NearestIff`, `ConsideredIsBest` |
| Partition | the 4-bit key, the gap and the probe order | `GapIsLowerBound`, `GapSafeIff` |
| Selection, KdTree | quickselect and tree construction | `Quickselect`, `Part.BuildPart` |
| KdSearch, Kd | pruned search, the stop rule, the whole index | `SearchPart`, `CompareWithBrute` |
| Misses, Misfits | what the stop rule and the SIMD kernel get wrong outside their conditions | `CompareUnsafe`, `CompareMisfit` |
| Cursor, JsonText, SkipProof, NumberText | the byte cursor against RFC 8259 texts | `SkipOver`, `NumExact` |
| Parser, ParseProof, Truncation | the payload parser, bodies cut short | `ParsePrintedPayload`, `ParseIff`, `PrefixRejected` |
| Calendar, Stamps | civil days and RFC 3339 timestamps | `CivilIsDayNumber`, `ParsePrinted` |
| Merchants, Vectorizer, Query | the raw merchant search, the reference vectorizer, the query | `SearchIsMembership`, `AcceptedInDomain` |
| Payloads, Agreement, Documents | payload documents and their unmarshalling, agreement of query and reference vector and what both mean in numbers, documents on both sides | `QueryAgrees`, `QueryMeans`, `DocumentAgrees` |
| Http | framing (section 6 of RFC 9112) and pipelining (section 9.3.2 of RFC 9112) | `RequestAnswered`, `ChunkingIff` |
| Traffic, Connection | what a socket delivers and takes; buffers, events and runs of the loop | `ServesAll`, `Server.Run`, `RunAnswers` |
| Encoding, Layout, RefsFile, Storage | the two binary files | `Open`, `SaveAndReopen` |
| Service | body to verdict | `Score`, `ScoreMisfit` |

Code that works by changing things keeps that form: `Best5`, `Part`, `KD`, `Cur`, `Conn` and
`Server` are classes with the fields of their originals, quickselect works in place on an array,
and loops are loops. Each such method is specified by a function or predicate, and the theorems
are about those. `dafny verify dfyconfig.toml` checks the project.

## Where the code and its description differ

- The stop rule is described as backed by a lower bound. It is one only for references on which
  lanes 5 and 6 hold the sentinel together or not at all, with values on the right side of it;
  `Partition.GapSafeIff` gives the exact condition, for rows with any lanes, and the repository's
  own test of the violation is one instance of `Partition.GapOverestimates`. For every row that
  fails it, `Misses.CompareUnsafe` gives references and a query on which the index returns wrong
  neighbours and a wrong count.
- The end of a request is an int. A declared length below 2^63 can push it past 2^63, and the
  code then slices out of range, or runs backwards, on the head alone: `Http.FailingHead`.
  `Http.HandleIff` and `Http.ChunkingIff` give the exact condition.
- "content-length:" is searched anywhere in the head, so that of another field's name is taken:
  `Http.ContentLengthField`, `Http.OtherFieldTaken`.
- The cursor takes strings as they are spelled. A merchant code with an escape is looked up in
  its raw form (`Documents.EscapeDiffers`), a missing request or last time is the epoch
  (`Agreement.UntimedDiffers`, `Agreement.LastTimeLane`), and a risk outside [0, 1] is clamped
  (`Agreement.RiskIff`), where the reference does otherwise.
- Both fraud counts read a label at the index of every slot. With fewer than five references an
  empty slot remains and the read is out of range: `Nearest.CountableIffFive`.
- `Open` takes the address of the first label before it knows whether there is one. The file of
  an index without references ends right there: `Layout.NothingStoredIff`.
- The reader's hour and weekday follow Go's truncating division. Before the epoch they are the
  UTC ones only at whole hours and whole days: `Stamps.HourIff`, `Stamps.WeekdayIff`.
- After fractional seconds the offset of a timestamp is not looked at: `Stamps.ParseFraction`.
- The merchant search works on raw text, so the text between two list elements (a lone comma, in
  a compact array) is found like an element: `Merchants.SearchIsMembership`, `Documents.CommaDiffers`.
- The SIMD kernel's subtraction wraps, and the shipped build uses it (Dockerfile.api:17). It is
  right on a set of pairs slightly larger than differences up to 32767 (`Distance.SimdAgrees`),
  so on quantized rows, but not on every row that an index can hold. `Misfits.CompareMisfit` and
  `Service.ScoreMisfit` give wrong neighbours and verdicts for every quantized query and every
  row outside that set.
- The reference cuts a time difference off at 292 years, the query does not:
  `Documents.LongAgoDiffers`.
- A null for a number, a string or a section other than the last transaction is accepted by
  encoding/json and rejected by the parser: `ParseProof.ParseIff`, `Agreement.QueryAbsentIff`.
- Only POST requests are given a body. By section 6 of RFC 9112 a Content-Length gives any
  request one: `Http.RfcFrameIff`, `Http.BodyAsRequest`.
- A peer that closes its sending side is kept until its output is flushed, but not when the end
  of its stream is read in the same event: `Connection.Server.CloseLoses`.

## Model

| member | source | states |
|---|---|---|
| Kd.CompareWithBrute | internal/index/kd.go:302-338 | for either kernel, every reference set of int32 size that it measures right and every query of the domain, the gap-stopped index and the brute-force loop return the same five indices, and the stopped, the unstopped and the brute-force fraud counts are equal; they exist exactly from five references on |
| Misses.CompareUnsafe | internal/index/gap_invariant_test.go:8-51 | for either kernel and every row outside GapSafe there are five rows of the domain and a query of the domain with which the built index returns other indices than the brute-force loop, missing the row, and counts no fraud where there is one: no weaker condition than GapSafe would do |
| Misses.NeverReached | internal/index/kd.go:308-313 | for any index over one row and five copies of a nearer-than-the-gap row in the home partition, the stopped sweep never gets to the partition of the first |
| Misses.CopiesRemain | internal/index/kd.go:302-321 | so it ends with the five copies, whatever the query |
| Misfits.CompareMisfit | internal/index/dist_simd.go:7-13 | for every quantized query and every row that does not fit it there are five rows that do, with which the SIMD build returns other indices than the brute-force loop and counts a fraud where there is none, while the portable build agrees with the loop: no weaker condition than fitting would do |
| Misfits.DecoyBetween | internal/index/dist_simd.go:7-13 | behind it: a row of the same partition that fits the query and lies strictly nearer than the misfit in truth, but not by the SIMD kernel |
| Misfits.FarLane | internal/index/dist_simd.go:7-13 | one such pair, with the two distances written out: a query of the domain and a row safe for the gap |
| Kd.KD.Neighbors5 | internal/index/kd.go:323-338 | for any vectors and either kernel the ascending indices that the run ends with; where the kernel measures right those at the end of the sweep, and on the domain the five indices least in (distance, index) order, ties included |
| Kd.KD.FraudCount5 | internal/index/kd.go:294-296 | with the stop rule: for any vectors and either kernel the frauds among the slots that the run ends with, and on the domain, where the kernel measures right, among the five nearest references; the label lookup is out of range exactly below five references |
| Kd.KD.FraudCount5All | internal/index/kd.go:298-300 | the same count without the stop rule, for any vectors that the kernel measures right |
| Kd.KD.Count | internal/index/kd.go:302-321 | both counts, for either kernel and either setting of the stop flag, on any vectors and on the domain |
| Kd.KD.Probe | internal/index/kd.go:302-313 | for any vectors and either kernel: every row of the partitions probed was measured or pruned, the slots are the five least of those measured, those pruned are truly farther, and the run ends at the end of the probe order or at a gap above the fifth distance; where the kernel measures right, at the first such gap and with the five least of exactly the rows up to there |
| Kd.KD.RunIsBest | internal/index/kd.go:302-313 | where the kernel measures right the slots of a run are the five least of all rows of the partitions probed, pruned or not |
| Kd.KD.LeafIsMeasured | internal/index/kd.go:251-264 | references that make up a single leaf are all measured: the answer is the five nearest by the distance that the kernel computes |
| Kd.KD.RunCounts | internal/index/kd.go:314-320 | for any vectors and either kernel, pruned and stopped or not, the labels of the five slots are in range exactly when there are five references |
| Kd.KD.NothingMissed | internal/index/kd.go:302-313 | on the domain, and without the stop rule on any vectors, the slots at the end of the sweep are the five least of all references |
| Kd.KD.SweptIsNearest | internal/index/kd.go:302-338 | then the indices at the end of the sweep are those of the sort-everything reference |
| Kd.KD.GapDecides | internal/index/kd.go:308-313 | whether the sweep must stop at a position is a property of the references and the query alone, not of the order in which the slots were filled |
| Kd.StopIsSound | internal/index/kd.go:308-313 | once the gap to the next partition exceeds the worst slot, no row of that or any later partition can enter the five |
| Kd.KD.StopFinishes | internal/index/kd.go:308-313 | stopping at any position of the probe order leaves the result of a full sweep |
| Kd.CandsInFar | internal/index/kd.go:65-81 | rows of partitions whose gap is at least g are at a distance of at least g |
| Kd.CandsInAll | internal/index/kd.go:34-42 | the sixteen partitions together hold every reference exactly once |
| Kd.KD.SearchKey | internal/index/kd.go:306-312 | searching one more partition adds exactly its rows to those measured or pruned; while a slot is empty a single leaf is measured whole |
| Kd.KD.ProbeIsNearest | internal/index/kd.go:302-313 | slots that are the best of everything carry the indices of the sort-everything reference |
| Kd.BuildKD | internal/index/kd.go:34-50 | every built index is valid: each partition holds a permutation of its rows in a well-formed tree, and every probe order is a sorted enumeration of the other partitions |
| Kd.Distribute | internal/index/kd.go:36-42 | each row goes to the partition of its key, once, in order, with its global index |
| KdSearch.SearchPart | internal/index/kd.go:245-279 | with either kernel and any rows, every row of the partition ends up measured or pruned, the slots are the five least of all that was measured, and what was pruned against the shrinking bound is truly farther than the fifth; it terminates; below 2^31 rows the stack never exceeds 26 of its 64 preallocated entries |
| KdSearch.SkippingLosesNothing | internal/index/kd.go:251-277 | where the kernel measures right, slots that are the five least of the rows measured are the five least of these and the rows pruned |
| KdSearch.Visit | internal/index/kd.go:251-277 | one turn of the loop: a subtree whose box is farther than the fifth slot is pruned whole, a leaf is measured whole, an inner node is replaced by what matters of its two children; every row of the popped entry stays measured, pruned or stacked, and the total size of stacked subtrees drops |
| KdSearch.PushChildren | internal/index/kd.go:265-276 | the near child is pushed over the far one and the far child is dropped only when all its rows are farther than the fifth slot |
| KdSearch.ScanLeaf | internal/index/kd.go:258-264 | every row of a leaf is considered at the distance that the kernel computes |
| KdSearch.AabbLowerBound | internal/index/kd.go:229-243 | the loop computes the box distance |
| KdSearch.OutsideBound | internal/index/kd.go:229-243 | the box distance stays below 2^62 in every partial sum, so its int64 cannot wrap |
| KdSearch.BoxBound | internal/index/kd.go:229-243 | the box distance never exceeds the distance to a row inside the box |
| KdSearch.PlaneBound | internal/index/kd.go:265-276 | the squared distance to the split plane bounds the distance to every row beyond it |
| KdSearch.BoxPrune | internal/index/kd.go:254-256 | the rows of a subtree whose box is strictly farther than a distance are strictly farther |
| KdSearch.PlanePrune | internal/index/kd.go:265-276 | the rows beyond a split plane strictly farther than a distance are strictly farther |
| KdSearch.SplitRoot | internal/index/kd.go:99-105 | at an inner node the arrays hold the split and its box, and the two stored child indices are roots of the two subtrees over the two halves |
| BestFive.ConsideredIsBest | internal/index/kd.go:215-227 | whatever multiset the slots are the five least of, one step makes them the five least of it with the candidate added, so the order of visits is irrelevant |
| BestFive.FartherIsPruned | internal/index/kd.go:254-272 | leaving out any candidates farther than the worst slot keeps the five least |
| BestFive.Best5.Consider | internal/index/kd.go:215-227 | the candidate replaces the worst slot exactly when smaller in (distance, index) order, and the worst index is again a lexicographic maximum |
| BestFive.Best5.Rescan | internal/index/kd.go:220-225 | the rescan finds a lexicographically greatest slot |
| BestFive.Best5.Init | internal/index/kd.go:207-213 | five empty slots |
| Nearest.BestUnique | internal/index/brute.go:48-79 | the five least of a multiset are unique as a multiset |
| Nearest.BestPrune | internal/index/kd.go:254-256 | adding only candidates that are not smaller keeps the five least |
| Nearest.BestReplace | internal/index/kd.go:215-227 | replacing the greatest by a smaller newcomer keeps the five least |
| Nearest.BestIsNearest | internal/index/brute.go:48-79 | five slots that are the best of the candidates and five empty slots carry exactly the indices obtained by sorting all candidates and taking five, empty slots last |
| Nearest.Neighbors5Unique | internal/index/brute.go:73-79 | two ascending answers that both describe the five nearest are equal |
| Ranks.NearestIff | internal/index/brute.go:48-79 | a reference is among the five nearest if and only if fewer than five references are nearer, or as near with a lower index: the sort-everything reference without sorting |
| Nearest.CountableIffFive | internal/index/kd.go:314-320 | for either kernel the count over the labels is defined if and only if there are at least five references: below that an empty slot indexes the labels out of range |
| Brute.Refs.Scan | internal/index/brute.go:49-72 | the reference loop keeps the five least candidates |
| Brute.Refs.Neighbors5 | internal/index/brute.go:48-79 | the brute-force result is the five nearest indices in ascending order |
| Brute.Refs.FraudCount5 | internal/index/brute.go:14-46 | the brute-force count is the frauds among the five nearest |
| Brute.Offer | internal/index/brute.go:27-37 | one step keeps the five least and the greatest slot |
| Brute.CountFraud | internal/index/brute.go:39-45 | the closing loop counts the true labels, failing on an index out of range |
| Partition.GapIsLowerBound | internal/index/kd.go:65-81 | on the domain the gap between two keys never exceeds the squared distance of two rows with these keys |
| Partition.GapSafeIff | internal/index/gap_invariant_test.go:8-51 | a reference row, with any values in its lanes, is safe for the gap with every query of the domain if and only if it satisfies GapSafe, which is checkable on the row alone |
| Partition.GapWithinSlack | internal/index/kd.go:65-81 | over every query of the domain the gap is at most the distance less the slack of the row |
| Partition.SlackReached | internal/index/kd.go:65-81 | and some query of the domain reaches that bound |
| Partition.CategoricalSafe | internal/index/gap_invariant_test.go:8-51 | for rows with categorical lanes in {0, 10000} the condition is one on lanes 5 and 6 alone |
| Partition.GapOverestimates | internal/index/gap_invariant_test.go:13-51 | every row outside GapSafe has a query of the domain for which the gap is too large |
| Partition.DomainIsSafe | internal/index/gap_invariant_test.go:53-60 | rows with lanes 5 and 6 either both the sentinel or both nonnegative are safe |
| Partition.PartKey16 | internal/index/partition.go:17-32 | the four bits of the key are the four lane tests |
| Partition.ProbeOrderFor | internal/index/kd.go:52-63 | every partition but the home one, once, in nondecreasing gap |
| KdTree.Part.BuildPart | internal/index/kd.go:83-118 | the node and box arrays are the pre-order layout of a well-formed tree over the reordered rows, and the (vector, index) pairs are permuted |
| KdTree.Part.Build | internal/index/kd.go:89-106 | the recursive closure only permutes its range and appends exactly the layout of a well-formed tree over it: ranges tile, boxes are exact hulls, the split value separates the halves |
| KdTree.BuildJoins | internal/index/kd.go:99-105 | neither recursive call disturbs the other range, and the split still separates them |
| KdTree.Part.Reordered | internal/index/kd.go:109-115 | rows and indices are taken in the order of the permutation |
| KdTree.ComputeBox | internal/index/kd.go:120-140 | the box is the exact hull of the rows of the range |
| KdTree.WidestDim | internal/index/kd.go:142-152 | no used dimension has a greater extent, and none before it the same |
| KdTree.LeafIff | internal/index/kd.go:94-98 | a subtree is a leaf if and only if it has at most 64 rows or all its rows are equal in the used lanes |
| KdTree.HeightBoundInt32 | internal/index/kd.go:95-104 | a tree over fewer than 2^31 rows is at most 25 levels deep, as halving stops at 64 rows |
| KdTree.SizeBound | internal/index/kd.go:95-104 | a tree has at most as many nodes as rows, and less than a sixteenth as many from 32 rows on |
| KdTree.NodesFit | internal/index/kd.go:8-13 | the fields of every node fit their stored widths |
| Selection.Quickselect | internal/index/kd.go:154-180 | for every range and k it terminates, permutes only the range, and leaves nothing greater before k and nothing smaller after it |
| Selection.Partition3 | internal/index/kd.go:158-171 | the inner loop permutes the range into below, equal and above the pivot |
| Selection.MedianOfThree | internal/index/kd.go:182-199 | an index of the range whose value is the median of first, middle and last |
| Selection.Median | internal/index/kd.go:182-199 | the median is one of the three and lies between the other two |
| Selection.PivotSurvives | internal/index/kd.go:156-178 | the pivot row ends in the equal block, so the active range shrinks |
| Selection.NarrowedStep | internal/index/kd.go:172-178 | each of the three blocks may become the active range: what is outside stays on its final side |
| Distance.SqDistScalar | internal/index/dist_scalar.go:5-12 | the int64 loop computes the sum of squared lane differences without overflow |
| Distance.DistanceBound | internal/index/dist_scalar.go:5-12 | every distance is nonnegative and below the 2^62 of an empty slot, so the int64 sum cannot wrap |
| Distance.SqDistVector | internal/index/dist_simd.go:7-13 | the SIMD kernel computes SqDistSimd: eight wrapped pairwise dot products, added in int64 |
| Distance.SimdAgrees | internal/index/dist_simd.go:7-13 | the SIMD kernel, with its wraps, never exceeds the scalar distance and equals it if and only if in every pair of lanes both differences are at most 2^15 in magnitude and not both equal to it |
| Distance.KernelSafeIff | internal/index/dist_simd.go:7-13 | the exact condition on a row for the SIMD kernel to be right from every quantized query: lanes of magnitude at most 22768, and no pair of lanes with both at that bound |
| Distance.NearFits | internal/index/dist_simd.go:7-13 | rows nearer than 2^30 are always measured right |
| Distance.SimdAgreesOnQuantized | internal/index/dist_simd.go:7-13 | on [-10000, 10000] the two kernels agree |
| Cursor.Cur.Ws | internal/vectorize/parse.go:37-45 | stops at the first byte that is no white space |
| Cursor.Cur.Str | internal/vectorize/parse.go:47-66 | finds the closing quote, jumping over escape pairs, on every input |
| Cursor.Cur.Skip | internal/vectorize/parse.go:68-114 | computes SkipEnd on every input and terminates |
| Cursor.Cur.Num | internal/vectorize/parse.go:118-164 | computes NumAt on every input; the index into the table of powers stays below 19 |
| Cursor.Cur.NextKey | internal/vectorize/parse.go:166-186 | key, end of object or failure, on every input |
| Cursor.Cur.AfterValue | internal/vectorize/parse.go:188-193 | white space and at most one comma |
| Cursor.Cur.Obj | internal/vectorize/parse.go:195-202 | white space and an opening brace |
| SkipProof.SkipOver | internal/vectorize/parse.go:68-114 | for every well-formed JSON value followed by white space and a delimiter, skip stops at its end, and after the white space for literals and numbers, although it counts one kind of bracket |
| SkipProof.PassValue | internal/vectorize/parse.go:77-103 | scanning inside a bracket passes over any whole value at any depth without changing the depth |
| SkipProof.StrOver | internal/vectorize/parse.go:47-66 | a quoted string with paired escapes is closed at its own quote |
| NumberText.NumExact | internal/vectorize/parse.go:118-164 | a literal without exponent and with at most 18 digits yields exactly its value, and the scanner stops at its end |
| NumberText.NumMeaning | internal/vectorize/parse.go:118-164 | for every literal the scanner yields its meaning, exact or strconv's, and stops at its end |
| NumberText.SplitBound | internal/vectorize/parse.go:125-140 | the uint64 accumulator cannot wrap on at most 18 digits |
| Parser.Parse | internal/vectorize/parse.go:204-247 | the parser terminates on every body and computes ParseBody |
| Parser.Section | internal/vectorize/parse.go:249-451 | one section parser: null for the last transaction, otherwise an object |
| Parser.Members | internal/vectorize/parse.go:253-286 | the member loop of the section parsers |
| Parser.TransactionField | internal/vectorize/parse.go:261-284 | the switch of transaction |
| Parser.CustomerField | internal/vectorize/parse.go:301-329 | the switch of customer |
| Parser.MerchantField | internal/vectorize/parse.go:346-369 | the switch of merchant |
| Parser.TerminalField | internal/vectorize/parse.go:386-407 | the switch of terminal |
| Parser.LastTxField | internal/vectorize/parse.go:431-448 | the switch of lastTx |
| Parser.ToInt32Truncates | internal/vectorize/parse.go:273-273 | conversion of a number to int32 truncates towards zero |
| ParseProof.ParsePrintedPayload | internal/vectorize/parse.go:204-451 | for every payload object printed with any member order, white space and further members, parsing succeeds and every extracted field is the one obtained by reading the members of the tree from left to right |
| ParseProof.ParseIff | internal/vectorize/parse.go:204-451 | a JSON text of an object is accepted if and only if the members the parser interprets have the kinds it expects: numbers, strings and objects, and null for the last transaction alone |
| ParseProof.NullsRejected | internal/vectorize/parse.go:204-451 | a null for any interpreted number, string or section but the last transaction is not accepted, although encoding/json takes it |
| ParseProof.SectionReads | internal/vectorize/parse.go:249-451 | the same for one section |
| ParseProof.KeyReads | internal/vectorize/parse.go:166-186 | the key text of a member is found and the cursor lands on its value |
| ParseProof.StampLocal | internal/vectorize/parse.go:505-533 | the timestamp decoder depends only on the string itself |
| Truncation.PrefixRejected | internal/vectorize/parse.go:204-247 | no proper prefix of a printed JSON object is accepted, wherever it is cut: inside a section, between members, in a key or a number |
| Truncation.OneCommaPasses | internal/vectorize/parse.go:166-193 | after a value one comma is passed, even before a closing brace; a second comma is a failure |
| Merchants.KnownMerchant | internal/vectorize/parse.go:453-476 | the nested loops decide whether the id occurs between two quotes |
| Merchants.QuotedIffSegment | internal/vectorize/parse.go:453-476 | the id occurs between two quotes exactly when it is one of the texts between consecutive quotes |
| Merchants.SearchIsMembership | internal/vectorize/parse.go:453-476 | on any printed array of plain strings the search finds a nonempty plain id if and only if it is a listed id or one of the texts between elements |
| Merchants.CompactSearch | internal/vectorize/parse.go:453-476 | on a compact array the only exception is the lone comma |
| Calendar.CivilIsDayNumber | internal/vectorize/parse.go:482-503 | for every Gregorian date of any year the closed form equals the day count obtained by summing year and month lengths |
| Calendar.NextDay | internal/vectorize/parse.go:482-503 | the next date is one day later |
| Calendar.StrictlyMonotone | internal/vectorize/parse.go:482-503 | later dates have larger day numbers |
| Stamps.ParsePrinted | internal/vectorize/parse.go:505-533 | a printed RFC 3339 timestamp without fraction decodes to its UTC epoch second, so equal instants decode alike |
| Stamps.ParseFraction | internal/vectorize/parse.go:516-532 | after fractional seconds the offset is not looked at: the decoded second is that of the same clock in UTC, right if and only if the offset is zero |
| Stamps.HourIff | internal/vectorize/parse.go:552-553 | the derived hour is the UTC hour if and only if the instant is not before the epoch or is a whole hour |
| Stamps.WeekdayIff | internal/vectorize/parse.go:550-551 | the derived Monday-based weekday is the UTC one if and only if the instant is not before the epoch or is a whole day |
| Stamps.UtcParts | internal/vectorize/parse.go:550-553 | hour and weekday of the instant of a timestamp in UTC are the hour written in it and the weekday of its date |
| Stamps.OffsetExamples | internal/vectorize/parse.go:516-532 | two timestamps with offsets and their equivalents in UTC, from section 5.8 of RFC 3339: offsets are ahead of UTC |
| Vectorizer.Quantize | internal/vectorize/vectorize.go:133-139 | every lane is scaled, rounded half away from zero and truncated to int16 |
| Vectorizer.QuantizeMeans | internal/vectorize/vectorize.go:133-139 | in the range of a lane the integer nearest to 10000 times the value, and of two the one farther from zero |
| Vectorizer.Known | internal/vectorize/vectorize.go:158-165 | list membership |
| Vectorizer.Clamp01 | internal/vectorize/vectorize.go:141-149 | the result lies in [0, 1] |
| Vectorizer.DenotesUnique | internal/vectorize/vectorize.go:167-183 | a timestamp text denotes one instant, the one the cursor decodes |
| Query.QueryFromBody | internal/vectorize/parse.go:535-573 | for every body: fails exactly when parsing fails, otherwise the array holds the fourteen lanes |
| Query.FillLanes | internal/vectorize/parse.go:542-571 | the lanes written one by one are the query vector of the extracted fields |
| Query.LanesMean | internal/vectorize/parse.go:542-571 | every lane in numbers, without the functions that compute it: shares of the limits clamped and rounded to the nearest ten-thousandth; and for times from the epoch on 23 times the hour lane is within 23/2 of 10000 times the UTC hour, 6 times the weekday lane within 3 of 10000 times the days since Monday |
| Query.UnlistedLane | internal/vectorize/vectorize.go:28-35 | the risk lane of a code that is not in the table is 5000 |
| Query.Q01 | internal/vectorize/parse.go:575-583 | clamped, scaled and rounded into [0, 10000] |
| Query.AcceptedInDomain | internal/vectorize/parse.go:535-573 | whatever the body, an accepted query lies in the domain on which the gap is a lower bound |
| Query.ParsedInBody | internal/vectorize/parse.go:9-29 | the ranges recorded by the parser lie inside the body, in order |
| Agreement.QueryAgrees | internal/vectorize/parse.go:535-573 | for every conforming payload document, printed in any way, and for every decoding of escapes: the cursor query equals the quantized reference vector if and only if there is a request time, not before the epoch or on a day boundary; a last transaction has a time (or the request is so soon after the epoch that it makes no difference), and it is at most 292 years away (or the scale is so long or short that the cut makes no difference); the merchant id is not mistaken for text between list elements; and the clamped risk of the code as spelled is the risk of the code as decoded |
| Agreement.QueryAbsentIff | internal/vectorize/parse.go:535-540 | so there is no query for exactly those documents |
| Agreement.QueryMeans | internal/vectorize/vectorize.go:95-139 | the query of every conforming document requested from the epoch on, lane by lane in numbers of the payload: so the agreement of query and reference vector is not about a common mistake |
| Documents.DocumentAgrees | internal/vectorize/vectorize.go:86-139 | for every request time or none, every last transaction, with a time, without or none, every list of ids, merchant id and code, escaped or not, there is a conforming document with them, and its query is its reference vector exactly as these parts say: the theorem speaks about requests on both sides of every part of its condition |
| Documents.DocumentClockLanes | internal/vectorize/vectorize.go:108-112 | a document requested in UTC has the clock lanes of the hour and the date that are written in it |
| Documents.UntimedRequestDiffers | internal/vectorize/vectorize.go:108-112 | every document without a request time has another query than its reference vector |
| Documents.UntimedLastDiffers | internal/vectorize/vectorize.go:176-183 | so has every request of this century whose last transaction has no time, on a scale of up to a million minutes |
| Documents.LongAgoDiffers | internal/vectorize/vectorize.go:176-183 | so has one in 2400 with a last transaction in 1970, on a scale of 3e8 minutes: 7539 in the query, 5124 in the reference, which cuts the difference off at 292 years |
| Documents.CommaDiffers | internal/vectorize/parse.go:453-476 | every conforming document with two listed merchants and the merchant id "," is one on which the two vectors differ |
| Documents.EscapeDiffers | internal/vectorize/parse.go:570-597 | a code spelled with an escape is looked up as spelled: the vectors differ whenever the two risks do |
| Agreement.LanesIff | internal/vectorize/vectorize.go:95-139 | lane by lane: the two vectors are equal exactly when there is a request time, and clock, last transaction, merchant flag and risk agree |
| Agreement.UntimedDiffers | internal/vectorize/vectorize.go:108-112 | without a request time the weekday lane is 5000 in the query and 0 in the reference |
| Agreement.LastTimeLane | internal/vectorize/vectorize.go:114-120 | the minutes lane agrees exactly when the last transaction has a time within 292 years of the request, or the two roundings coincide |
| Agreement.ShortScaleAgrees | internal/vectorize/vectorize.go:176-183 | on scales of up to 292 years the cut makes no difference |
| Agreement.RiskIff | internal/vectorize/parse.go:570-583 | for a code without escapes the risk lanes agree exactly when the risk lies in [0, 1] up to rounding |
| Payloads.AssignedIsLookup | internal/vectorize/vectorize.go:56-93 | among unique keys of which none is another spelling of a field, a field is assigned the value of the member of its name and no other |
| Payloads.FieldsAssigned | internal/vectorize/vectorize.go:56-93 | in a conforming document every field of every section, and every section, is assigned from that one member |
| Agreement.RootGroup | internal/vectorize/parse.go:218-243 | with unique keys, the fields of a section come from the one member of its name |
| Agreement.MerchantIff | internal/vectorize/parse.go:453-476 | search and membership agree exactly under MerchantAgrees, a test on the id and the list text |
| Agreement.ClockIff | internal/vectorize/parse.go:550-553 | hour and weekday are both the UTC ones exactly from the epoch on or on a day boundary |
| Agreement.SectionFields | internal/vectorize/parse.go:249-451 | each section is read from its own members alone |
| Http.IndexFold | internal/server/handle.go:118-135 | the first position of the lower-case needle under ASCII case folding, or -1 |
| Http.FoldsIff | internal/server/handle.go:118-135 | a text matches a lower-case needle when each byte is the same or the upper-case letter 32 below it |
| Http.ContentLengthSpelled | internal/server/handle.go:101-116 | "Content-Length" and its other usual spellings are found |
| Http.ContentLength | internal/server/handle.go:101-116 | the wrapped digit run after the header name and blanks |
| Http.FieldNumberOf | internal/server/handle.go:106-115 | a value of blanks, tabs and decimal digits is read as the number written |
| Http.ContentLenIff | internal/server/handle.go:110-115 | the computed length is the declared number if and only if that is below 2^63 |
| Http.ContentLengthField | internal/server/handle.go:101-116 | in a printed head the code reads the number of the Content-Length field if and only if "content-length:" does not occur, in any case, in the lines before it |
| Http.OtherFieldTaken | internal/server/handle.go:101-116 | a field whose name only ends in Content-Length and that comes first is taken for it |
| Http.RunIsWrapped | internal/server/handle.go:110-114 | the wrapping accumulator holds the true number, wrapped once |
| Http.FrameOfText | internal/server/handle.go:46-69 | head, blank line and a body of the announced length are cut back as they were put together, whatever follows |
| Http.TextOfFrame | internal/server/handle.go:46-69 | and every request that is cut consists of these parts |
| Http.RfcFrameIff | internal/server/handle.go:53-60 | the frames are those of section 6 of RFC 9112 if and only if the method is POST or the head declares no body |
| Http.BodyAsRequest | internal/server/handle.go:53-60 | after a head of any other method the body it declares is read as the next request |
| Http.RequestAnswered | internal/server/handle.go:44-76 | a request written out is answered with the score of its body when it is a POST of /fraud-score, as ready for the path /ready, and as not found otherwise, and what follows is answered as if it stood alone |
| Http.PostScored | internal/server/handle.go:44-76 | a printed POST of /fraud-score with other fields, any blanks before the digits and any case of the field name is scored with exactly its body |
| Http.ShortLineAnswered | internal/server/handle.go:87-99 | a first line of one or two words is not found |
| Http.FrameStable | internal/server/handle.go:46-69 | a complete request is the same in every longer stream |
| Http.ConsumeSplit | internal/server/handle.go:44-76 | answering a prefix and then its leftover with the rest equals answering the whole, for any declared lengths |
| Http.ChunkingIrrelevant | internal/server/handle.go:44-76 | for every way of splitting the stream into reads, responses and leftover are those of one read |
| Http.LeftoverIncomplete | internal/server/handle.go:71-74 | what is left over holds no complete request |
| Http.CutIsFrame | internal/server/handle.go:46-69 | one turn of the code's loop, with Go's wrapping int for the end of the request, cuts the declared frame if and only if the declared end is below 2^63 or wraps past the buffer |
| Http.HandleIff | internal/server/handle.go:44-76 | on every buffer the loop gives the responses and the leftover of the declared frames if and only if the end declared after the last complete request fits in that sense |
| Http.ChunkingIff | internal/server/handle.go:44-76 | the code answers a stream, read in any pieces, with the responses to its declared frames if and only if its ends fit |
| Http.ChunksHandled | internal/server/handle.go:44-76 | from any buffer: a fitting stream in any pieces is answered as a whole |
| Http.FitsSplit | internal/server/handle.go:44-76 | a stream whose ends fit has fitting prefixes and fitting leftovers, so the condition need only be met once |
| Http.LongBody | internal/server/handle.go:57-63 | every POST head whose declared length is below 2^63 but whose end is not sends the code astray on the head alone |
| Http.FailingHead | internal/server/handle.go:57-63 | such heads written out: for every length from 2^63 - 44 to 2^63 - 1 and any case of the field name |
| Connection.Conn.Handle | internal/server/handle.go:44-76 | the loop over the buffer computes HandleFrom: it goes astray exactly when that is lost, and otherwise appends its responses and keeps its leftover |
| Connection.Conn.Receive | internal/server/handle.go:44-76 | on a fitting stream a read never goes astray, and the responses to all requests it completes are appended in order |
| Connection.BufferHandled | internal/server/handle.go:44-76 | what is left of the stream so far, with the next bytes, is handled frame by frame, and gives the state for the longer stream |
| Connection.Conn.Flush | internal/server/server.go:84-103 | takes write results as long as something is due and the socket takes it, up to EAGAIN or a failure, and no fewer; exactly the bytes they took, of the ordered responses, are sent; EPOLLOUT is armed exactly when output is pending; it fails exactly when a write did |
| Connection.Conn.Serve | internal/server/server.go:63-74 | one read that delivers: all requests it completes are answered and their responses flushed |
| Connection.Conn.ReadDrain | internal/server/server.go:63-82 | such turns until EAGAIN, the end of the stream, or a failed read or write, none left out; it fails exactly when one of the last three ended it |
| Connection.Conn.SentIsPrefix | internal/server/server.go:63-103 | bytes sent are always a prefix of the responses to the whole stream |
| Connection.Server.OnEvent | internal/server/server.go:119-148 | only the connection of the descriptor changes; with EPOLLOUT it is flushed, with EPOLLIN drained, the bytes received and sent being exactly those of the results it took; it stays if and only if there was no hang-up, no read ended it, no write failed, and the peer is not half-closed with nothing due |
| Connection.Server.CloseLoses | internal/server/server.go:63-82 | a peer whose end of stream comes with its last requests while the socket takes nothing is dropped with the responses unsent |
| Connection.Server.Add | internal/server/server.go:48-55 | a connection is added empty, unless its registration fails |
| Connection.Server.Run | internal/server/server.go:105-173 | over every run of events, in any order: each one takes the world to what adding or serving makes of it and changes nothing else; the invariant holds for every connection there ever was, and nothing sent is taken back |
| Connection.RunAnswers | internal/server/server.go:105-173 | accept a descriptor whose socket delivers a stream in any pieces and takes all bytes, and wake the loop once for reading: exactly the responses to the stream are sent, and the connection is kept unless half-closed |
| Traffic.FlushesAll | internal/server/server.go:84-103 | a flush whose socket takes all leaves nothing due |
| Traffic.DrainsAll | internal/server/server.go:63-82 | a drain of a socket that delivers and takes all receives everything and sends every response to it |
| Traffic.ServesAll | internal/server/server.go:119-148 | so does an event for reading |
| Traffic.ResumesAll | internal/server/server.go:137-140 | a response left pending by a partial write is sent to the end on EPOLLOUT |
| Traffic.ServedGrows | internal/server/server.go:119-148 | whatever the socket answers, an event keeps what was sent and received before, and what is sent a prefix of the responses |
| Layout.WriteKD | internal/index/mmap.go:25-81 | header, directory, labels and all regions stand at their offsets and the buffer has exactly the computed size |
| Layout.HeadBytes | internal/index/mmap.go:14-58 | the head of a written file byte by byte: magic text, label count, and the six numbers of every directory entry |
| Layout.Directory | internal/index/mmap.go:26-47 | the offset loop computes the entries and the total size |
| Layout.RegionsDisjoint | internal/index/mmap.go:30-47 | all regions are 8-aligned, in order, without overlap, behind the labels and inside the file |
| Layout.Align8 | internal/index/mmap.go:23-23 | the next multiple of eight |
| Layout.Open | internal/index/mmap.go:83-125 | rejects exactly a bad magic, and reproduces every node, box, row, index and label of what WriteKD laid out, unless the file ends where the labels begin |
| Layout.NothingStoredIff | internal/index/mmap.go:109-109 | the file ends where the labels begin, so that taking the address of the first label fails, if and only if there is no reference at all |
| Layout.ReadPart | internal/index/mmap.go:110-121 | one turn of the reading loop returns the partition that stands at the entry |
| Layout.EntryRoundTrip | internal/index/mmap.go:14-21 | a directory entry survives its encoding |
| Encoding.SignedLe | internal/index/refs.go:102-106 | two's-complement little-endian encoding and decoding are inverse on the whole range of the width |
| Encoding.UnsignedLe | internal/index/refs.go:100-100 | decoding as unsigned gives the value modulo the width |
| Encoding.LeBytes | internal/index/mmap.go:132-137 | byte i of an encoded integer counts 256^i: little-endian |
| Encoding.DecodeEncoded | internal/index/mmap.go:132-137 | any sequence of fixed-width items survives concatenated encoding |
| Encoding.RowRoundTrip | internal/index/refs.go:102-106 | every row of int16 lanes survives |
| Encoding.RowBytes | internal/index/refs.go:76-82 | the two bytes of every lane, the low one first |
| Encoding.NodeRoundTrip | internal/index/kd.go:8-13 | every node that fits its fields survives |
| Encoding.NodeBytes | internal/index/kd.go:8-13 | the bytes of the four fields of a node, at their places |
| Encoding.BoxRoundTrip | internal/index/kd.go:15-18 | every box survives |
| Storage.KdWritable | internal/index/mmap.go:25-47 | every valid index can be written: fields fit and offsets stay below 2^63 |
| Storage.Save | internal/index/mmap.go:25-81 | saving lays out exactly the index, in a file longer than the label base exactly when there are references |
| Storage.Reopen | internal/index/mmap.go:83-125 | unless the file ends at the label base, the reopened index is valid for the same references, with the same arrays and labels |
| Storage.SaveAndReopen | internal/index/mmap.go:25-125 | for either kernel a saved and reopened index returns the answers of the original; only an index without references cannot be opened |
| RefsFile.WriteBin | internal/index/refs.go:64-90 | the file is magic, count, lanes and labels |
| RefsFile.FileBytes | internal/index/refs.go:64-90 | the written file byte by byte: magic text, count, every lane of every row, every label |
| RefsFile.LoadBin | internal/index/refs.go:92-112 | rejects exactly a bad magic and undoes WriteBin |
| Service.Score | internal/server/handle.go:78-85 | for either kernel and every body, the verdict is the share of frauds among the five nearest references, approved below 0.6, where the kernel measures the rows right from its query; no assumption on the query is needed for the early stop; of references in one leaf it is the verdict by the distances the kernel computes |
| Service.SafeRowsMeasured | internal/server/handle.go:78-85 | rows that meet KernelSafe, quantized ones in particular, are measured right from every body |
| Service.ScoreMisfit | internal/server/handle.go:78-85 | for every body whose query some row does not fit there are references with that row for which the SIMD build gives a wrong verdict and the portable build the right one |
| Service.AnswerIsVerdict | internal/server/handle.go:28-38 | the six prepared answers are the verdicts of their counts |

## Left out

- Floating point: amounts, ratios and lanes are reals and numbers are exact rationals, so rounding, NaN and infinities are not modelled; `strconv.ParseFloat` (exponents, more than 18 digits) is a parameter.
- Brute.Refs.Scan: takes integer queries, on which the original's float64 arithmetic is exact; the sentinel distance 1e30 is the integer 10^30.
- Brute.Refs.Neighbors5: takes integer queries, as Brute.Refs.Scan does.
- Brute.Refs.FraudCount5: takes integer queries, as Brute.Refs.Scan does.
- Vectors are rows of sixteen int16 lanes instead of one flat buffer with a stride; int32 row numbers are naturals with the bound stated where it matters.
- The read and write buffers of a connection, the node arrays of a partition and the parser's record are sequences and values assigned to fields, so capacity, growth and aliasing of Go slices are not captured; quickselect's permutation, the five slots, the query lanes and the file buffer are arrays updated in place.
- The loops that the source repeats (two brute-force scans, two probe loops, five section loops) are modelled once each and shared.
- Fewer than five references: the out-of-range label read is modelled as an absent count, and Neighbors5 keeps the sentinel index; the panic itself is not modelled further.
- Agreement.QueryAgrees: is about documents that unmarshal (strict JSON of the payload's types, int32 integers, true or false for flags) with unique keys, no null but where the parser takes one (`Agreement.QueryAbsentIff` is about the others), no key that is another spelling of a field name, merchant ids that stand for themselves, and timestamps, where present, spelled without escapes and fractional seconds. On a document with such a key the cursor and encoding/json read different members; nothing is claimed there. encoding/json refuses more than 10000 levels of nesting; conforming documents are not bounded in depth.
- The decoding of escapes and the folding of letter case in encoding/json are a parameter (`Decoder`), of which only that unescaped ASCII stands for itself is assumed; replacement of ill-formed UTF-8 is part of it.
- Vectorizer.DenotesUnique: time.Parse is modelled on timestamps of the form date, T, time, zone without a fraction; malformed timestamps are left out, and of fractional seconds only `Stamps.ParseFraction` speaks.
- A timestamp cut off after the sign of its offset: the original slices past the string into the body; the model reads the bytes that follow and NUL past the body, where the original would panic.
- int32 and int16 conversions of a number out of range are left to the implementation by Go; the model keeps the low bits.
- Where the code goes astray (`Astray`, `Lost`) it panics or reads from inside a head it has answered; what follows is not modelled, and buffers are shorter than 2^63 bytes. Connection.Server.Run is about streams that fit.
- Connection.Server.Run: kernel calls are scripts of results, and after a script's end every call answers EAGAIN; an accept loop and a descriptor-passing loop are each a run of `Accepted` events; streams are ones whose ends fit (`Fits`), outside of which `Http.ChunkingIff` shows that the code fails.
- Padding lanes 14 and 15 are zero in every query (`Padded`); the theorems do not need them to be zero in the references.
- Layout.Open: views outside the mapping are one outcome, Corrupt; the padding byte of a node is zero; errors of the file system, mmap, madvise and mlock are left out.
- RefsFile.LoadBin: reads past the end are one outcome, Corrupt.
- `Index.FraudCount5` of partition.go searches only the home partition and is not exact; nothing is claimed of it.
- `Refs.Build` (gzip, JSON streaming), `Warmup`, `FraudCounts` (goroutine chunking), the response texts, `lb/lb.c` and `cmd/` have no property of this kind.
- Changing the registered interest (EPOLL_CTL_MOD) is taken to succeed, as the original ignores its error.
- Sockets, epoll registration beyond the EPOLLOUT bit, descriptor passing and busy polling are input and output only.
- `sort.Slice` is a sort that yields a nondecreasing permutation; the order among equal keys is not relied upon.
