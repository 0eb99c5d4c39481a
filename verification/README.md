# A verified model of the DREX cores

DREX is a forensic recovery and sanitization suite written in Python. This project models the parts of it that
carry hard guarantees, in Dafny 4.11, and proves those guarantees. `dafny verify dfyconfig.toml` checks everything.

| part | files |
|---|---|
| ddrescue mapfile: merge, its algebra, byte accounting, text form | `MapfileMerge`, `MapfileAlgebra`, `MapfileAccounting`, `MapfileText`, `Words` |
| fragment graph search, permutation search, JPEG scanner and restart stitching | `FragmentEdges`, `FragmentSearch`, `FragmentEngine`, `PermutationSearch`, `Jpeg`, `JpegRestarts`, `Sorting` |
| job registry and launch protocol | `Jobs`, `JobProtocol` |
| audit ledger and package verdict | `AuditChain`, `AuditExample`, `PackageVerdict` |
| capability manager, task manager, verified physical overwrite | `CapabilityManager`, `TaskManager`, `PhysicalOverwrite`, `TransferLengths`, `PosixOverwrite`, `PosixLengths` |
| carver, RAID-5 fixture, file wipe, cluster bitmap, PDF writer | `Carver`, `Raid`, `FileWipe`, `ClusterBitmap`, `PdfText`, `PdfWriter`, `PdfLines` |
| shared | `Basics`, `SortedSets`, `Patterns` |

Code that loops or mutates is modelled by methods and classes proved against specification functions or direct
postconditions; the theorems are about those specifications. Protocols are step systems over the same effect
functions that the class methods are proved to implement, so a statement about every run is about the methods.
What the functions behind the theorems decide (a priority, a weight, a transition table, a verdict) is stated once
more in terms of their arguments alone, by lemmas most of which end in `Mean` or `Means`, so that no theorem rests on a
definition that nothing else fixes.

## What the proofs say about the code

Where one of these holds only under a condition that the code or its documentation does not state, the lemma named
with it states the condition as an if-and-only-if on the inputs.

- **Mapfile.** `merge` is the pointwise winner of its arguments in the unique canonical run-length form, so it is
  commutative, associative and idempotent up to canonical form. The header of the result is less well behaved:
  `FINISHED` is written as soon as one argument is complete, even when the merged map is not, and a map without
  blocks counts as complete; merging two maps without extent forgets their positions. `StatusAssociatesIff`,
  `PositionAssociatesIff` and `PassAssociatesIff` say when each header field is independent of bracketing
  (`MergedStatusDoesNotAssociate` is a triple for which the status is not), and
  `StatusTellsCompletenessIff` when the recorded status is right. A byte count equals the number of offsets covered
  exactly when the blocks of that status are disjoint (`BytesAreOffsetsIff`; `OverlapsAreCountedTwice` has two
  blocks that are not), so the byte counts of a merge always are numbers of offsets. Printing and parsing round-trip exactly
  for non-negative positions, sizes and pass numbers, and what is read back otherwise is stated for every mapfile.
- **Fragment search.** The format constraint of `build_graph` is recorded on an edge but excludes none, and a
  `max_paths` below 1 acts as 1.
- **Permutation search.** The verdict is exact for every validator if and only if the orders tried within the branch
  budget already yield every payload (`VerdictIsExactIff`); otherwise some validator's ambiguity goes unnoticed and
  the result is reported as recovered, unless nothing is tried at all (`HidesAmbiguityIff`;
  `TruncatedSearchHidesAmbiguity` shows it for two fragments and a budget of one order).
- **JPEG.** Stuffed entropy bytes never pass for a marker and a well-formed image reads back exactly. The scanner
  reports nothing for a fragment that does not itself start an image, so for continuation fragments the
  restart-marker alignment of `reassemble_rst_fragments` never decides anything: the order is that of the seams.
- **Jobs.** Duplicate check, lock and registration are separate steps, yet in every interleaving an active job
  holds the lock on its normalised target. A job whose cancellation was accepted never completes. A scan request
  whose engine passes for digits but is no number, such as a superscript two, raises behind the lock: the lock stays,
  and every later launch on that target is refused until the process restarts (`LeftBehindRefuses`). So does a
  sanitization without a target that is cancelled between its registration and the update that marks it queued,
  since cancelling frees no lock of a job without a target (`EmptyTargetLeavesLock`). Once all launches are settled,
  the locks held are exactly those of these two kinds of launches (`SettledLocksIff`).
- **Audit chain.** A hash cannot be injective with fixed-length digests, so tamper evidence is stated without that
  assumption: equal last hashes mean equal chains, or the chains themselves exhibit a collision. Of canonical JSON it
  is only assumed that it tells the events of the two chains compared apart, and of UTF-8 that it does so with
  digests; `AuditExample.ForgeryIsDetected` is a forged chain that meets every hypothesis. An edit in front of
  the last event goes unnoticed exactly when both hashes and all hashed fields stay what they were
  (`EditIsAcceptedIff`); a missing field and its default are such a pair, whichever field it is.
- **Verdict.** A missing object outranks tampering. The root-digest check in front of the object loop reports
  `TAMPERED` before any object is looked at, so the precedence in the header comment of `drex_verify.py` is not
  the one implemented; the model starts behind that check. A declared path is looked up from the package root
  wherever it leads, `..` and absolute paths included, and is not compared with the files of the package. So `PASS`
  does not say that the package holds what it declares: that follows exactly when, with every declared path leading
  to a file and no undeclared file in the package, all declared paths are among the package's files
  (`PassMeansHeldIff`). A package without any objects passes when it declares a file that lies next to it
  (`OutsideObjectPasses`).
- **Capability manager.** In every run the cache answers with the last result published for the drive, exactly while
  that is younger than the time to live and no invalidation has hit the drive since.
- **Task manager.** One worker at a time and one completion event per accepted task. A task ends cancelled
  exactly when the last thing done to the shared event in its life was to set it; the screens set and clear it
  themselves, and clear it before they submit, active task or not.
- **Physical overwrite.** `PASS_PHYSICAL` is sound for every device. The converse needs more than a faithful
  device: patterns are seeded by where a transfer starts. `LengthsDecide` gives the exact condition on the lengths
  a device moves; whatever the hash, it passes if and only if both passes move the same lengths
  (`PassesForEveryDigestIff`). A device whose first write stops after 512 bytes fails as soon as the hash blocks of
  offsets 0 and 512 differ.
- **POSIX overwrite.** The write pass does not look at what a write moved: it reports the requested size, which is
  what the device took exactly when every write moved all (`ReportedIsTakenIff`). A faithful device passes, whatever
  the hash and whatever stood on the disk, if and only if every write moves all it is given (`PassesAlwaysIff`). A
  device whose only write takes 512 of 1024 bytes fails unless the disk happened to hold the next pattern byte
  (`HalfWriteFails`).
- **Carver.** No window edge cuts a signature exactly when it is at most one byte longer than the overlap. The search
  goes on behind the signature of a rejected hit, and of one inside an earlier artifact, so it jumps over an
  occurrence that starts in there. Completed scans account for every accepted candidate of a signature, as part of an artifact
  or of a dropped copy of one, whatever the source and the validators, if and only if the signature never begins
  within itself at a distance the settings allow (`CompleteIff`; mostly that is to have no border, `NeverHidesIff`). The registered JPEG
  signature `FF D8 FF` does begin within itself, so accepted images are missed (`JpegIsIncomplete`): for one, an image
  directly behind a RIFF file that ends in `FF D8`, where the search hits two bytes too early and jumps past the
  start of the image (`ImageBehindRiffIsMissed`).
- **RAID 5.** Any lost disk is the XOR of the others for every chunk size; reading around the parity returns the
  dataset exactly when the chunk size divides the disk.
- **File wipe.** A run succeeds exactly when none of its polls reports a cancellation. Patterns restart at every
  65536-byte chunk; a pass is continuous exactly when its pattern equals itself shifted by 65536 bytes, as far as the
  file reaches (`ContinuousIff`), which no three-byte pattern of the Gutmann sequence does behind the first chunk
  (`GutmannRestarts`).
  The read-back check covers the first chunk only.
- **PDF.** Table entries take 20 bytes exactly while offsets are below 10^10. A page line is shown as the text it was
  added with exactly when it starts with neither `---` nor `[SECTION]` and has no carriage return and no character
  beyond Latin-1 (`ShownAsAddedIff`); a line that starts with `---` is shown as the literal text `/F2 8 Tf` followed
  by dashes. The banner is inserted without escaping and ends at its own parenthesis exactly when its unescaped
  parentheses pair up and it ends with no open escape (`BannerClosesIff`).

## Model

| member | source | states |
|---|---|---|
| MapfileMerge.Merge | damaged_media.py:244-305 | the sweep over split points with coalescing computes `Merged`: the offset-by-offset run-length form of the pointwise winner |
| MapfileMerge.AddBounds | damaged_media.py:263-270 | the split points are exactly the starts and ends of all blocks |
| SortedSets.Sorted | damaged_media.py:271 | the sorted list holds exactly the split points, strictly increasing |
| MapfileMerge.ConstantBetweenPoints | damaged_media.py:274-286 | querying the status at the left split point decides every offset up to the next one |
| MapfileMerge.SweepStep | damaged_media.py:281-295 | one sweep step extends the encoded prefix to the next split point |
| MapfileMerge.EncodeRun | damaged_media.py:291-295 | coalescing a whole constant run equals adding its offsets one at a time |
| MapfileMerge.EncodeCanonical | damaged_media.py:288-295 | the emitted blocks tile the range with positive sizes and no two equal neighbours |
| MapfileMerge.EncodeStatus | damaged_media.py:274-295 | every offset of the range reads back the status it was encoded with |
| MapfileMerge.EncodeExtensional | damaged_media.py:288-295 | equal status functions give equal block lists |
| MapfileMerge.CanonicalUnique | damaged_media.py:288-295 | two canonical lists over one range with the same statuses are identical |
| MapfileAlgebra.TotalSizeIsMaximum | damaged_media.py:80-84 | `total_size` is the largest block end for non-negative blocks |
| MapfileAlgebra.MergedStatus | damaged_media.py:274-286 | every offset, inside or outside the range, gets the higher-priority status of the two maps |
| MapfileAlgebra.FirstBlockDecides | damaged_media.py:274-286 | where the blocks of a map overlap, the first one in its list gives the status |
| MapfileAlgebra.MergedStages | damaged_media.py:250-286 | which status an offset of a merge has, stage by stage: finished or bad, then non-scraped, non-trimmed and untried, each if and only if an argument has it there and none is further |
| MapfileAlgebra.MergeIsPointwiseWinner | damaged_media.py:244-295 | `merge` tiles [0, tot) canonically and is the pointwise winner, for all non-negative maps with any overlaps and gaps |
| MapfileAlgebra.MergeDetermined | damaged_media.py:244-305 | merges of pairs with equal totals and equal winners everywhere are equal |
| MapfileAlgebra.MergeCommutes | damaged_media.py:244-305 | block list, position, pass and status do not depend on the order of the arguments |
| MapfileAlgebra.MergeAssociates | damaged_media.py:244-305 | the block list does not depend on bracketing |
| MapfileAlgebra.PositionAssociatesIff | damaged_media.py:259-305 | the position is independent of bracketing if and only if no inner merge of two maps without extent forgets one that counts |
| MapfileAlgebra.PassAssociatesIff | damaged_media.py:259-305 | the same for the pass number, which starts at 1 in a fresh map |
| MapfileAlgebra.EmptyMergeForgetsPosition | damaged_media.py:259-261 | whenever two maps without extent come first and the first recorded the highest position, one bracketing loses it |
| MapfileAlgebra.SelfMergeCanonises | damaged_media.py:244-305 | merging a map with itself gives the canonical form of the same statuses |
| MapfileAlgebra.CanonicalIffFixedPoint | damaged_media.py:244-305 | a map is unchanged by merging with itself if and only if it is canonical |
| MapfileAlgebra.MergeAbsorbs | damaged_media.py:244-305 | merging one argument in again changes nothing |
| MapfileAccounting.ValidateIntegrity | damaged_media.py:138-153 | the loop reports exactly the gaps, overlaps and bad sizes of the block list, in order |
| MapfileAccounting.IssuesMean | damaged_media.py:138-153 | for every block list the issues of a block: a size that is not positive, a start in front of the previous end (of 0 for the first), a start behind it (not for the first) |
| MapfileAccounting.NoIssuesIffClean | damaged_media.py:138-153 | no issue is reported if and only if the blocks are contiguous with positive sizes |
| MapfileAccounting.MergeIsClean | damaged_media.py:138-153 | a merged map has no integrity issue and tiles its range |
| MapfileAccounting.CreateInitial | damaged_media.py:224-242 | the initial map tiles [0, total_size) with non-tried blocks of at most the block size |
| MapfileAccounting.CountsArePartition | damaged_media.py:86-104 | the five status byte counts add up to the sum of block sizes |
| MapfileAccounting.CleanCountsEveryByte | damaged_media.py:86-104 | for a clean map they add up to total size minus the first block's position |
| MapfileAccounting.BytesAreOffsetsIff | damaged_media.py:86-104 | a byte count never falls below the number of offsets its blocks cover, and equals it if and only if the blocks of that status are pairwise disjoint |
| MapfileAccounting.OffsetsAreStatus | damaged_media.py:86-104 | without overlaps those offsets are exactly the ones with that status |
| MapfileAccounting.MergedBytes | damaged_media.py:86-104 | each byte count of a merge is the number of offsets whose winner has that status, whatever overlaps and gaps the arguments have |
| MapfileAccounting.MergedRescuedBytes | damaged_media.py:86-94 | so a byte is counted as rescued if and only if either argument rescued it, and as bad if and only if one found it bad and none rescued it |
| MapfileAccounting.CompleteBlocks | damaged_media.py:106-109 | a map of positive blocks is complete if and only if every block is finished or bad |
| MapfileAccounting.MergeCompleteness | damaged_media.py:106-109 | a merge is complete if and only if each offset is settled by one of the arguments |
| MapfileAccounting.CompleteTilingCompletesMerge | damaged_media.py:297-305 | when both maps tile one range and either is complete, the merge is complete |
| MapfileAccounting.MergedHeaderMeans | damaged_media.py:297-305 | a merge with extent records the larger position and pass of its arguments, and finished if and only if one of them has nothing left but finished and bad blocks |
| MapfileAccounting.StatusAssociatesIff | damaged_media.py:297-305 | `current_status` is independent of bracketing if and only if both bracketings find a complete argument, or neither does |
| MapfileAccounting.EmptyMergesAreFresh | damaged_media.py:259-261 | without any extent both bracketings give the fresh map |
| MapfileAccounting.StatusTellsCompletenessIff | damaged_media.py:297-305 | the recorded status says whether the merged map is complete if and only if there is extent and one argument is complete as soon as both settle everything together |
| MapfileAccounting.EmptyMapMarksFinished | damaged_media.py:297-305 | merging a map without blocks into any map with extent records `FINISHED`, complete or not |
| MapfileText.ParseMapfile | damaged_media.py:175-222 | the line-by-line reader computes `Parse`, with its error cases |
| MapfileText.ParseBlockLines | damaged_media.py:207-214 | the block loop reads every data line with three fields and skips shorter ones |
| MapfileText.StatusReadsBack | damaged_media.py:28-51 | printed status characters read back |
| MapfileText.PrintedLinesMean | damaged_media.py:155-168 | a printed block line, position line and pass line, character by character, which fixes widths, gaps and letters |
| MapfileText.HeaderMeans | damaged_media.py:189-205 | which position, status, pass and number of lines the reader takes from the first two lines of any text, and when it raises |
| MapfileText.ParseOfPrint | damaged_media.py:155-222 | what parsing the printed text returns, for every mapfile |
| MapfileText.RoundTripIffNonNegative | damaged_media.py:155-222 | the round trip is exact if and only if positions, sizes and pass are non-negative |
| MapfileText.ReprintIsStable | damaged_media.py:155-222 | printing what was read back gives identical text |
| Words.HexReadsBack | damaged_media.py:65-66 | zero-padded unbounded hexadecimal reads back through `int(s, 0)` |
| Words.DecimalReadsBack | damaged_media.py:155-168 | decimal numbers read back |
| Sorting.SortIsPermutation | fragment_engine.py:850 | sorting keeps the elements |
| Sorting.SortIsDescending | fragment_engine.py:850 | sorting puts higher keys first |
| Sorting.SortIsStable | fragment_engine.py:850 | equal keys keep their order |
| FragmentEdges.OutgoingAreBestSuccessors | fragment_engine.py:757-812 | an adjacency list holds edges to distinct compatible chunks, at most the bound, and every compatible chunk left out weighs no more |
| FragmentEdges.KeptCount | fragment_engine.py:797-799 | how many successors are kept; a negative limit drops that many of the worst |
| FragmentSearch.PushSuccessors | fragment_engine.py:845-848 | pushing the unvisited successors makes the stack owe exactly their subtrees |
| FragmentSearch.SearchFrom | fragment_engine.py:826-848 | the explicit-stack loop terminates and records exactly the recursive enumeration, in its order |
| FragmentSearch.ExploreIsExact | fragment_engine.py:826-848 | the enumeration records a path if and only if it is a maximal extension |
| FragmentSearch.ExploreIsDistinct | fragment_engine.py:826-848 | no path is recorded twice |
| FragmentSearch.ScoresAreProducts | fragment_engine.py:845-848 | a recorded score is the product of the edge weights along its path |
| FragmentSearch.ExploreStartsIsExact | fragment_engine.py:817-848 | over all start chunks: every maximal simple path, once, with its score |
| FragmentEngine.SelectBest | fragment_engine.py:850-862 | the de-duplicating selection returns the leading paths of the sorted list |
| FragmentEngine.SortedPathsAreRanked | fragment_engine.py:850-862 | the sorted list holds exactly the maximal paths, without repetition, scores never increasing |
| FragmentEngine.PrefixIsBest | fragment_engine.py:850-862 | no maximal path outside the returned prefix scores higher than one in it |
| FragmentEngine.HeadersFirstFootersLast | fragment_engine.py:750-862 | on a built graph a pure header stands only first, a footer only last, no chunk repeats, and length stays in bounds |
| FragmentEngine.BuiltSuccessors | fragment_engine.py:743-815 | successors of a built graph are compatible existing chunks, distinct and bounded in number |
| FragmentEngine.BuiltGraph | fragment_engine.py:743-815 | a built graph is well formed and has no edge into a pure header or out of a pure footer |
| FragmentEngine.EdgeMeans | fragment_engine.py:764-801 | every edge of a built graph: the seam of the last and first 256 bytes, 0.6 of it plus 0.2 or 0.1 for the direction and 0.2 or 0.14 for the alignment as weight, and the recorded distance, alignment and format constraint |
| FragmentEngine.ForwardAndAlignedWin | fragment_engine.py:783-787 | with equal seams and alignment a forward edge never weighs less than a backward one, and with equal direction an aligned one never less than an unaligned one, when rounding keeps the order |
| FragmentEngine.NoEdgeIsMissing | fragment_engine.py:750-813 | a chunk that may follow another is its successor, unless the list is full of edges that weigh at least as much |
| FragmentEngine.FoundPathsAreReconstructions | fragment_engine.py:743-862 | building and then searching: every path returned joins distinct chunks over accepted seams, with pure headers only first, footers only last and bounded length, and starts with a header if there is one |
| FragmentEngine.BuildLists | fragment_engine.py:750-815 | the nested edge loops compute every source's best successors and the full edge list |
| FragmentEngine.BuildFrom | fragment_engine.py:743-815 | building resets old edges and covers exactly the known chunks |
| FragmentEngine.BestPaths | fragment_engine.py:817-862 | the result is the best-scoring maximal paths over all start chunks, best first |
| FragmentEngine.StartsMean | fragment_engine.py:819-821 | the search starts from exactly the headers, or from the first chunk when there is none |
| FragmentEngine.FragmentGraph.AddChunk | fragment_engine.py:735-741 | a full graph refuses; otherwise the chunk is stored under its id and the rest is unchanged |
| FragmentEngine.FragmentGraph.BuildGraph | fragment_engine.py:743-815 | edges and adjacency become those of the current chunks; the edge count is returned |
| FragmentEngine.FragmentGraph.FindBestPaths | fragment_engine.py:817-862 | the best maximal paths of the current graph, from its headers or else its first chunk |
| PermutationSearch.PermutationsAreRearrangements | fragment_engine.py:653-656 | the enumerated orders are exactly the rearrangements of the fragments |
| PermutationSearch.PermutationCount | fragment_engine.py:653-656 | there are n! of them |
| PermutationSearch.PermutationsInOrder | fragment_engine.py:651-655 | the order in which they are tried: grouped by first element as supplied, and so on within each group |
| PermutationSearch.SuppliedOrderFirst | fragment_engine.py:651-655 | the supplied order is tried first |
| PermutationSearch.Reconstruct | fragment_engine.py:628-683 | the result in every case: nothing to join, one fragment with its validator's own verdict, too many fragments joined as supplied, none accepted joined as supplied, one accepted payload with its verdict, competing payloads with the first of them |
| PermutationSearch.VerdictIsExactIff | fragment_engine.py:628-683 | ambiguous, corrupted and unique results hold exactly when two, none or one payload is acceptable, for every validator, if and only if the orders tried yield every payload |
| PermutationSearch.VerdictIsExact | fragment_engine.py:628-683 | so they do for a budget of n! |
| PermutationSearch.HidesAmbiguityIff | fragment_engine.py:650-683 | some validator's ambiguity is reported as a unique result if and only if something is tried and not every payload is reached |
| PermutationSearch.VerdictIgnoresSupplyOrder | fragment_engine.py:628-683 | when the orders tried yield every payload, state and unambiguous payload do not depend on the supplied order |
| Jpeg.JpegEntropyDecoder.Parse | fragment_engine.py:303-368 | the scan loop leaves exactly the specified record in its fields, and returns whether a frame or scan was seen |
| Jpeg.JpegEntropyDecoder.ReadMarker | fragment_engine.py:311-325 | skipping fill bytes and dispatching on the code is one step of the scan |
| Jpeg.JpegEntropyDecoder.ReadSegment | fragment_engine.py:351-366 | a segment is recorded with its length and payload if and only if it fits, otherwise the scan is truncated |
| Jpeg.ParsedIsFaithful | fragment_engine.py:303-368 | for any bytes, markers stand where they say, in order, without overlap, and restarts and end of image agree with them |
| Jpeg.StuffedIsSkipped | fragment_engine.py:327-329 | stuffed entropy bytes add nothing to the record |
| Jpeg.SegmentIsRead | fragment_engine.py:343-366 | a rendered segment is read back with code, length, payload and flags |
| Jpeg.RestartIsRead | fragment_engine.py:337-341 | a rendered restart marker is read back with its number |
| Jpeg.RenderedImageReadsBack | fragment_engine.py:303-368 | a well-formed image with anything behind its end reads back as exactly its markers |
| Jpeg.RenderedImageMeans | fragment_engine.py:303-368 | a rendered image is accepted if and only if a start of frame (C0 or C2) or of scan is among its segments; its restarts, restart interval and completeness are those rendered |
| Jpeg.CutImageMeans | fragment_engine.py:343-362 | an image that breaks off inside a segment is truncated, keeps what stands in front, and counts as having a frame, a scan or an interval when the cut segment has that code |
| Jpeg.OpenImageMeans | fragment_engine.py:303-368 | an image without an end is incomplete, and truncated if and only if it ends in fill bytes |
| JpegRestarts.ReassembleRstFragments | fragment_engine.py:386-440 | the result joins the fragments in the stitched order and judges it by a scan of the whole |
| JpegRestarts.StitchRemaining | fragment_engine.py:409-433 | the loop picks the first aligned fragment, else the first best seam, until none is left |
| JpegRestarts.FindBestSeam | fragment_engine.py:421-428 | the first fragment with the highest seam score is chosen |
| JpegRestarts.StitchingConserves | fragment_engine.py:386-436 | the order starts with the header, uses every fragment once and loses no byte |
| JpegRestarts.FirstOfOrder | fragment_engine.py:396-409 | the order starts with the earliest fragment that begins with `FF D8`, or with the first one when none does |
| JpegRestarts.RestOfOrder | fragment_engine.py:408-411 | it goes on with the other fragments, looking for what follows the first one's last restart, or for restart 0 |
| JpegRestarts.NextOfOrder | fragment_engine.py:413-435 | the next fragment is the first that continues the restart numbers, else the first with the best seam of 256 bytes on either side |
| JpegRestarts.ContinuationsFollowSeamsOnly | fragment_engine.py:304-305 | fragments without a start of image are ordered by seams alone, whatever restart markers they hold |
| Jobs.JobRegistry.AcquireTargetLock | drex_server.py:430-437 | the lock is taken if and only if no other job holds the normalised target |
| Jobs.JobRegistry.ReleaseTargetLock | drex_server.py:439-443 | only the holder's lock is removed |
| Jobs.JobRegistry.FindActiveByFingerprint | drex_server.py:387-395 | a job is found if and only if an active one with that fingerprint is in memory |
| Jobs.JobRegistry.CreateJob | drex_server.py:450-510 | the record is stored in memory and on disk with a fresh cancellation event |
| Jobs.JobRegistry.UpdateJob | drex_server.py:530-696 | progress fields, transition table, completion while cancelling, lock release and persistence, with both error exits |
| Jobs.JobRegistry.CancelJob | drex_server.py:698-722 | the four cases of a cancellation request and its effect on event, lock and status |
| Jobs.JobRegistry.ReconcileStartup | drex_server.py:737-762 | exactly the active records on disk become interrupted, and their number is returned |
| Jobs.UpdateMeans | drex_server.py:653-676 | for every current status the exact set of requested statuses that is accepted, and the status recorded then |
| Jobs.UpdateWrites | drex_server.py:551-696 | what else an accepted update writes, what it keeps, and exactly when it frees the target |
| Jobs.CancelMeans | drex_server.py:698-722 | a cancellation for every current status: refused or accepted, the status and locks afterwards, and the event set for every known job |
| JobProtocol.UpdateMoves | drex_server.py:653-696 | an accepted update moves the status along the table and agrees in memory and on disk, a rejected one leaves it |
| JobProtocol.CancelMoves | drex_server.py:698-722 | a cancellation is refused exactly for unknown jobs and for terminal ones other than cancelled |
| JobProtocol.StepKeeps | drex_server.py:1722-1910 | each of launch, cancel, worker, release and restart steps keeps the invariant and the transition table |
| JobProtocol.RunKeeps | drex_server.py:1722-1910 | the invariant holds in every reachable state |
| JobProtocol.RunsAreSafe | drex_server.py:2322-2349 | in every reachable state active jobs hold their target's lock, so no two share a target, nor a fingerprint |
| JobProtocol.NoSharedTarget | drex_server.py:430-437 | two active jobs never have one normalised target |
| JobProtocol.FinishedHoldsNothing | drex_server.py:2767-2789 | a finished or refused launch holds no lock |
| JobProtocol.RaisingLeavesLock | drex_server.py:1748-1758 | a scan whose engine passes for digits but is no number leaves the lock it took |
| JobProtocol.AbortedHoldsLockIff | drex_server.py:1748-1758 | in every reachable state a launch that raised between locking and submitting holds its lock if and only if it is a scan whose engine is no number, or has no target |
| JobProtocol.SettledLocksIff | drex_server.py:430-443 | once all launches are settled, a target is locked if and only if a launch of one of these two kinds raised on it, and that launch holds the lock |
| JobProtocol.EmptyTargetLeavesLock | drex_server.py:671-713 | a sanitization without a target that is cancelled before it is marked queued raises and leaves its lock |
| JobProtocol.LeftBehindRefuses | drex_server.py:430-437 | until the process restarts, a lock left behind stays, and every later launch on that target is refused |
| JobProtocol.TerminalIsForever | drex_server.py:653-675 | a terminal status never changes again, through any steps and restarts |
| JobProtocol.AcceptedCancelNeverCompletes | drex_server.py:660-661 | a job whose cancellation is accepted at some step of a run is never completed at any later time |
| JobProtocol.UndisturbedCompletes | drex_server.py:1722-1910 | in every interleaving a launch with its lock that is not cancelled, restarted or failed, asks for nothing but running and completed, and finishes, ends recorded as completed, in memory and on disk, without a lock |
| JobProtocol.LaunchCanFinish | drex_server.py:1722-1910 | and it can: from its lock on, its remaining steps are all possible, and the target is free at the end |
| AuditChain.VerifyAuditChain | drex_verify.py:572-631 | accepted if and only if every event is linked; otherwise the count stops at the first bad one |
| AuditChain.AcceptedMeans | drex_verify.py:572-631 | a chain is accepted if and only if every event has its index as number, the previous hash in front of it (64 zeros for the first), and the SHA-256 of that hash followed by its canonical form as its own |
| AuditChain.PreimageSplits | drex_verify.py:177-201 | equal preimages behind digests have equal previous hashes and equal canonical bytes |
| AuditChain.MeetingChainsAgree | drex_verify.py:572-631 | without a collision, chains that meet in a hash are one chain up to there |
| AuditChain.LastHashFixesChain | drex_verify.py:572-631 | when canonical JSON tells the events of the two chains apart, equal last hashes mean equal length and equal hashed fields everywhere, or an explicit collision |
| AuditChain.EditIsAcceptedIff | drex_verify.py:572-631 | without a collision, replacing an event in front of the last is accepted if and only if both hashes and all hashed fields stay the same |
| AuditChain.EditIsDetected | drex_verify.py:572-631 | editing a hashed field of one event is detected, or exhibits a collision |
| AuditExample.ForgeryIsDetected | drex_verify.py:572-631 | the hypotheses of these lemmas hold together for an accepted chain and a forged first event that is accepted by itself, and the forgery is detected |
| AuditChain.PrefixIsAccepted | drex_verify.py:572-631 | prefixes of accepted chains are accepted |
| AuditChain.AppendIsAcceptedIff | drex_verify.py:572-631 | an appended event is accepted if and only if it continues the chain |
| AuditChain.MissingFieldLooksDefault | drex_verify.py:591-614 | a missing field and its default are accepted alike, whichever field it is |
| PackageVerdict.CheckObjects | drex_verify.py:434-486 | every declared object is counted once as verified, missing or tampered, by the file its path leads to from the package root; the first malformed entry stops the loop |
| PackageVerdict.CountExtras | drex_verify.py:488-500 | the unexpected files are the ones neither structural nor declared |
| PackageVerdict.Verify | drex_verify.py:434-541 | the verdict in terms of the declared fields: a pass if and only if every object is present with its size and, up to letter case, its digest, nothing is surplus and the later phases succeed; tampered if and only if all are present but not that; incomplete and invalid as well; and the counts of the summary |
| PackageVerdict.LowerMeans | drex_verify.py:477-485 | digests compare equal if and only if they agree position by position up to the case of ASCII letters |
| PackageVerdict.PassMeansHeldIff | drex_verify.py:451-500 | a pass means that the package's own files include all declared paths if and only if they do so whenever all declared paths lead to files and no file is undeclared |
| PackageVerdict.OutsideObjectPasses | drex_verify.py:455-458 | a package that declares `../outside.bin` with the right digest passes without holding it |
| PackageVerdict.DetourIsUnexpected | drex_verify.py:451-500 | an object reached under another name counts as verified, and its file as unexpected |
| CapabilityManager.CachedIsLastPublished | drex_app.py:1827-1938 | in every run a lookup (`GetCached`) or an unforced request is answered from the cache if and only if the last result published for the drive is younger than the time to live and not invalidated since, and with that result |
| CapabilityManager.CapabilityManager.Request | drex_app.py:1875-1895 | answer from the cache, join a probe under way, or start one |
| CapabilityManager.CapabilityManager.Complete | drex_app.py:1911-1913 | publish the result and take all waiting listeners |
| CapabilityManager.CapabilityManager.Invalidate | drex_app.py:1929-1938 | exactly the entries in scope are dropped; listeners stay |
| CapabilityManager.StepKeeps | drex_app.py:1867-1938 | every step keeps single flight and the conservation of listeners |
| CapabilityManager.RunsNotifyOnce | drex_app.py:1867-1938 | at most one probe per drive; a waiting listener has one; each subscriber is notified at most once, and once everything is done exactly once |
| CapabilityManager.WorkersRunDry | drex_app.py:1897-1927 | worker steps make the system smaller, and one can be taken while a subscriber waits |
| TaskManager.DrexTaskManager.SubmitTask | drex_app.py:625-637 | a submission is accepted if and only if no task is active, and resets the cancellation event |
| TaskManager.DrexTaskManager.WorkerFinishes | drex_app.py:658-667 | the final state is decided by the event first, then by the exception, and one completion event is emitted |
| TaskManager.DrexTaskManager.Cancel | drex_app.py:672-678 | the event is set if and only if a task is active |
| TaskManager.StepKeeps | drex_app.py:625-678 | every step keeps: one worker while active, none otherwise, every accepted task in hand or reported |
| TaskManager.RunsFinishOnce | drex_app.py:625-678 | in every run at most one worker, and each accepted task is reported once |
| TaskManager.EndsCancelledIff | drex_app.py:658-667 | a task ends cancelled if and only if the last thing done to the shared event in its life, by the manager or by a screen, was to set it |
| TaskManager.ClearedCancellationIsLost | drex_app.py:4271-4279 | clearing the shared event and submitting again loses an accepted cancellation |
| PhysicalOverwrite.GeneratePattern | drex_app.py:2243-2247 | the repeated and cut hash block is the cyclic pattern of the offset |
| PhysicalOverwrite.WriteAll | drex_app.py:2259-2291 | the write loop ends as the specified pass does, with its byte count, for any device |
| PhysicalOverwrite.ReadChunk | drex_app.py:2300-2338 | one read and its comparison is one round of the count |
| PhysicalOverwrite.ReadBack | drex_app.py:2299-2338 | the read-back loop counts verified bytes and mismatches of the specified pass |
| PhysicalOverwrite.CountsSegments | drex_app.py:2299-2338 | those counts are the sums over the segments read |
| PhysicalOverwrite.WritePassMeans | drex_app.py:2259-2291 | the write pass transfer by transfer: each is a request of at most 1 MiB for the repeated hash block of its offset, starts where the last one stopped and moves a front of it; it ends complete, cancelled or failed as the polls and the device say |
| PhysicalOverwrite.ReadPassMeans | drex_app.py:2299-2338 | the same for the read-back pass |
| PhysicalOverwrite.FinalStatusMeans | drex_app.py:2259-2361 | each of the five final statuses, if and only if, from how the passes ended and whether every byte read equals its hash byte |
| PhysicalOverwrite.TargetMeans | drex_app.py:2162 | the range is the disk unless a positive limit is smaller |
| PhysicalOverwrite.Overwrite | drex_app.py:2249-2363 | the evidence and final status follow from the two passes |
| PhysicalOverwrite.PassPhysicalIff | drex_app.py:2345-2361 | a physical pass is reported if and only if both passes ran over the whole disk and every segment matches; the segments then tile it |
| PhysicalOverwrite.FaithfulDevicePassesIff | drex_app.py:2249-2361 | a faithful device that may shorten transfers passes if and only if both chunkings prescribe the same bytes |
| TransferLengths.LengthsDecide | drex_app.py:2243-2361 | a faithful device passes if and only if at every offset the transfer starts its write and read lengths lead to prescribe the same byte |
| TransferLengths.PassesForEveryDigestIff | drex_app.py:2243-2361 | it passes whatever the hash if and only if both passes move the same lengths |
| TransferLengths.PassesOrMismatches | drex_app.py:2345-2361 | otherwise the run ends as a failed verification |
| TransferLengths.ShortFirstWriteFails | drex_app.py:2243-2361 | a faithful device whose first write stops after 512 bytes fails for every hash that tells offset 0 from 512 |
| PhysicalOverwrite.FullTransfersPass | drex_app.py:2249-2361 | a faithful device with full transfers and no limit always passes |
| PosixOverwrite.OverwritePosix | drex_app.py:2389-2463 | the POSIX loops end as specified, file position and accounted offset kept apart |
| PosixOverwrite.ReadBackPosix | drex_app.py:2418-2437 | the read-back loop counts verified bytes and mismatches of the specified pass |
| PosixOverwrite.WritingsMean | drex_app.py:2389-2409 | the write pass chunk by chunk: the offset advances by what was asked for, the file position by what was taken |
| PosixOverwrite.ReadingsMean | drex_app.py:2420-2440 | the same for the read-back pass |
| PosixOverwrite.PosixStatusMeans | drex_app.py:2389-2463 | each final status, if and only if, from how the passes ended and what was read; a run never ends as failed |
| PosixOverwrite.PosixPassPhysicalIff | drex_app.py:2449-2463 | a physical pass is reported if and only if every chunk was read whole, as expected and in place |
| PosixOverwrite.ReportedIsTakenIff | drex_app.py:2396-2409 | a finished write pass reports the requested size whatever the device took, and that is what it took if and only if every write moved all |
| PosixOverwrite.FaithfulPosixPassesIff | drex_app.py:2389-2463 | a device that holds what it took and reads whole chunks passes if and only if the disk then starts with the whole patterns |
| PosixOverwrite.WholeTransfersPass | drex_app.py:2389-2463 | so it passes when every write moved all |
| PosixLengths.PassesAlwaysIff | drex_app.py:2389-2463 | a faithful device with given write lengths passes for every hash and every former content of the disk if and only if every write moves all it is given |
| PosixLengths.StatusIs | drex_app.py:2389-2463 | the outcome for given write lengths: a pass if and only if what was moved, in front of the former content, starts with the patterns |
| PosixLengths.PassesOrFails | drex_app.py:2449-2463 | otherwise the run ends as a failed verification |
| PosixLengths.HalfWriteFails | drex_app.py:2396-2409 | a device whose only write takes 512 of 1024 bytes fails as soon as the byte that stood behind them differs from the pattern |
| Carver.ExamineHit | carver_engine.py:323-392 | alignment, range, validation and digest checks at a hit end in the specified artifacts and jump |
| Carver.ExaminedExplains | carver_engine.py:323-392 | no candidate between a hit and the end of its jump is left unexplained |
| Carver.ScanSignature | carver_engine.py:316-392 | the inner loop computes the specified search of its window |
| Carver.SearchedIsDone | carver_engine.py:316-392 | that search explains every candidate of its window |
| Carver.ScanWindow | carver_engine.py:315-392 | the loop over the signatures computes the specified search of all of them |
| Carver.SearchedAllIsDone | carver_engine.py:315-392 | that search explains the candidates of all signatures, and keeps what was found |
| Carver.CarveArtifacts | carver_engine.py:253-413 | the window loop, with its polls and its bound, ends with exactly the artifacts of the specified scan, in order of falling confidence |
| Carver.CarvedKeeps | carver_engine.py:283-394 | artifacts are sound, start outside earlier ones and stay within the bound, and a completed scan explains every candidate of every window |
| Carver.CandidateMeans | carver_engine.py:319-328 | a candidate stands where the whole signature lies in the scanned part of the source, on a sector boundary if asked |
| Carver.AcceptsMeans | carver_engine.py:335-345 | it is accepted if and only if the validator calls the bytes from there on, up to the limits, valid with a positive length |
| Carver.LongestFirstMeans | carver_engine.py:292-293 | longer signatures are searched for first, and those of one length in the order they are registered |
| Carver.ArtifactMeans | carver_engine.py:323-384 | a registered signature of its format stands at an artifact's start, on a sector boundary if asked; the validator was shown the source from there up to the limits, and the data, confidence and digest are what it says of that |
| Carver.HonestMeans | carver_engine.py:328-356 | each artifact is what validation found at a candidate, no later one starts inside an earlier one, and no two share a digest when copies are dropped |
| Carver.NextWindowDone | carver_engine.py:287-394 | the windows visited are the multiples of the step |
| Carver.InSomeWindowIff | carver_engine.py:285-311 | bytes lie wholly in some window if and only if the last window starting before them holds them |
| Carver.NothingIsCutIff | carver_engine.py:285-311 | no occurrence of a given length is ever cut if and only if the length is at most the overlap plus one |
| Carver.EveryValidCandidateIsCovered | carver_engine.py:284-405 | after a completed scan every accepted candidate of a fitting signature that never hides behind itself lies in an artifact, or in a dropped copy of one where copies are dropped |
| Carver.BeginningIsEnough | carver_engine.py:315-331 | a signature that never hides behind itself also finds the candidates of the longer signatures of its format that it begins |
| Carver.CompleteIff | carver_engine.py:284-405 | completed scans of all sources with all validators and hashes account for every accepted candidate of a fitting signature, copies dropped or not, if and only if it never hides behind itself |
| Carver.NeverHidesIff | carver_engine.py:322-331 | without alignment and scan limit, and with a step of at least its length, a signature never hides behind itself if and only if it has no border |
| Carver.ImageBehindRiffIsMissed | carver_engine.py:328-331 | a completed scan of a RIFF file that ends in `FF D8` and an image directly behind it misses the image, although its validator accepts it and it is no copy |
| Carver.JpegIsIncomplete | validators/jpeg.py:43 | the registered JPEG signature has a border, so some completed scan misses an accepted image |
| Carver.ArtifactsAreSlices | carver_engine.py:335-384 | artifact data is the source slice at its extent, within the size limit, and starts are distinct |
| Raid.GenerateRaid5 | fixture_generator.py:499-542 | the three buffers end as the specified disks, zero padding included |
| Raid.StoreStripe | fixture_generator.py:527-540 | the parity branch stores each chunk on the right disk and leaves the rest |
| Raid.DisksMean | fixture_generator.py:511-540 | where every byte of every whole stripe lies: data, data and XOR on disks 0, 1 and 2, and the XOR one disk further to the left with each stripe |
| Raid.PaddingMeans | fixture_generator.py:506-511 | behind the last whole stripe the disks hold zeros |
| Raid.AnyDiskIsRecoverable | fixture_generator.py:516-540 | at every offset the disks XOR to zero and each is the XOR of the other two, for every chunk size |
| Raid.ReadAroundReturnsData | fixture_generator.py:516-540 | reading the stripes around the parity returns the striped data |
| Raid.ReadAroundIffDivides | fixture_generator.py:506-540 | the whole dataset comes back if and only if the chunk size divides the disk |
| FileWipe.Wipe | file_sanitizer.py:276-336 | success if and only if no poll, one for every chunk of every pass, reports a cancellation; the exact file content of both results, and byte counts as the products of passes and file size, plus what the last pass wrote |
| FileWipe.WipePass | file_sanitizer.py:292-336 | inside a pass the file is the new prefix in front of the previous pass, at the first cancelled poll or the end |
| FileWipe.CheckReadback | file_sanitizer.py:342-355 | the first-chunk comparison succeeds on a file that holds the last pass |
| FileWipe.CompletedWipeBytes | file_sanitizer.py:318-331 | behind a completed run byte o is byte (o mod 65536) mod length of the last pattern |
| FileWipe.CompletedRandomWipe | file_sanitizer.py:318-331 | behind a completed run that ends random, every byte is the one drawn for it, one draw of at most 65536 bytes for every chunk |
| FileWipe.ContinuousIff | file_sanitizer.py:318-331 | a pass leaves a continuous pattern if and only if the pattern equals itself shifted by 65536 bytes, as far as the file reaches |
| FileWipe.ThreeByteContinuousIff | file_sanitizer.py:318-327 | for three-byte patterns: if and only if the bytes that meet at the first seam agree |
| FileWipe.GutmannRestarts | file_sanitizer.py:318-327 | every three-byte pass of the Gutmann sequence is continuous if and only if the file ends with the first chunk |
| FileWipe.PassSequence | file_sanitizer.py:480-500 | no pattern is empty, every sequence of several passes ends random, a single pass is random or zero, and of Gutmann's 35 passes the first and last four are the random ones |
| FileWipe.GutmannMeans | file_sanitizer.py:64-75 | the 35 passes: random ones at either end, the rotations of 92 49 24 twice and of 6D B6 DB once, and the sixteen bytes of two equal halves in order |
| ClusterBitmap.ExtractClusterRuns | fs_bitmap.py:112-188 | each policy's runs, as specified cluster by cluster |
| ClusterBitmap.GroupRuns | fs_bitmap.py:147-181 | the grouping loop splits the range's runs by allocation state |
| ClusterBitmap.RunsAreMaximal | fs_bitmap.py:147-181 | the runs are uniform, contiguous and alternate |
| ClusterBitmap.SelectIsSeparated | fs_bitmap.py:183-188 | the runs of one state are increasing and do not touch |
| ClusterBitmap.SelectCovers | fs_bitmap.py:183-188 | they cover exactly the clusters of the range with that state |
| ClusterBitmap.PoliciesPartition | fs_bitmap.py:112-188 | FREE_FIRST partitions the range into maximal runs, free ones first; FREE_ONLY covers exactly the free clusters |
| ClusterBitmap.GetAllocationStats | fs_bitmap.py:83-110 | free count and run count agree with the FREE_ONLY runs of the whole volume |
| ClusterBitmap.AllocatedMeans | fs_bitmap.py:73-81 | cluster 8k + i is allocated if and only if it is below the cluster count and byte k exists and is odd after division by 2^i |
| ClusterBitmap.RangesMean | fs_bitmap.py:119-145 | an extraction ends at the cluster count or the limit behind its start, and the policies that look at no bit return that range as one run |
| PdfText.EscapeIsPerCharacter | certificate_engine.py:113-120 | the three replacements escape each character once |
| PdfText.EscapeReadsBack | certificate_engine.py:113-120 | literal-string reading inverts escaping up to line-break spelling (section 7.3.4.2 of ISO 32000-1) |
| PdfText.EncodedReadsBack | certificate_engine.py:159-164 | the Latin-1 form of an escaped text reads back as the encoded text |
| PdfText.LosslessIffPlainLatin1 | certificate_engine.py:113-164 | nothing is lost if and only if the text has no carriage return and only Latin-1 characters |
| PdfWriter.PdfWriter.AddLine | certificate_engine.py:113-120 | the appended line, put between parentheses, is a literal string of the text and ends at its own parenthesis, whatever follows |
| PdfWriter.PdfWriter.CompilePdf | certificate_engine.py:122-208 | the emitted bytes are the specified file |
| PdfWriter.EmitObjects | certificate_engine.py:125-193 | each object is written at the offset recorded for it |
| PdfWriter.EmitXref | certificate_engine.py:195-200 | the table is the head, the free entry and one entry per offset |
| PdfWriter.BuildStream | certificate_engine.py:134-164 | the content stream holds the prologue and each line's two operators in order |
| PdfWriter.DocumentTree | certificate_engine.py:129-206 | the trailer leads to the catalog, that to the page tree, that to the page, and the page to the stream and the fonts, by the numbers the objects are written with |
| PdfWriter.ObjectStands | certificate_engine.py:125-193 | every object stands where its recorded offset says |
| PdfWriter.EntryIsTwentyBytes | certificate_engine.py:199-200 | an entry takes 20 bytes if and only if the offset is below 10^10 (section 7.5.4 of ISO 32000-1) |
| PdfWriter.ReaderFindsObject | certificate_engine.py:195-200 | the table's digits for an object read back as an offset, and the object stands there |
| PdfWriter.ReaderFindsTable | certificate_engine.py:195-206 | the number behind the final startxref is where the table's head stands |
| PdfWriter.LengthIsStreamSize | certificate_engine.py:162-181 | the number behind /Length is exactly the size of the stream |
| PdfLines.OperatorShowsBody | certificate_engine.py:151-161 | removing the section marker and stripping commute with escaping, so each line's show operator holds the escaped form of the text it is to show |
| PdfLines.LineMoves | certificate_engine.py:149-163 | in front of each page line the text position moves down by 14, by 18 for a section, and the stream ends with ET |
| PdfLines.LineIsShown | certificate_engine.py:151-164 | the compiled stream shows every page line: the rule's text for `---`, the stripped title for a section, the encoded text otherwise |
| PdfLines.ShownAsAddedIff | certificate_engine.py:151-164 | a line is shown as the text it was added with if and only if it is neither a rule nor a section and has no carriage return and only Latin-1 characters |
| PdfLines.BannerClosesIff | certificate_engine.py:144 | the literal string of the banner ends at its own parenthesis if and only if its unescaped parentheses pair up and it ends with no open escape |

## Left out

- Window toolkits, REST routing, WebSockets, PowerShell, Win32 and subprocess calls, and the external tools with their early-return branches.
- SHA-256, ECDSA, JWT, zlib, JSON and the format validators are parameters. Hash strings are assumed to be digests that UTF-8 tells apart, and canonical JSON to tell apart the events of the chains that are compared; a JSON float is given by its shortest decimal form.
- Floating point: path weights are reals, and the seam score and the rounding of weights are arbitrary functions.
- Clocks and randomness: freshness takes the time as a parameter, random passes and job ids are parameters.
- Display fields, percentages, heartbeats, progress events, transfer rates and evidence hashes.
- Mapfile: reading from a path, and `int` on non-ASCII digits. Associativity and the other laws assume non-negative positions and sizes, which the parser does not enforce.
- Greedy `FragmentReassembler`, ZIP reassembly and candidate fusion in `fragment_engine.py`, and `structural_validity_score`.
- Sanitizers for slack, free space and keys, directory trees and metadata scrambling in `file_sanitizer.py`; RAID 0, 1 and 10 and the file-system images in `fixture_generator.py`.
- File wipe: a write is assumed to move what it is given; exceptions and the external erasers are not modelled.
- Package verification before the object list (containers, manifest, root digest). A declared digest that is not a string, and upper-case letters outside ASCII, are not modelled.
- Job registry: the write to disk is atomic and does not fail; progress percentages and details are not part of the record.
- Task manager: shutdown, the timer, and states set from outside. Buttons that a screen disables are not modelled, so a screen may clear the event at any moment.
- Capability manager: the order of deliveries within one worker, and shutdown of the pool.
- Physical overwrite: opening the device, identity checks, and exceptions raised by POSIX reads and writes.
- Carver.CompleteIff: assumes that no other signature of the format begins the one in question, since that one may find what the first jumps over, and a size limit above the signature's length. No registered signature with a border has such a beginning.
- Carver: short reads by a source, the validators' evidence fields, and the progress record. Signatures are assumed non-empty: an empty one would keep the search loop from advancing.
- PDF: the six objects are written by a loop over their list, where the code writes them one after another.
- MapfileText.ParseMapfile: takes the text; reading it from a path is not modelled.
- Jobs.JobRegistry.CreateJob: clocks, details and display fields are not part of the record.
- Jobs.JobRegistry.UpdateJob: percentages, speeds, details and error texts are not part of the record.
- PackageVerdict.Verify: the custody, certificate and cross-reference checks enter as their outcomes, because each is a list of field comparisons.
- JpegRestarts.ReassembleRstFragments: seam scores are assumed non-negative, as `seam_continuity_score` returns them.
