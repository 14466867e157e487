# GRUVAX: a verified model of the shelf estimator and its protocols

GRUVAX tells the owner of a record collection which cube of a shelf holds a record, and where inside
the cube, and lights it up. This project restates the logic of its core in Dafny and proves what the
code and its documentation promise of it.

**The position estimator.** `SegmentCache.derive` turns cut points, a collection snapshot and admin
width overrides into segments for every bin; `locate` answers with a cube, a span, a band and a
confidence. `Shelf.dfy` states the reference description: records sorted by (label key, catalog key),
each owned by the bin with the greatest cut key at or below its own key, labels of a bin cut out of
their sorted lists, widths from `Widths.dfy`. `SegmentCache.dfy` and `SegmentFractions.dfy` hold the
loops of `derive` (the scan in cut-key order, the dictionaries filled label by label, the search for
the first rank, the three legs of the width arithmetic, the running offset) and prove that they
produce exactly the reference bins. `Locate.dfy` holds the estimators. Everything the estimator promises
is then proved of the reference: rank ranges are exact, bins partition the covered records, segments
tile the cube, locating preserves shelf order, crossings point to the next record. `OrderMeaning.dfy`
and `ShelfMeaning.dfy` tie the definitions themselves to what they are about: numbers and alphabets,
collation weights, the rows and the overrides of one cube.

**The highlight lifecycle.** `Highlights.dfy` models the registry, the revert timers, the asyncio lock
and the retained state per cube as a transition system in which timers move between any two publishes
of the lock holder; `HighlightInvariant.dfy` and `HighlightExactness.dfy` prove what every reachable
state keeps, and `HighlightService.dfy` proves that the critical sections, written as code over
mutable fields, are runs of that system, and says cube by cube what each of them leaves at the broker.
`HighlightRetention.dfy` treats both modes at once: a new highlight always shows, retain mode leaves
other cubes alone, only registered highlights have live tasks, and highlights that do not overlap are
lit exactly.

**Pinned pagination.** `PageClient.dfy` proves the page loop against an arbitrary server,
`FakeServer.dfy` models the server that pins snapshots, `PinnedSync.dfy` composes the two with
anything happening in between, and `SyncRuns.dfy` shows that every server has such runs. `PageRetries.dfy` holds the nested retry loops behind one fetch.

**Smaller cores.** Separators and case in catalog numbers (`Separators.dfy`), LIKE patterns (`CatalogPattern.dfy`), search merging and ranking (`Search.dfy`) and what its limits
cost (`SearchLimits.dfy`),
activity windows over a self-pruning log (`Activity.dfy`), shelf addresses (`ShelfAddress.dfy`),
boundary documents (`BoundaryDocument.dfy`, `BoundaryRoundTrip.dfy`), midpoint suggestion
(`Midpoint.dfy`). `Sequences.dfy`, `Orders.dfy` and `Decimals.dfy` hold the theory of stable sorting, filtering,
lexicographic order and decimal numerals that the rest builds on.

Conventions: fractions, positions and scores are reals; integers are unbounded; text is ASCII, where
NFKC is the identity and casefolding is lower-casing, except that label identity uses an arbitrary
idempotent casefold and arbitrary collation weights (the `Collator` parameter; Unicode Technical
Standard #10, section 7). Dictionaries whose order is observable carry their insertion order.
A `ghost predicate Valid` states what the constructor of the source establishes. An invariant or
postcondition written `var ok := P; ok` keeps the verifier from taking P apart.

Where code and comments disagree, the model follows the code:

- Comments in `derive` say that the global key folds labels with `.casefold()`
  (`src/gruvax/estimator/segment_cache.py:196-203`); the code sorts by `_label_key` (line 216).
- The comment at `src/gruvax/db/queries.py:72-76` says that the Python pattern and the SQL column stay in lockstep. Python's
  `\s` also matches the four ASCII separators U+001C to U+001F, which the database's `\s` does not;
  `CatalogPattern.LockstepExactly` says for which texts the two agree, and
  `CatalogPattern.LockstepFails` gives one for which they do not.
- `src/gruvax/io/boundary_yaml.py:12-14` promises that any list of entries survives serialization and
  parsing. `BoundaryRoundTrip.ListSurvivesExactly` gives the exact condition: every address and
  override is in range and no empty cube carries a cut or overrides. A unit numbered zero and a blank
  override label are refused by the parser, the cut of an empty cube is lost
  (`UnitZeroIsRefused`, `BlankLabelIsRefused`, `EmptyCutIsLost`).
- Search is documented to keep the best score of each release
  (`src/gruvax/db/queries.py:343-346`); the 20 places of the catalog path can break that.
  `SearchLimits.BestExactlyWithoutCrowd` says for which table, query and limit it can happen:
  some release matched by both paths is crowded out by fewer than `limit` others. It never happens with
  at most 20 catalog matches, nor, with one row per release, at the default limit of 20; the route
  accepts up to 50, and `SearchLimits.TwentyOneMatchesLose` is a table on which every answer has a result below its best.

## Model

| member | source | states |
|---|---|---|
| Normalize.NormalizeMeans | src/gruvax/estimator/normalize.py:116-155 | the staged pipeline equals one description: the text before the first comma, lower-cased, without separators |
| Normalize.NormalizeIdempotent | src/gruvax/estimator/normalize.py:128-133 | normalizing twice is normalizing once, for missing and blank input too |
| Separators.SeparatorsVanish | src/gruvax/estimator/normalize.py:42-44 | a space, tab, line break, hyphen, underscore, dot or slash anywhere in a catalog number changes neither its ordering key nor either side of the search |
| Separators.OthersStay | src/gruvax/estimator/normalize.py:128-155 | every other character stays where it is, lower-cased letter by letter of the alphabet, in the ordering key and on both sides of the search |
| Separators.FirstOfListCounts | src/gruvax/estimator/normalize.py:143-146 | of a comma-separated list only the first catalog number counts |
| Normalize.TokensKeepAlphanumerics | src/gruvax/estimator/normalize.py:235-239 | the tokens of a text, joined, are exactly its letters and digits in order |
| Normalize.TokensAreMaximalRuns | src/gruvax/estimator/normalize.py:235 | the tokens are exactly the maximal runs of letters and of digits of the text, left to right, none missing |
| Normalize.BuildKey | src/gruvax/estimator/normalize.py:214-251 | the append loop builds the token key, sentinel and saturation cases included |
| Normalize.CatalogOrder | src/gruvax/estimator/normalize.py:214-232 | catalog keys are totally ordered: total, antisymmetric, transitive |
| Normalize.CompareIsTotalPreorder | src/gruvax/estimator/normalize.py:254-290 | compare_catalogs is an antisymmetric transitive sign, 0 exactly on equal keys, and catalog_in_range is the closed interval it defines |
| Normalize.SentinelsFirst | src/gruvax/estimator/normalize.py:233-237 | a catalog without a usable number sorts before every other one, strictly before any that has a token |
| Normalize.DigitRunsOrder | src/gruvax/estimator/normalize.py:240-247 | runs of at most twelve digits order by value, every longer run is above all of them, longer runs are equal |
| OrderMeaning.NumericAware | src/gruvax/estimator/normalize.py:219-230 | behind one word, with or without a separator in between, catalogs compare as the numbers they print, for all numbers below 10^12 |
| OrderMeaning.LeadingZerosDoNotCount | src/gruvax/estimator/normalize.py:246 | zeros in front of a number do not change the order, up to twelve digits |
| OrderMeaning.LongRunsAreLast | src/gruvax/estimator/normalize.py:54-63 | a run of more than twelve digits is above every number below 10^12 and ties with every other such run |
| OrderMeaning.WordsDecide | src/gruvax/estimator/normalize.py:214-251 | behind different words the words decide, alphabetically and in any case, whatever the numbers |
| OrderMeaning.LettersBeforeDigits | src/gruvax/estimator/normalize.py:249-251 | a catalog that starts with a letter sorts before every catalog that starts with a digit |
| OrderMeaning.MissingExactly | src/gruvax/estimator/normalize.py:65-68 | a catalog has no usable number exactly when it is missing, reads "none" or "na", or has no letter or digit |
| OrderMeaning.LabelOrderMeans | src/gruvax/estimator/normalize.py:85-113 | labels sort by collation weights, only labels with equal weights by their casefolded text |
| OrderMeaning.RecordOrderMeans | src/gruvax/estimator/segment_cache.py:214-216 | records sort by label first, and only records of one label by catalog |
| Decimals.DecimalRoundTrip | src/gruvax/estimator/normalize.py:246 | reading a printed number gives the number back |
| Normalize.CutOrder | src/gruvax/estimator/normalize.py:85-113 | the (label, catalog) key is a total order, ties of collation weights broken by the folded label |
| Records.CollectionSnapshot.Load | src/gruvax/estimator/collection_snapshot.py:95-109 | the grouping loop yields one group per folded label, holding exactly its records in input order |
| Records.RowIsFiled | src/gruvax/estimator/collection_snapshot.py:96-107 | every selected row is found under its folded label, a missing label or catalog as a blank one |
| Records.BoundaryCache.Load | src/gruvax/estimator/boundary_cache.py:76-139 | rows and overrides are published together with a new generation, or nothing changes |
| Sequences.SortIsStable | src/gruvax/estimator/collection_snapshot.py:85-86 | the sort used throughout is the stable one: the only ordered list that keeps records with equal keys in input order |
| Assignment.OwnerIsUnique | src/gruvax/estimator/segment_cache.py:341-359 | at most one bin has the greatest reaching cut key, physically last on ties, and it is the owner |
| Assignment.OwnerIsMonotone | src/gruvax/estimator/segment_cache.py:292-302 | a greater record key is owned by a bin whose cut is no smaller |
| Assignment.OwnerIsConvex | src/gruvax/estimator/segment_cache.py:196-199 | a key between two keys of one bin belongs to that bin |
| SegmentCaching.CutBinsByKey | src/gruvax/estimator/segment_cache.py:284-302 | cut-bearing bins in cut-key order, physical order kept on ties, empty and null-cut bins left out |
| SegmentCaching.ScanForBin | src/gruvax/estimator/segment_cache.py:350-357 | the scan with early break finds the owning bin, or none |
| SegmentCaching.AssignRecords | src/gruvax/estimator/segment_cache.py:341-359 | every bin receives exactly the records it owns, in collection order |
| SegmentCaching.GroupByLabel | src/gruvax/estimator/segment_cache.py:380-394 | label groups and display names of a bin: the records of each folded label in order, named after the first |
| SegmentFractions.RankRun | src/gruvax/estimator/segment_cache.py:416-444 | the search by key finds the run's true first rank; last rank and `continues` follow |
| SegmentFractions.ActiveOverrides | src/gruvax/estimator/segment_cache.py:458-470 | for each label the first override of this bin that folds to it |
| ShelfMeaning.OverrideForMeans | src/gruvax/estimator/segment_cache.py:458-470 | the override that applies is the first with the bin's unit, row and column and a label folding to the key; none applies exactly when none has all four |
| ShelfMeaning.BinsIgnoreOtherOverrides | src/gruvax/estimator/segment_cache.py:463-470 | a derived bin, widths and all, does not depend on the overrides of other cubes |
| ShelfMeaning.FlagMeans | src/gruvax/estimator/segment_cache.py:556-572 | a segment is flagged exactly when an override names its cube and its label |
| ShelfMeaning.AutoFractionMeans | src/gruvax/estimator/segment_cache.py:446-449 | the automatic fraction is the label's share of the bin's records, and in a cube without overrides it is the width |
| ShelfMeaning.DisplayMeans | src/gruvax/estimator/segment_cache.py:382-393 | a segment shows the label as its first record in the bin spells it |
| ShelfMeaning.WalkOrder | src/gruvax/estimator/segment_cache.py:161-170 | bins are walked by unit, then row, then column |
| ShelfMeaning.NoCutNoRecords | src/gruvax/estimator/segment_cache.py:286-290 | a bin marked empty, or whose cut lacks a label or a catalog, owns nothing |
| ShelfMeaning.CutsMean | src/gruvax/estimator/segment_cache.py:292-302 | a bin owns no record in front of its cut, and a record at its cut unless a later bin has the same cut |
| SegmentFractions.OneFraction | src/gruvax/estimator/segment_cache.py:472-569 | each of the three legs gives the reference width of the label |
| SegmentFractions.ApplyFractions | src/gruvax/estimator/segment_cache.py:451-572 | all applied fractions and override flags of a bin are the reference ones |
| SegmentCaching.BuildBin | src/gruvax/estimator/segment_cache.py:363-602 | one pass of the loop yields the reference bin, or raises exactly on a degenerate bin |
| SegmentCaching.SegmentCache.Derive | src/gruvax/estimator/segment_cache.py:131-604 | publishes exactly the reference bins, or raises and publishes nothing, exactly when some bin is overcommitted |
| SegmentCaching.PositiveOverridesNeverRaise | src/gruvax/estimator/segment_cache.py:479-506 | with positive overrides, whatever they sum to, no bin makes derive raise |
| SegmentCaching.SegmentCache.GetSegmentForRank | src/gruvax/estimator/segment_cache.py:638-657 | the nested scan returns the first segment whose rank range holds the rank |
| SegmentCaching.GetBinMeans | src/gruvax/estimator/segment_cache.py:625-627 | get_bin returns a published bin at the coordinates, and nothing exactly when there is none |
| SegmentCaching.GetBinFinds | src/gruvax/estimator/segment_cache.py:625-627 | with distinct coordinates get_bin finds every derived bin under its own place |
| Widths.AppliedSumsToOne | src/gruvax/estimator/segment_cache.py:535-569 | the fractions of a non-empty bin sum to 1 unless it is degenerate, and then miss 1 by at least 1 |
| Widths.AppliedMeans | src/gruvax/estimator/segment_cache.py:476-533 | with an absorber and overrides within 1, overrides apply as set and the rest is shared by count; otherwise overrides keep their relative widths and the others get none |
| Widths.PositiveOverridesAreSafe | src/gruvax/estimator/segment_cache.py:485-506 | positive overrides never leave a bin degenerate or a width negative |
| LabelRuns.LabelRunIsGlobal | src/gruvax/estimator/segment_cache.py:214-223 | the global order restricted to a label is that label's own sorted list |
| LabelRuns.RunIsContiguous | src/gruvax/estimator/segment_cache.py:401-444 | a bin's records of a label are exactly the ranks from its first rank on, as many as it has |
| LabelRuns.BinLabelsMean | src/gruvax/estimator/segment_cache.py:400-404 | a bin lists each label that has a record in it exactly once, in collation order |
| Partition.SlicesAreBinRecords | src/gruvax/estimator/boundary_math.py:67-95 | the rank slices of a bin's segments, joined, are exactly the records the bin owns, in order |
| Partition.GetRecordsInBin | src/gruvax/estimator/boundary_math.py:85-95 | the loop joins the slices of the segments' rank ranges |
| Partition.CountIsExact | src/gruvax/estimator/boundary_math.py:49-64 | the count read from segments is the number of records the bin owns |
| Partition.BinsPartitionCovered | src/gruvax/estimator/segment_cache.py:341-359 | bin counts add up to the records that do not precede every cut; bins without a cut hold none |
| Lookup.HitMeans | src/gruvax/estimator/segment_cache.py:649-656 | a segment's rank range holds a rank exactly when its bin owns the record at that rank |
| Lookup.LookupIsExact | src/gruvax/estimator/segment_cache.py:638-657 | the rank lookup returns the owning bin's segment, and nothing exactly when the record precedes every cut |
| Lookup.HasLabelMeans | src/gruvax/estimator/segment_cache.py:629-636 | a bin is listed for a label exactly when it owns a record of it |
| Tiling.SegmentsTile | src/gruvax/estimator/segment_cache.py:574-591 | for every map of positive overrides segments tile [0, 1]: widths non-negative, sum 1, offsets the sums of earlier widths |
| Tiling.OnlySegmentFillsBin | src/gruvax/estimator/segment_cache.py:485-500 | a label alone in its bin fills it whatever width was set |
| LocateTheorems.AnswerMeans | src/gruvax/estimator/algorithm.py:469-521 | locate is the segment estimate of the owning bin or the empty answer; the cube-only answer never comes out |
| LocateTheorems.PositionsAreOrdered | src/gruvax/estimator/algorithm.py:175-189 | positions inside a segment stay inside it and follow rank |
| LocateTheorems.SharedSpacing | src/gruvax/estimator/algorithm.py:178-183 | in a shared bin every record sits in the middle of its even slot of the segment |
| LocateTheorems.EdgeSpacing | src/gruvax/estimator/algorithm.py:184-188 | alone in a bin the first record sits on the left edge of its segment and the last on the right edge |
| LocateTheorems.EvenSpacing | src/gruvax/estimator/algorithm.py:186-187 | and every record in between sits half way between its neighbours, wherever in its label the cube starts |
| LocateTheorems.SpreadEvenly | src/gruvax/estimator/algorithm.py:175-189 | a label alone in a cube, continued or not: the band of the r-th of its n records there is centered on r / (n - 1), 0.05 to either side |
| LocateTheorems.SlotCentered | src/gruvax/estimator/algorithm.py:182-183 | in a shared cube the band is centered in the r-th of n even slots of the label's segment |
| LocateTheorems.OnlyRecordFillsCube | src/gruvax/estimator/algorithm.py:179-180 | the only record of its label gets the whole cube |
| LocateTheorems.ConfidenceBounds | src/gruvax/estimator/constants.py:56-86 | confidence lies in [0.30, 0.85], above 0.30 for two records or more |
| LocateTheorems.ConfidenceMonotone | src/gruvax/estimator/constants.py:56-63 | more records never lower the confidence |
| LocateTheorems.LocateOutcomes | src/gruvax/estimator/algorithm.py:192-321 | exactly two outcomes, the empty one exactly when the release is absent or precedes every cut; otherwise cube, span, band of width at least 0.05 and confidence as promised |
| LocateTheorems.BandsFollowOrder | src/gruvax/estimator/algorithm.py:175-189 | inside one bin positions follow shelf order within and across segments |
| LocateTheorems.LocatePreservesOrder | src/gruvax/estimator/algorithm.py:270-281 | a release that precedes another gets a cut no greater and, in one cube, a band that starts and ends no later |
| Crossings.ContinuesMeans | src/gruvax/estimator/segment_cache.py:443-444 | on an ordered shelf `continues` says exactly that a later bin has a segment of the label |
| Crossings.AnswerSpanMeans | src/gruvax/estimator/algorithm.py:273-278 | the span of an answer is exactly the cubes that hold a record of the label, by unit, row and column |
| Crossings.NextInSpanMeans | src/gruvax/estimator/algorithm.py:286-301 | the span entry after a bin's cube is the next bin with the label, empty and foreign bins skipped |
| Crossings.CrossingPointsToNextRecord | src/gruvax/estimator/algorithm.py:280-301 | a band crosses exactly at the right edge of a continuing segment, into the cube of the record at last rank + 1 |
| Crossings.AgreesWithIndexBaseline | src/gruvax/estimator/algorithm.py:324-466 | for a label alone in one bin the answer equals the frozen baseline's in cube, span, interval, crossing and confidence |
| Midpoint.SuggestMidpoint | src/gruvax/estimator/boundary_math.py:128-189 | the record half way between the anchors, on the first one's side when the gap is odd, and none exactly when an anchor is missing or nothing lies between |
| HighlightInvariant.StepKeepsInv | src/gruvax/mqtt/lifecycle.py:133-396 | every step of every task keeps the invariant |
| HighlightInvariant.LockFreeSafety | src/gruvax/mqtt/lifecycle.py:76-177 | in every reachable lock-free state lit cubes belong to registered highlights, every entry has a live revert task, at most 64 are registered |
| HighlightInvariant.CancelledTimersAreHarmless | src/gruvax/mqtt/lifecycle.py:165-170 | a reverting timer's highlight is registered and not cancelled; a cancelled timer that gets the lock changes neither registry nor broker |
| HighlightInvariant.ShutdownEmpties | src/gruvax/mqtt/lifecycle.py:355-396 | after shutdown the registry is empty and nothing delivered stays lit |
| HighlightExactness.DefaultModeIsExact | src/gruvax/mqtt/lifecycle.py:254-273 | in default mode with delivered publishes the lit cubes are exactly the sole highlight's, position payload on the primary and span payload elsewhere |
| HighlightRetention.NewHighlightShows | src/gruvax/mqtt/lifecycle.py:306-342 | in either mode, whatever is registered and whatever timers do meanwhile: once registered, the primary shows its position payload and the rest of the span its span payload |
| HighlightRetention.RetainLeavesOthers | src/gruvax/mqtt/lifecycle.py:274-306 | a retain-mode illuminate below the cap changes no cube outside its request |
| HighlightRetention.LiveTasksAreRegistered | src/gruvax/mqtt/lifecycle.py:254-304 | in every reachable state every task that is not cancelled belongs to a registered highlight |
| HighlightRetention.SpacedHighlightsAreExact | src/gruvax/mqtt/lifecycle.py:223-342 | in either mode or a mix of both, while highlights are lit only where none is registered: the lit cubes are exactly those of the registered highlights, each with its own payload |
| HighlightServices.CollectAffected | src/gruvax/mqtt/lifecycle.py:232-252 | the distinct cubes of primary and span, each once, primary first |
| HighlightServices.StatePublishes | src/gruvax/mqtt/publishers.py:214-275 | one retained payload per affected cube, the primary's winning over the span's |
| HighlightServices.HighlightService.Illuminate | src/gruvax/mqtt/lifecycle.py:223-342 | the critical section is a run of the protocol; default mode leaves only the new entry, retain mode evicts the oldest only at the cap; every delivered cube of the request shows its payload, every delivered cube of a cleared highlight is ambient, every other cube is unchanged |
| HighlightServices.HighlightService.RevertTimer | src/gruvax/mqtt/lifecycle.py:163-177 | the locked part of a revert is a run; afterwards timer and entry are gone, and exactly the delivered cubes of a registered highlight went dark |
| HighlightServices.HighlightService.CancelAndRevertAll | src/gruvax/mqtt/lifecycle.py:366-396 | shutdown is a run that ends with an empty registry; exactly the delivered cubes of registered highlights went dark |
| SnapshotPages.CheckedMeans | src/gruvax/discogsography/snapshot_pages.py:44-75 | a page that passes has rows that are objects, as many as offset, limit and total demand, has_more exactly when more is left, canonical identifiers, a well-formed token and an unexpired expiry |
| SnapshotPages.UuidShape | src/gruvax/discogsography/snapshot_pages.py:27-33 | identifiers pass in lower-case 8-4-4-4-12 form only |
| SnapshotPages.ExpiryShape | src/gruvax/discogsography/snapshot_pages.py:14 | expiries pass in UTC with exactly six decimals only |
| SnapshotPages.TokenShape | src/gruvax/discogsography/snapshot_pages.py:13 | tokens pass over the URL-safe alphabet with at most two equals signs at the end |
| PageClient.PinIsValidated | src/gruvax/discogsography/snapshot_pages.py:76-79 | the pin the page loop carries on is exactly what validate_page returns, and it raises where that raises |
| PageClient.IterPages | src/gruvax/discogsography/client.py:285-302 | the loop ends against any server, yields the reference walk, and asks for each page at the offset reached under the pin held |
| PageClient.WalkTiles | src/gruvax/discogsography/client.py:290-302 | whatever the server does, the pages yielded tile a prefix of the pinned range, all but the last full |
| PageClient.CompletedWalkIsWhole | src/gruvax/discogsography/client.py:290-302 | normal completion means one unchanged pin whose range [0, total) was delivered without gap or overlap |
| PageClient.WalkBreaks | src/gruvax/discogsography/snapshot_pages.py:76-78 | iteration fails only at a fetch that failed, was malformed or carried another pin |
| PageRetries.DoInnerRetry | src/gruvax/discogsography/client.py:201-262 | at most four calls; every one but the last met 429 or 5xx, and the loop stops at the first other reply |
| PageRetries.GetPage | src/gruvax/discogsography/client.py:136-177 | at most eight calls against any server, translated from the last reply |
| PageRetries.FetchIsUnique | src/gruvax/discogsography/client.py:109-132 | the replies determine how many calls a fetch makes |
| PageRetries.OnlyFailuresAreRetried | src/gruvax/discogsography/client.py:145-156 | every call but the last met 429, a 5xx status or a network failure, at most one of them a network failure |
| PageRetries.CallsMade | src/gruvax/discogsography/client.py:61-65 | one call when the first reply is final, four when 429 or 5xx does not stop, two when nothing answers |
| PageRetries.NothingIsGivenUpEarly | src/gruvax/discogsography/client.py:145-156 | a fetch ends in a retried failure only after four such replies in a row or two network failures |
| PageRetries.OutcomesMean | src/gruvax/discogsography/client.py:203-257 | every outcome says exactly which last replies it stands for |
| FakeServer.FakeApp.Prune | src/gruvax/_internal/fake_discogsography.py:128-130 | exactly the expired snapshots go |
| FakeServer.FakeApp.GetCollection | src/gruvax/_internal/fake_discogsography.py:121-174 | the handler's effect and reply: admission, expiry, scope, generation and slicing |
| FakeServer.TokenReplies | src/gruvax/_internal/fake_discogsography.py:142-153 | a token gets a page exactly when it is known, owned, unexpired and named with its generation; 410 exactly when it has expired, 409 otherwise; the server stays as it is |
| FakeServer.AdmissionMeans | src/gruvax/_internal/fake_discogsography.py:123-141 | a new snapshot is admitted exactly below 16 unexpired ones and 16 MiB, pins the present collection for 900 seconds and leaves the other unexpired ones |
| FakeServer.PageRows | src/gruvax/_internal/fake_discogsography.py:159-168 | a page holds the stored rows from the offset on, as many as the limit allows, and says whether more are left |
| FakeServer.RequestsKeepPins | src/gruvax/_internal/fake_discogsography.py:127-148 | no request of another client changes what a token names, and none removes it before it expires |
| FakeServer.ServeKeepsBounds | src/gruvax/_internal/fake_discogsography.py:131-137 | the server keeps unique tokens, at most 16 snapshots and its byte budget |
| PinnedSync.ServedAtOnce | src/gruvax/discogsography/client.py:226-241 | a reply of this server is never retried, and every refusal surfaces as a snapshot mismatch |
| PinnedSync.SyncIsExact | src/gruvax/_internal/fake_discogsography.py:147-164 | however seed, owner and other clients change between pages, the rows delivered are a prefix of the collection at the "new" request, and all of it on completion |
| PinnedSync.SyncCompletes | src/gruvax/_internal/fake_discogsography.py:131-160 | admitted, well formed and before expiry, the walk completes with every row |
| SyncRuns.EverySyncRuns | src/gruvax/discogsography/client.py:285-302 | every server, page size and course of events in between gives the page loop a run, so the two theorems above speak of all of them |
| CatalogPattern.EscapedIsPrefix | src/gruvax/db/queries.py:78-84 | an escaped text and a percent match exactly the strings that start with the text, and are never malformed |
| CatalogPattern.PatternsAreLiteral | src/gruvax/db/queries.py:87-114 | the catalog pattern matches exactly the strings that start with the collapsed, lower-cased query; the term pattern those that start with the trimmed one |
| Separators.OneCatalogNumber | src/gruvax/db/queries.py:72-77 | "BLP 4195", "BLP-4195" and "blp4195" are exact matches of one another |
| Separators.StripMeans | src/gruvax/db/queries.py:464-466 | what trimming takes away is white space at the two ends, and all of it |
| CatalogPattern.LockstepExactly | src/gruvax/db/queries.py:72-77 | query and column keys of one text agree exactly when it has none of the four separators only Python collapses |
| CatalogPattern.LockstepFails | src/gruvax/db/queries.py:72-77 | a catalog number with U+001C in it does not match its own pattern |
| Search.EverySearchAnswers | src/gruvax/db/queries.py:278-361 | every table, query and limit has an answer, so the promises below are about something |
| Search.ResultsAreRanked | src/gruvax/db/queries.py:330-361 | no release twice, ranks never increase, no more than the limit, each rank the best of its release over both paths' candidates |
| Search.ResortIsNoOp | src/gruvax/db/queries.py:484-489 | the closing sort in Python changes nothing |
| Search.RanksAreTiers | src/gruvax/db/queries.py:317-323 | rank 1.0, 0.9 and below 0.8 mean a kept exact match, a kept longer catalog number, text alone |
| Search.TiersAreOrdered | src/gruvax/db/queries.py:278-361 | exact matches precede longer catalog numbers, which precede text-only matches |
| SearchLimits.BestExactlyWithoutCrowd | src/gruvax/db/queries.py:304-361 | every answer shows every result at its best score over all matches of both paths exactly when no release matched by both can be crowded out by fewer than `limit` others |
| SearchLimits.FewMatchesAreBest | src/gruvax/db/queries.py:317-330 | with at most 20 catalog matches every answer is at its best |
| SearchLimits.DefaultLimitIsBest | src/gruvax/db/queries.py:317-361 | with one row per release and a limit of at most 20 every answer is at its best |
| SearchLimits.ManyMatchesLose | src/gruvax/db/queries.py:304-361 | with 21 to 40 one-folder releases matching both ways and a limit that takes them all, every answer has a result below its best |
| SearchLimits.TwentyOneMatchesLose | src/gruvax/db/queries.py:304-361 | such an input: 21 releases with the catalog number of the query |
| Search.ExactMatchesFirst | src/gruvax/db/queries.py:317-361 | if at most min(limit, 20) rows match exactly, all their releases come first |
| Activity.ActivityStore.IncrementRecordActivity | src/gruvax/db/queries.py:1384-1410 | one transaction upserts the totals, prunes the profile's expired events, logs the event and refreshes the cached counts |
| Activity.LogIsRecentHistory | src/gruvax/db/queries.py:1397-1402 | the recent events of the pruned log are those of the whole history, in order |
| Activity.PruningMeans | src/gruvax/db/queries.py:1397-1402 | an increment removes from the log exactly the events of its own profile that are seven days old or older |
| Activity.WindowsAreExact | src/gruvax/db/queries.py:1486-1501 | seven-day counts read from the log equal those over the full history since the reset |
| Activity.WindowMeans | src/gruvax/db/queries.py:1376-1381 | a windowed count is the number of the record's events of that kind less than 604800 seconds old |
| Activity.CacheIsExact | src/gruvax/db/queries.py:1376-1381 | the counts cached by an increment are those of the full history at that moment |
| Activity.CacheStays | src/gruvax/db/queries.py:1376-1381 | and they stay what they were at the record's last increment, whatever other records do |
| Activity.LifetimeIsConserved | src/gruvax/db/queries.py:1361-1373 | a lifetime counter is the total carried over plus every event of the record since |
| Activity.TotalsMean | src/gruvax/db/queries.py:1361-1373 | search_count counts the record's searches and selection_count its selections since, each event once |
| Activity.LastTimesAreExact | src/gruvax/db/queries.py:1364-1372 | last_searched_at and last_selected_at are the times of the record's last search and last selection |
| Activity.LifetimeCoversLog | src/gruvax/db/queries.py:1361-1410 | a lifetime counter is never below the retained events or the window |
| ShelfAddress.RowLetter | frontend/src/lib/shelf.ts:9-15 | the loop ends for every index with the letters of index + 1 |
| ShelfAddress.LettersRoundTrip | frontend/src/lib/shelf.ts:8-15 | letters read back as their row: no two rows share letters |
| ShelfAddress.ValueRoundTrip | frontend/src/lib/shelf.ts:8-15 | every word over A to Z is the letters of its value |
| ShelfAddress.LettersIncrease | frontend/src/lib/shelf.ts:8-15 | later rows have later letters, shorter words first |
| ShelfAddress.SingleLetters | frontend/src/lib/shelf.ts:8-15 | the first 26 rows carry the alphabet, the next one AA |
| ShelfAddress.UnitRowOffset | frontend/src/lib/shelf.ts:18-25 | the loop sums the rows of the units in front, 0 for an unknown unit |
| ShelfAddress.UnitsStandInOrder | frontend/src/lib/shelf.ts:3-6 | units stand by their ordering, units with the same ordering by their id |
| ShelfAddress.RowRangesAreDisjoint | frontend/src/lib/shelf.ts:17-25 | units occupy disjoint row ranges |
| ShelfAddress.RowsAreCovered | frontend/src/lib/shelf.ts:17-25 | rows are numbered without gaps |
| ShelfAddress.CubeAddress | frontend/src/lib/shelf.ts:28-30 | the address is the letters of the cumulative row and the column counted from one |
| ShelfAddress.FirstCube | frontend/src/lib/shelf.ts:28-30 | the top left cube of the first unit is A1 |
| ShelfAddress.AddressesAreUnique | frontend/src/lib/shelf.ts:27-30 | cubes inside their units share an address only if they are the same cube |
| ShelfAddress.LettersFollowShelf | frontend/src/lib/shelf.ts:3-25 | a later unit, or a lower row of one unit, has later letters |
| BoundaryDocument.ParseOverrides | src/gruvax/io/boundary_yaml.py:106-122 | the loop yields the overrides in order or the error of the first bad one |
| BoundaryDocument.SerializeBoundaries | src/gruvax/io/boundary_yaml.py:162-181 | the loop builds the document of the entries sorted by address |
| BoundaryRoundTrip.CubesAreSorted | src/gruvax/io/boundary_yaml.py:163-180 | the document lists each entry once, by unit, row and column, under version 1 |
| BoundaryRoundTrip.AddressKeys | src/gruvax/io/boundary_yaml.py:164-169 | a cube's address and emptiness are found under their four keys |
| BoundaryRoundTrip.OverridesAreSorted | src/gruvax/io/boundary_yaml.py:172-173 | overrides are written alphabetically by label |
| BoundaryRoundTrip.ParsedIsValid | src/gruvax/io/boundary_yaml.py:55-140 | any document that parses yields one entry per cube, addresses in range, overrides in (0, 1] under distinct non-blank labels |
| BoundaryRoundTrip.AcceptedExactly | src/gruvax/io/boundary_yaml.py:83-140 | a cube is accepted exactly when it is a mapping with whole numbers in range for its address, a boolean is_empty, texts or nulls for the cut, and overrides in (0, 1] under non-blank texts |
| BoundaryRoundTrip.RefusedForFirstBad | src/gruvax/io/boundary_yaml.py:80 | a list of cubes is refused for its first bad cube |
| BoundaryRoundTrip.CubeRoundTrip | src/gruvax/io/boundary_yaml.py:125-140 | a serialized cube parses to the entry's canonical form |
| BoundaryRoundTrip.SerializeThenParse | src/gruvax/io/boundary_yaml.py:143-181 | parsing a serialized list gives the canonical entries sorted by address |
| BoundaryRoundTrip.CubeSurvivesExactly | src/gruvax/io/boundary_yaml.py:83-173 | a serialized entry parses back to itself exactly when its address and overrides are in range and an empty cube carries nothing |
| BoundaryRoundTrip.ListSurvivesExactly | src/gruvax/io/boundary_yaml.py:12-14 | a list comes back as the same entry set, sorted by address, exactly when that holds of every entry |
| BoundaryRoundTrip.UnitZeroIsRefused | src/gruvax/io/boundary_yaml.py:93-95 | a list that does not survive: unit zero |
| BoundaryRoundTrip.BlankLabelIsRefused | src/gruvax/io/boundary_yaml.py:110-112 | a list that does not survive: a blank override label |
| BoundaryRoundTrip.EmptyCutIsLost | src/gruvax/io/boundary_yaml.py:152-173 | a list that does not survive: an empty cube with a cut |
| BoundaryRoundTrip.SerializeIsStable | src/gruvax/io/boundary_yaml.py:146-150 | serializing the parsed document gives the same document |
| BoundaryRoundTrip.DocumentIgnoresOrder | src/gruvax/io/boundary_yaml.py:146-150 | with distinct addresses the document does not depend on the order of the entries |
| BoundaryRoundTrip.CanonicalIgnoresOrder | src/gruvax/io/boundary_yaml.py:172-173 | nor on the order in which overrides were entered |

## Left out

- SegmentCaching.SegmentCache.Derive: fractions are reals, so the 1e-6 tolerance of the sum is only met exactly; floating-point rounding is not modelled, and neither are the log messages.
- Crossings.CrossingPointsToNextRecord: stated for shelves whose cuts do not decrease along the physical walk; on a disordered shelf the span is sorted by coordinates and the code only warns.
- HighlightRetention.SpacedHighlightsAreExact: overlapping highlights in retain mode revert independently, so a cube they share may be dark while one of them is still registered; of it only "lit implies registered" and what each critical section leaves are stated.
- HighlightServices.HighlightService.Illuminate: the ambient publishes of one highlight are taken one after the other, each delivered or not; the command topics, brightness, colours and degraded mode without a client are not part of this model.
- FakeServer.FakeApp.GetCollection: authorized requests that name a snapshot; bearer tokens, the magic error tokens and unpinned requests are not modelled.
- PageRetries.GetPage: attempts and outcomes, not the waiting times or the Retry-After header.
- Search.RanksAreTiers: full-text scores are an arbitrary function with values in [0, 0.8); stemming, the did-you-mean suggestion and the choice between the two query texts are not modelled.
- CatalogPattern.LockstepExactly: the database's `\s` is taken to be the six ASCII white-space characters.
- Activity.WindowsAreExact: each operation is one transaction with one clock reading; the ranking of get_top_searched is not modelled.
- BoundaryRoundTrip.SerializeThenParse: documents are trees; writing and reading YAML text is taken to be the identity on them, and int() and float() to be faithful on numbers.
- Normalize.NormalizeMeans: text is ASCII, so NFKC normalization and full casefolding are identities or lower-casing.
- Sampling of records in a bin and the display name, dimensions and bin number of a unit: short index arithmetic.
- Database access, HTTP routes, settings, events, the diagnostic sweep and the all-off command: no state machine of their own, or outside the registry lock.
- The CSV form of boundaries, the admin write paths and profile synchronization: not part of this model.
