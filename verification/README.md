# Verified model of the OSM polygon description dataset tools

The repository builds, deduplicates, repairs, annotates and publishes a dataset of OpenStreetMap
polygons that carry description text. This project models the parts of it that have a crash or retry
protocol, a fast form that must equal a simple form, or real arithmetic, and proves for all inputs and
all runs what those parts are for. `dafny verify dfyconfig.toml` checks everything.

| file | what it models |
|---|---|
| `Antimeridian.dfy` | unwrapping a ring across the antimeridian, cutting it into slabs, and the area that this conserves |
| `TextPolicy.dfy` | the text contract, as a Python predicate and as a SQL expression under three-valued logic |
| `CanonicalRows.dfy` | the ranking of duplicate rows, the Python selection, and the queries that implement it |
| `Dataset.dfy`, `Staging.dfy`, `SharedSources.dfy` | finalized artifacts, what a deduplication pass stages for them, and what that keeps when files share or mix sources |
| `Deduplication.dfy`, `DataRoot.dfy` | the resumable promotion: as traces of durable steps, and as the program that makes them |
| `DeduplicationRecords.dfy`, `PromotionOrder.dfy` | the numbers that a pass records and reports, and the order within a promoted pair |
| `Schema.dfy`, `ListColumns.dfy`, `BatchWriter.dfy` | key/value columns, the flattened-key test, and the row and batch writers |
| `LanguageUpload.dfy` | the guarded publication protocol |
| `LogRotation.dfy`, `RunLogger.dfy` | log rotation over names and files, and the logger that performs it |
| `TextMigration.dfy` | text repair, and healing after an interrupted one |
| `CopyText.dfy` | PostgreSQL COPY text records (PostgreSQL manual, COPY, "Text Format") |
| `Checkpoint.dfy` | shard checkpoints and receipt chains |
| `LanguageCard.dfy`, `CardRules.dfy`, `Substrings.dfy` | the generated section of the dataset card, and which cards take it where |
| `GridPolicy.dfy` | the submission window and the verdict on a job |
| `Wrappers.dfy`, `TextOrder.dfy`, `SortedText.dfy`, `Counts.dfy`, `ByteText.dfy` | shared notions: options, code-point order, sorted sets of texts, sums of counters, bytes |

## How the model is built

**Programs and specifications.** What the source computes with expressions is a function here. What it does
step by step is a method or a class whose contracts tie every result and every new state to such a
function; the lemmas are about the functions.

**Crashes.** Deduplication, text repair, publication and log rotation are described by their durable steps:
atomic writes, renames, links, unlinks and uploads, each one step. A kill may come between any two steps,
any number of times, and is followed by a new invocation. The classes carry a ghost journal (or list of
actions, or log of events) of the steps they make, and their contracts say that it is what the
specification allows; so the results about histories hold at every point of the programs.
Until a staging directory is named by the recorded state, its contents after a kill are arbitrary.

**Assumptions, and where they stand in the statements.**

- Digests determine contents: a digest is a constructor around the content. File sizes add nothing to that and are not modelled.
- A row fingerprint is an arbitrary injective function of the payload, with maps and geometries already in their canonical form (`Injective(fp)`). Results about the Python policy or about a query alone hold for each such function. The two spell their fingerprints differently, and may then choose different rows among ties in version, timestamp and source, and only among those (`DigestsAgreeExactlyWithoutTies`).
- A database engine may number tied rows in any way: results about queries are for every admissible numbering.
- Deduplication starts from a dataset that passes the program's own validations, with no pass under way (`ValidOrigin`), and nobody else writes to it between invocations. What each file holds after a pass is stated for files of distinct sources (`SeparateSources`), and what all of them hold together also without that.
- Longitudes and latitudes in the antimeridian code are exact reals. In the writers, the columns other than the lists, the geometry type and the bounds are carried over unread (`rest`), so cast and row-wise conversion are equal on them by construction; doubles keep their infinities, not-a-number and two zeros apart.
- Codecs, integer and JSON parsing are parameters of the COPY parser. The one law used about them is that on ASCII bytes `int` gives the same before and after decoding (`IntegersAgree`).
- A rendered card section contains its heading exactly once and neither marker (`Renderable`).
- The clock is any zone one or two hours ahead of UTC that changes only at 01:00 UTC on Sundays, which covers daylight saving in Europe/Paris.

**Where the code and its description part.** For each the exact condition is proved for all inputs, and a concrete input on which the description fails is given.

- `canonical_rows_with_text_flag_sql` says that its flag is true exactly for certain rows. As sets of rows that is proved (`SinglePassIsBothQueries`). A returned row can carry both flags if and only if it has text, is canonical and stands in the relation twice (`BothFlagsExactlyForRepeatedRows`; `TwoCopiesCarryBothFlags` is such a relation).
- Log rotation is described as bounded and atomic, although an interruption may leave a staging file. Every file reaches the backups if and only if no kill falls between unlinking the active name and moving the staging name (`CalmExactlyWhenAllArchived`; `ARotationCanBeKilled` is such a run). Without such a kill the backups and the active file are the end of everything logged whenever no rotation is in that stretch (`CalmRunsRetainTheEnd`); after one the full file keeps its staging name for good (`KilledRotationStrandsTheFile`).
- As for the bound, every kill between the link and the move of the staging name leaves one name, also where no file is lost (`StagingNamesAreLeftovers`; `AKilledLinkLeavesAName` is such a run, and `CalmRunsLeaveNames` repeats it). The directory has at most two names beside the backups and one more for each such kill (`DirectoryIsBounded`), which is reached from every state (`TheBoundIsReached`); so it stays within two names beside the backups if and only if there was no such kill (`BoundedExactlyWithoutLeftovers`).
- The log is described as rotated at a fixed size. A file had room before its last line, now and after the next reopening and line, if and only if no kill left a full file under its active name, since reopening does not rotate (`WithinLimitExactlyWhenNoneLeftFull`).
- `split_antimeridian` promises closed local rings in place of world-spanning segments. Its rings have no edge over half the world if and only if the unwrapped ring's closing edge has no part over half the world inside a slab (`PiecesStayLocalExactlyWhenRingCloses`). A ring around a pole fails that (`PolarRingDoesNotCloseLocally`); a ring whose turns cancel does not (`CancellingTurnsCloseLocally`).
- A deduplication pass is described as keeping one canonical row for each identity. Whether each canonical row stands once and no other row stands after it is decided source by source (`EachCanonicalRowOnceExactlyWhen`). The validations at its start do not ensure it. They do not compare rows with their manifest's source, so the pass can lose canonical rows (`SwappedSourcesLoseRows`). Where rows match their manifests it loses none (`OwnSourcesLoseNothing`), but may keep one twice (`TwoCopiesBothStay`): it is right if and only if every source has at most one non-empty file, or no canonical row, or files that are deduplicated already (`OwnSourcesAreRightExactlyWhen`).
- The record of a pass gives input rows, output rows and duplicates. The input rows are right, the duplicates are the difference, and the output rows are those of the promoted files if and only if no file holds fewer rows than its source has canonical rows (`RecordIsRight`), as with one file for each source (`SeparateSourcesAreCounted`). Otherwise rows are counted once for each file of the source, and duplicates can be negative (`SplitSourceIsOvercounted`).
- Healing is described as refusing a Parquet with more rows than recorded before either file is written. A run refuses and writes nothing if and only if such a Parquet's text is already clean (`RefusalExactlyOnCleanText`); otherwise it writes first and refuses from the next run on (`UntidyArtifactIsWrittenFirst`). Repairs come to rest if and only if the manifest records at least as many rows as there are (`RepairSettlesExactlyWhenRowsAreRecorded`).

## Model

| member | source | states |
|---|---|---|
| `Antimeridian.ClipLongitude` | src/osm_polygon_description_tag/dataset/geography/h3_policy.py:192-230 | The clipping loop returns the clipped ring whose vertices, edges and area the lemmas below determine, for either side of the boundary. |
| `Antimeridian.ClipSum` | src/osm_polygon_description_tag/dataset/geography/h3_policy.py:192-246 | For every edge measure that vanishes on the boundary, the closed sum over the clipped ring is the sum over the kept parts of the original edges; so no edge is lost, doubled or turned round by the clipping. |
| `Antimeridian.ClipVertices` | src/osm_polygon_description_tag/dataset/geography/h3_policy.py:192-246 | The vertices of a clipped ring are exactly its kept vertices and, for each edge whose ends lie on different sides, the point of that edge on the boundary. |
| `Antimeridian.ClipCount` | src/osm_polygon_description_tag/dataset/geography/h3_policy.py:192-246 | A clipped ring has as many vertices as the ring has kept vertices and edges that change sides. |
| `Antimeridian.ClipEdges` | src/osm_polygon_description_tag/dataset/geography/h3_policy.py:192-246 | Every edge of a clipped ring is a stretch of an edge of the ring, in its direction, or runs along the boundary. |
| `Antimeridian.CutConservesArea` | src/osm_polygon_description_tag/dataset/geography/h3_policy.py:192-246 | Clipping a closed ring on both sides of a longitude gives two rings whose signed areas add up to that of the ring, including rings that cross the longitude many times. |
| `Antimeridian.NestedClipArea` | src/osm_polygon_description_tag/dataset/geography/h3_policy.py:178-189 | Clipping at a nearer longitude first does not change the area beyond a farther one. |
| `Antimeridian.SlabArea` | src/osm_polygon_description_tag/dataset/geography/h3_policy.py:178-189 | The area of a ring clipped to a slab is the difference of the areas beyond its two edges. |
| `Antimeridian.SlabBounds` | src/osm_polygon_description_tag/dataset/geography/h3_policy.py:178-189 | Every point of a clipped slab lies between the slab's two edges. |
| `Antimeridian.SlabStaysOnRing` | src/osm_polygon_description_tag/dataset/geography/h3_policy.py:178-189 | Every vertex of a ring clipped to a slab lies on an edge of the ring. |
| `Antimeridian.SlabKeepsVertices` | src/osm_polygon_description_tag/dataset/geography/h3_policy.py:178-189 | Every vertex of the ring stands in the ring clipped to its slab. |
| `Antimeridian.ShiftKeepsArea` | src/osm_polygon_description_tag/dataset/geography/h3_policy.py:131-139 | Shifting a ring back by whole turns keeps its signed area. |
| `Antimeridian.DegenerateRingHasNoArea` | src/osm_polygon_description_tag/dataset/geography/h3_policy.py:131-139 | The rings of fewer than three points that the split drops have area zero. |
| `Antimeridian.SlabsConserveArea` | src/osm_polygon_description_tag/dataset/geography/h3_policy.py:113-139 | Cutting any non-empty ring through all slabs of its range conserves the signed area: a telescoping sum over slabs of clipped and shifted rings. |
| `Antimeridian.SlabIndex` | src/osm_polygon_description_tag/dataset/geography/h3_policy.py:173-175 | The slab of a longitude is the one whose half-open interval contains it. |
| `Antimeridian.SlabRange` | src/osm_polygon_description_tag/dataset/geography/h3_policy.py:168-170 | The slab range covers every point of the ring. |
| `Antimeridian.RingsForSlabs` | src/osm_polygon_description_tag/dataset/geography/h3_policy.py:131-139 | The slab loop returns the rings of all slabs of the range, each clipped, shifted back, and kept only when it has at least three points. |
| `Antimeridian.RingsAreDrawable` | src/osm_polygon_description_tag/dataset/geography/h3_policy.py:131-139 | Every ring produced has at least three points, and all its longitudes lie within the map. |
| `Antimeridian.OnlyTheClosingEdgeJumps` | src/osm_polygon_description_tag/dataset/geography/h3_policy.py:178-246 | When all steps but the closing one are small, the clipped ring of a slab has exactly one edge over half the world if the closing edge spans more than that inside the slab, and none otherwise. |
| `Antimeridian.PiecesStayLocalExactlyWhenRingCloses` | src/osm_polygon_description_tag/dataset/geography/h3_policy.py:113-139 | The pieces are drawn without a segment over half the world if and only if the closing edge of the unwrapped ring spans at most half the world inside each slab. |
| `Antimeridian.CancellingTurnsCloseLocally` | src/osm_polygon_description_tag/dataset/geography/h3_policy.py:113-139 | That is so whenever the turns of the ring cancel, so that the unwrapped ring closes within half the world. |
| `Antimeridian.PolarRingDoesNotCloseLocally` | src/osm_polygon_description_tag/dataset/geography/h3_policy.py:113-120 | Four points around a pole form a crossing ring that is its own unwrapping and does not close locally, so it is drawn with a world-spanning segment. |
| `Antimeridian.WindingRingCanCloseLocally` | src/osm_polygon_description_tag/dataset/geography/h3_policy.py:113-120 | A ring whose turns do not cancel can close locally all the same, where the edge of the world cuts its closing edge. |
| `Antimeridian.TurnsFrom` | src/osm_polygon_description_tag/dataset/geography/h3_policy.py:148-165 | Each longitude is turned to within half a world of the previous one, an exact tie going west. |
| `Antimeridian.UnwrappedIsTheUnwrapping` | src/osm_polygon_description_tag/dataset/geography/h3_policy.py:148-165 | The unwrapping is the only sequence that visits the same places and never moves half a world or more east, or more than half a world west, in one step. |
| `Antimeridian.UnwrapPoints` | src/osm_polygon_description_tag/dataset/geography/h3_policy.py:148-165 | The unwrapping loop returns that unwrapping. |
| `Antimeridian.SplitAntimeridian` | src/osm_polygon_description_tag/dataset/geography/h3_policy.py:113-128 | Rings that do not cross come back unchanged; for crossing rings the areas of the returned rings sum to the signed area of the unwrapped ring, each ring is drawable, every vertex of it lies on the unwrapped ring once it is moved back to its slab, and no edge of any of them, closing edges included, spans more than half the world if and only if the unwrapped ring closes locally. |
| `TextPolicy.TrimMeaning` | src/osm_polygon_description_tag/dataset/text.py:50-69 | Trimming removes exactly the white space at both ends, and nothing from a text that has none there. |
| `TextPolicy.TrimmedNonemptyTextMeaning` | src/osm_polygon_description_tag/dataset/text.py:59-64 | A text is unusable exactly when it is nothing but white space; otherwise it is stored without the white space at its ends, and with nothing else gone. |
| `TextPolicy.SqlTrimsWhatPythonStrips` | src/osm_polygon_description_tag/dataset/text.py:14-51 | The characters that the SQL trim is given are exactly those that Python strips. |
| `TextPolicy.LocalizedAgrees` | src/osm_polygon_description_tag/dataset/text.py:72-95 | The localized list is refused exactly when some unnested value is null, empty or untrimmed. |
| `TextPolicy.UsableAgrees` | src/osm_polygon_description_tag/dataset/text.py:117-143 | The SQL test for a usable value and the one for an unusable value are exact opposites and never NULL, although their parts can be. |
| `TextPolicy.SqlAgreesWithPython` | src/osm_polygon_description_tag/dataset/text.py:98-148 | Under three-valued logic the SQL predicate never evaluates to NULL and equals the Python predicate on every row with any nulls. |
| `CanonicalRows.SqlOrderIsPythonOrder` | src/osm_polygon_description_tag/dataset/canonical_rows.py:125-135 | The ORDER BY expression and the Python key tuple, each with its own digest, rank two rows alike, nulls included, exactly when version, timestamp and source tell them apart or the digests order their payloads alike. |
| `CanonicalRows.RankingMeaning` | src/osm_polygon_description_tag/dataset/canonical_rows.py:185-192 | The higher version ranks first, then the later timestamp, a missing one last in each case, then the lesser source and the lesser digest. |
| `CanonicalRows.DigestsAgreeExactlyWithoutTies` | src/osm_polygon_description_tag/dataset/canonical_rows.py:125-192 | The same rows are chosen under every injective digest, so by the Python policy and by the query, if and only if no eligible row of the best version, timestamp and source of its identity ties with a different eligible one. |
| `CanonicalRows.BeforeIsStrictOrder` | src/osm_polygon_description_tag/dataset/canonical_rows.py:185-192 | The ranking is irreflexive, transitive and asymmetric. |
| `CanonicalRows.UnrankedRowsAreEqual` | src/osm_polygon_description_tag/dataset/canonical_rows.py:125-135 | Two rows of one identity that the ranking does not separate are the same row. |
| `CanonicalRows.CanonicalCoversIdentities` | src/osm_polygon_description_tag/dataset/canonical_rows.py:146-163 | There is one canonical row for each identity that has an eligible row, and none for any other identity. |
| `CanonicalRows.CanonicalDecomposes` | src/osm_polygon_description_tag/dataset/canonical_rows.py:107-163 | canon(A+B) = canon(canon(A)+canon(B)) in both modes. |
| `CanonicalRows.CanonicalIdempotent` | src/osm_polygon_description_tag/dataset/canonical_rows.py:107-163 | Selecting among selected rows drops nothing. |
| `CanonicalRows.SelectionIsCanonical` | src/osm_polygon_description_tag/dataset/canonical_rows.py:146-163 | The Python selection over one identity group returns the canonical row, and fails exactly when no row is eligible. |
| `CanonicalRows.SelectionIgnoresOrder` | src/osm_polygon_description_tag/dataset/canonical_rows.py:146-163 | The selection depends on which rows there are, not on their order or repetition. |
| `CanonicalRows.QueryIsCanonical` | src/osm_polygon_description_tag/dataset/canonical_rows.py:195-232 | Whatever row numbering the engine picks among ties, the query returns the canonical rows, filtered before ranking when text is required, and no two rows of one identity. |
| `CanonicalRows.SinglePassIsBothQueries` | src/osm_polygon_description_tag/dataset/canonical_rows.py:240-268 | The single ranked pass returns the union of the plain and the text-aware canonical rows, its flag is true on exactly the rows of the text-aware query, and no two returned rows have one identity and one flag, for every relation and every numbering. |
| `CanonicalRows.BothFlagsExactlyForRepeatedRows` | src/osm_polygon_description_tag/dataset/canonical_rows.py:240-268 | Some numberings that the engine may choose return a row with both flags if and only if the row has text, is canonical, and stands in the relation twice. |
| `CanonicalRows.TwoCopiesCarryBothFlags` | src/osm_polygon_description_tag/dataset/canonical_rows.py:256-267 | A relation of two equal rows, and two numberings of it that are admissible, under which the row comes back with both flags. |
| `Dataset.OrderedRowsMeaning` | src/osm_polygon_description_tag/dataset/deduplication.py:251-258 | The rows written for one source are exactly the selected rows, each once, in increasing identity. |
| `Staging.FileHoldsSelection` | src/osm_polygon_description_tag/dataset/deduplication.py:343-387 | After promotion each file holds exactly the canonical rows of its source, a subset of its old rows without a repeated identity; a file left alone already did. |
| `Staging.PromotedIsCanonical` | src/osm_polygon_description_tag/dataset/deduplication.py:390-412 | The promoted dataset is the set of canonical rows, one for each identity, over the same identities as before. |
| `SharedSources.EachCanonicalRowOnceExactlyWhen` | src/osm_polygon_description_tag/dataset/deduplication.py:343-412 | On every dataset that passes the validations, whatever its sources: after the pass each canonical row stands exactly once in all files, and no other row does, if and only if for each source either no row is canonical and no row of it is in a file left alone, or one file is rewritten for it and no row of it is in a file left alone, or none is rewritten and the files left alone hold its canonical rows once each and no other row of it. |
| `SharedSources.OwnSourcesAreRightExactlyWhen` | src/osm_polygon_description_tag/dataset/deduplication.py:343-412 | When the rows of each file have its manifest's source, that holds if and only if every source has at most one non-empty file, or no canonical row left, or files whose rows are all canonical with no row in two of them. |
| `SharedSources.OwnSourcesLoseNothing` | src/osm_polygon_description_tag/dataset/deduplication.py:343-412 | When the rows of each file have its manifest's source, every canonical row stands in the promoted dataset, in one file or several. |
| `SharedSources.SwappedSourcesLoseRows` | src/osm_polygon_description_tag/dataset/deduplication.py:269-277 | A dataset of two files whose manifests name each other's source passes the validations, and the pass loses two of its three canonical rows. |
| `SharedSources.TwoCopiesBothStay` | src/osm_polygon_description_tag/dataset/deduplication.py:269-277 | A dataset of two files of one source with the same row passes the validations, its rows match their manifests, and the pass keeps the row in both files. |
| `Staging.IdentitiesAreGloballyUnique` | src/osm_polygon_description_tag/dataset/deduplication.py:390-412 | No identity occurs twice anywhere in the promoted dataset. |
| `Staging.RowsAreConserved` | src/osm_polygon_description_tag/dataset/deduplication.py:390-412 | Input rows are output rows plus the rows dropped file by file, and the output rows counted file by file are those of the promoted files. |
| `Staging.RewrittenManifestBalances` | src/osm_polygon_description_tag/dataset/validation.py:97-100 | A rewritten manifest keeps emitted = included + sum of rejections. |
| `Staging.PromotionKeepsBalance` | src/osm_polygon_description_tag/dataset/validation.py:97-100 | Promotion keeps every manifest balanced, files exactly the rows that are gone under the duplicate reason, and leaves its source, emitted count and other fields as they were. |
| `Staging.PromotedIsValidated` | src/osm_polygon_description_tag/dataset/deduplication.py:269-277 | A promoted dataset passes the validations that the next pass starts with. |
| `Staging.SecondPassStagesNothing` | src/osm_polygon_description_tag/dataset/deduplication.py:390-412 | Deduplicating the result again, without any recorded state, stages nothing. |
| `Deduplication.UnderWayIsNoDrift` | src/osm_polygon_description_tag/dataset/deduplication_state.py:56-87 | The drift check accepts every state in which some recorded artifacts are promoted and the others are not. |
| `Deduplication.DriftIsRefusedExactly` | src/osm_polygon_description_tag/dataset/deduplication.py:89-108 | A recorded pass is refused, with nothing changed, if and only if some file is missing, new, or holds neither what it did nor what the pass staged for it; the error names exactly those files. Without such a file it is refused for a missing staging directory exactly when that is missing. |
| `Deduplication.PromotedHashesAreReal` | src/osm_polygon_description_tag/dataset/deduplication.py:109-118 | The output hashes recorded without rereading are the hashes of the files after promotion. |
| `Deduplication.PromotionPromotesAll` | src/osm_polygon_description_tag/dataset/deduplication.py:133-187 | From any state of a promotion, promoting all entries succeeds and ends with every artifact in place. |
| `Deduplication.MissingArtifactIsNamed` | src/osm_polygon_description_tag/dataset/deduplication.py:133-187 | Promotion fails exactly when some artifact is neither staged nor in place with its recorded digest, and names the first of them. |
| `Deduplication.RunCompletes` | src/osm_polygon_description_tag/dataset/deduplication.py:517-545 | From every recoverable disk a whole invocation reaches the target without an error. |
| `Deduplication.FreshRunFailsExactlyWhen` | src/osm_polygon_description_tag/dataset/deduplication.py:302-341 | With no pass on record an invocation fails exactly on invalid artifacts, or on rows of unknown sources when there is something to do, and then changes neither files nor record. |
| `Deduplication.NeedsPassMeaning` | src/osm_polygon_description_tag/dataset/deduplication.py:125-130 | A pass is needed unless a complete one is on record under the same policy and with exactly the files and hashes that are there. |
| `Deduplication.KilledRunsAreRecoverable` | src/osm_polygon_description_tag/dataset/deduplication.py:499-545 | Every disk in every history of killed invocations is recoverable. |
| `Deduplication.KillsAreHarmless` | src/osm_polygon_description_tag/dataset/deduplication.py:89-228 | After any number of kills between any two steps a whole invocation succeeds and leaves exactly the data, manifests and record of one uninterrupted invocation. |
| `Deduplication.FurtherRunChangesNothing` | src/osm_polygon_description_tag/dataset/deduplication.py:280-292 | A further invocation reports skipped and changes nothing. |
| `Deduplication.TargetIsPromoted` | src/osm_polygon_description_tag/dataset/deduplication.py:427-489 | What is left is the promoted dataset, recorded as complete with its real input and output hashes, and no staging directory. |
| `Deduplication.StagedPassKeepsItsDirectory` | src/osm_polygon_description_tag/dataset/deduplication.py:499-514 | While a pass is recorded as staged its directory exists, in every reachable state, and the sweep does not touch it. |
| `PromotionOrder.NewManifestsDescribeTheirParquets` | src/osm_polygon_description_tag/dataset/deduplication.py:150-168 | At every instant of every killed history a manifest is the old one or describes the Parquet that stands beside it: Parquets are promoted first. |
| `DeduplicationRecords.RecordIsRight` | src/osm_polygon_description_tag/dataset/deduplication.py:427-443 | After any kills the record counts the rows that went in and those that stay, their difference, and one entry for each changed file with its lost rows and new digests; too many rows are counted as staying if and only if some file holds fewer rows than its source has canonical rows. |
| `DeduplicationRecords.ReportIsRight` | src/osm_polygon_description_tag/dataset/deduplication.py:207-228 | After any kills an invocation reports the numbers of the record that it leaves and the number of files that changed, as deduplicated exactly when it carries out a pass that changes a file. |
| `DeduplicationRecords.IdleRunReports` | src/osm_polygon_description_tag/dataset/deduplication.py:261-312 | With nothing to do an invocation reports what is on record, or zeros without any file, and only sweeps orphans. |
| `DeduplicationRecords.SeparateSourcesAreCounted` | src/osm_polygon_description_tag/dataset/deduplication.py:390-443 | With one file for each source, whose rows it holds, the recorded numbers are those of the files. |
| `DeduplicationRecords.SplitSourceIsOvercounted` | src/osm_polygon_description_tag/dataset/deduplication.py:390-443 | A dataset of two files of one source with one row each passes the validations, and four rows are recorded as staying and minus two as duplicates. |
| `DataRoots.DataRoot.SweepOrphanStageEntries` | src/osm_polygon_description_tag/dataset/deduplication.py:499-514 | The sweep removes every staging directory but the recorded one; the disks in between differ only in orphans. |
| `DataRoots.DataRoot.PromoteArtifact` | src/osm_polygon_description_tag/dataset/deduplication.py:133-147 | A staged artifact is moved over its target; one already moved is accepted by its hash; otherwise the missing artifact is an error and nothing changes. |
| `DataRoots.DataRoot.PromoteStaged` | src/osm_polygon_description_tag/dataset/deduplication.py:170-187 | Parquet and manifest of every entry are promoted in order, one durable step each, as the specification's trace says. |
| `DataRoots.DataRoot.ResumeStaged` | src/osm_polygon_description_tag/dataset/deduplication.py:207-228 | Check the inputs, promote, record completion, then drop the directory: result, final disk and every durable step are those of the trace. |
| `DataRoots.DataRoot.StageSource` | src/osm_polygon_description_tag/dataset/deduplication.py:343-387 | One source is staged as specified, and until the state is written only unreferenced directories change. |
| `DataRoots.DataRoot.StageChanges` | src/osm_polygon_description_tag/dataset/deduplication.py:390-412 | All sources are staged, with the entries and row counts of the specification. |
| `DataRoots.DataRoot.FinishDeduplication` | src/osm_polygon_description_tag/dataset/deduplication.py:471-489 | The pass is recorded and carried out, or recorded as complete when nothing had to change. |
| `DataRoots.DataRoot.Deduplicate` | src/osm_polygon_description_tag/dataset/deduplication.py:517-545 | The whole program follows the run specification, and every disk it passes through is one that a kill of the specified run can leave. |
| `Schema.SequenceItems` | src/osm_polygon_description_tag/dataset/schema.py:40-47 | The loop builds the dict in which null entries are skipped and later entries win. |
| `Schema.StoredPairsMeaning` | src/osm_polygon_description_tag/dataset/schema.py:40-67 | A stored list has one pair for each key with a usable entry, with the value of the last one, and strictly increasing keys. |
| `Schema.CanonicalExactlyWhenUnchanged` | src/osm_polygon_description_tag/dataset/schema.py:40-67 | Storage leaves a list unchanged if and only if it has no nulls and strictly increasing keys. |
| `ListColumns.MaskListEnds` | src/osm_polygon_description_tag/dataset/storage.py:170-180 | The in-place mask accepts exactly the comparisons that were true or that straddle a list end. |
| `ListColumns.NeighboursExactlyWithoutEnd` | src/osm_polygon_description_tag/dataset/storage.py:170-180 | Two neighbouring keys lie in one list exactly when no offset falls between them, for sliced arrays, empty lists and repeated offsets. |
| `ListColumns.KeysStrictlyIncrease` | src/osm_polygon_description_tag/dataset/storage.py:170-181 | The flattened test holds if and only if keys strictly increase inside every list. |
| `ListColumns.PairsAreCanonical` | src/osm_polygon_description_tag/dataset/storage.py:156-167 | A column is accepted if and only if it is a list of string pairs, no list, key or value is null, and each list is canonical. |
| `BatchWriter.ColumnExtreme` | src/osm_polygon_description_tag/dataset/storage.py:218-225 | A vectorised extreme, corrected when it is a zero, is what Python's min or max over the column gives, which of two signed zeros included. |
| `BatchWriter.ExtremeFolds` | src/osm_polygon_description_tag/dataset/storage.py:100-111 | Folding a column into the bounds row by row is merging the column's extreme once. |
| `BatchWriter.ExtremeIsFirstBest` | src/osm_polygon_description_tag/dataset/storage.py:100-111 | The extreme is the first of the best values, so of two signed zeros the one that comes first. |
| `BatchWriter.SummaryMeaning` | src/osm_polygon_description_tag/dataset/storage.py:114-135 | The summary holds the number of rows, their geometry types, and on each side the first of the best bounds, and no bounds exactly without rows. |
| `BatchWriter.StreamRecords` | src/osm_polygon_description_tag/dataset/storage.py:114-135 | The row writer emits full chunks, the rest, or one empty chunk for no rows, and counts rows, types and bounds. |
| `BatchWriter.WrittenMeaning` | src/osm_polygon_description_tag/dataset/storage.py:114-135 | The chunks hold all rows in order, all but the last are full, and none is empty unless there are no rows. |
| `BatchWriter.ChunksConcat` | src/osm_polygon_description_tag/dataset/storage.py:269-275 | Chunking the rows so far and then what is left with the next rows is chunking everything. |
| `BatchWriter.CastIsArrowRecord` | src/osm_polygon_description_tag/dataset/storage.py:205-215 | On rows of an exact batch the column cast equals the row-wise conversion. |
| `BatchWriter.FastBatchIsExact` | src/osm_polygon_description_tag/dataset/storage.py:190-202 | The test accepts exactly the batches with the schema's names, no null geometry type, canonical pair columns and plain bounds. |
| `BatchWriter.FastBatch` | src/osm_polygon_description_tag/dataset/storage.py:205-215 | The cast is used exactly for exact castable batches, and then gives for every row what the row-wise conversion gives, in the lists, the geometry type and the bounds; the other columns are the same on both sides by construction. |
| `BatchWriter.FastSummary` | src/osm_polygon_description_tag/dataset/storage.py:245-262 | Types, row count and bounds from whole columns are those of the rows counted one by one. |
| `BatchWriter.BatchAccumulator.Add` | src/osm_polygon_description_tag/dataset/storage.py:245-262 | Adding a batch, on either path, appends its converted rows and counts them as the row writer would. |
| `BatchWriter.BatchAccumulator.FullChunks` | src/osm_polygon_description_tag/dataset/storage.py:269-275 | Cutting takes exactly the full chunks off the pending rows and keeps the rest. |
| `BatchWriter.StreamBatches` | src/osm_polygon_description_tag/dataset/storage.py:281-298 | For every split of the rows into batches and every positive batch size: the chunks and the summary of the row writer on the concatenated rows. |
| `LanguageUpload.CompareFiles` | src/osm_polygon_description_tag/publication/language_upload.py:157-169 | The loops return the files without an issue and the issues, the later of two remote files with one path counting. |
| `LanguageUpload.NoIssuesMeaning` | src/osm_polygon_description_tag/publication/language_upload.py:147-169 | There is no issue exactly when every planned file is, with size and checksum, the last remote file at its path. |
| `LanguageUpload.ReportMeaning` | src/osm_polygon_description_tag/publication/language_upload.py:147-169 | Every planned file is reported as verified, which it is, or has one issue that is so: no file at its path, another size, or else another checksum. |
| `LanguageUpload.VerifiedExactlyWhenPublished` | src/osm_polygon_description_tag/publication/language_upload.py:172-185 | The outcome is VERIFIED if and only if the Hub holds every planned file and exposes the configuration, and then names all of them. |
| `LanguageUpload.PublicationState.ApplyPublication` | src/osm_polygon_description_tag/publication/language_upload.py:262-276 | AMBIGUOUS is recorded before the upload, and a failed upload leaves it; otherwise the Hub is verified. |
| `LanguageUpload.PublicationState.Publish` | src/osm_polygon_description_tag/publication/language_upload.py:242-259 | Each invocation makes the durable steps of the specification, and is refused exactly when the record is another plan's and ambiguous or unverified; a dry run returns drifted exactly when an applied one would record it, and planned otherwise. |
| `LanguageUpload.AppliedCallDecides` | src/osm_polygon_description_tag/publication/language_upload.py:188-259 | An applied call uploads if and only if the repository is at the baseline and the record is absent, planned, drifted, or verified for another plan; it is refused if and only if another plan is unresolved; it records drift if and only if only the revision is amiss; otherwise it verifies the plan tried before. |
| `LanguageUpload.UploadIsRecorded` | src/osm_polygon_description_tag/publication/language_upload.py:262-276 | An upload is recorded as ambiguous before it, and after it with its failure or with what the Hub holds. |
| `LanguageUpload.UploadsAreSeparatedByVerification` | src/osm_polygon_description_tag/publication/language_upload.py:188-276 | In every history of invocations of any plans, killed anywhere, with a Hub that changes freely: between two uploads the first plan was recorded VERIFIED. |
| `LanguageUpload.NoUploadWhileUnresolved` | src/osm_polygon_description_tag/publication/language_upload.py:188-197 | From an unresolved record of a plan, nothing at all is uploaded before that plan is recorded VERIFIED. |
| `LanguageUpload.UnresolvedIsKept` | src/osm_polygon_description_tag/publication/language_upload.py:188-197 | An unresolved record is only ever replaced by an outcome of its own plan. |
| `LanguageUpload.UploadsAreGuarded` | src/osm_polygon_description_tag/publication/language_upload.py:250-276 | Every durable step belongs to an applied invocation; each upload comes right after AMBIGUOUS for its plan, with a parent revision equal to the caller's baseline. |
| `LanguageUpload.DryRunsLeaveNoTrace` | src/osm_polygon_description_tag/publication/language_upload.py:250-258 | Dry runs neither record nor upload. |
| `LanguageUpload.InterruptedUploadIsSettled` | src/osm_polygon_description_tag/publication/language_upload.py:262-276 | After a kill at or behind the upload, one whole invocation of the plan settles it without uploading, VERIFIED if and only if the Hub holds the plan. |
| `LogRotation.EveryRunIsSound` | src/osm_polygon_description_tag/runtime/logging.py:359-376 | Every run with kills between any two steps keeps names, archives, slots and contents in order, and loses, moves or doubles no logged line. |
| `LogRotation.WithinLimitExactlyWhenNoneLeftFull` | src/osm_polygon_description_tag/runtime/logging.py:316-339 | Every file, also after a reopening and one more line, was below the byte limit before its last line if and only if no kill left a full file under its active name. |
| `LogRotation.BackupsAreInRotationOrder` | src/osm_polygon_description_tag/runtime/logging.py:145-161 | In every reachable state the backups read from the highest slot to the lowest became archives in that order. |
| `LogRotation.BackupsAreNeverWrittenAgain` | src/osm_polygon_description_tag/runtime/logging.py:359-376 | An archive is full when it is made, and no later step of any run changes it. |
| `LogRotation.BackupsAreArchives` | src/osm_polygon_description_tag/runtime/logging.py:359-376 | Whatever a backup slot holds is such an archive. |
| `LogRotation.BackupsLeaveAtTheEnd` | src/osm_polygon_description_tag/runtime/logging.py:156-161 | An archive leaves the backups only when a newer one moves onto the last slot. |
| `LogRotation.FilesAreStretchesOfTheLog` | src/osm_polygon_description_tag/runtime/logging.py:329-339 | With or without kills every file holds one unbroken stretch of everything logged, in order of creation. |
| `LogRotation.CalmRunsRetainTheEnd` | src/osm_polygon_description_tag/runtime/logging.py:329-376 | Unless a kill has hit the stretch in which the full file has no name but its staging name, or a rotation is in it, backups oldest first and then the active file, if it has its name, are a suffix of everything logged: the active file and as many archives as there are slots. |
| `LogRotation.CalmExactlyWhenAllArchived` | src/osm_polygon_description_tag/runtime/logging.py:359-376 | Every file ever created becomes an archive, or is the newest and still on its way, if and only if no kill hit a rotation between unlinking the active name and moving the staging name. |
| `LogRotation.ARotationCanBeKilled` | src/osm_polygon_description_tag/runtime/logging.py:367-371 | With any settings some run is killed there and leaves a file that is no archive. |
| `LogRotation.KilledRotationStrandsTheFile` | src/osm_polygon_description_tag/runtime/logging.py:367-371 | After a kill in that stretch, whatever happens later, the full file keeps its staging name, has no other names but staging names, so no backup slot, and keeps its lines. |
| `LogRotation.StagingNamesAreLeftovers` | src/osm_polygon_description_tag/runtime/logging.py:359-376 | After every run there is one staging name for each kill that hit a rotation between its link and the move of its staging name, and one for a rotation that is there now. |
| `LogRotation.DirectoryIsBounded` | src/osm_polygon_description_tag/runtime/logging.py:359-376 | The log directory never has more names than the active file, the backups, one rotation under way, and one for each such kill. |
| `LogRotation.TheBoundIsReached` | src/osm_polygon_description_tag/runtime/logging.py:359-376 | From every reachable state some further steps without such a kill bring the directory to exactly that many names. |
| `LogRotation.BoundedExactlyWithoutLeftovers` | src/osm_polygon_description_tag/runtime/logging.py:183-188 | As long as no further such kill happens the directory stays within the active file, the backups and one rotation under way if and only if none has happened so far. |
| `LogRotation.CalmRunsLeaveNames` | src/osm_polygon_description_tag/runtime/logging.py:365-372 | For every number there is a run that loses no file to the backups and leaves that many staging names. |
| `LogRotation.AKilledLinkLeavesAName` | src/osm_polygon_description_tag/runtime/logging.py:365-368 | The run that is killed after the link of its first rotation is such a run: no rotation is under way and the staging name is there. |
| `RunLogging.RunLogger.ShiftBackups` | src/osm_polygon_description_tag/runtime/logging.py:156-161 | The loop shifts the backups highest first, one step of the model for each. |
| `RunLogging.RunLogger.RotateLocked` | src/osm_polygon_description_tag/runtime/logging.py:359-376 | A rotation archives precisely the full file and reopens an empty one, through the steps of the model and without a kill. |
| `RunLogging.RunLogger.RawWrite` | src/osm_polygon_description_tag/runtime/logging.py:329-339 | The bytes of the event, with a newline behind them if they do not end in one, are appended as one line to the active file and to no other, and that file is archived exactly when it has reached the limit. |
| `RunLogging.RunLogger.Emit` | src/osm_polygon_description_tag/runtime/logging.py:274-286 | Before approval an event is buffered and no file touched; afterwards its bytes are logged as one line, reopening the file when there is no handle; a calm run stays calm, so the results on calm runs hold after it. |
| `RunLogging.RunLogger.ApprovePreflight` | src/osm_polygon_description_tag/runtime/logging.py:239-247 | Approval logs the bytes of the buffered events in order, one line each, rotating as needed, and empties the buffer. |
| `RunLogging.RunLogger.DenyPreflight` | src/osm_polygon_description_tag/runtime/logging.py:233-237 | Denial drops the buffered events, touches no file and keeps buffering. |
| `RunLogging.RunLogger.OpenPersistent` | src/osm_polygon_description_tag/runtime/logging.py:308-316 | Opening is one step of the model, which creates the active file when a rotation did not get that far, and nothing when there is a handle. |
| `RunLogging.RunLogger.Close` | src/osm_polygon_description_tag/runtime/logging.py:386-390 | Closing gives up the handle, changes no file, and keeps a calm run calm. |
| `TextMigration.CleanRowMeaning` | src/osm_polygon_description_tag/dataset/text_migration.py:87-106 | A row needs no repair exactly when it satisfies the final text contract and all its entries have keys. |
| `TextMigration.CanonicalRowTrims` | src/osm_polygon_description_tag/dataset/text_migration.py:62-97 | A row is dropped exactly when neither its description nor an entry with a key has a character that is not white space; otherwise the description is trimmed, the entries with text stay in order under their keys with trimmed values, and all else stays. |
| `TextMigration.RepairTrimsEveryRow` | src/osm_polygon_description_tag/dataset/text_migration.py:109-152 | The repaired rows are, in order, the rows with text, each trimmed. |
| `TextMigration.RepairIsIdempotent` | src/osm_polygon_description_tag/dataset/text_migration.py:62-152 | Repaired rows are clean and repair to themselves. |
| `TextMigration.HealFillsTheGap` | src/osm_polygon_description_tag/dataset/text_migration.py:250-276 | Healing files the gap between recorded and actual rows under the repair's reason, and leaves an artifact that is already described alone. |
| `TextMigration.KilledRepairsConverge` | src/osm_polygon_description_tag/dataset/text_migration.py:206-276 | Whatever kills came before, whole runs end with the Parquet and manifest that they end with without kills: one run when the recorded rows matched at the start, two whenever at least the actual rows were recorded. |
| `TextMigration.RepairedArtifactIsSettled` | src/osm_polygon_description_tag/dataset/text_migration.py:224-276 | The repaired artifact is clean and described by its manifest, keeps emitted = included + sum of rejections with the missing rows filed under the one reason, and a further run reports 0 changes. |
| `TextMigration.RepairKeepsGeoBlock` | src/osm_polygon_description_tag/dataset/text_migration.py:155-189 | A geo block that describes the rows of an artifact describes the rows that a repair leaves, and stays when all are left. |
| `TextMigration.RepairSettlesExactlyWhenRowsAreRecorded` | src/osm_polygon_description_tag/dataset/text_migration.py:241-276 | Repairs come to rest if and only if the manifest does not record fewer rows than the Parquet has; otherwise every run from the second on is refused and changes nothing. |
| `TextMigration.RefusalExactlyOnCleanText` | src/osm_polygon_description_tag/dataset/text_migration.py:241-276 | A run refuses and writes nothing if and only if the text is clean and the manifest records fewer rows than there are; with text to repair it writes first, both files when the manifest can be read and else the Parquet. |
| `TextMigration.UntidyArtifactIsWrittenFirst` | src/osm_polygon_description_tag/dataset/text_migration.py:241-276 | An artifact with a row to repair and none recorded: both files are rewritten, and only the next run refuses. |
| `TextMigration.RequiresTextMigration` | src/osm_polygon_description_tag/dataset/text_migration.py:192-203 | The scan finds a row to repair exactly when there is one. |
| `TextMigration.CanonicalTable` | src/osm_polygon_description_tag/dataset/text_migration.py:109-152 | The column-wise repair returns the repaired rows that the lemmas above determine and the number dropped. |
| `TextMigration.Artifact.MigrateOneArtifact` | src/osm_polygon_description_tag/dataset/text_migration.py:241-247 | Result, files and every durable step are those of the run specification: Parquet first, manifest second. |
| `TextMigration.Artifact.HealInterruptedRepair` | src/osm_polygon_description_tag/dataset/text_migration.py:250-276 | Nothing is written when all agrees or when rows exceed the record; otherwise the gap is filed under the repair's reason. |
| `CopyText.CopyUnescape` | src/osm_polygon_description_tag/osm/extraction.py:101-117 | The decoding loop and its shortcut compute the same decoding on every byte string. |
| `CopyText.UnescapeEscape` | src/osm_polygon_description_tag/osm/extraction.py:95-117 | Decoding undoes the format's escaping on every byte string. |
| `CopyText.UnescapeStaysExactlyWithoutEscapes` | src/osm_polygon_description_tag/osm/extraction.py:95-117 | Decoding changes a field if and only if a backslash in it precedes one of the seven letters; other backslashes stay. |
| `CopyText.EscapedIsSafe` | src/osm_polygon_description_tag/osm/extraction.py:120-133 | An escaped value contains no tab or line ending and is never the null marker. |
| `CopyText.FastParserAgrees` | src/osm_polygon_description_tag/osm/extraction.py:190-224 | On fields without backslashes the fast record parser equals the escaped one, in failure too. |
| `CopyText.ParsesAsEscaped` | src/osm_polygon_description_tag/osm/extraction.py:227-238 | On every line, well-formed or not, the parser gives what the escaped parser gives. |
| `CopyText.FieldsRoundTrip` | src/osm_polygon_description_tag/osm/extraction.py:227-238 | Every seven fields, nullable where allowed, come back from their escaped tab-joined line, whatever line endings follow. |
| `CopyText.JoinSplit` | src/osm_polygon_description_tag/osm/extraction.py:227-238 | The fields of any line have no tabs, and joined by tabs they are the line again. |
| `CopyText.ParsingIsDecoding` | src/osm_polygon_description_tag/osm/extraction.py:227-238 | Any line gives a record if and only if it has seven fields that, each decoded on its own, stand for that record, field by field. |
| `CopyText.ParsingUndoesEncoding` | src/osm_polygon_description_tag/osm/extraction.py:190-238 | Parsing an encoded line gives a record if and only if each of its raw fields stands for that part of it. |
| `Checkpoint.PartNamesAndOffsetsAreInverse` | src/osm_polygon_description_tag/dataset/languages/checkpoint.py:76-89 | Part names and offsets below 10^20 are inverse to each other, both ways. |
| `Checkpoint.TextOrderIsNumberOrder` | src/osm_polygon_description_tag/dataset/languages/checkpoint.py:237-247 | On zero-padded digits of one width, text order is numeric order. |
| `Checkpoint.NameOrderIsCursorOrder` | src/osm_polygon_description_tag/dataset/languages/checkpoint.py:237-247 | Sorting part names as texts sorts them by offset. |
| `Checkpoint.ReceiptCheckMeaning` | src/osm_polygon_description_tag/dataset/languages/checkpoint.py:155-183 | A receipt can be built exactly when it spans some rows, starting at the offset that its part name encodes, and counts no negative number of them. |
| `Checkpoint.ValidatedParts` | src/osm_polygon_description_tag/dataset/languages/checkpoint.py:237-247 | Names, duplicates and text order together accept exactly the lists of part names with strictly increasing offsets. |
| `Checkpoint.ValidateCheckpointParts` | src/osm_polygon_description_tag/dataset/languages/checkpoint.py:334-342 | The loop accepts exactly one part for each started batch, each at its batch's offset. |
| `Checkpoint.ValidateCheckpoint` | src/osm_polygon_description_tag/dataset/languages/checkpoint.py:281-349 | The checks accept exactly the valid checkpoints, and an error says something that is wrong with the checkpoint. |
| `Checkpoint.ValidExactlyWhenNothingIsWrong` | src/osm_polygon_description_tag/dataset/languages/checkpoint.py:281-349 | A checkpoint is valid if and only if none of the errors says something of it. |
| `Checkpoint.ValidateReceiptChain` | src/osm_polygon_description_tag/dataset/languages/checkpoint.py:352-381 | The loop accepts exactly the bound, contiguous chains that end at the cursor, with every binding field equal; a mismatch error names the first receipt that fails. |
| `Checkpoint.ChainIsExactlyThePartition` | src/osm_polygon_description_tag/dataset/languages/checkpoint.py:327-381 | For a valid checkpoint a chain is accepted if and only if receipt i is bound and spans rows i*batch to min((i+1)*batch, cursor). |
| `Checkpoint.BatchesAreFull` | src/osm_polygon_description_tag/dataset/languages/checkpoint.py:175-183 | Every receipt but the last is a full batch, the last spans 1 to batch rows and ends at the cursor, and while input remains it is full too. |
| `Checkpoint.EachConsumedRowHasOneReceipt` | src/osm_polygon_description_tag/dataset/languages/checkpoint.py:352-381 | Every consumed row is covered by exactly one receipt, and no other row by any. |
| `Checkpoint.CompleteExactlyWhenAllRowsAreCovered` | src/osm_polygon_description_tag/dataset/languages/checkpoint.py:343-381 | A validated checkpoint is complete if and only if its receipts cover every input row. |
| `LanguageCard.MarksInFrame` | src/osm_polygon_description_tag/publication/language_card.py:301-309 | An installed section makes each marker and the heading occur exactly once. |
| `LanguageCard.RemoveFromFrame` | src/osm_polygon_description_tag/publication/language_card.py:264-273 | Replacing finds precisely the installed section and removes it with the line ending behind it. |
| `LanguageCard.HeadingIsFound` | src/osm_polygon_description_tag/publication/language_card.py:255-261 | The Limitations heading is found at the same text whatever the number of line endings before it. |
| `LanguageCard.InsertAgain` | src/osm_polygon_description_tag/publication/language_card.py:245-261 | Inserting where a section was removed gives what inserting into the card before gives, with or without a Limitations heading. |
| `LanguageCard.RemovedIsBare` | src/osm_polygon_description_tag/publication/language_card.py:264-298 | Without its section an accepted card keeps uniform line endings and has none of the marks. |
| `LanguageCard.InstallTwiceIsInstallOnce` | src/osm_polygon_description_tag/publication/language_card.py:301-331 | For every accepted card with uniform line endings, LF or CRLF, installing one section and then another equals installing the other alone, and is accepted. |
| `LanguageCard.InstalledCardKeepsTheText` | src/osm_polygon_description_tag/publication/language_card.py:245-273 | Apart from line endings at the insertion point all text outside the section is kept in order. |
| `CardRules.FoundIsFirstHeadingLine` | src/osm_polygon_description_tag/publication/language_card.py:25 | The heading found is the first line that is the heading with nothing but blanks behind it. |
| `CardRules.AcceptedExactlyWhen` | src/osm_polygon_description_tag/publication/language_card.py:264-331 | A card is accepted if and only if it has none of the marks, or each once with the markers filling lines of their own and the heading between them; without markers the heading alone refuses it. |
| `CardRules.SectionIsSetOff` | src/osm_polygon_description_tag/publication/language_card.py:245-261 | The section has an empty line before it: behind the text before the heading, stripped of its line endings, or at the end of the card, where only the missing line endings are added. |
| `GridPolicy.EvaluatePolicy` | src/osm_polygon_description_tag/workflow/grid_policy.py:318-433 | A job is allowed if and only if all evidence is there and speaks for it, blocked if and only if some speaks against it, and unknown otherwise; the reasons are exactly those of that kind that apply. |
| `GridPolicy.LocalDaytimeMeaning` | src/osm_polygon_description_tag/workflow/grid_policy.py:100-107 | Weekday daytime is Monday to Friday from 09:00 up to but not including 19:00, in some week. |
| `GridPolicy.BlockingReasonsApply` | src/osm_polygon_description_tag/workflow/grid_policy.py:318-433 | The blocking reasons given are exactly those that apply to the job. |
| `GridPolicy.DoubtingReasonsApply` | src/osm_polygon_description_tag/workflow/grid_policy.py:318-433 | The doubting reasons given are exactly those that apply to the evidence. |
| `GridPolicy.EndsDecideOnFixedClock` | src/osm_polygon_description_tag/workflow/grid_policy.py:407-421 | Within half an hour on one clock, equal status at both ends means equal status between them. |
| `GridPolicy.NoDaytimeAcrossChange` | src/osm_polygon_description_tag/workflow/grid_policy.py:100-107 | Half an hour that spans a change of the clocks is never weekday daytime. |
| `GridPolicy.TwoInstantsAreEnough` | src/osm_polygon_description_tag/workflow/grid_policy.py:291-299 | The check of two instants passes if and only if the walltime is in bounds, every instant of it has the status of its start, and none is weekday daytime unless that is allowed. |
| `GridPolicy.LongWalltimesNeedMore` | src/osm_polygon_description_tag/workflow/grid_policy.py:407-421 | Without the bound on walltimes two instants would not be enough. |

## Left out

- Antimeridian: rounding of floating-point arithmetic, coordinate validation, and everything that calls H3 for cell boundaries.
- Canonical rows: the spelling of the two fingerprints and the canonical form they take of maps and geometries, parsing of timestamps (a timestamp is an optional number here), column selection and its errors, and the text of the queries, which are modelled by what they compute.
- Text policy: localized values given as a mapping instead of a list, and values of other types than text.
- Deduplication: unreadable or malformed state files, symbolic links, staging directories that cannot be removed, the clean-up after exceptions other than kills (`_stage_changes_or_discard`, and the handler in `_record_staged_state`), the promotion hook, and a source rebuild in the middle of a staged promotion.
- Deduplication: loss of a rename at power failure; a rename is durable once made.
- BatchWriter.FastBatch: compares nothing in the columns outside the lists, the geometry type and the bounds; how Arrow casts and converts those is not modelled.
- Writers: null bounding-box values, on which both writers raise; entries of a list that are null as a whole, on which the row writer raises, while the column test looks at the nulls of keys and values only (src/osm_polygon_description_tag/dataset/storage.py:163-166); the types that Arrow refuses beyond one `castable` flag; the geo metadata and the file around the batches.
- Publication: unreadable state files, the worker lock and the check that the export still matches its plan (an invocation refused there makes no step), the order of file names in a report, and the logged message.
- Logging: the JSON form of events, scrubbing of credentials, the stderr stream, observers, threads, `drain`, `maybe_rotate`, `append_raw`, changing the rotation settings during a run, and rotation without any backup slot.
- Logging: a write that is cut short; a line is written whole or not at all.
- Text repair: validation and reading errors of Parquet files, temporary files, several artifacts at once (each is repaired on its own), and the contents of the geo block, which is an arbitrary function of the rows kept.
- COPY text: the subprocess, blank lines between records, and the shape of the tags, which one parameter decodes.
- Checkpoints: the syntax of fingerprints and shard paths, schema versions, JSON, the files themselves and the worker lock.
- Dataset card: the YAML front matter and the configuration entry in it, the rendering of the section, and cards with mixed line endings.
- Submission window: parsing of the usage-policy and quota output, whose results are inputs here; notes; naive datetimes.
- Everything else: the command line, presentation, plots, statistics, the language detector and its worker, remote execution, and the mutation and complexity gates. They have no protocol, invariant or equivalence to prove beyond what their code says, or they depend on tools that are not part of this model.
