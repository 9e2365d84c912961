# BackupSage: a verified model of its decision engines

BackupSage indexes archives and directories and then decides: which rows are duplicates and
which may go, which content is held where and how surely, what changed between two snapshots,
where a path really leads, and which files a reviewed plan may move. These decisions are pure
algorithms over rows, bytes and ids, and their comments promise universal things: idempotent,
zero recall loss, every row exactly once, unknown never reads as zero copies. This project
models those algorithms in Dafny and proves the promises, or proves exactly when they hold.

| Files | What they model |
|---|---|
| `Basics`, `Order`, `Permute` | results, the one sort key and stable sort, rearrangements |
| `Calendar` | the EXIF day number, its inverse and the printed time |
| `NearDup`, `Dedup`, `DedupReading` | four-band multi-index hashing, union-find, grouping, keeper rule, totals |
| `Coverage`, `CoverageReading`, `Worlds`, `Floors` | presence of content in sources, what it means, minimum-copy floors |
| `Diff`, `DiffReading` | comparison of two snapshots of a source |
| `Resolve` | lenient path resolution |
| `Hex`, `Names`, `Framing`, `PlanIds` | hex text, collision suffixes, framed id preimages |
| `Contest`, `PlanDoc`, `PlanPasses` | collision sets, the plan document, the canonicalization passes |
| `PlanStable`, `PlanNormal`, `PlanRanking` | what the passes leave alone; the normal form without passes; who keeps a name |
| `PlanIdempotent`, `PlanClashes` | canonicalizing twice |
| `PlanPresentation`, `PlanOrderFree`, `PlanTotals` | independence of presentation, the summary |
| `PlanRules`, `PlanReading`, `Execute` | the structural rules of a plan, and carrying an accepted plan out |
| `Quarantining`, `PlanGaps` | what the floor of a dedup group is worth; accepted plans that lose it or cannot be carried out |
| `Reuse`, `Words` | reading and reusing an entry, word statistics |
| `Supervise` | the parent and the supervisor of a Borg child |

An algorithm the source writes as a loop over state it changes is a method here (a class where
the source has one), proved to compute a relation or function stated without loops; the
promises are lemmas about that. The modules named Reading say what a result means in the fields
of the rows, entries and documents it is about, without the functions that compute it. Code
outside the model (BLAKE3, decoders, lossy text, what other processes do) appears as
function-valued parameters or as inputs chosen freely.

Where the code does less than its comments say:

- `canonicalize` is called idempotent. It is exactly on documents with neither of two clashes
  (`PlanIdempotent.IdempotentExactly`). An action that is alone on its base loses its conflict
  note but keeps the suffixed name, which may be what another action is called or wants; and a
  move and an extract of one entry are ranked by path but listed without it. `PlanClashes` has a
  document of each kind for every file name. Documents as builders make them have neither.
- The structural rules refuse two actions that read one entry, not two that read one path. An
  accepted plan can be carried out, in whatever order, exactly when its actions read distinct
  paths (`Execute.CarriedOutExactly`); `PlanGaps.SharedPathStuck` is one that cannot.
- A dedup floor promises that the keeper's content survives in so many source roots; the count
  the rules check is of the roots of all entries not quarantined. The promise holds exactly when
  the count does not exceed the true number by more than it has to spare
  (`Quarantining.FloorExactly`). It does when four things hold that the rules do not check:
  groups share no entry, entries and places correspond, kept entries have the keeper's hash, and
  they are in source roots (`Quarantining.FloorSurvives`). `PlanGaps` has an accepted, verified
  plan for each of the four that breaks the promise while the other three hold.
- A time printed by the report is the time that was parsed exactly when it names a real day and
  a second below 60; the parser checks neither the length of the month nor negative fields, and
  lets second 60 through (`Calendar.PrintsWhatWasParsed`).
- An inconclusive floor verdict need not be open: it is exactly when the trusted sources, with
  the unknown ones that have a trusted status and room for the content at one length, are enough
  (`Floors.VerdictExactly`, `Floors.ReachWithKnownSize`); `Floors.VerdictNotTight` has catalogs
  where they are not.
- Lenient resolution agrees with strict pathname resolution exactly on paths that are grounded,
  every name there and taken from a directory, and on paths that bar both
  (`Resolve.LenientExtendsStrict`); it steps out of a regular file where the kernel refuses to
  (`Resolve.LenientStepsOutOfFiles`).

## Model

| member | source | states |
|---|---|---|
| `Calendar.DaysFromCivilCounts` | src/core/exif_date.rs:100-108 | 1 January 1970 is day 0, and the Gregorian day after any valid date has the next number, so the closed form counts days over all years |
| `Calendar.CivilInvertsDays` | src/main.rs:1413-1425 | the printed date of a valid date's day number is that date |
| `Calendar.DaysInvertsCivil` | src/main.rs:1413-1425 | every integer day number gives a valid date whose day number it is |
| `Calendar.CivilSuccessor` | src/main.rs:1413-1425 | the date of the next day number is the calendar successor, for every integer |
| `Calendar.PrintsWhatWasParsed` | src/main.rs:1402-1411 | a timestamp the EXIF parser accepted prints as its own date, hour and minute exactly when they name a real day, no field is negative and the seconds are below 60 |
| `Calendar.ZeroYearIsAbsent` | src/core/exif_date.rs:91-97 | a year of zero marks an absent time, and any second of a real day in another year is a time |
| `Calendar.LeapSecondPrintsNextMinute` | src/core/exif_date.rs:81-98 | the parser accepts second 60, which prints as the next minute, here of the next year |
| `Calendar.ImpossibleDayPrintsAnother` | src/core/exif_date.rs:81-98 | 31 February is accepted and prints as 3 March |
| `NearDup.HammingByBands` | src/core/phash.rs:22-24 | the distance of two hashes is the sum of the distances of their four 16-bit bands |
| `DedupReading.HammingReads` | src/core/phash.rs:22-24 | the distance of two hashes is the number of bits they differ in |
| `NearDup.Pigeonhole` | src/core/dedup.rs:23-24 | hashes at most 3 apart agree on a whole band |
| `NearDup.MihPairs` | src/core/dedup.rs:632-664 | the bucket scan returns, without repeats, exactly the close pairs that agree on a band whose bucket is within the cap, and counts the buckets it skipped, whatever order buckets are visited in |
| `NearDup.FullRecall` | src/core/dedup.rs:632-664 | with threshold at most 3 and no bucket skipped, the pairs found are exactly the pairs within the threshold |
| `NearDup.MissedOnlyBySkipping` | src/core/dedup.rs:632-664 | a close pair is missed exactly when every band it agrees on, and there is one, fell in an over-cap bucket |
| `NearDup.RecallFailsAtFour` | src/core/dedup.rs:23-23 | at threshold 4 two hashes at distance 4 are missed with no bucket skipped: the cap of 3 is tight |
| `NearDup.HalvingKeepsRoots` | src/core/dedup.rs:801-807 | one step of path halving keeps every element's root and climbs |
| `NearDup.LinkingMerges` | src/core/dedup.rs:808-814 | linking one root below another, with no ranks, merges exactly their two classes and makes no cycle |
| `NearDup.UnionFind.constructor` | src/core/dedup.rs:795-800 | every element starts as its own root |
| `NearDup.UnionFind.Find` | src/core/dedup.rs:801-807 | find terminates on every reachable forest, returns the root and changes no element's root |
| `NearDup.UnionFind.Union` | src/core/dedup.rs:808-814 | union merges the classes of its two arguments and nothing else |
| `NearDup.MergingMatches` | src/core/dedup.rs:606-627 | if equal roots mean connected, they still do after the union for one more edge |
| `NearDup.NearComponents` | src/core/dedup.rs:606-630 | the result lists exactly the classes of two or more of the closure of the found pairs, each once, ascending, in ascending order |
| `NearDup.ComponentsUnique` | src/core/dedup.rs:606-630 | the components are determined by the pairs, so no hash-map order shows in them |
| `NearDup.ComponentsAscend` | src/core/dedup.rs:621-626 | components are listed by their least elements |
| `NearDup.ComponentsOfClosePairs` | src/core/dedup.rs:606-664 | with nothing skipped the components are those of the within-threshold relation itself |
| `Dedup.NearRaws` | src/core/dedup.rs:176-208 | near groups are exactly the components of the perceptually searched rows of each scope, and the marks left for the exact pass are exactly their rows |
| `Dedup.ExactRaws` | src/core/dedup.rs:210-237 | exact groups are exactly the rows of one content hash not already grouped perceptually that hold two real files, or one and a shadowed twin |
| `Dedup.AssembleGroup` | src/core/dedup.rs:247-349 | a group is built, or hidden, as specified, with the totals of its members |
| `Dedup.RunDedup` | src/core/dedup.rs:127-430 | the run fails exactly above threshold 3 and otherwise returns the one report that meets the specification |
| `Dedup.RawsDisjoint` | src/core/dedup.rs:173-237 | a row lies in at most one group, near and exact together |
| `Dedup.OneGroupPerRow` | src/core/dedup.rs:173-349 | two listed members that are one row are one member of one group |
| `Dedup.KeeperIsBest` | src/core/dedup.rs:670-734 | the keeper is a real file, greatest under the keep key; there is none only if there is no real file |
| `DedupReading.KeeperReads` | src/core/dedup.rs:670-704 | every reported group keeps exactly one member, a real file that no other real member is better than: for exact copies a later time (EXIF, else file, else archive, none being earliest), then a path without copy marker, then a shorter path, then a lower id; for images more pixels, then a larger file, a later time, a lower id |
| `DedupReading.MembersRead` | src/core/dedup.rs:262-349 | in an exact group all hashes are the keeper's; in a near group every distance is measured to the keeper; a member may be removed exactly when it is another real file, in near groups within the threshold |
| `DedupReading.TallyCounts` | src/core/dedup.rs:285-300 | removable members are counted as duplicates, other real ones but the keeper as transitive only |
| `DedupReading.TallyGreatest` | src/core/dedup.rs:274-277 | the distance shown for a group is the greatest of its members |
| `DedupReading.ImagesRead` | src/core/dedup.rs:180-191 | searched perceptually is exactly a real image with a hash of 2 to 62 one bits |
| `DedupReading.ExactReads` | src/core/dedup.rs:211-237 | an exact group is exactly the rows of one content hash in no near group, if it holds two real files or a real one and a shadowed one |
| `DedupReading.ListOrder` | src/core/dedup.rs:351-385 | groups are listed by descending reclaimable bytes, member count or keeper time, and on a tie the one with the lowest (archive, file) first |
| `DedupReading.MembersInOrder` | src/core/dedup.rs:338 | a group lists its keeper first and the others by ascending (archive, file) |
| `DedupReading.ReportLists` | src/core/dedup.rs:378-395 | the report shows the first groups of that list up to the limit, numbered from 1 |
| `Dedup.OnlyAcrossHides` | src/core/dedup.rs:247-262 | a group is dropped exactly when only cross-archive groups are wanted and it lies in one archive |
| `Dedup.RemovalIsSafe` | src/core/dedup.rs:736-754 | after removing every actionable member of every group, each one's keeper still stands, is an unshadowed real file, and agrees by hash or was itself measured within the threshold |
| `Dedup.TransitiveOnlyIsNeverActionable` | src/core/dedup.rs:736-754 | in a near group a member is actionable exactly when it is not the keeper and its own distance to the keeper is within the threshold |
| `Dedup.BytesConserved` | src/core/dedup.rs:262-349 | the bytes of a group are the keeper's plus reclaimable, review-only, shadowed and unshadowed-hardlink bytes |
| `Dedup.GroupKeysDiffer` | src/core/dedup.rs:351-385 | distinct groups have distinct sort keys, so the listing order is total |
| `Dedup.ReportUnique` | src/core/dedup.rs:223-385 | the report is a function of rows and parameters: bucket, union, cluster and hash-map order all wash out |
| `Coverage.UnknownRows.constructor` | src/core/coverage.rs:205-213 | no unknown row yet |
| `Coverage.UnknownRows.Add` | src/core/coverage.rs:214-224 | adds one unknown row under its trusted size |
| `Coverage.UnknownRows.CouldMatch` | src/core/coverage.rs:225-235 | the bucketed count is the number of unknown rows whose size does not rule the content out |
| `Coverage.MatchingCount` | src/core/coverage.rs:204-235 | counting by size bucket is counting the rows directly |
| `Coverage.Group` | src/core/coverage.rs:276-445 | the grouping is refused exactly for rejected input and otherwise returns a report that lists every row according to its fate |
| `Coverage.CoverageUnique` | src/core/coverage.rs:276-445 | the specification of the report determines it |
| `Coverage.EveryRowOnce` | src/core/coverage.rs:192-203 | every input row appears exactly once among copies, aliases, unknown content and exclusions, and nothing else appears |
| `CoverageReading.RowReads` | src/core/coverage.rs:300-383 | a row is listed as a copy of a content exactly when it is a file, last at its exact path, whose hash was read to the end under an exact name; as an alias exactly when it is a hardlink with that hash, last at its path, beside such a copy in its source |
| `CoverageReading.RestReads` | src/core/coverage.rs:300-383 | a row is unknown content, with which reason, or excluded, with which reason, as its fields and its neighbours at the path say |
| `CoverageReading.PresenceReads` | src/core/coverage.rs:447-475 | what is said of a content in a source, reason included, from the source's evidence, the rows that vouch for it and the rows that may match its length |
| `CoverageReading.GroupReads` | src/core/coverage.rs:385-443 | a content has a group exactly when some row vouches for it, and a length exactly when the lengths recorded for it agree |
| `CoverageReading.RefusedExactly` | src/core/coverage.rs:276-320 | refused are exactly two sources of one id, two rows of one id in a source, rows in an unavailable source and a hash in a source without content hashes |
| `CoverageReading.ReportInOrder` | src/core/coverage.rs:276-428 | every list of a report is strictly ascending: sources by id, groups by content, rows by source, path bytes and file id |
| `Coverage.OrderInvisible` | src/core/coverage.rs:276-445 | permuting the sources, or the rows of any source, changes neither refusal nor report |
| `Worlds.EvidenceReads` | src/core/coverage.rs:232-274 | a size is trusted exactly when the row is not sparse, not pax-unparsed and was read without error; a copy is an effective file whose hash is vouched for; worlds are stated in these row fields alone |
| `Worlds.AbsentMeansNone` | src/core/coverage.rs:447-475 | where presence is Absent no possible world has the content in the source |
| `Worlds.PresentMeansThatMany` | src/core/coverage.rs:447-475 | where it is Present every possible world has at least that many copies there |
| `Worlds.ReplicaCountSound` | src/core/coverage.rs:385-445 | an exact replica count is the number of sources that hold the content in every possible world, a lower bound is one |
| `Worlds.UnknownIsOpen` | src/core/coverage.rs:447-475 | where it is Unknown, consistent evidence leaves a world with the content there and one without |
| `Worlds.PresenceExact` | src/core/coverage.rs:447-475 | Present exactly when every possible world has the content there, Absent exactly when none has |
| `Worlds.HoldersExactly` | src/core/coverage.rs:385-475 | a set of sources holds a content in some possible world exactly when it contains all sources said to be Present and otherwise only Unknown ones that have room for it, all at one length |
| `Worlds.ReplicaCountExact` | src/core/coverage.rs:385-445 | the replica count is attained in some possible world, so a lower bound is the greatest one, and it is called exact exactly when it is the count in every possible world |
| `Floors.Tally` | src/core/floors.rs:236-251 | the counters are the numbers of trusted, untrusted, unknown and protected sources |
| `Floors.Judge` | src/core/floors.rs:236-277 | one group is judged as specified, with its copies and statuses |
| `Floors.Evaluate` | src/core/floors.rs:167-320 | evaluation fails exactly on bad arguments and otherwise judges every group of the report, in scope or excluded |
| `Floors.JudgesReads` | src/core/floors.rs:207-234 | exactly the groups of unknown length, or long enough and not empty unless asked for, are judged; the others are excluded with the reason that applies |
| `Floors.FloorReads` | src/core/floors.rs:236-277 | the counters are the numbers of sources that hold the content with status ok or incomplete-index, with another status, and of unknown presence; a copy counts exactly in the first kind |
| `Floors.VerdictSound` | src/core/floors.rs:236-261 | in every possible world: a floor met has at least min_copies trusted holders, a floor missed has fewer, an only copy is the one trusted holder |
| `Floors.TrustedHoldersBound` | src/core/floors.rs:236-261 | no world has more trusted holders than trusted and unknown sources together |
| `Floors.HolderCountsExactly` | src/core/floors.rs:236-261 | a number of trusted holders occurs in some possible world exactly when it lies between the trusted sources and those plus the unknown ones of a trusted status with room for the content at some length |
| `Floors.VerdictExactly` | src/core/floors.rs:236-261 | met is said exactly when every possible world meets the floor; every world misses it exactly when it is out of reach; so an inconclusive floor is really open exactly when it is in reach at the best single length |
| `Floors.ReachWithKnownSize` | src/core/floors.rs:236-261 | for a group of known length the floor is in reach exactly when trusted sources and unknown sources with a status that counts are enough |
| `Floors.VerdictNotTight` | src/core/floors.rs:236-261 | for every floor of two or more, catalogs with their coverage report and consistent evidence where no world meets the floor and the verdict is Inconclusive |
| `Floors.VerdictsPartition` | src/core/floors.rs:285-300 | met, missed and inconclusive add up to the groups judged |
| `Diff.Visible` | src/core/diff.rs:280-303 | a snapshot is refused exactly when malformed; otherwise the map holds the winner of each exact path |
| `Diff.UniqueHashes` | src/core/diff.rs:323-340 | the map holds exactly the contents that one row of a complete, fully hashed snapshot has |
| `Diff.Compare` | src/core/diff.rs:373-502 | the comparison fails exactly on a malformed side and otherwise returns the report the specification determines |
| `DiffReading.SharedPath` | src/core/diff.rs:203-250 | a path both snapshots hold is ContentChanged exactly when both rows are files with known, trusted, different hashes; ByteIdentical exactly when hash, size and known metadata agree; MetadataOnlyChanged exactly when only known metadata differs; otherwise inconclusive, each reason with its condition |
| `DiffReading.MovedExactly` | src/core/diff.rs:413-436 | a row is moved to another exactly when both snapshots are comparable, complete and fully hashed, the content is not empty and in no other row, and neither path is or could be held on the other side |
| `DiffReading.RemovedExactly` | src/core/diff.rs:436-440 | a row without counterpart is Removed exactly when the later snapshot is complete and comparable and no lossy name there could be its path, and otherwise inconclusive with the reason that applies |
| `DiffReading.AddedExactly` | src/core/diff.rs:440-450 | likewise Added, on the other side |
| `DiffReading.OtherRows` | src/core/diff.rs:280-303 | a row with a lossy name is reported alone and inconclusive; an exact row is excluded exactly when a later row holds its path |
| `DiffReading.SummaryAndState` | src/core/diff.rs:373-512 | the summary counts the changes of each kind; the state is Complete exactly when both snapshots are complete and comparable and nothing is inconclusive |
| `DiffReading.ChangesInOrder` | src/core/diff.rs:356-367 | changes are listed by path bytes of the earlier row where there is one, else of the later, then by its id, then those without a later row first |
| `DiffReading.ExcludedInOrder` | src/core/diff.rs:457-463 | excluded rows are listed by side, path bytes and id |
| `Diff.Duality` | src/core/diff.rs:373-512 | comparing the other way gives the same multiset of changes with sides swapped, Added and Removed exchanged, every other kind and reason and the state kept |
| `Diff.StateSymmetric` | src/core/diff.rs:373-400 | the comparison state does not depend on the direction |
| `Diff.BeforeOnce` | src/core/diff.rs:280-340 | an entry of the left snapshot is the before side of exactly one change or excluded, not both |
| `Diff.AfterOnce` | src/core/diff.rs:373-502 | an entry of the right snapshot is the after side of exactly one change or excluded, not both |
| `Diff.MovesInjective` | src/core/diff.rs:413-436 | moves of a report are a partial injection between different paths: equal on one side, equal altogether, and each pairs the only rows of both snapshots with its content |
| `Diff.SummaryCountsAll` | src/core/diff.rs:174-184 | the counts by kind add up to the changes |
| `Diff.ReplayReachesAfter` | src/core/diff.rs:373-502 | deleting every before side from the left effective map and putting every after side, in any order of the changes, gives exactly the right effective map |
| `Diff.ChangeKeysInjective` | src/core/diff.rs:356-371 | distinct changes have distinct keys, so the order of the report is total |
| `Resolve.Run` | src/core/outpath.rs:252-310 | the worklist loop terminates and computes the specified resolution, refusals included |
| `Resolve.ResolvedIsFixed` | src/core/outpath.rs:245-310 | the result has no symlink in any prefix and resolves to itself from anywhere |
| `Resolve.CreationKeepsResolution` | src/core/outpath.rs:245-310 | creating missing components as directories leaves the resolution as it was |
| `Resolve.FollowsStrict` | src/core/outpath.rs:252-310 | the worklist does what nested, component-wise pathname resolution does, with the same hop count |
| `Resolve.LenientExtendsStrict` | src/core/outpath.rs:245-310 | strict resolution arrives exactly when every name and every ".." met is taken from a directory, every name is there, all can be inspected and no more than 40 links are met; the two agree exactly when the first two hold or when something met bars both |
| `Resolve.LenientForesees` | src/core/outpath.rs:245-310 | where strict resolution arrives once directories were created is where lenient resolution said before |
| `Resolve.LenientStepsOutOfFiles` | src/core/outpath.rs:252-310 | ".." after a regular file: refused by strict resolution, stepped out of here |
| `Resolve.RefusedWhenBarred` | src/core/outpath.rs:252-310 | resolution refuses exactly when it meets a component that cannot be inspected or more than 40 links, in a loop or not |
| `Resolve.BelowFileRefused` | src/core/outpath.rs:286-303 | a component below a regular file cannot be inspected, so a path that goes through one is refused |
| `Resolve.LoopRefused` | src/core/outpath.rs:189-310 | a path that meets a link whose own target leads back to it, over however many other links, is refused from wherever it starts and however it goes on |
| `Resolve.TwoLinksLoop` | src/core/outpath.rs:252-310 | two links that name each other are such a loop |
| `Resolve.PartsOfRendered` | src/core/outpath.rs:262-280 | the text of a legal path has that path's components |
| `Resolve.PartsOfJoined` | src/core/outpath.rs:262-272 | a text is read piece by piece at its slashes |
| `Resolve.PartsOfText` | src/core/outpath.rs:262-272 | a piece that is empty or "." leads nowhere, ".." one step up, any other to its name; a slash in front leads to the root |
| `Resolve.DotDotIsParent` | src/core/outpath.rs:274-288 | a path with "/.." behind it resolves to the parent of what it resolves to, links included |
| `Resolve.RelativeFromHere` | src/core/outpath.rs:274-279 | a relative path resolves as if the working directory were written in front of it |
| `Hex.UnhexInvertsToHex` | src/core/plan.rs:1539-1551 | strict decoding gives back what was encoded |
| `Hex.ToHexInvertsUnhex` | src/core/report.rs:116-118 | encoding gives back every text that decodes |
| `Hex.DecodeInjective` | src/core/plan.rs:1539-1551 | lowercase hex has one spelling of each byte string |
| `Hex.HexKeepsOrder` | src/core/report.rs:116-118 | hex text orders as the bytes do |
| `Order.LexLeReads` | src/core/plan.rs:781-781 | byte strings are ordered by the first byte that differs, a prefix first |
| `Names.DecimalInjective` | src/core/plan.rs:1640-1651 | distinct ordinals are written differently |
| `Names.DecimalReads` | src/core/plan.rs:1640-1651 | an ordinal is written in decimal without leading zeros |
| `Names.SuffixGoesBeforeExtension` | src/core/plan.rs:1599-1651 | the suffix goes in front of the last dot, or at the end of a name without one or with one only in front |
| `Names.StripInvertsAdd` | src/core/plan.rs:1599-1651 | taking a recorded suffix off gives back the name, for every name, dotless, dot-first or already suffixed, and every ordinal |
| `Names.AddInvertsStrip` | src/core/plan.rs:1599-1651 | a suffix taken off can be put back exactly unless the name was nothing but that suffix and an extension |
| `Names.SuffixesDistinct` | src/core/plan.rs:1640-1651 | the names of one collision set are pairwise distinct and differ from the plain name |
| `Framing.BuildFramed` | src/core/plan.rs:1452-1459 | the loop builds the framing |
| `Framing.FramedAdds` | src/core/plan.rs:1452-1459 | an element is framed as its length and itself, a list element by element |
| `Framing.LaterBytesWeighMore` | src/core/plan.rs:1461-1466 | in eight bytes each weighs 256 times the one before |
| `Framing.SignedIsUnsigned` | src/core/plan.rs:1464-1466 | a negative number is written as 2^64 more |
| `Framing.UnframedInvertsFramed` | src/core/plan.rs:1446-1459 | a reader recovers every list of byte strings shorter than 2^64 from its framing |
| `Framing.FramedInjective` | src/core/plan.rs:1446-1459 | equal framings frame equal lists |
| `Framing.Le8Injective` | src/core/plan.rs:1461-1463 | eight little-endian bytes determine an unsigned number |
| `Framing.Le8SignedInjective` | src/core/plan.rs:1464-1466 | and a signed 64-bit number |
| `PlanIds.ActionPreimageInjective` | src/core/plan.rs:1468-1509 | equal action preimages force equal tag, destination root and components, source entry, content hash, group and slot |
| `PlanIds.GroupPreimageInjective` | src/core/plan.rs:1511-1524 | equal group preimages force equal match kind, keeper and members |
| `PlanIds.SlotPreimageInjective` | src/core/plan.rs:1526-1537 | equal slot preimages force equal group, source entry and content hash |
| `PlanIds.ActionReadsBack` | src/core/plan.rs:1468-1509 | what an action id hashes reads back, element by element, as operation, destination root, destination components, source root, file id and content hash, then group and slot |
| `PlanIds.GroupReadsBack` | src/core/plan.rs:1511-1524 | what a group id hashes reads back as match kind, keeper and members, in this order |
| `PlanIds.SlotReadsBack` | src/core/plan.rs:1526-1537 | what a slot hashes reads back as group, source root, file id and content hash, in this order |
| `PlanIds.IdsAreDigests` | src/core/plan.rs:1468-1537 | an id decodes to the first 16, 8 or 4 bytes of the digest of its preimage, for an action, a group or a slot |
| `PlanIds.DomainNames` | src/core/plan.rs:66-68 | every preimage starts with the name, version and kind of the format |
| `PlanIds.DomainsApart` | src/core/plan.rs:66-68 | no preimage of one domain is one of another |
| `PlanIds.ActionIdsTellApart` | src/core/plan.rs:1468-1509 | two actions share an id only if they share their identity or the truncated hash collides on their preimages |
| `Contest.RankedAtRank` | src/core/plan.rs:779-822 | the stable sort of a collision set puts every member at the number of its rivals that stand ahead of it |
| `Contest.RankFollows` | src/core/plan.rs:779-822 | ranks do not depend on where actions stand in the list, if rivalry and precedence do not |
| `Contest.CompetingFollows` | src/core/plan.rs:783-796 | nor do the size of a collision set and its sorted entries |
| `PlanPasses.Plan.constructor` | src/core/plan.rs:105-123 | a plan object holds the given document |
| `PlanPasses.Plan.IdsAreDistinct` | src/core/plan.rs:601-610 | true exactly when no two roots share an id |
| `PlanPasses.Plan.RefsAreKnown` | src/core/plan.rs:617-652 | true exactly when every root id mentioned by actions, groups, members and excluded entries is a root's |
| `PlanPasses.Plan.PathsAreHex` | src/core/plan.rs:654-657 | true exactly when every root path is lowercase hex |
| `PlanPasses.Plan.RenumberRoots` | src/core/plan.rs:654-677 | roots are sorted by role and path bytes and numbered, and the map sends every old id to its position |
| `PlanPasses.Plan.CanonicalizeRoots` | src/core/plan.rs:595-698 | refuses exactly duplicate ids, unknown references and bad hex, changing nothing; otherwise leaves the document the root pass specifies |
| `PlanPasses.Plan.RemapActions` | src/core/plan.rs:684-688 | every root id of every action is renumbered |
| `PlanPasses.Plan.RemapGroups` | src/core/plan.rs:689-694 | every root id of keepers and members is renumbered |
| `PlanPasses.Plan.RemapExcludedEntries` | src/core/plan.rs:695-697 | every root id of excluded entries is renumbered |
| `PlanPasses.Plan.CollectEntrants` | src/core/plan.rs:745-767 | collects the wanted base, rank key and entry of every contender, failing exactly where a recorded suffix cannot come off or a source path is not hex |
| `PlanPasses.Plan.SettleLone` | src/core/plan.rs:798-802 | an action alone in its set ends as specified, others untouched |
| `PlanPasses.Plan.SettleRanked` | src/core/plan.rs:804-821 | every member of a set of two or more ends as specified, others untouched; fails exactly if the base takes no suffix |
| `PlanPasses.Plan.CanonicalizeConflicts` | src/core/plan.rs:731-824 | fails exactly where the specification says and otherwise settles every action by its rank in its collision set, in whatever order the sets are visited |
| `PlanPasses.Plan.ShowActions` | src/core/plan.rs:701-711 | action display texts are derived, failing exactly on parts that are not hex |
| `PlanPasses.Plan.ShowGroups` | src/core/plan.rs:712-717 | likewise for keepers and members |
| `PlanPasses.Plan.ShowExcludedEntries` | src/core/plan.rs:718-720 | likewise for excluded entries |
| `PlanPasses.Plan.CanonicalizeDisplayFields` | src/core/plan.rs:701-722 | the whole display pass |
| `PlanPasses.Plan.SortAllMembers` | src/core/plan.rs:827-830 | members of every group are sorted by entry |
| `PlanPasses.Plan.StampGroups` | src/core/plan.rs:834-853 | every group gets its id and the number of distinct roots of its keeper and of its members not quarantined, whatever their content |
| `PlanPasses.Plan.CountRemainingRoots` | src/core/plan.rs:844-852 | the distinct roots of the keeper and of every member not quarantined |
| `PlanPasses.Plan.CanonicalizeGroups` | src/core/plan.rs:826-855 | the whole group pass |
| `PlanPasses.Plan.StampSlots` | src/core/plan.rs:858-870 | quarantine slots are derived |
| `PlanPasses.Plan.OrderActions` | src/core/plan.rs:872-878 | positions of the actions in stable action-key order |
| `PlanPasses.Plan.ListInOrder` | src/core/plan.rs:880-886 | actions are listed in that order with dense ordinals |
| `PlanPasses.Plan.StampIds` | src/core/plan.rs:888-891 | action ids are derived from the final destination |
| `PlanPasses.Plan.CanonicalizeActions` | src/core/plan.rs:857-893 | the whole action pass |
| `PlanPasses.Plan.TagLines` | src/core/plan.rs:932-938 | one line per operation that occurs, in tag order |
| `PlanPasses.Plan.RecomputeSummary` | src/core/plan.rs:917-954 | the summary is the specified one of the current actions, groups and excluded entries |
| `PlanPasses.Plan.CanonicalizeInPlace` | src/core/plan.rs:581-593 | the passes in order succeed exactly when the specification is defined and leave the canonical document |
| `PlanRanking.SourcesDecideRank` | src/core/plan.rs:727-823 | in every canonicalized document, of two actions ranked together the one with the smaller source root, then path bytes, then file id has the smaller ordinal; no ordinal repeats; ordinal 0 is the plain name and any other the base with that suffix |
| `PlanRanking.FirstKeepsName` | src/core/plan.rs:781-823 | the first of a collision set has ordinal 0 and keeps the plain name |
| `PlanRanking.NoteListsRivals` | src/core/plan.rs:769-823 | the note of a ranked action lists the entries of all that were ranked together, one for each, ascending by root and file id |
| `PlanPasses.Plan.VerifyDerived` | src/core/plan.rs:962-970 | true exactly when canonicalizing a copy gives the document back |
| `PlanTotals.SummaryAddsUp` | src/core/plan.rs:917-954 | operation counts add up to the total, and the roots written are exactly the destinations' roots, ascending, each once |
| `PlanTotals.LinesAreCounts` | src/core/plan.rs:917-950 | a line for exactly the operations that occur, with the number of their actions |
| `PlanTotals.LinesInOrder` | src/core/plan.rs:920-938 | the lines are in byte order of the operation names |
| `PlanTotals.BytesAddUp` | src/core/plan.rs:917-950 | the byte totals are the sums of the sizes of files read and of entries left out |
| `PlanStable.RootPassStays` | src/core/plan.rs:595-698 | the root pass finds nothing to do on renumbered roots |
| `PlanStable.FinishStays` | src/core/plan.rs:701-915 | nor do the display, group, action, exclusion and summary passes on their own output |
| `PlanStable.OnlyConflictsMove` | src/core/plan.rs:571-593 | a canonical document passes its own check exactly when its conflict pass succeeds and changes nothing |
| `PlanIdempotent.BaseOfName` | src/core/plan.rs:1607-1651 | the base of a settled name, read through the settled conflict note, is the base it was made from |
| `PlanIdempotent.SecondContest` | src/core/plan.rs:731-777 | without a stale clash the second pass sees the same collision sets |
| `PlanIdempotent.SecondPrecedence` | src/core/plan.rs:779-822 | without a twin clash it ranks them alike |
| `PlanIdempotent.IdempotentExactly` | src/core/plan.rs:571-593 | whenever canonicalization succeeds, its result canonicalizes to itself if and only if the document held no stranded suffixed name that another action is called or wants, and no move ranked before an extract of the same entry |
| `PlanIdempotent.FreshPlansVerify` | src/core/plan.rs:953-970 | a document with no recorded conflicts and distinct source entries canonicalizes to one that passes the load-time check |
| `PlanClashes.StalePlanChanges` | src/core/plan.rs:798-802 | for every name and suffix a two-action document whose canonical form canonicalizes to something else |
| `PlanClashes.TwinPlanChanges` | src/core/plan.rs:895-915 | and one for a move and an extract of one entry |
| `PlanNormal.ConflictsFixed` | src/core/plan.rs:731-824 | the conflict pass accepts a list and leaves it alone exactly when every contender alone on its base carries no note, and every other carries its rank, the sorted entries of its set and the base name with that suffix |
| `PlanNormal.NormalIsVerified` | src/core/plan.rs:962-970 | a document in normal form passes the load-time check |
| `PlanNormal.VerifiedIsNormal` | src/core/plan.rs:953-970 | the load-time check accepts exactly the documents in normal form: roots by role and path bytes and numbered, references closed, actions listed directories first and then by source root, path and entry with dense ordinals and derived ids, slots, names and display texts, groups, members and excluded entries by entry, floors and totals counted |
| `PlanPresentation.FactsGiveIds` | src/core/plan.rs:654-684 | the same roots in another order under other ids are renumbered alike |
| `PlanPresentation.SameRootsOk` | src/core/plan.rs:595-657 | and are refused alike |
| `PlanOrderFree.SameConflictsOk` | src/core/plan.rs:731-767 | the conflict pass succeeds on one order of the actions exactly when on any other |
| `PlanOrderFree.SameFinalActions` | src/core/plan.rs:731-915 | and the final list of actions is the same |
| `PlanOrderFree.SameFinalGroups` | src/core/plan.rs:826-855 | the final groups are the same for any order of groups and of members |
| `PlanOrderFree.SameFinalExcluded` | src/core/plan.rs:589-590 | the final excluded entries are the same for any order |
| `PlanOrderFree.LegalJoined` | src/core/plan.rs:1560-1593 | lists of legal components join to different paths |
| `PlanOrderFree.PresentationFree` | src/core/plan.rs:571-593 | any permutation of roots, actions, groups, members and excluded entries, with any injective renaming of root ids and any derived field values, gives the identical result or refusal, where roots, sources, keepers, members and excluded entries have distinct keys |
| `PlanRules.RootsHold` | src/core/plan.rs:981-1010 | true exactly when root paths are distinct and every root's binding fits its role |
| `PlanRules.ActionsHold` | src/core/plan.rs:1024-1115 | true exactly when every action is legal by itself and no two share a destination or an entry |
| `PlanRules.TargetsAvoid` | src/core/plan.rs:1117-1127 | true exactly when no move targets a path some action reads |
| `PlanRules.FloorsHold` | src/core/plan.rs:1129-1139 | true exactly when every group's remaining roots reach its floor |
| `PlanRules.InvariantsHold` | src/core/plan.rs:980-1142 | the pass that fills sets accepts exactly the plans the order-free rules accept |
| `PlanReading.RulesRead` | src/core/plan.rs:980-1142 | where root ids are distinct the rules are, in the fields of the document: distinct root paths, each root bound as its role asks, every action legal for the kind of plan and backed, no shared entry or destination, no organize destination that is read, groups only in dedup plans, floors kept |
| `PlanReading.ComponentIsName` | src/core/plan.rs:1576-1597 | a component is accepted exactly when it is lowercase hex of a text without NUL that pathname resolution reads as one name |
| `PlanReading.PathLeadsDown` | src/core/plan.rs:1560-1597 | an accepted path leads down through exactly its components |
| `Execute.RunMoves` | src/core/plan.rs:1117-1127 | separate moves from where their files are and targets are free all succeed, end where specified and keep every content as often as before |
| `Execute.InAnyOrder` | src/core/plan.rs:972-1142 | an accepted plan with distinct source paths can be carried out in any order from where its files are and its targets are free: no step overwrites, the result is the specified one, contents are conserved |
| `Execute.OrdersAgree` | src/core/plan.rs:972-1142 | any two orders end in the same file map |
| `Execute.OrganizeCanStart` | src/core/plan.rs:1117-1127 | an accepted organize plan has a file map it can start from: no destination is a place another move reads |
| `Execute.CarriedOutExactly` | src/core/plan.rs:1024-1060 | in any order, carrying out an accepted plan succeeds exactly when no two of its moves and quarantines read one path |
| `PlanGaps.SharedPathStuck` | src/core/plan.rs:1024-1060 | an accepted, verified organize plan whose two entries share a path: its file is there, its targets are free, and no order of the moves succeeds |
| `Quarantining.QuarantinesTake` | src/core/plan.rs:1094-1115 | after any successful run of an accepted dedup plan, the files outside the quarantine slots are exactly those no quarantine reads, unchanged |
| `Quarantining.KeptAtSafeRoots` | src/core/plan.rs:498-514 | the promise of a floor, that the keeper's content survives in as many source roots as required wherever the plan's listing of that content is true, holds exactly when that many source roots have a listed copy no quarantine empties |
| `Quarantining.FloorExactly` | src/core/plan.rs:498-514 | in an accepted, verified plan the promise holds exactly when the roots wrongly counted are no more than what the count has to spare together with the roots it missed |
| `Quarantining.QuarantinedIsMarked` | src/core/plan.rs:1094-1115 | every quarantined entry is a member of a group marked for quarantine |
| `Quarantining.KeptStays` | src/core/plan.rs:1094-1139 | with disjoint groups a keeper or a member not marked is never quarantined |
| `Quarantining.EntriesSurvive` | src/core/plan.rs:834-853 | with disjoint groups, after the quarantines of an accepted, verified plan every group keeps entries, of whatever content, in as many roots as its floor requires |
| `Quarantining.FloorSurvives` | src/core/plan.rs:498-514 | the promise holds in accepted, verified plans where groups are disjoint, entries and places correspond, what is kept has the keeper's hash, and is in source roots |
| `PlanGaps.NearVariantMisleads` | src/core/plan.rs:834-853 | an accepted, verified plan that keeps a variant with another hash: the root is counted, the keeper's content is not there, and only that condition fails |
| `PlanGaps.SharedEntryMisleads` | src/core/plan.rs:1094-1139 | an accepted, verified plan that quarantines a keeper as a member of another group: only the disjointness of groups fails |
| `PlanGaps.OtherPathMisleads` | src/core/plan.rs:1094-1115 | an accepted, verified plan whose quarantine names its member's entry but the keeper's path: only the match of entries and places fails |
| `PlanGaps.StrayKeeperMisleads` | src/core/plan.rs:834-853 | an accepted, verified plan whose keeper is in no source root: only that condition fails |
| `Reuse.KeepIsPrefix` | src/core/indexer.rs:284-292 | extending the retained buffer by what fits keeps it the first cap bytes read |
| `Reuse.ProcessReader` | src/core/indexer.rs:241-361 | for any chunking the row depends on the bytes alone: the hash covers all, the first cap are retained, an earlier result is used exactly when its hash agrees, and errors and cancellation give no hash |
| `Reuse.StreamReads` | src/core/indexer.rs:241-361 | the first call that is cancelled, fails or returns nothing decides, and everything before it was delivered in order |
| `Reuse.UnreadableReads` | src/core/indexer.rs:241-361 | of an entry that cannot be read the row says only that, without a hash, and no earlier row stands in for it |
| `Reuse.Classify` | src/core/indexer.rs:306-361 | the row derived from the retained prefix, the byte count and the hash is the one derived from the whole content |
| `Reuse.FreshReads` | src/core/indexer.rs:306-361 | the row field by field: kind, text, truncation, flags, picture and date each exactly when the content, its length and the path call for them |
| `Reuse.WithoutMarkerReads` | src/core/indexer.rs:350-357 | only the highlight marker is taken out of a text |
| `Reuse.StoredRowRoundTrip` | src/core/source_dir/reuse.rs:75-132 | a stored row gives back the outcome it was written from, and nothing for an image that failed to decode |
| `Reuse.ReuseRefinesFresh` | src/core/indexer.rs:238-361 | with a row written for the same path and options and no hash collision, a read that may reuse it gives exactly the row a fresh read gives |
| `Words.CharsDecide` | src/core/indexer.rs:998-1005 | for UTF-8 lengths the byte check never decides |
| `Words.CountsWhen` | src/core/indexer.rs:417-457 | a text counts exactly in full mode with word statistics on, when its entry is of kind text |
| `Words.CountDocument` | src/core/indexer.rs:996-1007 | per-document counts of exactly the words that occur |
| `Words.Statistics.constructor` | src/core/indexer.rs:400-415 | nothing buffered, nothing stored |
| `Words.Statistics.Accumulate` | src/core/indexer.rs:1008-1013 | the buffer grows by the document's counts, one document per word that occurs |
| `Words.Statistics.Flush` | src/core/indexer.rs:1015-1029 | the buffer is drained into the index, whose totals grow by exactly what was buffered |
| `Words.Statistics.Record` | src/core/indexer.rs:417-457 | buffer and index together grow by the text of an entry, flushed or not, if it is of kind text, in full mode with word statistics on, and stay as they are otherwise |
| `Words.IndexWords` | src/core/indexer.rs:417-475 | whatever the flush threshold, the index ends with the one-shot totals of all entries that count |
| `Supervise.Handle.constructor` | src/core/borg/process.rs:266-270 | a handle with its control pipe open and no status |
| `Supervise.Handle.Cancel` | src/core/borg/process.rs:46-48 | closes the control pipe |
| `Supervise.Handle.Poll` | src/core/borg/process.rs:49-62 | the status is taken once, and a wait error is reported |
| `Supervise.WatchClock` | src/core/borg/process.rs:279-288 | cancellation and timeout are noticed only without an earlier failure, and any failure closes the pipe |
| `Supervise.ReadStdout` | src/core/borg/process.rs:291-316 | one read of stdout: delivered, refused over the limit, or discarded after a failure |
| `Supervise.ReadStderr` | src/core/borg/process.rs:291-316 | one read of stderr, never delivered |
| `Supervise.LookAtChild` | src/core/borg/process.rs:317-325 | a verdict only with a status and both streams done |
| `Supervise.RunParent` | src/core/borg/process.rs:277-347 | the loop computes the run of the parent machine |
| `Supervise.Supervise` | src/core/borg/process.rs:137-180 | the loop computes the run of the supervisor machine |
| `Supervise.StepStaysSafe` | src/core/borg/process.rs:137-347 | every step of parent, supervisor or environment keeps the invariant |
| `Supervise.EveryRun` | src/core/borg/process.rs:137-347 | on every interleaving what was delivered is a prefix of stdout within the limit, and success means all of stdout was delivered, the supervisor reaped the Borg process with exit code 0 during the run, and had no unreaped child when it left |
| `Supervise.RoundReads` | src/core/borg/process.rs:279-347 | a verdict is given exactly when waiting fails or the child was reaped and both streams ended; it is the failure noted, else success exactly if the child left with 0 |
| `Supervise.NoFailureWithoutCause` | src/core/borg/process.rs:137-347 | on every interleaving a failed run was cancelled, timed out, wrote over the limit, was refused by the consumer, met a broken stream or wait, or its supervisor did not exit with 0 |
| `Supervise.UndisturbedSucceeds` | src/core/borg/process.rs:137-347 | for every output within the limit some run succeeds and delivers all of it |
| `Supervise.NothingAfterFailure` | src/core/borg/process.rs:278-325 | after a failure nothing more is delivered and no verdict is success |

## Left out

- SQLite, FTS5 and all SQL: rows are given sequences; what a query returns, and scope and registry loading, is not modelled.
- BLAKE3, tar, zstd and gzip decoding, image decoding, EXIF container parsing and the cosine transform of the perceptual hash: uninterpreted, or out of scope.
- Serialization: plans are compared as values, not as JSON bytes; `to_canonical_bytes`, `from_canonical_bytes` and the regular-file checks around them are not modelled.
- Live verification of a plan against reachable indexes (`Plan::verify`): a branch-by-branch comparison with outside facts.
- Command line, tables, progress, warnings and error texts; an error is one value here, and which of several errors is reported is not modelled.
- What a document holds after a canonicalization pass failed half way, beyond the roots pass, which leaves it untouched.
- Machine widths: ids, sizes, totals, ranks and ordinals are unbounded numbers, except in the id preimages and in stored perceptual hashes, where 32-bit and 64-bit widths are stated.
- The plan's schema version, policy and the binding fields that canonicalization only carries (content mode, algorithms, schema version of the index).
- Dedup keep reasons, conflict-marker text rules (a parameter), caveat counts and the resolution of archive names.
- Coverage and floor labels, row counts shown beside verdicts, and how sources are read and trusted.
- Diff report rendering: hex path text and link targets; `Hex.HexKeepsOrder` is why sorting by rendered paths is sorting by paths. Source currency is not modelled.
- Path spellings, protected sets, staging and promotion of output files; only `resolve_lenient` is modelled, on a file system that does not change during the call.
- Files and directories that stand in each other's way: executing a plan sees a flat map from places to contents, without directories, permissions or failures half way.
- Directory snapshots, stability checks around a read, batching and commits of the index, and the finalization passes.
- Tokenizing text into words and lowercasing: word statistics start from tokens with their lengths.
- fork, exec, signals sent and descriptors: the supervisor model keeps who is reaped when, not which signal was sent; nothing is claimed about termination, and no pid is reused.
- Evaluate: takes the coverage report as the engine produced it, so its precondition is that report's specification.
- RunDedup: requires distinct row keys, which are the catalogue's primary key; fetching the scope and the algorithm check before it are not modelled.
- FloorKept: asks what follows from the plan's own listing; that a listed file still has its content is a live fact, and `observed`, the count at plan time, is carried and never recomputed.
- Nested roots: places are keyed by root, so a root whose path lies inside another's, which the rules allow, is modelled as a separate tree; one file seen through two roots is two places.
- LenientExtendsStrict: compares paths as lists of components, after a trailing slash or "." has been dropped, so the reference does not demand a directory there as pathname resolution does.
- PresentationFree: needs distinct root, source, keeper, member and excluded keys and legal directory names; without them equal keys leave the order of input visible.
