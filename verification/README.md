# Code Narrative: a verified model

Code Narrative turns a GitHub repository into a short story. An API records a job and enqueues a message; a
worker Lambda acquires the job under a time-limited lease, unpacks the repository, picks material under a byte
budget, has a story generated and writes the outcome; a daily batch aggregates statistics from the same table.
This project models the three parts whose correctness is not visible in any single function and proves what they
are for. `dafny verify dfyconfig.toml` checks all of it.

## The leased job protocol

`Protocol` is a transition system over interleaved steps: the API's put and enqueue, foreign messages, delivery,
computing the cutoff, committing the lease update, deciding, committing the terminal write, acknowledging, crashing,
dead-lettering and the clock. `JobTable`, `Worker`, `EventSource` and `Api` hold the imperative code of the same
parts, proved against the functions the steps are made of; `Worker.ProcessIsARun` shows that a call of `Process` is
a run of an attempt's steps among those of everybody else, and `Worker.ProcessIsAtomic` that under the lease the
interleaving does not show in the job's record.

Assumptions, all of them explicit in the model:

- One shared clock in nanoseconds; stamps are RFC 3339 strings truncated to seconds and compared as strings. The
  clock stays within four-digit years and is never below the lease.
- An update is atomic; one that reports an error may or may not have been applied; there are no hidden retries.
- The instant stamped by an update may lie before its commit, and the cutoff before the stamp.
- A handler does nothing after its time limit. Timing parameters are whole seconds.

`Lease` holds for arbitrary deliveries (duplicates, early redeliveries, even of deleted messages) and needs only that
a handler does not outlive its lease. `Delivery` and `Quiescence` add the queue's discipline: a message returns no
sooner than its visibility timeout after its last delivery and at most `maxReceives` times, and each job has one
message. `Necessity` shows that both timing conditions are exact by constructing the runs that go wrong without them.

Two remarks in the repository differ from what its code does, and the model follows the code. In the system description
under `docs/` only queued jobs can be acquired, while the code also takes stale processing ones. The comment at
`apps/lambda-worker/internal/worker/worker.go:70` asks for a lease of at least the visibility timeout, while no job is
lost exactly when the visibility timeout exceeds lease plus time limit by a second (or there are no redeliveries); a
lost job has an unfinished record that never changes again, no message on the queue and nobody at work on it. The
deployed values satisfy this. The local defaults (5 seconds each, with a 300 second time limit) satisfy neither
condition.

`apps/api/app/utils/time.py:12-20` promises that the API's stamps sort as time passes. A whole second is printed without
a fraction, so this fails exactly where one of two different stamps of the same second is whole
(`Rfc3339.IsoOrderIsTime`).

## Material extraction

`Utf8` (sections 3 and 4 of RFC 3629), `Paths`, `Untar`, `SourceFiles` and `Material` model Go strings as sequences
of bytes, one `char` each. Sections and file blocks are one greedy division of one budget (`Material.Greedy`).

A finding: the unpacker records the top directory from the first entry of any kind, before it looks at the type. An
archive that starts with an extension header is unpacked, but a listed file is found where the listing says only if
its own top directory is the one recorded from the header (`Untar.ExtensionHeaderMisleads`). `Untar.ListedWhereWritten`
gives the exact condition. Under one top directory, `Material.ChosenBlocksHoldEntries` follows the bytes from the
archive to the story's material.

A second finding: the three-byte bound of the truncation does not hold for all bytes a file may contain.
`Utf8.LossIsSmall` and `Utf8.SpacedLosesLittle` say for which it does; the lower bound and the priority of the budget
are proved for all of those, of which well-formed text is a special case.

## Daily statistics

`Sorting` states what the library sorts promise, `Stats` aggregates, `StatsStore` scans and writes. Prompts and model
names are sequences of code points here, whose order is the byte order of their UTF-8 form.

## Model

| member | source | states |
|---|---|---|
| Rfc3339.ToCivilExact | apps/lambda-worker/internal/store/store.go:62-65 | the calendar conversion behind a stamp is exact: the date and time found are valid and denote the instant they were computed from |
| Rfc3339.StampOrder | apps/lambda-worker/internal/store/store.go:70-74 | for all instants in four-digit years, comparing stamps as strings is comparing instants, both ways |
| Rfc3339.StampForm | apps/lambda-worker/internal/store/store.go:62-65 | stamps are 20 characters ending in Z, and equal only for equal seconds |
| Rfc3339.StampReads | apps/lambda-worker/internal/store/store.go:62-65 | a stamp reads as the digits of the date and time of its instant, with the separators of section 5.6 of RFC 3339 in their places |
| Rfc3339.MonthStarts | apps/lambda-worker/internal/store/store.go:62-65 | the days before each month, as a table |
| Rfc3339.UnixEpoch | apps/lambda-worker/internal/store/store.go:62-65 | the day Unix time starts is 1970-01-01 |
| Rfc3339.IsoReads | apps/api/app/utils/time.py:12-20 | a fraction is printed as its six digits between the seconds and the zone |
| Text.StrLessMeans | apps/lambda-worker/internal/store/store.go:84-86 | the string order: the first difference decides, without one the shorter string comes first |
| Rfc3339.MicroStampMisordered | apps/api/app/utils/time.py:12-20 | against any whole second, such as a cutoff: a stamp with a fraction sorts before its own second and otherwise as time does, so it must never be compared with a cutoff |
| Rfc3339.IsoOrder | apps/api/app/utils/time.py:12-20 | the exact order of any two stamps of the API: by second, and within a second the whole one last |
| Rfc3339.IsoOrderIsTime | apps/api/app/utils/time.py:12-20 | the promised chronological order holds, both ways, exactly for stamps of different seconds, equal stamps, and two stamps with fractions |
| JobTable.JobStore.MarkProcessing | apps/lambda-worker/internal/store/store.go:80-112 | success only on a queued or stale processing record, which becomes processing with the new stamp; refusal tells an existing record from a missing one; errors may hide an applied update |
| JobTable.JobStore.MarkCompleted | apps/lambda-worker/internal/store/store.go:128-152 | unconditional: the record is completed and shows story, digest, model and usage whenever success is reported |
| JobTable.JobStore.MarkFailed | apps/lambda-worker/internal/store/store.go:155-173 | unconditional: the record is failed and shows the message whenever success is reported |
| JobTable.ClaimMeans | apps/lambda-worker/internal/store/store.go:80-112 | attribute by attribute what a lease update changes and when, and what each answer says |
| JobTable.SettleMeans | apps/lambda-worker/internal/store/store.go:128-173 | attribute by attribute what a terminal write sets and what it keeps |
| JobTable.ShowsOneOutcome | apps/lambda-worker/internal/store/store.go:126-173 | a record shows one outcome only, so what it shows is what was written |
| Worker.Worker.Fail | apps/lambda-worker/internal/worker/worker.go:242-250 | records reason and cause, and returns nil exactly when that was reported to succeed |
| Worker.Worker.Process | apps/lambda-worker/internal/worker/worker.go:137-236 | without the lease nothing terminal is written and nil means that the job is in other hands or finished; with it, nil means that exactly one terminal write was made, reported success and is what the record shows |
| Worker.Worker.Handle | apps/lambda-worker/internal/worker/worker.go:115-130 | exactly the readable messages whose processing returned an error are reported, in order; the table is the one the messages produce one after the other |
| Worker.StoryIsDelivered | apps/lambda-worker/internal/worker/worker.go:222-230 | if all goes well the record holds the generated story, the digest, the requested model and the usage, and otherwise what it held before |
| Worker.ReasonsAreTold | apps/lambda-worker/internal/worker/worker.go:157-219 | for each step that can fail: its own reason and cause become the error message, or the record stays processing and the message is redelivered |
| Worker.ProcessedIsLocal | apps/lambda-worker/internal/worker/worker.go:137-236 | a call depends on its job's record only and changes no other |
| Worker.BatchTreatsJobsAlone | apps/lambda-worker/internal/worker/worker.go:115-130 | in a batch about different jobs each is processed, and reported, as if it were alone |
| Worker.BatchLeavesOthers | apps/lambda-worker/internal/worker/worker.go:115-130 | jobs a batch is not about keep their records |
| Worker.FailuresInOrder | apps/lambda-worker/internal/worker/worker.go:124-127 | one identifier is reported for each record that asks for redelivery, in the order of the records |
| Worker.LastingErrorsEndTheJob | apps/lambda-worker/internal/worker/worker.go:132-136 | while the table answers, redelivery is asked for exactly if the job is acquired and the first failing step fails in passing; otherwise an acquired job ends, as failed exactly if that step fails lastingly |
| Worker.FinishedJobsAreSkipped | apps/lambda-worker/internal/worker/worker.go:142-147 | processing a finished job again changes nothing and is acknowledged |
| Worker.ProcessIsARun | apps/lambda-worker/internal/worker/worker.go:137-236 | for every outcome of the outside world, every timing within the limit and every interleaving with others, a call of `Process` is a run of the protocol with the same answer and the same updates, each on the table it finds, touching nothing else |
| Worker.ProcessAlone | apps/lambda-worker/internal/worker/worker.go:137-236 | uninterrupted, table and answer are those of the function `Process` is proved against |
| Worker.ProcessIsAtomic | apps/lambda-worker/internal/worker/worker.go:137-236 | under the lease, whatever others do meanwhile, record and answer are those of a call made in one piece when the lease update is committed |
| Worker.FailuresAre | apps/lambda-worker/internal/worker/worker.go:124-127 | an identifier is reported exactly if some record that carries it asks for redelivery |
| Lease.StaleMeansLeaseOver | apps/lambda-worker/internal/worker/worker.go:140-141 | what the truncated string comparison says about time: stale means that more than the lease has passed, and lease plus one second is always stale |
| Lease.ClaimFindsNoHolder | apps/lambda-worker/internal/store/store.go:80-97 | while an attempt holds a job within its time limit, no other attempt's lease update can succeed, whenever its cutoff was computed |
| Lease.StepInv | apps/lambda-worker/internal/store/store.go:80-173 | every step of every participant keeps the invariant: holders own their records, terminal records and applied terminal writes correspond one to one |
| Lease.LeaseExcludes | apps/lambda-worker/internal/worker/worker.go:140-155 | in every state of every run two holders of one job are one attempt, and at most one terminal write takes effect per job |
| Lease.OneOutcome | apps/lambda-worker/internal/store/store.go:126-173 | a record is terminal exactly if exactly one terminal write took effect on it, shows what that write said, and keeps every attribute for the rest of the run |
| Lease.TerminalForever | apps/lambda-worker/internal/store/store.go:126-173 | a terminal record never changes again, although no terminal write is conditional |
| Lease.ProcessingStampForm | apps/lambda-worker/internal/store/store.go:84-96 | in every reachable state a processing record carries a fixed-width stamp of a past instant, whatever the API wrote |
| Lease.NoMessageWithoutRecord | apps/api/app/services/narrative_service.py:84-100 | in every reachable state every message of the API refers to an existing record |
| Lease.ApiKeepsRecords | apps/api/app/repositories/narrative_repository.py:79-89 | no step of the API changes an existing record; new ones start queued |
| Delivery.RefusedOnlyWhenFinished | apps/lambda-worker/internal/worker/worker.go:142-147 | under a patient visibility timeout an existing record refuses the lease only if it is terminal |
| Delivery.PatienceMakesAcksSafe | local/emulator/esm.py:214-239 | no message is deleted while its job is unfinished, despite crashes, transient errors and ambiguous writes |
| Delivery.LostForever | local/emulator/esm.py:214-239 | a job whose message is deleted and on which nobody works keeps its unfinished record in every continuation the queue allows |
| Delivery.PatienceLosesNoJob | local/emulator/esm.py:214-239 | under a patient visibility timeout no run reaches such a state |
| Delivery.EmptyQueueMeansResolved | local/emulator/esm.py:9-13 | when the main queue is empty, every job whose message was sent is terminal or has its message in the dead-letter queue |
| Quiescence.HandledAtMost | terraform/modules/sqs/main.tf:17-20 | in every run no message is handled more than the maximum number of times |
| Quiescence.WorkShrinks | local/emulator/esm.py:9-13 | every step of queue or handler lowers a natural-number measure that waiting does not raise |
| Quiescence.WorkIsBounded | local/emulator/esm.py:9-13 | once nothing is sent any more, a run contains at most that many steps of work |
| Quiescence.StuckMeansResolved | terraform/modules/sqs/main.tf:10-21 | a run that can take no further step of work, now or later, has finished or dead-lettered every job |
| Necessity.LeaseExact | apps/lambda-worker/internal/worker/worker.go:74-83 | mutual exclusion holds in all runs if and only if the time limit is at most the lease, and so does ending once |
| Necessity.TwoEndings | apps/lambda-worker/internal/store/store.go:126-173 | with a longer time limit there is a run in which one job ends twice |
| Necessity.PatienceExact | terraform/environments/prod/main.tf:27-29 | deleting only finished jobs' messages holds in all runs if and only if the visibility timeout is at least lease plus time limit plus one second, or messages are received at most once; and so does losing no job |
| Necessity.LostJob | apps/lambda-worker/internal/worker/worker.go:68-71 | with a shorter visibility timeout there is a run in which the attempt that holds a job crashes, the redelivery is refused and the message deleted; the record stays processing in every continuation |
| Necessity.DeployedIsSafeLocalIsNot | terraform/environments/prod/main.tf:27-29 | the deployed constants satisfy both conditions, the local defaults neither |
| EventSource.FailedMessageIds | local/emulator/esm.py:139-180 | nothing is kept for a silent answer, exactly the named identifiers for a well-formed list, the whole batch for anything else |
| EventSource.DeletedUnlessNamed | local/emulator/esm.py:157-180 | a record is deleted exactly if the answer is silent about failures, or lists well-formed identifiers none of which is the record's |
| EventSource.Batch.DeleteMessages | local/emulator/esm.py:183-211 | only records not kept leave the queue, and all of them if the deletion succeeds |
| EventSource.Batch.ProcessBatch | local/emulator/esm.py:214-239 | without an answer nothing leaves the queue; with one, only what the answer does not keep |
| EventSource.IllFormedDeletesNothing | local/emulator/esm.py:157-179 | an answer that is neither silent nor a well-formed list deletes nothing |
| EventSource.AcknowledgementIsExact | apps/lambda-worker/internal/worker/worker.go:111-130 | for distinct identifiers, from handler to queue: a message may be deleted exactly if its body is unreadable or `Process` returned nil |
| Api.NarrativeRepository.PutInitialRecord | apps/api/app/repositories/narrative_repository.py:79-89 | inserts only if absent and never touches an existing record |
| Api.NarrativeService.CreateNarrative | apps/api/app/services/narrative_service.py:81-106 | a message is sent only for a valid request whose record was reported written, nothing existing changes, and a rejected request writes nothing |
| Api.CreateIsTheProtocolStep | apps/api/app/services/narrative_service.py:87-100 | the insertion is the protocol's step, and enqueueing is possible exactly after a reported insertion of a new record |
| Utf8.TruncateUTF8 | apps/lambda-worker/internal/extract/material.go:17-29 | the loop computes the specified prefix for all bytes |
| Utf8.TruncatedIsLongest | apps/lambda-worker/internal/extract/material.go:14-29 | for well-formed UTF-8: the longest prefix of whole characters that fits, well formed, at most three bytes short |
| Utf8.ValidIsEncoded | apps/lambda-worker/internal/extract/material.go:14-16 | well-formed bytes encode a sequence of scalar values (table in section 3 of RFC 3629) |
| Utf8.EncodedIsValid | apps/lambda-worker/internal/extract/material.go:14-16 | and every such encoding is well formed |
| Utf8.CutBetweenCharacters | apps/lambda-worker/internal/extract/material.go:24-28 | a prefix of well-formed text is well formed exactly if the next byte starts a character |
| Utf8.LossIsSmall | apps/lambda-worker/internal/extract/material.go:24-28 | for all bytes, a cut is at most three bytes short of the limit if and only if one of the four bytes at and before the limit starts a character, or the limit is at most three |
| Utf8.SpacedLosesLittle | apps/lambda-worker/internal/extract/material.go:24-28 | the bytes for which that holds under every limit are exactly those without four tail bytes in a row after the first byte |
| Utf8.TextIsSpaced | apps/lambda-worker/internal/extract/material.go:24-28 | well-formed text is among them |
| Utf8.NotTextMayVanish | apps/lambda-worker/internal/extract/material.go:24-28 | other bytes can lose everything, whatever the limit |
| Material.Budget.Take | apps/lambda-worker/internal/extract/material.go:218-226 | what is taken is deducted |
| Material.GreedyMeans | apps/lambda-worker/internal/extract/material.go:218-226 | every part gets the longest prefix that fits into what the parts before it have left |
| Material.BlockShowsFile | apps/lambda-worker/internal/extract/material.go:182-184 | a block is a line with the path, all bytes of the file and an empty line, position by position |
| Material.ConcatSplits | apps/lambda-worker/internal/extract/material.go:176-189 | concatenation keeps every part whole and in order |
| Material.BuildSelectedFiles | apps/lambda-worker/internal/extract/material.go:176-189 | the loop serves the file blocks greedily with what the earlier ones leave |
| Material.SelectMaterial | apps/lambda-worker/internal/extract/material.go:56-81 | tree, README, commit log and file blocks get, in this order, the longest prefix that fits into what is left of the budget; the files are the chosen ones |
| Material.OuterTakeIsIdle | apps/lambda-worker/internal/extract/material.go:77-77 | the outer cut around the selected files never cuts |
| Material.BudgetIsTight | apps/lambda-worker/internal/extract/material.go:50-55 | the sections total at most the budget for all bytes, and without long runs of tail bytes, as in text, at least the smaller of everything and the budget less three |
| Material.GreedyKeepsPriority | apps/lambda-worker/internal/extract/material.go:52-54 | likewise, once any section or file block is cut short, everything after it totals at most three bytes |
| Material.MaterialOfText | apps/lambda-worker/internal/extract/material.go:56-81 | for a repository of text, all four sections are text and fill the budget up to three bytes unless everything fits |
| Material.ChosenBlocksHoldEntries | apps/lambda-worker/internal/extract/material.go:176-189 | under one top directory, every chosen block shows, position by position, the listed path and the bytes of the archive entry written last under it |
| Material.ReadmeTextMeans | apps/lambda-worker/internal/extract/material.go:65-71 | the README section is about the shallowest README, the first of equals, and empty without one |
| Material.ReadmeHoldsEntry | apps/lambda-worker/internal/extract/material.go:68-71 | under one top directory its text is the bytes of the archive entry written last under that path |
| Material.FirstLineValid | apps/lambda-worker/internal/extract/material.go:209-212 | cutting a commit message at its first line break leaves well-formed text |
| Material.CommitLineMeans | apps/lambda-worker/internal/extract/material.go:207-214 | a commit is shown, position by position, as date, author and its message up to the first line break |
| Material.FormatCommitsSplits | apps/lambda-worker/internal/extract/material.go:203-216 | the commits follow one another |
| Material.DigestMeans | apps/lambda-worker/internal/extract/material.go:192-200 | the digest shows, position by position, the tree and the chosen paths, completely up to 300 KiB |
| Material.DigestIsText | apps/lambda-worker/internal/extract/material.go:191-200 | the digest is at most its limit and well-formed text |
| Material.BuildTree | apps/lambda-worker/internal/extract/material.go:84-91 | the tree does not depend on which sort orders the paths |
| Material.TreeMeans | apps/lambda-worker/internal/extract/material.go:84-91 | the tree lists the paths of all files in byte order |
| Material.JoinWithSplits | apps/lambda-worker/internal/extract/material.go:84-91 | with one separator between two lines |
| SourceFiles.FindReadme | apps/lambda-worker/internal/extract/material.go:94-109 | the loop finds the specified place |
| SourceFiles.ReadmeIsShallowest | apps/lambda-worker/internal/extract/material.go:93-109 | that place is a README no other README is shallower than, the first of equals; there is none exactly if no file qualifies |
| SourceFiles.ReadmeMeans | apps/lambda-worker/internal/extract/material.go:98-103 | a README is a file whose own name starts with these letters in any case; its depth is the number of its directories |
| SourceFiles.DepthCountsSlashes | apps/lambda-worker/internal/extract/material.go:102-102 | for all paths, the depth is the number of slashes |
| SourceFiles.SelectSourceFiles | apps/lambda-worker/internal/extract/material.go:142-173 | the chosen files are the first six of the stably sorted candidates |
| SourceFiles.TopIsBest | apps/lambda-worker/internal/extract/material.go:138-173 | the choice is in order of score, size and input place, contains only eligible files, none twice, and every eligible file left out is behind all six chosen |
| SourceFiles.ChosenAreBest | apps/lambda-worker/internal/extract/material.go:138-173 | the same by places in the listing, from paths, scores and sizes alone |
| SourceFiles.ScoreMeans | apps/lambda-worker/internal/extract/material.go:122-139 | what a file scores, by directories, stem and extension; an extension in capitals counts, but not for an entry point |
| SourceFiles.EntryPointsFirst | apps/lambda-worker/internal/extract/material.go:127-138 | among sources whose extension is in lower case, an entry point scores more than another file if and only if it is not a hundred directories or more further down |
| SourceFiles.ExcludedNeverChosen | apps/lambda-worker/internal/extract/material.go:44-48 | no file in one of the excluded directories is ever chosen |
| SourceFiles.NoExtensionNoSource | apps/lambda-worker/internal/extract/material.go:122-126 | a file without an extension is never chosen |
| SourceFiles.StableIsInOrder | apps/lambda-worker/internal/extract/material.go:158-163 | the stable sort by score and size alone is the sort by score, size and input place |
| Untar.FirstSegmentByIndex | apps/lambda-worker/internal/extract/extract.go:168-173 | cutting at the first slash gives the first segment |
| Untar.RelOfRow | apps/lambda-worker/internal/extract/extract.go:177-189 | in terms of path segments: the top directory is taken off exactly the paths that start with it |
| Untar.Untar | apps/lambda-worker/internal/extract/extract.go:75-143 | never copies more than cap plus one bytes; without path or I/O errors succeeds exactly if the regular bytes are at most the cap; then the disk holds the last bytes of every target and the listed sizes total at most what was copied; each kind of failure has its cause |
| Untar.ListingsAreComplete | apps/lambda-worker/internal/extract/extract.go:128-131 | listed are, in the order of the archive, exactly the regular entries that are not themselves the top directory, each by its names below it and with its size |
| Untar.TargetsAreRegular | apps/lambda-worker/internal/extract/extract.go:106-123 | written are exactly the regular entries, in order, each below the destination by its names |
| Untar.DiskHoldsEntries | apps/lambda-worker/internal/extract/extract.go:117-123 | nothing else is on the disk |
| Untar.BytesAddUp | apps/lambda-worker/internal/extract/extract.go:122-127 | the bytes that count against the cap are those of the regular entries, added up |
| Untar.TargetInside | apps/lambda-worker/internal/extract/extract.go:96-110 | once a name passes the first guard its target lies under the destination, so the second guard never fires |
| Untar.ListedWhereWritten | apps/lambda-worker/internal/extract/extract.go:102-131 | a listed path joined to the root directory is the path written if and only if the recorded top directory is the file's own, or `.` |
| Untar.OneTopDirectory | apps/lambda-worker/internal/extract/extract.go:69-74 | if the first entry of any type and all regular entries share a top directory, every listed path is found |
| Untar.ListedFileOnDisk | apps/lambda-worker/internal/extract/extract.go:106-131 | under one top directory, reading a listed file yields the bytes of the entry written last under its path |
| Untar.ExtensionHeaderMisleads | apps/lambda-worker/internal/extract/extract.go:102-105 | the hypothesis is needed: an extension header in front makes a listed file unreachable |
| Paths.CleanedName | apps/lambda-worker/internal/extract/extract.go:96-100 | a cleaned name that passes the guard is `.` or a row of plain names |
| Paths.CleanLeadsThere | apps/lambda-worker/internal/extract/extract.go:96-96 | cleaning changes the spelling of a path, not where following it leads from any directory |
| Paths.ClimbsMeans | apps/lambda-worker/internal/extract/extract.go:97-100 | a name passes the guard exactly if it is relative and leads, from wherever one starts, to one place below |
| Paths.JoinNames | apps/lambda-worker/internal/extract/extract.go:107-107 | joining a clean directory with a row of names appends the names |
| Sorting.SortedIsUnique | apps/lambda-stats/internal/stats/stats.go:229-234 | under an order that tells the elements apart, any two sorted permutations are equal |
| Stats.Rank | apps/lambda-stats/internal/stats/stats.go:239-254 | for every traversal of the map and every sort, the rows list each name once with its count, in rank order |
| Stats.RankingIsUnique | apps/lambda-stats/internal/stats/stats.go:186-189 | there is one such ranking |
| Stats.Aggregate | apps/lambda-stats/internal/stats/stats.go:190-217 | the loops compute metrics of the summary of the jobs |
| Stats.AggregateIgnoresOrder | apps/lambda-stats/internal/stats/stats.go:186-217 | jobs that are permutations of each other have the same metrics |
| Stats.ModelsAreConserved | apps/lambda-stats/internal/stats/stats.go:220-236 | model counts add up to the jobs that name a model; each model is listed exactly if it occurs, with its count and share |
| Stats.PromptsAreRanked | apps/lambda-stats/internal/stats/stats.go:239-254 | prompt counts are right, at most ten are kept, and every dropped prompt is less frequent than all ten, or as frequent and later in byte order |
| Stats.MetricsAreRanked | apps/lambda-stats/internal/stats/stats.go:229-251 | both published rankings are strictly ordered by count descending, then name ascending in byte order |
| Stats.UsageCountsJobs | apps/lambda-stats/internal/stats/stats.go:197-228 | a model's count is the number of jobs that ran it, its ratio times the number of jobs is that count |
| Stats.TrendCountsJobs | apps/lambda-stats/internal/stats/stats.go:200-203 | a prompt's count is the number of jobs whose trimmed prompt it is; empty prompts are not listed |
| Stats.TrimMeans | apps/lambda-stats/internal/stats/stats.go:201-201 | trimming takes off all white space at both ends and nothing else |
| Stats.TokensAreSummed | apps/lambda-stats/internal/stats/stats.go:204-207 | the token totals are the sums over all jobs |
| StatsStore.ScanJobs | apps/lambda-stats/internal/store/store.go:47-86 | for every split into pages the jobs of all pages are returned, or an error |
| StatsStore.ScanDeliversJobs | apps/lambda-stats/internal/store/store.go:71-76 | they are the projections of exactly the records that are not statistics, one each |
| StatsStore.JobsInMeans | apps/lambda-stats/internal/store/store.go:71-76 | skipped are exactly the items whose key starts with `STATS#`; every other item yields its job, in order |
| StatsStore.FlattenSplits | apps/lambda-stats/internal/store/store.go:52-84 | the pages follow one another |
| StatsStore.JobMeans | apps/lambda-stats/internal/store/store.go:109-141 | which attribute becomes which field of a job, and what missing or unreadable ones become |
| StatsStore.ItemMeans | apps/lambda-worker/internal/store/store.go:133-148 | the attributes of a stored record, by name |
| StatsStore.ParseInt64Means | apps/lambda-stats/internal/store/store.go:131-141 | exactly the decimal numbers of 64 bits, with or without a sign, are read, as what they denote |
| StatsStore.FormatNatMeans | apps/lambda-worker/internal/store/store.go:183-190 | numbers are printed in decimal digits without leading zeros |
| StatsStore.FormatIntParses | apps/lambda-stats/internal/store/store.go:131-141 | every 64-bit number the worker prints is read back |
| StatsStore.RecordRoundTrip | apps/lambda-stats/internal/store/store.go:109-120 | status, model, prompt and token counts of a job record reach the statistics unchanged |
| StatsStore.Writer.Write | apps/lambda-stats/internal/stats/stats.go:163-184 | three records under the day's keys in order, or an error after those before the failing put |
| StatsStore.WrittenMeans | apps/lambda-stats/internal/stats/stats.go:163-184 | each metric is written under its own key of the day, everything else in the table stays |
| StatsStore.SameJobsSameMetrics | apps/lambda-stats/internal/store/store.go:41-46 | tables with the same jobs yield the same metrics for every scan order, paging and map traversal, whatever statistics they hold |
| StatsStore.StatisticsAreStable | apps/lambda-stats/internal/stats/stats.go:162-184 | over any number of daily runs, complete or broken off, the metrics stay the same |

## Left out

- HTTP, DynamoDB, SQS, Bedrock and GitHub transport: atomic steps with arbitrary outcomes.
- gzip and tar decoding and the file system: an archive is a sequence of entries, a disk a map from paths to bytes; which operations fail is an input.
- Untar.Untar: what a failed copy leaves behind is not modelled; an archive that writes one path twice is listed twice, as in the code.
- Material.Block: a file that cannot be read is empty, as in the code; when reading fails is an input.
- SourceFiles.ToLower: lower-cases ASCII letters only; Unicode case mapping would not change which extensions and names are recognised except for a few letters that map into ASCII.
- Stats.Ratio: an exact quotient; floating-point rounding and 64-bit overflow of the sums are not modelled.
- Stats phase dispatch and the detection of a missing payload: plumbing around the modelled phases.
- StatsStore.StatisticsAreStable: nobody else writes during or between the runs; a scan sees one state of the table.
- Worker.Worker.Process: the services it calls are inputs, as behind the interfaces of the code; what is handed to them (the material and the custom prompt, say) and the clean-up of the temporary directory are not modelled.
- Several messages in one invocation: in the protocol each delivery is an attempt of its own, which allows more interleavings than a batch.
- Returning messages from the dead-letter queue, message retention and alarms.
- Request validation patterns, prompts, logging, pagination tokens, authentication, the reading endpoints of the API, the frontend and the infrastructure code, except for the timing constants.
