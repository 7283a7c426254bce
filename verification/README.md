# Verified models of the qualification tooling

This project models the parts of the repository that have to be right for every input and every run, and proves what they promise.

- **Canonical source archive.** A Git tree body is parsed and printed; a committed tree is traversed under budgets, compared with path lookup, and accepted exactly under stated conditions; the visible manifest is ordered; the raw tar validator is compared with a printer and with a reader. One set of bytes stands for one manifest. (`Bytes`, `Numerals`, `PaxComment`, `UstarHeader`, `TarArchive`, `GitTree`, `TreeWalk`, `TreeWalkTheorems`, `TreeAcceptance`, `VisibleManifest`)
- **Git child owner.** Every kernel call of the owner may fail; handles, exceptions and the two reader threads are accounted for on every path. (`GitChildOwner`)
- **Hash-chained evidence.** The HRE1 frame is injective; what a stored head hash fixes, and when. (`Hre1`, `EvidenceChain`)
- **Protocols as steps.** The stop-and-wait exchange over byte pipes, the permit-bounded harness and the locked transport gate are state machines. Each theorem is about all schedules. (`Exchange`, `Partition`, `PermitHarness`, `TransportGate`)
- **Streaming observers.** An observer that works by chunk and one that works by byte are compared with one specification of lines. (`LineObservers`)
- **Attribution and pairing.** Which turn a terminal event settles, how every field of the tracker is read off the run, and which call a result answers. (`EventTracker`, `TurnHistory`, `RunWitness`)
- **Statistics.** Nearest-rank percentiles, the benchmark report and its validator, the Wilson interval and interpolated percentiles. (`Ranking`, `BenchmarkReport`, `RoutingStatistics`)

Text is modelled as bytes, or as Dafny strings where only equality matters. SHA-256 is a parameter; where a result needs it, the absence of a collision among the strings actually hashed is a hypothesis of that result. Case folding is a parameter that neither makes nor removes a slash. Kernel outcomes and thread schedules are nondeterministic, and so is how far a clock moves between two readings; a wait that times out and a sleep move it.

Where the code does less than it seems to promise, the code is kept and the exact condition is proved:

- In any archive a file's path may be followed by a NUL and leave every byte as it is, exactly if the longer name has a spelling and the shorter one does not just fill its field (`TarArchive.NulTailCollides`); in general two manifests share an archive exactly when they store the same fields (`TarArchive.SharedArchiveIffSharedFields`). An archive gives its manifest back exactly when no stored name part ends in NUL, which every visible manifest meets.
- Two self-consistent lengths can exist for a pax comment; the loop settles on the smaller (`PaxComment.TwoSelfDescribingLengths`).
- The head hash of an open evidence session is absent, so it fixes no history; a head fixes the history exactly for sealed sessions (`EvidenceChain.HeadFixesHistoryIffSealed`). A session of a single event is always refused.
- The exchange has at most one unread frame, but a failing child may leave its last frame behind it (`Exchange.AtMostOneFrameUnread`).
- Admission and interruption commute for the whole state but the timing columns, which are filled in only when the interruption comes last. Two runs that differ in the order alone end in different columns (`EventTracker.TimingDependsOnOrder`); the states agree exactly when the marks at hand, read before either event, leave the columns empty (`EventTracker.EitherOrder`).
- The transport response count equals the sum of the lane counts exactly when nothing saturated or one lane only was used (`TransportGate.QuiescentCounts`).
- A report made of a finished benchmark is valid exactly under the fixed repetitions and calls (`BenchmarkReport.ReportIsValidIffFixedWorkload`), but the warmups and ticker settings that it states are constants: it is the same report whatever settings were run (`BenchmarkReport.SettingsLeaveNoTrace`).

## Model

| member | source | states |
|---|---|---|
| PaxComment.PaxCommentLoop | scripts/candidate_source_archive_oracle.py:1615-1622 | the length loop ends for an identifier of any length and returns the canonical record |
| PaxComment.StepRises | scripts/candidate_source_archive_oracle.py:1618-1622 | the length map is monotone on the iterates: each one rises and stays bounded by twice the body |
| PaxComment.CanonicalIsLeastSelfDescribing | scripts/candidate_source_archive_oracle.py:1615-1622 | the record begins with the decimal of its own total length, and no shorter self-describing record has the same comment |
| PaxComment.TwoSelfDescribingLengths | scripts/candidate_source_archive_oracle.py:1618-1622 | for 87-byte identifiers 99 and 100 both describe themselves, so self-description alone is not canonical; the loop gives 99 |
| PaxComment.ReadCanonical | scripts/candidate_source_archive_oracle.py:1615-1622 | a record reader takes the identifier and the record size back off the front of any continuation |
| PaxComment.RecordIsSpelled | scripts/candidate_source_archive_oracle.py:1615-1622 | the record is its own length in decimal, " comment=", the identifier and a line feed |
| Numerals.OctalField | scripts/candidate_source_archive_oracle.py:1625-1628 | the zero-padded, NUL-ended octal field, of the width asked for when the value fits |
| Numerals.ReadOctalField | scripts/candidate_source_archive_oracle.py:1625-1628 | reading a canonical number field gives the value back, whatever the width |
| UstarHeader.PathOfIsInverse | scripts/candidate_source_archive_oracle.py:1633-1635 | the archive name determines path and kind spelling: the reader inverts the naming in both directions |
| UstarHeader.CanonicalNamePrefix | scripts/candidate_source_archive_oracle.py:1631-1648 | the descending search finds the greatest admissible split, and refuses exactly when there is none or the name is not ASCII |
| UstarHeader.SplitBelow | scripts/candidate_source_archive_oracle.py:1642-1648 | the split is the last slash with a prefix of 1 to 155 and a name of 1 to 100 bytes; None means there is no such slash |
| UstarHeader.SpelledExactly | scripts/candidate_source_archive_oracle.py:1636-1648 | a name has a spelling exactly if it is ASCII and has at most 100 bytes or a slash with 1 to 155 bytes before and 1 to 100 after it; it is divided at the last such slash |
| UstarHeader.NameReadsBack | scripts/candidate_source_archive_oracle.py:1631-1648 | the padded fields give the full name back if and only if neither part ends in a NUL byte |
| UstarHeader.NulTailIsInvisible | scripts/candidate_source_archive_oracle.py:1631-1648 | a file's path and the same path with a final NUL have identical name fields exactly if the longer name has a spelling and the shorter one is not just 100 bytes long |
| UstarHeader.MatchesIsBlock | scripts/candidate_source_archive_oracle.py:1657-1682 | passing every slice comparison and the checksum comparison is being one particular 512-byte block |
| UstarHeader.MemberHeaderIsUnique | scripts/candidate_source_archive_oracle.py:1651-1682 | the member header check accepts exactly one block per member and timestamp, and none when a field does not fit |
| UstarHeader.FitsExactly | scripts/candidate_source_archive_oracle.py:1625-1628 | a value fits an 8-byte field exactly below 2^21 and a 12-byte field exactly below 2^33 |
| UstarHeader.AcceptedHeadersCarryTheirSum | scripts/candidate_source_archive_oracle.py:1654-1662 | every accepted header, of a member or global, stores the sum of its 512 bytes with the checksum field read as eight spaces |
| UstarHeader.AcceptedHeadersAreUstar | scripts/candidate_source_archive_oracle.py:1651-1704 | by the rules of the format alone, every accepted header has the ustar magic and version, owner and group 0 and root, no link and no device, its type, mode, size and time; the global one is named pax_global_header |
| UstarHeader.AcceptedHeadersNameTheirMember | scripts/candidate_source_archive_oracle.py:1631-1668 | the name that the format joins from the two name fields is the release directory, the path, and a slash on directories, for every path without NUL |
| UstarHeader.HeaderIsItsFields | scripts/candidate_source_archive_oracle.py:1651-1682 | two members have the same accepted header exactly if their padded name parts, kind, mode and size agree |
| UstarHeader.GlobalHeaderIsUnique | scripts/candidate_source_archive_oracle.py:1685-1704 | the global header check accepts exactly one block per record size and timestamp |
| UstarHeader.ReadMemberHeader | scripts/candidate_source_archive_oracle.py:1651-1682 | an independent reader recovers path, kind, mode and size from an accepted header if and only if the member is recoverable |
| TarArchive.ParseRawTar | scripts/candidate_source_archive_oracle.py:1707-1742 | the validator accepts data if and only if it is the print of head, timestamp, manifest and some payloads followed by at least two zero blocks |
| TarArchive.AcceptanceIsPrinting | scripts/candidate_source_archive_oracle.py:1707-1742 | the checks, written as predicates, hold exactly for printed archives |
| TarArchive.FirstIsPrinted | scripts/candidate_source_archive_oracle.py:1725-1738 | one accepted stretch is one printed member with its payload and zero filler |
| TarArchive.EarlyRefusals | scripts/candidate_source_archive_oracle.py:1726-1731 | the size, zero-block and extension checks before the header check refuse nothing the header check would accept |
| TarArchive.ReadPrintedArchive | scripts/candidate_source_archive_oracle.py:1707-1742 | a reader that knows no manifest recovers head, timestamp, every path, kind, mode, size and payload if and only if every member is recoverable |
| TarArchive.BytesFixArchive | scripts/candidate_source_archive_oracle.py:1707-1742 | the same bytes are never accepted for two recoverable manifests that differ in path, kind, mode, size or payload |
| TarArchive.SharedArchiveIffSharedFields | scripts/candidate_source_archive_oracle.py:1707-1742 | an archive of one manifest is an archive of another exactly when head, timestamp, payloads and zero blocks are the same and each member stores the same fields; nothing is assumed of the names |
| TarArchive.NulTailCollides | scripts/candidate_source_archive_oracle.py:1707-1742 | in any archive with any members, adding a NUL to a file's path leaves the bytes an archive of the changed manifest exactly under the condition of the name fields |
| TarArchive.AcceptedArchiveIsUstar | scripts/candidate_source_archive_oracle.py:1707-1742 | in an accepted archive the global header and each member header stand where the sizes put them, carry their sums and fixed fields, and each payload follows its header |
| TarArchive.AcceptedArchiveIsClosed | scripts/candidate_source_archive_oracle.py:1715-1742 | the global record of an accepted archive reads as the head, and after the last member come at least 1024 bytes, all zero |
| GitTree.ParseLoop | scripts/candidate_source_archive_oracle.py:1489-1529 | the positional loop over one tree body computes the parse and refuses exactly what it refuses |
| GitTree.Next | scripts/candidate_source_archive_oracle.py:1495-1509 | a step ends strictly after it began and never past the end of the body |
| GitTree.ParseInvertsPrint | scripts/candidate_source_archive_oracle.py:1489-1529 | a body parses to entries if and only if it is the print of those entries and they are well formed |
| TreeAcceptance.EntrySpelled | scripts/candidate_source_archive_oracle.py:1495-1509 | an entry is its mode, a space, its name, a NUL and a name of 20 bytes, with no space in the mode and no NUL in mode or name; a directory has mode 40000 |
| TreeWalk.Fetch | scripts/candidate_source_archive_oracle.py:1436-1445 | an object is returned only from the store, within the read limit and with the hash it is named by |
| TreeWalk.Walker.Visit | scripts/candidate_source_archive_oracle.py:1477-1529 | the recursive visit changes sets, maps and counters exactly as the specification of the traversal, for cyclic stores too; on both outcomes objects, entries, tree bytes, blob bytes, recorded paths and their depth stay within bounds |
| TreeWalk.Walker.Take | scripts/candidate_source_archive_oracle.py:1492-1527 | one entry: the sibling and path checks, then descent or the bounded blob read, with the same bounds on both outcomes |
| TreeWalk.Walker.Run | scripts/candidate_source_archive_oracle.py:1468-1534 | the whole traversal succeeds or fails as specified and always ends; for any store, accepted or refused, it touches at most 2048 trees and 8193 entries, reads at most 4 MiB of trees and 32 MiB of blobs, and records no path deeper than 65 components |
| TreeAcceptance.AcceptedIffAcceptable | scripts/candidate_source_archive_oracle.py:1468-1534 | for every store the traversal accepts a root exactly when the root unfolds into a finite tree in which every object is there with its hash, every body parses, no tree is reached twice, names are text, free of slashes and apart from their siblings under folding, full paths are safe, every entry is a directory or a plain or executable file with a hash-right blob of at most 4 MiB, and depth and totals are within the budgets |
| TreeAcceptance.OneFileIsAccepted | scripts/candidate_source_archive_oracle.py:1511-1525 | a root with one plain or executable file under a safe name is accepted |
| TreeAcceptance.SafePathExactly | scripts/candidate_source_archive_oracle.py:1448-1465 | a path is safe exactly if it has 1 to 1024 characters, no backslash or colon, and only parts that are not empty, a dot or two, that end in neither space nor dot, hold no control character and none of the eight others, and whose folded stem is no device name |
| TreeAcceptance.PartsJoin | scripts/candidate_source_archive_oracle.py:1452-1452 | the parts are free of slashes and join to the path |
| TreeAcceptance.ReservedExactly | scripts/candidate_source_archive_oracle.py:1460-1464 | the device names are con, prn, aux, nul, com1 to com9 and lpt1 to lpt9 |
| TreeWalkTheorems.WalkIsLookup | scripts/candidate_source_archive_oracle.py:1468-1534 | a finished traversal recorded exactly the paths that component-wise lookup resolves, with mode and blob bytes, all of them safe |
| TreeWalkTheorems.WalkIsClosedAndDistinct | scripts/candidate_source_archive_oracle.py:1468-1534 | every recorded path lies in a recorded directory, files and directories are disjoint, and no two full paths fold alike |
| TreeWalkTheorems.FoundPathsFoldApart | scripts/candidate_source_archive_oracle.py:1504-1507 | comparing sibling names alone keeps all full paths apart under case folding |
| TreeWalkTheorems.WalkWithinBudgets | scripts/candidate_source_archive_oracle.py:1478-1533 | a finished traversal stayed within its object, entry, tree-byte, blob-byte and candidate budgets; its directories have at most 64 components and its files at most 65 |
| TreeWalkTheorems.SafePathIsNulFree | scripts/candidate_source_archive_oracle.py:1448-1465 | a safe path holds no control character, hence no NUL |
| VisibleManifest.SortPaths | scripts/candidate_source_archive_oracle.py:1592-1595 | the paths, each once, in the order of their keys with a slash on directories |
| VisibleManifest.CollectIgnored | scripts/candidate_source_archive_oracle.py:1572-1583 | the omitted paths are exactly those with the ignore attribute set; an unusable attribute refuses the tree |
| VisibleManifest.SettingsInWords | scripts/candidate_source_archive_oracle.py:1572-1583 | which attribute settings are taken, and which one leaves a path out |
| VisibleManifest.MembersInWords | scripts/candidate_source_archive_oracle.py:1588-1608 | the kind, Git mode, archive mode, size and digest of every member: 0775 for directories and executable files, 0664 for plain files |
| VisibleManifest.BuildManifest | scripts/candidate_source_archive_oracle.py:1567-1612 | a manifest is built if and only if attributes are usable, every visible name has a spelling and the member cap holds; it lists the root and the visible paths in order |
| VisibleManifest.OmissionTakesSubtrees | scripts/candidate_source_archive_oracle.py:1585-1598 | omitting a path omits its whole subtree, and what is kept keeps its ancestors |
| VisibleManifest.OrderIsPreorder | scripts/candidate_source_archive_oracle.py:1592-1601 | a directory precedes its descendants and nothing else stands between them |
| VisibleManifest.VisibleOrderOfWalk | scripts/candidate_source_archive_oracle.py:1567-1607 | for every finished traversal the visible order is closed under parents and is a depth-first preorder |
| VisibleManifest.VisibleManifestIsRecoverable | scripts/candidate_source_archive_oracle.py:1567-1612 | every visible manifest meets the condition under which its archive can be read back |
| GitChildOwner.Kernel.CloseHandle | scripts/candidate_source_archive_oracle.py:804-805 | may only be asked once per issued handle, and never for a pipe whose reader runs |
| GitChildOwner.Kernel.ResumeThread | scripts/candidate_source_archive_oracle.py:907-909 | may only be asked for a child that was assigned to the job, after the parent closed its copies of the inherited handles |
| GitChildOwner.Owner.CloseOnce | scripts/candidate_source_archive_oracle.py:837-840 | closes a handle unless it is null or closed before, and remembers the attempt even when it fails |
| GitChildOwner.Owner.WaitUntilExit | scripts/candidate_source_archive_oracle.py:848-864 | ends well only when the child is seen to end; it goes on after a poll that timed out, and gives up for lack of time only at the deadline; an unexpected status is told as it was, and a reader's error is raised only where readers are watched |
| GitChildOwner.Owner.WaitForSuccess | scripts/candidate_source_archive_oracle.py:866-873 | succeeds only with exit code 0; 259 and other codes are told apart |
| GitChildOwner.Owner.ProveZeroActive | scripts/candidate_source_archive_oracle.py:875-882 | succeeds only when the last active-process count was 0, and gives up on another count only at the deadline |
| GitChildOwner.Owner.Attempt | scripts/candidate_source_archive_oracle.py:893-938 | the try block: output only after the child was assigned, resumed and seen to end with exit code 0, with count 0 and two readers that ended without error; otherwise exactly one primary exception |
| GitChildOwner.Owner.Cleanup | scripts/candidate_source_archive_oracle.py:940-991 | every handle is attempted, except cancelled read pipes of a living reader, which is reported; after a failure the child is told to end once, through its Job if the kernel has it there and else alone, and is seen to end or the failing wait is reported; the Job is seen empty or that is reported; thread, process and Job are closed last, in this order |
| GitChildOwner.Owner.Run | scripts/candidate_source_archive_oracle.py:821-999 | for every pattern of kernel failures: no double close, no leak but the reported one, the right target ended, bytes only after proven success, no lack of time before the deadlines of 30 and 5 seconds, and every exception, the primary first, in what is raised |
| Hre1.BuildFrame | scripts/evidence_protocol_oracle.py:57-108 | the growing frame is the specified frame, and it raises exactly when a field is not canonical |
| Hre1.FrameIdentifiers | scripts/evidence_protocol_oracle.py:70-80 | the identifier loop accepts exactly four canonical version-four UUIDs |
| Hre1.FrameInjective | scripts/evidence_protocol_oracle.py:57-108 | equal frames have equal fields, the optional previous hash included |
| Hre1.ReadBuiltFrame | scripts/evidence_protocol_oracle.py:57-108 | an independent reader takes all fields back out of a frame, the identifiers with their dashes and the numbers big endian |
| Hre1.FramedExactly | scripts/evidence_protocol_oracle.py:70-106 | a record is framed exactly if identifiers, time and digests match their patterns, the kind is known and the sequence is 1 to 9216 |
| EvidenceChain.CheckSession | scripts/evidence_observation.py:318-408 | the loop and the checks after it accept a session exactly when each event fits its predecessor, its payload, its frame and the snapshot parser, when counts, size and head agree, when a seal repeats what the first event says, and when the first two events carry the row's epoch and opening time |
| Bytes.LeqIsRising | scripts/evidence_observation.py:330-330 | the order of strings: one comes before another exactly if it begins it or is lower at their first difference |
| EvidenceChain.TimesNeverFall | scripts/evidence_observation.py:319-331 | in an accepted session any two event times are the same or rise at their first difference, and none is before the creation |
| EvidenceChain.AcceptedMeans | scripts/evidence_observation.py:318-408 | acceptance told without the loop: each event follows from the one before it alone, totals are those of the payloads, and head, final number and phase fit |
| EvidenceChain.SealInWords | scripts/evidence_observation.py:384-396 | what the last two events of a sealed session must be and repeat |
| EvidenceChain.OpeningInWords | scripts/evidence_observation.py:400-408 | what the first two events of every session must carry |
| EvidenceChain.HashFixesRecord | scripts/evidence_observation.py:339-356 | when no two strings hashed in the two sessions collide, equal record hashes at any two places mean equal places, records and previous hashes |
| EvidenceChain.SealedHeadFixesHistory | scripts/evidence_observation.py:321-396 | two accepted sealed sessions with equal heads that hash no colliding strings have the same identity and the same events, frame by frame |
| EvidenceChain.OpenHeadFixesNothing | scripts/evidence_observation.py:379-408 | dropping the last event of an accepted open session of three events or more leaves an accepted open session with the same head |
| EvidenceChain.OpenHeadFixesNoIdentifier | scripts/evidence_observation.py:379-408 | an open session stays accepted, with the same head, when its last event gets another such identifier and is hashed anew |
| EvidenceChain.HeadFixesHistoryIffSealed | scripts/evidence_observation.py:321-408 | the head of an accepted session fixes its history exactly when the session is sealed; for an open session of two events, which cannot be cut, provided the hash leaves one more identifier for its last event |
| Exchange.Pipe.WriteFrame | scripts/equivalence_process.py:154-160 | exactly unless the frame is over 262144 bytes or a write is refused, the whole frame is written, in pieces; otherwise only a proper prefix of it |
| Exchange.Pipe.ReadFrame | scripts/equivalence_process.py:91-123 | a frame is read exactly if a first line is there within the bound and within the polls before the deadline; it is that line, and never a byte of the next one |
| Exchange.FirstLine | scripts/equivalence_process.py:114-120 | the first line on a pipe is the frame that was written first |
| Exchange.AcceptsOnlyReports | scripts/equivalence_process.py:430-471 | the parent's checks accept exactly the reports this child can make of the stage: its nonce, its number, its name and the kind of observation it calls for |
| Exchange.ParentGoesOn | scripts/equivalence_process.py:412-478 | from any state, sound or not, a byte moves the parent on exactly if it completes such a report within the bound; it then acknowledges that number and records an arm's observation; any other complete or overlong line ends it |
| Exchange.ChildGoesOn | scripts/equivalence_worker.py:235-249 | from any state a byte moves the child on exactly if it completes a configuration, or the acknowledgment of the report it sent last; any other complete or overlong line makes it fail |
| Exchange.ChildReports | scripts/equivalence_worker.py:235-249 | each report names the stage in its place, and is begun exactly if it fits the bound |
| Exchange.FailsAloud | scripts/equivalence_worker.py:316-344 | a failing child tells so with its number exactly when it is configured and not in the middle of a frame |
| Exchange.StepKeeps | scripts/equivalence_process.py:393-478 | every step of either side, failures included, keeps what is in flight on both pipes equal to whole frames |
| Exchange.CompletedRowsAreTheArms | scripts/equivalence_process.py:412-478 | a completed exchange recorded exactly the child's arm observations, once each and in order, between a port and an empty one; a child that has all its acknowledgments, even one that then fails to mark its exit, has a completed parent |
| Exchange.AtMostOneFrameUnread | scripts/equivalence_worker.py:235-249 | parent and child sequence numbers stay within one, and at most one frame is unread on both pipes, besides the last words of a failed child |
| Exchange.EveryStepLowers | scripts/equivalence_process.py:412-478 | every step, failures included, lowers a bounded measure, so every run ends |
| Exchange.NoDeadlock | scripts/equivalence_process.py:393-478 | in every reachable state without failure, some side can write, read or report until both are done |
| Exchange.PoliteExchangeCompletes | scripts/equivalence_worker.py:291-314 | if nothing fails and each report suits its stage and fits the bound, no check ever refuses and the exchange goes on to completion |
| Partition.PartitionAny | scripts/benchmark_evidence_admission.py:417-427 | the ranges follow each other, cover the calls exactly and differ in length by at most one; it refuses exactly negative calls or no producers |
| Partition.WidthsSum | scripts/benchmark_evidence_admission.py:417-427 | all producers together get all the calls |
| Partition.PartitionsAgree | scripts/benchmark_evidence_admission.py:375-387 | on a fixed profile the equal ranges are those of the general partition |
| PermitHarness.StepKeeps | scripts/benchmark_evidence_admission.py:595-773 | every step of every thread, failures and cancellation included, keeps permits, counts and phases consistent |
| PermitHarness.PermitsAreConserved | scripts/benchmark_evidence_admission.py:637-721 | under every interleaving free, held, queued, in-hand and lost permits are 32 and 32 per producer more for each failure; cancelled or not, at most 32 admitted records are incomplete, and none is ever dropped |
| PermitHarness.StoppedIsExact | scripts/benchmark_evidence_admission.py:655-676 | unless the run was cancelled, a consumer that stopped completed exactly calls plus warmups, and all permits are free |
| PermitHarness.NeverTooMany | scripts/benchmark_evidence_admission.py:655-721 | no run, cancelled or not, completes more than calls plus warmups |
| PermitHarness.WarmupsComeFirst | scripts/benchmark_evidence_admission.py:679-721 | unless the run was cancelled, exactly the warmups are admitted before the start, and exactly these and the calls when the producers have joined |
| PermitHarness.WhoLosesAPermit | scripts/benchmark_evidence_admission.py:679-721 | a producer whose admission raises loses its permit while warming up and returns it in the timed window, besides the permits that wake the others |
| PermitHarness.NeverStuck | scripts/benchmark_evidence_admission.py:637-780 | until every thread has returned some thread can take a step: in a cancelled run whoever waits for a permit, the barrier, the start or a record is woken |
| PermitHarness.EveryStepLowers | scripts/benchmark_evidence_admission.py:637-780 | every step, failures included, lowers a measure that stays nonnegative, so every schedule ends |
| LineObservers.SplitJoins | scripts/lookup_backend_gateway.py:146-163 | the lines and the rest hold no line feed and join to the stream |
| LineObservers.SplitIsUnique | scripts/lookup_backend_gateway.py:146-163 | no other lines and rest do |
| LineObservers.ShortLinesAreKept | scripts/lookup_backend_gateway.py:151-161 | exactly the lines of at most 8192 characters are observed, each in its place among them |
| LineObservers.OversizedExactly | scripts/lookup_backend_gateway.py:151-157 | the others are counted as too long, an unfinished one as soon as it is |
| LineObservers.EventsAreParsed | scripts/lookup_backend_gateway.py:120-135 | the events are what the parser makes of the lines that begin with the marker, in order |
| LineObservers.FactsShow | scripts/lookup_backend_gateway.py:111-136 | the facts are the first sixteen events and the numbers of events, of other lines with the marker, of lines too long and of events left out, each up to a million |
| LineObservers.FactsGrow | scripts/lookup_backend_gateway.py:120-136 | handling one more line keeps the first sixteen events and the saturating counts of all lines seen |
| LineObservers.PolicyDiagnosticTee.Write | scripts/lookup_backend_gateway.py:138-164 | for every chunk and delegate result, the thread's unfinished line and the facts are those of the accepted streams, and saving is tried once for each line with the marker and each line that becomes too long |
| LineObservers.ThreadsNeverMix | scripts/lookup_backend_gateway.py:138-164 | whatever the interleaving, the lines observed of a thread are the complete lines of at most 8192 characters of its own stream |
| LineObservers.ChunkingDoesNotMatter | scripts/lookup_backend_gateway.py:138-164 | the observed lines depend on the stream alone, not on how it was cut |
| LineObservers.CappedCapture.Feed | scripts/lookup_backend_logs.py:47-72 | for every chunk, stored bytes, cap flags, unfinished line, categories with their times, and first and last byte times are those of the whole stream fed |
| LineObservers.CappedCapture.Finish | scripts/lookup_backend_logs.py:102-122 | an unfinished last line that is not too long is observed too, at the time of the last chunk |
| LineObservers.ItemMeans | scripts/lookup_backend_logs.py:74-100 | a category is kept exactly if an observed line falls under it, with the saturated number of such lines and the times of the first and the last of them |
| LineObservers.StampsAreOfLineFeeds | scripts/lookup_backend_logs.py:47-72 | the time of a line is that of the chunk that held its line feed |
| LineObservers.ObserversAgree | scripts/lookup_backend_logs.py:47-72 | the capture by byte counts the same lines, whatever their times, as the tee by chunk observes of the same stream |
| EventTracker.Tracker.BeginTurn | scripts/native_typed_journey.py:141-159 | starts a turn with all earlier pairs marked as seen, up to twelve turns |
| EventTracker.Tracker.ReconcileInterruptions | scripts/native_typed_journey.py:169-180 | picks the first remembered interruption that is a candidate, and changes nothing when there is none |
| EventTracker.Tracker.ConsumeBatch | scripts/native_typed_journey.py:182-278 | field by field, a batch has the effect of consuming its events one by one, and is refused exactly when one of them or its size is |
| EventTracker.NothingIsRewritten | scripts/native_typed_journey.py:141-278 | over any run a turn's bound pair never changes and a settled outcome never changes |
| EventTracker.SettledPairsAreDistinct | scripts/native_typed_journey.py:141-278 | a bound pair was unseen when its turn began, and settled turns have pairwise distinct pairs |
| EventTracker.LateTerminalDecidesNothing | scripts/native_typed_journey.py:249-261 | a terminal event for a pair seen before the turn changes neither its outcome nor its pair |
| EventTracker.EarlierPairsAreLate | scripts/native_typed_journey.py:141-159 | the pairs of earlier settled turns are such pairs |
| EventTracker.UnboundCount | scripts/native_typed_journey.py:169-261 | over any run the unbound count is never negative: it is the number of terminal events since the turn began that were not of the pair bound on their arrival, less one if the turn's outcome came by reconciliation |
| EventTracker.ReconciledIsOwn | scripts/native_typed_journey.py:169-180 | a reconciled turn holds an interruption of its own pair with its own admitted input sequence and binding |
| EventTracker.DeliveredIsARun | scripts/native_typed_journey.py:182-203 | events delivered one after the other, each numbered next, continue the run |
| EventTracker.EitherOrder | scripts/native_typed_journey.py:169-278 | in any run, whatever events that bind, admit and end nothing arrive between them, the admission of a turn's input and its one interruption with the same input may change places: both orders are refused together and agree on the whole state but the timing columns, and they agree on these exactly when the pair's marks, known before, leave the columns empty |
| EventTracker.TimingDependsOnOrder | scripts/native_typed_journey.py:182-278 | two runs of four inputs that differ in the order of admission and interruption alone: the first-token column is filled in one and empty in the other |
| TurnHistory.OutcomeIsDecided | scripts/native_typed_journey.py:169-261 | over any run a turn is completed exactly if the first terminal event that matched its pair on arrival, with nothing reconciled before, was a completion; it is interrupted exactly if that event was an interruption or the turn was reconciled; never both |
| TurnHistory.BindingIsRead | scripts/native_typed_journey.py:169-261 | over any run one more event binds a turn exactly if it is a first token of an unknown pair once the user was heard and the input admitted, and reconciles it exactly if it is pending and a remembered interruption of its own input fits; the first that fits gives the pair |
| TurnHistory.PendingFitsNothing | scripts/native_typed_journey.py:169-180 | a pending turn remembers no interruption that fits |
| TurnHistory.InterruptionsAreRead | scripts/native_typed_journey.py:253-260 | remembered are the first interruptions of each pair since the turn began, unless the pair was bound |
| TurnHistory.AdmissionIsRead | scripts/native_typed_journey.py:219-229 | the user was heard exactly if a final transcript of theirs came, each with the turn's text; the input was admitted exactly if an admission came, each for the turn's input, and the admitted input is the first one's |
| TurnHistory.TurnIsItsOpening | scripts/native_typed_journey.py:141-159 | name, input sequence, text and starting clock of a turn are those it was begun with |
| TurnHistory.SeenIsKnown | scripts/native_typed_journey.py:215-248 | a pair is seen exactly if text or an end showed it in a turn, or any event at all before the first turn |
| TurnHistory.PriorIsKnownEarlier | scripts/native_typed_journey.py:141-159 | a turn may not be bound to exactly the pairs seen before it began |
| TurnHistory.MarksAreFirst | scripts/native_typed_journey.py:230-232 | a pair's marks are the clocks of its first token and of its first playable audio since the first turn began |
| TurnHistory.ColumnsAreRead | scripts/native_typed_journey.py:262-278 | the segment counts are those of the bound pair's own events, and each timing column is the difference of the first clocks, if it is not negative, once such an event has come |
| TurnHistory.EarlierRowsStand | scripts/native_typed_journey.py:141-278 | the rows of earlier turns stay as they were when the current one began |
| TurnHistory.TasksAreLatest | scripts/native_typed_journey.py:205-214 | a task stands as it was last reported, in a turn or between turns |
| TurnHistory.RefusedExactly | scripts/native_typed_journey.py:182-261 | an event is refused exactly if its number, clock or size is wrong, its task is malformed or one too many, it carries another turn's text or input, or one more pair or unmatched end than 128 would be kept |
| TurnHistory.TwelveTurns | scripts/native_typed_journey.py:141-142 | there is one row a turn, and exactly the thirteenth is refused |
| TransportGate.Gate.Admit | scripts/lookup_backend_gateway.py:263-353 | the locked section checks, marks and counts exactly as the gate's step, and changes nothing when it refuses |
| TransportGate.LaneIsBound | scripts/lookup_backend_gateway.py:263-353 | what is let through carries the open scope's own query or one of its URLs to the fixed endpoint; metadata reads pass outside scopes only, and nothing else passes in frozen mode |
| TransportGate.AdmittedExactly | scripts/lookup_backend_gateway.py:263-353 | exactly which requests each lane lets through: method, address, body, timeout and retries, the open scope's query or unspent URL, and the three caps |
| TransportGate.ScopesAreOpened | scripts/lookup_backend_gateway.py:625-663 | a thread has open the search and the extract it began last and has not ended, with a limit of at least one |
| TransportGate.AllowedAreFound | scripts/lookup_backend_gateway.py:634-658 | in proof mode the allowed URLs are those an extract was begun for after a successful search had brought them |
| TransportGate.StepKeeps | scripts/lookup_backend_gateway.py:260-417 | each locked section keeps scopes, spent marks, sources and counts consistent |
| TransportGate.ForwardedOnce | scripts/lookup_backend_gateway.py:307-353 | under every interleaving a search scope forwards at most once and an extract scope each URL at most once; in proof mode each extract URL was returned by an earlier successful search |
| TransportGate.ProofCaps | scripts/lookup_backend_gateway.py:275-353 | in proof mode at most five searches, three extracts and two metadata reads are forwarded |
| TransportGate.QuiescentCounts | scripts/lookup_backend_gateway.py:408-417 | with all threads idle the response count equals the lane counts together exactly when nothing saturated or one lane only was used |
| TransportGate.WitnessShows | scripts/lookup_backend_gateway.py:290-417 | every count of the witness, up to a thousand million, the first sixteen responses and the first eight denials, and whether some were left out |
| TransportGate.RefusalsAreDenied | scripts/lookup_backend_gateway.py:368-417 | under every interleaving the refused requests and rejected answers are the denials counted and those about to be |
| RunWitness.WebRowCounts | scripts/native_run_witness.py:79-101 | the loop counts rows, usable, erroneous, empty and unbound rows |
| RunWitness.CountsArePlaces | scripts/native_run_witness.py:79-101 | each count is the number of places of the rows it is about: usable ones are objects with a public address, text and no fault, in a bound source, without a call error |
| RunWitness.RowsAreAccountedFor | scripts/native_run_witness.py:79-101 | usable rows have no fault, there are none under a call error or an unbound source, and without a call error each row is usable or has a counted fault |
| RunWitness.JudgeResult | scripts/native_run_witness.py:240-338 | the judgement steps, in the order of the loop and with the row counts, give the specified verdict or refusal |
| RunWitness.VerdictIsExclusive | scripts/native_run_witness.py:240-338 | a judged result is a success or an error, never both, and only a success that brought a usable row is usable |
| RunWitness.ValidExactly | scripts/native_run_witness.py:241-319 | when a result is judged and when it is a success: never with an error field or success false; a search must say success and bring rows, an extract bring text for exactly the addresses asked for, a status be shaped and asked without command lines, and the two finding tools need nothing more |
| RunWitness.UsableExactly | scripts/native_run_witness.py:321-336 | a result is usable exactly if it is a success of a web tool with a row of evidence, for an extract of named addresses |
| RunWitness.RowsJudged | scripts/native_run_witness.py:321-334 | which rows a verdict counts, and when their source is bound |
| RunWitness.AcceptedIffWellPaired | scripts/native_run_witness.py:197-339 | the loop accepts exactly the records in which calls are distinct, known and at most 128, and each result answers one earlier call of its tool |
| RunWitness.CallsAreConserved | scripts/native_run_witness.py:197-350 | calls seen are paired results plus pending calls, and records are calls plus results |
| RunWitness.ToolsAreAccountedFor | scripts/native_run_witness.py:245-339 | per tool, paired results are its results, errors plus successes are all of them, and usable results are successes |
| RunWitness.ToolsShareTheResults | scripts/native_run_witness.py:224-339 | the results of the five known tools are all results |
| RunWitness.ToolRowsAddUp | scripts/native_run_witness.py:321-334 | a tool's row counts are those of its results added up; no usable row has a fault, and each usable result brought a usable row |
| RunWitness.PairSuccess | scripts/native_run_witness.py:341-349 | pair success holds exactly when every call was answered, there was a result, and every result is a success for the call it answers |
| RunWitness.RowEventsMeans | scripts/native_run_witness.py:197-230 | a message is in shape exactly if at most 64 complete proposals stand in it, in the assistant's alone, and a tool's message names its call and holds a result; its events are these in order |
| RunWitness.BoundsMean | scripts/native_run_witness.py:176-188 | at most 512 messages, of 256 KiB in either text and 2 MiB together |
| RunWitness.Read | scripts/native_run_witness.py:171-350 | a summary is given exactly for a run ended before it had a session, or for the API server's session with stored texts within bounds and well-paired records without open calls, or with some if the run was cancelled or interrupted |
| Ranking.SortSorts | scripts/benchmark_evidence_admission.py:371-371 | sorting orders the samples and keeps each as often |
| Ranking.RankedExactly | scripts/benchmark_evidence_admission.py:365-372 | ranked are samples of nonnegative 63-bit integers, at 50, 95 or 99 percent |
| Ranking.AtMostCounts | scripts/benchmark_evidence_admission.py:365-372 | the samples at most some value are counted by their places |
| Ranking.LeastReaching | scripts/benchmark_evidence_admission.py:365-372 | the nearest rank is a sample, at least the asked percentage of samples are at most it, and no smaller value has that |
| Ranking.LeastReachingIsUnique | scripts/benchmark_evidence_admission.py:365-372 | any value with that property is the nearest rank |
| Ranking.OrderDoesNotMatter | scripts/benchmark_evidence_admission.py:365-372 | permuted samples have the same nearest rank |
| Ranking.PercentilesAreOrdered | scripts/benchmark_evidence_admission.py:430-436 | p50, p95, p99 and the maximum are in order and exact integers |
| BenchmarkReport.HealthyIsValid | scripts/benchmark_evidence_admission.py:1166-1179 | a measured repetition satisfies the validator exactly at 100000 calls |
| BenchmarkReport.ProfileIsValid | scripts/benchmark_evidence_admission.py:1158-1185 | a measured profile satisfies the validator exactly under the fixed repetitions and calls and with an exact allocation |
| BenchmarkReport.SaturationIsValid | scripts/benchmark_evidence_admission.py:1186-1218 | the saturation part does exactly under its fixed repetitions and calls |
| BenchmarkReport.ProfilesTell | scripts/benchmark_evidence_admission.py:903-961 | each profile tells its producers and their share of the calls, and each repetition its own counts, percentiles, greatest sample, lags and the growth of the lag |
| BenchmarkReport.ProfilesTellMaxima | scripts/benchmark_evidence_admission.py:879-961 | each column of a profile is the greatest of its repetitions in that column |
| BenchmarkReport.SaturationTells | scripts/benchmark_evidence_admission.py:962-976 | a saturated repetition drops all its calls and drains the 64 records filled in |
| BenchmarkReport.PassedExactly | scripts/benchmark_evidence_admission.py:1296-1325 | a report passes exactly if it had to and each repetition of each profile has its 99th percentile below 1 ms, its greatest call below 5 ms and its lag grown by less than 2 ms |
| BenchmarkReport.ReportIsValidIffFixedWorkload | scripts/benchmark_evidence_admission.py:1281-1327 | whatever was measured and with whatever warmups and ticker, the report made of a finished benchmark passes validation exactly under the fixed repetitions and calls with proper digests, payload size and allocations |
| BenchmarkReport.SettingsLeaveNoTrace | scripts/benchmark_evidence_admission.py:903-985 | the same measurements finish under any other warmup, ticker and allocation settings that pass the first check and ask for no more samples than there are, with the same profiles; the report states the fixed settings all the same |
| RoutingStatistics.WilsonHoldsTheRate | scripts/evaluate_natural_work_routing.py:369-377 | the interval holds the observed rate and lies in 0 to 1, so the clamps do nothing; it touches 0 only without successes and 1 only without failures |
| RoutingStatistics.WilsonEndsAreOnTheEdge | scripts/evaluate_natural_work_routing.py:369-377 | both ends solve the equation of the score interval: the squared distance from the rate is z squared times the variance at that end |
| RoutingStatistics.OnSegment | scripts/evaluate_natural_work_routing.py:380-389 | the value at a rank lies on the segment between its neighbours |
| RoutingStatistics.PercentileIsMonotone | scripts/evaluate_natural_work_routing.py:380-389 | a percentile of a sorted list is monotone in the quantile and runs from the first to the last value |
| RoutingStatistics.PercentileIsLinear | scripts/evaluate_natural_work_routing.py:380-389 | it lies on the segment between the two places next to the quantile's share of the last place |

## Left out

- Windows, ctypes, SQLite, HTTP and LiveKit calls themselves: only their success, failure or answer is modelled, where an owner depends on it.
- The second pass of the archive validation with the `tarfile` library, and the capture that surrounds the two passes.
- UTF-8 and other encodings: one byte stands for one character of a path, a line or an identifier; which tree names are valid text is a parameter.
- SHA-1 and SHA-256: hash functions are parameters, and the digest of an object is compared with its name as the code does.
- UstarHeader.ReadsAs: models the octal digits of a stored checksum, but not the wider spellings that Python's `int` accepts, because the comparison that follows refuses them anyway.
- VisibleManifest.CollectIgnored: takes the attribute query of a path as a function, because the query is a Git command.
- EvidenceChain.CheckSession: does not model the event-sequence rules of the evidence models (`validate_event_sequence`) nor the session times against the installation and against another session of the store; the snapshot parser, the fields of a payload, the calendar check and the event kinds are parameters.
- GitChildOwner.Owner.Run: does not model asynchronous interrupts between two statements, nor how long the joins of the readers take; the acquisition calls of the kernel succeed whole or hand nothing over, as their own cleanup intends.
- Exchange.PoliteExchangeCompletes: assumes that the configuration and acknowledgment frames fit the frame bound; an interrupt in the middle of a write is not modelled, a failed write ends the child without a last frame.
- PermitHarness.PermitsAreConserved: takes the failing routine as one step, and a raising admission or completion as one that changes nothing in the scheduler; the ticker thread and the scheduler's byte budget are not part of this model.
- EventTracker.Tracker.ConsumeBatch: does not model the state after an event is refused, because the journey stops there; floating-point rounding of the clock is not modelled.
- Exchange.ChildGoesOn: takes any configuration frame as a good one; what the child checks of its fields is not modelled.
- LineObservers.CappedCapture.Feed: takes the categories of a line as a function of the line; the search patterns are not modelled.
- TransportGate.StepKeeps: does not model the diagnostic text of a denial or the saving of the witness.
- RunWitness.Read: takes the fields of each recorded message, and the stored lengths of its texts, as already decoded; the parsing of stored JSON and the status request before it are not modelled.
- BenchmarkReport.ReportIsValidIffFixedWorkload: treats the closed shape of the report, its digests and the allocation measurement as given; the benchmark's timing is input, and that all prepared payloads are the same is not modelled.
- RoutingStatistics.WilsonHoldsTheRate: is stated before rounding, over exact reals, with the square root given.
- The journey's steps and bindings, the scenario checks, receipts, printed markers, argument parsing and the fixed-trace acceptance scripts: they are input and output or one fixed run.
