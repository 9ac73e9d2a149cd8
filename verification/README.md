# What the sandbox promises, proved

A Dafny model of the parts of the attachment sandbox whose correctness is hard to see by
reading: the scoring engine, the archive walk, the life of a job across threads, containers, disk
and restarts, the attribution of network flows, three binary parsers and two in-place rewriters.
To check all of it, run `dafny verify dfyconfig.toml`.

| file | models |
|---|---|
| `Scoring.dfy` | the rank-decayed saturating product and its laws |
| `Signatures.dfy` | rules, `evaluate`, `score`, confidence, and the verdict part of the report |
| `Archive.dfy` | the capped, depth-limited archive walk and its flags |
| `EndToEnd.dfy` | from an executable inside an archive to the verdict |
| `Flows.dfy` | `collect_network`, and who gets which flow when addresses are recycled |
| `Jobs.dfy` | the job protocol: request, thread, worker, disk, deletion, restart |
| `Dns.dfy` | the DNS sink: name parser, responder, and an RFC 1035 reader of the response |
| `Biff8.dfy`, `PeScan.dfy` | the BoundSheet8 scan and the embedded-executable scan |
| `WinePatch.dfy` | the equal-length byte replacements in Wine's binaries |
| `RegistryPatch.dfy`, `StripText.dfy`, `WineRegistry.dfy` | the `system.reg` edit, `str.strip`, and the script's own texts |
| `Common.dfy` | sequences at an offset, prefixes, `Option` |

## How it is modelled

* Loops and in-place lists are methods and classes (`Archive.Walker`, `Dns.Fakenet`), each proved
  equal to a function of its inputs; the laws are lemmas about that function.
* The two concurrent parts, jobs and flows, are state machines. A step is one effect of one
  thread, container, sink or of the outside world; `Run` is any interleaving, of any length, with
  any number of jobs. The in-memory `_jobs`, the executor threads, the worker containers and the
  job directories are components of one state value, because what matters is what may happen
  between two of their effects.
* Severities are integers from 0 to 100 and the decay 0.6 is exactly 3/5. `round` is half-to-even.
* What an operation computes is also said without its own helper functions, in literal octets,
  texts and numbers (the lemmas named `...Exactly` and `...IsFilter`).
* Docker, triage, unpacking and the clock are parameters: `Archive.World` holds one function for
  triage and one for unpacking, and `Tick` moves the clock to any later or equal time.
* In `RegistryPatch` the texts the script looks for and writes are parameters, constrained by
  `Valid`; `WineRegistry.TextsAreValid` shows that the script's own texts satisfy it, with
  `str.strip` written out.

## What came out

Properties the code does not have are stated with the exact condition under which it has them.

* Weak findings: a list of findings of severity at most `t`, of whatever length, can reach
  "malicious" exactly when `t >= 41`, and "suspicious" exactly when `t >= 17`. At 41 it takes ten.
* Confidence is not monotone at the start: a first finding of 32 or less brings it below the 0.5
  given to a report without findings. From the first finding on it is monotone.
* Flow attribution (`orchestrator.py:227-228` says that the time window makes up for recycled
  addresses): in every run, if the windows of finished jobs with one address do not meet, a logged
  flow goes to its own job and to no other exactly when that job knows its address and the flow was
  stamped by the job's finish time (`AttributionExact`). The condition is needed: whenever two finished
  jobs know one address and their windows meet, some run comes to the very same jobs and logs a
  flow that both claim (`SharedClaimExact`). With two executor slots windows do meet, since the
  window starts before the container is launched (`OverlapMisattributes`), and a sink that stamps a
  connection late gives it to the next holder of the address even with one slot
  (`LateStampMisattributes`).
* A polled report survives restarts exactly when `report.json` had been written
  (`ReportIsStableExactly`); the code answers it all the same when it was not
  (`AnsweredThenLost`).
* `report.json` is written in place. In every run, a poll is a server error exactly if the API does not
  remember the job, the job's directory is there, and `report.json` was opened and not completed
  after that (`ServerErrorExactly`); an API that dies while writing brings it about
  (`DyingWhileWriting`).
* `observations.json` goes through a rename and is never seen half-written. `main.py:93-94` says that
  the worker writes incrementally; `entrypoint.py` writes once, at the end, and the model follows
  the code: there are observations exactly if the worker has come to its rename
  (`ObservationsAreWhole`), so one that is killed before leaves none.
* The module text of `archive.py` speaks of one level of recursion; the code goes three deep, and so
  does the model.
* Not every answered DNS question gets a readable response. The exact condition is that the echoed
  name stands for something: no label of 64 to 191 octets, which the parser accepts although
  section 4.1.4 of RFC 1035 reserves them (`LongLabelIsUnreadable`), and no compression pointer
  except one to something readable in the header (`PointerToItselfIsUnreadable`). A pointer into the
  header can also change the question, because the header of the response is another one
  (`HeaderPointerChangesTheQuestion`). A question that breaks off within its class is answered as
  well, and never readably (`CutQuestionIsUnreadable`).
* The BoundSheet scan steps by two bytes, so it accepts exactly the records at an even distance
  behind the last one it accepted, or behind the beginning of the file (`RecordIsSeenExactly`).
* `patch_registry.py:6` says that keys appear in sorted order, and line 77 speaks of the right sorted
  position; the code puts a new section behind the last Software section. Keys in order, whatever
  the order is, stay in order exactly if the section is there already, or no other key is, or the
  last one does not belong behind the new one (`OrderKeptExactly`). They do not in a file whose only
  section is `[Software\\Wine]` (`NewSectionIsOutOfOrder`).
* The registry patch is idempotent on lines, and on files except in one case, which
  `RegistryPatch.Spoils` describes: an existing section that reaches the end of a file whose last
  line has no line end. A file holding the bare header is an instance (`BareHeaderIsSpoilt`). A
  third run never changes anything.

## Model

The first 58 rows are the main results, component by component; the others are the
methods proved against their specifications, the inverses and the steps that the main results rest on.

| member | source | states |
|---|---|---|
| Scoring.DescendingIsOptimal | services/api/app/signatures.py:724-729 | of all orders of a bag of severities, the descending one leaves the smallest remainder, at any initial weight |
| Scoring.ScoreIsOrderFree | services/api/app/signatures.py:724-729 | the score depends on the multiset of severities only, and no order of ranks scores higher |
| Scoring.ScoreMonotone | services/api/app/signatures.py:724-736 | adding findings and raising severities, in any combination, never lowers the score or the level, although it pushes others to later ranks |
| Scoring.WeakFindingsThreshold | services/api/app/signatures.py:712-736 | findings of severity at most t, in any number, can have level malicious together if and only if t is 41 or more |
| Scoring.HintsThreshold | services/api/app/signatures.py:712-736 | findings of severity at most t, in any number, can leave level benign if and only if t is 17 or more |
| Scoring.LevelOfOne | services/api/app/signatures.py:729-736 | a finding on its own is malicious if and only if its severity is 70 or more, and benign if and only if it is below 35 |
| Scoring.TopFindingDominates | services/api/app/signatures.py:712-736 | with strongest severity t, the score lies between t and the smaller of 100 and round(2.5 t), so a finding of 70 is malicious in any company |
| Scoring.ShippedCeiling | services/api/app/signatures.py:431-432 | with severities up to 85, the strongest that ships, the score never exceeds 97, and 97 is reached |
| Signatures.FailingRuleIsNeutral | services/api/app/signatures.py:691-700 | replacing a silent rule by a raising one, or back, changes neither score, level, confidence, summary nor reasons |
| Signatures.ConfidenceRange | services/api/app/signatures.py:738-744 | confidence stays within 0.35 and 0.95, and is below that of an empty list if and only if the strongest finding is 32 or weaker |
| Signatures.ConfidenceMonotone | services/api/app/signatures.py:738-744 | once there is a finding, more and stronger findings never lower the confidence |
| Archive.Walker.CollectChildren | services/worker/analyzers/archive.py:308-336 | the recursion over the shared list appends exactly the pre-order listing, cut at 180, and extracts each listed archive above depth 3 right after recording it |
| Archive.ListingIsTheArchive | services/worker/analyzers/archive.py:308-336 | the uncapped listing holds exactly the descriptions of the files that lie in the unpacked archive or in an archive inside it, down to depth 3 |
| Archive.EntriesAreTheTree | services/worker/analyzers/archive.py:311-316 | the flat list holds exactly the files that lie in the directory tree, each with its path and as often as it occurs |
| Archive.Analyze | services/worker/analyzers/archive.py:154-215 | children, depth and flags are those of the first 180 entries of the uncapped listing; the final slice drops nothing |
| Archive.DestsDistinct | services/worker/analyzers/archive.py:332-334 | no two extractions of one walk share a directory name |
| EndToEnd.NestedExecutableIsMalicious | services/api/app/signatures.py:222-246 | an executable two or three deep among the first 180 files gives malicious with at least 78, whatever the other rules, wherever the two rules stand; at any depth at least 60 |
| EndToEnd.ExecutableInsideIsSeen | services/api/app/signatures.py:222-246 | in an archive that is not encrypted, can be unpacked and lists at most 180 files, an executable lying in an archive inside it gives malicious with at least 78, and one lying anywhere in it at least 60 and not benign, whatever the other rules |
| EndToEnd.ArchiveRulesExact | services/api/app/signatures.py:222-246 | each archive rule fires exactly when the archive holds a matching file among its first 180, or, for the first rule, a dangerous listed entry |
| Flows.RunKeepsInv | services/api/app/orchestrator.py:102-211 | in every state of every run, times are ordered, jobs with one address had their containers one after the other, and every flow bears its owner's address and a stamp no earlier than the launch |
| Flows.AttributionExact | services/api/app/orchestrator.py:227-228 | in every run in which windows of one address do not meet, a flow goes to its own finished job and no other if and only if the address is known and the stamp was taken by the finish time |
| Flows.SharedClaimExact | services/api/app/orchestrator.py:249-256 | for two finished jobs of any run: some run comes to the same jobs with a logged flow that both claim, if and only if they know one address and their windows meet |
| Flows.CrossClaimExact | services/api/app/orchestrator.py:227-228 | exactly when another job claims a logged flow: a later holder of the address if its window covers the stamp, an earlier one if it had not yet finished, no other |
| Flows.SerialAttribution | services/api/app/orchestrator.py:227-228 | with one job at a time and a clock that moves on before the next, windows of one address do not meet; a flow goes to its own finished job and no other under the same exact condition, and to nobody while its job is at work |
| Flows.OverlapMisattributes | services/api/app/orchestrator.py:112 | a run with two slots in which one flow is claimed by two jobs |
| Flows.LateStampMisattributes | services/fakenet/fakenet.py:42-54 | a run with one slot in which a late stamp moves a flow to the next holder of the address |
| Jobs.RunKeepsInv | services/api/app/main.py:81-130 | in every state of every run, each job's thread, entry in memory, files and history agree: terminal exactly with a report, the same report on disk once written, observations only from its own workers |
| Jobs.ObservationsAreWhole | services/worker/entrypoint.py:248-253 | in every run, as long as the directory is there, observations.json is never half-written, can be read if and only if the worker has come to its rename, and then holds what a worker of this job set out to write |
| Jobs.PersistBeforePublish | services/api/app/main.py:119-127 | memory holds a report exactly when the status is terminal, the status is the report's, and unless a write failed or the directory is gone the disk then holds the same report |
| Jobs.ReportIsStableExactly | services/api/app/main.py:219-237 | between two moments without deletion or expiry the answered report stays the same if and only if it had been saved or the API was not restarted |
| Jobs.AnsweredThenLost | services/api/app/main.py:119-127 | a run in which writing the report fails, the report is answered, and it is gone after a restart |
| Jobs.StatusMovesForward | services/api/app/main.py:81-127 | queued, running, terminal in this order; a terminal entry never changes, a removed one never returns |
| Jobs.AnswersAreSound | services/api/app/main.py:90-99 | an answered report holds only observations some worker of this job wrote, and says completed only if they do |
| Jobs.StatusFollowsEnd | services/api/app/main.py:90-99 | in every run the status of an answered report follows from how its worker ended: failed on an orchestrator error, else timeout if time ran out, else the worker's own status or failed without observations |
| Jobs.ServerErrorExactly | services/api/app/main.py:119-123 | in every run a poll is a server error if and only if the API does not remember the job, its directory is there, and report.json was opened for writing with no completion after that |
| Jobs.PollExactly | services/api/app/main.py:219-237 | in every state of every run the answer to a poll follows from the steps: started, published, written, or begun to be written |
| Dns.AcceptedExactly | services/fakenet/fakenet.py:65-80 | a pointer-free name is accepted if and only if the encoding of valid labels stands there |
| Dns.ResponseIsReadable | services/fakenet/fakenet.py:83-118 | for every complete question, what an RFC 1035 reader that follows pointers gets from the response: id, flags, the question the echoed name stands for and for type A its record, or nothing if and only if that name stands for nothing |
| Dns.PlainResponseIsReadable | services/fakenet/fakenet.py:83-118 | without a pointer the reader gets back the question as asked if and only if no label exceeds 63 octets |
| Dns.PointedResponseIsReadable | services/fakenet/fakenet.py:74-105 | with one the response is readable if and only if the labels are short and the pointer leads to something readable in the header, which then ends the name; for pointers behind the id that is octet 4 or later |
| Dns.CutQuestionIsUnreadable | services/fakenet/fakenet.py:113-116 | a question that breaks off within its class is answered, and never readably |
| Biff8.WrittenSheetsAreFound | services/worker/analyzers/office.py:379-431 | behind an even-length prefix without a record at an even offset, written records are returned as exactly those of kind 1, in order, with name and visibility |
| Biff8.ReportsAcceptedMacros | services/worker/analyzers/office.py:400-427 | the report is exactly the macro sheets among the accepted records, in order |
| Biff8.RecordIsSeenExactly | services/worker/analyzers/office.py:395-429 | a record anywhere in the file is accepted if and only if it stands, not inside and at an even distance, behind the end of the last record accepted before it, or behind the beginning of the file |
| PeScan.EmbeddedExecutables | services/worker/analyzers/office.py:362-374 | the skipping scan reports exactly the first ten hits of the naive search |
| PeScan.HitsAreWritten | services/worker/analyzers/office.py:365-373 | a hit is reported by the naive search if and only if MZ, the little-endian offset at 0x3C below 0x2000 and the PE signature with these machine octets are written there |
| WinePatch.PassesAreSimultaneous | services/worker/patch_wine.py:21-24 | the passes in sequence do what one simultaneous renaming of all targets would do |
| WinePatch.ShippedPatch | services/worker/patch_wine.py:5-24 | for arbitrary bytes, the shipped patch keeps the length, renames simultaneously, leaves no target and is idempotent |
| RegistryPatch.PatchCompletes | services/worker/patch_registry.py:43-111 | afterwards the first target section has both values where a second run looks for them |
| RegistryPatch.SectionsAreKept | services/worker/patch_registry.py:43-111 | in all branches every line is still there after the patch, under the same header as before |
| RegistryPatch.EditExactly | services/worker/patch_registry.py:43-111 | where the block goes and what it holds: the missing values before the first blank line or header of the section, or the six new lines before the first header behind the last Software section, or at the end |
| RegistryPatch.PatchIsIdempotent | services/worker/patch_registry.py:43-111 | on lines, patching twice is patching once |
| RegistryPatch.IdempotentExactly | services/worker/patch_registry.py:29-114 | on every file, patching twice is patching once if and only if the block does not spoil an unterminated last line of the section |
| RegistryPatch.StableAfterTwo | services/worker/patch_registry.py:29-114 | on every file, a third run changes nothing |
| RegistryPatch.OrderKeptExactly | services/worker/patch_registry.py:76-103 | keys ordered by whatever transitive relation stay ordered if and only if the section was there, or there was no key, or the last key may precede the new one |
| WineRegistry.TextsAreValid | services/worker/patch_registry.py:32-41 | the key, header and value lines of the script meet the conditions, for every DLL path without line breaks or carriage returns |
| WineRegistry.BareHeaderIsSpoilt | services/worker/patch_registry.py:51-75 | a registry file holding only the bare header without a line end is one for which a second run changes the result of the first |
| WineRegistry.NewSectionIsOutOfOrder | services/worker/patch_registry.py:76-103 | a registry file with sorted keys, holding only the section of Wine itself, whose keys are out of order after the patch |
| Scoring.NineOf41AreNotEnough | services/api/app/signatures.py:712-736 | at severity 41 level malicious takes at least ten findings |
| Scoring.LevelExactly | services/api/app/signatures.py:731-736 | the three ranges of the score, cut at 35 and 70 |
| Scoring.ContainedFindings | services/api/app/signatures.py:712-729 | the score is at least the severity of every single finding |
| Scoring.PairOf65And60 | services/api/app/signatures.py:222-246 | two findings of 65 and 60 score at least 78 in any company |
| Scoring.ResidueAppend | services/api/app/signatures.py:725-727 | the finding at rank n is weighted by 0.6 to the power n: the recursive product equals the ranked one, step by step |
| Scoring.WeakTolerateErrors | services/api/app/signatures.py:724-736 | findings up to 40 are not malicious, and findings up to 16 are benign, even if the remainder is computed with an error of 0.1, or 0.005 |
| Signatures.Evaluate | services/api/app/signatures.py:688-706 | runs every rule, turns a raising rule into a RULE_ERROR of severity 0, and returns a severity-descending permutation that keeps rule order among equals |
| Signatures.FireExactly | services/api/app/signatures.py:691-705 | a rule leaves its signature with its first twelve non-empty pieces of evidence, nothing if silent, a failure of severity 0 naming it if it raises |
| Signatures.StableSortIsUnique | services/api/app/signatures.py:706 | descending order together with rule order among equals determines the list |
| Signatures.SortIsStable | services/api/app/signatures.py:706 | sorting keeps, for each severity, the order of the findings of that severity |
| Signatures.Score | services/api/app/signatures.py:709-746 | the ranked loop computes the order-free value of the genuine findings, and its level and confidence |
| Signatures.ConfidenceExactly | services/api/app/signatures.py:738-744 | the confidence is 35 hundredths, 0.45 for each point of the strongest finding and 5 for each finding of 40 or more up to four of them, at most 95, rounded; 0.5 without findings |
| Signatures.Build | services/api/app/report.py:268-285 | verdict, summary and reasons are those of the genuine findings in rule order; confidence is at most 0.4 unless the job completed |
| Signatures.ReasonsAreTheStrongest | services/api/app/report.py:271 | the reasons name the at most five strongest genuine findings, strongest first |
| Signatures.VerdictExactly | services/api/app/report.py:268-285 | score and level of the genuine findings, and which summary and confidence go with which status |
| Signatures.FindingsCommuteWithSort | services/api/app/report.py:271 | dropping failures after ranking or before it gives the same list, so the reasons are the strongest findings |
| Signatures.Remainder | services/api/app/signatures.py:724-728 | the loop over the ranked findings leaves 100 times the product over all ranks |
| Archive.WalkMeetsEntries | services/worker/analyzers/archive.py:311-316 | walking root by root, names sorted, meets the files in the order of the flattened tree |
| Archive.ListingInOrder | services/worker/analyzers/archive.py:311-336 | pre-order: each file is followed by everything inside it and then by the next file |
| Archive.SortOrders | services/worker/analyzers/archive.py:312 | sorting by name keeps every file and puts no smaller name behind a larger one |
| Archive.EntriesInOrder | services/worker/analyzers/archive.py:311-312 | a directory's own files come first, all of them, in name order, and its folders behind them |
| Archive.ListingWellNested | services/worker/analyzers/archive.py:308-336 | depths stay within 1 to 3, and a deeper entry is preceded by an archive one level up |
| Archive.NestedFlagExact | services/worker/analyzers/archive.py:213-215 | the condition on archives in nested_archive is implied by the depth: the flag amounts to max_child_depth of two or more |
| Archive.ReportSays | services/worker/analyzers/archive.py:169-215 | the report in numbers: first 60 dangerous entries, first 180 files if not encrypted and unpacked, and the flags in terms of these files |
| EndToEnd.NestedEvidence | services/api/app/signatures.py:239-246 | the evidence names the first ten nested executables with depth and kind |
| EndToEnd.DangerousEvidence | services/api/app/signatures.py:225-233 | the evidence names the first ten dangerous entries and then the first ten executables |
| Flows.CollectNetwork | services/api/app/orchestrator.py:224-275 | the loop fills three lists with exactly the lines that pass the address and window filter, cut at 120 each, and returns nothing without address, times or log |
| Flows.ClaimedExactly | services/api/app/orchestrator.py:249-263 | a line is kept if and only if it is in the log and matches address, window and kind |
| Flows.CollectedIsClaimed | services/api/app/orchestrator.py:249-263 | a logged flow of the right kind is among the lines selected for a job if and only if the job claims it |
| Flows.ClaimedInOrder | services/api/app/orchestrator.py:244-263 | the kept lines stand at increasing positions of the log, and no other line of the log matches |
| Flows.StepKeepsInv | services/api/app/orchestrator.py:102-211 | every step keeps times ordered, jobs with one address one after the other, and every flow tied to its owner's address and lifetime |
| Flows.OwnFlowsPass | services/api/app/orchestrator.py:202-211 | in every run a logged flow passes its own finished job's filter if and only if the job knows its address and the flow was stamped by the finish time, as all flows of running containers are |
| Flows.SerialWindowsApart | services/api/app/orchestrator.py:108-113 | in such runs the windows of any two jobs are disjoint |
| Flows.OneClaimant | services/api/app/orchestrator.py:249-256 | when windows of one address do not meet, no flow passes two filters |
| Flows.PlusCommutes | services/fakenet/fakenet.py:42-54 | one more flow on its way hinders no step of any job or sink and is touched by none |
| Flows.OwnFlowsAreCollected | services/api/app/orchestrator.py:232-263 | an own flow of the right kind is among the lines selected for a finished job if and only if the job knows its address and the flow was stamped by the finish time |
| Jobs.StepKeepsJobInv | services/api/app/main.py:81-130 | every step of every thread, worker, deletion or restart keeps threads, memory, files and history of a job consistent |
| Jobs.UnsavedReportIsLost | services/api/app/main.py:223-229 | an answered but unsaved report stays unsaved, and is gone for good from the next restart on, whenever that comes |
| Jobs.TornReportStaysTorn | services/api/app/main.py:223-228 | a report file left half-written answers every later poll with a server error, until deletion or expiry |
| Jobs.DyingWhileWriting | services/api/app/main.py:119-123 | a run in which the API dies while writing report.json and leaves such a file |
| Jobs.AnswersAreMade | services/api/app/main.py:87-113 | every answered report was built by a step of the run from the observations that an earlier step read after the worker had ended |
| Dns.ParseQname | services/fakenet/fakenet.py:65-80 | the loop terminates on every input and computes the recursive parse |
| Dns.EncodeThenParse | services/fakenet/fakenet.py:65-80 | an encoded label list is read back with its exact end, wherever it sits |
| Dns.ParseThenEncode | services/fakenet/fakenet.py:65-80 | what was read re-encodes to exactly the bytes before the root or pointer, and nothing overran the data |
| Dns.OverrunIsTruncated | services/fakenet/fakenet.py:68-69 | after any complete labels, a label that runs over the end is always an error |
| Dns.Fakenet.Handle | services/fakenet/fakenet.py:108-118 | a readable question is logged and answered, with an error logged as well if the send fails; anything else logs an error only |
| Dns.HeaderNames | services/fakenet/fakenet.py:97 | what can be read at every octet of the response header behind the id: nothing at the flags, the root or zero labels elsewhere |
| Dns.ReadsAsResolved | services/fakenet/fakenet.py:97-104 | an RFC reader accepts exactly the names that stand for something, wherever they sit |
| Dns.LongLabelIsUnreadable | services/fakenet/fakenet.py:77-79 | a query with a label of 64 octets that is answered unreadably |
| Dns.PointerToItselfIsUnreadable | services/fakenet/fakenet.py:74-76 | a query whose question points to itself and is answered unreadably |
| Dns.HeaderPointerChangesTheQuestion | services/fakenet/fakenet.py:74-105 | a query whose pointer into the header makes the reader see another question in the response |
| Biff8.DetectXlm | services/worker/analyzers/office.py:379-431 | the loop terminates, reads in bounds and computes the recursive scan |
| Biff8.MacroExactly | services/worker/analyzers/office.py:401-426 | what is reported of a record body, octet by octet |
| Biff8.RecordExactly | services/worker/analyzers/office.py:395-400 | a record is type 0x0085 and a length from 8 to 300, both low octet first, with that much data |
| Biff8.AcceptedAreDisjoint | services/worker/analyzers/office.py:395-429 | accepted records are whole, in order and disjoint |
| Biff8.OddPaddingHidesTheSheet | services/worker/analyzers/office.py:428-429 | an instance: behind n zero bytes one and the same macro sheet is found if and only if n is even |
| Biff8.SeenBehindGap | services/worker/analyzers/office.py:428-429 | behind a stretch without records in step, a record is accepted if and only if the stretch has even length |
| PeScan.NaiveIsSound | services/worker/analyzers/office.py:367-372 | the naive search reports only real headers, ascending |
| PeScan.NaiveIsComplete | services/worker/analyzers/office.py:367-372 | and misses none |
| PeScan.Find | services/worker/analyzers/office.py:365-373 | the first MZ at or behind a position, or none anywhere |
| WinePatch.ReplaceRenames | services/worker/patch_wine.py:23 | one pass renames every occurrence and changes no other byte, since no target overlaps itself |
| WinePatch.RenamedIsUnique | services/worker/patch_wine.py:21-24 | that renaming determines the result |
| WinePatch.NoTargetRemains | services/worker/patch_wine.py:21-24 | no target is left, so no later pass recreates an earlier target |
| WinePatch.PatchIsIdempotent | services/worker/patch_wine.py:13-24 | patching twice is patching once |
| WinePatch.ShippedTableIsSound | services/worker/patch_wine.py:5-11 | the five shipped pairs meet the conditions of these results |
| WinePatch.ShippedPairs | services/worker/patch_wine.py:5-11 | the shipped table: one function name, and a registry key in two spellings, each plain and in UTF-16 |
| WinePatch.PatchFile | services/worker/patch_wine.py:13-29 | the loop computes that renaming, and writes exactly when some target occurs, which is exactly when the bytes change |
| RegistryPatch.PatchLines | services/worker/patch_registry.py:43-111 | all three branches insert one contiguous block, possibly empty, into the given lines |
| RegistryPatch.AddValues | services/worker/patch_registry.py:51-75 | inserting backwards at one place adds the missing values in order at the end of the section |
| RegistryPatch.AddSection | services/worker/patch_registry.py:76-111 | a whole section goes before the first header behind the last Software section, or to the end |
| RegistryPatch.FirstTargetIsFirst | services/worker/patch_registry.py:43-49 | the section found is the first one whose stripped header begins with the key |
| RegistryPatch.KeysOfPatched | services/worker/patch_registry.py:43-111 | the keys stay as they are, but for the new one behind all of them if the section was missing |
| RegistryPatch.SplitIsWellFormed | services/worker/patch_registry.py:29 | splitting loses nothing, and only the last line may lack its end |
| RegistryPatch.PatchedFileIsStable | services/worker/patch_registry.py:29-114 | when the block does not follow an unterminated line, the file reads back as the patched lines and a second run leaves it alone |
| RegistryPatch.PatchFile | services/worker/patch_registry.py:26-114 | splitting, patching and joining the lines yields the patched content |
| RegistryPatch.BreaksExactly | services/worker/patch_registry.py:29 | the ten characters that end a line |
| WineRegistry.LinesExactly | services/worker/patch_registry.py:32-41 | the header and value lines, letter by letter |
| WineRegistry.TextsExactly | services/worker/patch_registry.py:32-95 | the key, the names and the time line, letter by letter |
| StripText.StripExactly | services/worker/patch_registry.py:46 | stripping takes away white space at both ends, all of it and nothing else |

## Left out

- Signatures.Score: exact reals instead of floats. `WeakTolerateErrors` shows how far off a computation may be at the cuts without changing the level of weak findings; where the exact confidence is a tie at two decimals (strongest finding 10, 30, 50, ...), a float may round the other way by 0.01.
- Dns.HeaderNames: a pointer to the first two octets leads to the id, which the asker chooses; what it reads as is left as a condition on the response.
- Dns.ReadsAsResolved: the limit of 255 octets on a whole name (section 3.1 of RFC 1035) is not checked by the reader.
- Dns.ParseQname: labels stay bytes; decoding them as UTF-8 and joining them with dots is left out.
- Biff8.WrittenSheetsAreFound: sheet names stay bytes marked Latin-1 or UTF-16; decoding them and the labels for visibility and type are left out.
- Archive.Analyze: the container's own listing is an input, with one flag for a dangerous extension; zip, tar and 7z parsing, decoy names, traversal, zip bombs and jar metadata are left out.
- Archive.Walker.CollectChildren: the loop body is a method of its own, `Record`; paths on disk, sizes, hashes and entropy of children are left out.
- EndToEnd.NestedExecutableIsMalicious: the other rules are arbitrary functions of the observations; none of them is modelled, and none may itself be called RULE_ERROR.
- Signatures.Evaluate: a rule either raises, is silent or returns a list of strings; conversion of evidence with `str` is left out.
- Signatures.Build: only the verdict, the reasons and the kind of summary; statuses are completed, failed and timeout.
- Flows.CollectNetwork: `contacted_hosts` and the parsing of timestamps; a bad timestamp is a missing one.
- Flows.RunKeepsInv: a container that survives both a failed kill and a failed removal, and so outlives its job.
- Jobs.ReportIsStableExactly: says nothing about a job ever finishing. A thread may die at any point, and then its job stays as it is.
- Jobs.AnswersAreSound: the sample runs in the worker as its user with the job directory mounted writable (orchestrator.py:150), so it could itself write observations.json or report.json; no step does that, here or in Jobs.ObservationsAreWhole.
- Jobs.PersistBeforePublish: deletion while a job runs is a step like any other, but a worker container that recreates files in a deleted directory is left out.
- RegistryPatch.PatchLines: file reading in text mode has already turned carriage returns into line feeds; the values' contents are not compared, an existing value of the same name is kept.
- WinePatch.PatchFile: errors of opening and writing a file; choosing the files is left out.
- Docker calls, HTTP routing, uploads, sockets, TLS, the client, and the analysis tools behind triage and unpacking.
- Retention ages: `Restart` expires any set of directories.
- IOC extraction, defanging, report text, triage tables and the other rules: easy or regular-expression work.
