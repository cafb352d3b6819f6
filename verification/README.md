# git-work: a verified model of its sync, store and schema algorithms

git-work keeps a git-stored issue tracker and a Jira project in step. This project models the
algorithms that carry its guarantees and proves those guarantees in Dafny, for every input and,
where the guarantee is about a protocol, for every run. `dafny verify dfyconfig.toml` checks all
of it.

## What is modelled

**The three-way sync** (`jira/merge.go`, `base.go`, `issue.go`, `write.go`; the files from
`Documents` to `NextRound`). An issue has a base, a local document and Jira's document. A round
settles the base, merges with export, writes, reads again, confirms, merges without export, admits
and commits. `Merging`, `Bases`, `Admit`, `Engine` and `Tracker` model the code, loop by loop, each
method against a specification function. What these decide is told again without them, from the values,
clocks and answers alone: `Outcomes` and `RoundOutcomes` for a merge and for a round, `Confirms` for writes
in flight, `Records` for what a run remembers, `Fitting` for what admit lets through. `Safety` is a state machine over whole runs of any number of
clones: local edits, pulls from one another and any number of rounds in flight, against reads that show
anything and writes answered in any way; no local edit is lost silently in any of them. `Stale`,
`CommentsOnce`, `Agreement`, `Converge`, `CommentRound` and `NextRound` prove what a stale read may do,
how comments sync, what each commit leaves, that an undisturbed round converges on every key not
refused and that the run after it changes nothing.

**The concurrent store** (`cache/`; `Entities`, `Store`, `StoreRuns`, `Excerpts`, `IndexRuns`).
Many processes stage operations on stale copies; a short lock, a re-read and a replay make an
unconditional ref overwrite a fast-forward in fact. `Entities` says exactly when a commit succeeds and
how it ends otherwise. The excerpt index stays worth its recorded
hashes over every interleaving of writers and refreshes: a refresh reads a hash before the history,
which needs no lock, while a commit notes its ref after it, which does.

**Schema import and derivation** (`schema/reconcile.go`, `jira/derive.go`; `Ordinals`,
`OrdinalsLoops`, `NumberSays`, `Imports` to `ImportLoops`, `ImportSays`, `Numbering`, `Matching` to
`MatchAgain`, `MatchOutcome`, `Ordering`, `Turns`, `ValuesStand`, `Derivation` to `DeriveKeeps`,
`DeriveImport`, `ValueSays`, `FieldSays`, `DeriveSays`, `DerivePlaces`). Numbering by a longest increasing run, an import that
is idempotent and reads at every point half-applied, and a derivation that is a fixpoint: one matching
pass, proved once for any level, serves types, fields and values. What an import leaves is told from the
document, and what a derivation leaves from the document and the project.

**The rest.** Fractional ranks (`Rank`); the winner among duplicate issues, the sweep that
re-points relations at it, and the fair re-reading of failed hits (`JiraIndex`, `Sweep`, `Refetch`);
the commit walk and the fast-forward over it (`Commits`); grouping a diff into hunks, and patching
with them (`Hunks`, `HunkFacts`).

## Where the code does less than it says

Each is a lemma below, with the exact condition under which it happens.

- A rank between `lo` and `hi` is not below `hi` exactly when `hi` is `lo` followed only by zeros, which
  `rank/rank.go:30` promises it is; no list grown by inserts holds such neighbours
  (`Rank.BetweenIsBetween`, `Rank.ZerosAfterFails`, `Rank.InsertKeepsSound`).
- A marker is read by the next run only if its clock is not behind the current base's, or the two are one;
  otherwise the write it remembers is forgotten and sent again (`Stale.NextRunRemembers`,
  `Stale.LaggingReadForgetsWrite`).
- A draft is posted, for the first time or again, exactly when every Jira comment that names it, if any, is
  paired with another local comment: also when a lagging read does not show the post
  (`CommentsOnce.RepairedOrReposted`). If a post was edited before it was paired, the round that pairs it
  leaves the edit to the next, which is the only case in which that one writes (`NextRound.NextRoundIsQuiet`).
- A Jira comment stays without a local copy exactly when it has none and its property names a note, a
  comment paired with another one, or a draft that a later one names too (`CommentsOnce.CopiesAre`): so
  the first of two posts of one comment is never imported, and the deletion of the second is never seen
  (`CommentsOnce.RepostNeverCopied`, `CommentsOnce.GoneIsTombstoned`).
- Comments settle exactly when, of two local copies of a Jira comment the read shows and does not skip, the
  earlier is named by a Jira comment without a copy (`CommentsOnce.SilentIffOneCopy`); two others never
  settle (`CommentsOnce.TwoCopiesFlap`).
- After a round nothing disturbed a key agrees exactly when admit does not refuse it. A refused one keeps its
  value and base, and every round after asks for it again and notes its conflict again
  (`Converge.RoundConverges`, `NextRound.NextRoundIsQuiet`, `NextRound.NextRunChangesNothing`).
- `schema/reconcile.go:358-360` promises to renumber a list only when no number fits. Of several longest runs
  already in order the one that ends first is kept, and the list is renumbered although another fits exactly
  when that one has a gap without room (`Ordinals.RenumberedThoughOneFits`,
  `Ordinals.ListRenumberedThoughOneFits`); with one longest run the promise holds
  (`Ordinals.RenumberedExactlyWhenOneRun`).
- After a commit that broke in the middle the entity says it needs no commit exactly when all operations
  were in hand, although its record keeps them (`StoreRuns.BrokenCommitHidesStaged`).
- A refresh that fails on one read keeps what it learned and its report is dropped: the next one's omits
  exactly that (`Excerpts.FailedRefreshMisses`). An excerpt noted after staging is worth its recorded hash
  exactly when nothing is staged or missed (`IndexRuns.StagedNoteTrusted`).
- Two values with one alias break the fixpoint of a derivation only in an ordered field, and there exactly
  when Jira's order puts another holder ahead of the one mapped, and that one is not as Jira has it or is
  then out of Jira's order (`ValuesStand.DerivedAgainExactly`, `ValuesStand.DerivedAgainAsListed`,
  `DeriveKeeps.DuplicateAliasMoves`).
- `jira/base.go:108-110` gives a first contact the local value as base when local holds nothing; a missing
  body is not taken for nothing, and is written over Jira's text (`EngineFacts.FirstBaseOfUnset`,
  `EngineFacts.EmptyBodyWritten`).
- The conflict note of a commit names a key whose value does not change exactly when admit refuses it
  (`Safety.ConflictKeptIffRefused`).

## Model

| member | source | states |
|---|---|---|
| `SetMerge.MergeSet` | jira/merge.go:312-345 | The loop over every item's key gives the merged set and the two ordered diffs of the set specification |
| `SetMerge.MergeSetMeetsBothSides` | jira/merge.go:312-345 | Applying either side's diff to that side gives the same merged set |
| `SetMerge.MergeSetKeepsEdits` | jira/merge.go:310-345 | What either side added survives, what either side removed goes, the rest of the base stays, nothing else comes in |
| `SetMerge.MergeSetSymmetric` | jira/merge.go:312-345 | Exchanging the sides exchanges the diffs and nothing else |
| `SetMerge.MergeSetSettled` | jira/merge.go:312-345 | Merging again with the merged set on one side or both, over the old base, writes nothing to the merged side |
| `Merging.MergeDocs` | jira/merge.go:135-213 | The merge of base, local and remote, with its loops over keys and comments, is the merge specification, of which the rows below say what it decides |
| `Outcomes.EqualAgrees` | jira/merge.go:116-121 | A scalar equal on both sides is left alone, and is the base |
| `Outcomes.LocalEditWins` | jira/merge.go:124-125 | A scalar Jira left alone and the local side did not keeps its local value without a note, and is sent when the merge exports and may write the key, the base waiting; a type, a lossy body and what is not exported are pending for that reason |
| `Outcomes.JiraEditTaken` | jira/merge.go:122-123 | A scalar the local side left alone takes Jira's value without a note, and that is the base |
| `Outcomes.JiraWinsConflict` | jira/merge.go:126-131 | In every other case Jira's value is taken and is the base, with a note if and only if there is a base or the local value is set |
| `Outcomes.UnmergedStays` | jira/merge.go:143-150 | A key the read skips or Jira's document does not have is as it was on both sides and in the base |
| `Outcomes.ListMerged` | jira/merge.go:172-186 | A list is left with exactly the items a side added or neither removed, never noted; Jira is sent the difference that leaves it with them too, and they are the base once Jira has them |
| `RoundOutcomes.LocalEditLands` | jira/issue.go:117-264 | After an accepted and shown round a scalar only the local side changed has the local value on local, Jira and base, unless admit refused it |
| `RoundOutcomes.JiraValueLands` | jira/issue.go:117-264 | In every other case it has Jira's value on all three, unless admit refused it |
| `RoundOutcomes.ListLands` | jira/issue.go:117-264 | A list has exactly the items a side added or neither removed on all three |
| `Merging.MergeComments` | jira/merge.go:217-301 | The two comment loops, joined by the set of answered comments, are the two comment folds |
| `Outcomes.EqualTextsAgree` | jira/merge.go:232-261 | A paired comment with equal texts is left alone on both sides |
| `Outcomes.LocalTextWins` | jira/merge.go:232-261 | A paired comment Jira left alone and the local side did not keeps its text, written when the merge exports and Jira's text converts without loss, and is pending otherwise |
| `Outcomes.JiraTextTaken` | jira/merge.go:232-261 | In every other case where the texts differ Jira's text is taken and nothing is written |
| `Outcomes.CommentNoted` | jira/merge.go:232-261 | It is noted if and only if neither text is the base's and there is a base or the local text is set; its base is Jira's text, but for a local edit of what Jira left alone |
| `MergeFacts.MergeAt` | jira/merge.go:135-213 | Key by key: what a whole merge does to one field's local value, write, conflict, base and pending entries depends on that key's step alone, whatever the other keys and the comments do |
| `MergeFacts.SetStepApplied` | jira/merge.go:172-186 | The operations a list-valued key gets leave exactly the three-way merge of its sets |
| `MergeFacts.MergeFromSteps` | jira/merge.go:135-213 | Every field change in a plan is one its key's own step asked for, on a key Jira's document has |
| `Bases.FreshLoop` | jira/base.go:108-124 | The loop gives every key Jira has and the base lacks the base of a first contact, writes in flight left out |
| `Bases.ConfirmFieldsLoop` | jira/base.go:164-183 | Each field write in flight is confirmed, given an unknown base, or kept and reported, as the read and the clock decide |
| `Bases.ConfirmCommentsLoop` | jira/base.go:146-163 | The same for comment writes |
| `Bases.Base.Clone` | jira/base.go:88-98 | A clone has the base's whole state |
| `Bases.Base.Fresh` | jira/base.go:108-124 | Updates the base in place to the first-contact specification |
| `Bases.Base.Confirm` | jira/base.go:138-189 | Updates the base in place: each write in flight against one read, reporting exactly those it keeps |
| `Bases.Settle` | jira/issue.go:165-178 | First contact, then confirmation, the writes still in flight added to what the read skips |
| `Confirms.FieldConfirmed` | jira/base.go:126-189 | A field write the read does not show, taken before it and inside the window, stays in flight and pending, its base untouched; any other is settled: a list keeps its base, a value shown or answered by the read after it gets the one written, and otherwise a base no side has |
| `Confirms.CommentConfirmed` | jira/base.go:146-163 | The same for a comment, one gone from a read that is not too early having held what was written |
| `Confirms.OthersUnconfirmed` | jira/base.go:138-189 | Of what is not in flight a confirm changes nothing |
| `Confirms.EditSinceWins` | jira/base.go:126-189 | A field shown as it was written and edited here since keeps the edit, sent as any other |
| `Confirms.NormalFormTaken` | jira/base.go:131-133 | A write answered by the read after it, that Jira has in another form: that form is taken without a note |
| `Confirms.UnansweredNoted` | jira/base.go:133-135 | A write no read answered: where the sides differ Jira's value is taken and always noted |
| `Confirms.CommentTextTaken` | jira/base.go:146-163 | A comment as it was written that Jira has otherwise takes Jira's text, noted if and only if no read answered the write |
| `Confirms.WrittenThenDeleted` | jira/base.go:157-158 | A comment written, then deleted in Jira, becomes a tombstone, noted if and only if some copy is no longer as it was written |
| `Admit.Refuse` | jira/issue.go:289-301 | The loop over changes finds exactly the keys with a change that fails the shape check, restoring each one's base in place |
| `Admit.AdmitPlan` | jira/issue.go:273-327 | The filter in place is the admit specification |
| `Admit.RefusedWhole` | jira/issue.go:266-327 | Per key all or nothing: a refused key keeps its value and its prior base, is retried and never off-schema; every other key keeps every change |
| `Admit.KeptOffSchema` | jira/issue.go:266-327 | A key is refused if and only if a change of it fails with every value list open and any target allowed; one that fails only on those is kept whole and reported off schema, and nothing else is |
| `Admit.ShapeIsLenient` | schema/check.go:233-300 | The shape check accepts what the schema with open lists and targets accepts, and all that the schema itself does |
| `Fitting.PassesFits` | schema/check.go:233-300 | A field change passes the check exactly when the type has the field and the value fits its kind: a string, a literal that parses, a known identity or issue, a listed value, an allowed target, each item of a list |
| `Fitting.KeptFits` | jira/issue.go:266-327 | Whatever admit keeps fits in the type the plan leaves, policy aside; and under the policy too unless its key is reported off schema |
| `Fitting.RefusedUnfit` | jira/issue.go:266-327 | A key is refused if and only if some change of it does not fit |
| `Fitting.CommitFits` | jira/issue.go:219-226 | What a commit keeps fits in the type the issue has, when the commit leaves it that |
| `Admit.AdmitSuffices` | jira/issue.go:273-327 | What admit keeps passes the commit's own shape check against the type the batch leaves, so the commit is never refused |
| `Admit.WithoutApplied` | jira/issue.go:319-326 | Refusing some keys changes nothing of what the plan does to any other |
| `Engine.Write` | jira/write.go:16-155 | The loops over edits and comments give the written base, the pairs and the failures that Jira's answers determine |
| `EngineFacts.WriteAt` | jira/write.go:121-129 | A key is remembered as in flight exactly when its write landed, in the form sent, with Jira's clock before it |
| `Records.LandedRemembered` | jira/write.go:16-155 | The base remembers, beside what it had in flight, exactly the fields and comments whose writes landed, in the form sent and with Jira's clock before them; a post is paired with the id Jira answered; nothing else changes |
| `Records.AnswersOwnWrites` | jira/issue.go:117-164 | The read that follows answers exactly this run's writes: none that was in flight before it, and none when it failed or nothing was written |
| `Records.PostsTakeTheirIds` | jira/issue.go:203-221 | Under the lock a comment that has its Jira id keeps it and one a run posted takes the id answered |
| `Records.PairsRecorded` | jira/issue.go:203-221 | The operations that record it are exactly those of the comments that take one |
| `Records.BaseIsOfTheRead` | jira/merge.go:135-150 | A merge's base is of the issue read, as of its clock, retries exactly what the read says to and forgets nothing in flight |
| `Records.SkipsPend` | jira/merge.go:135-150 | Whatever the read skips is pending |
| `Records.TypeComesFirst` | jira/merge.go:160-170 | A plan changes the type before anything else |
| `Records.MarkerWhenNews` | jira/issue.go:230-232 | A commit writes a marker exactly when its base says something the current one does not, clocks aside |
| `EngineFacts.FirstBaseOfUnset` | jira/base.go:108-124 | At first contact a key with no local value takes Jira's form for its base if and only if it is the body, or Jira has none either |
| `EngineFacts.EmptyBodyWritten` | jira/base.go:108-124 | So the first round writes a missing local body over Jira's text, exactly when the texts differ, Jira's is lossless and the read does not skip it |
| `Tracker.Issue.Commit` | jira/issue.go:198-264 | Under the lock: the stored document and markers become the commit specification's; the issue is seen exactly when nothing is pending and retried when a key is, and neither is touched after a failed re-read |
| `Tracker.SeenMeansConverged` | jira/issue.go:256-261 | An issue marked seen has every key of Jira's document agreeing on all three sides |
| `Safety.RunKeeps` | jira/issue.go:117-264 | Over every run of any number of clones, editing, pulling from one another, with any number of rounds in flight: every base in every clone is a value Jira showed or accepted, an unset one, or the unknown one |
| `Safety.NoScalarLostSilently` | jira/merge.go:116-208 | In any run a commit replaces a scalar without a conflict only when it equals the base the commit merges with, which Jira showed or accepted, or is unset with no base |
| `Safety.NoItemLost` | jira/merge.go:172-186 | In any run an item leaves a list only when the base the commit merges with, a list Jira showed or accepted, has it and the read does not |
| `Safety.NoCommentLostSilently` | jira/merge.go:217-301 | In any run a comment's text is rewritten without a conflict only when it is the base's own, or is empty and has no base, or the comment is gone and never had one |
| `Safety.CommitNeverRefused` | jira/issue.go:266-327 | No commit of a round is refused by the schema, and the body is never among the refused keys |
| `Safety.CommitField` | jira/issue.go:198-264 | A commit leaves a field what its merge makes of it or, refused, as it was |
| `Safety.ConflictKeptIffRefused` | jira/issue.go:219-239 | A key noted as a conflict keeps its local value if and only if admit refused Jira's, so the note can name a key nothing was done to |
| `Safety.NothingToWrite` | jira/merge.go:172-186 | A list merged with nothing to write is the list Jira holds, so its base is one Jira showed |
| `Agreement.EachKeyAgreesOrPends` | jira/issue.go:198-264 | After any commit each key of Jira's document agrees on local, Jira and base, or is reported pending |
| `Stale.StaleKeyLeftAlone` | jira/merge.go:143-150 | While a write is not shown by a read older than it and inside the window, its key is neither imported, exported nor re-based, and stays in flight and retried |
| `Stale.StaleCommentLeftAlone` | jira/merge.go:217-301 | The same for a comment: not edited, not taken for deleted, not written |
| `Stale.ReadSettlesAll` | jira/base.go:138-189 | A read at or after the write, or past the window, leaves nothing in flight |
| `Stale.SentAfterRound` | jira/base.go:138-189 | Exactly the writes in flight outlive a round |
| `Stale.CurrentIsLatest` | jira/base.go:191-224 | The current base is a committed marker no other passes on Jira's clock, the last of those |
| `Stale.NextRunRemembers` | jira/base.go:191-224 | The next run starts from the marker a round commits if and only if the read's clock is not behind the current base's, or the two are one |
| `Stale.LaggingReadForgetsWrite` | jira/base.go:191-224 | A counterexample: against a replica behind the base the marker that remembers a write is never read, and the key is written again |
| `CommentsOnce.AnswersIs` | jira/merge.go:232-270 | Which Jira comment answers for a local one: the one paired with it; for a draft, the last of those without a copy whose property names it |
| `CommentsOnce.MergeLeaves` | jira/merge.go:217-301 | What a merge leaves of the comments: each with the change of the Jira comment that answers for it, or its own, then one import for each Jira comment that has no copy and names none |
| `CommentsOnce.CommentsSyncOnce` | jira/merge.go:217-301 | After a merge each Jira comment has a local copy or not as CopiesAre says; each local comment that is no note has its Jira comment, or is a draft written or pending, or a tombstone, skipped, reported or named by a Jira comment without a copy; with no second copy, a further merge changes no comment, and writes none if and only if Jira holds them all |
| `CommentsOnce.CopiesAre` | jira/merge.go:232-274 | A merge leaves a Jira comment a local copy if and only if it had one, or its property names no local comment, or it names a draft and no later Jira comment without a copy does |
| `CommentsOnce.SilentIffOneCopy` | jira/merge.go:217-301 | Whatever the properties name, a further merge is silent if and only if, of two local copies of a Jira comment in the read, the earlier is named by a Jira comment without a copy |
| `CommentsOnce.ExtraCopySpeaks` | jira/merge.go:284-296 | A second copy of a Jira comment, named by no other, makes every merge change something: a tombstone, or the base of a comment recorded as deleted |
| `CommentsOnce.RepairedOrReposted` | jira/merge.go:262-283 | A draft is posted if and only if every Jira comment that names it, when any does, is paired with another local comment; otherwise it is paired with one that names it, its text untouched |
| `CommentsOnce.GoneIsTombstoned` | jira/merge.go:262-296 | A comment gone from Jira becomes a tombstone unless another Jira comment names it; its deletion is recorded if and only if some copy is not so named, and a conflict noted if and only if such a copy was edited since the base |
| `CommentsOnce.RepostNeverCopied` | jira/merge.go:262-270 | An input for which a Jira comment is never copied: a post repeated behind a lagging read and paired with the second; the first is not imported and a deletion of the second is not seen, merge after merge |
| `CommentsOnce.SkippedCommentLeftAlone` | jira/merge.go:217-301 | A comment the read skips keeps its text and base and is not written |
| `CommentsOnce.TwoCopiesFlap` | jira/merge.go:217-301 | What two copies of one Jira comment do: tombstone and revival in turn, for ever |
| `CommentFacts.ApplyCommentsIs` | jira/issue.go:339-363 | Comment operations applied one after the other leave each comment with the changes that name it, then the imports |
| `Converge.AgreedIsQuiet` | jira/merge.go:135-213 | Once local, Jira and base agree, a merge changes no field on either side and keeps the base |
| `Converge.RoundConvergesBeside` | jira/issue.go:117-264 | Whatever older writes are still in flight, after one round whose writes are accepted and shown, or for a scalar landed and echoed in any form, local, Jira and base agree on a key its first read does not skip (a local type change and a lossy body keep Jira's base) if and only if admit does not refuse it; a refused key keeps value and base and is retried; no new write is in flight |
| `Converge.RoundConverges` | jira/issue.go:117-264 | With none in flight at the start: every key not skipped agrees if and only if it is not refused, nothing is left in flight, and what is retried is what the read itself retries and the refused keys |
| `Converge.Confirmed` | jira/base.go:138-189 | Every write of an undisturbed round is resolved by the read after it, a scalar's base being the form written, whether shown or echoed |
| `NextRound.NextRoundIsQuiet` | jira/issue.go:117-264 | The round after an undisturbed one writes no field, asks for exactly the changes refused before and notes exactly their conflicts again; it writes a comment if and only if a run had posted one without pairing it and it was edited since |
| `NextRound.NextAdmits` | jira/issue.go:266-330 | The commit after it refuses the same keys, so it changes nothing locally and records the base there was |
| `NextRound.CommentsConverge` | jira/issue.go:198-246 | After an undisturbed round a Jira comment has a local copy if and only if it had one, or names none, or answers for the draft it names, two only if skipped or the earlier is named by one without a copy; every local comment that is no note has its Jira comment, or is a tombstone, skipped, reported or so named |
| `NextRound.NextRunChangesNothing` | jira/issue.go:117-264 | The run after it, from the marker it finds, leaves document and markers exactly as they are, whatever was refused, given the same schema and a read whose clock was not behind the current base's |
| `CommentRound.CommitWell` | jira/issue.go:209-221 | Once a round's comment writes are accepted and shown, the commit's ids are distinct still and no second copy of a Jira comment arises |
| `CommentRound.CommitInJira` | jira/issue.go:209-221 | And Jira holds every comment, if and only if each post the second read shows that answers for an unpaired local comment has its text |
| `Entities.DagEntity.Commit` | entity/dag/entity.go:487-553 | In place: refused with nothing staged or an id repeated; written, the ref becoming everything the copy holds, if and only if every run of one author gets its chunk and the ref moves; broken otherwise, after exactly the runs there was room for, with the next in hand |
| `Entities.EndsWritten` | entity/dag/entity.go:487-553 | A commit succeeds if and only if something is staged, no id is repeated, storage takes a chunk for each run of one author and the ref moves |
| `Entities.EndsOnce` | entity/dag/entity.go:487-553 | How a commit ends is determined by what is staged and what storage takes |
| `Entities.WithSnapshot.Append` | cache/with_snapshot.go:40-54 | An operation is staged, recorded and folded into the snapshot there is |
| `Entities.WithSnapshot.Compile` | cache/with_snapshot.go:29-38 | The snapshot is the fold of every operation, read or staged |
| `Entities.WithSnapshot.Commit` | cache/with_snapshot.go:56-68 | Ends as the entity below does; the record is emptied only by a commit that succeeded, the snapshot dropped by one that failed |
| `Entities.StepsCoherent` | cache/with_snapshot.go:29-68 | Whatever step is taken, a cached snapshot is the fold of the operations from scratch |
| `Store.CachedEntity.ReloadLocked` | cache/cached.go:148-160 | The entity becomes a fresh read with the given operations replayed |
| `Store.CachedEntity.RebaseStaged` | cache/cached.go:126-142 | What is staged is replayed on a fresh read; an entity with nothing staged is left alone |
| `Store.CachedEntity.Commit` | cache/cached.go:76-93 | Replays what is staged on the ref as it is under the lock and commits it: a valid batch on storage that takes it is acknowledged and follows the ref; failure keeps the ref and the record |
| `Store.CachedEntity.Update` | cache/issue_cache.go:292-340 | Read, decide and commit under one lock: what is decided is decided on the current state, a refusal writes nothing, and an accepted batch on storage that takes it is acknowledged and on the ref |
| `StoreRuns.WritersLoseNothing` | cache/cached.go:76-160 | For any number of processes and any interleaving of opening, staging, committing, updating and crashing: the ref only extends, every operation whose commit succeeded is in it exactly once, every cached snapshot is the fold of its copy |
| `StoreRuns.CommitExtends` | cache/cached.go:76-105 | A commit that succeeds leaves the ref it found followed by exactly its staged operations; one that fails leaves the ref and every staged operation |
| `StoreRuns.RunSafe` | cache/cached.go:76-160 | The protocol's invariant holds over every run |
| `StoreRuns.BrokenCommitHidesStaged` | cache/with_snapshot.go:56-68 | After a commit that broke in the middle the entity says it needs no commit exactly when every operation was in hand, though the record keeps them all |
| `StoreRuns.CommitAgainWritesAll` | cache/cached.go:126-160 | Committing again after a break writes the whole record on the ref as it is |
| `StoreRuns.WithoutRereadErases` | cache/cached.go:115-125 | Without the re-read the overwritten ref keeps what was there if and only if the copy had all of it |
| `Excerpts.SubCache.Reread` | cache/subcache.go:188-210 | The loop over the refs re-reads exactly the entities whose hash moved, stopping at a read that fails, with created and updated told apart |
| `Excerpts.SubCache.Sweep` | cache/subcache.go:212-222 | Every excerpt no ref backs is dropped, and reported once |
| `Excerpts.SubCache.RefreshFromRefs` | cache/subcache.go:180-225 | A refresh reports created, updated and removed as the exact parts of what moved; a failed read leaves what it had read, reported so far and no further |
| `Excerpts.SubCache.UpdateExcerpt` | cache/subcache.go:799-820 | Records the copy's excerpt with the ref's hash as it is, or with none |
| `Excerpts.NotedMoves` | cache/subcache.go:785-820 | An excerpt noted describes the copy, and its entity is reported by a later refresh exactly when its ref is not the one recorded with it |
| `Excerpts.FailedRefreshMisses` | cache/subcache.go:239-249 | After a failed refresh, whose report is dropped, the next one over the same refs reports all that moved but exactly what the failed one had read |
| `Excerpts.LookNext` | cache/subcache.go:188-210 | One more entity looked at: skipped if its hash stands, else described by what was read and recorded with the hash listed |
| `IndexRuns.RunTrusted` | cache/subcache.go:180-225 | Over every interleaving of writers and refreshes in many processes, a recorded hash is never newer than the history its excerpt describes |
| `IndexRuns.RefreshIsRebuild` | cache/subcache.go:180-225 | After any run a recorded hash equal to the ref's proves its excerpt, one uninterrupted refresh makes the index the full rebuild, and the next finds nothing moved |
| `IndexRuns.StagedNoteTrusted` | cache/subcache.go:785-820 | An excerpt noted after staging without a commit is worth its hash if and only if nothing is staged and nothing was missed |
| `OrdinalsLoops.KeptAnchors` | schema/reconcile.go:407-440 | The quadratic table and the walk back give the anchors of the specification |
| `Ordinals.AnchorsLongest` | schema/reconcile.go:405-440 | The anchors' numbers increase in the order wanted, and no entries that do are more |
| `OrdinalsLoops.FillBefore` | schema/reconcile.go:443-454 | Entries before the first anchor count down from it, when there is room above zero |
| `OrdinalsLoops.FillBetween` | schema/reconcile.go:457-469 | Entries between two anchors are spread evenly, when there is room |
| `OrdinalsLoops.AssignOrdinals` | schema/reconcile.go:361-403 | The whole numbering, filled in gap by gap into one map, is the specification's |
| `Ordinals.AssignedIncreases` | schema/reconcile.go:358-403 | Every entry gets a number, and the numbers strictly increase in the order wanted |
| `Ordinals.ChosenKeptIffTheyCan` | schema/reconcile.go:358-403 | The chosen anchors keep their numbers if and only if they can: some strictly increasing numbering keeps them; otherwise the list is numbered by tens |
| `Ordinals.ChosenEndsFirst` | schema/reconcile.go:405-440 | Of all longest runs already in order the one chosen ends first: at the last place where another differs it has the earlier entry |
| `Ordinals.RenumberedThoughOneFits` | schema/reconcile.go:358-403 | The list is renumbered although some longest run could keep its numbers, if and only if the one that ends before every other has a gap without room and another has none |
| `Ordinals.RenumberedExactlyWhenOneRun` | schema/reconcile.go:358-403 | With one longest run the list is renumbered if and only if no number fits |
| `Ordinals.NumberedInOrderIsOneRun` | schema/reconcile.go:405-440 | There is one, of all numbered entries, when these are in order already |
| `Ordinals.ListRenumberedThoughOneFits` | schema/reconcile.go:358-440 | An input for which a list is renumbered although a number fits: a 5, b 3, n new, c 6 |
| `Ordinals.AssignedAgain` | schema/reconcile.go:361-403 | Numbering a list again from the numbers just given changes nothing |
| `NumberSays.KeptStays` | schema/reconcile.go:361-403 | An anchor of a list not renumbered keeps its number |
| `NumberSays.FreshByTens` | schema/reconcile.go:361-403 | A list renumbered is numbered by tens |
| `NumberSays.BeforeCountsDown` | schema/reconcile.go:443-454 | Before the first number kept they count down by one and stay positive |
| `NumberSays.AfterGoesOnByTens` | schema/reconcile.go:361-403 | After the last kept they go on by tens |
| `NumberSays.BetweenSpreadsEvenly` | schema/reconcile.go:457-469 | Between two kept they are spread by one step, the largest that leaves the second its number |
| `ImportLoops.ApplyChanges` | schema/reconcile.go:139-185 | Applying changes to the list of entities, by index and with archived places, is applying them to the map |
| `ImportLoops.ReconcileEntries` | schema/reconcile.go:50-132 | The loops over types, fields and orphans give the specification's changes in order |
| `ImportLoops.CreatesAreNew` | schema/reconcile.go:279-290 | The changes of an import never create an entity that is there, nor one twice |
| `Reimport.ImportAgain` | schema/reconcile.go:41-132 | An import is idempotent: over what it left there is nothing to write, with a prune or without |
| `Reimport.ImportedAt` | schema/reconcile.go:187-207 | After an import every attribute wanted has its value, every owned one not wanted is gone, every other attribute and (without a prune) every other entity is as it was; the rows below say which those are, from the document |
| `ImportSays.TypeImported` | schema/reconcile.go:187-240 | A type the document states ends with each attribute it says; unsaid, a name, a description and a show are taken away, and any alias and any other attribute is as it was |
| `ImportSays.FieldImported` | schema/reconcile.go:187-240 | A field likewise, value by value: unsaid, a name, a description, an inverse, a mark, a value and a target are taken away, and any alias of it or of a value and any other attribute is as it was |
| `ImportSays.UnstatedImported` | schema/reconcile.go:41-132 | An entity the document does not state is as it was, or gone under a prune |
| `ImportSays.AliasesStay` | schema/reconcile.go:187-197 | A file that names no alias of a type unmaps nothing |
| `ImportSays.NumbersFound` | schema/reconcile.go:325-340 | The numbers found in the store: zero for an entity without one, and none for one whose number is no number |
| `ImportSays.ValueNumbersFound` | schema/reconcile.go:342-356 | Those of values: every value entry's own |
| `ImportSays.TypeNumberIs` | schema/reconcile.go:325-340 | A type ends with the number its place in the document gets among those found |
| `ImportSays.FieldNumberIs` | schema/reconcile.go:325-340 | A field likewise, among its type's |
| `ImportSays.ValueNumberIs` | schema/reconcile.go:342-356 | A value likewise, among its field's |
| `Reimport.TypeNumbersAgain` | schema/reconcile.go:325-340 | The numbers a second import finds on the types are those the first gave them |
| `Reimport.ValuesAgain` | schema/reconcile.go:342-356 | The numbers a second import finds on a field's values are those the first gave them |
| `ImportPrefix.HalfAppliedReads` | schema/reconcile.go:75-77 | Stopped after any number of its changes, an import leaves every field entity with its type's |
| `ImportFacts.DiffsApplied` | schema/reconcile.go:279-321 | Applying the differences to entities wanted once each meets every want and touches nothing else |
| `Matching.FindMatch` | jira/derive.go:74-96 | The two passes of a match: the alias first, then an excluding name, then the first to adopt |
| `Matching.RunPass` | jira/derive.go:106-140 | One pass over Jira's entities, matching or making each, is the pass specification |
| `MatchFacts.MatchSays` | jira/derive.go:74-96 | Matched against the list as it was at the start, an entity is still there, unclaimed and untouched |
| `MatchPass.PassKeeps` | jira/derive.go:106-140 | During a pass keys stay distinct and unclaimed entities untouched, an alias not taken in yet finds what it found at the start, and each Jira entity taken in has its first holder or is excluded |
| `MatchAgain.PassRepeats` | jira/derive.go:106-140 | A pass run again on the list it left changes nothing and names the same order, at any level |
| `MatchOutcome.MatchIs` | jira/derive.go:74-96 | A match is the first with the alias; with none it is excluded when an unclaimed entity of the name carries the empty alias, else the first unclaimed one of its name and kind without an alias is adopted, else it is new |
| `MatchOutcome.PassOutcome` | jira/derive.go:106-140 | A pass leaves out exactly the Jira entities an entity of their name excludes, gives each other one the entity matched at the start or a new one, for want of any that could be, and leaves every entity that came of none as it was |
| `Ordering.OrderValues` | jira/derive.go:488-514 | The loop over three maps is the ordering specification |
| `Ordering.JiraOrderFollows` | jira/derive.go:486-514 | Mapped values come in Jira's order, each with the local-only values that followed it, those before any mapped one first |
| `Ordering.JiraOrderPermutes` | jira/derive.go:488-514 | Ordering neither adds nor drops a value |
| `Ordering.JiraOrderAgain` | jira/derive.go:488-514 | Ordering an ordered list again changes nothing |
| `Derivation.KeyFor` | jira/slug.go:77-91 | A new key is not empty and nothing in its namespace uses it |
| `ValueSays.KeyIsFirst` | jira/slug.go:77-91 | A new key is the first unused of what the name folds to, or the id when it folds to nothing, a prefix before what does not start with a letter, then the same with 2, 3 and so on |
| `Derivation.DeriveDocument` | jira/derive.go:36-49 | The loops over issue types are the derivation specification, mis-binding included; the rows below say what it derives, from the document and the project |
| `DeriveSays.DeriveSays` | jira/derive.go:106-373 | Every issue type, unless a type of its name keeps it out, has a local type with Jira's name, and that has for each Jira field, and for the parents' when a type is one level up, a field of its ref and name with all its targets, marks and values, unless one of the name keeps it out |
| `DeriveSays.OthersStay` | jira/derive.go:31-49 | A type that is no issue type's is as it was, fields and all |
| `DeriveSays.ParentGiven` | jira/derive.go:203-211 | A type one level below another's has a field aliased parent that targets it, unless a field of that name keeps it out |
| `DeriveSays.NoParentGained` | jira/derive.go:203-211 | A type with none one level up has no field aliased parent but one it had, as it was |
| `FieldSays.FieldsDerived` | jira/derive.go:307-373 | Each Jira field ends on the first field with its ref, else on one of its name and kind without an alias, else on a new one for want of any, with nothing of it taken away; or is left out exactly when none has its ref and one of its name carries the empty alias; every other field is as it was |
| `ValueSays.ValuesDerived` | jira/derive.go:418-484 | Each Jira value likewise, a status with a category of its group; every other value is as it was |
| `DerivePlaces.TypesInPlace` | jira/derive.go:106-140 | Every type stays in its place and new ones follow |
| `DerivePlaces.FieldsInPlace` | jira/derive.go:307-373 | Every field stays in its place and new ones follow |
| `DerivePlaces.ValuesInPlace` | jira/derive.go:415-417 | The values of a field that does not follow Jira's order keep theirs, and but for statuses new ones come last |
| `DerivePlaces.StatusPlaced` | jira/derive.go:451-464 | A new status goes in after the last that is no further along than it, with the first category of its group |
| `DerivePlaces.NamesStayApart` | jira/derive.go:375-385 | Keys and inverses of a type's fields that were apart stay apart: none in use or built in is given out |
| `Turns.JiraOrderSorts` | jira/derive.go:486-514 | Ordering sorts the values by the turn of the mapped value each follows, and by place within one |
| `ValuesStand.DerivedAgainExactly` | jira/derive.go:418-514 | Deriving a field's values again changes nothing if and only if the field is unordered, or of the values sharing each Jira value's alias the one Jira's order puts first is as Jira has it, and these come in Jira's order |
| `ValuesStand.DerivedAgainAsListed` | jira/derive.go:418-514 | When every Jira value has a local one by alias, the condition read off the list: unordered, or the value put first among those sharing an alias is the list's first or as Jira has it already, and these come in Jira's order |
| `ValuesStand.DerivesToItself` | jira/derive.go:418-514 | An ordered list derives to itself if and only if its first holders are as Jira has them and come in Jira's order |
| `ValuesStand.UnovertakenStands` | jira/derive.go:486-514 | It is enough that Jira's order carries no other holder of an alias ahead of the one mapped |
| `ValuesStand.OvertakenMoves` | jira/derive.go:418-514 | If it carries one of another name ahead, the second derivation changes the list |
| `ValuesStand.ValuesAgain` | jira/derive.go:418-484 | Deriving a field's values again changes nothing when no two share an alias |
| `DeriveFacts.FieldsAgain` | jira/derive.go:307-373 | Deriving a type's fields again changes nothing |
| `DeriveFacts.TargetsAgain` | jira/derive.go:348-354 | Adding the targets again to the sorted targets changes nothing |
| `DeriveAgain.DeriveAgain` | jira/derive.go:31-49 | Derive is a fixpoint: with unique Jira ids, and distinct aliases among the values of each field an ordered one may be matched to, deriving again from the document derived gives that document |
| `DeriveImport.DeriveImportAgain` | jira/derive.go:31-35 | Once a derived document is imported, into any store, deriving from it again and importing the outcome writes nothing |
| `DeriveKeeps.DeriveKeepsAll` | jira/derive.go:31-35 | No type, field or value is removed, and no field changes its kind, whatever ids Jira repeats outside the values of an ordered field, and whatever aliases are shared |
| `DeriveKeeps.ValuesKept` | jira/derive.go:418-514 | One derivation of a value list keeps every id, whatever ids Jira repeats, and keeps them distinct when an ordered field's are not repeated |
| `DeriveKeeps.DuplicateAliasMoves` | jira/derive.go:418-514 | An input for which a shared alias breaks the fixpoint: the second derivation matches the other value and renames it |
| `Rank.Between` | rank/rank.go:39-80 | The guards and the digit loop give the key of the specification, or the error |
| `Rank.BetweenIsBetween` | rank/rank.go:30-80 | The key sorts above lo, below hi if and only if hi is not lo followed only by zeros, is at most one digit longer, never ends in zero, and is lo's digits with one more halfway up the room there is |
| `Rank.RefusedExactly` | rank/rank.go:39-60 | Neighbours are refused if and only if one holds a character that is no digit, or lo is not below hi, or no key that ends above zero sorts below hi |
| `Rank.ZerosAfterFails` | rank/rank.go:39-80 | The neighbours between which no key exists get one above both, without an error |
| `Rank.InsertKeepsSound` | rank/rank.go:39-80 | An insert anywhere in a sorted list of keys ending above zero finds a key and keeps the list so |
| `Rank.EmptyListNeverFails` | rank/rank.go:1-18 | Any sequence of inserts into an empty list succeeds and keeps it strictly sorted |
| `JiraIndex.FindFirstSync` | jira/index.go:188-214 | The fold over an issue's operations is the first contact |
| `JiraIndex.FirstSyncIsFirst` | jira/index.go:186-214 | No contact is earlier, and it is an export exactly when one at that second is |
| `JiraIndex.AheadIsOrder` | jira/index.go:141-168 | The choice between two issues is the lesser under a strict total order: earlier first, no contact last, an export first, the lower id |
| `JiraIndex.NewIndex` | jira/index.go:29-48 | One pass over the excerpts is the index |
| `JiraIndex.IndexIsLeast` | jira/index.go:29-48 | The winner of a Jira id names it and is ahead of every other issue that does |
| `JiraIndex.WinnerSyncedFirst` | jira/index.go:141-168 | Told from contacts alone: no issue naming the id synced before the winner, none that synced with it was exported if it was not, and of those alike its id is the least |
| `JiraIndex.IndexOrderIndependent` | jira/index.go:29-48 | The index is the same whatever order the copies are met in |
| `Sweep.FindRepointOps` | jira/candidates.go:655-700 | The loops over keys and items give the operations of the specification |
| `Sweep.SweepAll` | jira/candidates.go:610-649 | Each issue in id order, archived ones skipped, one that refuses reported and the rest swept |
| `Sweep.FieldSwept` | jira/candidates.go:655-700 | A field's operations applied in turn leave exactly the images of its targets |
| `Sweep.SweepRepoints` | jira/candidates.go:602-649 | After a sweep every relation of an unarchived issue that did not refuse keeps its kind and names exactly the images of its old targets, the rest is untouched, and a second sweep writes nothing |
| `Sweep.RelationsNameWinners` | jira/candidates.go:602-724 | After a sweep a relation names an issue exactly when an old target stands for it: the index's issue for the Jira id the target's create names, or the target itself when it names none the index has |
| `Sweep.DuplicateGivesWay` | jira/candidates.go:702-724 | A relation to the later to sync of two issues naming one Jira id names the earlier, whichever sorts first |
| `Sweep.IndexConsistent` | jira/index.go:29-48 | The winner of a Jira id carries that Jira id, so it is nobody's loser |
| `Refetch.State.Refetch` | jira/candidates.go:287-314 | A run reads its turn, from the last id read, of the ids its search did not find, drops those gone or moved, and remembers where it stopped |
| `Refetch.RotatedIs` | jira/candidates.go:292-294 | Rotating the sorted ids at the last one read puts each id once, in circular order |
| `Refetch.RunReads` | jira/candidates.go:287-314 | A run reads the failed ids its search did not find, in a circle from the last one read, a hundred at most and none after one that stops it; it gives back those shown, as read, and drops those gone or moved and no other |
| `Refetch.EachReadInTurn` | jira/candidates.go:278-286 | Over consecutive runs that nothing stops, every failed id is read again or found by a search within the fewest runs that could read them all, from wherever the last stopped and whatever was answered or dropped |
| `Commits.ListCommits` | repository/common.go:13-55 | On any finite graph: every commit reachable, each once, the root last; an error if and only if a reachable commit cannot be read |
| `Commits.Reverse` | repository/common.go:50-53 | The two-ended swap mirrors the list in place |
| `Commits.Repository.FastForward` | migrate/fetch.go:91-125 | Local moves to remote when missing or behind it, and not otherwise; nothing moves on an error |
| `Commits.FastForwardLosesNothing` | migrate/fetch.go:89-125 | Whatever any ref reached it reaches still, and a ref that moves moves to a descendant |
| `Commits.RefusedWhenDiverged` | migrate/fetch.go:118-124 | With both histories readable, an error if and only if neither is ahead of the other |
| `Commits.MoveIs` | migrate/fetch.go:91-125 | An error without a remote ref, a move without a local one; otherwise a move exactly to a descendant, nothing when local has the remote commit, an error when neither is ahead or a history it has to read cannot be |
| `Hunks.NumberLines` | repository/gogit.go:1592-1618 | Each line carries the number its place in each file gives it |
| `Hunks.FindSpans` | repository/gogit.go:1626-1637 | The spans hold exactly the changed lines, with a line or more between any two |
| `Hunks.MergeSpans` | repository/gogit.go:1640-1649 | Widened and merged, the spans hold exactly what some widened span holds, and stay apart |
| `Hunks.BuildHunk` | repository/gogit.go:1653-1676 | A hunk's starts and counts are those of its lines |
| `Hunks.BuildDiffHunks` | repository/gogit.go:1583-1679 | One hunk for each stretch of lines within three of a change, over lines numbered as the chunks give them |
| `HunkFacts.HunksCover` | repository/gogit.go:1639-1649 | Every changed line is in a hunk, every line in a hunk is within three of a change, and no line is in two |
| `HunkFacts.HunkNumbers` | repository/gogit.go:1653-1676 | A hunk starts in each file one past the lines before it, and its lines' numbers run on from there |
| `HunkFacts.HunksRebuild` | repository/gogit.go:1581-1679 | The hunks alone turn the old file into the new one |

## Left out

- JSON text and its normal form: values are in canonical form by construction, a list-valued one as
  the set of its items, and two texts are one to Jira exactly when their digests are equal.
- HTTP, transitions, link requests and their retries: each write is accepted or refused per key, and
  each read is a document that may be stale.
- Conversion between Jira's documents and local ones: a document arrives with what it skipped.
- The full pass over issues gone from Jira, and what it writes to markers.
- Authors, times and the text of operations, notes, reports and error messages; a tombstone's date.
- Reports, pending entries and conflicts as sets rather than lists, and the order of a change's removals.
- Locks are mutual exclusion: files, timeouts and the race for them are not modelled.
- Eviction from the cache's list of loaded entities is the opening of a copy that needs no commit;
  Build and MergeAll are not modelled.
- IndexRuns.RefreshIsRebuild: excerpts of entities removed and later re-created under the same id are
  not covered, nor those carrying uncommitted operations, which IndexRuns.StagedNoteTrusted is about.
- Ordinals.AssignedIncreases: numbers are unbounded integers, so a 64-bit overflow of an ordinal is
  not modelled.
- Imports: an attribute is one of the names the schema knows or any other name, aliases for every
  system; a number attribute is an integer.
- Derivation: folding of names and making of slugs are parameters, so the results hold for any; the
  fields an issue type maps besides its parent's are given, not computed from screens; notes are left out.
- DeriveAgain.DeriveAgain: the export that turns imported entities back into a document is not modelled, so
  the document passes from one derivation to the next directly; where an ordered field may be matched it
  asks for distinct aliases, the exact condition being proved list by list, in
  ValuesStand.DerivedAgainExactly.
- DeriveKeeps.DeriveKeepsAll: an ordered field whose Jira values repeat an id is left out: a first derivation
  removes nothing there either (DeriveKeeps.ValuesKept), but lists such a value twice, and the ordering is
  modelled for distinct values.
- Converge.RoundConvergesBeside: a list is to be shown as it was written; one that Jira shows otherwise keeps
  its base and is merged three ways again.
- Hunks: a chunk's text is given as its lines.
- Refetch.EachReadInTurn: ids that fail for the first time between runs, and a run stopped by an error,
  are outside the bound.
- Commits: a commit is its parents; signatures and trees are not modelled.
- Schema policy beyond the shape check, and the checks of new issues.
- The legacy bug entity, label migration, queries, the user interfaces and the git backends.
