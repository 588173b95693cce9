# miryad-core in Dafny

A model of the stateful parts of miryad-core and proofs about it: the write module that batch
agents call and its crash journal, API tokens under concurrency, OpenID Connect login with sealed
cookies, row-level access, schema migrations, and the registry of entity descriptions. Code that
changes state is modelled by classes and loops proved equal to specification functions; the
properties are lemmas over those functions, for every input, every run or every interleaving.

`dafny verify dfyconfig.toml` checks the project.

| file | models |
|---|---|
| `AgentWrites.dfy`, `AgentEffects.dfy`, `AgentHandle.dfy`, `AgentScript.dfy` | one write call of an agent: as the list of database states it goes through, as what it does to rows, keys and entries, as the methods of `Handle`, and as a script over cloned handles |
| `AgentRecovery.dfy`, `AgentRecoveryCases.dfy`, `AgentBatchRecovery.dfy`, `AgentForeseeable.dfy`, `AgentReads.dfy` | crashes and reruns: of any journaled script, of one call, of whole batches, of batches told safe before they run, of scripts that read |
| `AgentAttempts.dfy`, `AgentCap.dfy`, `AgentJournal.dfy`, `AgentDuplicates.dfy`, `AgentOwners.dfy`, `AgentCounterexamples.dfy` | attempts in which queries fail and the script goes on; what holds of every history of them, and four concrete inputs on which more does not |
| `CanonicalText.dfy`, `OpKey.dfy` | the canonical text of a JSON value and the text a journal key digests |
| `RestCore.dfy`, `Rbac.dfy` | create, update, delete, get and list on one table, what each leaves of it, and the access decisions they ask for |
| `JsonValues.dfy`, `Listing.dfy` | script values, pagination |
| `ApiTokens.dfy` | the token table under any interleaving of statements |
| `CookieText.dfy`, `SessionCookie.dfy`, `OidcLogin.dfy` | header reading, the session cookie, the login protocol |
| `SchemaStatements.dfy`, `LymailleMigration.dfy` | DDL statements, the two migrations |
| `Ir.dfy` | entity descriptions and the resolution of their references |

## What the proofs found

* **Crash and rerun of a batch step.** A script chooses each act from the answers so far; an
  attempt may crash in any state of any call, any number of times; an attempt abandoned at a
  database failure is such a crash. If, in the uninterrupted run, each call resumes from each of its
  states and everything the journal does not keep, each earlier failure and each earlier read, is
  answered there as it was, every history ends as without a crash; and where the answers fit the
  journal this is exact. Creates and updates with distinct keys do not guarantee it by themselves: a
  failed call is not journaled, and may succeed on the rerun (`FailedUpdateDoesNotConverge` is a
  two-call script); and a script that lists before it creates may list otherwise and create another
  row (`ListThenCreateDoesNotConverge`).
* It is guaranteed, told before the first call from the script, the registry and the tables, with no
  hypothesis on the answers, for a batch whose every call is refused without reading a row (by the
  cap, the account, the registry, the id, the body, the policy or the hook), or creates a row whose
  body carries every column of every UNIQUE constraint, the label being UNIQUE by itself, and agrees
  with the row asked for, or updates with a hook that stores the body, on an entity without UNIQUE
  constraints, and that reads only what it writes no more. Whatever fails in it: a conflict, a too
  large answer, a missing row. Where an entity that is updated has UNIQUE constraints, it is enough
  that each call is refused like that, or succeeds and is a recognisable create or such an update.
* **Failing queries.** Over any history of attempts in which any queries fail, the script goes on,
  and crashes come, the journal only grows, its entries are what completed calls answer, owners
  never move and the cap stays positional. The rows of one create are at most one more than the
  crashes between its write and its record and the records that failed or were refused for their
  size. A failing record is enough for a second row, without any crash
  (`FailedRecordMakesASecondRow`): the next execution writes again, where
  src/lymaille/resource_module.sdd:88 expects the replay to make up for it.
* A create resumes exactly when its row finds itself: some UNIQUE constraint has no null in it, the
  body carries a label, the row agrees with the body, and no earlier row does. When the label is
  UNIQUE by itself the last part is for free, whatever other constraints there are. A body whose
  owner is not the caller never agrees, since the owner is forced at the insert: the rerun answers
  `conflict`. A delete caught between its DELETE and its journal entry never resumes.
* An answer over 64 KiB leaves its row written, answers an error and is never journaled
  (`OnlyOversizedFailsDirty`).
* The recovery read makes no access decision: a batch create may answer a row its caller may not
  `get` (`RecoveredRowMayBeHidden`), which the body excludes when it names the caller as owner.
* `can_create` on an OwnerOnly entity with an owner column asks nothing of the database, so it
  allows where `can_write` would answer an error; everywhere else the two agree.
* Numbers above the signed 64-bit range come back from a script as floats; everything else
  survives the trip.
* Every operation is also told in rows and keys, without the functions that compute it: what it adds,
  replaces or removes, that nothing else changes, and the one cause of each refusal. Over whole
  histories, a row the account may not write is never touched.
* The stamp of a token validation is best-effort: its failure is absorbed even when the row is gone.

## Model

| member | source | states |
|---|---|---|
| AgentHandle.RereadRows | src/lymaille/resource_module.rs:356-390 | The recovery loop gives a row that holds every field of the body but the key, among them its label, or nothing when no row does |
| AgentEffects.RereadFinds | src/lymaille/resource_module.rs:356-390 | The recovery read answers the first row that has the body's label and each of its other fields, and nothing if and only if no row has |
| AgentHandle.Handle.constructor | src/lymaille/resource_module.rs:767-780 | A module instance starts with a counter of its own at zero |
| AgentHandle.Handle.Clone | src/lymaille/resource_module.rs:571-578 | Clones share the store and the counter, so one cap covers all the functions of a module |
| AgentHandle.Handle.ChargeWrite | src/lymaille/resource_module.rs:584-589 | Every call counts, refused or not; exactly the first 100 pass |
| AgentHandle.Handle.Replay | src/lymaille/store/write_journal.rs:125-143 | The entry under (run, step, call), none in an interactive session, or the database's failure |
| AgentHandle.Handle.RecordWrite | src/lymaille/store/write_journal.rs:154-192 | The first entry under a key stays; a value whose text is over 64 KiB, or a failing insert, records nothing and is an error |
| AgentHandle.Handle.Create | src/lymaille/resource_module.rs:681-705 | From any store and counter, and whichever of its queries fails, the states the call goes through and its answer are exactly those of `AgentWrites.ApplyWith`, which every theorem below is about; when it succeeds without the journal, its table has one row more, the hook's under the next key and the account's name, or in a batch holds a row with all of the body, and that row is the answer; every other row, table and entry stays; the journal's answer, and any refusal but an internal error, changes nothing |
| AgentHandle.Handle.Update | src/lymaille/resource_module.rs:708-722 | The same for an update: the row of that key is replaced by the hook's, under its key and owner, and is the answer; no other row, table or entry changes |
| AgentHandle.Handle.Delete | src/lymaille/resource_module.rs:726-740 | The same for a delete: the row of that key is gone, and no other |
| AgentEffects.AdmissionRule | src/lymaille/resource_module.rs:584-616 | Who gets as far as the journal, and the one cause of each refusal before it, in order: the cap, the account, the admin query, the range of the id, the registry |
| AgentEffects.CreateAnswers | src/lymaille/resource_module.rs:691-704 | A create answers the row inserted; on a unique violation, `conflict` if and only if outside a batch or no row has the body's label and other fields, and else the first such row |
| AgentEffects.CreateCreates | src/lymaille/resource_module.rs:681-705 | Whichever query fails, a create that succeeds without the journal has left exactly the row it answers, and everything else as it was |
| AgentEffects.UpdateUpdates | src/lymaille/resource_module.rs:708-722 | The same for an update, by an account that may write the row |
| AgentEffects.DeleteDeletes | src/lymaille/resource_module.rs:726-740 | The same for a delete |
| AgentEffects.RefusalsChangeNothing | src/lymaille/resource_module.rs:682-697 | A call the journal answers, or refused by other than an internal error, goes through no other state |
| AgentEffects.TooLargeIsOverTheBound | src/lymaille/store/write_journal.rs:160-166 | A text of one-byte characters is refused from 65535 of them on, its two quotes making 65537 bytes, and no text that long is ever taken |
| AgentScript.OpenModule | src/lymaille/resource_module.rs:774-786 | A module's handle and its clones share one store and one new counter |
| AgentScript.Drive | src/lymaille/resource_module.rs:571-589 | A script whose calls go through any choice among the cloned handles, whichever of their queries fail, ends, in store, answers and counter, as the run that numbers calls by position; exactly the first 100 charged calls pass the cap, and at most 100 change a table |
| AgentWrites.FaultIsACrash | src/lymaille/resource_module.rs:685-703 | Whichever query of a call the database fails, the call stops in one of the states it goes through anyway, with an internal error |
| AgentAttempts.AbandonedIsACrash | src/lymaille/resource_module.rs:685-703 | An attempt abandoned at its first database failure leaves what a crash in that call leaves |
| AgentAttempts.AbandonedConverges | src/lymaille/resource_module.rs:685-703 | A script that survives every history of crashes survives every history of attempts abandoned at a failing query |
| AgentAttempts.FaultyCallsKeep | src/lymaille/resource_module.rs:685-703 | Whichever queries fail, no state of any call loses or overwrites an entry, and a success leaves the entry with its answer |
| AgentRecovery.ResumableConverges | src/lymaille/resource_module.rs:677-722 | Crash-resume refinement: if each call of the uninterrupted run resumes from each of its states and earlier failures repeat there, any history of crashes followed by a rerun ends with the same tables, journal and answers |
| AgentRecovery.ConvergingIsResumable | src/lymaille/resource_module.rs:677-722 | The condition is necessary where, in the states of the run, earlier calls that fail have no effect: a script whose every prefix survives every history of crashes satisfies it |
| AgentRecovery.CrashSafety | src/lymaille/store/write_journal.rs:4-9 | The two together, for any machine that replays, else writes, then records |
| AgentRecovery.CallByCallIsResumable | src/lymaille/resource_module.rs:677-722 | It is enough that each call resumes and that a failure settled before a call is settled in each state of it |
| AgentRecoveryCases.AgentCallsJournal | src/lymaille/resource_module.rs:685-703 | The three verbs obey the journal's laws: a journaled call changes nothing and answers its entry, no state of any call loses or overwrites an entry, a success leaves one |
| AgentRecoveryCases.AgentCallsRestartQuietly | src/lymaille/resource_module.rs:685-703 | A call restarted from one of its own states and ending alike visits no new state |
| AgentRecoveryCases.AnswersFitIsClean | src/lymaille/store/write_journal.rs:160-166 | Along a run, earlier calls that fail have no effect if and only if none of them would answer over the bound |
| AgentRecoveryCases.OnlyOversizedFailsDirty | src/lymaille/store/write_journal.rs:160-166 | A failed batch call has had an effect exactly when its write succeeded with an answer over the bound; it then leaves no entry and would write again |
| AgentRecoveryCases.AgentCrashSafety | src/lymaille/resource_module.rs:681-740 | The exact condition for an agent's batch script to survive every history of crashes, where earlier calls issued again in the run's states would not answer over the bound |
| AgentRecoveryCases.CreateWrittenAgain | src/lymaille/resource_module.rs:691-702 | For any UNIQUE constraints, composite ones too: written again on the table it left, a create answers its own row and inserts nothing if and only if that row finds itself, which is told before the call |
| AgentRecoveryCases.CreateResumes | src/lymaille/resource_module.rs:691-704 | A create survives a crash before its record if and only if its row finds itself; for a label UNIQUE by itself, if and only if the body carries the label and the requested row agrees with the body |
| AgentRecoveryCases.LabelDecides | src/lymaille/resource_module.rs:356-390 | For a label UNIQUE by itself, a row finds itself if and only if it is recognisable, whatever other UNIQUE constraints there are |
| AgentRecoveryCases.RescuedRowIsReadable | src/lymaille/resource_module.rs:374-389 | The row a recovery answers is one its caller may `get` if and only if `can_read` allows it; with the owner in the body, if and only if the policy alone allows or the body names the caller |
| AgentCounterexamples.RecoveredRowMayBeHidden | src/lymaille/resource_module.rs:374-389 | A concrete create that answers a row its caller may not `get` |
| AgentRecoveryCases.WrittenAgainIsResumed | src/lymaille/resource_module.rs:685-704 | A call that wrote resumes if and only if writing it again on the table it left gives the same answer and leaves that table |
| AgentRecoveryCases.UpdateResumes | src/lymaille/resource_module.rs:708-722 | An update survives a crash before its record if and only if updating the row it left gives that row again |
| AgentRecoveryCases.UpdateWrittenAgain | src/lymaille/resource_module.rs:708-722 | Written again on the table it left, an update changes nothing if and only if updating the row it left gives that row |
| AgentRecoveryCases.DeleteNeverResumes | src/lymaille/resource_module.rs:724-740 | A delete caught between the DELETE and its record answers `not found` on the rerun, and the row stays deleted |
| AgentBatchRecovery.StoredBodyIsStable | src/rest/core.rs:153-171 | With a hook that stores the body, key forced and owner kept, updating twice is updating once |
| AgentBatchRecovery.SafeCallResumes | src/lymaille/resource_module.rs:681-722 | A recognisable create or a body-storing update that succeeds resumes, also when the journal or the recovery read answered it |
| AgentBatchRecovery.SafeBatchConverges | src/lymaille/resource_module.rs:681-722 | A batch whose calls are each refused without reading a row, the cap's refusals included, or succeed and are a recognisable create or a body-storing update, ends after any crashes and reruns with the tables, journal and answers of one uninterrupted run |
| AgentBatchRecovery.RefusalStands | src/lymaille/resource_module.rs:682-697 | A call refused without reading a row is refused alike in every state later calls go through |
| AgentBatchRecovery.FailureStands | src/lymaille/resource_module.rs:691-702 | A self-identifying create that failed without effect fails alike once any other creation is in: conflicts persist and rows found stay found |
| AgentBatchRecovery.SelfIdentifyingResumes | src/lymaille/resource_module.rs:691-704 | A self-identifying create resumes whatever its answer, a conflict or an oversized answer included |
| AgentForeseeable.UpdateFailureStands | src/lymaille/resource_module.rs:708-722 | Beside calls told safe, a body-storing update on an entity without UNIQUE constraints that failed fails alike in every later state |
| AgentForeseeable.ForeseeableConverges | src/lymaille/resource_module.rs:681-722 | Told before the first call, with no hypothesis on answers: a script whose every call is refused outright, a self-identifying create, or a body-storing update on an entity without UNIQUE constraints whose answer fits, survives every history of crashes, whatever fails in it |
| AgentForeseeable.CreatesConverge | src/lymaille/resource_module.rs:681-705 | Whatever the tables, a script that only makes self-identifying creates, or calls refused outright, survives every history of crashes |
| AgentReads.ReadingCrashSafety | src/lymaille/resource_module.rs:642-704 | The exact condition for scripts that `get` and `list` between their writes: the act in progress resumes, and each earlier failure and each earlier read is answered as it was in every state of the run |
| AgentReads.ForeseeableActsConverge | src/lymaille/resource_module.rs:642-722 | Such a script, its calls told safe as above and never again writing a resource it has read, survives every history of crashes, the answers of its reads included |
| AgentReads.ReadingIsAnAttempt | src/lymaille/resource_module.rs:642-704 | To the database an attempt that reads, whichever reads and queries fail, is an attempt of the calls it makes, so what holds over all histories of attempts holds for scripts that read |
| AgentReads.ReadsAreFree | src/lymaille/resource_module.rs:580-589 | In every run the cap refuses exactly the calls that come after 100 others, however many reads there are |
| AgentCounterexamples.ListThenCreateDoesNotConverge | src/lymaille/resource_module.rs:642-662 | A concrete script that lists, then creates, leaves two rows after a crash where the uninterrupted run leaves one |
| AgentAttempts.HistoryKeepsDbOk | src/rest/core.rs:103-219 | Every history of attempts keeps each table's keys distinct, ascending and below the counter of keys |
| AgentOwners.OwnersNeverMove | src/rest/core.rs:115-171 | Over any history of attempts, whatever queries fail and whatever bodies and hooks say, a row that was there keeps its owner value, null included, and every row made is the session's own account's |
| AgentOwners.RightsAreKept | src/rest/core.rs:103-219 | Over any history of attempts, whatever fails in them, a row the account may not write is never changed nor removed, and an account that may not create never adds a row |
| AgentCap.CapIsPositional | src/lymaille/resource_module.rs:75-79 | In every run, whichever queries fail, the refused positions are exactly those from 100 on, replays included, so a rerun is refused at the same positions |
| AgentCap.CapFreezesTheDatabase | src/lymaille/resource_module.rs:584-589 | Whichever queries fail, the database a run leaves is the one its first 100 calls leave |
| AgentJournal.HistoryKeepsJournal | src/lymaille/store/write_journal.rs:178-186 | No history of attempts, whatever fails in them, loses or overwrites an entry |
| AgentJournal.EntriesAreForever | src/lymaille/store/write_journal.rs:178-186 | An entry of any state any attempt of a history goes through, whatever fails in it, is in the final journal, unchanged |
| AgentJournal.EntriesAreWrites | src/lymaille/resource_module.rs:691-704 | Every entry a history of attempts makes, by a call that crashed before answering included, holds what the write of a call with its key gave |
| AgentJournal.EntriesAreAnswers | src/lymaille/resource_module.rs:685-704 | In every history, whatever fails, every call that succeeds, in whichever attempt, answers the entry the final journal holds under its key: the first one's answer, and each later one's |
| AgentJournal.JournalIsInvisible | src/lymaille/resource_module.rs:685-704 | For pairwise distinct calls that succeed, a batch step leaves the tables and gives the answers of an interactive session, which writes no journal |
| AgentDuplicates.DuplicatesAreCounted | src/lymaille/resource_module.rs:685-704 | Whatever the entity, the sizes and the failing queries, over any history the rows of one create key never exceed one plus the executions that wrote and left no entry; none once journaled |
| AgentDuplicates.WindowsAreCrashes | src/lymaille/resource_module.rs:691-703 | In one attempt, at most one execution goes unrecorded by a crash, and only when the crash falls in that call after exactly one effect; any other had its record refused for its size or failed by the database |
| AgentDuplicates.OneRowPerCrash | src/lymaille/resource_module.rs:685-704 | Label or not, over any history of attempts whatever fails in them, the rows of one create key never exceed one plus the crashes that fell between its write and its record, plus the executions whose record was refused for its size or failed |
| AgentCounterexamples.FailedRecordMakesASecondRow | src/lymaille/store/write_journal.rs:178-192 | A concrete script whose first record fails and that creates again leaves two rows under one key, with no crash and no answer over the bound |
| AgentCounterexamples.FailedUpdateDoesNotConverge | src/lymaille/resource_module.rs:719-720 | A concrete script of one update and one create, distinct keys, default hooks, that does not survive a crash |
| CanonicalText.WriteCanonical | src/lymaille/store/write_journal.rs:70-102 | The recursive loops over sorted keys and items write exactly the canonical text |
| CanonicalText.CanonicalIsInjective | src/lymaille/store/write_journal.rs:66-102 | Two JSON values have one canonical text if and only if they are equal, key order aside |
| CanonicalText.Unambiguous | src/lymaille/store/write_journal.rs:70-102 | Canonical texts are self-delimiting: followed by a delimiter or nothing, they are cut at one place only |
| CanonicalText.BelowIsByCharacter | src/lymaille/store/write_journal.rs:74-75 | Keys are sorted by their first differing character, a beginning before what it begins |
| CanonicalText.BytesAdd | src/lymaille/store/write_journal.rs:160-161 | The length that bounds a result is additive over characters, and no less than their number |
| OpKey.KeyTextIsTheCall | src/lymaille/store/write_journal.rs:104-116 | The digested text tells any two calls apart by verb, resource, id and every part of the body |
| RestCore.ListIsEveryGet | src/rest/core.rs:41-101 | A row is in the list exactly when `get` on its key returns it, and they fail together |
| RestCore.CreateInserts | src/rest/core.rs:103-131 | A create appends the hook's row, every column of it, under the next key and the user's own id, for a user who may create, when no UNIQUE constraint holds it equal to a row; and each refusal has its one cause |
| RestCore.ReachIsAllowed | src/rest/core.rs:81-101 | The prefix of get, update and delete reaches the row of the key if and only if the user may; `not found` means no row of that key and no refusal without one; a refusal that needs no row is the same whether the row is there or not |
| RestCore.GetFinds | src/rest/core.rs:81-101 | `get` answers a row if and only if it is the row of that key and the user may read it |
| RestCore.UpdateReplaces | src/rest/core.rs:133-183 | An update leaves at the row's place the hook's row, every column of it, but the path's key and the owner there was; every other row stays; the user may write the row |
| RestCore.DeleteRemoves | src/rest/core.rs:185-219 | A delete takes out the row of the key, which the user may write, and leaves the others as they stood |
| RestCore.RemovedLeavesTheRest | src/rest/core.rs:214-218 | The rows a delete leaves are exactly those of another key |
| RestCore.WritesRefuse | src/rest/core.rs:133-219 | Update and delete refuse as their prefix does, by their hook's message, or, for an update, as a database error if and only if a UNIQUE constraint holds the row equal to another |
| Rbac.ListAgreesWithCanRead | src/rbac.rs:129-213 | For every policy, owner column, membership and row, null owners included, the list filter admits the row if and only if `can_read` allows it, and both err alike |
| Rbac.CanCreateIsCanWriteOnOwn | src/rbac.rs:63-84 | `can_create` allows if and only if `can_write` allows on all the records the user would own, if and only if the admin query does not fail on an OwnerOnly entity with an owner column |
| Rbac.FailedQueriesAreErrors | src/rbac.rs:63-213 | Each entry point errs exactly when a query it needs fails, never allowing or denying then; `can_create` with the exception above |
| Rbac.WhoMayRead | src/rbac.rs:21-60 | Anybody when reading is public, a member of `admin`, and of the others a member of the named group or the user whose id is in the owner column; nobody else |
| Rbac.WhoMayWrite | src/rbac.rs:40-60 | The same by the write policy |
| Rbac.WhoMayCreate | src/rbac.rs:63-84 | Anybody when writing is public or the owner's own, a member of `admin`, a member of the named group; nobody else |
| Rbac.ForbiddenListsAreUnreadable | src/rbac.rs:181-213 | A list is refused as a whole if and only if no record whatever could be read |
| JsonValues.JsonRoundTrip | src/lymaille/resource_module.rs:474-528 | JSON to Rhai and back is the identity if and only if no number lies above the signed 64-bit range |
| JsonValues.DynamicRoundTrip | src/lymaille/resource_module.rs:474-528 | Rhai to JSON and back is the identity whenever the conversion succeeds |
| JsonValues.ScriptsSeeTheValue | src/lymaille/resource_module.rs:510-528 | A script sees each kind of value as its own kind, with the same content, lists in order and fields under their names |
| JsonValues.AsF64IsNearest | src/lymaille/resource_module.rs:510-528 | A number above the signed range becomes the nearest multiple of 2048, the even one of two |
| Listing.AgentPaginationFits | src/lymaille/resource_module.rs:655-656 | Whatever two signed numbers a script passes: page in [1, MAX_PAGE], size in [1, 50], product in 64 bits; numbers in range are taken as they are, others as the nearest bound, negative ones as absent; normalising again changes nothing |
| Listing.PageCountIsExact | src/rest/core.rs:63-78 | That many pages, end to end, are the whole list, and a page is empty exactly beyond them |
| Listing.PagingShowsEveryGet | src/lymaille/resource_module.rs:642-662 | Paging until an empty page gives, in key order and once each, exactly the rows whose filter column holds the text asked for, if there are both, and that `get` returns; every page announces their number |
| Listing.EveryPageIsReachable | src/query.rs:9-33 | The last page of any table lies below the clamp on pages, and a page is empty exactly past it |
| Listing.PageTellsItself | src/rest/core.rs:63-78 | A page tells its number and size as normalised, holds no more rows than that, and announces the page count of the rows it announces |
| Listing.CountIsTight | src/rest/core.rs:67-76 | That count is just enough for the rows |
| AgentReads.GetAnswersTheRow | src/lymaille/resource_module.rs:665-675 | An agent's `get` answers a row if and only if its account is known, the resource is registered, and the row of that key may be read |
| AgentReads.ListAnswersThePage | src/lymaille/resource_module.rs:642-662 | An agent's `list` answers the items, numbers and totals of the page under their five names |
| ApiTokens.TokenService.StepValidate | src/auth/token.rs:148-182 | Each statement of a validation is the step of the interleaving model: read, clock, best-effort stamp |
| ApiTokens.TokenService.StepEnsure | src/auth/token.rs:222-244 | Each statement of `ensure_token` is that step: read, then insert under UNIQUE |
| ApiTokens.TokenService.StepOnce | src/auth/token.rs:97-120 | The single statement of `issue_token`, and of `revoke_token` (lines 191-194), is that step |
| ApiTokens.IssueAdds | src/auth/token.rs:97-120 | `issue_token` adds one row, as asked, never used, under the next id, if and only if the database answers and no row has the fingerprint; it changes nothing otherwise |
| ApiTokens.EnsureAdds | src/auth/token.rs:222-244 | `ensure_token` answers by whose the fingerprint is and changes nothing, or, when it is nobody's, adds one row as asked |
| ApiTokens.ValidateReads | src/auth/token.rs:148-182 | A validation finds the row of the fingerprint or InvalidToken, is expired from `expires_at` on, and touches nothing but the last use of that row |
| ApiTokens.RevocationRemoves | src/auth/token.rs:191-194 | In every interleaving, a revoked id is in no later state, and the step removes no other row |
| ApiTokens.RevokedTokenIsInvalid | src/auth/token.rs:143-194 | In every interleaving, a token presented after its revocation is answered InvalidToken as long as no token of its fingerprint is added again |
| ApiTokens.UnrevokedTokenIsRead | src/auth/token.rs:148-152 | In every interleaving, a token that is not revoked is read as it was issued, last use aside |
| ApiTokens.RowsOnlyLeave | src/auth/token.rs:143-245 | In every interleaving fingerprints stay unique; between any two states a row is the same token, last use aside, or gone for good |
| ApiTokens.ValidationAnswer | src/auth/token.rs:148-182 | A validation that reaches its stamp read, earlier, a row with the presented fingerprint, unexpired at its clock check; it answers that row's subject and id if and only if the row stayed to the stamp or the stamp failed otherwise, and InvalidToken else |
| ApiTokens.OnlyRevocationRemoves | src/auth/token.rs:191-194 | A row that left was removed by a revocation of its id in between |
| ApiTokens.EnsureOkMeansOwned | src/auth/token.rs:223-244 | Ok means that the fingerprint is at that moment the subject's own |
| ApiTokens.FingerprintHasOneOwner | src/auth/token.rs:214-245 | Two `ensure_token` calls on one secret for different subjects both answer Ok only if the first one's row is revoked between them |
| CookieText.SplitOfJoin | src/auth/cookie.rs:114-124 | Splitting undoes joining of parts free of the separator |
| CookieText.JoinOfSplit | src/auth/cookie.rs:114-124 | Joining undoes splitting of any text |
| CookieText.SplitOnceExact | src/auth/cookie.rs:118-122 | `split_once` fails exactly without a separator and cuts at the first one |
| CookieText.PairIsFound | src/auth/cookie.rs:112-124 | In any header, the first pair of a name is read back whole, whatever the other segments hold |
| CookieText.FoundIsFirstPair | src/auth/cookie.rs:112-124 | A value is read from a header if and only if it is that of the first segment that is, blanks aside, a pair of the name |
| CookieText.TrimStrips | src/auth/cookie.rs:114-116 | Trimming takes the blanks off both ends, all of them and nothing else |
| CookieText.TrimsToNothing | src/users/membership.rs:68-82 | A text is trimmed to nothing if and only if it is all blanks |
| SessionCookie.BuildSetCookie | src/auth/cookie.rs:36-61 | The cookie holds the sealed identity, and its Max-Age is the time left before `exp` (section 4.1.4 of RFC 7519), zero without one |
| SessionCookie.SessionRoundTrip | src/auth/cookie.rs:36-133 | Sent back first of its name in any header, the cookie gives its identity at each instant of its Max-Age and is rejected at each one after |
| SessionCookie.TransplantIsRejected | src/auth/cookie.rs:126-132 | A text sealed under another key or cookie name is never a session |
| SessionCookie.ExpiryOfToken | src/auth/cookie.rs:135-175 | A token expires at n if and only if it has exactly three segments and the middle one gives the whole number n below 2^53 |
| SessionCookie.SessionLastsToItsExpiry | src/auth/cookie.rs:36-133 | A session is read back until the second its token expires and not from then on |
| SessionCookie.WhatIsNoSession | src/auth/cookie.rs:80-133 | `NotAuthenticated` if and only if the header has no pair of the session's name; a session is the content of the first such pair, opened under the server's key |
| OidcLogin.PendingRoundTrip | src/auth/mod.rs:102-148 | Reading gives back exactly the login that was printed if and only if its csrf and nonce are free of `:` |
| OidcLogin.PendingRefusal | src/auth/mod.rs:143-148 | A value is refused if and only if it holds fewer than two `:` |
| OidcLogin.AuthServer.HandlerLogin | src/auth/mod.rs:94-126 | The pending cookie is the seal of the printed secrets, and nothing else changes |
| OidcLogin.AuthServer.AskProvider | src/auth/oidc.rs:304-350 | One exchange: the code is redeemed if unredeemed and granted for the verifier, and gives an identity only under the expected nonce |
| OidcLogin.AuthServer.EnterAccount | src/auth/mod.rs:165-172 | After the exchange: account, memberships replaced as a whole by the non-blank claimed groups, and only then the sealed session |
| OidcLogin.AuthServer.FilterGroups | src/users/membership.rs:68-82 | Exactly the claimed names that hold a character that is no blank |
| OidcLogin.CallbackFailures | src/auth/mod.rs:150-172 | A code of another login is refused, and spent only under its own verifier; a database failure comes after the code is spent, and leaves the account made if and only if it was the memberships that failed |
| OidcLogin.AuthServer.HandlerCallback | src/auth/mod.rs:128-189 | The handler's checks and effects, in order, are the transition of the protocol model: exchange, account, memberships, sealed session |
| OidcLogin.RunKeeps | src/auth/oidc.rs:284-302 | Over every run the secrets of logins stay distinct, every cookie sealed as pending is a login's, no login, cookie or account is forgotten, a redeemed code stays redeemed |
| OidcLogin.PendingIsALogin | src/auth/mod.rs:137-148 | From the sealing alone: whatever header a client sends, what opens in the pending slot is the printed secrets of one of the logins |
| OidcLogin.SwappedCookieIsRefused | src/auth/mod.rs:138-139 | A session cookie, or any cookie of another name, in the pending slot is refused and changes nothing |
| OidcLogin.SessionTracesToOneLogin | src/auth/mod.rs:128-189 | Against clients that send any sealed cookie under any name, each session traces to exactly one earlier login: its csrf is the state received, the exchange used its nonce and verifier, the code was granted for both and unredeemed; the account is left in exactly the groups claimed that are not blank, and every other account in its own |
| OidcLogin.CodeOpensOnce | src/auth/oidc.rs:316-350 | Two sessions of a run never come from one code |
| OidcLogin.CallbackOpensExactly | src/auth/mod.rs:137-172 | Against the same clients, a session is set if and only if the first pending cookie is some login's, its csrf is the state, the code is unredeemed and granted for its nonce and verifier, and the database answers |
| OidcLogin.RejectionIsQuiet | src/auth/mod.rs:138-160 | A rejected callback seals no cookie and changes no membership; one rejected for its cookie or state changes nothing; any exchange is for the login whose csrf is the state received |
| OidcLogin.HonestLoginOpens | src/auth/mod.rs:94-189 | A client that returns its own cookie, state and granted code gets the session |
| OidcLogin.AcceptedSessionWasOpened | src/auth/cookie.rs:80-101 | In every run, a session that `extract_session` accepts was opened by an earlier callback for that very identity |
| SchemaStatements.PrefixThenWhole | src/lymaille/migration.rs:518-594 | For any list without strict drops and without re-creations, any prefix followed by the whole ends, from any schema, as the whole does, failures included |
| SchemaStatements.WhatStrictStatementsLeave | src/lymaille/migration.rs:602-621 | A strict drop takes out its table with its indexes, or its column, and nothing else; a failing one changes nothing |
| LymailleMigration.SchemaManager.MigrateUp1 | src/lymaille/migration.rs:260-302 | The loops over tables and indexes send exactly the statement list of the first `up`, stopping at the first failure |
| LymailleMigration.SchemaManager.MigrateDown1 | src/lymaille/migration.rs:306-317 | The same for the first `down`, tables in reverse |
| LymailleMigration.SchemaManager.MigrateUp2 | src/lymaille/migration.rs:518-594 | The same for the second `up`: clean-ups, additions, guarded column |
| LymailleMigration.SchemaManager.MigrateDown2 | src/lymaille/migration.rs:602-621 | The same for the second `down`: column, then tables in reverse |
| LymailleMigration.Lot1Ok | src/lymaille/migration.rs:121-250 | The first lot's tables are distinct and each index names columns its table has |
| LymailleMigration.Lot2Ok | src/lymaille/migration.rs:379-508 | The same for the second lot |
| LymailleMigration.LotsAreApart | src/lymaille/migration.rs:349-477 | The two lots and the replaced tables share no name |
| LymailleMigration.AdditionsExtend | src/lymaille/migration.rs:260-302 | On a schema with none of its tables, the additions of a lot succeed and add exactly its tables, as declared, and indexes on them |
| LymailleMigration.JournalHasOneRowPerCall | src/lymaille/migration.rs:379-508 | Both `up`s make a journal whose primary key is run, step and call, three texts never null: the key the replay of a call rests on |
| LymailleMigration.UniqueIndexesAreMade | src/lymaille/migration.rs:260-302 | Each named index of a lot is made on its table and columns, unique |
| LymailleMigration.SearchIndexesAreMade | src/lymaille/migration.rs:260-302 | Each search index of a lot is made on its table and columns, not unique |
| LymailleMigration.UpResumes | src/lymaille/migration.rs:260-594 | From any schema, an `up` cut after any statement and sent again ends as one `up`; in particular `up` is idempotent |
| LymailleMigration.ColumnRoundTrip | src/lymaille/migration.rs:580-610 | Adding the column and dropping it strictly is nothing |
| LymailleMigration.ReplacingDownUndoes | src/lymaille/migration.rs:602-621 | The second `down` takes back the column, the tables and their indexes, exactly |
| LymailleMigration.UpThenDown | src/lymaille/migration.rs:260-621 | From a schema with none of the tables: both `up`s succeed, the second `down` leaves the first lot's schema, `up` again restores the second's, and both `down`s give back the start |
| LymailleMigration.DownsNeverRecreate | src/lymaille/migration.rs:596-621 | From any schema, no `down`, complete or not, brings a table back |
| LymailleMigration.DownsAreStrict | src/lymaille/migration.rs:304-317 | Without its first target a `down` fails at once and changes nothing |
| Ir.IrRegistry.Register | src/ir.rs:211-228 | Accepts exactly what keeps resources and tables one to one; the two vectors stay aligned; a refusal names its cause, resource first, and touches neither vector |
| Ir.IrRegistry.ResolvedEntities | src/ir.rs:235-251 | The in-place loop over copies gives the specified output and leaves the registry alone |
| Ir.RawReferenceIsBelongsTo | src/ir.rs:122-154 | A column's table is that of its first scalar `belongs_to`; inverse, to-many and composite relations never count |
| Ir.LookupIsOwnership | src/ir.rs:241-246 | A table resolves to a name if and only if a registered entity of that name owns it |
| Ir.ReferenceIsOwnership | src/ir.rs:235-251 | A field of the output refers to a name if and only if that entity owns the table of its first `belongs_to`; nothing else changes |
| Ir.ReferencesAreClosed | src/ir.rs:230-251 | Every reference of the output names exactly one entity of the output |
| Ir.OrderDoesNotMatter | src/ir.rs:211-251 | Any order of the same registrations is accepted alike, resolves each entity alike, and outputs the same entities |
| Ir.LaterRegistrationsOnlyResolve | src/ir.rs:235-251 | More registrations change no resolved reference, and resolve one that was not exactly when one of them owns its table |

## Left out

- AgentRecoveryCases.AgentCrashSafety: asks that earlier calls issued again in the run's states not answer over the bound; without it two failing updates can overwrite each other and still end alike, so the condition is then sufficient (`ResumableConverges`) but not necessary.
- AgentBatchRecovery.SafeBatchConverges: safe updates are asked to succeed, which nobody can tell beforehand on an entity with UNIQUE constraints: whether one collides depends on the rows there; `ForeseeableConverges` asks nothing of answers.
- AgentForeseeable.ForeseeableConverges: one way only; the exact condition is `AgentCrashSafety`, on the uninterrupted run.
- AgentHandle.Handle.Create: a query reported as failed has had no effect; one that took effect and is reported as failed leaves what a crash after it leaves. Other writers of the same tables between two statements, and changes of accounts, memberships or entities between attempts, are not modelled.
- AgentHandle.RereadRows: rows come in key order, where the database promises none; text and number coercions of its label comparison.
- AgentHandle.Handle.RecordWrite: creation times and the purge of old entries.
- AgentHandle.Handle.ChargeWrite: the counter is unbounded, where miryad-core's wraps after 2^64 calls.
- AgentScript.Drive: the calls of one module follow one another, as a script makes them; two of them do not overlap.
- OpKey.KeyTextIsTheCall: collisions of SHA-256; float texts are any that print distinct floats differently, and the two zeros are one float.
- OidcLogin.AuthServer.HandlerCallback: redirects and cookie attributes; JWT signatures, PKCE hashing and sealing are ideal; the flag for rotated signing keys and `verify_bearer` are not modelled.
- ApiTokens.TokenService.StepValidate: the update and its re-read on databases without RETURNING are one statement; secret generation and hashing are a fingerprint.
- SessionCookie.SessionRoundTrip: clocks before 1970, the JSON form of the payload and the decoding of claims, taken as faithful.
- Listing.PagingShowsEveryGet: SQL collation of the filter's text comparison; an entity's filter column holds text, as its contract demands.
- Rbac.ListAgreesWithCanRead: owner columns that are not 32-bit integers, which the entity's contract forbids.
- RestCore.ListIsEveryGet: keys lost by failed inserts on some databases; rows vanishing between a read and the statement that follows.
- LymailleMigration.SchemaManager.MigrateUp2: data in the tables; only the schema is followed.
- Ir.IrRegistry.Register: the OpenAPI type and format of a column, one lookup table; writing the JSON file.
- AgentReads.ReadingCrashSafety: the answers of `describe`, which no write changes; a run in which a read fails is covered as an attempt (`ReadingIsAnAttempt`).
- The registration of resources of the agent module, which would only add one-branch members.
- REST and MCP routing, configuration, TLS, the Matrix client, identity and error texts, which are wiring.
