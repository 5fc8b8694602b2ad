# Verified models of the mctl-gitops guards

This repository configures a platform, and a handful of small programs guard it: they refresh a
shared credential, land a tool catalogue, hold Argo CD projects to their boundaries, gate releases,
and read shell lines, schemas, versions, states and Vault paths. Each of them says in its comments
what it is meant to guarantee. The Dafny modules here model those programs and prove the guarantees,
or, where one does not hold, give an input that breaks it and the exact condition under which it
does hold.

`dafny verify dfyconfig.toml` checks everything.

## What is modelled

**Credential refresh** (`TokenLock`, `TokenWait`, `TokenReturns`, `TokenClient`, `TokenFile`). Any
number of `mctl` processes share a token file and an `O_EXCL` lock file, and every refresh token may
be used once. `TokenLock` is a transition system: one step is one file-system call, one call to the
authorization server, one local decision, a passing of time or a crash, and steps of different
processes interleave freely. Mutual exclusion holds on every run in which a live holder's lock never
gets older than `tokenLockStale` and a rename takes away only the file that was statted; both
hypotheses are needed, and two runs show it. The comment at zitadel.go:307 says a rename succeeds
for one process only, which is true of one lock file but not of two takeovers that overlap: see
`TokenLock.OverlappingTakeover`. Single use of the refresh tokens (rotation as in section 10.4 of
RFC 6749) follows when every accepted exchange is also stored. The comment at zitadel.go:258 says a
waiter never gives up on a healthy holder; that is so while one process holds throughout the wait,
but several healthy holders in turn can outlast it: see `TokenWait.GivesUpOnAHealthyHolder`.
`TokenClient` is the program itself, loop and branches, with the others acting and crashes striking
between any two of its calls; each of its executions is a run of the transition system. `TokenFile`
is the replacement of the credential file, call by call.

**Portal catalogue lander** (`PortalDecision`, `PortalChanges`, `PortalLander`, `PortalWrites`,
`PortalRecovery`, `PortalCrashes`, `PortalBumps`, `PortalValidator`, `PortalChecks`). The decision
is a function of five documents, and when it is a change is said name by name. The writes (create or
fast-forward a branch, replace two files by compare-and-swap, open a pull request) are applied to a
model of the repository on GitHub, and the process may die after any of them. Runs that die are
continued: any number of them, on any days, followed or preceded by one that is not killed, end as a
single run on one of those days does, on a proposal branch of their own as well as on the branch of
an open bump pull request. The drift report that asks for a landing has nothing left to report after
it exactly when every live tool has a name: a tool without one is counted by the report but not
handed over (scripts/portal-catalogue-drift.py:324 and :1158). The validator's two checks pass on
what is landed from main's own allowlist; for a bumped allowlist the exact condition is given for
each, and three allowlists that the decision lets through and a check then refuses.

**Argo CD project scope** (`GlobRegex`, `ProjectScope`, `RepoSpelling`, `ScopeChecks`). Globs are
written out as the text of a regular expression; the text is parsed and matched, and agrees with a
declarative meaning of the glob. A clean strict project admits exactly what its Applications use and
what an entry with `?` admits, which the strict rules let pass: `ProjectScope.QuestionMarkLeaks`.

**Release gate** (`ReleaseGate`, `ReleaseChecks`). The check before a bump and the verification of
the whole tree, problem by problem. A tree that verifies keeps verifying over any sequence of bumps
that pass, as long as no `requires` entry pins the tag itself; one that does lets a bump pass that
the next verification refuses.

**Readers and printers.** `YqTokenizer` and `YqQuoting` (the quote-aware tokenizer and the search
for the yq expression), `DigestFraming` (the stream under a proposal digest), `VersionConstraint`
and `VersionChecks` (versions and constraints), `ClosedObjects` and `ClosedKeywords` (the JSON
Schema walk), `PreviewRewrite` and `PreviewChecks` (Vault paths of preview releases), `Pagination`
(all pages or nothing, and metric labels), `Waivers` (which findings are excused), `ModuleWorklist`
(the module tree of an applied state).

`Wrappers`, `Seqs`, `Text` and `JsonDocs` hold what they share. A string is a sequence of
characters; texts are ASCII, and a line or a URL holds no line break.

## Model

| member | source | states |
|---|---|---|
| TokenLock.StepKeepsLockExactly | cli/mctl/internal/auth/zitadel.go:275-319 | every step keeps "one live holder, and the lock file is its own" exactly when it is not a rename of a live holder's lock |
| TokenLock.TheftAdmitsSecondHolder | cli/mctl/internal/auth/zitadel.go:308-316 | after such a rename the thief's next step makes a second live holder |
| TokenLock.MutualExclusion | cli/mctl/internal/auth/zitadel.go:257-319 | over any run of any number of processes at most one live process is between taking and releasing the lock, given timely holders and no re-creation between a Stat and its Rename |
| TokenLock.OverlappingTakeover | cli/mctl/internal/auth/zitadel.go:304-316 | a run from an initial state, all locks fresh, in which two takeovers overlap and two processes hold the lock |
| TokenLock.SlowHolderIsRobbed | cli/mctl/internal/auth/zitadel.go:257-262 | a run without any re-creation in which a holder outlives its lock and two processes hold it |
| TokenLock.StepKeepsTokensExactly | cli/mctl/internal/auth/zitadel.go:217-255 | every step keeps the token invariant (what is stored was issued and not yet used) exactly when it does not lose an accepted token |
| TokenLock.RefreshTokensAreSingleUse | cli/mctl/internal/auth/api.go:377-417 | over any orderly run in which accepted exchanges are stored no refresh token is presented again once the server accepted it (a refused one may be); what a live holder is about to return is what is stored, and who returns without refreshing contacted no one |
| TokenLock.WaiterReturnsTheStoredToken | cli/mctl/internal/auth/api.go:388-394 | over any run of any number of processes, before and after: a waiter that finds a valid token under the lock returns that token and no other, or is killed, and contacts no one |
| TokenLock.UndisturbedWaiterUnlocks | cli/mctl/internal/auth/api.go:380-394 | and with nobody interfering it does return it, and the lock is gone |
| TokenWait.GivesUpExactly | cli/mctl/internal/auth/zitadel.go:284-306 | whatever the others did meanwhile, a process at its deadline check gives up exactly when it began more than tokenLockWait ago |
| TokenWait.NeverGivesUpOnAHealthyHolder | cli/mctl/internal/auth/zitadel.go:256-262 | over any run in which no process ever holds for longer than tokenLockWait, a waiter does not give up if one process held ever since it began |
| TokenWait.GivesUpOnAHealthyHolder | cli/mctl/internal/auth/zitadel.go:256-262 | a run in which no process holds for longer than the 30 s of a refresh, and a waiter gives up while a healthy process holds |
| TokenReturns.ReturnedTokenWasStored | cli/mctl/internal/auth/api.go:361-417 | over any run: a call that returns a token returns one that the file held for its home while the call was on its way, an unexpired one if it did not refresh, and one the server issued to this very call if it did |
| TokenReturns.StoredTokensAreIssued | cli/mctl/internal/auth/api.go:402-415 | over any run the file is the one from the beginning or holds a token that the server issued during the run |
| TokenReturns.RemovesOnlyItsOwn | cli/mctl/internal/auth/zitadel.go:292-298 | over any run a process that is about to remove the lock compared the owner before, and the lock was its own then |
| TokenReturns.RobbedHolderLeavesTheLock | cli/mctl/internal/auth/zitadel.go:292-298 | a process whose lock was taken over leaves the other's lock where it is |
| TokenReturns.LockNamesItsCreator | cli/mctl/internal/auth/zitadel.go:285-291 | over any run, thefts included, a live holder whom the lock file names is the one that created that file |
| TokenReturns.DoneLeavesNoLock | cli/mctl/internal/auth/zitadel.go:285-298 | whoever is done, well or badly, has left no lock behind while the lock was its own |
| TokenLock.LostTokenIsReplayed | cli/mctl/internal/auth/zitadel.go:247-253 | an accepted token that was not stored is presented again by the next process, so the storing hypothesis is needed |
| TokenClient.World.Do | cli/mctl/internal/auth/zitadel.go:285-319 | one call is one step of the transition system, recorded |
| TokenClient.World.LetOthers | cli/mctl/internal/auth/zitadel.go:275-319 | whatever the others do, a process stays where it was |
| TokenClient.LockTokenFile | cli/mctl/internal/auth/zitadel.go:275-319 | the loop of create, deadline, stat and rename ends with the lock taken and signed, with an error, or with the process dead; with the lock free and nothing failing it takes and signs it at once |
| TokenClient.Unlock | cli/mctl/internal/auth/zitadel.go:294-298 | the lock is removed only if it still names its owner, and the call's result stands |
| TokenClient.RefreshLocked | cli/mctl/internal/auth/api.go:386-417 | from the re-read to the store the process holds throughout, and over an orderly run no other process holds at any point of it; with nothing failing it settles on the fresh token that is stored, or stores the one the server issues and settles on that |
| TokenClient.Refresh | cli/mctl/internal/auth/api.go:377-417 | lock, re-read, refresh, store and unlock, whatever fails, end the call or the process; when nothing fails they end with the issued token returned and stored and the lock gone |
| TokenClient.GetToken | cli/mctl/internal/auth/api.go:361-372 | every execution of the program, among any others and killed anywhere, is a run of the transition system, and a token it returns was in the file for that home meanwhile; undisturbed it returns an unexpired stored token at once, fails without a credential for that home, and replaces an expired one |
| TokenFile.WriteOwnerOnly | cli/mctl/internal/auth/zitadel.go:139-166 | whatever fails and wherever it dies, a reader of the path sees the old credential or the whole new one; success means stored, an error means not stored, and a leftover is another file that only the owner can read; it reports success whenever no call fails, and something unless it was killed |
| PortalDecision.ChangeKeepsExposure | scripts/portal-catalogue-land.py:138-160 | whenever a change is decided, live list and main's catalogue expose the same tools under the allowlist, all of them in main's enabled_tools and no more than tools_enabled |
| PortalChanges.ChangeExactly | scripts/portal-catalogue-land.py:102-168 | a change is decided exactly when everything can be read, the decision fields are main's, each name the live list adds is decided off, none that it drops is on, and the enabled names are in main's list and no more than main's count; unknown exactly when something cannot be read |
| PortalChanges.RefusalIsSo | scripts/portal-catalogue-land.py:132-158 | the reason of a refusal is so, and names exactly what it is about |
| PortalChanges.AddedAndGone | scripts/portal-catalogue-land.py:143-144 | a change reports as added each live name that main's list does not have, and as gone each of main's that is not live, as often as it is there |
| PortalChanges.MissingEntryIsUnknown | scripts/portal-catalogue-land.py:126-131 | nothing is decided unless each of the four documents has an entry of the server |
| PortalChanges.DecisionsExactly | scripts/portal-catalogue-land.py:112-125 | the allowlist's decisions are the last switch of every name in it, and there are some exactly when each entry has a name and a switch and the last ones are booleans |
| PortalChanges.AdditionIsAChange | scripts/portal-catalogue-land.py:143-150 | a tool that the portal adds and the allowlist keeps off is added |
| PortalChanges.SomeAdditionIsReady | scripts/portal-catalogue-land.py:325-396 | every server and new tool has a repository in which a run adds that tool |
| PortalDecision.NewBaselineOnlyRecounts | scripts/portal-catalogue-land.py:163-172 | the baseline's decision fields and every other server's entry stay, and the new total is recorded |
| PortalDecision.ChangeWritesOnlyItsEntries | scripts/portal-catalogue-land.py:160-168 | the catalogue gets the live list for this server and nothing else |
| PortalDecision.ResumedDecision | scripts/portal-catalogue-land.py:102-168 | with any of a change's writes already on the branch, from any day, the decision is the same change and asks for the missing writes only |
| PortalDecision.DecidingAgainWritesNothing | scripts/portal-catalogue-land.py:102-168 | deciding on the landed documents, on any date, is a change with nothing left to write |
| PortalDecision.LandedLagExactly | scripts/portal-catalogue-drift.py:317-338 | after landing the list that the drift job hands over, its report finds no lag for that server exactly when every live tool has a name |
| PortalDecision.HandedOverIsAll | scripts/portal-catalogue-drift.py:1148-1160 | the list handed over equals the one the report compares exactly when every live tool has a name |
| PortalDecision.LandedCatalogueHasNoLag | scripts/portal-catalogue-drift.py:1148-1160 | so there is none when the whole list could be landed |
| PortalChanges.LagExactly | scripts/portal-catalogue-drift.py:317-338 | no lag exactly when there is nothing live or the lists are equal, "differs" exactly when some name is in one of them only, "reordered" otherwise |
| PortalChanges.UncommittedLags | scripts/portal-catalogue-drift.py:325-330 | a server without an entry is reported with the number of its live tools |
| PortalLander.Gh.Do | scripts/portal-catalogue-land.py:262-282 | one remote write: applied as GitHub applies it, or refused and nothing changed |
| PortalLander.WriteChange | scripts/portal-catalogue-land.py:307-322 | the catalogue, then the baseline, each only if it differs; cut short anywhere the repository is the planned writes cut short there |
| PortalLander.Land | scripts/portal-catalogue-land.py:325-408 | a run leaves the repository that its plan, cut off where the process died, leaves, and reports that plan's outcome; with a commit on the proposal branch that the App did not make and sign, or a change to another file, it writes nothing and says so |
| PortalLander.PutsReplaceWhatWasRead | scripts/portal-catalogue-land.py:272-277 | whatever happened meanwhile, a put that succeeds replaces exactly the content its decision read, and no other file |
| PortalLander.WritesAreWarranted | scripts/portal-catalogue-land.py:325-408 | a run changes something only for a vendored server, on the App's one open bump branch or on a proposal branch from which no pull request is open or was closed, whose every commit the App made and signed and whose every change modifies one of the two files, after a decided change, and touches nothing else |
| PortalLander.ProposalIsNoBump | scripts/portal-catalogue-land.py:337-351 | a proposal branch is never taken for a bump branch |
| PortalLander.ForeignIsLeftAlone | scripts/portal-catalogue-land.py:290-304 | a proposal branch that somebody else worked on is left alone, over a run cut off anywhere |
| PortalWrites.WritesExactly | scripts/portal-catalogue-land.py:325-396 | a run writes exactly when the server is vendored, everything is readable, and a change is decided on the one open bump branch or, without a bump pull request, on a free proposal branch |
| PortalWrites.ReportsExactly | scripts/portal-catalogue-land.py:339-372 | each of the reports "more than one bump", "already proposed", "was closed" and "somebody else's branch" is given exactly when it is the case |
| PortalWrites.RefusalIsReported | scripts/portal-catalogue-land.py:383-387 | a refusal is reported with its reason, and no other |
| PortalWrites.OutcomeIsReported | scripts/portal-catalogue-land.py:393-408 | the report of a write says whether a file was written |
| PortalWrites.NotVendoredExactly | scripts/portal-catalogue-land.py:332-334 | a server is left to a person exactly when it is not vendored |
| PortalRecovery.TailRuns | scripts/portal-catalogue-land.py:307-322 | from any stage, the missing writes and the pull request cut short anywhere leave a later stage, or the final documents and one open pull request |
| PortalCrashes.PlanFromStage | scripts/portal-catalogue-land.py:380-396 | on any stage the run plans exactly the missing writes, dated today, and the pull request |
| PortalCrashes.RunStep | scripts/portal-catalogue-land.py:325-408 | a run that dies after any number of writes leaves a repository the next run accepts; one with four writes to spend is done |
| PortalCrashes.UninterruptedRun | scripts/portal-catalogue-land.py:325-408 | one whole run ends with one open pull request and main's documents with both entries landed on that day |
| PortalCrashes.CrashesAreContinued | scripts/portal-catalogue-land.py:325-408 | any sequence of runs, one of them whole, ends with the documents of a single whole run on one of those days, one open pull request and nothing else touched; a further run writes nothing |
| PortalCrashes.SomeJobIsReady | scripts/portal-catalogue-land.py:325-351 | every server id and tool name has a repository in which such a run has something to land |
| PortalCrashes.NothingToLandIsNeverProposed | scripts/portal-catalogue-land.py:387-396 | when nothing has to change no number of runs opens a pull request |
| PortalBumps.BumpRun | scripts/portal-catalogue-land.py:345-396 | with the App's one bump pull request open, a run that dies after any number of writes leaves a later stage of that pull request's branch and nothing else; one with two writes to spend is done |
| PortalBumps.WholeBumpRun | scripts/portal-catalogue-land.py:345-396 | one whole run leaves that branch's documents with both entries landed on that day, and opens nothing |
| PortalBumps.BumpCrashesAreContinued | scripts/portal-catalogue-land.py:325-408 | any sequence of runs, one of them with two writes to spend, ends with the documents of a single run on one of those days on that branch, the pull requests as they were and nothing else changed; a further run writes nothing |
| PortalBumps.SomeBumpIsReady | scripts/portal-catalogue-land.py:340-347 | every server id and tool name has a repository with such a bump pull request in which a run has something to land |
| PortalValidator.ErrorList.CheckCatalogue | scripts/validate-portal-allowlists.py:401-431 | the loop appends exactly the findings of the catalogue check |
| PortalValidator.ErrorList.CheckBaseline | scripts/validate-portal-allowlists.py:434-548 | the loop appends exactly the findings of the baseline check |
| PortalChecks.CatalogueCheckExactly | scripts/validate-portal-allowlists.py:401-431 | the catalogue check passes exactly when it lists the mapped servers and no other, each with names, each name once, and a decision for each where there is a list of decisions |
| PortalChecks.BaselineCheckExactly | scripts/validate-portal-allowlists.py:434-548 | the baseline check passes exactly when every server with a list of tools has an entry whose counts are integers, that names as many tools and prompts as it counts, each once, and nothing else is enabled, not even twice |
| PortalChecks.BaselineEntryExactly | scripts/validate-portal-allowlists.py:455-548 | the same of one entry |
| PortalChecks.CatalogueEntryExactly | scripts/validate-portal-allowlists.py:411-431 | and of one catalogue entry |
| PortalChecks.BaselineFindingsExactly | scripts/validate-portal-allowlists.py:460-548 | each finding of a baseline entry is made exactly when it is so, whatever else is found, with the names and numbers it is about |
| PortalChecks.CatalogueFindingIsSo | scripts/validate-portal-allowlists.py:411-431 | each finding of a catalogue entry is so, and names exactly the undecided tools |
| PortalChecks.CatalogueFindingIsMade | scripts/validate-portal-allowlists.py:411-431 | and none that is so goes unreported |
| PortalValidator.LandedCataloguePassesExactly | scripts/validate-portal-allowlists.py:401-431 | from a main that passes, the landed catalogue passes exactly when the branch's allowlist decides every live tool |
| PortalValidator.LandedCataloguePasses | scripts/portal-catalogue-land.py:102-168 | with main's own allowlist it always passes |
| PortalValidator.LandedBaselinePassesExactly | scripts/validate-portal-allowlists.py:434-548 | from a main that passes, the landed baseline passes exactly when the branch's allowlist, repeated entries counted, enables no more tools than tools_enabled and none outside enabled_tools |
| PortalValidator.LandedBaselinePasses | scripts/validate-portal-allowlists.py:434-548 | so it passes always with main's own allowlist, and with a bumped one whose names are unique |
| PortalValidator.UniqueNamesCountAlike | scripts/validate-portal-allowlists.py:497-513 | when no name is repeated the validator's count of enabled entries is the decision's count of enabled names |
| PortalValidator.OtherServersKeepTheirVerdict | scripts/validate-portal-allowlists.py:401-431 | the catalogue findings of every other server stay as they are |
| PortalValidator.OtherServersKeepTheirBaseline | scripts/validate-portal-allowlists.py:434-548 | so do its baseline findings |
| PortalValidator.NamelessToolKeepsLagging | scripts/portal-catalogue-drift.py:1154-1160 | a live list with one tool that has no name: its change is decided, and the report finds a lag before landing it and after |
| PortalValidator.DroppedToolIsNotRefused | scripts/portal-catalogue-land.py:142-147 | a main that passes both checks and a bump that drops a live tool's decision: it is decided as a change, and the catalogue check refuses the result |
| PortalValidator.RepeatedToolIsNotRefused | scripts/portal-catalogue-land.py:117-124 | a main that passes both checks and an allowlist that repeats an enabled name: it is decided as a change, and the baseline check refuses the result for its count |
| PortalValidator.HiddenSwitchIsNotRefused | scripts/portal-catalogue-land.py:117-124 | a main that passes both checks and an allowlist whose later entry turns an unlisted tool off again: it is decided as a change, and the baseline check refuses the result for the name, no count exceeded |
| GlobRegex.CompileGlob | scripts/validate-argocd-project-scope.py:82-98 | the loop emits the pattern's elements one after the other between the anchors |
| GlobRegex.EscapedExactly | scripts/validate-argocd-project-scope.py:84-97 | every character with a meaning of its own in a regular expression is escaped |
| GlobRegex.CompiledGlobMatchesExactly | scripts/validate-argocd-project-scope.py:82-98 | the emitted text, read as a regular expression, matches exactly the newline-free strings the glob means |
| GlobRegex.RunAcceptsExactly | scripts/validate-argocd-project-scope.py:82-98 | an executable matcher agrees with the same meaning |
| GlobRegex.LiteralAcceptsItself | scripts/validate-argocd-project-scope.py:93-96 | a pattern without wildcards accepts itself and nothing else |
| ProjectScope.LiteralRepoMatchesExactly | scripts/validate-argocd-project-scope.py:101-111 | a repository entry without wildcards matches exactly the URLs with its normal form |
| RepoSpelling.NormalizesExactly | scripts/validate-argocd-project-scope.py:101-105 | a URL has a plainest form exactly when it is, between blanks, a casing of it with or without ".git" |
| RepoSpelling.SpellingsMatchExactly | scripts/validate-argocd-project-scope.py:108-111 | an entry without wildcards and a URL match exactly when they are spellings of one repository |
| RepoSpelling.CaseAndGitDoNotMatter | scripts/validate-argocd-project-scope.py:337-343 | an entry with or without ".git" matches every casing of the URL, with or without ".git", between blanks |
| RepoSpelling.StarStaysInItsSegment | scripts/validate-argocd-project-scope.py:108-111 | an entry that ends in '*' matches exactly what continues it without a slash |
| RepoSpelling.StarAdmitsEverything | scripts/validate-argocd-project-scope.py:109-110 | '*' and '**' alone match every URL |
| RepoSpelling.PlainStarTakesEverything | scripts/validate-argocd-project-scope.py:114-115 | in a server or a namespace a '*' at the end takes everything |
| RepoSpelling.PermittedExactly | scripts/validate-argocd-project-scope.py:124-131 | a templated URL is permitted exactly by a bare '*'; any other exactly when some entry matches and no '!' entry does |
| ProjectScope.Project.DestPermitted | scripts/validate-argocd-project-scope.py:133-142 | the loop collects exactly the destinations that admit the pair |
| ProjectScope.Violations | scripts/validate-argocd-project-scope.py:224-268 | the loops report exactly the violations: what strict projects may not hold, what is used and not permitted, what is permitted and not used |
| ScopeChecks.CleanExactly | scripts/validate-argocd-project-scope.py:224-268 | nothing is found exactly when every source, the destination and every rendered namespace of every Application is permitted by its project, every entry without a star is used, and each strict project is there and holds no star |
| ScopeChecks.ReachesExactly | scripts/validate-argocd-project-scope.py:133-142 | a server and namespace are permitted exactly by a destination that matches both, a bare star for what is templated |
| ProjectScope.RepoBoundaryExactly | scripts/validate-argocd-project-scope.py:118-131 | without violations, a strict project permits an untemplated URL exactly when its normal form is that of a source of an Application in the project, or one of the project's '?' entries admits it |
| ProjectScope.RepoBoundaryIsExact | scripts/validate-argocd-project-scope.py:118-131 | so the boundary is exact when no permitting repository entry holds a '?' |
| RepoSpelling.SpelledBoundaryExactly | scripts/validate-argocd-project-scope.py:229-237 | the boundary of a clean strict project holds in every spelling of a repository |
| ProjectScope.DestinationBoundaryExactly | scripts/validate-argocd-project-scope.py:133-142 | and a server and namespace exactly when an Application there has it as its destination or as a rendered resource namespace, or a '?' destination admits it |
| ProjectScope.DestinationBoundaryIsExact | scripts/validate-argocd-project-scope.py:133-142 | so that boundary is exact when no destination holds a '?' |
| ProjectScope.QuestionMarkLeaks | scripts/validate-argocd-project-scope.py:229-237 | a strict project with a '?' entry and no violation that permits a repository no Application uses |
| ProjectScope.QuestionMarkLeaksNamespaces | scripts/validate-argocd-project-scope.py:229-237 | and one with a '?' destination that permits a namespace no Application reaches |
| ReleaseGate.PrintUndoesSemver | scripts/release-gate.py:28-34 | a tag that parses is printed back from its three numbers |
| ReleaseGate.SemverUndoesPrint | scripts/release-gate.py:28-34 | every printed version parses to itself |
| ReleaseGate.SameVersionSameTag | scripts/release-gate.py:32-34 | equal versions are equal tag strings |
| ReleaseGate.Problems | scripts/release-gate.py:65-118 | the nested loops report exactly the problems, in order, in check and in verify mode |
| ReleaseChecks.CheckExactly | scripts/release-gate.py:65-118 | nothing is found exactly when the gate file can be read and every gate fits: untouched, or all of its files listed with a new version that reaches the floor; tags that are versions and agree, the repository that the gate names, and every required value |
| ReleaseChecks.FindingsExactly | scripts/release-gate.py:89-117 | each finding about a file's tag or repository or a required value is reported exactly when it is so |
| ReleaseChecks.BumpFindings | scripts/release-gate.py:79-88 | a bump is reported as partial with exactly the paths it misses, and its tag as no version or below the floor exactly when it is |
| ReleaseChecks.DifferenceExactly | scripts/release-gate.py:104-108 | the tags of a group differ exactly when two of its files carry two |
| ReleaseChecks.GatesExactly | scripts/release-gate.py:49-62 | the gates are those written in the gate file, and there are some exactly when each has a name, paths, a version as its floor and required values of its own paths |
| ReleaseChecks.OnlyTextIsAVersion | scripts/release-gate.py:32-34 | no number, truth value, list or mapping prints as a version |
| ReleaseChecks.LessExactly | scripts/release-gate.py:84-88 | versions are ordered by the first number in which they differ, the major one first |
| ReleaseChecks.LessIsAStrictOrder | scripts/release-gate.py:84-88 | that order is strict and total |
| ReleaseChecks.BelowTheFloorIsRefused | scripts/release-gate.py:86-88 | a bump that touches a gate with a version below its floor is refused |
| ReleaseGate.TouchedGateAfterBump | scripts/release-gate.py:76-118 | a passing check alone makes a touched gate clean after the bump, exactly when the tags it pins agree with the new one |
| ReleaseGate.UntouchedGateAfterBump | scripts/release-gate.py:76-80 | the verdict on a gate the bump does not touch stays |
| ReleaseGate.BumpKeepsTreeCleanExactly | scripts/release-gate.py:65-118 | a bump that passes keeps a clean tree clean exactly when no pinned tag moves, gates that share files included |
| ReleaseGate.BumpsKeepTreeClean | scripts/release-gate.py:65-118 | without pins, every sequence of bumps that each pass keeps the tree clean |
| ReleaseGate.PinnedTagBreaksTheTree | scripts/release-gate.py:107-117 | a tree with its gate file, clean, a bump that passes, and a bumped tree that is not clean |
| YqTokenizer.Tokenize | scripts/validate-yq-interpolation.py:73-106 | the loop returns the maximal stretches of the line that hold no unquoted, unescaped whitespace |
| YqTokenizer.TokensKeepTheLine | scripts/validate-yq-interpolation.py:73-106 | the concatenated tokens are the line with exactly its unquoted, unescaped whitespace removed |
| YqTokenizer.NoCharacterIsLost | scripts/validate-yq-interpolation.py:73-106 | every '$', and every other character that is no whitespace, is in the tokens as often as in the line |
| YqTokenizer.TokensExactly | scripts/validate-yq-interpolation.py:73-106 | a line's tokens are the one list of words it can be laid out from, whatever the blanks, open quotes and trailing backslashes included |
| YqTokenizer.TokensAreStable | scripts/validate-yq-interpolation.py:73-106 | tokenizing the tokens joined by spaces gives the same tokens |
| YqQuoting.TokensAreTheWords | scripts/validate-yq-interpolation.py:73-106 | a line written in bare characters, backslash pairs and closed quotes is taken apart at its blanks and nowhere else |
| YqQuoting.QuotedIsOneToken | scripts/validate-yq-interpolation.py:95-97 | between two quotes of either kind everything is one token, whatever blanks it holds |
| YqQuoting.QuotedIsOneMoreToken | scripts/validate-yq-interpolation.py:95-97 | after any such line and a blank a quoted text is one more token |
| YqQuoting.BackslashTakesTheMeaning | scripts/validate-yq-interpolation.py:83-90 | a backslash takes the meaning of the next character away, outside quotes and inside |
| YqQuoting.OpenQuoteTakesTheRest | scripts/validate-yq-interpolation.py:91-97 | a quote that is never closed takes the rest of the line |
| YqTokenizer.ExpressionOf | scripts/validate-yq-interpolation.py:109-125 | the result is the first token after the leftmost yq call that is neither an option, an option's value nor a subcommand; none exactly when there is no such token |
| YqQuoting.QuotedExpressionOfCall | scripts/validate-yq-interpolation.py:109-125 | behind yq, options with and without a value, and subcommands, a quoted argument is the expression, whole |
| YqQuoting.CallExactly | scripts/validate-yq-interpolation.py:44 | the arguments are what follows the first yq that is a word of its own and no part of a path or an option |
| YqTokenizer.ValuesAlternate | scripts/validate-yq-interpolation.py:114-121 | a token is skipped as a value exactly when an odd number of value-taking options stands right before it |
| DigestFraming.Digest | scripts/proposal-content-digest.py:27-37 | feeding the hash piece by piece gives the hash of the one framed stream |
| DigestFraming.StreamIsRead | scripts/proposal-content-digest.py:27-37 | a reader recovers each file's presence and bytes from the stream, whatever the bytes and whatever follows |
| DigestFraming.ReadIsFramed | scripts/proposal-content-digest.py:27-37 | the reader accepts framed streams only |
| DigestFraming.FramingIsPrefixFree | scripts/proposal-content-digest.py:27-37 | for a fixed list of names the framing is injective and no stream begins another |
| DigestFraming.DigestBindsTheFiles | scripts/proposal-content-digest.py:1-14 | equal digests mean equal files, or two different streams on which the hash function collides |
| VersionConstraint.ParseVersion | scripts/validate-agent-platform.py:74-81 | the loop reads a dotted list of decimal numbers and refuses anything else |
| VersionConstraint.PaddingIsZeros | scripts/validate-agent-platform.py:101-103 | comparing padded tuples is comparing the two sequences continued by zeros |
| VersionConstraint.ComparisonIsTotal | scripts/validate-agent-platform.py:101-120 | of smaller, same and larger exactly one holds |
| VersionConstraint.ComparisonIsTransitive | scripts/validate-agent-platform.py:101-120 | the comparison is transitive, strictly when one side is |
| VersionConstraint.VersionSatisfies | scripts/validate-agent-platform.py:106-120 | the loop answers whether every comparator holds, and refuses what does not parse |
| VersionChecks.SatisfiesExactly | scripts/validate-agent-platform.py:106-120 | the answer is yes exactly when version and constraint can be read and every comparator, operator by operator, holds of the numbers as written; there is an answer exactly when both can be read |
| VersionChecks.AsksExactly | scripts/validate-agent-platform.py:108-119 | each operator means what it says, missing components counting as zero |
| VersionChecks.WrittenExactly | scripts/validate-agent-platform.py:74-81 | a version is read exactly as its dotted decimal numbers |
| VersionConstraint.ConsumedExactly | scripts/validate-agent-platform.py:91-97 | the whitespace-stripped comparison succeeds exactly when everything skipped between the matches is blank |
| VersionConstraint.ConstraintIsParsed | scripts/validate-agent-platform.py:84-98 | comparators written with optional whitespace are parsed as those comparators |
| VersionConstraint.AcceptsExactly | scripts/validate-agent-platform.py:84-98 | a text is accepted exactly when it is at least one comparator with optional whitespace around and between |
| VersionConstraint.TrailingZeroIsNothing | scripts/validate-agent-platform.py:101-120 | appending ".0" to a version changes neither whether it parses nor what it satisfies |
| VersionConstraint.SatisfyingSetIsConvex | scripts/validate-agent-platform.py:106-120 | a version between two that satisfy a constraint satisfies it |
| ClosedObjects.PathsArePositions | scripts/portal-catalogue-drift.py:286-310 | the walk reports one path for each closed position, in order |
| ClosedObjects.WalkIsExact | scripts/portal-catalogue-drift.py:270-310 | a position is reported exactly when following listed keywords leads there to a subschema that forbids additional properties, however deep; data such as examples never counts |
| ClosedKeywords.ReportedExactly | scripts/portal-catalogue-drift.py:278-310 | over the keywords of JSON Schema, a path is reported exactly when it leads through those that hold subschemas to an object that forbids additional properties |
| ClosedKeywords.EveryKeywordIsFollowed | scripts/portal-catalogue-drift.py:278-310 | a closed object directly under any of the twenty keywords is reported at its path |
| ClosedObjects.PositionsAreDistinct | scripts/portal-catalogue-drift.py:286-310 | no position is reported twice |
| ClosedObjects.PathsAreDistinct | scripts/portal-catalogue-drift.py:286-310 | with no slash in the names the walk passes through, whatever names the data holds, no path is reported twice |
| ClosedObjects.SlashRepeatsAPath | scripts/portal-catalogue-drift.py:293-297 | a schema with a slash in a property name for which one path is reported twice |
| ClosedObjects.JsonSchemaIsAVocabulary | scripts/portal-catalogue-drift.py:278-283 | the listed keywords are distinct, hold no slash and begin with no digit, which the path results need |
| PreviewRewrite.RewriteKeyIsIdempotent | platform-gitops/argo-workflows/scripts/rewrite_preview_values.py:42-67 | rewriting a rewritten key changes nothing |
| PreviewRewrite.RewrittenReadsPreview | platform-gitops/argo-workflows/scripts/rewrite_preview_values.py:42-67 | an accepted tenant key reads below <service>/preview of the same team and service afterwards |
| PreviewChecks.KeyExactly | platform-gitops/argo-workflows/scripts/rewrite_preview_values.py:42-67 | a key becomes another exactly when both are one platform key, or a key of the team and that key with preview behind its service |
| PreviewChecks.SecretExactly | platform-gitops/argo-workflows/scripts/rewrite_preview_values.py:80-133 | a secret is rewritten exactly when its keys are the platform's or the team's and not both; every key moves, and the store is forced exactly for team keys |
| PreviewChecks.PathMoves | platform-gitops/argo-workflows/scripts/rewrite_preview_values.py:135-140 | a database path moves as a key does, and the team's forces the store |
| PreviewChecks.ValuesExactly | platform-gitops/argo-workflows/scripts/rewrite_preview_values.py:112-147 | values are rewritten exactly when every secret and path in them, as they are before, is accepted |
| PreviewRewrite.KeysCollideExactly | platform-gitops/argo-workflows/scripts/rewrite_preview_values.py:58-67 | two accepted keys not yet under preview/ become one key exactly when they are equal or both end at the same service, one with a slash behind it |
| PreviewRewrite.TrailingSlashCollides | platform-gitops/argo-workflows/scripts/rewrite_preview_values.py:58-67 | for every service two different keys that become one |
| PreviewRewrite.ClassifyKeys | platform-gitops/argo-workflows/scripts/rewrite_preview_values.py:80-96 | the loop finds out whether there are platform keys and whether there are team keys |
| PreviewRewrite.RewriteDataList | platform-gitops/argo-workflows/scripts/rewrite_preview_values.py:104-109 | the loop rewrites the key of every item, or refuses when one is refused |
| PreviewRewrite.RewriteServiceValues | platform-gitops/argo-workflows/scripts/rewrite_preview_values.py:112-147 | the three parts rewritten one after the other are every part rewritten by its name |
| PreviewRewrite.RewritingTwiceIsRewritingOnce | platform-gitops/argo-workflows/scripts/rewrite_preview_values.py:112-147 | rewriting rewritten values succeeds and changes nothing |
| PreviewRewrite.RewriteChangesOnlyKeysAndStores | platform-gitops/argo-workflows/scripts/rewrite_preview_values.py:99-147 | only remoteKey, vaultPath, store and storeKind change, and every secret with a team key ends on tenant-store |
| PreviewRewrite.RewrittenSecretPasses | platform-gitops/argo-workflows/scripts/rewrite_preview_values.py:150-166 | every key of a rewritten secret passes the final walk |
| PreviewRewrite.RewrittenDbPasses | platform-gitops/argo-workflows/scripts/rewrite_preview_values.py:150-166 | so does a rewritten vaultPath |
| PreviewRewrite.RewrittenValuesPass | platform-gitops/argo-workflows/scripts/rewrite_preview_values.py:150-170 | a successful rewrite of the values passes the final walk at every key and path it rewrites |
| Pagination.ReadServers | scripts/cloudflare-portal-health.py:69-107 | a list is returned only as the concatenation of all pages asked for, none failed, the last one recognised as last; otherwise nothing |
| Pagination.CountedListIsReadWhole | scripts/cloudflare-portal-health.py:36-107 | of an unchanging list with its total reported the answer is the list when it has 1 to PER_PAGE * MAX_PAGES servers, else none |
| Pagination.UncountedListIsReadWhole | scripts/cloudflare-portal-health.py:96-104 | without the total it is the list when it has 1 to PER_PAGE - 1 servers, else none |
| Pagination.AnswerIsUnique | scripts/cloudflare-portal-health.py:69-107 | whatever the pages, there is one answer |
| Pagination.LabelEscapesEachCharacter | scripts/cloudflare-portal-health.py:114-115 | the three replacements in a row escape each character once |
| Pagination.LabelIsReadBack | scripts/cloudflare-portal-health.py:114-115 | a label value between quotes is read back, whatever it contains and whatever follows |
| Waivers.ApplyWaivers | scripts/portal-catalogue-drift.py:504-575 | the loops return the failing and the excused findings in order, and exactly the notes that are due |
| Waivers.FindingsArePartitioned | scripts/portal-catalogue-drift.py:528-549 | every finding lands in exactly one list, excused exactly when an unexpired waiver for its server and kind covers all its names |
| Waivers.OrderDoesNotMatter | scripts/portal-catalogue-drift.py:551-574 | the notes do not depend on the order of the findings or their repetition |
| Waivers.SplittingDoesNotMatter | scripts/portal-catalogue-drift.py:523-526 | a covered finding split into parts fails as little and asks for the same notes |
| Waivers.UncomparedCondemnsNothing | scripts/portal-catalogue-drift.py:566-574 | a server that was not compared has none of its waivers condemned |
| ModuleWorklist.Collect | scripts/portal-catalogue-drift.py:172-212 | the worklist ends, and collects exactly the values of the MCP server resources at any depth of the tree |
| ModuleWorklist.ServerIdsFromState | scripts/portal-catalogue-drift.py:189-212 | exactly the ids of those resources |
| ModuleWorklist.AccountFromState | scripts/portal-catalogue-drift.py:172-186 | an account exactly when those resources name exactly one |

## Left out

- Signing in and out (APILogin, APILogout, ZitadelLogin, ZitadelLogout) and the loopback callback: they write or remove the token file without the lock and would void the single-use hypothesis.
- HTTP, OAuth, `gh`, `git` and `helm` calls, clocks and random numbers: nondeterministic steps, parameters or abstract maps. Drawn owner strings are distinct by assumption.
- TokenLock.MutualExclusion: Stat and the staleness comparison are one step, and so is the removal of a renamed stale file, which no other process looks at.
- TokenFile.WriteOwnerOnly: a failed rename is taken to have renamed nothing; the directory itself exists.
- SHA-256: a parameter of the framed stream, and the seven digits that name a proposal branch are a parameter too.
- PortalCrashes.CrashesAreContinued, PortalBumps.BumpCrashesAreContinued: main, the live list and the allowlist stay fixed, as the run's own restart assumes; the `recorded` date is that of one of the runs, since the code dates the entry with the day it writes it.
- The GitHub compare endpoint pages its commits; a comparison that does not list every commit ends in the source's "unknown" and is not modelled.
- JSON numbers other than integers, the order of an object's keys, and the exact text of a rewritten file: two documents are compared as values. A tool name that is a list or an object, which makes the validator itself fail, is not modelled.
- The validator's other checks (shape, coverage, sources, existence in the Terraform text): each is settled by reading one branch.
- The drift detector's `compare` and its fetching: it compares two lists, and its findings are the input of `Waivers`.
- GlobRegex.CompiledGlobMatchesExactly: strings without line breaks, ASCII letters; the regular-expression engine is modelled on the constructs that are emitted.
- ProjectScope.RepoBoundaryIsExact: lower-casing is that of ASCII letters.
- ReleaseGate.SemverOf: arbitrarily long numerals are read; Python's limit on the length of a converted number is not modelled. Two spellings of one file path are two paths.
- YqTokenizer.ExpressionOf: lines as the scan hands them over, without line breaks; reading the YAML templates and the list of known exceptions is not modelled.
- The rest of the agent-platform validator: field checks, policy references and the comparison of a rollback with its recorded pair, each settled by one branch.
- PreviewRewrite.RewriteKey: the service argument of the script is never used by it, so it is no parameter here, although the script's description speaks of teams/<team>/<service>.
- Message texts, `::error` formatting, argument parsing, metric text other than label values, and every self-test.
